/** The JavaScript built-ins the core relies on: String.prototype.indexOf,
    number-to-text in template literals, parseInt(v, 10) and the UTF-8
    encoding Buffer.from applies to strings. */
module Js {
  import opened Base

  // ---------------------------------------------------------------------------
  // indexOf

  /** `sub` occurs in `s` starting at index i. */
  predicate OccursAt(s: string, sub: string, i: int)
  {
    0 <= i && i + |sub| <= |s| && s[i..i + |sub|] == sub
  }

  lemma OccursShift(s: string, sub: string, j: int)
    requires s != [] && j >= 0
    ensures OccursAt(s, sub, j + 1) <==> OccursAt(s[1..], sub, j)
  {
    if 0 <= j && j + 1 + |sub| <= |s| {
      assert s[1..][j..j + |sub|] == s[j + 1..j + 1 + |sub|];
    }
  }

  /** s.indexOf(sub): the first index where sub occurs, or -1 when it does not occur. */
  function IndexOf(s: string, sub: string): (r: int)
    ensures -1 <= r
    ensures r == -1 <==> forall i :: !OccursAt(s, sub, i)
    ensures r >= 0 ==> OccursAt(s, sub, r) && forall j :: 0 <= j < r ==> !OccursAt(s, sub, j)
    decreases |s|
  {
    if |s| < |sub| then -1
    else if s[..|sub|] == sub then assert OccursAt(s, sub, 0); 0
    else
      var k := IndexOf(s[1..], sub);
      assert !OccursAt(s, sub, 0);
      assert forall j :: j >= 0 ==> (OccursAt(s, sub, j + 1) <==> OccursAt(s[1..], sub, j)) by {
        forall j | j >= 0 ensures OccursAt(s, sub, j + 1) <==> OccursAt(s[1..], sub, j) {
          OccursShift(s, sub, j);
        }
      }
      assert forall i :: OccursAt(s, sub, i) ==> i >= 1 && OccursAt(s[1..], sub, i - 1);
      if k == -1 then -1 else k + 1
  }

  /** `s.indexOf(sub) !== -1`. */
  predicate Contains(s: string, sub: string)
  {
    IndexOf(s, sub) != -1
  }

  // ---------------------------------------------------------------------------
  // Decimal text of a number (`${n}` for a non-negative integer)

  function DigitChar(d: nat): char
    requires d < 10
  {
    (48 + d) as char
  }

  function NatToString(n: nat): (s: string)
    ensures |s| >= 1 && forall i :: 0 <= i < |s| ==> IsDigit(s[i])
  {
    if n < 10 then [DigitChar(n)] else NatToString(n / 10) + [DigitChar(n % 10)]
  }

  // ---------------------------------------------------------------------------
  // parseInt(v, 10)

  predicate IsDigit(c: char) { '0' <= c <= '9' }

  /** The white space parseInt skips (StrWhiteSpaceChar of ECMA-262). */
  predicate IsWhiteSpace(c: char)
  {
    c == '\t' || c == '\n' || c == '\U{000B}' || c == '\U{000C}' || c == '\r' || c == ' '
    || c == '\U{00A0}' || c == '\U{1680}' || ('\U{2000}' <= c <= '\U{200A}')
    || c == '\U{2028}' || c == '\U{2029}' || c == '\U{202F}' || c == '\U{205F}'
    || c == '\U{3000}' || c == '\U{FEFF}'
  }

  function TrimStart(s: string): (t: string)
    ensures t == [] || !IsWhiteSpace(t[0])
    ensures |t| <= |s| && t == s[|s| - |t|..]
  {
    if s != [] && IsWhiteSpace(s[0]) then TrimStart(s[1..]) else s
  }

  /** The length of the run of decimal digits at the start of s. */
  function DigitRun(s: string): (k: nat)
    ensures k <= |s|
    ensures forall i :: 0 <= i < k ==> IsDigit(s[i])
    ensures k < |s| ==> !IsDigit(s[k])
  {
    if s != [] && IsDigit(s[0]) then 1 + DigitRun(s[1..]) else 0
  }

  /** The value of a string of decimal digits. */
  function DigitsValue(s: string): nat
    requires forall i :: 0 <= i < |s| ==> IsDigit(s[i])
  {
    if s == [] then 0
    else
      assert IsDigit(s[|s| - 1]);
      DigitsValue(s[..|s| - 1]) * 10 + (s[|s| - 1] as int - 48)
  }

  /** parseInt(v, 10): leading white space, an optional sign, then the longest run of
      decimal digits; None stands for NaN (no digit at all). */
  function ParseInt(v: string): (r: Option<int>)
    ensures r.None? <==> DigitRun(SignStripped(TrimStart(v))) == 0
  {
    var t := TrimStart(v);
    var u := SignStripped(t);
    var k := DigitRun(u);
    if k == 0 then None
    else
      var m: int := DigitsValue(u[..k]);
      Some(if t[0] == '-' then -m else m)
  }

  function SignStripped(t: string): (u: string)
    ensures |u| <= |t|
  {
    if t != [] && (t[0] == '-' || t[0] == '+') then t[1..] else t
  }

  lemma {:induction false} DigitsOfNat(n: nat)
    ensures DigitsValue(NatToString(n)) == n
  {
    var s := NatToString(n);
    if n >= 10 {
      DigitsOfNat(n / 10);
      assert s[..|s| - 1] == NatToString(n / 10);
    }
  }

  lemma {:induction false} RunOfDigits(s: string, rest: string)
    requires forall i :: 0 <= i < |s| ==> IsDigit(s[i])
    requires rest == [] || !IsDigit(rest[0])
    ensures DigitRun(s + rest) == |s|
    decreases |s|
  {
    if s != [] {
      assert (s + rest)[1..] == s[1..] + rest;
      RunOfDigits(s[1..], rest);
    }
  }

  /** Text starting with a digit is left alone by the white-space and sign steps. */
  lemma DigitStart(v: string)
    requires v != [] && IsDigit(v[0])
    ensures TrimStart(v) == v && SignStripped(v) == v
  {
    assert !IsWhiteSpace(v[0]);
  }

  /** parseInt reads back the decimal text of a number, whatever non-digit text follows. */
  lemma ParseIntOfNat(n: nat, rest: string)
    requires rest == [] || !IsDigit(rest[0])
    ensures ParseInt(NatToString(n) + rest) == Some(n)
  {
    var s := NatToString(n);
    var v := s + rest;
    assert v[0] == s[0];
    DigitStart(v);
    RunOfDigits(s, rest);
    assert v[..|s|] == s;
    DigitsOfNat(n);
    assert ParseInt(v) == Some(DigitsValue(v[..DigitRun(v)]));
  }

  // ---------------------------------------------------------------------------
  // UTF-8 (Buffer.from(string))

  function Utf8Char(c: char): (b: seq<Byte>)
    ensures 1 <= |b| <= 4
    ensures (c as int < 128) <==> b == [c as int]
  {
    var n := c as int;
    if n < 0x80 then [n]
    else if n < 0x800 then [0xC0 + n / 0x40, 0x80 + n % 0x40]
    else if n < 0x1_0000 then [0xE0 + n / 0x1000, 0x80 + (n / 0x40) % 0x40, 0x80 + n % 0x40]
    else [0xF0 + n / 0x4_0000, 0x80 + (n / 0x1000) % 0x40, 0x80 + (n / 0x40) % 0x40, 0x80 + n % 0x40]
  }

  /** The UTF-8 bytes of a string. */
  function Utf8(s: string): (b: seq<Byte>)
    ensures |s| <= |b| <= 4 * |s|
    ensures (forall i :: 0 <= i < |s| ==> s[i] as int < 128) ==>
      |b| == |s| && forall i :: 0 <= i < |s| ==> b[i] == s[i] as int
  {
    if s == [] then [] else Utf8(s[..|s| - 1]) + Utf8Char(s[|s| - 1])
  }
}
