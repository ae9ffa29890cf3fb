/** The binary framing of a cached page (src/payload.ts):
    `%NB%`, the length of the header JSON as a big-endian uint32, the header
    JSON text, then the body bytes. */
module Payload {
  import opened Base

  /** The bytes of `%NB%`. */
  const MAGIC: seq<Byte> := [37, 78, 66, 37]
  const LENGTH_SIZE: nat := 4
  /** Offset of the header JSON: magic plus length field. */
  const HEADER_OFFSET: nat := 8
  /** writeUInt32BE accepts values below this bound. */
  const UINT32_LIMIT: nat := 0x1_0000_0000

  /** One member of the header object; name and value as their UTF-8 bytes. */
  datatype Field = Field(name: seq<Byte>, value: seq<Byte>)

  /** The `headers` of a page as a JSON value: `null`, or an object whose members are strings. */
  datatype Headers = Null | Object(fields: seq<Field>)

  /** A page: headers and body; the body may be null when encoding. */
  datatype PagePayload = PagePayload(headers: Headers, body: Option<seq<Byte>>)

  datatype PayloadError =
    | InvalidPayload   // the leading bytes are not `%NB%`
    | OutOfRange       // a uint32 read or write outside the buffer / value range
    | InvalidJson      // the header bytes are not JSON of the modelled shape

  // ---------------------------------------------------------------------------
  // Big-endian uint32 (Buffer.writeUInt32BE / readUInt32BE)

  function ReadUInt32BE(b: seq<Byte>): (n: nat)
    requires |b| == 4
    ensures n < UINT32_LIMIT
  {
    var b0: int, b1: int, b2: int, b3: int := b[0], b[1], b[2], b[3];
    ((b0 * 256 + b1) * 256 + b2) * 256 + b3
  }

  function WriteUInt32BE(n: nat): (b: seq<Byte>)
    requires n < UINT32_LIMIT
    ensures |b| == 4 && ReadUInt32BE(b) == n
  {
    var n1 := n / 256;
    var n2 := n1 / 256;
    var n3 := n2 / 256;
    assert n3 < 256;
    [n3, n2 % 256, n1 % 256, n % 256]
  }

  // ---------------------------------------------------------------------------
  // JSON text of the headers, as JSON.stringify writes it (RFC 8259 section 7:
  // `"` and `\` escaped, control characters as \b \t \n \f \r or \u00xx).

  const QUOTE: Byte := 34
  const BACKSLASH: Byte := 92
  const SLASH: Byte := 47
  const COLON: Byte := 58
  const COMMA: Byte := 44
  const LBRACE: Byte := 123
  const RBRACE: Byte := 125
  /** The text `null`. */
  const NULL_TEXT: seq<Byte> := [110, 117, 108, 108]

  /** The lower-case hexadecimal digit of d. */
  function HexDigit(d: nat): Byte
    requires d < 16
  {
    if d < 10 then 48 + d else 87 + d
  }

  /** The value of a hexadecimal digit in either case. */
  function HexValue(c: Byte): Option<nat>
  {
    if 48 <= c <= 57 then Some(c - 48)
    else if 97 <= c <= 102 then Some(c - 87)
    else if 65 <= c <= 70 then Some(c - 55)
    else None
  }

  /** The JSON text for one byte inside a string literal. */
  function Escape(c: Byte): seq<Byte>
  {
    if c == QUOTE then [BACKSLASH, QUOTE]
    else if c == BACKSLASH then [BACKSLASH, BACKSLASH]
    else if c == 8 then [BACKSLASH, 98]
    else if c == 9 then [BACKSLASH, 116]
    else if c == 10 then [BACKSLASH, 110]
    else if c == 12 then [BACKSLASH, 102]
    else if c == 13 then [BACKSLASH, 114]
    else if c < 32 then [BACKSLASH, 117, 48, 48, HexDigit(c / 16), HexDigit(c % 16)]
    else [c]
  }

  function EscapeAll(s: seq<Byte>): seq<Byte>
  {
    if s == [] then [] else Escape(s[0]) + EscapeAll(s[1..])
  }

  function Quote(s: seq<Byte>): seq<Byte>
  {
    [QUOTE] + EscapeAll(s) + [QUOTE]
  }

  function FieldText(f: Field): seq<Byte>
  {
    Quote(f.name) + [COLON] + Quote(f.value)
  }

  /** The members of an object, separated by commas. */
  function MembersText(fs: seq<Field>): seq<Byte>
  {
    if fs == [] then []
    else if |fs| == 1 then FieldText(fs[0])
    else FieldText(fs[0]) + [COMMA] + MembersText(fs[1..])
  }

  /** JSON.stringify(headers), as bytes. */
  function Serialize(h: Headers): (r: seq<Byte>)
    ensures |r| >= 2 && (r[0] == LBRACE <==> h.Object?) && (h.Object? ==> r[|r| - 1] == RBRACE)
  {
    match h
    case Null => NULL_TEXT
    case Object(fs) => [LBRACE] + MembersText(fs) + [RBRACE]
  }

  /** The byte an escape sequence stands for; `e` starts just after the backslash.
      `\u` escapes are read for ASCII code points only. */
  function Unescape(e: seq<Byte>): (r: Option<(Byte, seq<Byte>)>)
    ensures r.Some? ==> |r.value.1| < |e|
  {
    if e == [] then None
    else if e[0] == QUOTE || e[0] == BACKSLASH || e[0] == SLASH then Some((e[0], e[1..]))
    else if e[0] == 98 then Some((8, e[1..]))
    else if e[0] == 116 then Some((9, e[1..]))
    else if e[0] == 110 then Some((10, e[1..]))
    else if e[0] == 102 then Some((12, e[1..]))
    else if e[0] == 114 then Some((13, e[1..]))
    else if e[0] == 117 && |e| >= 5 && HexValue(e[1]) == Some(0) && HexValue(e[2]) == Some(0)
            && HexValue(e[3]).Some? && HexValue(e[4]).Some? && HexValue(e[3]).value < 8 then
      Some((HexValue(e[3]).value * 16 + HexValue(e[4]).value, e[5..]))
    else None
  }

  /** Reads the rest of a string literal (after its opening quote):
      its content and what follows the closing quote. */
  function ParseString(b: seq<Byte>): (r: Option<(seq<Byte>, seq<Byte>)>)
    ensures r.Some? ==> |r.value.1| < |b|
    decreases |b|
  {
    if b == [] then None
    else if b[0] == QUOTE then Some(([], b[1..]))
    else if b[0] == BACKSLASH then
      match Unescape(b[1..])
      case None => None
      case Some((c, rest)) =>
        match ParseString(rest)
        case None => None
        case Some((t, after)) => Some(([c] + t, after))
    else if b[0] < 32 then None
    else
      match ParseString(b[1..])
      case None => None
      case Some((t, after)) => Some(([b[0]] + t, after))
  }

  /** Reads one `"name":"value"` member. */
  function ParseField(b: seq<Byte>): (r: Option<(Field, seq<Byte>)>)
    ensures r.Some? ==> |r.value.1| < |b|
  {
    if b == [] || b[0] != QUOTE then None
    else
      match ParseString(b[1..])
      case None => None
      case Some((name, rest)) =>
        if rest == [] || rest[0] != COLON || |rest| < 2 || rest[1] != QUOTE then None
        else
          match ParseString(rest[2..])
          case None => None
          case Some((value, after)) => Some((Field(name, value), after))
  }

  /** Reads `member (, member)* }` and returns the members and what follows the brace. */
  function ParseMembers(b: seq<Byte>): (r: Option<(seq<Field>, seq<Byte>)>)
    decreases |b|
  {
    match ParseField(b)
    case None => None
    case Some((f, rest)) =>
      if rest == [] then None
      else if rest[0] == RBRACE then Some(([f], rest[1..]))
      else if rest[0] == COMMA then
        match ParseMembers(rest[1..])
        case None => None
        case Some((fs, after)) => Some(([f] + fs, after))
      else None
  }

  // ---------------------------------------------------------------------------
  // The object JSON.parse builds from the members it reads

  /** `o[name]`: the value of the first member with that name. */
  function ValueOf(fs: seq<Field>, name: seq<Byte>): Option<seq<Byte>>
  {
    if fs == [] then None
    else if fs[0].name == name then Some(fs[0].value)
    else ValueOf(fs[1..], name)
  }

  /** The value of the last member with that name. */
  function LastValue(fs: seq<Field>, name: seq<Byte>): Option<seq<Byte>>
  {
    if fs == [] then None
    else if fs[|fs| - 1].name == name then Some(fs[|fs| - 1].value)
    else LastValue(fs[..|fs| - 1], name)
  }

  /** No name occurs twice, as in the members of a JavaScript object. */
  predicate DistinctNames(fs: seq<Field>)
  {
    fs == [] || (ValueOf(fs[1..], fs[0].name).None? && DistinctNames(fs[1..]))
  }

  /** The headers of a JavaScript object: null, or members with distinct names. */
  predicate WellFormed(h: Headers)
  {
    h.Object? ==> DistinctNames(h.fields)
  }

  /** `o[f.name] = f.value`: a name already present keeps its place and takes the
      new value; a new name is appended. */
  function Assign(fs: seq<Field>, f: Field): seq<Field>
  {
    if fs == [] then [f]
    else if fs[0].name == f.name then [f] + fs[1..]
    else [fs[0]] + Assign(fs[1..], f)
  }

  /** The object built from the members in the order they are read. */
  function Members(fs: seq<Field>): seq<Field>
  {
    if fs == [] then [] else Assign(Members(fs[..|fs| - 1]), fs[|fs| - 1])
  }

  lemma {:induction false} AssignReads(fs: seq<Field>, f: Field, name: seq<Byte>)
    ensures ValueOf(Assign(fs, f), name) == if name == f.name then Some(f.value) else ValueOf(fs, name)
  {
    if fs != [] && fs[0].name != f.name {
      AssignReads(fs[1..], f, name);
      assert ([fs[0]] + Assign(fs[1..], f))[1..] == Assign(fs[1..], f);
    } else if fs != [] {
      assert ([f] + fs[1..])[1..] == fs[1..];
    }
  }

  lemma {:induction false} AssignKeepsDistinct(fs: seq<Field>, f: Field)
    requires DistinctNames(fs)
    ensures DistinctNames(Assign(fs, f))
  {
    if fs == [] {
      assert [f][1..] == [];
    } else if fs[0].name == f.name {
      assert ([f] + fs[1..])[1..] == fs[1..];
    } else {
      AssignKeepsDistinct(fs[1..], f);
      AssignReads(fs[1..], f, fs[0].name);
      assert ([fs[0]] + Assign(fs[1..], f))[1..] == Assign(fs[1..], f);
    }
  }

  lemma {:induction false} AssignNew(fs: seq<Field>, f: Field)
    requires ValueOf(fs, f.name).None?
    ensures Assign(fs, f) == fs + [f]
  {
    if fs != [] {
      AssignNew(fs[1..], f);
      assert [fs[0]] + (fs[1..] + [f]) == fs + [f];
    }
  }

  lemma {:induction false} ValueOfSnoc(fs: seq<Field>, f: Field, name: seq<Byte>)
    ensures ValueOf(fs + [f], name) ==
      if ValueOf(fs, name).Some? then ValueOf(fs, name) else if f.name == name then Some(f.value) else None
  {
    if fs != [] {
      ValueOfSnoc(fs[1..], f, name);
      assert (fs + [f])[1..] == fs[1..] + [f];
    } else {
      assert [f][1..] == [];
    }
  }

  lemma {:induction false} DistinctSnoc(fs: seq<Field>, f: Field)
    ensures DistinctNames(fs + [f]) <==> DistinctNames(fs) && ValueOf(fs, f.name).None?
  {
    if fs == [] {
      assert [f][1..] == [];
    } else {
      DistinctSnoc(fs[1..], f);
      ValueOfSnoc(fs[1..], f, fs[0].name);
      assert (fs + [f])[1..] == fs[1..] + [f];
    }
  }

  /** Members with distinct names build the object with those members in order. */
  lemma {:induction false} MembersOfDistinct(fs: seq<Field>)
    requires DistinctNames(fs)
    ensures Members(fs) == fs
  {
    if fs != [] {
      var init, last := fs[..|fs| - 1], fs[|fs| - 1];
      assert init + [last] == fs;
      DistinctSnoc(init, last);
      MembersOfDistinct(init);
      AssignNew(init, last);
    }
  }

  /** The object built never holds a name twice. */
  lemma {:induction false} MembersDistinct(fs: seq<Field>)
    ensures DistinctNames(Members(fs))
  {
    if fs != [] {
      MembersDistinct(fs[..|fs| - 1]);
      AssignKeepsDistinct(Members(fs[..|fs| - 1]), fs[|fs| - 1]);
    }
  }

  /** Each name of the object holds the value of the last member with that name. */
  lemma {:induction false} MembersKeepLast(fs: seq<Field>, name: seq<Byte>)
    ensures ValueOf(Members(fs), name) == LastValue(fs, name)
  {
    if fs != [] {
      MembersKeepLast(fs[..|fs| - 1], name);
      AssignReads(Members(fs[..|fs| - 1]), fs[|fs| - 1], name);
    }
  }

  /** `{"a":"1","a":"2"}` reads as `{"a":"2"}`. */
  lemma RepeatedNameKeepsLast(name: seq<Byte>, first: seq<Byte>, second: seq<Byte>)
    ensures Members([Field(name, first), Field(name, second)]) == [Field(name, second)]
  {
    var a, b := Field(name, first), Field(name, second);
    assert [a, b][..1] == [a];
    assert [a][..0] == [];
    assert Members([a]) == [a];
    assert Assign([a], b) == [b] + [a][1..];
  }

  /** JSON.parse of the header text, for the values Serialize writes. */
  function Parse(b: seq<Byte>): (r: Option<Headers>)
    ensures r.Some? ==> WellFormed(r.value)
  {
    if b == NULL_TEXT then Some(Null)
    else if b == [LBRACE, RBRACE] then Some(Object([]))
    else if b == [] || b[0] != LBRACE then None
    else
      match ParseMembers(b[1..])
      case Some((fs, after)) =>
        if after == [] then MembersDistinct(fs); Some(Object(Members(fs))) else None
      case None => None
  }


  // ---------------------------------------------------------------------------
  // Round trip of the header JSON

  lemma EscapeThenParse(c: Byte, tail: seq<Byte>)
    ensures ParseString(Escape(c) + tail) ==
      match ParseString(tail)
      case None => None
      case Some((t, after)) => Some(([c] + t, after))
  {
    var b := Escape(c) + tail;
    if c == QUOTE || c == BACKSLASH || c == 8 || c == 9 || c == 10 || c == 12 || c == 13 {
      assert b[1..] == [Escape(c)[1]] + tail;
      assert Unescape(b[1..]) == Some((c, tail));
    } else if c < 32 {
      assert b[1..] == Escape(c)[1..] + tail;
      assert HexValue(HexDigit(c / 16)) == Some(c / 16);
      assert HexValue(HexDigit(c % 16)) == Some(c % 16);
      assert b[1..][5..] == tail;
      assert Unescape(b[1..]) == Some((c, tail));
    } else {
      assert b[1..] == tail;
    }
  }

  lemma {:induction false} StringRoundTrip(s: seq<Byte>, rest: seq<Byte>)
    ensures ParseString(EscapeAll(s) + [QUOTE] + rest) == Some((s, rest))
    decreases |s|
  {
    if s == [] {
      assert EscapeAll(s) + [QUOTE] + rest == [QUOTE] + rest;
    } else {
      var tail := EscapeAll(s[1..]) + [QUOTE] + rest;
      assert EscapeAll(s) + [QUOTE] + rest == Escape(s[0]) + tail;
      StringRoundTrip(s[1..], rest);
      EscapeThenParse(s[0], tail);
      assert [s[0]] + s[1..] == s;
    }
  }

  lemma FieldTextShape(en: seq<Byte>, ev: seq<Byte>, rest: seq<Byte>)
    ensures [QUOTE] + en + [QUOTE] + [COLON] + ([QUOTE] + ev + [QUOTE]) + rest
         == [QUOTE] + (en + [QUOTE] + ([COLON, QUOTE] + (ev + [QUOTE] + rest)))
  {
  }

  lemma FieldRoundTrip(f: Field, rest: seq<Byte>)
    ensures ParseField(FieldText(f) + rest) == Some((f, rest))
  {
    var en, ev := EscapeAll(f.name), EscapeAll(f.value);
    var t := ev + [QUOTE] + rest;
    var r := [COLON, QUOTE] + t;
    var b := FieldText(f) + rest;
    FieldTextShape(en, ev, rest);
    StringRoundTrip(f.name, r);
    StringRoundTrip(f.value, rest);
    ReadField(b, f.name, r, t, f.value, rest);
  }

  lemma ReadField(b: seq<Byte>, name: seq<Byte>, r: seq<Byte>, t: seq<Byte>, value: seq<Byte>, rest: seq<Byte>)
    requires b != [] && b[0] == QUOTE && ParseString(b[1..]) == Some((name, r))
    requires r == [COLON, QUOTE] + t && ParseString(t) == Some((value, rest))
    ensures ParseField(b) == Some((Field(name, value), rest))
  {
    assert r[2..] == t;
  }

  lemma ReadLastMember(b: seq<Byte>, f: Field, rest: seq<Byte>)
    requires ParseField(b) == Some((f, [RBRACE] + rest))
    ensures ParseMembers(b) == Some(([f], rest))
  {
    assert ([RBRACE] + rest)[1..] == rest;
  }

  lemma NextMemberRoundTrip(f: Field, tail: seq<Byte>, fs: seq<Field>, rest: seq<Byte>)
    requires ParseMembers(tail) == Some((fs, rest))
    ensures ParseMembers(FieldText(f) + ([COMMA] + tail)) == Some(([f] + fs, rest))
  {
    FieldRoundTrip(f, [COMMA] + tail);
    assert ([COMMA] + tail)[1..] == tail;
  }

  lemma Assoc(a: seq<Byte>, b: seq<Byte>, c: seq<Byte>)
    ensures a + b + c == a + (b + c)
  {
  }

  /** The text of several members: the first, a comma, then the others. */
  lemma {:induction false} MembersTextSplit(fs: seq<Field>, rest: seq<Byte>)
    requires |fs| > 1
    ensures MembersText(fs) + [RBRACE] + rest
         == FieldText(fs[0]) + ([COMMA] + (MembersText(fs[1..]) + [RBRACE] + rest))
  {
    var f, m := FieldText(fs[0]), MembersText(fs[1..]);
    assert MembersText(fs) == f + [COMMA] + m;
    Assoc(f + [COMMA] + m, [RBRACE], rest);
    Assoc(f + [COMMA], m, [RBRACE] + rest);
    Assoc(f, [COMMA], m + ([RBRACE] + rest));
    Assoc([COMMA], m, [RBRACE] + rest);
    Assoc(m, [RBRACE], rest);
  }

  lemma OneMemberRoundTrip(fs: seq<Field>, rest: seq<Byte>)
    requires |fs| == 1
    ensures ParseMembers(MembersText(fs) + [RBRACE] + rest) == Some((fs, rest))
  {
    Assoc(FieldText(fs[0]), [RBRACE], rest);
    FieldRoundTrip(fs[0], [RBRACE] + rest);
    ReadLastMember(FieldText(fs[0]) + ([RBRACE] + rest), fs[0], rest);
    assert [fs[0]] == fs;
  }

  lemma MoreMembersRoundTrip(fs: seq<Field>, rest: seq<Byte>)
    requires |fs| > 1
    requires ParseMembers(MembersText(fs[1..]) + [RBRACE] + rest) == Some((fs[1..], rest))
    ensures ParseMembers(MembersText(fs) + [RBRACE] + rest) == Some((fs, rest))
  {
    var tail := MembersText(fs[1..]) + [RBRACE] + rest;
    MembersTextSplit(fs, rest);
    NextMemberRoundTrip(fs[0], tail, fs[1..], rest);
    assert [fs[0]] + fs[1..] == fs;
  }

  lemma {:induction false} MembersRoundTrip(fs: seq<Field>, rest: seq<Byte>)
    requires fs != []
    ensures ParseMembers(MembersText(fs) + [RBRACE] + rest) == Some((fs, rest))
    decreases |fs|
  {
    if |fs| == 1 {
      OneMemberRoundTrip(fs, rest);
    } else {
      MembersRoundTrip(fs[1..], rest);
      MoreMembersRoundTrip(fs, rest);
    }
  }

  lemma ReadObject(b: seq<Byte>, fs: seq<Field>)
    requires |b| > 2 && b[0] == LBRACE && ParseMembers(b[1..]) == Some((fs, []))
    requires DistinctNames(fs)
    ensures Parse(b) == Some(Object(fs))
  {
    assert b != NULL_TEXT && b != [LBRACE, RBRACE];
    MembersOfDistinct(fs);
  }

  lemma ObjectShape(m: seq<Byte>)
    ensures ([LBRACE] + m + [RBRACE])[1..] == m + [RBRACE] + []
  {
  }

  /** Parsing the JSON text of the headers of a JavaScript object gives the same
      headers back. */
  lemma HeadersRoundTrip(h: Headers)
    requires WellFormed(h)
    ensures Parse(Serialize(h)) == Some(h)
  {
    match h
    case Null =>
    case Object(fs) =>
      if fs != [] {
        var m := MembersText(fs);
        MembersRoundTrip(fs, []);
        ObjectShape(m);
        assert |FieldText(fs[0])| > 0;
        ReadObject([LBRACE] + m + [RBRACE], fs);
      }
  }

  // ---------------------------------------------------------------------------
  // encodePayload / decodePayload

  function Min(a: int, b: int): int { if a <= b then a else b }

  /** encodePayload: magic, header length, header JSON, body (a null body adds nothing).
      writeUInt32BE throws when the header text is 2^32 bytes or longer. */
  function Encode(p: PagePayload): (r: Result<seq<Byte>, PayloadError>)
    ensures r.Err? <==> |Serialize(p.headers)| >= UINT32_LIMIT
    ensures r.Err? ==> r.error == OutOfRange
    ensures r.Ok? ==>
      var hb, body := Serialize(p.headers), p.body.GetOr([]);
      && |r.value| == |MAGIC| + LENGTH_SIZE + |hb| + |body|
      && r.value[..4] == MAGIC
      && ReadUInt32BE(r.value[4..8]) == |hb|
      && r.value[8..8 + |hb|] == hb
      && r.value[8 + |hb|..] == body
  {
    var hb := Serialize(p.headers);
    if |hb| >= UINT32_LIMIT then Err(OutOfRange)
    else
      var out := MAGIC + WriteUInt32BE(|hb|) + hb + p.body.GetOr([]);
      assert out[4..8] == WriteUInt32BE(|hb|);
      Ok(out)
  }

  /** decodePayload: an absent buffer decodes to `{}` and an empty body; a buffer
      not starting with `%NB%` is rejected; a buffer too short for the length field
      fails in readUInt32BE; header and body slices are clamped to the buffer. */
  function Decode(payload: Option<seq<Byte>>): (r: Result<PagePayload, PayloadError>)
    ensures payload.None? ==> r == Ok(PagePayload(Object([]), Some([])))
    ensures payload.Some? && (|payload.value| < 4 || payload.value[..4] != MAGIC) ==>
      r == Err(InvalidPayload)
    ensures payload.Some? && 4 <= |payload.value| < HEADER_OFFSET && payload.value[..4] == MAGIC ==>
      r == Err(OutOfRange)
    ensures payload.Some? && HEADER_OFFSET <= |payload.value| && payload.value[..4] == MAGIC ==>
      var b := payload.value;
      var end := Min(HEADER_OFFSET + ReadUInt32BE(b[4..8]), |b|);
      && (r.Ok? <==> Parse(b[HEADER_OFFSET..end]).Some?)
      && (r.Err? ==> r.error == InvalidJson)
    ensures r.Ok? ==> r.value.body.Some? && WellFormed(r.value.headers)
    ensures r.Ok? && payload.Some? ==>
      && HEADER_OFFSET <= |payload.value|
      && var b := payload.value;
         var end := Min(HEADER_OFFSET + ReadUInt32BE(b[4..8]), |b|);
         && Parse(b[HEADER_OFFSET..end]) == Some(r.value.headers)
         && r.value.body.value == b[end..]
  {
    match payload
    case None => Ok(PagePayload(Object([]), Some([])))
    case Some(b) =>
      if |b| < |MAGIC| || b[..|MAGIC|] != MAGIC then Err(InvalidPayload)
      else if |b| < HEADER_OFFSET then Err(OutOfRange)
      else
        var headerLength := ReadUInt32BE(b[|MAGIC|..HEADER_OFFSET]);
        var end := Min(HEADER_OFFSET + headerLength, |b|);
        match Parse(b[HEADER_OFFSET..end])
        case None => Err(InvalidJson)
        case Some(headers) => Ok(PagePayload(headers, Some(b[end..])))
  }

  /** Decoding an encoded page gives back the same headers (null included) and the
      same body bytes; a null body comes back empty, never null. */
  lemma RoundTrip(p: PagePayload)
    requires Encode(p).Ok? && WellFormed(p.headers)
    ensures Decode(Some(Encode(p).value)) == Ok(PagePayload(p.headers, Some(p.body.GetOr([]))))
  {
    var out := Encode(p).value;
    var hb := Serialize(p.headers);
    assert out[..4] == MAGIC;
    assert Min(HEADER_OFFSET + |hb|, |out|) == 8 + |hb|;
    HeadersRoundTrip(p.headers);
  }
}
