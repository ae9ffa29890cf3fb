/** The argument scanner of src/cli.ts (`main`): after the first two tokens, each
    token is resolved through the alias table, then either becomes the positional
    `dir`, sets a boolean option, or consumes the next token as the option's value.
    `help()` and `serve(argv)` are the two outcomes.

    The lookups `arg in alias` and `types[arg]` are made on plain objects, so they
    also see the names Object.prototype provides; the scanner takes the lookup
    discipline as a parameter: `Inherited` is the program as written, `OwnOnly`
    the evidently intended own-property lookup. */
module Cli {
  import opened Base
  import Js

  /** A value stored in argv. `ProtoMember(p)` is the inherited Object.prototype
      member named p (a function, or the prototype object for `__proto__`). */
  datatype Value = Flag(on: bool) | Number(n: Option<int>) | Text(s: string) | ProtoMember(name: string)

  /** JavaScript truthiness of a stored value: NaN (None), 0 and "" are falsy. */
  predicate Truthy(v: Value)
  {
    match v
    case Flag(b) => b
    case Number(n) => n.Some? && n.value != 0
    case Text(s) => s != ""
    case ProtoMember(_) => true
  }

  datatype OptionType = BooleanType | NumberType | StringType

  datatype Outcome = Help | Serve(argv: map<string, Value>)

  /** How `arg in alias` looks a token up. */
  datatype Lookup = Inherited | OwnOnly

  /** The property names every plain object inherits from Object.prototype. */
  const PROTOTYPE_NAMES: set<string> := {
    "constructor", "__proto__", "toString", "toLocaleString", "valueOf", "hasOwnProperty",
    "isPrototypeOf", "propertyIsEnumerable", "__defineGetter__", "__defineSetter__",
    "__lookupGetter__", "__lookupSetter__"}

  /** The own entries of `alias`. */
  function Alias(tok: string): Option<string>
  {
    if tok == "-h" then Some("--help")
    else if tok == "-p" then Some("--port")
    else if tok == "-H" then Some("--hostname")
    else None
  }

  /** The own entries of `types`. */
  function TypeOf(name: string): Option<OptionType>
  {
    if name == "--help" then Some(BooleanType)
    else if name == "--port" then Some(NumberType)
    else if name == "--hostname" then Some(StringType)
    else None
  }

  /** `arg` after `if (arg in alias) arg = alias[arg]`. With inherited lookup a
      prototype name is "in" alias and resolves to the inherited member. */
  function Resolve(tok: string, lookup: Lookup): Value
  {
    match Alias(tok)
    case Some(name) => Text(name)
    case None => if lookup == Inherited && tok in PROTOTYPE_NAMES then ProtoMember(tok) else Text(tok)
  }

  /** An option name and its short alias both resolve to the option name. */
  lemma ResolveOption(tok: string, name: string, lookup: Lookup)
    requires (tok == name || Alias(tok) == Some(name)) && name in {"--help", "--port", "--hostname"}
    ensures Resolve(tok, lookup) == Text(name)
  {
    if tok == name {
      assert tok !in PROTOTYPE_NAMES;
    }
  }

  /** `types[arg]`: an inherited member is not a string, and the text it converts
      to names no option. A prototype name never reaches this lookup as text under
      inherited lookup, since the alias step has already replaced it. */
  function TypeOfArg(arg: Value): (t: Option<OptionType>)
    ensures t.Some? ==> arg.Text? && arg.s in {"--help", "--port", "--hostname"}
  {
    if arg.Text? then TypeOf(arg.s) else None
  }

  /** `raw.slice(2)`. */
  function Tokens(raw: seq<string>): seq<string>
  {
    if |raw| <= 2 then [] else raw[2..]
  }

  /** The outcome of one pass of the loop body: stop with an outcome, or go on
      with the tokens left and the updated argv. */
  datatype Step = Stop(out: Outcome) | Next(rest: seq<string>, argv: map<string, Value>)

  /** One pass of the loop body on the first remaining token. */
  function StepOn(toks: seq<string>, argv: map<string, Value>, lookup: Lookup): (r: Step)
    requires toks != []
    ensures r.Next? ==> r.rest == toks[1..] || (|toks| >= 2 && r.rest == toks[2..])
  {
    var arg := Resolve(toks[0], lookup);
    var t := TypeOfArg(arg);
    if t.None? then
      if "dir" in argv && Truthy(argv["dir"]) then Stop(Help)
      else Next(toks[1..], argv["dir" := arg])
    else if t.value == BooleanType then Next(toks[1..], argv[arg.s := Flag(true)])
    else if |toks| < 2 then Stop(Help)
    else
      var v := if t.value == NumberType then Number(Js.ParseInt(toks[1])) else Text(toks[1]);
      Next(toks[2..], argv[arg.s := v])
  }

  /** After the loop: help when --help is set, serve otherwise. */
  function Finish(argv: map<string, Value>): Outcome
  {
    if "--help" in argv && Truthy(argv["--help"]) then Help else Serve(argv)
  }

  /** What the loop does with the remaining tokens `toks`, given argv so far. */
  function Scan(toks: seq<string>, argv: map<string, Value>, lookup: Lookup): (r: Outcome)
    ensures r.Serve? ==> !("--help" in r.argv && Truthy(r.argv["--help"]))
    ensures r.Serve? ==> argv.Keys <= r.argv.Keys
    decreases |toks|
  {
    if toks == [] then Finish(argv)
    else
      match StepOn(toks, argv, lookup)
      case Stop(out) => out
      case Next(rest, argv') => Scan(rest, argv', lookup)
  }

  /** main(raw): the index loop, advancing past a consumed value inside the body. */
  method Run(raw: seq<string>, lookup: Lookup) returns (out: Outcome)
    ensures out == Scan(Tokens(raw), map[], lookup)
  {
    var toks := Tokens(raw);
    var argv: map<string, Value> := map[];
    var i := 0;
    while i < |toks|
      invariant 0 <= i <= |toks|
      invariant Scan(toks[i..], argv, lookup) == Scan(toks, map[], lookup)
    {
      assert toks[i..][1..] == toks[i + 1..];
      var arg := Resolve(toks[i], lookup);
      var t := TypeOfArg(arg);
      if t.None? {
        if !("dir" in argv && Truthy(argv["dir"])) {
          argv := argv["dir" := arg];
          i := i + 1;
          continue;
        } else {
          return Help;
        }
      }
      if t == Some(BooleanType) {
        argv := argv[arg.s := Flag(true)];
        i := i + 1;
        continue;
      }
      i := i + 1;
      if i >= |toks| {
        return Help;
      }
      assert toks[i - 1..][2..] == toks[i + 1..];
      var v := toks[i];
      if t == Some(NumberType) {
        argv := argv[arg.s := Number(Js.ParseInt(v))];
      } else if t == Some(StringType) {
        argv := argv[arg.s := Text(v)];
      }
      i := i + 1;
    }
    if "--help" in argv && Truthy(argv["--help"]) {
      return Help;
    }
    out := Serve(argv);
  }

  // ---------------------------------------------------------------------------
  // Properties of the scanner (both lookups unless stated)

  /** The first two tokens are ignored; with no more, serve gets an empty argv. */
  lemma NoArguments(raw: seq<string>, lookup: Lookup)
    requires |raw| <= 2
    ensures Scan(Tokens(raw), map[], lookup) == Serve(map[])
  {
  }

  /** A token that names no option becomes `dir` while dir is unset (or falsy), and
      yields help once dir is set. */
  lemma PositionalDir(tok: string, rest: seq<string>, argv: map<string, Value>, lookup: Lookup)
    requires Alias(tok).None? && TypeOf(tok).None? && tok !in PROTOTYPE_NAMES
    ensures "dir" in argv && Truthy(argv["dir"]) ==> Scan([tok] + rest, argv, lookup) == Help
    ensures !("dir" in argv && Truthy(argv["dir"])) ==>
      Scan([tok] + rest, argv, lookup) == Scan(rest, argv["dir" := Text(tok)], lookup)
  {
    assert ([tok] + rest)[1..] == rest;
  }

  /** Once --help is set, the outcome is help whatever follows. */
  lemma {:induction false} HelpSticks(toks: seq<string>, argv: map<string, Value>, lookup: Lookup)
    requires "--help" in argv && argv["--help"] == Flag(true)
    ensures Scan(toks, argv, lookup) == Help
    decreases |toks|
  {
    if toks != [] {
      var step := StepOn(toks, argv, lookup);
      if step.Next? {
        assert "--help" in step.argv && step.argv["--help"] == Flag(true);
        HelpSticks(step.rest, step.argv, lookup);
      }
    }
  }

  /** --help (or -h) where an option is expected consumes no value and yields help. */
  lemma HelpFlag(rest: seq<string>, argv: map<string, Value>, lookup: Lookup)
    ensures Scan(["--help"] + rest, argv, lookup) == Help
    ensures Scan(["-h"] + rest, argv, lookup) == Help
  {
    var helped := argv["--help" := Flag(true)];
    HelpSticks(rest, helped, lookup);
    ResolveOption("--help", "--help", lookup);
    ResolveOption("-h", "--help", lookup);
    assert (["--help"] + rest)[1..] == rest && (["-h"] + rest)[1..] == rest;
    assert StepOn(["--help"] + rest, argv, lookup) == Next(rest, helped);
    assert StepOn(["-h"] + rest, argv, lookup) == Next(rest, helped);
  }

  /** A value option with no token after it yields help. */
  lemma MissingValue(opt: string, argv: map<string, Value>, lookup: Lookup)
    requires opt in {"--port", "-p", "--hostname", "-H"}
    ensures Scan([opt], argv, lookup) == Help
  {
  }

  /** An option that takes a value stores it under the option's name and consumes
      the token after it. */
  lemma ValueStep(toks: seq<string>, argv: map<string, Value>, lookup: Lookup, name: string, v: Value)
    requires |toks| >= 2 && Resolve(toks[0], lookup) == Text(name)
    requires || (TypeOf(name) == Some(NumberType) && v == Number(Js.ParseInt(toks[1])))
             || (TypeOf(name) == Some(StringType) && v == Text(toks[1]))
    ensures Scan(toks, argv, lookup) == Scan(toks[2..], argv[name := v], lookup)
  {
  }

  /** --port (or -p) stores parseInt of the next token and consumes it. */
  lemma PortValue(opt: string, v: string, rest: seq<string>, argv: map<string, Value>, lookup: Lookup)
    requires opt == "--port" || opt == "-p"
    ensures Scan([opt, v] + rest, argv, lookup) == Scan(rest, argv["--port" := Number(Js.ParseInt(v))], lookup)
  {
    var toks := [opt, v] + rest;
    assert toks[0] == opt && toks[1] == v && toks[2..] == rest;
    ResolveOption(opt, "--port", lookup);
    ValueStep(toks, argv, lookup, "--port", Number(Js.ParseInt(v)));
  }

  /** --hostname (or -H) stores the next token verbatim and consumes it. */
  lemma HostnameValue(opt: string, v: string, rest: seq<string>, argv: map<string, Value>, lookup: Lookup)
    requires opt == "--hostname" || opt == "-H"
    ensures Scan([opt, v] + rest, argv, lookup) == Scan(rest, argv["--hostname" := Text(v)], lookup)
  {
    var toks := [opt, v] + rest;
    assert toks[0] == opt && toks[1] == v && toks[2..] == rest;
    ResolveOption(opt, "--hostname", lookup);
    ValueStep(toks, argv, lookup, "--hostname", Text(v));
  }

  /** The scan sees a token only through what it resolves to. */
  lemma SameResolution(t1: string, t2: string, rest: seq<string>, argv: map<string, Value>, lookup: Lookup)
    requires Resolve(t1, lookup) == Resolve(t2, lookup)
    ensures Scan([t1] + rest, argv, lookup) == Scan([t2] + rest, argv, lookup)
  {
    var s1, s2 := [t1] + rest, [t2] + rest;
    assert s1[1..] == rest && s2[1..] == rest;
    assert |s1| >= 2 ==> s1[1] == s2[1] && s1[2..] == s2[2..];
    assert StepOn(s1, argv, lookup) == StepOn(s2, argv, lookup);
  }

  /** -p and -H behave exactly like --port and --hostname (for -h, see HelpFlag). */
  lemma AliasAgrees(short: string, long: string, rest: seq<string>, argv: map<string, Value>, lookup: Lookup)
    requires (short == "-p" && long == "--port") || (short == "-H" && long == "--hostname")
    ensures Scan([short] + rest, argv, lookup) == Scan([long] + rest, argv, lookup)
  {
    ResolveOption(short, long, lookup);
    ResolveOption(long, long, lookup);
    SameResolution(short, long, rest, argv, lookup);
  }

  /** A repeated option keeps the last value. */
  lemma RepeatedOptionOverwrites(a: string, b: string, rest: seq<string>, argv: map<string, Value>, lookup: Lookup)
    ensures Scan(["--hostname", a, "--hostname", b] + rest, argv, lookup)
         == Scan(rest, argv["--hostname" := Text(b)], lookup)
  {
    var toks := ["--hostname", a, "--hostname", b] + rest;
    var second := toks[2..];
    assert toks[0] == "--hostname" && toks[1] == a;
    assert second[0] == "--hostname" && second[1] == b && second[2..] == rest;
    ResolveOption("--hostname", "--hostname", lookup);
    ValueStep(toks, argv, lookup, "--hostname", Text(a));
    ValueStep(second, argv["--hostname" := Text(a)], lookup, "--hostname", Text(b));
    UpdateTwice(argv, "--hostname", Text(a), Text(b));
  }

  lemma UpdateTwice<K, V>(m: map<K, V>, k: K, x: V, y: V)
    ensures m[k := x][k := y] == m[k := y]
  {
  }

  // ---------------------------------------------------------------------------
  // The prototype-name lookup

  /** As written, a token spelled like an Object.prototype member (say `toString`)
      is "in" alias, so `dir` becomes the inherited function rather than the token's
      text; the own-property lookup keeps the text. */
  lemma PrototypeNameBecomesDir(p: string)
    requires p in PROTOTYPE_NAMES
    ensures Scan([p], map[], Inherited) == Serve(map["dir" := ProtoMember(p)])
    ensures Scan([p], map[], OwnOnly) == Serve(map["dir" := Text(p)])
  {
    assert Alias(p).None? && TypeOf(p).None?;
  }

  /** With own-property lookup, one pass leaves `dir` as it was or sets it to the
      text of the token read. */
  lemma StepSetsDir(toks: seq<string>, argv: map<string, Value>)
    requires toks != []
    ensures var step := StepOn(toks, argv, OwnOnly);
      step.Next? && "dir" in step.argv ==>
        || ("dir" in argv && step.argv["dir"] == argv["dir"])
        || step.argv["dir"] == Text(toks[0])
  {
  }

  /** With own-property lookup, whenever serve is reached its `dir` is text: the
      one given in argv at the start, or one of the tokens. */
  lemma {:induction false} DirIsToken(toks: seq<string>, argv: map<string, Value>)
    requires "dir" in argv ==> argv["dir"].Text?
    ensures var r := Scan(toks, argv, OwnOnly);
      r.Serve? && "dir" in r.argv ==>
        && r.argv["dir"].Text?
        && (("dir" in argv && r.argv["dir"] == argv["dir"]) || r.argv["dir"].s in toks)
    decreases |toks|
  {
    if toks != [] {
      var step := StepOn(toks, argv, OwnOnly);
      if step.Next? {
        StepSetsDir(toks, argv);
        DirIsToken(step.rest, step.argv);
        assert forall x :: x in step.rest ==> x in toks;
      }
    }
  }
}
