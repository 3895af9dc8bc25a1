/**
 parseArgs, the same loop in cmd/go-iroh-dumbpipe and cmd/go-iroh-sendme: the standard flag
 package's Parse, run again after each positional argument.

 A `Flags` value says which flags a FlagSet has and which values each takes. The flag package is
 modelled where it decides what parseArgs returns: which argument is a flag, its name, its value.
 */
module ParseArgs {
  import opened Common

  datatype Kind = BoolFlag | ValueFlag

  /** The flags defined, and whether a flag's Set takes a value. */
  datatype Flags = Flags(kinds: map<string, Kind>, takes: (string, string) -> bool)

  type Values = map<string, string>

  /** What flag.parseOne makes of the arguments: no flag here, one flag, or an error. */
  datatype One = Stop(rest: seq<string>) | Set(name: string, value: string, rest: seq<string>) | Bad

  /** The position of the first '=' after the first character, or the length. */
  function Equals(name: string, i: nat): (k: nat)
    requires i <= |name|
    ensures i <= k <= |name|
    ensures forall j | i <= j < k :: name[j] != '='
    ensures k < |name| ==> name[k] == '='
    decreases |name| - i
  {
    if i == |name| || name[i] == '=' then i else Equals(name, i + 1)
  }

  predicate IsPositional(s: string) {
    |s| < 2 || s[0] != '-'
  }

  /** The flag's name and any "=value", or None for bad syntax. */
  function Named(s: string): Option<(string, Option<string>)>
    requires !IsPositional(s) && s != "--"
  {
    var name := if s[1] == '-' then s[2..] else s[1..];
    if |name| == 0 || name[0] == '-' || name[0] == '=' then None
    else
      var k := Equals(name, 1);
      if k == |name| then Some((name, None)) else Some((name[..k], Some(name[k + 1..])))
  }

  function ParseOne(f: Flags, args: seq<string>): (r: One)
    ensures r.Stop? ==> |r.rest| <= |args|
    ensures r.Set? ==> |r.rest| < |args|
  {
    if args == [] || IsPositional(args[0]) then Stop(args)
    else if args[0] == "--" then Stop(args[1..])
    else
      match Named(args[0])
      case None => Bad
      case Some((name, value)) =>
        if name !in f.kinds then Bad
        else if value.Some? then Checked(f, name, value.value, args[1..])
        else if f.kinds[name].BoolFlag? then Checked(f, name, "true", args[1..])
        else if |args| == 1 then Bad
        else Checked(f, name, args[1], args[2..])
  }

  function Checked(f: Flags, name: string, value: string, rest: seq<string>): One {
    if f.takes(name, value) then Set(name, value, rest) else Bad
  }

  /** FlagSet.Parse: the values set and the arguments left, None for an error. */
  function Parsed(f: Flags, values: Values, args: seq<string>): (r: Option<(Values, seq<string>)>)
    ensures r.Some? ==> |r.value.1| <= |args|
    decreases |args|
  {
    match ParseOne(f, args)
    case Bad => None
    case Stop(rest) => Some((values, rest))
    case Set(name, value, rest) => Parsed(f, values[name := value], rest)
  }

  /** The positional arguments and the flag values of a whole command line. */
  function ParseAll(f: Flags, values: Values, args: seq<string>): Option<(seq<string>, Values)>
    decreases |args|
  {
    match Parsed(f, values, args)
    case None => None
    case Some((values, rest)) =>
      if rest == [] then Some(([], values))
      else
        match ParseAll(f, values, rest[1..])
        case None => None
        case Some((pos, values)) => Some(([rest[0]] + pos, values))
  }

  /** flag.FlagSet */
  class FlagSet {
    const flags: Flags
    var values: Values
    var args: seq<string>

    constructor (flags: Flags)
      ensures this.flags == flags && values == map[] && args == []
    {
      this.flags := flags;
      values, args := map[], [];
    }

    method Parse(arguments: seq<string>) returns (ok: bool)
      modifies this
      ensures ok <==> Parsed(flags, old(values), arguments).Some?
      ensures ok ==> Parsed(flags, old(values), arguments) == Some((values, args))
    {
      args := arguments;
      while true
        invariant Parsed(flags, values, args) == Parsed(flags, old(values), arguments)
        decreases |args|
      {
        match ParseOne(flags, args) {
          case Bad =>
            return false;
          case Stop(rest) =>
            args := rest;
            return true;
          case Set(name, value, rest) =>
            values := values[name := value];
            args := rest;
        }
      }
    }
  }

  /** The loop itself; it ends because each turn takes at least one argument away. */
  method Run(fs: FlagSet, args: seq<string>) returns (pos: seq<string>, ok: bool)
    modifies fs
    ensures ok <==> ParseAll(fs.flags, old(fs.values), args).Some?
    ensures ok ==> ParseAll(fs.flags, old(fs.values), args) == Some((pos, fs.values))
  {
    pos := [];
    var left := args;
    ghost var whole := ParseAll(fs.flags, fs.values, args);
    assert whole.Some? ==> [] + whole.value.0 == whole.value.0;
    while true
      invariant whole == match ParseAll(fs.flags, fs.values, left)
                         case None => None
                         case Some((more, values)) => Some((pos + more, values))
      decreases |left|
    {
      ok := fs.Parse(left);
      if !ok {
        return [], false;
      }
      if |fs.args| == 0 {
        assert pos + [] == pos;
        return pos, true;
      }
      ghost var rest := ParseAll(fs.flags, fs.values, fs.args[1..]);
      assert rest.Some? ==> pos + ([fs.args[0]] + rest.value.0) == pos + [fs.args[0]] + rest.value.0;
      pos := pos + [fs.args[0]];
      left := fs.args[1..];
    }
  }

  // ---------------------------------------------------------------------------------------------
  // The command lines that are accepted, as a grammar.

  datatype Spelling = Bare | WithEquals | WithNext

  /** A part of a command line that stands for one thing. */
  datatype Unit =
    | Positional(p: string)
    | Escaped(p: string)    // "--" and the argument it protects
    | Flag(dashes: string, name: string, value: string, spelling: Spelling)

  function Tokens(u: Unit): seq<string> {
    match u
    case Positional(p) => [p]
    case Escaped(p) => ["--", p]
    case Flag(dashes, name, value, spelling) =>
      match spelling
      case Bare => [dashes + name]
      case WithEquals => [dashes + name + "=" + value]
      case WithNext => [dashes + name, value]
  }

  predicate UnitOk(f: Flags, u: Unit) {
    match u
    case Positional(p) => IsPositional(p)
    case Escaped(_) => true
    case Flag(dashes, name, value, spelling) =>
      && (dashes == "-" || dashes == "--")
      && name in f.kinds && name != "" && name[0] != '-' && '=' !in name
      && f.takes(name, value)
      && (spelling.Bare? ==> f.kinds[name].BoolFlag? && value == "true")
      && (spelling.WithNext? ==> f.kinds[name].ValueFlag?)
  }

  function Flatten(units: seq<Unit>): seq<string> {
    if units == [] then [] else Tokens(units[0]) + Flatten(units[1..])
  }

  function Positionals(units: seq<Unit>): seq<string> {
    if units == [] then []
    else (if units[0].Flag? then [] else [units[0].p]) + Positionals(units[1..])
  }

  /** The flags' settings, in order; the last one of a name stays. */
  function Settings(values: Values, units: seq<Unit>): Values
    decreases |units|
  {
    if units == [] then values
    else Settings(if units[0].Flag? then values[units[0].name := units[0].value] else values, units[1..])
  }

  predicate AllOk(f: Flags, units: seq<Unit>) {
    forall i | 0 <= i < |units| :: UnitOk(f, units[i])
  }

  /** A flag spelled in full is read as that flag, whatever follows. */
  lemma FlagIsRead(f: Flags, u: Unit, rest: seq<string>)
    requires UnitOk(f, u) && u.Flag?
    ensures ParseOne(f, Tokens(u) + rest) == Set(u.name, u.value, rest)
  {
    var s := Tokens(u)[0];
    var tail := if u.spelling.WithEquals? then "=" + u.value else "";
    assert s == u.dashes + (u.name + tail);
    var name := u.name + tail;
    assert (if s[1] == '-' then s[2..] else s[1..]) == name;
    EqualsAt(name, |u.name|);
    assert name[..|u.name|] == u.name;
    if u.spelling.WithEquals? {
      assert name[|u.name| + 1..] == u.value;
    }
    assert (Tokens(u) + rest)[|Tokens(u)|..] == rest;
  }

  lemma EqualsAt(name: string, k: nat)
    requires 1 <= k <= |name| && forall j | 0 <= j < k :: name[j] != '='
    requires k < |name| ==> name[k] == '='
    ensures Equals(name, 1) == k
  {
    EqualsFrom(name, 1, k);
  }

  lemma {:induction false} EqualsFrom(name: string, i: nat, k: nat)
    requires i <= k <= |name| && forall j | i <= j < k :: name[j] != '='
    requires k < |name| ==> name[k] == '='
    ensures Equals(name, i) == k
    decreases k - i
  {
    if i < k {
      EqualsFrom(name, i + 1, k);
    }
  }

  lemma StepFlag(f: Flags, values: Values, args: seq<string>, name: string, value: string, rest: seq<string>)
    requires ParseOne(f, args) == Set(name, value, rest)
    ensures ParseAll(f, values, args) == ParseAll(f, values[name := value], rest)
  {
  }

  /** Prepending one positional argument to a result. */
  function Cons(p: string, r: Option<(seq<string>, Values)>): Option<(seq<string>, Values)> {
    match r
    case None => None
    case Some((pos, values)) => Some(([p] + pos, values))
  }

  lemma StepPositional(f: Flags, values: Values, p: string, rest: seq<string>)
    requires IsPositional(p)
    ensures ParseAll(f, values, [p] + rest) == Cons(p, ParseAll(f, values, rest))
  {
    assert ([p] + rest)[1..] == rest;
  }

  /** "--" protects the argument after it and no other: what follows is parsed as before. */
  lemma StepEscaped(f: Flags, values: Values, p: string, rest: seq<string>)
    ensures ParseAll(f, values, ["--", p] + rest) == Cons(p, ParseAll(f, values, rest))
  {
    assert (["--", p] + rest)[1..] == [p] + rest;
    assert ([p] + rest)[1..] == rest;
  }

  /** A command line made of units is accepted, and means what its units say, in order. */
  lemma {:induction false} UnitsAreParsed(f: Flags, values: Values, units: seq<Unit>)
    requires AllOk(f, units)
    ensures ParseAll(f, values, Flatten(units)) == Some((Positionals(units), Settings(values, units)))
    decreases |units|
  {
    if units != [] {
      var u, rest := units[0], units[1..];
      assert UnitOk(f, u);
      assert forall i | 0 <= i < |rest| :: rest[i] == units[i + 1];
      match u
      case Positional(p) =>
        UnitsAreParsed(f, values, rest);
        StepPositional(f, values, p, Flatten(rest));
      case Escaped(p) =>
        UnitsAreParsed(f, values, rest);
        StepEscaped(f, values, p, Flatten(rest));
      case Flag(_, name, value, _) =>
        UnitsAreParsed(f, values[name := value], rest);
        assert [] + Positionals(rest) == Positionals(rest);
        FlagIsRead(f, u, Flatten(rest));
        StepFlag(f, values, Flatten(units), name, value, Flatten(rest));
    }
  }

  /** The units an accepted command line is made of; a last "--" may stand alone. */
  lemma {:induction false} ParsedIsUnits(f: Flags, values: Values, args: seq<string>) returns (units: seq<Unit>, end: seq<string>)
    requires ParseAll(f, values, args).Some?
    ensures AllOk(f, units) && args == Flatten(units) + end && (end == [] || end == ["--"])
    ensures ParseAll(f, values, args) == Some((Positionals(units), Settings(values, units)))
    decreases |args|
  {
    if ParseOne(f, args).Stop? && ParseOne(f, args).rest == [] {
      units, end := [], args;
    } else {
      var u, rest := FirstUnit(f, values, args);
      units, end := ParsedIsUnits(f, After(values, u), rest);
      units := Prepended(f, values, u, units, rest, end);
    }
  }

  /** The values once one unit has been parsed. */
  function After(values: Values, u: Unit): Values {
    if u.Flag? then values[u.name := u.value] else values
  }

  /** A result once one unit has been put in front. */
  function Led(u: Unit, r: Option<(seq<string>, Values)>): Option<(seq<string>, Values)> {
    if u.Flag? then r else Cons(u.p, r)
  }

  lemma FirstUnit(f: Flags, values: Values, args: seq<string>) returns (u: Unit, rest: seq<string>)
    requires ParseAll(f, values, args).Some?
    requires !(ParseOne(f, args).Stop? && ParseOne(f, args).rest == [])
    ensures UnitOk(f, u) && args == Tokens(u) + rest
    ensures ParseAll(f, values, args) == Led(u, ParseAll(f, After(values, u), rest))
  {
    var one := ParseOne(f, args);
    rest := one.rest;
    if one.Set? {
      u := FlagOf(f, args);
      StepFlag(f, values, args, one.name, one.value, rest);
    } else if IsPositional(args[0]) {
      rest := args[1..];
      u := Positional(args[0]);
      assert args == [args[0]] + rest;
      StepPositional(f, values, args[0], rest);
    } else {
      rest := args[2..];
      u := Escaped(args[1]);
      assert args == ["--", args[1]] + rest;
      StepEscaped(f, values, args[1], rest);
    }
  }

  lemma Prepended(f: Flags, values: Values, u: Unit, units: seq<Unit>, rest: seq<string>, end: seq<string>) returns (all: seq<Unit>)
    requires UnitOk(f, u) && AllOk(f, units) && rest == Flatten(units) + end
    ensures AllOk(f, all) && Tokens(u) + rest == Flatten(all) + end
    ensures Some((Positionals(all), Settings(values, all)))
            == Led(u, Some((Positionals(units), Settings(After(values, u), units))))
  {
    all := [u] + units;
    assert all[1..] == units;
    Assoc(Tokens(u), Flatten(units), end);
    assert [] + Positionals(units) == Positionals(units);
  }

  lemma SplitAt(body: string, k: nat)
    requires k < |body| && body[k] == '='
    ensures body == body[..k] + ("=" + body[k + 1..])
  {
    assert body[k..] == "=" + body[k + 1..];
    assert body == body[..k] + body[k..];
  }

  /** A name and the value behind the first '=', as they stand in the argument. */
  lemma BodySpells(body: string, k: nat)
    requires body != [] && body[0] != '-' && body[0] != '=' && k == Equals(body, 1)
    ensures body[..k] != "" && body[..k][0] != '-' && '=' !in body[..k]
    ensures k < |body| ==> body == body[..k] + ("=" + body[k + 1..])
  {
    if k < |body| {
      SplitAt(body, k);
    }
    forall j | 0 <= j < k ensures body[..k][j] != '=' {
      assert body[..k][j] == body[j];
    }
  }

  lemma NamedSpells(s: string) returns (dashes: string)
    requires !IsPositional(s) && s != "--" && Named(s).Some?
    ensures dashes == "-" || dashes == "--"
    ensures var (name, value) := Named(s).value;
            && name != "" && name[0] != '-' && '=' !in name
            && s == match value case None => dashes + name case Some(v) => dashes + name + "=" + v
  {
    dashes := if s[1] == '-' then "--" else "-";
    var body := if s[1] == '-' then s[2..] else s[1..];
    assert s == dashes + body;
    var k := Equals(body, 1);
    BodySpells(body, k);
    if k < |body| {
      Assoc(dashes, body[..k], "=" + body[k + 1..]);
      Assoc(dashes + body[..k], "=", body[k + 1..]);
    }
  }

  /** The one way to spell the flag parseOne has read. */
  lemma FlagOf(f: Flags, args: seq<string>) returns (u: Unit)
    requires ParseOne(f, args).Set?
    ensures UnitOk(f, u) && u.Flag?
    ensures ParseOne(f, args) == Set(u.name, u.value, ParseOne(f, args).rest)
    ensures args == Tokens(u) + ParseOne(f, args).rest
  {
    var dashes := NamedSpells(args[0]);
    var (name, value) := Named(args[0]).value;
    assert args == [args[0]] + args[1..];
    if value.Some? {
      u := Flag(dashes, name, value.value, WithEquals);
    } else if f.kinds[name].BoolFlag? {
      u := Flag(dashes, name, "true", Bare);
    } else {
      u := Flag(dashes, name, args[1], WithNext);
      assert args == [args[0], args[1]] + args[2..];
    }
  }

  // ---------------------------------------------------------------------------------------------
  // Interleaving.

  function FlagsOnly(units: seq<Unit>): seq<Unit> {
    if units == [] then []
    else (if units[0].Flag? then [units[0]] else []) + FlagsOnly(units[1..])
  }

  function OthersOnly(units: seq<Unit>): seq<Unit> {
    if units == [] then []
    else (if units[0].Flag? then [] else [units[0]]) + OthersOnly(units[1..])
  }

  /** What a list of units says depends on its flags in order and its other arguments in order. */
  lemma {:induction false} OnlyOrdersMatter(values: Values, units: seq<Unit>)
    ensures Positionals(units) == Positionals(OthersOnly(units))
    ensures Settings(values, units) == Settings(values, FlagsOnly(units))
    decreases |units|
  {
    if units != [] {
      var u, rest := units[0], units[1..];
      if u.Flag? {
        OnlyOrdersMatter(values[u.name := u.value], rest);
        assert ([u] + FlagsOnly(rest))[1..] == FlagsOnly(rest);
        assert [] + OthersOnly(rest) == OthersOnly(rest);
      } else {
        OnlyOrdersMatter(values, rest);
        assert ([u] + OthersOnly(rest))[1..] == OthersOnly(rest);
        assert [] + FlagsOnly(rest) == FlagsOnly(rest);
      }
    }
  }

  /**
   Flags may stand before, between or after the positional arguments: two command lines with the
   same flags in the same order and the same other arguments in the same order mean the same.
   */
  lemma InterleavingIsFree(f: Flags, values: Values, us: seq<Unit>, vs: seq<Unit>)
    requires AllOk(f, us) && AllOk(f, vs)
    requires FlagsOnly(us) == FlagsOnly(vs) && OthersOnly(us) == OthersOnly(vs)
    ensures ParseAll(f, values, Flatten(us)) == ParseAll(f, values, Flatten(vs))
    ensures ParseAll(f, values, Flatten(us)).Some?
  {
    UnitsAreParsed(f, values, us);
    UnitsAreParsed(f, values, vs);
    OnlyOrdersMatter(values, us);
    OnlyOrdersMatter(values, vs);
  }

  // ---------------------------------------------------------------------------------------------
  // What "--" protects.

  /** A list that is all positional arguments is returned as it is, and nothing is set. */
  lemma {:induction false} PlainArguments(f: Flags, values: Values, args: seq<string>)
    requires forall a | a in args :: IsPositional(a)
    ensures ParseAll(f, values, args) == Some((args, values))
    decreases |args|
  {
    if args != [] {
      assert args == [args[0]] + args[1..];
      PlainArguments(f, values, args[1..]);
      StepPositional(f, values, args[0], args[1..]);
    }
  }

  /** A unit gives at most one positional argument, and only a plain one gives as many as it takes. */
  lemma {:induction false} PositionalsAtMost(f: Flags, units: seq<Unit>)
    requires AllOk(f, units)
    ensures |Positionals(units)| <= |Flatten(units)|
    ensures |Positionals(units)| == |Flatten(units)| ==> forall a | a in Flatten(units) :: IsPositional(a)
  {
    if units != [] {
      assert UnitOk(f, units[0]);
      PositionalsAtMost(f, units[1..]);
    }
  }

  /** A command line is returned as it stands exactly when all of it is positional. */
  lemma ReturnedAsIsExactly(f: Flags, values: Values, args: seq<string>)
    ensures ParseAll(f, values, args) == Some((args, values)) <==> forall a | a in args :: IsPositional(a)
  {
    if ParseAll(f, values, args) == Some((args, values)) {
      var units, end := ParsedIsUnits(f, values, args);
      PositionalsAtMost(f, units);
      assert end == [] && args == Flatten(units);
    }
    if forall a | a in args :: IsPositional(a) {
      PlainArguments(f, values, args);
    }
  }

  /** "--" protects everything after it exactly when nothing behind the next argument needs it. */
  lemma EscapeProtectsExactly(f: Flags, values: Values, p: string, rest: seq<string>)
    ensures ParseAll(f, values, ["--", p] + rest) == Some(([p] + rest, values))
            <==> forall a | a in rest :: IsPositional(a)
  {
    StepEscaped(f, values, p, rest);
    ReturnedAsIsExactly(f, values, rest);
    if ParseAll(f, values, ["--", p] + rest) == Some(([p] + rest, values)) {
      var pos := ParseAll(f, values, rest).value.0;
      assert pos == ([p] + pos)[1..] && rest == ([p] + rest)[1..];
    }
  }

  /** sendme's -v alone; its Set is strconv.ParseBool. */
  const VERBOSE: Flags :=
    Flags(map["v" := BoolFlag],
          (name: string, value: string) => value in ["1", "t", "T", "TRUE", "true", "True",
                                                     "0", "f", "F", "FALSE", "false", "False"])

  /** In "-- a -v" the flag is set all the same. */
  lemma EscapeFails()
    ensures ParseAll(VERBOSE, map[], ["--", "a", "-v"]) == Some((["a"], map["v" := "true"]))
  {
    var u := Flag("-", "v", "true", Bare);
    assert "-" + "v" == "-v";
    assert Tokens(u) == ["-v"] && Tokens(u) + [] == ["-v"];
    assert UnitOk(VERBOSE, u);
    FlagIsRead(VERBOSE, u, []);
    StepFlag(VERBOSE, map[], ["-v"], "v", "true", []);
    StepEscaped(VERBOSE, map[], "a", ["-v"]);
    assert ["--", "a"] + ["-v"] == ["--", "a", "-v"];
    var none: Values, verbose: Values := map[], map["v" := "true"];
    assert none["v" := "true"] == verbose;
    assert ParseAll(VERBOSE, verbose, []) == Some(([], verbose));
    assert ["a"] + [] == ["a"];
  }
}
