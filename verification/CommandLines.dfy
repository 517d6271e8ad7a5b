/** What users write on a command line, and what it makes of the flags. */
module CommandLines {
  import opened Wrappers
  import opened Strings
  import opened FlagValues
  import opened Flags
  import opened ArgvOrder
  import opened FlagParser

  /** One thing written on a command line; flags start with one dash or two. */
  datatype Item =
    | Joined(dashes: string, name: string, text: string)
    | Apart(dashes: string, name: string, text: string)
    | Switch(dashes: string, name: string, on: bool)
    | Positional(arg: string)

  function Written(item: Item): seq<string> {
    match item
    case Joined(dashes, name, text) => [dashes + name + "=" + text]
    case Apart(dashes, name, text) => [dashes + name, text]
    case Switch(dashes, name, on) => [dashes + (if on then name else "no" + name)]
    case Positional(arg) => [arg]
  }

  function CommandLine(items: seq<Item>): seq<string> {
    if items == [] then [] else Written(items[0]) + CommandLine(items[1..])
  }

  /** Flags are written by their names; switches are bool flags, and only those have no value. */
  predicate Sound(declared: Declared, item: Item) {
    match item
    case Positional(arg) => !LooksLikeFlag(arg)
    case _ =>
      && (item.dashes == "-" || item.dashes == "--")
      && item.name in declared && item.name != "" && item.name[0] != '-' && '=' !in item.name
      && (item.Apart? ==> declared[item.name] != Bool)
      && (item.Switch? ==> declared[item.name] == Bool && "no" + item.name !in declared)
  }

  predicate AllSound(declared: Declared, items: seq<Item>) {
    forall i :: 0 <= i < |items| ==> Sound(declared, items[i])
  }

  /** The value an item means its flag to have, if it is one. */
  function Meant(kind: FlagType, item: Item): Option<Value>
    requires !item.Positional?
  {
    if item.Switch? then Some(BoolValue(item.on)) else ParseFrom(kind, item.text)
  }

  /** A flag that gets a value takes it, unless it is none or its validator refuses it. */
  function Given(f: Flag, v: Option<Value>): Flag {
    if v.Some? && (f.validator.None? || v.value in f.validator.value) then f.(current := v.value, modified := true)
    else f.(modified := f.modified || f.current != f.defvalue)
  }

  /** The flags after the items, from left to right; names that are no flag's do nothing. */
  function FlagsAfter(flags: Registered, items: seq<Item>): (r: Registered)
    ensures r.Keys == flags.Keys
  {
    if items == [] then flags
    else
      var item, rest := items[0], items[1..];
      if item.Positional? || item.name !in flags then FlagsAfter(flags, rest)
      else
        var f := flags[item.name];
        FlagsAfter(flags[item.name := Given(f, Meant(Kind(f), item))], rest)
  }

  function Positionals(items: seq<Item>): seq<string> {
    if items == [] then []
    else (if items[0].Positional? then [items[0].arg] else []) + Positionals(items[1..])
  }

  /** The event stands for the item: its flag, and a text that reads as the value meant. */
  predicate StandsFor(declared: Declared, e: Event, item: Item)
    requires !item.Positional? && item.name in declared
  {
    && e.Assign? && e.name == item.name
    && ParseFrom(declared[item.name], e.text) == Meant(declared[item.name], item)
  }

  lemma NameIsFound(declared: Declared, name: string)
    requires '=' !in name
    ensures Before(name, '=') == name && After(name, '=') == None
  {
    assert Marked('=', None) == "" && name + "" == name;
    JoinAndCut(name, '=', None);
  }

  lemma SwitchSplits(declared: Declared, name: string, on: bool)
    requires name in declared && declared[name] == Bool && '=' !in name && "no" + name !in declared
    ensures
      var split := SplitArgument(declared, if on then name else "no" + name);
      && split.name == Some(name) && split.value.Some?
      && ParseFrom(Bool, split.value.value) == Some(BoolValue(on))
  {
    NameIsFound(declared, if on then name else "no" + name);
    assert ("no" + name)[2..] == name;
    assert Lower("1") == "1" && Lower("0") == "0";
  }

  lemma DashesOff(dashes: string, name: string)
    requires (dashes == "-" || dashes == "--") && name != "" && name[0] != '-'
    ensures LooksLikeFlag(dashes + name) && WithoutDashes(dashes + name) == name
  {
  }

  /** What parsing takes for an item, whatever comes behind it. */
  lemma ItemIsTaken(declared: Declared, item: Item, rest: seq<string>)
    requires Sound(declared, item) && !item.Positional?
    ensures
      var a := ActionOn(declared, Written(item) + rest);
      a.Take? && a.n == |Written(item)| && StandsFor(declared, a.event, item)
  {
    match item
    case Joined(dashes, name, text) =>
      var arg := name + "=" + text;
      assert dashes + name + "=" + text == dashes + arg && arg[0] == name[0];
      DashesOff(dashes, arg);
      assert arg == name + Marked('=', Some(text));
      JoinAndCut(name, '=', Some(text));
    case Apart(dashes, name, text) =>
      DashesOff(dashes, name);
      NameIsFound(declared, name);
    case Switch(dashes, name, on) =>
      var arg := if on then name else "no" + name;
      DashesOff(dashes, arg);
      SwitchSplits(declared, name, on);
  }

  /** A name that is no flag's, not even behind a "no", is noted as undefined and takes nothing from behind it. */
  lemma UnknownIsNoted(declared: Declared, dashes: string, name: string, rest: seq<string>)
    requires (dashes == "-" || dashes == "--") && name != "" && name[0] != '-' && '=' !in name
    requires name !in declared && (forall x :: x in declared && name == "no" + x ==> declared[x] != Bool)
    ensures
      var error := if exists x :: x in declared && name == "no" + x then NotBoolean else UnknownFlag;
      ActionOn(declared, [dashes + name] + rest) == Take(Problem(name, error, true), 1)
  {
    DashesOff(dashes, name);
    NameIsFound(declared, name);
    assert forall x :: x in declared && name == "no" + x ==> name[2..] == x;
    if NegatesFlag(declared, name) {
      assert name == "no" + name[2..];
    }
  }

  lemma {:induction false} ApplyFirst(p: Parser, e: Event, rest: seq<Event>)
    ensures ApplyAll(p, [e] + rest) == ApplyAll(Apply(p, e), rest)
    decreases |rest|
  {
    var events := [e] + rest;
    if rest == [] {
      assert events[..0] == [];
    } else {
      var init := rest[..|rest| - 1];
      ApplyFirst(p, e, init);
      assert events[..|events| - 1] == [e] + init;
    }
  }

  lemma ItemIsApplied(p: Parser, declared: Declared, e: Event, item: Item)
    requires ByName(p.flags) && DeclaredAs(p.flags, declared) && Sound(declared, item)
    requires !item.Positional? && StandsFor(declared, e, item)
    ensures
      var q, f := Apply(p, e), p.flags[item.name];
      && q.flags == p.flags[item.name := Given(f, Meant(Kind(f), item))] && q.undefined == p.undefined
      && ByName(q.flags) && DeclaredAs(q.flags, declared)
  {
    ProcessKeepsDeclarations(p, e.name, e.text, SetValue);
  }

  /** The order of the command line and the flags after it, for everything that can be written so. */
  lemma {:induction false} WrittenIsMeant(p: Parser, declared: Declared, items: seq<Item>)
    requires ByName(p.flags) && DeclaredAs(p.flags, declared) && AllSound(declared, items)
    ensures
      var s := Scan(declared, CommandLine(items));
      && s.rest == [] && s.positionals == Positionals(items) && !s.missing
      && ApplyAll(p, s.events).flags == FlagsAfter(p.flags, items) && ApplyAll(p, s.events).undefined == p.undefined
    decreases |items|
  {
    if items != [] {
      var item, args, rest := items[0], CommandLine(items), CommandLine(items[1..]);
      assert args[|Written(item)|..] == rest;
      var t := Scan(declared, rest);
      assert [] + t.events == t.events && [] + t.positionals == t.positionals;
      if item.Positional? {
        WrittenIsMeant(p, declared, items[1..]);
      } else {
        ItemIsTaken(declared, item, rest);
        var e := ActionOn(declared, args).event;
        ItemIsApplied(p, declared, e, item);
        WrittenIsMeant(Apply(p, e), declared, items[1..]);
        ApplyFirst(p, e, t.events);
      }
    }
  }

  lemma WrittenByParser(parser: CommandLineFlagParser, program: string, items: seq<Item>)
    requires parser.Valid() && AllSound(parser.registry.declared, items)
    ensures
      var argv := [program] + CommandLine(items);
      var s := Scan(parser.registry.declared, argv[1..]);
      && argv[..1] == [program] && s.rest == [] && s.positionals == Positionals(items)
      && ApplyAll(parser.State(), s.events).flags == FlagsAfter(parser.registry.contents, items)
  {
    assert ([program] + CommandLine(items))[1..] == CommandLine(items);
    parser.registry.ValidContents();
    WrittenIsMeant(parser.State(), parser.registry.declared, items);
  }

  /** The parser itself: all flags come out as written, and only the program name and the positionals are left. */
  method ParseWritten(parser: CommandLineFlagParser, argv: array<string>, ghost program: string, ghost items: seq<Item>)
      returns (offset: nat)
    requires parser.Valid() && AllSound(parser.registry.declared, items)
    requires argv[..] == [program] + CommandLine(items) && CStrings(argv[..])
    modifies parser`errorFlags, parser`undefinedNames, parser`strayed, parser.registry`contents
    modifies parser.registry.flags.Values, argv
    ensures parser.Valid() && offset < argv.Length && argv[..][offset..] == [program] + Positionals(items)
    ensures parser.registry.contents == FlagsAfter(old(parser.registry.contents), items)
  {
    WrittenByParser(parser, program, items);
    var first;
    first, offset := parser.ParseNewCommandLineFlags(argv, true);
    assert parser.registry.contents == parser.State().flags;
  }

  /** A switch alone: its flag is on or off afterwards, unless its validator refuses that. */
  lemma SwitchIsSet(flags: Registered, dashes: string, name: string, on: bool)
    requires name in flags && flags[name].validator.None?
    ensures
      var f := FlagsAfter(flags, [Switch(dashes, name, on)])[name];
      f.current == BoolValue(on) && f.modified && f.defvalue == flags[name].defvalue
  {
  }
}
