/** Flag files: printing a registry as text, reading text into one, and taking a failed reading back. */
module FlagFile {
  import opened Wrappers
  import opened Numerals
  import opened Strings
  import opened FlagValues
  import opened Flags
  import opened ArgvOrder
  import opened FlagParser
  import opened FlagSaver

  /** One flag as the printer lists it. */
  datatype Info = Info(name: string, value: Value)

  function FlagLine(name: string, text: string): string {
    "--" + name + "=" + text
  }

  function PrintFlags(infos: seq<Info>): string {
    if infos == [] then ""
    else FlagLine(infos[0].name, ToString(infos[0].value)) + "\n" + PrintFlags(infos[1..])
  }

  method TheseCommandlineFlagsIntoString(infos: seq<Info>) returns (text: string)
    ensures text == PrintFlags(infos)
  {
    text := "";
    var i := 0;
    assert infos[0..] == infos;
    while i < |infos|
      invariant i <= |infos|
      invariant PrintFlags(infos) == text + PrintFlags(infos[i..])
    {
      assert infos[i..][0] == infos[i] && infos[i..][1..] == infos[i + 1..];
      text := text + "--";
      text := text + infos[i].name;
      text := text + "=";
      text := text + ToString(infos[i].value);
      text := text + "\n";
      i := i + 1;
    }
    assert infos[|infos|..] == [];
  }

  // Reading.

  /** What reading has come to: the parser, whether flags count at the moment, and whether the last line that was not
      skipped named programs. */
  datatype Reader = Reader(parser: Parser, relevant: bool, inSection: bool)

  /** A flag line: like an argument, but never with the next line for its value, and with problems left aside. */
  function FlagNameAndValue(line: string): string
    requires line != "" && line[0] == '-'
  {
    if |line| > 1 && line[1] == '-' then line[2..] else line[1..]
  }

  function ReadFlagLine(p: Parser, declared: Declared, line: string, mode: Mode): Parser
    requires line != "" && line[0] == '-'
  {
    var split := SplitArgument(declared, FlagNameAndValue(line));
    if split.name.None? || split.value.None? || split.name.value !in p.flags then p
    else Process(p, split.name.value, split.value.value, mode)
  }

  /** Whether one of the words of a line, cut at its spaces, names this program. */
  function NamesProgram(line: string, matches: string -> bool): bool
    decreases |line|
  {
    matches(Before(line, ' ')) ||
    match After(line, ' ')
    case None => false
    case Some(rest) => NamesProgram(rest, matches)
  }

  function ReadLine(r: Reader, declared: Declared, line: string, mode: Mode, matches: string -> bool): Reader {
    if line == "" || line[0] == '#' then r
    else if line[0] == '-' then
      r.(inSection := false, parser := if r.relevant then ReadFlagLine(r.parser, declared, line, mode) else r.parser)
    else
      r.(inSection := true, relevant := (r.inSection && r.relevant) || NamesProgram(line, matches))
  }

  /** Reads a text line by line; white space in front of a line is skipped, and empty lines with it. */
  function ReadText(r: Reader, declared: Declared, text: string, mode: Mode, matches: string -> bool): Reader
    decreases |text|
  {
    var t := SkipSpace(text);
    var next := ReadLine(r, declared, Before(t, '\n'), mode, matches);
    match After(t, '\n')
    case None => next
    case Some(rest) => ReadText(next, declared, rest, mode, matches)
  }

  // Reading back what was printed.

  /** What printing and reading can carry: no mark of the format in the name, no line end or NUL in the value, and
      no value that leads to further flags elsewhere. */
  predicate Printable(f: Flag) {
    && Lacks(f.name, "=\n\0") && '\n' !in ToString(f.current) && !LeadsElsewhere(f)
    && WellTyped(f) && Fits(f.current) && Passes(f, f.current)
  }

  /** The flags after some were given values. */
  function Given(flags: Registered, infos: seq<Info>): Registered {
    if infos == [] then flags
    else
      var n, v := infos[0].name, infos[0].value;
      Given(if n in flags then flags[n := flags[n].(current := v, modified := true)] else flags, infos[1..])
  }

  /** The infos name flags of a registry and give them printable values they may have. */
  ghost predicate Carried(flags: Registered, infos: seq<Info>) {
    forall i :: 0 <= i < |infos| ==>
      infos[i].name in flags && Printable(flags[infos[i].name].(current := infos[i].value))
  }

  lemma ReadPrintedLine(p: Parser, declared: Declared, name: string, v: Value)
    requires DeclaredAs(p.flags, declared) && name in p.flags && p.flags[name].name == name
    requires Printable(p.flags[name].(current := v))
    ensures
      ReadFlagLine(p, declared, FlagLine(name, ToString(v)), SetValue) ==
      p.(flags := p.flags[name := p.flags[name].(current := v, modified := true)])
    ensures '\n' !in FlagLine(name, ToString(v)) && FlagLine(name, ToString(v))[..2] == "--"
  {
    LineShape(name, ToString(v));
    SplitPrinted(declared, name, ToString(v));
    ProcessPrinted(p, name, v);
  }

  lemma LineShape(name: string, text: string)
    requires Lacks(name, "=\n\0") && '\n' !in text
    ensures var line := FlagLine(name, text); '\n' !in line && |line| >= 2 && line[..2] == "--"
    ensures FlagNameAndValue(FlagLine(name, text)) == name + Marked('=', Some(text)) && '=' !in name
  {
    var line := FlagLine(name, text);
    assert line[2..] == name + ("=" + text);
    assert '\n' !in name && '\n' !in "--" && '\n' !in "=";
  }

  lemma ProcessPrinted(p: Parser, name: string, v: Value)
    requires name in p.flags && Printable(p.flags[name].(current := v))
    ensures
      Process(p, name, ToString(v), SetValue) ==
      p.(flags := p.flags[name := p.flags[name].(current := v, modified := true)])
  {
    SetPrinted(p.flags[name], v);
  }

  lemma SplitPrinted(declared: Declared, name: string, text: string)
    requires name in declared && '=' !in name
    ensures SplitArgument(declared, name + Marked('=', Some(text))) == Split(Some(name), name, Some(text), None)
  {
    JoinAndCut(name, '=', Some(text));
  }

  lemma SetPrinted(f: Flag, v: Value)
    requires Printable(f.(current := v))
    ensures Set(f, ToString(v), SetValue) == (f.(current := v, modified := true), true)
  {
    PrintThenParse(v);
    assert TryParse(f, ToString(v)) == Some(v);
  }

  /** Reading what was printed gives each listed flag its printed value and changes nothing else. */
  lemma {:induction false} ReadPrinted(p: Parser, declared: Declared, infos: seq<Info>, inSection: bool,
                                       matches: string -> bool)
    requires ByName(p.flags) && DeclaredAs(p.flags, declared) && Carried(p.flags, infos)
    ensures
      ReadText(Reader(p, true, inSection), declared, PrintFlags(infos), SetValue, matches).parser ==
      p.(flags := Given(p.flags, infos))
    decreases |infos|
  {
    if infos == [] {
      EmptyText(Reader(p, true, inSection), declared, matches);
    } else {
      var name, v := infos[0].name, infos[0].value;
      var q := p.(flags := p.flags[name := p.flags[name].(current := v, modified := true)]);
      ReadPrintedLine(p, declared, name, v);
      FirstLine(Reader(p, true, inSection), declared, FlagLine(name, ToString(v)), PrintFlags(infos[1..]), matches);
      assert Carried(q.flags, infos[1..]) by {
        forall i | 0 <= i < |infos| - 1
          ensures infos[1..][i].name in q.flags
          ensures Printable(q.flags[infos[1..][i].name].(current := infos[1..][i].value))
        {
          assert infos[1..][i] == infos[i + 1];
        }
      }
      ReadPrinted(q, declared, infos[1..], false, matches);
    }
  }

  lemma EmptyText(r: Reader, declared: Declared, matches: string -> bool)
    ensures ReadText(r, declared, "", SetValue, matches) == r
  {
  }

  lemma FirstLine(r: Reader, declared: Declared, line: string, rest: string, matches: string -> bool)
    requires |line| >= 2 && line[..2] == "--" && '\n' !in line && r.relevant
    ensures
      ReadText(r, declared, line + "\n" + rest, SetValue, matches) ==
      ReadText(Reader(ReadFlagLine(r.parser, declared, line, SetValue), true, false), declared, rest, SetValue, matches)
  {
    var text := line + "\n" + rest;
    assert line[0] == line[..2][0] == '-';
    assert text == line + Marked('\n', Some(rest));
    JoinAndCut(line, '\n', Some(rest));
    assert SkipSpace(text) == text;
  }

  lemma {:induction false} GivenKeys(flags: Registered, infos: seq<Info>)
    ensures Given(flags, infos).Keys == flags.Keys
    decreases |infos|
  {
    if infos != [] {
      var n, v := infos[0].name, infos[0].value;
      GivenKeys(if n in flags then flags[n := flags[n].(current := v, modified := true)] else flags, infos[1..]);
    }
  }

  /** If every info about a flag gives it the value v, that is what it gets; from no info, it stays as it was. */
  lemma {:induction false} GivenValue(flags: Registered, infos: seq<Info>, n: string, v: Value)
    requires n in flags && forall i :: 0 <= i < |infos| && infos[i].name == n ==> infos[i].value == v
    ensures n in Given(flags, infos)
    ensures
      Given(flags, infos)[n] ==
      if exists i :: 0 <= i < |infos| && infos[i].name == n then flags[n].(current := v, modified := true) else flags[n]
    decreases |infos|
  {
    if infos != [] {
      var m := infos[0].name;
      var next := if m in flags then flags[m := flags[m].(current := infos[0].value, modified := true)] else flags;
      var rest := infos[1..];
      assert forall i :: 0 <= i < |rest| ==> rest[i] == infos[i + 1];
      GivenValue(next, rest, n, v);
      if i :| 0 <= i < |infos| && infos[i].name == n && i > 0 {
        assert rest[i - 1].name == n;
      }
    }
  }

  /** The infos list a registry: every flag, with its current value. */
  ghost predicate Lists(infos: seq<Info>, flags: Registered) {
    && (forall i :: 0 <= i < |infos| ==> infos[i].name in flags && infos[i].value == flags[infos[i].name].current)
    && (forall n :: n in flags ==> exists i :: 0 <= i < |infos| && infos[i].name == n)
  }

  /** Printing one registry and reading the text into any registry with the same declarations makes all current
      values equal, without a problem. */
  lemma PrintThenRead(flags: Registered, infos: seq<Info>, p: Parser, declared: Declared, matches: string -> bool)
    requires ByName(flags) && Lists(infos, flags) && ByName(p.flags) && DeclaredAs(p.flags, declared)
    requires flags.Keys == p.flags.Keys
    requires forall n :: n in flags ==> SameDeclaration(flags[n], p.flags[n]) && Printable(flags[n])
    ensures
      var q := ReadText(Reader(p, true, false), declared, PrintFlags(infos), SetValue, matches).parser;
      && q.errors == p.errors && q.undefined == p.undefined && q.strayed == p.strayed && q.flags.Keys == flags.Keys
      && forall n :: n in flags ==> q.flags[n] == p.flags[n].(current := flags[n].current, modified := true)
  {
    assert Carried(p.flags, infos);
    ReadPrinted(p, declared, infos, false, matches);
    GivenKeys(p.flags, infos);
    forall n | n in flags
      ensures n in Given(p.flags, infos)
      ensures Given(p.flags, infos)[n] == p.flags[n].(current := flags[n].current, modified := true)
    {
      GivenValue(p.flags, infos, n, flags[n].current);
    }
  }

  // The reader itself.

  method NamesThisProgram(line: string, matches: string -> bool) returns (found: bool)
    ensures found == NamesProgram(line, matches)
  {
    var words := Some(line);
    found := false;
    while words.Some? && !found
      invariant NamesProgram(line, matches) == (found || (words.Some? && NamesProgram(words.value, matches)))
      decreases if words.Some? then |words.value| + 1 else 0
    {
      found := matches(Before(words.value, ' '));
      words := After(words.value, ' ');
    }
  }

  method ProcessFlagLine(parser: CommandLineFlagParser, line: string, mode: Mode)
    requires parser.Valid() && NulFree(line) && line != "" && line[0] == '-'
    modifies parser`errorFlags, parser`strayed, parser.registry`contents, parser.registry.flags.Values
    ensures parser.Valid() && parser.registry.flags == old(parser.registry.flags)
    ensures parser.State() == ReadFlagLine(old(parser.State()), parser.registry.declared, line, mode)
  {
    var arg := FlagNameAndValue(line);
    var flag, key, value, error := parser.registry.SplitArgumentLocked(arg);
    if flag != null {
      parser.registry.ValidContents();
      if value.Some? {
        ValueIsNulFree(parser.registry.declared, arg);
        parser.ProcessSingleOptionLocked(flag, value.value, mode);
      }
    }
  }

  method ProcessLine(parser: CommandLineFlagParser, line: string, relevant: bool, inSection: bool, mode: Mode,
                     matches: string -> bool) returns (flagsAreRelevant: bool, inFilenameSection: bool)
    requires parser.Valid() && NulFree(line)
    modifies parser`errorFlags, parser`strayed, parser.registry`contents, parser.registry.flags.Values
    ensures parser.Valid() && parser.registry.flags == old(parser.registry.flags)
    ensures
      Reader(parser.State(), flagsAreRelevant, inFilenameSection) ==
      ReadLine(Reader(old(parser.State()), relevant, inSection), parser.registry.declared, line, mode, matches)
  {
    flagsAreRelevant, inFilenameSection := relevant, inSection;
    if line == "" || line[0] == '#' {
    } else if line[0] == '-' {
      inFilenameSection := false;
      if flagsAreRelevant {
        ProcessFlagLine(parser, line, mode);
      }
    } else {
      if !inFilenameSection {
        inFilenameSection := true;
        flagsAreRelevant := false;
      }
      if !flagsAreRelevant {
        flagsAreRelevant := NamesThisProgram(line, matches);
      }
    }
  }

  lemma {:induction false} PiecesNulFree(s: string, mark: char)
    requires NulFree(s)
    ensures NulFree(SkipSpace(s)) && NulFree(Before(s, mark))
    ensures After(s, mark).Some? ==> NulFree(After(s, mark).value)
  {
    if s != "" && IsSpace(s[0]) {
      PiecesNulFree(s[1..], mark);
    }
  }

  method ProcessOptionsFromStringLocked(parser: CommandLineFlagParser, contentdata: string, mode: Mode,
                                        matches: string -> bool)
    requires parser.Valid() && NulFree(contentdata)
    modifies parser`errorFlags, parser`strayed, parser.registry`contents, parser.registry.flags.Values
    ensures parser.Valid() && parser.registry.flags == old(parser.registry.flags)
    ensures
      parser.State() ==
      ReadText(Reader(old(parser.State()), true, false), parser.registry.declared, contentdata, mode, matches).parser
  {
    ghost var declared := parser.registry.declared;
    ghost var all := ReadText(Reader(parser.State(), true, false), declared, contentdata, mode, matches);
    var contents, relevant, inSection := Some(contentdata), true, false;
    while contents.Some?
      modifies parser`errorFlags, parser`strayed, parser.registry`contents, parser.registry.flags.Values
      invariant parser.Valid() && parser.registry.flags == old(parser.registry.flags)
      invariant contents.Some? ==> NulFree(contents.value)
      invariant
        var r := Reader(parser.State(), relevant, inSection);
        all == if contents.None? then r else ReadText(r, declared, contents.value, mode, matches)
      decreases if contents.Some? then |contents.value| + 1 else 0
    {
      PiecesNulFree(contents.value, '\n');
      var text := SkipSpace(contents.value);
      PiecesNulFree(text, '\n');
      relevant, inSection := ProcessLine(parser, Before(text, '\n'), relevant, inSection, mode, matches);
      contents := After(text, '\n');
    }
  }

  // Taking a failed reading back.

  lemma LineKeepsDeclarations(r: Reader, declared: Declared, line: string, mode: Mode, matches: string -> bool)
    requires ByName(r.parser.flags)
    ensures SameDeclarations(r.parser.flags, ReadLine(r, declared, line, mode, matches).parser.flags)
  {
    if line != "" && line[0] == '-' && r.relevant {
      var split := SplitArgument(declared, FlagNameAndValue(line));
      if split.name.Some? && split.value.Some? && split.name.value in r.parser.flags {
        ProcessKeepsDeclarations(r.parser, split.name.value, split.value.value, mode);
      }
    }
  }

  /** Reading changes values, defaults and marks of flags, and nothing else about them. */
  lemma {:induction false} TextKeepsDeclarations(r: Reader, declared: Declared, text: string, mode: Mode,
                                                 matches: string -> bool)
    requires ByName(r.parser.flags)
    ensures SameDeclarations(r.parser.flags, ReadText(r, declared, text, mode, matches).parser.flags)
    decreases |text|
  {
    var t := SkipSpace(text);
    LineKeepsDeclarations(r, declared, Before(t, '\n'), mode, matches);
    if After(t, '\n').Some? {
      TextKeepsDeclarations(ReadLine(r, declared, Before(t, '\n'), mode, matches), declared, After(t, '\n').value, mode,
                            matches);
    }
  }

  /** A text read without errors has its whole effect; with any error in it, it has none. */
  method ReadFlagsFromString(registry: FlagRegistry, contents: string, matches: string -> bool) returns (ok: bool)
    requires registry.Valid() && NulFree(contents)
    modifies registry`contents, registry.flags.Values
    ensures registry.Valid()
    ensures
      var start := Reader(Parser(old(registry.contents), map[], {}, false), true, false);
      var p := ReadText(start, registry.declared, contents, SetValue, matches).parser;
      (ok <==> p.errors == map[]) && registry.contents == if ok then p.flags else old(registry.contents)
  {
    ghost var saved := registry.contents;
    registry.ValidContents();
    var savedStates := new FlagSaverImpl(registry);
    savedStates.SaveFromRegistry();
    var parser := new CommandLineFlagParser(registry);
    TextKeepsDeclarations(Reader(parser.State(), true, false), registry.declared, contents, SetValue, matches);
    ProcessOptionsFromStringLocked(parser, contents, SetValue, matches);
    ok := parser.errorFlags == map[];
    if !ok {
      savedStates.RestoreToRegistry(saved);
    }
  }
}
