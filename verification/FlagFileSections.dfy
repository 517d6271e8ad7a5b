/** Flag files for several programs: which of their settings count for this one. */
module FlagFileSections {
  import opened Wrappers
  import opened Numerals
  import opened Strings
  import opened FlagValues
  import opened Flags
  import opened FlagParser
  import opened FlagFile

  /** A line of a flag file: a comment, the names of programs that the settings behind it are for, or a setting. */
  datatype Line = Comment(text: string) | Programs(names: seq<string>) | Assignment(info: Info)

  function Words(names: seq<string>): string
  {
    if names == [] then "" else names[0] + if |names| > 1 then " " + Words(names[1..]) else ""
  }

  function Text(l: Line): string
  {
    match l
    case Comment(text) => "#" + text
    case Programs(names) => Words(names)
    case Assignment(info) => FlagLine(info.name, ToString(info.value))
  }

  function FileText(lines: seq<Line>): string
  {
    if lines == [] then "" else Text(lines[0]) + "\n" + FileText(lines[1..])
  }

  /** A name of a program, without spaces or line ends, that is not taken for a comment or a flag. */
  predicate IsProgramName(name: string)
  {
    && name != "" && Lacks(name, " \n") && name[0] != '#' && name[0] != '-' && !IsSpace(name[0])
  }

  predicate WellFormed(l: Line, flags: Registered)
  {
    match l
    case Comment(text) => '\n' !in text
    case Programs(names) => names != [] && forall k :: 0 <= k < |names| ==> IsProgramName(names[k])
    case Assignment(info) => info.name in flags && Printable(flags[info.name].(current := info.value))
  }

  // ---------------------------------------------------------------------------
  // What counts, looking back from a place in the file.

  predicate NamesIt(names: seq<string>, matches: string -> bool)
  {
    exists k :: 0 <= k < |names| && matches(names[k])
  }

  /** The lines with names of programs right before a place, comments aside, name this one. */
  predicate Headed(lines: seq<Line>, matches: string -> bool)
  {
    lines != []
    && match lines[|lines| - 1]
       case Comment(_) => Headed(lines[..|lines| - 1], matches)
       case Programs(names) => NamesIt(names, matches) || Headed(lines[..|lines| - 1], matches)
       case Assignment(_) => false
  }

  /** The last such lines before a place name this program, or there are none. */
  predicate Counts(lines: seq<Line>, matches: string -> bool)
  {
    lines == []
    || match lines[|lines| - 1]
       case Programs(_) => Headed(lines, matches)
       case _ => Counts(lines[..|lines| - 1], matches)
  }

  /** Whether lines with names of programs are right before a place, comments aside. */
  predicate InHead(lines: seq<Line>)
  {
    lines != []
    && match lines[|lines| - 1]
       case Comment(_) => InHead(lines[..|lines| - 1])
       case Programs(_) => true
       case Assignment(_) => false
  }

  /** The settings that count, in the order of the file. */
  function Effective(lines: seq<Line>, matches: string -> bool): seq<Info>
  {
    if lines == [] then []
    else
      var before, last := lines[..|lines| - 1], lines[|lines| - 1];
      if last.Assignment? && Counts(before, matches) then Effective(before, matches) + [last.info]
      else Effective(before, matches)
  }

  lemma OneMoreLine(lines: seq<Line>, l: Line, matches: string -> bool)
    ensures InHead(lines + [l]) <==> l.Programs? || (l.Comment? && InHead(lines))
    ensures Headed(lines + [l], matches)
            <==> !l.Assignment? && (Headed(lines, matches) || (l.Programs? && NamesIt(l.names, matches)))
    ensures Counts(lines + [l], matches)
            <==> if l.Programs? then Headed(lines + [l], matches) else Counts(lines, matches)
    ensures Effective(lines + [l], matches)
            == if l.Assignment? && Counts(lines, matches) then Effective(lines, matches) + [l.info]
               else Effective(lines, matches)
  {
    assert (lines + [l])[..|lines|] == lines;
  }

  // ---------------------------------------------------------------------------
  // Reading one line.

  lemma {:induction false} WordsAreCut(names: seq<string>, matches: string -> bool)
    requires names != [] && forall k :: 0 <= k < |names| ==> IsProgramName(names[k])
    ensures NamesProgram(Words(names), matches) <==> NamesIt(names, matches)
    ensures names[0] != "" && Words(names) != "" && Words(names)[0] == names[0][0] && '\n' !in Words(names)
  {
    var rest := names[1..];
    if rest == [] {
      assert Words(names) == names[0] + Marked(' ', None);
      JoinAndCut(names[0], ' ', None);
    } else {
      WordsAreCut(rest, matches);
      assert Words(names) == names[0] + Marked(' ', Some(Words(rest)));
      JoinAndCut(names[0], ' ', Some(Words(rest)));
      assert forall k :: 0 <= k < |rest| ==> rest[k] == names[k + 1];
    }
  }

  /** The line a text starts with is read first. */
  lemma OneLine(r: Reader, declared: Declared, line: string, rest: string, matches: string -> bool)
    requires line != "" && !IsSpace(line[0]) && '\n' !in line
    ensures ReadText(r, declared, line + "\n" + rest, SetValue, matches)
            == ReadText(ReadLine(r, declared, line, SetValue, matches), declared, rest, SetValue, matches)
  {
    var text := line + "\n" + rest;
    assert text == line + Marked('\n', Some(rest));
    JoinAndCut(line, '\n', Some(rest));
    assert text[0] == line[0] && SkipSpace(text) == text;
  }

  lemma {:induction false} GivenSame(flags: Registered, infos: seq<Info>, n: string)
    requires n in flags
    ensures Given(flags, infos).Keys == flags.Keys
    ensures var g := Given(flags, infos)[n]; g == flags[n].(current := g.current, modified := g.modified)
    decreases |infos|
  {
    if infos != [] {
      var m := infos[0].name;
      var next := if m in flags then flags[m := flags[m].(current := infos[0].value, modified := true)] else flags;
      GivenSame(next, infos[1..], n);
    }
  }

  lemma {:induction false} GivenLast(flags: Registered, infos: seq<Info>, last: Info)
    requires last.name in flags
    ensures last.name in Given(flags, infos)
    ensures var g := Given(flags, infos);
      Given(flags, infos + [last]) == g[last.name := g[last.name].(current := last.value, modified := true)]
    decreases |infos|
  {
    if infos == [] {
      assert infos + [last] == [last];
      assert Given(flags, [last]) == flags[last.name := flags[last.name].(current := last.value, modified := true)];
    } else {
      var m := infos[0].name;
      var next := if m in flags then flags[m := flags[m].(current := infos[0].value, modified := true)] else flags;
      assert (infos + [last])[1..] == infos[1..] + [last];
      GivenLast(next, infos[1..], last);
    }
  }

  lemma {:induction false} HeadCounts(lines: seq<Line>, matches: string -> bool)
    ensures Headed(lines, matches) <==> InHead(lines) && Counts(lines, matches)
  {
    if lines != [] {
      HeadCounts(lines[..|lines| - 1], matches);
    }
  }

  // ---------------------------------------------------------------------------
  // Reading a file.

  /** What the reader is to have come to behind some lines. */
  ghost function ReaderBehind(p: Parser, lines: seq<Line>, matches: string -> bool): Reader
  {
    Reader(p.(flags := Given(p.flags, Effective(lines, matches))), Counts(lines, matches), InHead(lines))
  }

  ghost predicate Readable(p: Parser, declared: Declared, lines: seq<Line>)
  {
    ByName(p.flags) && DeclaredAs(p.flags, declared) && forall k :: 0 <= k < |lines| ==> WellFormed(lines[k], p.flags)
  }

  /** The reader with a setting at hand: it is for a flag that can take it. */
  lemma SettingIsProcessed(p: Parser, declared: Declared, infos: seq<Info>, info: Info)
    requires ByName(p.flags) && DeclaredAs(p.flags, declared) && WellFormed(Assignment(info), p.flags)
    ensures var line := FlagLine(info.name, ToString(info.value));
      line != "" && line[0] == '-' && '\n' !in line
      && ReadFlagLine(p.(flags := Given(p.flags, infos)), declared, line, SetValue)
         == p.(flags := Given(p.flags, infos + [info]))
  {
    var q := p.(flags := Given(p.flags, infos));
    forall n | n in p.flags
      ensures q.flags.Keys == p.flags.Keys
      ensures q.flags[n] == p.flags[n].(current := q.flags[n].current, modified := q.flags[n].modified)
    {
      GivenSame(p.flags, infos, n);
    }
    GivenSame(p.flags, infos, info.name);
    ReadPrintedLine(q, declared, info.name, info.value);
    GivenLast(p.flags, infos, info);
  }

  lemma OneLineIsRead(p: Parser, declared: Declared, lines: seq<Line>, l: Line, matches: string -> bool)
    requires ByName(p.flags) && DeclaredAs(p.flags, declared) && WellFormed(l, p.flags)
    ensures ReaderBehind(p, lines + [l], matches)
            == ReadLine(ReaderBehind(p, lines, matches), declared, Text(l), SetValue, matches)
    ensures Text(l) != "" && !IsSpace(Text(l)[0]) && '\n' !in Text(l)
  {
    OneMoreLine(lines, l, matches);
    match l
    case Comment(_) =>
    case Programs(names) =>
      WordsAreCut(names, matches);
      HeadCounts(lines, matches);
      assert IsProgramName(names[0]);
    case Assignment(info) =>
      SettingIsProcessed(p, declared, Effective(lines, matches), info);
  }

  lemma LineIsPassed(p: Parser, declared: Declared, before: seq<Line>, l: Line, rest: string, matches: string -> bool)
    requires ByName(p.flags) && DeclaredAs(p.flags, declared) && WellFormed(l, p.flags)
    ensures ReadText(ReaderBehind(p, before, matches), declared, Text(l) + "\n" + rest, SetValue, matches)
            == ReadText(ReaderBehind(p, before + [l], matches), declared, rest, SetValue, matches)
  {
    OneLineIsRead(p, declared, before, l, matches);
    OneLine(ReaderBehind(p, before, matches), declared, Text(l), rest, matches);
  }

  lemma RestIsReadable(p: Parser, declared: Declared, lines: seq<Line>)
    requires Readable(p, declared, lines) && lines != []
    ensures WellFormed(lines[0], p.flags) && Readable(p, declared, lines[1..])
  {
    assert forall k :: 0 <= k < |lines| - 1 ==> lines[1..][k] == lines[k + 1];
  }

  lemma OneFurther(before: seq<Line>, lines: seq<Line>)
    requires lines != []
    ensures before + [lines[0]] + lines[1..] == before + lines
  {
  }

  lemma {:induction false} RestIsRead(p: Parser, declared: Declared, before: seq<Line>, lines: seq<Line>,
                                      matches: string -> bool)
    requires Readable(p, declared, lines)
    ensures ReadText(ReaderBehind(p, before, matches), declared, FileText(lines), SetValue, matches)
            == ReaderBehind(p, before + lines, matches)
    decreases |lines|
  {
    if lines == [] {
      EmptyText(ReaderBehind(p, before, matches), declared, matches);
      assert before + lines == before;
    } else {
      RestIsReadable(p, declared, lines);
      LineIsPassed(p, declared, before, lines[0], FileText(lines[1..]), matches);
      RestIsRead(p, declared, before + [lines[0]], lines[1..], matches);
      OneFurther(before, lines);
    }
  }

  /** Reading a flag file gives the flags the settings that count for this program, and does nothing else. */
  lemma FileIsRead(p: Parser, declared: Declared, lines: seq<Line>, matches: string -> bool)
    requires Readable(p, declared, lines)
    ensures ReadText(Reader(p, true, false), declared, FileText(lines), SetValue, matches).parser
            == p.(flags := Given(p.flags, Effective(lines, matches)))
  {
    RestIsRead(p, declared, [], lines, matches);
    assert [] + lines == lines;
  }
}
