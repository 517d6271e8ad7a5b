/** The order in which parsing leaves the command line, and the settings its flags stand for. */
module ArgvOrder {
  import opened Wrappers
  import opened Strings
  import opened FlagValues
  import opened Flags

  predicate LooksLikeFlag(arg: string) {
    arg != "" && arg[0] == '-' && arg != "-"
  }

  function WithoutDashes(arg: string): string
    requires LooksLikeFlag(arg)
  {
    if arg[1] == '-' then arg[2..] else arg[1..]
  }

  datatype Event = Assign(name: string, text: string) | Problem(key: string, error: FlagError, undefined: bool)

  /** What a flag does, told by its name and the argument behind it: it stands for an event, together with that
      argument or alone, or it misses its value. */
  datatype Reaction = Taken(event: Event, withFollowing: bool) | Missing(event: Event)

  /** What a flag-like argument without its dashes stands for, with the argument behind it. */
  function React(declared: Declared, arg: string, following: Option<string>): Reaction {
    ReactTo(SplitArgument(declared, arg), following)
  }

  function ReactTo(split: Split, following: Option<string>): Reaction {
    if split.name.None? then Taken(Problem(split.key, split.error.GetOr(UnknownFlag), true), false)
    else if split.value.Some? then Taken(Assign(split.name.value, split.value.value), false)
    else if following.None? then Missing(Problem(split.key, MissingArgument, false))
    else Taken(Assign(split.name.value, following.value), true)
  }

  /** What the first argument makes parsing do. */
  datatype Action =
    | PutAside
    | EndOfOptions
    | Stop(event: Event)
    | Take(event: Event, n: nat)

  function Following(args: seq<string>): Option<string>
    requires args != []
  {
    if |args| == 1 then None else Some(args[1])
  }

  function ActionOn(declared: Declared, args: seq<string>): (a: Action)
    requires args != []
    ensures a.Take? ==> 1 <= a.n <= 2 && a.n <= |args|
  {
    if !LooksLikeFlag(args[0]) then PutAside
    else if WithoutDashes(args[0]) == "" then EndOfOptions
    else
      match React(declared, WithoutDashes(args[0]), Following(args))
      case Missing(e) => Stop(e)
      case Taken(e, withFollowing) => Take(e, if withFollowing && |args| > 1 then 2 else 1)
  }

  /** How the arguments fall apart: the flags with the values they took, what was not looked at because parsing
      stopped, and the other arguments. */
  datatype Scanned = Scanned(
    events: seq<Event>,
    flags: seq<string>,
    rest: seq<string>,
    positionals: seq<string>,
    missing: bool)

  function Prepend(events: seq<Event>, flags: seq<string>, positionals: seq<string>, s: Scanned): Scanned {
    s.(events := events + s.events, flags := flags + s.flags, positionals := positionals + s.positionals)
  }

  function Scan(declared: Declared, args: seq<string>): Scanned
    decreases |args|
  {
    if args == [] then Scanned([], [], [], [], false)
    else
      match ActionOn(declared, args)
      case PutAside => Prepend([], [], [args[0]], Scan(declared, args[1..]))
      case EndOfOptions => Scanned([], args[..1], args[1..], [], false)
      case Stop(e) => Scanned([e], args[..1], args[1..], [], true)
      case Take(e, n) => Prepend([e], args[..n], [], Scan(declared, args[n..]))
  }

  /** The arguments in the order parsing leaves them. */
  function Arranged(s: Scanned): seq<string> {
    s.flags + s.rest + s.positionals
  }

  // What the order is.

  /** Two sequences merged: each keeps its order. */
  predicate Interleaves(whole: seq<string>, left: seq<string>, right: seq<string>)
    decreases |whole|
  {
    if whole == [] then left == [] && right == []
    else
      || (left != [] && left[0] == whole[0] && Interleaves(whole[1..], left[1..], right))
      || (right != [] && right[0] == whole[0] && Interleaves(whole[1..], left, right[1..]))
  }

  lemma {:induction false} OneSided(left: seq<string>)
    ensures Interleaves(left, left, [])
  {
    if left != [] {
      OneSided(left[1..]);
    }
  }

  lemma {:induction false} OnLeft(whole: seq<string>, left: seq<string>, right: seq<string>, k: nat)
    requires k <= |whole| && k <= |left| && left[..k] == whole[..k] && Interleaves(whole[k..], left[k..], right)
    ensures Interleaves(whole, left, right)
  {
    if k > 0 {
      assert left[..k][0] == whole[..k][0];
      assert left[1..][..k - 1] == left[..k][1..] && whole[1..][..k - 1] == whole[..k][1..];
      assert left[1..][k - 1..] == left[k..] && whole[1..][k - 1..] == whole[k..];
      OnLeft(whole[1..], left[1..], right, k - 1);
    }
  }

  lemma AsideKeeps(args: seq<string>, flags: seq<string>, rest: seq<string>, aside: seq<string>)
    requires args != [] && Interleaves(args[1..], flags + rest, aside)
    ensures Interleaves(args, [] + flags + rest, [args[0]] + aside)
  {
    assert ([args[0]] + aside)[1..] == aside && [] + flags + rest == flags + rest;
  }

  lemma TakeKeeps(args: seq<string>, n: nat, flags: seq<string>, rest: seq<string>, aside: seq<string>)
    requires n <= |args| && Interleaves(args[n..], flags + rest, aside)
    ensures Interleaves(args, args[..n] + flags + rest, [] + aside)
  {
    var left := args[..n] + flags + rest;
    assert left[..n] == args[..n] && left[n..] == flags + rest;
    OnLeft(args, left, aside, n);
    assert [] + aside == aside;
  }

  lemma StopKeeps(args: seq<string>)
    requires args != []
    ensures Interleaves(args, args[..1] + args[1..], [])
  {
    assert args[..1] + args[1..] == args;
    OneSided(args);
  }

  /** Flags keep the order they were given in, in front of what was not looked at; so do the other arguments. */
  lemma {:induction false} ScanKeepsOrder(declared: Declared, args: seq<string>)
    ensures var s := Scan(declared, args); Interleaves(args, s.flags + s.rest, s.positionals)
    ensures forall a :: a in Scan(declared, args).positionals ==> !LooksLikeFlag(a)
    decreases |args|
  {
    if args == [] {
      assert [] + [] == args;
    } else {
      match ActionOn(declared, args)
      case PutAside =>
        ScanKeepsOrder(declared, args[1..]);
        var s := Scan(declared, args[1..]);
        AsideKeeps(args, s.flags, s.rest, s.positionals);
      case Take(_, n) =>
        ScanKeepsOrder(declared, args[n..]);
        var s := Scan(declared, args[n..]);
        TakeKeeps(args, n, s.flags, s.rest, s.positionals);
      case _ =>
        StopKeeps(args);
    }
  }

  lemma {:induction false} InterleavingIsPermutation(whole: seq<string>, left: seq<string>, right: seq<string>)
    requires Interleaves(whole, left, right)
    ensures multiset(whole) == multiset(left + right)
    decreases |whole|
  {
    if whole != [] {
      assert whole == [whole[0]] + whole[1..];
      if left != [] && left[0] == whole[0] && Interleaves(whole[1..], left[1..], right) {
        InterleavingIsPermutation(whole[1..], left[1..], right);
        assert left + right == [left[0]] + (left[1..] + right);
      } else {
        InterleavingIsPermutation(whole[1..], left, right[1..]);
        assert left + right == left + [right[0]] + right[1..];
        assert multiset(left + right) == multiset(left) + multiset{right[0]} + multiset(right[1..]);
        assert multiset(left + right[1..]) == multiset(left) + multiset(right[1..]);
      }
    }
  }

  /** Parsing rearranges argv and no more. */
  lemma {:induction false} ScanPermutes(declared: Declared, args: seq<string>)
    ensures multiset(Arranged(Scan(declared, args))) == multiset(args)
  {
    var s := Scan(declared, args);
    ScanKeepsOrder(declared, args);
    InterleavingIsPermutation(args, s.flags + s.rest, s.positionals);
  }

  // The loop over argv, between two arguments.

  function Rotated(s: seq<string>, i: nat): seq<string>
    requires i < |s|
  {
    s[..i] + s[i + 1..] + [s[i]]
  }

  lemma RotatedSlices(s: seq<string>, i: nat, first: nat)
    requires i < first <= |s|
    ensures Rotated(s, i)[..i] == s[..i] && Rotated(s, i)[i..first - 1] == s[i..first][1..]
    ensures Rotated(s, i)[first - 1..] == s[first..] + [s[i]]
  {
  }

  predicate CStrings(s: seq<string>) {
    forall k :: 0 <= k < |s| ==> NulFree(s[k])
  }

  lemma RotatedStrings(s: seq<string>, i: nat)
    requires i < |s| && CStrings(s)
    ensures CStrings(Rotated(s, i))
  {
  }

  /** Where the loop is: flags and their values are in front of i, moved arguments start at first, and the scan of
      what is between them completes the scan of everything. */
  ghost predicate Underway(declared: Declared, name: seq<string>, all: Scanned, events: seq<Event>,
                           flags: seq<string>, positionals: seq<string>, argv: seq<string>, i: nat, first: nat)
  {
    && 1 <= i <= first <= |argv| && |name| == 1
    && argv[..i] == name + flags && argv[first..] == positionals
    && all == Prepend(events, flags, positionals, Scan(declared, argv[i..first]))
  }

  ghost predicate Finished(name: seq<string>, all: Scanned, events: seq<Event>, argv: seq<string>, first: nat) {
    argv == name + Arranged(all) && |name| == 1 && first == 1 + |all.flags| && events == all.events
  }

  lemma Starts(declared: Declared, argv: seq<string>)
    requires argv != []
    ensures Underway(declared, argv[..1], Scan(declared, argv[1..]), [], [], [], argv, 1, |argv|)
  {
    var all := Scan(declared, argv[1..]);
    assert argv[1..] == argv[1..|argv|];
    assert [] + all.flags == all.flags && [] + all.positionals == all.positionals && [] + all.events == all.events;
  }

  lemma PrependTwice(a: seq<Event>, b: seq<string>, c: seq<string>, d: seq<Event>, e: seq<string>, f: seq<string>,
                     s: Scanned)
    ensures Prepend(a, b, c, Prepend(d, e, f, s)) == Prepend(a + d, b + e, c + f, s)
  {
    assert a + (d + s.events) == a + d + s.events;
    assert b + (e + s.flags) == b + e + s.flags && c + (f + s.positionals) == c + f + s.positionals;
  }

  lemma StepAside(declared: Declared, name: seq<string>, all: Scanned, events: seq<Event>, flags: seq<string>,
                  positionals: seq<string>, argv: seq<string>, i: nat, first: nat)
    requires Underway(declared, name, all, events, flags, positionals, argv, i, first) && i < first
    requires !LooksLikeFlag(argv[i])
    ensures Underway(declared, name, all, events, flags, positionals + [argv[i]], Rotated(argv, i), i, first - 1)
  {
    RotatedSlices(argv, i, first);
    PrependTwice(events, flags, positionals, [], [], [argv[i]], Scan(declared, argv[i..first][1..]));
    assert events + [] == events && flags + [] == flags;
  }

  lemma StepTake(declared: Declared, name: seq<string>, all: Scanned, events: seq<Event>, flags: seq<string>,
                 positionals: seq<string>, argv: seq<string>, i: nat, first: nat, e: Event, n: nat)
    requires Underway(declared, name, all, events, flags, positionals, argv, i, first) && i < first
    requires ActionOn(declared, argv[i..first]) == Take(e, n)
    ensures Underway(declared, name, all, events + [e], flags + argv[i..first][..n], positionals, argv, i + n, first)
  {
    var args := argv[i..first];
    TakeSlices(argv, name, flags, i, first, n);
    ScanTake(declared, args, e, n);
    PrependTwice(events, flags, positionals, [e], args[..n], [], Scan(declared, args[n..]));
    assert positionals + [] == positionals;
  }

  lemma ScanTake(declared: Declared, args: seq<string>, e: Event, n: nat)
    requires args != [] && ActionOn(declared, args) == Take(e, n)
    ensures Scan(declared, args) == Prepend([e], args[..n], [], Scan(declared, args[n..]))
  {
  }

  lemma TakeSlices(argv: seq<string>, name: seq<string>, flags: seq<string>, i: nat, first: nat, n: nat)
    requires i + n <= first <= |argv| && argv[..i] == name + flags
    ensures argv[..i + n] == name + (flags + argv[i..first][..n]) && argv[i + n..first] == argv[i..first][n..]
  {
  }

  lemma StepStop(declared: Declared, name: seq<string>, all: Scanned, events: seq<Event>, flags: seq<string>,
                 positionals: seq<string>, argv: seq<string>, i: nat, first: nat)
    requires Underway(declared, name, all, events, flags, positionals, argv, i, first) && i < first
    ensures
      match ActionOn(declared, argv[i..first])
      case EndOfOptions => Finished(name, all, events, argv, i + 1)
      case Stop(e) => Finished(name, all, events + [e], argv, i + 1)
      case _ => true
  {
    Arrangement(argv, name, flags, i, first, 1);
    assert positionals + [] == positionals && events + [] == events;
  }

  lemma Ends(declared: Declared, name: seq<string>, all: Scanned, events: seq<Event>, flags: seq<string>,
             positionals: seq<string>, argv: seq<string>, i: nat)
    requires Underway(declared, name, all, events, flags, positionals, argv, i, i)
    ensures Finished(name, all, events, argv, i)
  {
    Arrangement(argv, name, flags, i, i, 0);
    assert flags + [] == flags && positionals + [] == positionals && events + [] == events;
  }

  lemma Arrangement(argv: seq<string>, name: seq<string>, flags: seq<string>, i: nat, first: nat, k: nat)
    requires i + k <= first <= |argv| && argv[..i] == name + flags
    ensures argv == name + ((flags + argv[i..first][..k]) + argv[i..first][k..] + argv[first..])
  {
  }

  /** Without its flags, the command line starts at the last of them, with the program name put there. */
  lemma Outcome(name: seq<string>, all: Scanned, events: seq<Event>, argv: seq<string>, first: nat)
    requires Finished(name, all, events, argv, first)
    ensures first <= |argv| && argv == name + all.flags + all.rest + all.positionals
    ensures argv[first - 1 := argv[0]][first - 1..] == name + [] + all.rest + all.positionals
  {
    assert argv == name + (all.flags + all.rest + all.positionals);
    assert argv[first..] == all.rest + all.positionals;
    assert argv[first - 1 := argv[0]][first - 1..] == [argv[0]] + argv[first..];
  }

  // Parsing the rearranged argv once more.

  /** How a flag reacts when f was behind it the first time and g is the second time. */
  ghost predicate Corresponds(r: Reaction, f: Option<string>, again: Reaction, g: Option<string>) {
    match r
    case Taken(_, withFollowing) => (withFollowing ==> f.Some?) && (!withFollowing || f == g ==> again == r)
    case Missing(e) =>
      && f.None? && e.Problem?
      && if g.None? then again == r else again.Taken? && again.withFollowing && TakesText(again.event, g.value)
  }

  predicate TakesText(e: Event, text: string) {
    e.Assign? && e.text == text
  }

  lemma LooksAhead(declared: Declared, name: string, f: Option<string>, g: Option<string>)
    ensures Corresponds(React(declared, name, f), f, React(declared, name, g), g)
  {
  }

  lemma ActionStays(declared: Declared, args: seq<string>, brgs: seq<string>)
    requires args != [] && brgs != [] && args[0] == brgs[0]
    requires var a := ActionOn(declared, args); a.Take? ==> a.n <= |brgs| && args[..a.n] == brgs[..a.n]
    ensures
      var a, b := ActionOn(declared, args), ActionOn(declared, brgs);
      if !a.Stop? then b == a
      else
        && |args| == 1 && a.event.Problem?
        && if |brgs| == 1 then b == a else b.Take? && b.n == 2 && TakesText(b.event, brgs[1])
  {
    if LooksLikeFlag(args[0]) && WithoutDashes(args[0]) != "" {
      var name := WithoutDashes(args[0]);
      var r, again := React(declared, name, Following(args)), React(declared, name, Following(brgs));
      LooksAhead(declared, name, Following(args), Following(brgs));
      if r.Taken? && r.withFollowing {
        assert args[..2][1] == brgs[..2][1];
      }
    }
  }

  lemma {:induction false} AllPutAside(declared: Declared, args: seq<string>)
    requires forall a :: a in args ==> !LooksLikeFlag(a)
    ensures Scan(declared, args) == Scanned([], [], [], args, false)
    decreases |args|
  {
    if args != [] {
      AllPutAside(declared, args[1..]);
    }
  }

  /** The second scan goes on where the first one stopped: the last flag, which missed its value, has got one. */
  ghost predicate Resumed(s: Scanned, t: Scanned, text: string) {
    && s.events != [] && |t.events| >= |s.events| && |t.flags| > |s.flags|
    && var last := |s.events| - 1;
       t.events[..last] == s.events[..last] && s.events[last].Problem? && TakesText(t.events[last], text)
  }

  lemma ResumedLater(s: Scanned, t: Scanned, text: string, e: Event, head: seq<string>)
    requires Resumed(s, t, text)
    ensures Resumed(Prepend([e], head, [], s), Prepend([e], head, [], t), text)
  {
    var last := |s.events| - 1;
    assert ([e] + t.events)[..last + 1] == [e] + t.events[..last];
    assert ([e] + s.events)[..last + 1] == [e] + s.events[..last];
  }

  /** What a second scan of s makes of it, with some arguments behind it that are not flags. */
  ghost predicate Stable(s: Scanned, t: Scanned, behind: seq<string>) {
    if s.missing && behind != [] then Resumed(s, t, behind[0])
    else t.events == s.events && t.flags == s.flags && t.rest + t.positionals == s.rest + behind
  }

  lemma {:induction false} SecondScan(declared: Declared, args: seq<string>, behind: seq<string>)
    requires forall a :: a in behind ==> !LooksLikeFlag(a)
    ensures var s := Scan(declared, args); Stable(s, Scan(declared, s.flags + s.rest + behind), behind)
    decreases |args|, 1
  {
    if args == [] {
      assert [] + [] + behind == behind;
      AllPutAside(declared, behind);
    } else {
      match ActionOn(declared, args)
      case PutAside =>
        SecondScan(declared, args[1..], behind);
        var s := Scan(declared, args[1..]);
        assert [] + s.flags + s.rest == s.flags + s.rest && [] + s.events == s.events;
      case Take(_, _) => SecondTake(declared, args, behind);
      case _ => SecondStop(declared, args, behind);
    }
  }

  lemma SecondMissing(declared: Declared, args: seq<string>, behind: seq<string>)
    requires args != [] && ActionOn(declared, args).Stop? && behind != []
    ensures Resumed(Scan(declared, args), Scan(declared, args + behind), behind[0])
  {
    var again := args + behind;
    ActionStays(declared, args, again);
    assert again[0] == args[0] && again[1] == behind[0];
    var t := Scan(declared, again[2..]);
    assert Scan(declared, again) == Prepend([ActionOn(declared, again).event], again[..2], [], t);
  }

  lemma SecondEnd(declared: Declared, args: seq<string>, behind: seq<string>)
    requires args != [] && ActionOn(declared, args).EndOfOptions?
    ensures Stable(Scan(declared, args), Scan(declared, args + behind), behind)
  {
    var again := args + behind;
    assert again[0] == args[0];
    assert again[1..] == args[1..] + behind && again[..1] == args[..1];
  }

  lemma SecondStop(declared: Declared, args: seq<string>, behind: seq<string>)
    requires args != [] && (ActionOn(declared, args).EndOfOptions? || ActionOn(declared, args).Stop?)
    ensures var s := Scan(declared, args); Stable(s, Scan(declared, s.flags + s.rest + behind), behind)
  {
    assert args[..1] + args[1..] == args;
    if ActionOn(declared, args).EndOfOptions? {
      SecondEnd(declared, args, behind);
    } else if behind != [] {
      SecondMissing(declared, args, behind);
    } else {
      assert args + behind == args;
    }
  }

  lemma {:induction false} SecondTake(declared: Declared, args: seq<string>, behind: seq<string>)
    requires (forall a :: a in behind ==> !LooksLikeFlag(a))
    requires args != [] && ActionOn(declared, args).Take?
    ensures var s := Scan(declared, args); Stable(s, Scan(declared, s.flags + s.rest + behind), behind)
    decreases |args|, 0
  {
    var n := ActionOn(declared, args).n;
    var t := Scan(declared, args[n..]);
    var again := args[..n] + (t.flags + t.rest + behind);
    HeadAndTail(args[..n], t.flags, t.rest, behind);
    assert again[0] == args[..n][0] == args[0];
    ActionStays(declared, args, again);
    SecondScan(declared, args[n..], behind);
    var u := Scan(declared, again[n..]);
    if t.missing && behind != [] {
      ResumedLater(t, u, behind[0], ActionOn(declared, args).event, args[..n]);
    }
    assert [] + u.positionals == u.positionals;
  }

  lemma HeadAndTail(head: seq<string>, a: seq<string>, b: seq<string>, c: seq<string>)
    ensures head + a + b + c == head + (a + b + c)
    ensures (head + (a + b + c))[..|head|] == head && (head + (a + b + c))[|head|..] == a + b + c
  {
  }

  /**
   * Parsing once more finds the same events and moves nothing, unless the first parse ended at a flag without its
   * value while other arguments were there. Then the second parse finds the same events up to the problem with that
   * flag, and takes the first of the other arguments for its value.
   */
  lemma {:induction false} ParsingTwice(declared: Declared, args: seq<string>)
    ensures
      var s := Scan(declared, args);
      var t := Scan(declared, Arranged(s));
      && (t.events == s.events && Arranged(t) == Arranged(s) <==> !(s.missing && s.positionals != []))
      && (s.missing && s.positionals != [] ==> Resumed(s, t, s.positionals[0]))
  {
    var s := Scan(declared, args);
    ScanKeepsOrder(declared, args);
    SecondScan(declared, args, s.positionals);
    SameArrangement(s, Scan(declared, Arranged(s)));
  }

  lemma SameArrangement(s: Scanned, t: Scanned)
    requires Stable(s, t, s.positionals)
    ensures t.events == s.events && Arranged(t) == Arranged(s) <==> !(s.missing && s.positionals != [])
  {
    assert Arranged(t) == t.flags + (t.rest + t.positionals);
    assert Arranged(s) == s.flags + (s.rest + s.positionals);
  }

  /** Such a command line: a flag that misses its value, behind an argument that a second parsing takes for it. */
  lemma ParsedOtherwise(declared: Declared)
    requires "x" in declared && declared["x"] == String
    ensures
      var s := Scan(declared, ["p", "-x"]);
      var t := Scan(declared, Arranged(s));
      && s.missing && Arranged(s) == ["-x", "p"]
      && s.events == [Problem("x", MissingArgument, false)] && t.events == [Assign("x", "p")]
  {
    FirstIs("x", "=", 1);
    assert Before("x", '=') == "x" && WithoutDashes("-x") == "x";
    var args, behind := ["p", "-x"], ["-x"];
    assert args[1..] == behind && behind[..1] == behind && behind[1..] == [];
    assert Scan(declared, behind).missing;
    assert Arranged(Scan(declared, args)) == ["-x", "p"];
    assert ["-x", "p"][2..] == [];
  }
}
