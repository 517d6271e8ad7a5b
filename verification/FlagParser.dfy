/** Parsing argv in place: flags are set and everything that is not one is moved to the end. */
module FlagParser {
  import opened Wrappers
  import opened Memory
  import opened Strings
  import opened FlagValues
  import opened Flags
  import opened ArgvOrder

  /** What parsing changes: the registered flags, the problems met so far, and whether a flag was met that makes the
      parser read further flags from a file or the environment, which are not followed here. */
  datatype Parser = Parser(flags: Registered, errors: map<string, FlagError>, undefined: set<string>, strayed: bool)

  /** The flags that name files or environment variables with further flags, unless they are empty. */
  predicate LeadsElsewhere(f: Flag) {
    f.name in {"flagfile", "fromenv", "tryfromenv"} && f.current != StringValue("")
  }

  /** One option: its flag is set, or the failure is noted under its name. */
  function Process(p: Parser, name: string, text: string, mode: Mode): Parser
    requires name in p.flags
  {
    var (flags, ok) := SetIn(p.flags, name, text, mode);
    Parser(flags, if ok then p.errors else p.errors[name := BadValue], p.undefined,
           p.strayed || (ok && LeadsElsewhere(flags[name])))
  }

  function Apply(p: Parser, e: Event): Parser {
    match e
    case Assign(name, text) => if name in p.flags then Process(p, name, text, SetValue) else p
    case Problem(key, error, undefined) =>
      p.(undefined := if undefined then p.undefined + {key} else p.undefined, errors := p.errors[key := error])
  }

  /** What parsing comes to, one event after the other. */
  function ApplyAll(p: Parser, events: seq<Event>): Parser
    decreases |events|
  {
    if events == [] then p else Apply(ApplyAll(p, events[..|events| - 1]), events[|events| - 1])
  }

  lemma SetKeepsDeclaration(f: Flag, text: string, mode: Mode)
    requires WellTyped(f)
    ensures WellTyped(Set(f, text, mode).0) && SameDeclaration(f, Set(f, text, mode).0)
  {
    TypeOfParsed(Kind(f), text);
  }

  lemma TypeOfParsed(kind: FlagType, text: string)
    ensures ParseFrom(kind, text).Some? ==> TypeOf(ParseFrom(kind, text).value) == kind
  {
  }

  ghost predicate SameDeclarations(f: Registered, g: Registered) {
    && f.Keys == g.Keys && ByName(f) && ByName(g)
    && forall n :: n in f ==> SameDeclaration(f[n], g[n])
  }

  lemma ProcessKeepsDeclarations(p: Parser, name: string, text: string, mode: Mode)
    requires ByName(p.flags) && name in p.flags
    ensures SameDeclarations(p.flags, Process(p, name, text, mode).flags)
  {
    SetKeepsDeclaration(p.flags[name], text, mode);
  }

  lemma ValueIsNulFree(declared: Declared, arg: string)
    requires NulFree(arg) && SplitArgument(declared, arg).value.Some?
    ensures NulFree(SplitArgument(declared, arg).value.value)
  {
    CutInside(arg, '=', '\0');
    var v := After(arg, '=');
    if v.Some? {
      assert forall ch :: ch in v.value ==> ch in Marked('=', v);
    }
  }

  /** The element at i goes last and everything behind it moves down by one. */
  method MoveToEnd(argv: array<string>, i: nat)
    requires i < argv.Length
    modifies argv
    ensures argv[..] == Rotated(old(argv[..]), i)
  {
    var arg := argv[i];
    Memmove(argv, i, i + 1, argv.Length - (i + 1));
    argv[argv.Length - 1] := arg;
  }

  /** What the loop over argv has collected. */
  datatype Place = Place(
    name: seq<string>,
    all: Scanned,
    events: seq<Event>,
    flags: seq<string>,
    positionals: seq<string>)

  class CommandLineFlagParser {
    const registry: FlagRegistry
    var errorFlags: map<string, FlagError>
    var undefinedNames: set<string>
    ghost var strayed: bool

    ghost predicate Valid()
      reads this, registry, registry.flags.Values
    {
      registry.Valid()
    }

    ghost function State(): Parser
      reads this, registry
    {
      Parser(registry.contents, errorFlags, undefinedNames, strayed)
    }

    constructor (registry: FlagRegistry)
      requires registry.Valid()
      ensures this.registry == registry && Valid() && State() == Parser(registry.contents, map[], {}, false)
    {
      this.registry := registry;
      errorFlags, undefinedNames, strayed := map[], {}, false;
    }

    method ProcessSingleOptionLocked(flag: CommandLineFlag, text: string, mode: Mode)
      requires Valid() && NulFree(text) && flag.name in registry.flags && flag == registry.flags[flag.name]
      modifies `errorFlags, `strayed, registry`contents, flag
      ensures Valid() && State() == Process(old(State()), flag.name, text, mode)
    {
      var ok := registry.SetFlagLocked(flag, text, mode);
      if !ok {
        errorFlags := errorFlags[flag.name := BadValue];
        return;
      }
      assert registry.Entry(flag.name);
      strayed := strayed || LeadsElsewhere(flag.State());
    }

    method AssignFlag(flag: CommandLineFlag, text: string)
      requires Valid() && NulFree(text) && flag.name in registry.flags && flag == registry.flags[flag.name]
      modifies `errorFlags, `strayed, registry`contents, flag
      ensures Valid() && State() == Apply(old(State()), Assign(flag.name, text))
    {
      ProcessSingleOptionLocked(flag, text, SetValue);
    }

    method NoteProblem(key: string, error: FlagError, undefined: bool)
      requires Valid()
      modifies `errorFlags, `undefinedNames
      ensures Valid() && State() == Apply(old(State()), Problem(key, error, undefined))
    {
      if undefined {
        undefinedNames := undefinedNames + {key};
      }
      errorFlags := errorFlags[key := error];
    }

    method ParseFlag(arg: string, following: Option<string>) returns (ghost event: Event, taken: nat)
      requires Valid() && NulFree(arg) && (following.Some? ==> NulFree(following.value))
      modifies `errorFlags, `undefinedNames, `strayed, registry`contents, registry.flags.Values
      ensures Valid() && registry.flags == old(registry.flags) && State() == Apply(old(State()), event)
      ensures taken <= 2 && (taken == 0 ==> following.None?) && (taken == 2 ==> following.Some?)
      ensures
        React(registry.declared, arg, following) == if taken == 0 then Missing(event) else Taken(event, taken == 2)
    {
      CutAndJoin(arg, '=');
      var flag, key, value, error := registry.SplitArgumentLocked(arg);
      ghost var split := SplitArgument(registry.declared, arg);
      if value.Some? && flag != null {
        ValueIsNulFree(registry.declared, arg);
      }
      event, taken := ParseSplit(flag, key, value, error, following, split);
    }

    method ParseSplit(flag: CommandLineFlag?, key: string, value: Option<string>, error: Option<FlagError>,
                      following: Option<string>, ghost split: Split) returns (ghost event: Event, taken: nat)
      requires Valid() && key == split.key && value == split.value && error == split.error
      requires flag == null <==> split.name.None?
      requires flag != null ==> split.name == Some(flag.name) && flag.name in registry.flags
      requires flag != null ==> flag == registry.flags[flag.name]
      requires (flag != null && value.Some? ==> NulFree(value.value)) && (following.Some? ==> NulFree(following.value))
      modifies `errorFlags, `undefinedNames, `strayed, registry`contents, registry.flags.Values
      ensures Valid() && registry.flags == old(registry.flags) && State() == Apply(old(State()), event)
      ensures taken <= 2 && (taken == 0 ==> following.None?) && (taken == 2 ==> following.Some?)
      ensures ReactTo(split, following) == if taken == 0 then Missing(event) else Taken(event, taken == 2)
    {
      if flag == null {
        event := Problem(key, error.GetOr(UnknownFlag), true);
        NoteProblem(key, error.GetOr(UnknownFlag), true);
        taken := 1;
      } else if value.Some? {
        event := Assign(flag.name, value.value);
        AssignFlag(flag, value.value);
        taken := 1;
      } else if following.None? {
        event := Problem(key, MissingArgument, false);
        NoteProblem(key, MissingArgument, false);
        taken := 0;
      } else {
        event := Assign(flag.name, following.value);
        AssignFlag(flag, following.value);
        taken := 2;
      }
    }

    /** The flag at i, which may take the argument behind it unless that was moved there. */
    method ParseFlagAt(argv: array<string>, i: nat, firstNonopt: nat) returns (ghost event: Event, taken: nat)
      requires Valid() && i < firstNonopt <= argv.Length && LooksLikeFlag(argv[i]) && WithoutDashes(argv[i]) != ""
      requires CStrings(argv[..])
      modifies `errorFlags, `undefinedNames, `strayed, registry`contents, registry.flags.Values
      ensures Valid() && registry.flags == old(registry.flags)
      ensures taken == 0 ==> i + 1 == firstNonopt
      ensures
        ActionOn(registry.declared, argv[..][i..firstNonopt]) ==
        if taken == 0 then Stop(event) else Take(event, taken)
      ensures State() == Apply(old(State()), event)
    {
      assert NulFree(argv[..][i]) && (i + 1 < argv.Length ==> NulFree(argv[..][i + 1]));
      event, taken := ParseFlag(WithoutDashes(argv[i]), if i + 1 < firstNonopt then Some(argv[i + 1]) else None);
    }

    /** The loop has come to i: what it did so far is the start of the whole scan and of its effect. */
    ghost predicate Going(argv: array<string>, i: nat, first: nat, at: Place, start: Parser)
      reads this, registry, registry.flags.Values, argv
    {
      && Valid() && CStrings(argv[..]) && State() == ApplyAll(start, at.events)
      && Underway(registry.declared, at.name, at.all, at.events, at.flags, at.positionals, argv[..], i, first)
    }

    ghost predicate Done(argv: array<string>, first: nat, at: Place, start: Parser)
      reads this, registry, registry.flags.Values, argv
    {
      && Valid() && State() == ApplyAll(start, at.events)
      && Finished(at.name, at.all, at.events, argv[..], first)
    }

    lemma GoingStarts(argv: array<string>) returns (at: Place)
      requires Valid() && argv.Length > 0 && CStrings(argv[..])
      ensures Going(argv, 1, argv.Length, at, State())
      ensures at.name == argv[..][..1] && at.all == Scan(registry.declared, argv[..][1..])
    {
      at := Place(argv[..][..1], Scan(registry.declared, argv[..][1..]), [], [], []);
      Starts(registry.declared, argv[..]);
    }

    lemma GoingEnds(argv: array<string>, i: nat, at: Place, start: Parser)
      requires Going(argv, i, i, at, start)
      ensures Done(argv, i, at, start)
    {
      Ends(registry.declared, at.name, at.all, at.events, at.flags, at.positionals, argv[..], i);
    }

    lemma GoingStops(argv: array<string>, i: nat, first: nat, at: Place, start: Parser)
      requires Going(argv, i, first, at, start) && i < first
      requires LooksLikeFlag(argv[i]) && WithoutDashes(argv[i]) == ""
      ensures Done(argv, i + 1, at, start)
    {
      StepStop(registry.declared, at.name, at.all, at.events, at.flags, at.positionals, argv[..], i, first);
    }

    method StepPositional(argv: array<string>, i: nat, first: nat, ghost at: Place, ghost start: Parser)
        returns (ghost place: Place)
      requires Going(argv, i, first, at, start) && i < first && !LooksLikeFlag(argv[i])
      modifies argv
      ensures Going(argv, i, first - 1, place, start) && place.name == at.name && place.all == at.all
    {
      StepAside(registry.declared, at.name, at.all, at.events, at.flags, at.positionals, argv[..], i, first);
      RotatedStrings(argv[..], i);
      place := at.(positionals := at.positionals + [argv[i]]);
      MoveToEnd(argv, i);
    }

    method StepFlag(argv: array<string>, i: nat, first: nat, ghost at: Place, ghost start: Parser)
        returns (taken: nat, ghost place: Place)
      requires Going(argv, i, first, at, start)
      requires i < first && LooksLikeFlag(argv[i]) && WithoutDashes(argv[i]) != ""
      modifies `errorFlags, `undefinedNames, `strayed, registry`contents, registry.flags.Values
      ensures registry.flags == old(registry.flags) && place.name == at.name && place.all == at.all
      ensures taken == 0 ==> Done(argv, first, place, start)
      ensures taken > 0 ==> i + taken <= first && Going(argv, i + taken, first, place, start)
    {
      ghost var declared := registry.declared;
      ghost var event;
      event, taken := ParseFlagAt(argv, i, first);
      place := at.(events := at.events + [event]);
      assert place.events[..|at.events|] == at.events;
      if taken == 0 {
        StepStop(declared, at.name, at.all, at.events, at.flags, at.positionals, argv[..], i, first);
      } else {
        StepTake(declared, at.name, at.all, at.events, at.flags, at.positionals, argv[..], i, first, event, taken);
        place := place.(flags := at.flags + argv[..][i..first][..taken]);
      }
    }

    /** One argument: it goes to the end, is passed with what it takes, or stops the loop. */
    method StepArgument(argv: array<string>, i: nat, first: nat, ghost at: Place, ghost start: Parser)
        returns (next: nat, firstNonopt: nat, stop: bool, ghost place: Place)
      requires Going(argv, i, first, at, start) && i < first
      modifies `errorFlags, `undefinedNames, `strayed, registry`contents, registry.flags.Values, argv
      ensures registry.flags == old(registry.flags) && place.name == at.name && place.all == at.all
      ensures stop ==> Done(argv, firstNonopt, place, start)
      ensures !stop ==>
        Going(argv, next, firstNonopt, place, start) && next <= firstNonopt && firstNonopt - next < first - i
    {
      next, firstNonopt, stop, place := i, first, false, at;
      var arg := argv[i];
      if arg == "" || arg[0] != '-' || arg == "-" {
        place := StepPositional(argv, i, first, at, start);
        firstNonopt := first - 1;
      } else if WithoutDashes(arg) == "" {
        GoingStops(argv, i, first, at, start);
        firstNonopt, stop := i + 1, true;
      } else {
        var taken;
        taken, place := StepFlag(argv, i, first, at, start);
        next, stop := i + taken, taken == 0;
      }
    }

    /** The arguments from the result on are those moved to the end, and those not looked at in front of them. */
    method PermuteAndSet(argv: array<string>) returns (firstNonopt: nat, ghost at: Place)
      requires Valid() && argv.Length > 0 && CStrings(argv[..])
      modifies `errorFlags, `undefinedNames, `strayed, registry`contents, registry.flags.Values, argv
      ensures registry.flags == old(registry.flags) && Done(argv, firstNonopt, at, old(State()))
      ensures at.name == old(argv[..][..1]) && at.all == Scan(registry.declared, old(argv[..][1..]))
    {
      ghost var start := State();
      at := GoingStarts(argv);
      ghost var name, all := at.name, at.all;
      var i: nat := 1;
      firstNonopt := argv.Length;
      while i < firstNonopt
        modifies `errorFlags, `undefinedNames, `strayed, registry`contents, registry.flags.Values, argv
        invariant registry.flags == old(registry.flags) && i <= firstNonopt
        invariant Going(argv, i, firstNonopt, at, start) && at.name == name && at.all == all
        decreases firstNonopt - i
      {
        var stop;
        i, firstNonopt, stop, at := StepArgument(argv, i, firstNonopt, at, start);
        if stop {
          return;
        }
      }
      GoingEnds(argv, i, at, start);
    }

    /** The whole call; without the flags, argv starts over at the returned offset. */
    method ParseNewCommandLineFlags(argv: array<string>, removeFlags: bool) returns (firstNonopt: nat, offset: nat)
      requires Valid() && argv.Length > 0 && CStrings(argv[..])
      modifies `errorFlags, `undefinedNames, `strayed, registry`contents, registry.flags.Values, argv
      ensures Valid() && registry.flags == old(registry.flags)
      ensures
        var s := Scan(registry.declared, old(argv[..][1..]));
        && State() == ApplyAll(old(State()), s.events)
        && offset == (if removeFlags then |s.flags| else 0) < argv.Length
        && argv[..][offset..] == old(argv[..][..1]) + (if removeFlags then [] else s.flags) + s.rest + s.positionals
        && firstNonopt == 1 + if removeFlags then 0 else |s.flags|
    {
      ghost var at;
      firstNonopt, at := PermuteAndSet(argv);
      Outcome(at.name, at.all, at.events, argv[..], firstNonopt);
      offset := 0;
      if removeFlags {
        ghost var was := argv[..];
        argv[firstNonopt - 1] := argv[0];
        assert argv[..] == was[firstNonopt - 1 := was[0]];
        offset := firstNonopt - 1;
        firstNonopt := 1;
      }
    }
  }
}
