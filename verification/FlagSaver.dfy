/** Saving the state of all flags and putting it back. */
module FlagSaver {
  import opened Wrappers
  import opened FlagValues
  import opened Flags

  function Names(backup: seq<Flag>): set<string> {
    if backup == [] then {} else Names(backup[..|backup| - 1]) + {backup[|backup| - 1].name}
  }

  lemma OneMoreName(backup: seq<Flag>, flag: Flag)
    ensures Names(backup + [flag]) == Names(backup) + {flag.name}
  {
    assert (backup + [flag])[..|backup|] == backup;
  }

  /** Each backup is a flag as it was saved. */
  ghost predicate Copies(backup: seq<Flag>, saved: Registered) {
    forall i :: 0 <= i < |backup| ==> backup[i].name in saved && backup[i] == saved[backup[i].name]
  }

  /** Each backup is a saved flag, and those of the given names are among them. */
  ghost predicate Holds(backup: seq<Flag>, saved: Registered, names: set<string>) {
    Copies(backup, saved) && Names(backup) == names
  }

  lemma HoldsOneMore(backup: seq<Flag>, saved: Registered, names: set<string>, n: string)
    requires Holds(backup, saved, names) && n in saved && saved[n].name == n
    ensures Holds(backup + [saved[n]], saved, names + {n})
  {
    OneMoreName(backup, saved[n]);
  }

  /** The flags with those of some names put back to what was saved. */
  ghost predicate Restored(now: Registered, was: Registered, saved: Registered, names: set<string>) {
    && now.Keys == was.Keys == saved.Keys
    && forall n :: n in saved ==> now[n] == if n in names then saved[n] else was[n]
  }

  lemma RestoredStep(now: Registered, was: Registered, saved: Registered, names: set<string>, n: string)
    requires Restored(now, was, saved, names) && n in saved
    requires forall m :: m in saved ==> SameVariable(saved[m], was[m])
    ensures SameVariable(saved[n], now[n]) && Restored(now[n := saved[n]], was, saved, names + {n})
  {
  }

  /** Putting back one more backup. */
  lemma RestoredNext(now: Registered, was: Registered, saved: Registered, backup: seq<Flag>, i: nat)
    requires i < |backup| && ByName(saved) && Copies(backup, saved)
    requires Restored(now, was, saved, Names(backup[..i]))
    requires forall m :: m in saved ==> SameVariable(saved[m], was[m])
    ensures var b := backup[i]; b.name in now && SameVariable(b, now[b.name]) && WellTyped(b)
    ensures Restored(now[backup[i].name := backup[i]], was, saved, Names(backup[..i + 1]))
  {
    assert backup[..i] + [backup[i]] == backup[..i + 1];
    OneMoreName(backup[..i], backup[i]);
    RestoredStep(now, was, saved, Names(backup[..i]), backup[i].name);
  }

  lemma AllRestored(now: Registered, was: Registered, saved: Registered, backup: seq<Flag>)
    requires Restored(now, was, saved, Names(backup[..|backup|])) && Names(backup) == saved.Keys
    ensures now == saved
  {
    assert backup[..|backup|] == backup;
  }

  class FlagSaverImpl {
    const registry: FlagRegistry
    // The saver's own copies, which nothing else refers to.
    var backup: seq<Flag>

    /** The backup holds exactly these flags. */
    ghost predicate Saved(saved: Registered)
      reads this
    {
      ByName(saved) && Holds(backup, saved, saved.Keys)
    }

    constructor (registry: FlagRegistry)
      ensures this.registry == registry && backup == []
    {
      this.registry, backup := registry, [];
    }

    /** One more backup behind the copies made so far. */
    method WithCopyOf(copies: seq<Flag>, name: string, ghost done: set<string>) returns (more: seq<Flag>)
      requires registry.Valid() && name in registry.flags && Holds(copies, registry.contents, done)
      ensures Holds(more, registry.contents, done + {name})
    {
      assert registry.Entry(name);
      var copy := registry.flags[name].Copy();
      more := copies + [copy];
      HoldsOneMore(copies, registry.contents, done, name);
    }

    method SaveFromRegistry()
      requires registry.Valid() && backup == []
      modifies `backup
      ensures Saved(registry.contents)
    {
      var copies: seq<Flag> := [];
      var names := registry.flags.Keys;
      ghost var done: set<string> := {};
      while names != {}
        invariant done + names == registry.flags.Keys
        invariant Holds(copies, registry.contents, done)
        decreases |names|
      {
        var n :| n in names;
        assert n in registry.flags.Keys;
        copies := WithCopyOf(copies, n, done);
        done := done + {n};
        names := names - {n};
      }
      registry.ValidContents();
      backup := copies;
    }

    /** Puts the saved state back, validators included, into a registry that still has the same flags. */
    method RestoreToRegistry(ghost saved: Registered)
      requires registry.Valid() && Saved(saved) && saved.Keys == registry.contents.Keys
      requires forall n :: n in saved ==> SameVariable(saved[n], registry.contents[n])
      modifies registry`contents, registry.flags.Values
      ensures registry.Valid() && registry.contents == saved
    {
      ghost var was := registry.contents;
      var i := 0;
      while i < |backup|
        modifies registry`contents, registry.flags.Values
        invariant i <= |backup| && registry.Valid()
        invariant Restored(registry.contents, was, saved, Names(backup[..i]))
      {
        RestoredNext(registry.contents, was, saved, backup, i);
        RestoreByName(backup[i]);
        i := i + 1;
      }
      AllRestored(registry.contents, was, saved, backup);
    }

    method RestoreByName(copy: Flag)
      requires registry.Valid() && copy.name in registry.contents && WellTyped(copy)
      requires SameVariable(copy, registry.contents[copy.name])
      modifies registry`contents, registry.flags.Values
      ensures registry.Valid() && registry.contents == old(registry.contents)[copy.name := copy]
    {
      var main := registry.FindFlagLocked(copy.name);
      if main != null {
        RestoreOne(main, copy);
      }
    }

    method RestoreOne(main: CommandLineFlag, copy: Flag)
      requires registry.Valid() && main.name in registry.flags && registry.flags[main.name] == main
      requires SameVariable(copy, registry.contents[main.name]) && WellTyped(copy)
      modifies registry`contents, main
      ensures registry.Valid() && registry.contents == old(registry.contents)[main.name := copy]
    {
      assert registry.Entry(main.name);
      main.CopyFrom(copy);
      registry.contents := registry.contents[main.name := copy];
      forall n | n in registry.flags
        ensures registry.Entry(n)
      {
        assert old(registry.Entry(n));
      }
    }
  }
}
