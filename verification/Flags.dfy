/** Command line flags and the registry that sets, saves and restores them. */
module Flags {
  import opened Wrappers
  import opened Strings
  import opened FlagValues

  /** A validator, as the values it accepts for its flag. */
  type Validator = iset<Value>

  /** Everything about a flag, as a value. */
  datatype Flag = Flag(
    name: string,
    help: string,
    file: string,
    modified: bool,
    defvalue: Value,
    current: Value,
    validator: Option<Validator>)

  datatype Mode = SetValue | SetIfDefault | SetDefault

  function Passes(f: Flag, v: Value): bool {
    f.validator.None? || v in f.validator.value
  }

  function Kind(f: Flag): FlagType {
    TypeOf(f.defvalue)
  }

  /** A flag whose variable was written to directly counts as modified. */
  function Updated(f: Flag): Flag {
    f.(modified := f.modified || f.current != f.defvalue)
  }

  function TryParse(f: Flag, text: string): Option<Value> {
    var v := ParseFrom(Kind(f), text);
    if v.Some? && Passes(f, v.value) then v else None
  }

  /** The flag after a text was set in one of the three modes, and whether that went well. */
  function Set(flag: Flag, text: string, mode: Mode): (Flag, bool) {
    var f, v := Updated(flag), TryParse(flag, text);
    match mode
    case SetValue => if v.None? then (f, false) else (f.(current := v.value, modified := true), true)
    case SetIfDefault =>
      if f.modified then (f, true)
      else if v.None? then (f, false)
      else (f.(current := v.value, modified := true), true)
    case SetDefault =>
      if v.None? then (f, false)
      else if f.modified then (f.(defvalue := v.value), true)
      else (f.(defvalue := v.value, current := v.value), true)
  }

  /** Both values have the flag's type. */
  predicate WellTyped(f: Flag) {
    TypeOf(f.current) == Kind(f)
  }

  /** A flag not marked as modified has its default value. */
  predicate Consistent(f: Flag) {
    !f.modified ==> f.current == f.defvalue
  }

  /** The parts of a flag that are fixed when it is registered. */
  predicate SameVariable(f: Flag, g: Flag) {
    f.name == g.name && f.help == g.help && f.file == g.file && Kind(f) == Kind(g)
  }

  ghost predicate SameDeclaration(f: Flag, g: Flag) {
    SameVariable(f, g) && f.validator == g.validator
  }

  predicate Acceptable(f: Flag, v: Value) {
    TypeOf(v) == Kind(f) && Fits(v) && Passes(f, v)
  }

  /** What any number of sets can make of a flag: its values are the ones it had or ones its validator accepts. */
  ghost predicate Reachable(f: Flag, g: Flag) {
    && SameDeclaration(f, g)
    && (g.current == f.current || Acceptable(f, g.current))
    && (g.defvalue == f.defvalue || Acceptable(f, g.defvalue))
    && (f.modified ==> g.modified)
  }

  // Runs of sets on one flag.

  datatype Setting = Setting(text: string, mode: Mode)

  function SetAll(f: Flag, settings: seq<Setting>): Flag
    decreases |settings|
  {
    if settings == [] then f
    else
      var last := settings[|settings| - 1];
      Set(SetAll(f, settings[..|settings| - 1]), last.text, last.mode).0
  }

  lemma SetReaches(f: Flag, text: string, mode: Mode)
    requires NulFree(text) && WellTyped(f)
    ensures var g := Set(f, text, mode).0; Reachable(f, g) && WellTyped(g) && Consistent(g)
    ensures !Set(f, text, mode).1 ==> Set(f, text, mode).0 == Updated(f)
    ensures mode != SetDefault ==> Set(f, text, mode).0.defvalue == f.defvalue
    ensures mode != SetValue && Updated(f).modified ==> Set(f, text, mode).0.current == f.current
  {
    if ParseFrom(Kind(f), text).Some? {
      ParsedFits(Kind(f), text);
    }
  }

  /** Over any run of sets. */
  lemma {:induction false} RunReaches(f: Flag, settings: seq<Setting>)
    requires WellTyped(f) && forall i :: 0 <= i < |settings| ==> NulFree(settings[i].text)
    ensures Reachable(f, SetAll(f, settings)) && WellTyped(SetAll(f, settings))
    ensures settings != [] || Consistent(f) ==> Consistent(SetAll(f, settings))
    decreases |settings|
  {
    if settings != [] {
      var n := |settings| - 1;
      RunReaches(f, settings[..n]);
      SetReaches(SetAll(f, settings[..n]), settings[n].text, settings[n].mode);
      assert SetAll(f, settings) == Set(SetAll(f, settings[..n]), settings[n].text, settings[n].mode).0;
    }
  }

  /** A flag that was modified keeps its value through any run in the two default modes. */
  lemma {:induction false} ModifiedIsSpared(f: Flag, settings: seq<Setting>)
    requires Updated(f).modified && WellTyped(f)
    requires forall i :: 0 <= i < |settings| ==> NulFree(settings[i].text) && settings[i].mode != SetValue
    ensures SetAll(f, settings).current == f.current && Updated(SetAll(f, settings)).modified
    decreases |settings|
  {
    if settings != [] {
      var n := |settings| - 1;
      ModifiedIsSpared(f, settings[..n]);
      RunReaches(f, settings[..n]);
      SetReaches(SetAll(f, settings[..n]), settings[n].text, settings[n].mode);
    }
  }

  /** An accepted value stays whatever defaults are given afterwards. */
  lemma SetThenDefaults(f: Flag, text: string, settings: seq<Setting>)
    requires WellTyped(f) && NulFree(text) && TryParse(f, text).Some?
    requires forall i :: 0 <= i < |settings| ==> NulFree(settings[i].text) && settings[i].mode != SetValue
    ensures
      var g := SetAll(Set(f, text, SetValue).0, settings);
      g.current == TryParse(f, text).value && (settings == [] ==> g.defvalue == f.defvalue)
  {
    SetReaches(f, text, SetValue);
    ModifiedIsSpared(Set(f, text, SetValue).0, settings);
  }

  /** The value of the last setting in a mode whose text is accepted, and of the first one. */
  function LastAccepted(f: Flag, settings: seq<Setting>, mode: Mode): Option<Value>
    decreases |settings|
  {
    if settings == [] then None
    else
      var last := settings[|settings| - 1];
      if last.mode == mode && TryParse(f, last.text).Some? then TryParse(f, last.text)
      else LastAccepted(f, settings[..|settings| - 1], mode)
  }

  function FirstAccepted(f: Flag, settings: seq<Setting>, mode: Mode): Option<Value>
  {
    if settings == [] then None
    else if settings[0].mode == mode && TryParse(f, settings[0].text).Some? then TryParse(f, settings[0].text)
    else FirstAccepted(f, settings[1..], mode)
  }

  function OrElse(v: Option<Value>, otherwise: Value): Value
  {
    if v.Some? then v.value else otherwise
  }

  lemma {:induction false} FirstOfMore(f: Flag, settings: seq<Setting>, last: Setting, mode: Mode)
    ensures FirstAccepted(f, settings + [last], mode)
            == if FirstAccepted(f, settings, mode).Some? then FirstAccepted(f, settings, mode)
               else if last.mode == mode then TryParse(f, last.text) else None
  {
    if settings == [] {
      assert settings + [last] == [last];
      assert FirstAccepted(f, [last][1..], mode) == None;
    } else {
      assert (settings + [last])[1..] == settings[1..] + [last];
      FirstOfMore(f, settings[1..], last, mode);
    }
  }

  /** The run has the default value, the current value and the mark it should have. */
  ghost predicate Settled(f: Flag, settings: seq<Setting>, g: Flag)
  {
    var last, first := LastAccepted(f, settings, SetValue), FirstAccepted(f, settings, SetIfDefault);
    && g.defvalue == OrElse(LastAccepted(f, settings, SetDefault), f.defvalue)
    && g.current == OrElse(last, if Updated(f).modified then f.current else OrElse(first, g.defvalue))
    && (Updated(g).modified <==> Updated(f).modified || last.Some? || first.Some?)
  }

  /**
   * Which of the settings of a run decide about a flag: the last default; and the last value, or if there is none and
   * the flag was not modified the first of the settings that are for such flags only, or the default.
   */
  lemma {:induction false} RunSettles(f: Flag, settings: seq<Setting>)
    requires WellTyped(f) && forall i :: 0 <= i < |settings| ==> NulFree(settings[i].text)
    ensures Settled(f, settings, SetAll(f, settings))
    decreases |settings|
  {
    if settings != [] {
      var n := |settings| - 1;
      var before, last := settings[..n], settings[n];
      assert settings == before + [last];
      RunSettles(f, before);
      RunReaches(f, before);
      FirstOfMore(f, before, last, SetIfDefault);
      OneSettles(f, before, last, SetAll(f, before));
    }
  }

  lemma OneSettles(f: Flag, settings: seq<Setting>, last: Setting, g: Flag)
    requires Settled(f, settings, g) && SameDeclaration(f, g)
    requires FirstAccepted(f, settings + [last], SetIfDefault)
             == if FirstAccepted(f, settings, SetIfDefault).Some? then FirstAccepted(f, settings, SetIfDefault)
                else if last.mode == SetIfDefault then TryParse(f, last.text) else None
    ensures Settled(f, settings + [last], Set(g, last.text, last.mode).0)
  {
    assert (settings + [last])[..|settings|] == settings;
    assert TryParse(g, last.text) == TryParse(f, last.text);
  }

  // The registry.

  type Registered = map<string, Flag>

  predicate ByName(flags: Registered) {
    forall n :: n in flags ==> flags[n].name == n && WellTyped(flags[n])
  }

  datatype FlagError = UnknownFlag | NotBoolean | MissingArgument | BadValue

  datatype Split = Split(name: Option<string>, key: string, value: Option<string>, error: Option<FlagError>)

  /** The flags there are, with their types. */
  type Declared = map<string, FlagType>

  predicate DeclaredAs(flags: Registered, declared: Declared) {
    flags.Keys == declared.Keys && forall n :: n in flags ==> Kind(flags[n]) == declared[n]
  }

  /** The flag an argument means and the value it gives. */
  function SplitArgument(declared: Declared, arg: string): Split {
    var key, given := Before(arg, '='), After(arg, '=');
    if key in declared then
      Split(Some(key), key, if given.None? && declared[key] == Bool then Some("1") else given, None)
    else if !NegatesFlag(declared, key) then Split(None, key, given, Some(UnknownFlag))
    else if declared[key[2..]] != Bool then Split(None, key, given, Some(NotBoolean))
    else Split(Some(key[2..]), key[2..], Some("0"), None)
  }

  predicate NegatesFlag(declared: Declared, key: string) {
    |key| >= 2 && key[0] == 'n' && key[1] == 'o' && key[2..] in declared
  }

  /** The flags after one of them was set. */
  function SetIn(flags: Registered, name: string, text: string, mode: Mode): (Registered, bool)
    requires name in flags
  {
    var (f, ok) := Set(flags[name], text, mode);
    (flags[name := f], ok)
  }

  datatype Change = Change(name: string, text: string, mode: Mode)

  /** Any run of sets on a registry; names it does not have are not looked up. */
  function SetEach(flags: Registered, changes: seq<Change>): (r: Registered)
    ensures r.Keys == flags.Keys
    decreases |changes|
  {
    if changes == [] then flags
    else
      var last, before := changes[|changes| - 1], SetEach(flags, changes[..|changes| - 1]);
      if last.name in before then SetIn(before, last.name, last.text, last.mode).0 else before
  }

  function SettingsOf(changes: seq<Change>, name: string): seq<Setting>
    decreases |changes|
  {
    if changes == [] then []
    else
      var last := changes[|changes| - 1];
      SettingsOf(changes[..|changes| - 1], name) + if last.name == name then [Setting(last.text, last.mode)] else []
  }

  /** Each flag goes its own way: what it becomes depends on the sets that name it only. */
  lemma {:induction false} FlagsAreIndependent(flags: Registered, changes: seq<Change>, name: string)
    requires name in flags
    ensures SetEach(flags, changes)[name] == SetAll(flags[name], SettingsOf(changes, name))
    decreases |changes|
  {
    if changes != [] {
      var n := |changes| - 1;
      FlagsAreIndependent(flags, changes[..n], name);
      var settings := SettingsOf(changes[..n], name);
      var one := [Setting(changes[n].text, changes[n].mode)];
      assert (settings + one)[..|settings|] == settings && settings + [] == settings;
    }
  }

  class CommandLineFlag {
    const name: string
    const help: string
    const file: string
    var modified: bool
    var defvalue: Value
    var current: Value
    var validator: Option<Validator>

    ghost function State(): Flag
      reads this
    {
      Flag(name, help, file, modified, defvalue, current, validator)
    }

    constructor (name: string, help: string, file: string, current: Value, defvalue: Value)
      ensures State() == Flag(name, help, file, false, defvalue, current, None)
    {
      this.name, this.help, this.file := name, help, file;
      this.modified, this.defvalue, this.current, this.validator := false, defvalue, current, None;
    }

    method UpdateModifiedBit()
      modifies `modified
      ensures State() == Updated(old(State()))
    {
      if !modified && current != defvalue {
        modified := true;
      }
    }

    method Validate(v: Value) returns (ok: bool)
      ensures ok == Passes(State(), v)
    {
      if validator.None? {
        return true;
      }
      return v in validator.value;
    }

    /** The value of a text that parses and passes. */
    method TryParseLocked(text: string) returns (tentative: Option<Value>)
      ensures tentative == TryParse(State(), text)
    {
      tentative := ParseFrom(TypeOf(defvalue), text);
      if tentative.Some? {
        var ok := Validate(tentative.value);
        if !ok {
          return None;
        }
      }
    }

    method Copy() returns (f: Flag)
      ensures f == State()
    {
      f := Flag(name, help, file, modified, defvalue, current, validator);
    }

    /** Takes over everything that is not fixed at construction. */
    method CopyFrom(src: Flag)
      modifies `modified, `defvalue, `current, `validator
      ensures State() == src.(name := name, help := help, file := file)
    {
      if modified != src.modified {
        modified := src.modified;
      }
      if current != src.current {
        current := src.current;
      }
      if defvalue != src.defvalue {
        defvalue := src.defvalue;
      }
      validator := src.validator;
    }
  }

  class FlagRegistry {
    var flags: map<string, CommandLineFlag>

    // The same flags as values, and their types.
    ghost var contents: Registered
    ghost var declared: Declared

    ghost predicate Entry(n: string)
      reads this, flags.Values
    {
      && n in flags && n in contents && n in declared
      && flags[n].name == n && flags[n].State() == contents[n]
      && WellTyped(contents[n]) && Kind(contents[n]) == declared[n]
    }

    ghost predicate Valid()
      reads this, flags.Values
    {
      contents.Keys == flags.Keys == declared.Keys && forall n {:trigger Entry(n)} :: n in flags ==> Entry(n)
    }

    lemma ValidContents()
      requires Valid()
      ensures ByName(contents) && DeclaredAs(contents, declared)
    {
      assert forall n :: n in contents ==> Entry(n);
    }

    constructor ()
      ensures Valid() && contents == map[]
    {
      flags, contents, declared := map[], map[], map[];
    }

    /** Takes a flag in. A name already taken is refused with the registry as it was; the program then ends. */
    method RegisterFlag(flag: CommandLineFlag) returns (ok: bool)
      requires Valid() && WellTyped(flag.State())
      modifies this
      ensures Valid() && (ok <==> flag.name !in old(flags))
      ensures contents == if ok then old(contents)[flag.name := flag.State()] else old(contents)
      ensures flags == if ok then old(flags)[flag.name := flag] else old(flags)
    {
      if flag.name in flags {
        return false;
      }
      ok := true;
      assert forall n :: n in flags ==> Entry(n);
      flags := flags[flag.name := flag];
      contents := contents[flag.name := flag.State()];
      declared := declared[flag.name := TypeOf(flag.defvalue)];
    }

    method FindFlagLocked(name: string) returns (flag: CommandLineFlag?)
      requires Valid()
      ensures flag == null <==> name !in contents
      ensures flag == null <==> name !in declared
      ensures flag != null ==> name in flags && flag == flags[name] && flag.name == name
      ensures flag != null ==> name in declared && TypeOf(flag.defvalue) == declared[name]
    {
      if name in flags {
        assert Entry(name);
        return flags[name];
      }
      return null;
    }

    method SplitArgumentLocked(arg: string)
        returns (flag: CommandLineFlag?, key: string, v: Option<string>, error: Option<FlagError>)
      requires Valid()
      ensures
        var s := SplitArgument(declared, arg);
        key == s.key && v == s.value && error == s.error && (flag == null <==> s.name.None?)
      ensures flag != null ==> flag.name in flags && flag == flags[flag.name]
      ensures flag != null ==> SplitArgument(declared, arg).name == Some(flag.name)
    {
      key, v, error := Before(arg, '='), After(arg, '='), None;
      flag := FindFlagLocked(key);
      if flag == null {
        if !(|key| >= 2 && key[0] == 'n' && key[1] == 'o') {
          return null, key, v, Some(UnknownFlag);
        }
        flag := FindFlagLocked(key[2..]);
        if flag == null {
          return null, key, v, Some(UnknownFlag);
        }
        if TypeOf(flag.defvalue) != Bool {
          return null, key, v, Some(NotBoolean);
        }
        key := key[2..];
        v := Some("0");
      }
      if v.None? && TypeOf(flag.defvalue) == Bool {
        v := Some("1");
      }
    }

    method SetFlagLocked(flag: CommandLineFlag, text: string, mode: Mode) returns (ok: bool)
      requires Valid() && NulFree(text) && flag.name in flags && flag == flags[flag.name]
      modifies flag, `contents
      ensures Valid() && (contents, ok) == SetIn(old(contents), flag.name, text, mode)
    {
      assert Entry(flag.name);
      SetReaches(contents[flag.name], text, mode);
      ok := SetOne(flag, text, mode);
      contents := contents[flag.name := flag.State()];
      forall n | n in flags
        ensures Entry(n)
      {
        assert old(Entry(n));
      }
    }

    static method SetOne(flag: CommandLineFlag, text: string, mode: Mode) returns (ok: bool)
      modifies flag
      ensures (flag.State(), ok) == Set(old(flag.State()), text, mode)
    {
      flag.UpdateModifiedBit();
      match mode {
        case SetValue =>
          var v := flag.TryParseLocked(text);
          if v.None? {
            return false;
          }
          flag.current := v.value;
          flag.modified := true;
        case SetIfDefault =>
          if !flag.modified {
            var v := flag.TryParseLocked(text);
            if v.None? {
              return false;
            }
            flag.current := v.value;
            flag.modified := true;
          }
        case SetDefault =>
          var v := flag.TryParseLocked(text);
          if v.None? {
            return false;
          }
          flag.defvalue := v.value;
          if !flag.modified {
            v := flag.TryParseLocked(text);
            if v.Some? {
              flag.current := v.value;
            }
          }
      }
      return true;
    }
  }
}
