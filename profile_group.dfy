// ProfileGroup: a set of named profiles and the name of the current one,
// which run, check and getLastResult use.
module ProfileGroups {
  import opened Common
  import opened OrderedMap
  import opened Util
  import opened Config
  import opened Attributes
  import opened Rules
  import opened Classification
  import opened Results
  import opened Profiles

  /** What addProfile is given: a Profile object, stored as-is, or a definition to build one from. */
  datatype ProfileArg = Existing(profile: Profile) | Defined(def: ProfileDef)

  /**
   * The profile run and check use: a truthy name must be a known profile
   * and becomes the current one; otherwise the current profile, which must
   * be set (and truthy).
   */
  function Selected<P>(profiles: OMap<P>, current: Option<string>, name: Option<string>): (r: Outcome<string>)
    ensures TruthyOpt(name) && !HasKey(profiles, name.value) ==> r == Thrown(UnknownProfile(name.value))
    ensures !TruthyOpt(name) && !TruthyOpt(current) ==> r == Thrown(NoProfileSet)
  {
    if TruthyOpt(name) then
      if HasKey(profiles, name.value) then Ok(name.value) else Thrown(UnknownProfile(name.value))
    else if TruthyOpt(current) then Ok(current.value)
    else Thrown(NoProfileSet)
  }

  /** The current profile after run, check or getLastResult with the given name. */
  function CurrentAfter<P>(profiles: OMap<P>, current: Option<string>, name: Option<string>): Option<string>
  {
    if TruthyOpt(name) && HasKey(profiles, name.value) then name else current
  }

  /**
   * The key getLastResult reads: after selecting the profile as run does,
   * it indexes the profiles by its own argument, a missing argument being
   * PHP's null key "", and a key that is not there is an error.
   */
  function LastResultKey<P>(profiles: OMap<P>, current: Option<string>, name: Option<string>): Outcome<string>
  {
    var sel := Selected(profiles, current, name);
    var key := if name.Some? then name.value else "";
    if sel.Thrown? then sel
    else if HasKey(profiles, key) then Ok(key)
    else Thrown(UndefinedProfileKey(key))
  }

  /**
   * A selection persists: once run has selected a profile by name, a run
   * without a name uses the same profile.
   */
  lemma SelectionPersists<P>(profiles: OMap<P>, current: Option<string>, name: Option<string>)
    requires Selected(profiles, current, name).Ok?
    ensures Selected(profiles, CurrentAfter(profiles, current, name), None) == Selected(profiles, current, name)
  {
    if TruthyOpt(name) {
      assert CurrentAfter(profiles, current, name) == name;
    }
  }

  /**
   * Whatever the selection, a run (once it gets that far) finds its profile:
   * the profile is either the one just named or the current one, which is
   * always a known name.
   */
  lemma SelectedKnown<P>(profiles: OMap<P>, current: Option<string>, name: Option<string>)
    requires current.Some? ==> HasKey(profiles, current.value)
    ensures Selected(profiles, current, name).Ok? ==> HasKey(profiles, Selected(profiles, current, name).value)
    ensures var after := CurrentAfter(profiles, current, name); after.Some? ==> HasKey(profiles, after.value)
  {
  }

  /**
   * getLastResult with a truthy name reads that profile, as run does; with
   * no name it ignores the current profile and reads the key "", so it
   * answers for the current profile only if that is the profile named "".
   */
  lemma LastResultKeyVersusSelected<P>(profiles: OMap<P>, current: Option<string>, name: Option<string>)
    ensures TruthyOpt(name) ==> LastResultKey(profiles, current, name) == Selected(profiles, current, name)
    ensures name.None? && TruthyOpt(current) ==>
      LastResultKey(profiles, current, name) == if HasKey(profiles, "") then Ok("") else Thrown(UndefinedProfileKey(""))
    ensures name.None? && TruthyOpt(current) ==>
      LastResultKey(profiles, current, name) != Selected(profiles, current, name)
  {
  }

  ghost function MembersOf(m: OMap<Profile>): set<Profile>
  {
    set i | 0 <= i < |m| :: m[i].1
  }

  lemma PutMembers(m: OMap<Profile>, name: string, p: Profile)
    ensures MembersOf(Put(m, name, p)) <= MembersOf(m) + {p}
  {
    PutEntries(m, name, p);
    forall q | q in MembersOf(Put(m, name, p)) ensures q in MembersOf(m) + {p} {
      var m' := Put(m, name, p);
      var i :| 0 <= i < |m'| && m'[i].1 == q;
      assert m'[i] in m || m'[i] == (name, p);
      if m'[i] in m {
        var j :| 0 <= j < |m| && m[j] == m'[i];
      }
    }
  }

  class ProfileGroup {
    var profiles: OMap<Profile>
    var current: Option<string>

    /** Each name once, and the current profile, once set, is one of them. */
    predicate Keyed()
      reads this`profiles, this`current
    {
      UniqueKeys(profiles) && (current.Some? ==> HasKey(profiles, current.value))
    }

    ghost function Members(): set<Profile>
      reads this`profiles
    {
      MembersOf(profiles)
    }

    ghost function MemberAttribs(): set<Attribute>
      reads this`profiles, Members()`attribs
    {
      set p, a | p in Members() && a in Attribs(p.attribs) :: a
    }

    ghost function MemberRules(): set<Rule>
      reads this`profiles, Members()`attribs, MemberAttribs()`rules
    {
      set p, q | p in Members() && q in RulesOf(p.attribs) :: q
    }

    ghost predicate AllValid()
      reads this`profiles, Members()`attribs, MemberAttribs()`rules
    {
      forall p :: p in Members() ==> p.Valid()
    }

    constructor ()
      ensures profiles == [] && current.None?
      ensures Keyed() && AllValid()
    {
      profiles := [];
      current := None;
    }

    /**
     * addProfile($name, $def): store the profile under the name, replacing
     * an earlier one in its place; a definition is built into a new profile
     * first, and its exception propagates with nothing stored.
     */
    method AddProfile(name: string, arg: ProfileArg, natives: Natives) returns (r: Outcome<Profile>)
      requires Keyed() && AllValid()
      requires arg.Existing? ==> arg.profile.Valid()
      requires arg.Defined? ==> WellKeyed(AttribDefs(arg.def))
      modifies this`profiles
      ensures Keyed() && AllValid()
      ensures arg.Defined? ==> (r.Thrown? <==> ProfileError(arg.def, natives).Some?)
      ensures r.Thrown? ==> arg.Defined? && profiles == old(profiles) && r.error == ProfileError(arg.def, natives).value
      ensures r.Ok? ==> profiles == Put(old(profiles), name, r.value)
      ensures r.Ok? && arg.Existing? ==> r.value == arg.profile
      ensures r.Ok? && arg.Defined? ==> fresh(r.value) && r.value.config == ConfigOf(arg.def, natives)
      ensures r.Ok? && arg.Defined? ==> Keys(r.value.attribs) == Keys(AttribDefs(arg.def))
    {
      var p: Profile;
      if arg.Existing? {
        p := arg.profile;
      } else {
        var made := NewProfile(arg.def, natives);
        if made.Thrown? {
          return Thrown(made.error);
        }
        p := made.value;
      }
      Store(name, p);
      r := Ok(p);
    }

    /** Store a profile under the name, replacing an earlier one in its place. */
    method Store(name: string, p: Profile)
      requires Keyed() && AllValid() && p.Valid()
      modifies this`profiles
      ensures profiles == Put(old(profiles), name, p)
      ensures Keyed() && AllValid()
    {
      var stored := Put(profiles, name, p);
      PutUnique(profiles, name, p);
      PutKeys(profiles, name, p);
      PutMembers(profiles, name, p);
      assert forall q :: q in MembersOf(stored) ==> q.Valid();
      profiles := stored;
    }

    /** setProfile($name): an unknown name throws and changes nothing; a known one becomes current. */
    method SetProfile(name: string) returns (r: Outcome<()>)
      requires Keyed()
      modifies this`current
      ensures Keyed()
      ensures HasKey(profiles, name) ==> r == Ok(()) && current == Some(name)
      ensures !HasKey(profiles, name) ==> r == Thrown(UnknownProfile(name)) && current == old(current)
    {
      if !HasKey(profiles, name) {
        return Thrown(UnknownProfile(name));
      }
      current := Some(name);
      r := Ok(());
    }

    /** The selected profile's object, once the selection has succeeded. */
    method Target(name: Option<string>) returns (r: Outcome<Profile>)
      requires Keyed() && AllValid()
      modifies this`current
      ensures Keyed() && AllValid() && profiles == old(profiles)
      ensures current == CurrentAfter(old(profiles), old(current), name)
      ensures var sel := Selected(profiles, old(current), name);
        (sel.Thrown? ==> r == Thrown(sel.error)) &&
        (sel.Ok? ==> r.Ok? && Get(profiles, sel.value) == Some(r.value) && r.value in Members())
      ensures r.Ok? ==> Views(r.value.attribs) == old(Views(r.value.attribs))
      ensures r.Ok? ==> r.value.filters.pre == old(r.value.filters.pre) && r.value.filters.post == old(r.value.filters.post)
    {
      if TruthyOpt(name) {
        var s := SetProfile(name.value);
        if s.Thrown? {
          return Thrown(s.error);
        }
      }
      if !TruthyOpt(current) {
        return Thrown(NoProfileSet);
      }
      GetSome(profiles, current.value);
      var p := Get(profiles, current.value).value;
      var i :| 0 <= i < |profiles| && profiles[i] == (current.value, p);
      r := Ok(p);
    }

    /**
     * run($data, $name): select the profile (a truthy name first becomes
     * current; the selection persists) and run it; with no current
     * profile, an exception.
     */
    method Run(data: seq<(string, Input)>, sep: string, name: Option<string>)
      returns (r: Outcome<Result>, ghost trace: seq<Verdict>)
      requires |sep| > 0 && Keyed() && AllValid()
      modifies this`current, Members()`lastResult, MemberAttribs()`lastValue, MemberAttribs()`failedRule, MemberRules()
      ensures Keyed() && AllValid()
      ensures profiles == old(profiles)
      ensures current == CurrentAfter(profiles, old(current), name)
      ensures var sel := Selected(profiles, old(current), name);
        sel.Thrown? ==> r == Thrown(sel.error)
      ensures var sel := Selected(profiles, old(current), name);
        sel.Ok? ==> Get(profiles, sel.value).Some? && Ran(old(Get(profiles, sel.value).value), data, sep, r, trace)
    {
      var target := Target(name);
      if target.Thrown? {
        return Thrown(target.error), [];
      }
      r, trace := RunProfile(target.value, data, sep);
    }

    /** The profile's own run, which leaves every profile of the group valid. */
    method RunProfile(p: Profile, data: seq<(string, Input)>, sep: string)
      returns (r: Outcome<Result>, ghost trace: seq<Verdict>)
      requires |sep| > 0 && Keyed() && AllValid() && p in Members()
      modifies Members()`lastResult, MemberAttribs()`lastValue, MemberAttribs()`failedRule, MemberRules()
      ensures Keyed() && AllValid() && profiles == old(profiles) && current == old(current)
      ensures Ran(p, data, sep, r, trace)
    {
      assert Attribs(p.attribs) <= MemberAttribs();
      assert RulesOf(p.attribs) <= MemberRules();
      r, trace := p.Run(data, sep);
      forall q | q in Members() ensures q.Valid() {
        assert old(q.Valid());
      }
    }

    /** check($data, $name): run it and answer whether the result has no error. */
    method Check(data: seq<(string, Input)>, sep: string, name: Option<string>)
      returns (r: Outcome<bool>, ghost trace: seq<Verdict>)
      requires |sep| > 0 && Keyed() && AllValid()
      modifies this`current, Members()`lastResult, MemberAttribs()`lastValue, MemberAttribs()`failedRule, MemberRules()
      ensures Keyed() && AllValid()
      ensures profiles == old(profiles)
      ensures current == CurrentAfter(profiles, old(current), name)
      ensures var sel := Selected(profiles, old(current), name);
        sel.Thrown? ==> r == Thrown(sel.error)
      ensures var sel := Selected(profiles, old(current), name);
        sel.Ok? ==> (
          Get(profiles, sel.value).Some? && |trace| == |Flatten(data, sep)| &&
          var p := old(Get(profiles, sel.value).value);
          r == Classify(Flatten(data, sep), old(Views(p.attribs)), old(p.filters.pre), old(p.filters.post), sep, trace).outcome)
    {
      var ran;
      ran, trace := Run(data, sep, name);
      if ran.Thrown? {
        return Thrown(ran.error), trace;
      }
      r := Ok(!ran.value.HasError(None));
    }

    /**
     * getLastResult($name): select as run does, then read the last result
     * of the profile stored under the argument itself (see LastResultKey).
     */
    method GetLastResult(name: Option<string>) returns (r: Outcome<Option<Result>>)
      requires Keyed()
      modifies this`current
      ensures Keyed()
      ensures current == CurrentAfter(old(profiles), old(current), name)
      ensures var key := LastResultKey(profiles, old(current), name);
        (key.Thrown? ==> r == Thrown(key.error)) &&
        (key.Ok? ==> Get(profiles, key.value).Some? && r == Ok(Get(profiles, key.value).value.lastResult))
    {
      if TruthyOpt(name) {
        var s := SetProfile(name.value);
        if s.Thrown? {
          return Thrown(s.error);
        }
      }
      if !TruthyOpt(current) {
        return Thrown(NoProfileSet);
      }
      var key := if name.Some? then name.value else "";
      if !HasKey(profiles, key) {
        return Thrown(UndefinedProfileKey(key));
      }
      GetSome(profiles, key);
      r := Ok(Get(profiles, key).value.lastResult);
    }
  }

  /**
   * The ProfileGroup constructor: addProfile for each named entry in order;
   * the first definition that cannot be built aborts construction.
   */
  method NewGroup(defs: OMap<ProfileArg>, natives: Natives) returns (r: Outcome<ProfileGroup>)
    requires UniqueKeys(defs)
    requires forall i :: 0 <= i < |defs| && defs[i].1.Existing? ==> defs[i].1.profile.Valid()
    requires forall i :: 0 <= i < |defs| && defs[i].1.Defined? ==> WellKeyed(AttribDefs(defs[i].1.def))
    ensures r.Thrown? <==> GroupError(defs, natives).Some?
    ensures r.Thrown? ==> r.error == GroupError(defs, natives).value
    ensures r.Ok? ==> fresh(r.value) && r.value.Keyed() && r.value.AllValid() && r.value.current.None?
    ensures r.Ok? ==> Keys(r.value.profiles) == Keys(defs)
    ensures r.Ok? ==> forall i :: 0 <= i < |defs| && defs[i].1.Existing? ==>
      Get(r.value.profiles, defs[i].0) == Some(defs[i].1.profile)
  {
    var g := new ProfileGroup();
    var i := 0;
    while i < |defs|
      invariant 0 <= i <= |defs|
      invariant fresh(g) && g.Keyed() && g.AllValid() && g.current.None?
      invariant GroupError(defs, natives) == GroupError(defs[i..], natives)
      invariant Keys(g.profiles) == Keys(defs[..i])
      invariant forall j :: 0 <= j < i && defs[j].1.Existing? ==> Get(g.profiles, defs[j].0) == Some(defs[j].1.profile)
    {
      assert defs[i..][1..] == defs[i + 1..];
      ghost var before := g.profiles;
      var added := g.AddProfile(defs[i].0, defs[i].1, natives);
      if added.Thrown? {
        return Thrown(added.error);
      }
      GroupStep(before, defs, i, added.value);
      GroupStepKept(before, defs, i, added.value);
      i := i + 1;
    }
    assert defs[..i] == defs;
    r := Ok(g);
  }

  /** The exception the ProfileGroup constructor throws: that of the first definition that cannot be built. */
  function GroupError(defs: OMap<ProfileArg>, natives: Natives): Option<Error>
  {
    if defs == [] then None
    else if defs[0].1.Defined? && ProfileError(defs[0].1.def, natives).Some? then ProfileError(defs[0].1.def, natives)
    else GroupError(defs[1..], natives)
  }

  /** The constructor throws exactly when some definition (not a ready profile) cannot be built. */
  lemma {:induction false} GroupErrorNone(defs: OMap<ProfileArg>, natives: Natives)
    ensures GroupError(defs, natives).None? <==>
      forall i :: 0 <= i < |defs| && defs[i].1.Defined? ==> ProfileError(defs[i].1.def, natives).None?
  {
    if defs != [] {
      GroupErrorNone(defs[1..], natives);
      assert forall i :: 1 <= i < |defs| ==> defs[i] == defs[1..][i - 1];
    }
  }

  /** One constructor step: the new name is appended to the keys. */
  lemma GroupStep(before: OMap<Profile>, defs: OMap<ProfileArg>, i: nat, p: Profile)
    requires UniqueKeys(defs) && i < |defs|
    requires Keys(before) == Keys(defs[..i])
    ensures Keys(Put(before, defs[i].0, p)) == Keys(defs[..i + 1])
  {
    var name := defs[i].0;
    assert Keys(defs[..i + 1]) == Keys(defs[..i]) + [name] by {
      assert Keys(defs[..i + 1])[..i] == Keys(defs[..i]);
    }
    assert !HasKey(before, name) by {
      forall j | 0 <= j < i ensures Keys(before)[j] != name {
        assert Keys(before)[j] == defs[j].0;
      }
    }
    PutKeys(before, name, p);
  }

  /** One constructor step: the profiles given as objects so far are stored under their names. */
  lemma GroupStepKept(before: OMap<Profile>, defs: OMap<ProfileArg>, i: nat, p: Profile)
    requires UniqueKeys(defs) && i < |defs|
    requires forall j :: 0 <= j < i && defs[j].1.Existing? ==> Get(before, defs[j].0) == Some(defs[j].1.profile)
    requires defs[i].1.Existing? ==> p == defs[i].1.profile
    ensures forall j :: 0 <= j < i + 1 && defs[j].1.Existing? ==>
      Get(Put(before, defs[i].0, p), defs[j].0) == Some(defs[j].1.profile)
  {
    forall j | 0 <= j < i + 1 && defs[j].1.Existing?
      ensures Get(Put(before, defs[i].0, p), defs[j].0) == Some(defs[j].1.profile)
    {
      GetPut(before, defs[i].0, p, defs[j].0);
    }
  }
}
