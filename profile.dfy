// src/DataFilter/Profile.php: the attribute table with the templates,
// catalogs and filter chains its attributes are built with. The table is
// changed in place by setAttrib/removeAttrib; run() replaces lastResult.
module Profiles {
  import opened Common
  import opened Util
  import opened OrderedMap
  import opened Config
  import opened PredefinedRules
  import opened PredefinedFilters
  import opened Filterable
  import opened Attributes
  import opened Classification
  import opened Results

  /**
   * The definition array the constructor reads; a key that is not set (or
   * set to null) is None. The catalogs are the classes named under
   * ruleClasses and filterClasses.
   */
  datatype ProfileDef = ProfileDef(
    errorTemplate: Option<string>,
    missingTemplate: Option<string>,
    ruleClasses: Option<seq<RuleCatalog>>,
    filterClasses: Option<seq<FilterCatalog>>,
    preFilters: Option<FilterArg>,
    postFilters: Option<FilterArg>,
    attribs: Option<OMap<AttribDef>>,
    attributes: Option<OMap<AttribDef>>)

  /** What setAttrib accepts: an Attribute object, stored as it is, or a definition to build one from. */
  datatype AttribArg = Built(attrib: Attribute) | Definition(def: AttribDef)

  /** The user's rule classes, none when the key is not set. */
  function RuleClasses(def: ProfileDef): seq<RuleCatalog>
  {
    if def.ruleClasses.Some? then def.ruleClasses.value else []
  }

  /** The user's filter classes, none when the key is not set. */
  function FilterClasses(def: ProfileDef): seq<FilterCatalog>
  {
    if def.filterClasses.Some? then def.filterClasses.value else []
  }

  /**
   * The templates and catalogs of the constructor: the defaults unless set,
   * and the user's catalog classes appended after the built-in Basic ones,
   * duplicates kept (the array_unique result is discarded).
   */
  function ConfigOf(def: ProfileDef, natives: Natives): (c: Config)
    ensures c.errorTemplate == if def.errorTemplate.Some? then def.errorTemplate.value else DefaultErrorTemplate
    ensures c.missingTemplate == if def.missingTemplate.Some? then def.missingTemplate.value else DefaultMissingTemplate
    ensures |c.ruleCatalogs| == 1 + |RuleClasses(def)| && |c.filterCatalogs| == 1 + |FilterClasses(def)|
  {
    Config(
      if def.errorTemplate.Some? then def.errorTemplate.value else DefaultErrorTemplate,
      if def.missingTemplate.Some? then def.missingTemplate.value else DefaultMissingTemplate,
      [BasicRules(natives)] + RuleClasses(def),
      [BasicFilters(natives)] + FilterClasses(def),
      natives)
  }

  /**
   * The built-in Basic catalog comes first, so a user class can add
   * predefined rules and filters but never replace one of Basic's; among
   * the user's classes the first that has the name wins.
   */
  lemma BasicFirst(def: ProfileDef, natives: Natives, name: string)
    ensures CatalogFind(ConfigOf(def, natives).ruleCatalogs, name)
      == if Lower(name) in BasicRules(natives) then Some(BasicRules(natives)[Lower(name)])
         else CatalogFind(RuleClasses(def), name)
    ensures CatalogFind(ConfigOf(def, natives).filterCatalogs, name)
      == if Lower(name) in BasicFilters(natives) then Some(BasicFilters(natives)[Lower(name)])
         else CatalogFind(FilterClasses(def), name)
  {
    var c := ConfigOf(def, natives);
    assert c.ruleCatalogs[0] == BasicRules(natives) && c.ruleCatalogs[1..] == RuleClasses(def);
    assert c.filterCatalogs[0] == BasicFilters(natives) && c.filterCatalogs[1..] == FilterClasses(def);
  }

  /** The attribute definitions the constructor sets: `attribs`, else `attributes`, else none. */
  function AttribDefs(def: ProfileDef): OMap<AttribDef>
  {
    if def.attribs.Some? then def.attribs.value
    else if def.attributes.Some? then def.attributes.value
    else []
  }

  /** The exception setAttribs throws: that of the first definition whose attribute cannot be built. */
  function DefsError(defs: OMap<AttribDef>, config: Config): (e: Option<Error>)
    ensures e.None? <==> forall i :: 0 <= i < |defs| ==> BuildError(Normalize(defs[i].1), defs[i].0, config).None?
  {
    if defs == [] then None
    else
      var e := BuildError(Normalize(defs[0].1), defs[0].0, config);
      if e.Some? then e
      else
        var rest := DefsError(defs[1..], config);
        assert forall i :: 1 <= i < |defs| ==> defs[i] == defs[1..][i - 1];
        rest
  }

  /** Every definition's rules have distinct names, as keys of a PHP array do. */
  predicate WellKeyed(defs: OMap<AttribDef>)
  {
    UniqueKeys(defs) && forall i :: 0 <= i < |defs| ==> UniqueKeys(Normalize(defs[i].1).rules)
  }

  /** The keys after assigning `names` in order: a new name is appended, a present one keeps its place. */
  function KeysAfter(keys: seq<string>, names: seq<string>): seq<string>
  {
    if names == [] then keys
    else
      var before := KeysAfter(keys, names[..|names| - 1]);
      var name := names[|names| - 1];
      if name in before then before else before + [name]
  }

  /** Assigning distinct new names appends them in their order. */
  lemma {:induction false} KeysAfterFresh(keys: seq<string>, names: seq<string>)
    requires forall i, j :: 0 <= i < j < |keys + names| ==> (keys + names)[i] != (keys + names)[j]
    ensures KeysAfter(keys, names) == keys + names
  {
    if names != [] {
      var n := |names|;
      var init := names[..n - 1];
      assert keys + init == (keys + names)[..|keys| + n - 1];
      KeysAfterFresh(keys, init);
      forall i | 0 <= i < |keys + init| ensures (keys + init)[i] != names[n - 1] {
        assert (keys + init)[i] == (keys + names)[i];
        assert names[n - 1] == (keys + names)[|keys| + n - 1];
      }
      assert keys + init + [names[n - 1]] == keys + names;
    }
  }

  /** The table holds an attribute of that very name under `name`. */
  predicate HoldsNamed(m: OMap<Attribute>, name: string)
  {
    Get(m, name).Some? && Get(m, name).value.name == name
  }

  /** Setting one more definition's attribute: the keys grow as KeysAfter says and the earlier names stay set. */
  lemma SetStep(before: OMap<Attribute>, keys: seq<string>, defs: OMap<AttribDef>, i: nat, a: Attribute)
    requires i < |defs| && a.name == defs[i].0
    requires Keys(before) == KeysAfter(keys, Keys(defs[..i]))
    requires forall j :: 0 <= j < i ==> HoldsNamed(before, defs[j].0)
    ensures Keys(Put(before, defs[i].0, a)) == KeysAfter(keys, Keys(defs[..i + 1]))
    ensures forall j :: 0 <= j < i + 1 ==> HoldsNamed(Put(before, defs[i].0, a), defs[j].0)
  {
    var name := defs[i].0;
    assert Keys(defs[..i + 1])[..i] == Keys(defs[..i]);
    assert Keys(defs[..i + 1])[i] == name;
    PutKeys(before, name, a);
    forall j | 0 <= j < i + 1 ensures HoldsNamed(Put(before, name, a), defs[j].0) {
      GetPut(before, name, a, defs[j].0);
    }
  }

  /**
   * What running profile p did: its new last result holds the buckets the
   * classification of the data over p's table and chains (as they were
   * before the run) fills, and the run answers with that result or its
   * exception.
   */
  twostate predicate Ran(p: Profile, data: seq<(string, Input)>, sep: string, new r: Outcome<Result>, trace: seq<Verdict>)
    reads p`lastResult, if p.lastResult.Some? then {p.lastResult.value} else {}
  {
    |sep| > 0 && |trace| == |Flatten(data, sep)| &&
    var c := Classify(Flatten(data, sep), old(Views(p.attribs)), old(p.filters.pre), old(p.filters.post), sep, trace);
    p.lastResult.Some? && fresh(p.lastResult.value)
    && p.lastResult.value.Contents() == c.buckets
    && (c.outcome.Thrown? ==> r == Thrown(c.outcome.error))
    && (c.outcome.Ok? ==> r == Ok(p.lastResult.value))
  }

  class Profile {
    const config: Config
    /** The profile's own pre- and post-filters. */
    const filters: FilterChains
    var attribs: OMap<Attribute>
    var lastResult: Option<Result>

    /** Each name once, and every attribute's rules in order. */
    ghost predicate Valid()
      reads this`attribs, Attribs(attribs)`rules
    {
      UniqueKeys(attribs) && forall a :: a in Attribs(attribs) ==> a.Valid()
    }

    constructor (config: Config, filters: FilterChains)
      ensures this.config == config && this.filters == filters
      ensures attribs == [] && lastResult.None?
      ensures Valid()
    {
      this.config := config;
      this.filters := filters;
      attribs := [];
      lastResult := None;
    }

    /** getAttrib($name): the attribute of that name, null for none. */
    function GetAttrib(name: string): Option<Attribute>
      reads this`attribs
    {
      Get(attribs, name)
    }

    function GetLastResult(): Option<Result>
      reads this`lastResult
    {
      lastResult
    }

    /**
     * setAttrib($name, $definition): store the attribute under the name,
     * replacing an earlier one in its place; a definition is built into an
     * attribute first, and an exception while building changes nothing.
     */
    method SetAttrib(name: string, arg: AttribArg) returns (r: Outcome<Attribute>)
      requires Valid()
      requires arg.Built? ==> arg.attrib.Valid()
      requires arg.Definition? ==> UniqueKeys(Normalize(arg.def).rules)
      modifies this`attribs
      ensures Valid()
      ensures r.Thrown? ==>
        arg.Definition? && attribs == old(attribs) && Some(r.error) == BuildError(Normalize(arg.def), name, config)
      ensures arg.Definition? ==> (r.Thrown? <==> BuildError(Normalize(arg.def), name, config).Some?)
      ensures r.Ok? ==> attribs == Put(old(attribs), name, r.value)
      ensures r.Ok? && arg.Built? ==> r.value == arg.attrib
      ensures r.Ok? && arg.Definition? ==> fresh(r.value) && BuiltAttribute(r.value, name, arg.def, config)
    {
      var a: Attribute;
      if arg.Built? {
        a := arg.attrib;
      } else {
        var made := NewAttribute(name, arg.def, config);
        if made.Thrown? {
          return Thrown(made.error);
        }
        a := made.value;
      }
      PutUnique(attribs, name, a);
      PutEntries(attribs, name, a);
      ghost var before := attribs;
      attribs := Put(attribs, name, a);
      forall b | b in Attribs(attribs) ensures b.Valid() {
        var i :| 0 <= i < |attribs| && attribs[i].1 == b;
        assert attribs[i] in before || attribs[i] == (name, a);
        if attribs[i] in before {
          var j :| 0 <= j < |before| && before[j] == attribs[i];
          assert b in Attribs(before);
        }
      }
      r := Ok(a);
    }

    /**
     * setAttribs($definitions): setAttrib for each definition in order; the
     * first exception ends the loop, the attributes set before it stay.
     */
    method SetAttribs(defs: OMap<AttribDef>) returns (r: Outcome<()>)
      requires Valid() && WellKeyed(defs)
      modifies this`attribs
      ensures Valid()
      ensures r.Thrown? <==> DefsError(defs, config).Some?
      ensures r.Thrown? ==> r.error == DefsError(defs, config).value
      ensures r.Ok? ==> Keys(attribs) == KeysAfter(Keys(old(attribs)), Keys(defs))
      ensures r.Ok? ==> forall i :: 0 <= i < |defs| ==> HoldsNamed(attribs, defs[i].0)
    {
      var i := 0;
      while i < |defs|
        invariant 0 <= i <= |defs|
        invariant Valid()
        invariant DefsError(defs, config) == DefsError(defs[i..], config)
        invariant Keys(attribs) == KeysAfter(Keys(old(attribs)), Keys(defs[..i]))
        invariant forall j :: 0 <= j < i ==> HoldsNamed(attribs, defs[j].0)
      {
        assert defs[i..][1..] == defs[i + 1..];
        ghost var before := attribs;
        var made := SetAttrib(defs[i].0, Definition(defs[i].1));
        if made.Thrown? {
          return Thrown(made.error);
        }
        SetStep(before, Keys(old(attribs)), defs, i, made.value);
        i := i + 1;
      }
      assert defs[..i] == defs;
      r := Ok(());
    }

    /** removeAttrib($name): delete the name and say whether it was there. */
    method RemoveAttrib(name: string) returns (removed: bool)
      requires Valid()
      modifies this`attribs
      ensures Valid()
      ensures removed == HasKey(old(attribs), name)
      ensures attribs == Remove(old(attribs), name)
      ensures !HasKey(attribs, name)
    {
      removed := HasKey(attribs, name);
      RemoveUnique(attribs, name);
      RemoveSubset(attribs, name);
      RemoveKeys(attribs, name, name);
      ghost var before := attribs;
      attribs := Remove(attribs, name);
      forall b | b in Attribs(attribs) ensures b.Valid() {
        var i :| 0 <= i < |attribs| && attribs[i].1 == b;
        assert attribs[i] in before;
        var j :| 0 <= j < |before| && before[j] == attribs[i];
        assert b in Attribs(before);
      }
    }

    /**
     * run($data): check the input with a new Result, which becomes the last
     * result whether or not the check throws.
     */
    method Run(data: seq<(string, Input)>, sep: string) returns (r: Outcome<Result>, ghost trace: seq<Verdict>)
      requires |sep| > 0 && Valid()
      modifies this`lastResult, Attribs(attribs)`lastValue, Attribs(attribs)`failedRule, RulesOf(attribs)
      ensures Valid()
      ensures Ran(this, data, sep, r, trace)
      ensures old(Eager(attribs)) ==>
        Judged(attribs, old(Views(attribs)), old(filters.pre), sep, Flatten(data, sep), old(Failing(attribs)), trace)
    {
      var res, checked;
      res, checked, trace := CheckedResult(data, sep, attribs, filters);
      lastResult := Some(res);
      r := if checked.Thrown? then Thrown(checked.error) else Ok(res);
    }

    /** check($data): run it and answer whether the result has no error. */
    method Check(data: seq<(string, Input)>, sep: string) returns (r: Outcome<bool>, ghost trace: seq<Verdict>)
      requires |sep| > 0 && Valid()
      modifies this`lastResult, Attribs(attribs)`lastValue, Attribs(attribs)`failedRule, RulesOf(attribs)
      ensures Valid()
      ensures |trace| == |Flatten(data, sep)|
      ensures r == Classify(Flatten(data, sep), old(Views(attribs)), old(filters.pre), old(filters.post), sep, trace).outcome
      ensures old(Eager(attribs)) ==>
        Judged(attribs, old(Views(attribs)), old(filters.pre), sep, Flatten(data, sep), old(Failing(attribs)), trace)
    {
      var ran;
      ran, trace := Run(data, sep);
      if ran.Thrown? {
        return Thrown(ran.error), trace;
      }
      r := Ok(!ran.value.HasError(None));
    }
  }

  /** A new Result, checked against the attribute table: what run() builds before keeping it. */
  method CheckedResult(data: seq<(string, Input)>, sep: string, table: OMap<Attribute>, chains: FilterChains)
    returns (res: Result, r: Outcome<bool>, ghost trace: seq<Verdict>)
    requires |sep| > 0 && UniqueKeys(table)
    requires forall a :: a in Attribs(table) ==> a.Valid()
    modifies Attribs(table)`lastValue, Attribs(table)`failedRule, RulesOf(table)
    ensures fresh(res)
    ensures |trace| == |Flatten(data, sep)|
    ensures Classified(res.Contents(), r)
      == Classify(Flatten(data, sep), old(Views(table)), old(chains.pre), old(chains.post), sep, trace)
    ensures unchanged(Attribs(table)`rules)
    ensures forall a :: a in Attribs(table) ==> a.Valid()
    ensures old(Eager(table)) ==>
      Judged(table, old(Views(table)), old(chains.pre), sep, Flatten(data, sep), old(Failing(table)), trace)
  {
    res := new Result();
    ghost var views, failing, eager := Views(table), Failing(table), Eager(table);
    assert views == old(Views(table)) && failing == old(Failing(table)) && eager == old(Eager(table));
    r, trace := res.Check(data, sep, table, chains);
    RulesKept(table);
  }

  /**
   * The Profile constructor: templates and catalogs, then the profile's pre-
   * and post-filters, then the attribute definitions; the first exception
   * aborts construction.
   */
  method NewProfile(def: ProfileDef, natives: Natives) returns (r: Outcome<Profile>)
    requires WellKeyed(AttribDefs(def))
    ensures r.Thrown? <==> ProfileError(def, natives).Some?
    ensures r.Thrown? ==> r.error == ProfileError(def, natives).value
    ensures r.Ok? ==> fresh(r.value) && fresh(r.value.filters) && r.value.Valid()
    ensures r.Ok? ==> r.value.config == ConfigOf(def, natives) && r.value.lastResult.None?
    ensures r.Ok? ==> Keys(r.value.attribs) == Keys(AttribDefs(def))
    ensures r.Ok? ==> r.value.filters.pre == ChainFrom(def.preFilters, ConfigOf(def, natives))
    ensures r.Ok? ==> r.value.filters.post == ChainFrom(def.postFilters, ConfigOf(def, natives))
  {
    var config := ConfigOf(def, natives);
    var chains := ProfileChains(def, config);
    if chains.Thrown? {
      return Thrown(chains.error);
    }
    r := Populate(config, chains.value, AttribDefs(def));
  }

  /** The filters one of the constructor's preFilters/postFilters keys resolves to. */
  function ChainFrom(arg: Option<FilterArg>, config: Config): seq<Transform>
  {
    if arg.Some? then ResolveAll(AsList(arg.value, config.natives), ProfileOwner, config.filterCatalogs).filters
    else []
  }

  /** Whether resolving one of those keys throws. */
  function ChainOutcome(arg: Option<FilterArg>, config: Config): Outcome<()>
  {
    if arg.Some? then ResolveAll(AsList(arg.value, config.natives), ProfileOwner, config.filterCatalogs).outcome
    else Ok(())
  }

  /** The exception the profile-level filters throw: the pre-filters' first, then the post-filters'. */
  function ChainError(def: ProfileDef, config: Config): Option<Error>
  {
    var pre := ChainOutcome(def.preFilters, config);
    var post := ChainOutcome(def.postFilters, config);
    if pre.Thrown? then Some(pre.error) else if post.Thrown? then Some(post.error) else None
  }

  /** The exception the Profile constructor throws, if any: filters first, then attributes. */
  function ProfileError(def: ProfileDef, natives: Natives): Option<Error>
  {
    var config := ConfigOf(def, natives);
    var chains := ChainError(def, config);
    if chains.Some? then chains else DefsError(AttribDefs(def), config)
  }

  /** The constructor's profile-level filters: pre first, then post. */
  method ProfileChains(def: ProfileDef, config: Config) returns (r: Outcome<FilterChains>)
    ensures r.Thrown? <==> ChainOutcome(def.preFilters, config).Thrown? || ChainOutcome(def.postFilters, config).Thrown?
    ensures r.Thrown? ==> r.error == ChainError(def, config).value
    ensures r.Ok? ==> fresh(r.value) && r.value.owner == ProfileOwner && r.value.config == config
    ensures r.Ok? ==> r.value.pre == ChainFrom(def.preFilters, config) && r.value.post == ChainFrom(def.postFilters, config)
  {
    var chains := new FilterChains(ProfileOwner, config);
    if def.preFilters.Some? {
      var added := chains.AddFilters("pre", def.preFilters.value);
      if added.Thrown? {
        return Thrown(added.error);
      }
    }
    if def.postFilters.Some? {
      var added := chains.AddFilters("post", def.postFilters.value);
      if added.Thrown? {
        return Thrown(added.error);
      }
    }
    r := Ok(chains);
  }

  /** The constructor's last step: a profile over the given chains, then setAttribs on the definitions. */
  method Populate(config: Config, chains: FilterChains, defs: OMap<AttribDef>) returns (r: Outcome<Profile>)
    requires WellKeyed(defs)
    ensures r.Thrown? <==> DefsError(defs, config).Some?
    ensures r.Thrown? ==> r.error == DefsError(defs, config).value
    ensures r.Ok? ==> fresh(r.value) && r.value.Valid() && r.value.config == config && r.value.filters == chains
    ensures r.Ok? ==> Keys(r.value.attribs) == Keys(defs) && r.value.lastResult.None?
  {
    var p := new Profile(config, chains);
    var stored := p.SetAttribs(defs);
    if stored.Thrown? {
      return Thrown(stored.error);
    }
    assert [] + Keys(defs) == Keys(defs);
    KeysAfterFresh([], Keys(defs));
    r := Ok(p);
  }
}
