// src/DataFilter/Attribute.php: a named input parameter with its rules,
// filters and dependencies. check() runs the rules in order (all must pass,
// or any one with matchAny; a sufficient rule ends the run), remembers the
// first rule that failed, and determineDependents() marks further attributes
// required according to the value that passed.
//
// The class in the repository leaves out methods that Result and the tests
// call (useFilters, getDefaultErrorStr, setRule, removeRule, setRequired,
// setNoFilters) and takes its filter methods from a trait that is not part of
// this model; the attribute here carries a FilterChains object for its
// filters, a `noFilters` flag, the definition's `error` key as its default
// error, and plain setters.
module Attributes {
  import opened Common
  import opened Util
  import opened OrderedMap
  import opened Config
  import opened Filterable
  import opened Rules
  import opened PredefinedRules

  // ---------------------------------------------------------------------
  // Definitions

  /** The settings an array definition holds, after merging with the defaults. */
  datatype Settings = Settings(
    required: bool,
    matchAny: bool,
    default: Option<string>,
    missing: string,                       // null is read as ""
    error: string,                         // the attribute's default error; null is read as ""
    rules: OMap<RuleDef>,
    dependent: OMap<seq<string>>,
    dependentRegex: OMap<seq<string>>,
    preFilters: FilterArg,
    postFilters: FilterArg)

  /** Attribute::$DEFAULT_ATTRIBS. */
  const Defaults: Settings := Settings(false, false, None, "", "", [], [], [], Many([]), Many([]))

  /** The attribute definition forms. */
  datatype AttribDef =
    | Required               // true
    | Optional               // false
    | Simple(c: Constraint)  // a string or a callable
    | Full(settings: Settings)   // an array
    | NullDef                // null: array_merge with null gives null, and every key reads as null

  /** The constructor's normalisation of a definition. */
  function Normalize(def: AttribDef): Settings
  {
    match def
    case Required => Defaults.(required := true)
    case Optional => Defaults
    case Simple(c) => Defaults.(rules := [("default", Bare(c))])
    case Full(f) => f
    case NullDef => Defaults
  }

  /** `true` is required without rules, `false` optional without rules, a bare constraint an optional rule "default". */
  lemma DefinitionForms(c: Constraint)
    ensures Normalize(Required).required && Normalize(Required).rules == []
    ensures !Normalize(Optional).required && Normalize(Optional).rules == []
    ensures var f := Normalize(Simple(c));
      !f.required && !f.matchAny && f.default.None? && Keys(f.rules) == ["default"]
      && Get(f.rules, "default") == Some(Bare(c))
  {
  }

  /** The exception of the first rule definition the constructor fails on. */
  function RulesError(defs: OMap<RuleDef>, catalogs: seq<RuleCatalog>): Option<Error>
  {
    if defs == [] then None
    else if !IsLazy(defs[0].1) && ParseDefinition(defs[0].1, catalogs).Thrown? then
      Some(ParseDefinition(defs[0].1, catalogs).error)
    else RulesError(defs[1..], catalogs)
  }

  /** The exception the constructor throws: from the rules, else the pre-, else the post-filters. */
  function BuildError(f: Settings, name: string, config: Config): Option<Error>
  {
    var pre := ResolveAll(AsList(f.preFilters, config.natives), AttributeOwner(name), config.filterCatalogs);
    var post := ResolveAll(AsList(f.postFilters, config.natives), AttributeOwner(name), config.filterCatalogs);
    if RulesError(f.rules, config.ruleCatalogs).Some? then RulesError(f.rules, config.ruleCatalogs)
    else if pre.outcome.Thrown? then Some(pre.outcome.error)
    else if post.outcome.Thrown? then Some(post.outcome.error)
    else None
  }

  /** The constructor succeeds exactly when every non-lazy rule parses. */
  lemma {:induction false} RulesErrorSpec(defs: OMap<RuleDef>, catalogs: seq<RuleCatalog>)
    ensures RulesError(defs, catalogs).None?
      <==> forall i :: 0 <= i < |defs| ==> IsLazy(defs[i].1) || ParseDefinition(defs[i].1, catalogs).Ok?
    ensures RulesError(defs, catalogs).Some? ==>
      exists i :: 0 <= i < |defs| && !IsLazy(defs[i].1)
        && ParseDefinition(defs[i].1, catalogs) == Thrown(RulesError(defs, catalogs).value)
  {
    if defs != [] {
      RulesErrorSpec(defs[1..], catalogs);
      if RulesError(defs[1..], catalogs).Some? && (IsLazy(defs[0].1) || ParseDefinition(defs[0].1, catalogs).Ok?) {
        var i :| 0 <= i < |defs[1..]| && !IsLazy(defs[1..][i].1)
          && ParseDefinition(defs[1..][i].1, catalogs) == Thrown(RulesError(defs[1..], catalogs).value);
        assert defs[1..][i] == defs[i + 1];
      }
      if forall i :: 0 <= i < |defs| ==> IsLazy(defs[i].1) || ParseDefinition(defs[i].1, catalogs).Ok? {
        assert forall i :: 0 <= i < |defs[1..]| ==> defs[1..][i] == defs[i + 1];
      }
    }
  }

  // ---------------------------------------------------------------------
  // Rule evaluation

  /** How a run of check() ends: its result, the first failing rule it recorded, how many rules it ran. */
  datatype Decision = Decision(result: Outcome<bool>, failed: Option<nat>, ran: nat)

  /**
   * The rule loop of check() from rule `i` on, given what each rule's check
   * returns and whether it is sufficient; `failed` is the first failure so
   * far (only matchAny gets past a failure).
   */
  function DecideFrom(outs: seq<Outcome<bool>>, suff: seq<bool>, matchAny: bool, i: nat, failed: Option<nat>): (d: Decision)
    requires |outs| == |suff| && i <= |outs|
    requires failed.Some? ==> failed.value < i
    ensures i <= d.ran <= |outs|
    ensures d.failed.Some? ==> d.failed.value < d.ran
    ensures d.result == Ok(false) ==> d.failed.Some?
    decreases |outs| - i
  {
    if i == |outs| then Decision(Ok(failed.None?), failed, i)
    else match outs[i]
      case Thrown(e) => Decision(Thrown(e), failed, i + 1)
      case Ok(true) =>
        if matchAny || suff[i] then Decision(Ok(true), failed, i + 1)
        else DecideFrom(outs, suff, matchAny, i + 1, failed)
      case Ok(false) =>
        if !matchAny then Decision(Ok(false), Some(i), i + 1)
        else DecideFrom(outs, suff, matchAny, i + 1, if failed.None? then Some(i) else failed)
  }

  function Decide(outs: seq<Outcome<bool>>, suff: seq<bool>, matchAny: bool): Decision
    requires |outs| == |suff|
  {
    DecideFrom(outs, suff, matchAny, 0, None)
  }

  /** Rule `i` lets the loop go on to the next rule. */
  predicate Continues(out: Outcome<bool>, suff: bool, matchAny: bool)
  {
    (out == Ok(true) && !matchAny && !suff) || (out == Ok(false) && matchAny)
  }

  /**
   * One step of the decision: rule `i` either ends it with its own outcome or
   * lets it go on; a failure is recorded if it is the first.
   */
  lemma DecideNext(outs: seq<Outcome<bool>>, suff: seq<bool>, matchAny: bool, i: nat, failed: Option<nat>)
    requires |outs| == |suff| && i < |outs|
    requires failed.Some? ==> failed.value < i
    requires !matchAny ==> failed.None?
    ensures var next := if outs[i] == Ok(false) && failed.None? then Some(i) else failed;
      DecideFrom(outs, suff, matchAny, i, failed)
        == if Continues(outs[i], suff[i], matchAny) then DecideFrom(outs, suff, matchAny, i + 1, next)
           else Decision(outs[i], next, i + 1)
  {
  }

  /** The first failure among the rules before `k`. */
  function FirstFailure(outs: seq<Outcome<bool>>, k: nat): (f: Option<nat>)
    requires k <= |outs|
    ensures f.Some? ==> f.value < k
  {
    if k == 0 then None
    else if FirstFailure(outs, k - 1).Some? then FirstFailure(outs, k - 1)
    else if outs[k - 1] == Ok(false) then Some(k - 1)
    else None
  }

  /** Rules that let the loop continue are skipped over, collecting their first failure. */
  lemma {:induction false} DecideSkips(outs: seq<Outcome<bool>>, suff: seq<bool>, matchAny: bool, k: nat)
    requires |outs| == |suff| && k <= |outs|
    requires forall j :: 0 <= j < k ==> Continues(outs[j], suff[j], matchAny)
    ensures Decide(outs, suff, matchAny) == DecideFrom(outs, suff, matchAny, k, FirstFailure(outs, k))
  {
    if k > 0 {
      DecideSkips(outs, suff, matchAny, k - 1);
    }
  }

  /** Without matchAny the first failing rule ends the run: it is recorded and no later rule runs. */
  lemma FirstFailureStops(outs: seq<Outcome<bool>>, suff: seq<bool>, k: nat)
    requires |outs| == |suff| && k < |outs|
    requires forall j :: 0 <= j < k ==> outs[j] == Ok(true) && !suff[j]
    requires outs[k] == Ok(false)
    ensures Decide(outs, suff, false) == Decision(Ok(false), Some(k), k + 1)
  {
    DecideSkips(outs, suff, false, k);
  }

  /** A passing rule ends the run with true under matchAny or when it is sufficient. */
  lemma PassStops(outs: seq<Outcome<bool>>, suff: seq<bool>, matchAny: bool, k: nat)
    requires |outs| == |suff| && k < |outs|
    requires forall j :: 0 <= j < k ==> Continues(outs[j], suff[j], matchAny)
    requires outs[k] == Ok(true) && (matchAny || suff[k])
    ensures Decide(outs, suff, matchAny).result == Ok(true)
    ensures Decide(outs, suff, matchAny).ran == k + 1
  {
    DecideSkips(outs, suff, matchAny, k);
  }

  /** Without matchAny, rules that all pass give true after running every rule. */
  lemma AllPass(outs: seq<Outcome<bool>>, suff: seq<bool>)
    requires |outs| == |suff|
    requires forall j :: 0 <= j < |outs| ==> outs[j] == Ok(true)
    ensures Decide(outs, suff, false).result == Ok(true)
    ensures Decide(outs, suff, false).failed.None?
  {
    var k := 0;
    while k < |outs| && !suff[k]
      invariant 0 <= k <= |outs|
      invariant forall j :: 0 <= j < k ==> !suff[j]
    {
      k := k + 1;
    }
    DecideSkips(outs, suff, false, k);
    NoFailureBefore(outs, k);
  }

  lemma {:induction false} NoFailureBefore(outs: seq<Outcome<bool>>, k: nat)
    requires k <= |outs|
    requires forall j :: 0 <= j < k ==> outs[j] != Ok(false)
    ensures FirstFailure(outs, k).None?
  {
    if k > 0 {
      NoFailureBefore(outs, k - 1);
    }
  }

  lemma {:induction false} FirstFailureIsFirst(outs: seq<Outcome<bool>>, k: nat)
    requires k <= |outs|
    ensures FirstFailure(outs, k).Some? ==>
      var f := FirstFailure(outs, k).value;
      f < k && outs[f] == Ok(false) && forall j :: 0 <= j < f ==> outs[j] != Ok(false)
    ensures FirstFailure(outs, k).None? ==> forall j :: 0 <= j < k ==> outs[j] != Ok(false)
  {
    if k > 0 {
      FirstFailureIsFirst(outs, k - 1);
    }
  }

  /**
   * matchAny with rules that all return: false exactly when there is at
   * least one rule and none passes; the first failure is the one recorded.
   * With no rules at all the result is true.
   */
  lemma MatchAnyResult(outs: seq<Outcome<bool>>, suff: seq<bool>)
    requires |outs| == |suff|
    requires forall j :: 0 <= j < |outs| ==> outs[j].Ok?
    ensures Decide(outs, suff, true).result == Ok(false)
      <==> |outs| > 0 && forall j :: 0 <= j < |outs| ==> outs[j] == Ok(false)
    ensures Decide(outs, suff, true).result == Ok(false) ==> Decide(outs, suff, true).failed == Some(0)
    ensures Decide(outs, suff, true).result.Ok?
  {
    var k := 0;
    while k < |outs| && outs[k] == Ok(false)
      invariant 0 <= k <= |outs|
      invariant forall j :: 0 <= j < k ==> outs[j] == Ok(false)
    {
      k := k + 1;
    }
    DecideSkips(outs, suff, true, k);
    if k < |outs| {
      assert outs[k] == Ok(true);
    } else if k > 0 {
      FirstFailureIsFirst(outs, k);
      assert outs[0] == Ok(false);
    }
  }

  lemma NoRules(matchAny: bool)
    ensures Decide([], [], matchAny) == Decision(Ok(true), None, 0)
  {
  }

  /** What each rule's check returns, in order, given which rules are lazy. */
  function Answers(rules: OMap<Rule>, lazies: seq<bool>, input: string): (outs: seq<Outcome<bool>>)
    requires |lazies| == |rules|
    ensures |outs| == |rules|
  {
    if rules == [] then []
    else [rules[0].1.Answer(lazies[0], input)] + Answers(rules[1..], lazies[1..], input)
  }

  function SufficientAll(rules: OMap<Rule>): (suff: seq<bool>)
    ensures |suff| == |rules|
  {
    if rules == [] then [] else [rules[0].1.sufficient] + SufficientAll(rules[1..])
  }

  /** The rules' `lazy` flags. */
  function LazyAll(rules: OMap<Rule>): (flags: seq<bool>)
    reads set i | 0 <= i < |rules| :: rules[i].1
    ensures |flags| == |rules|
  {
    if rules == [] then [] else [rules[0].1.lazy] + LazyAll(rules[1..])
  }

  /** The rules' last values. */
  function LastAll(rules: OMap<Rule>): (values: seq<Option<string>>)
    reads set i | 0 <= i < |rules| :: rules[i].1
    ensures |values| == |rules|
  {
    if rules == [] then [] else [rules[0].1.lastValue] + LastAll(rules[1..])
  }

  // The per-rule facts about these sequences, one index at a time.

  lemma {:induction false} AnswerAt(rules: OMap<Rule>, lazies: seq<bool>, input: string, i: nat)
    requires |lazies| == |rules| && i < |rules|
    ensures Answers(rules, lazies, input)[i] == rules[i].1.Answer(lazies[i], input)
  {
    if i > 0 {
      AnswerAt(rules[1..], lazies[1..], input, i - 1);
    }
  }

  lemma {:induction false} SufficientAt(rules: OMap<Rule>, i: nat)
    requires i < |rules|
    ensures SufficientAll(rules)[i] == rules[i].1.sufficient
  {
    if i > 0 {
      SufficientAt(rules[1..], i - 1);
    }
  }

  lemma {:induction false} StateAt(rules: OMap<Rule>, i: nat)
    requires i < |rules|
    ensures LazyAll(rules)[i] == rules[i].1.lazy && LastAll(rules)[i] == rules[i].1.lastValue
  {
    if i > 0 {
      StateAt(rules[1..], i - 1);
    }
  }

  // ---------------------------------------------------------------------
  // Dependencies

  /** The 64-bit bounds of PHP's integers. */
  const IntMax: nat := 0x7FFF_FFFF_FFFF_FFFF
  const IntMinMagnitude: nat := 0x8000_0000_0000_0000

  /**
   * A decimal integer string within PHP's 64-bit range, which PHP turns
   * into an integer array key; a longer numeral stays a string key.
   */
  predicate IsIntKey(k: string)
  {
    k == "0"
    || (|k| > 0 && '1' <= k[0] <= '9' && ParseNat(k).Some? && ParseNat(k).value <= IntMax)
    || (|k| > 1 && k[0] == '-' && '1' <= k[1] <= '9' && ParseNat(k[1..]).Some?
        && ParseNat(k[1..]).value <= IntMinMagnitude)
  }

  function Pow10(n: nat): (p: nat)
    ensures p > 0
  {
    if n == 0 then 1 else 10 * Pow10(n - 1)
  }

  lemma {:induction false} Pow10Grows(m: nat, n: nat)
    requires m <= n
    ensures Pow10(m) <= Pow10(n)
    decreases n
  {
    if m < n {
      Pow10Grows(m, n - 1);
    }
  }

  lemma {:induction false} Pow10Add(m: nat, n: nat)
    ensures Pow10(m + n) == Pow10(m) * Pow10(n)
    decreases n
  {
    if n > 0 {
      Pow10Add(m, n - 1);
    }
  }

  /** 10^18 lies below PHP_INT_MAX and 10^19 above it. */
  lemma Pow10Around()
    ensures Pow10(18) < IntMax < Pow10(19)
  {
    assert Pow10(2) == 100;
    Pow10Add(2, 2);
    Pow10Add(4, 4);
    Pow10Add(8, 8);
    Pow10Add(16, 2);
    Pow10Add(18, 1);
  }

  /** A numeral of n digits is below 10^n, and at least 10^(n-1) when it does not start with '0'. */
  lemma {:induction false} NumeralMagnitude(s: string)
    requires ParseNat(s).Some?
    ensures ParseNat(s).value < Pow10(|s|)
    ensures '1' <= s[0] <= '9' ==> Pow10(|s| - 1) <= ParseNat(s).value
    decreases |s|
  {
    if |s| > 1 {
      var front := s[..|s| - 1];
      assert forall i :: 0 <= i < |front| ==> front[i] == s[i];
      NumeralMagnitude(front);
    }
  }

  /**
   * Which numerals become integer keys: every one of up to 18 digits,
   * none of 20 digits or more; with a minus sign in front, exactly those
   * whose magnitude reaches no further than PHP_INT_MIN's.
   */
  lemma IntKeyLengths(k: string)
    requires |k| > 0 && '1' <= k[0] <= '9' && ParseNat(k).Some?
    ensures |k| <= 18 ==> IsIntKey(k)
    ensures |k| >= 20 ==> !IsIntKey(k)
    ensures IsIntKey("-" + k) <==> ParseNat(k).value <= IntMinMagnitude
  {
    NumeralMagnitude(k);
    Pow10Around();
    if |k| <= 18 {
      Pow10Grows(|k|, 18);
    }
    if |k| >= 20 {
      Pow10Grows(19, |k| - 1);
    }
    assert ("-" + k)[1..] == k;
  }

  /**
   * A `dependent` key other than '*' fires when it is strictly equal to the
   * input; an integer key never is, since the input is a string.
   */
  predicate ExactFires(key: string, input: string)
  {
    key != "*" && !IsIntKey(key) && key == input
  }

  function ExactTargets(dependent: OMap<seq<string>>, input: string): set<string>
  {
    if dependent == [] then {}
    else
      var last := dependent[|dependent| - 1];
      ExactTargets(dependent[..|dependent| - 1], input)
        + (if ExactFires(last.0, input) then set n | n in last.1 else {})
  }

  predicate ExactFound(dependent: OMap<seq<string>>, input: string)
  {
    exists i :: 0 <= i < |dependent| && ExactFires(dependent[i].0, input)
  }

  function RegexTargets(dependentRegex: OMap<seq<string>>, input: string, natives: Natives): set<string>
  {
    if dependentRegex == [] then {}
    else
      var last := dependentRegex[|dependentRegex| - 1];
      RegexTargets(dependentRegex[..|dependentRegex| - 1], input, natives)
        + (if natives.pregMatch(last.0, input) then set n | n in last.1 else {})
  }

  /** The targets of the '*' entry: only for a truthy input that no exact key matched. */
  function StarTargets(dependent: OMap<seq<string>>, input: string): set<string>
  {
    if Truthy(input) && !ExactFound(dependent, input) && Get(dependent, "*").Some? then
      set n | n in Get(dependent, "*").value
    else {}
  }

  /** Everything determineDependents marks required for `input`. */
  function DependentsOf(dependent: OMap<seq<string>>, dependentRegex: OMap<seq<string>>, input: string, natives: Natives)
    : set<string>
  {
    ExactTargets(dependent, input) + StarTargets(dependent, input) + RegexTargets(dependentRegex, input, natives)
  }

  lemma {:induction false} ExactTargetsSpec(dependent: OMap<seq<string>>, input: string, n: string)
    ensures n in ExactTargets(dependent, input)
      <==> exists i :: 0 <= i < |dependent| && ExactFires(dependent[i].0, input) && n in dependent[i].1
  {
    if dependent != [] {
      var front := dependent[..|dependent| - 1];
      ExactTargetsSpec(front, input, n);
      assert forall i :: 0 <= i < |front| ==> front[i] == dependent[i];
    }
  }

  lemma {:induction false} RegexTargetsSpec(dependentRegex: OMap<seq<string>>, input: string, natives: Natives, n: string)
    ensures n in RegexTargets(dependentRegex, input, natives)
      <==> exists i :: 0 <= i < |dependentRegex| && natives.pregMatch(dependentRegex[i].0, input) && n in dependentRegex[i].1
  {
    if dependentRegex != [] {
      var front := dependentRegex[..|dependentRegex| - 1];
      RegexTargetsSpec(front, input, natives, n);
      assert forall i :: 0 <= i < |front| ==> front[i] == dependentRegex[i];
    }
  }

  /**
   * An exact match suppresses the '*' entry, an empty or "0" input never
   * reaches it, and regex entries apply either way.
   */
  lemma StarOnlyAsFallback(dependent: OMap<seq<string>>, dependentRegex: OMap<seq<string>>, input: string, natives: Natives)
    ensures ExactFound(dependent, input) || !Truthy(input) ==>
      DependentsOf(dependent, dependentRegex, input, natives)
        == ExactTargets(dependent, input) + RegexTargets(dependentRegex, input, natives)
    ensures RegexTargets(dependentRegex, input, natives) <= DependentsOf(dependent, dependentRegex, input, natives)
  {
  }

  /** A numeral key is never matched exactly, so a numeral input only reaches '*' and the regexes. */
  lemma {:induction false} IntKeysNeverMatch(dependent: OMap<seq<string>>, input: string)
    requires IsIntKey(input)
    ensures ExactTargets(dependent, input) == {}
    ensures !ExactFound(dependent, input)
  {
    if dependent != [] {
      IntKeysNeverMatch(dependent[..|dependent| - 1], input);
    }
  }

  // ---------------------------------------------------------------------
  // The attribute

  class Attribute {
    const name: string
    /** The owning profile's templates, catalogs and library routines. */
    const config: Config
    /** preFilters and postFilters. */
    const filters: FilterChains
    const matchAny: bool
    const default: Option<string>
    const missing: string
    /** getDefaultErrorStr(). */
    const defaultError: string
    const dependent: OMap<seq<string>>
    const dependentRegex: OMap<seq<string>>
    var required: bool
    var noFilters: bool
    var rules: OMap<Rule>
    var failedRule: Option<Rule>
    var lastValue: Option<string>

    /** A PHP array of rule objects, each made for this attribute. */
    ghost predicate Valid()
      reads this`rules
    {
      UniqueKeys(rules) && DistinctValues(rules)
    }

    ghost function RuleObjects(): set<Rule>
      reads this`rules
    {
      set i | 0 <= i < |rules| :: rules[i].1
    }

    constructor (name: string, config: Config, f: Settings, rules: OMap<Rule>, filters: FilterChains)
      ensures this.name == name && this.config == config && this.filters == filters && this.rules == rules
      ensures required == f.required && matchAny == f.matchAny && default == f.default
      ensures missing == f.missing && defaultError == f.error
      ensures dependent == f.dependent && dependentRegex == f.dependentRegex
      ensures !noFilters && failedRule.None? && lastValue.None?
    {
      this.name := name;
      this.config := config;
      this.filters := filters;
      this.rules := rules;
      required := f.required;
      matchAny := f.matchAny;
      default := f.default;
      missing := f.missing;
      defaultError := f.error;
      dependent := f.dependent;
      dependentRegex := f.dependentRegex;
      noFilters := false;
      failedRule := None;
      lastValue := None;
    }

    /**
     * check($input): records the input, then runs the rules as Decide
     * describes; a failure it records replaces failedRule, which is otherwise
     * kept from earlier checks. Each rule that ran went through its own
     * check; the others are untouched.
     */
    method Check(input: string) returns (r: Outcome<bool>)
      requires Valid()
      modifies this`lastValue, this`failedRule, RuleObjects()
      ensures lastValue == Some(input)
      ensures var d := Decide(Answers(rules, old(LazyAll(rules)), input), SufficientAll(rules), matchAny);
        r == d.result
        && failedRule == (if d.failed.Some? then Some(rules[d.failed.value].1) else old(failedRule))
        && forall j :: 0 <= j < |rules| ==>
          if j < d.ran then
            !rules[j].1.lazy
            && rules[j].1.lastValue == (if old(rules[j].1.lazy) then old(rules[j].1.lastValue) else Some(input))
          else
            rules[j].1.lazy == old(rules[j].1.lazy) && rules[j].1.lastValue == old(rules[j].1.lastValue)
      ensures old(failedRule).Some? ==> failedRule.Some?
    {
      ghost var lazy0, last0 := LazyAll(rules), LastAll(rules);
      forall j | 0 <= j < |rules| ensures lazy0[j] == rules[j].1.lazy && last0[j] == rules[j].1.lastValue {
        StateAt(rules, j);
      }
      lastValue := Some(input);
      r := RunRules(input, lazy0, last0);
    }

    /** check()'s loop over the rules, from the rules' `lazy` flags and last values on entry. */
    method RunRules(input: string, ghost lazy0: seq<bool>, ghost last0: seq<Option<string>>) returns (r: Outcome<bool>)
      requires Valid() && |lazy0| == |rules| == |last0|
      requires forall j :: 0 <= j < |rules| ==> rules[j].1.lazy == lazy0[j] && rules[j].1.lastValue == last0[j]
      modifies this`failedRule, RuleObjects()
      ensures var d := Decide(Answers(rules, lazy0, input), SufficientAll(rules), matchAny);
        r == d.result
        && failedRule == (if d.failed.Some? then Some(rules[d.failed.value].1) else old(failedRule))
        && (forall j :: 0 <= j < |rules| ==> rules[j].1.lazy == (d.ran <= j && lazy0[j]))
        && forall j :: 0 <= j < |rules| ==>
          rules[j].1.lastValue == (if j < d.ran && !lazy0[j] then Some(input) else last0[j])
    {
      var rs := rules;
      ghost var outs := Answers(rs, lazy0, input);
      ghost var suff := SufficientAll(rs);
      ghost var failed: Option<nat> := None;
      var anyFailed := false;
      var i := 0;
      while i < |rs|
        invariant rules == rs
        invariant 0 <= i <= |rs|
        invariant failed.Some? ==> failed.value < i
        invariant DecideFrom(outs, suff, matchAny, i, failed) == Decide(outs, suff, matchAny)
        invariant !matchAny ==> failed.None?
        invariant anyFailed <==> failed.Some?
        invariant failedRule == (if failed.Some? then Some(rs[failed.value].1) else old(failedRule))
        invariant forall j :: 0 <= j < |rs| ==> rs[j].1.lazy == (i <= j && lazy0[j])
        invariant forall j :: 0 <= j < |rs| ==>
          rs[j].1.lastValue == (if j < i && !lazy0[j] then Some(input) else last0[j])
      {
        AnswerAt(rs, lazy0, input, i);
        SufficientAt(rs, i);
        assert rs[i].1 in RuleObjects();
        var stop;
        ghost var next;
        stop, r, anyFailed, next := Step(i, input, lazy0, last0, anyFailed, failed, old(failedRule));
        DecideNext(outs, suff, matchAny, i, failed);
        if stop {
          failed := next;
          return;
        }
        failed := next;
        i := i + 1;
      }
      r := Ok(!anyFailed);
    }

    /** One turn of check()'s loop: rule `i` runs and its answer is judged. */
    method Step(i: nat, input: string, ghost lazy0: seq<bool>, ghost last0: seq<Option<string>>,
                anyFailed: bool, ghost failed: Option<nat>, ghost before: Option<Rule>)
      returns (stop: bool, r: Outcome<bool>, nowFailed: bool, ghost next: Option<nat>)
      requires Valid() && i < |rules| == |lazy0| == |last0|
      requires !matchAny ==> failed.None?
      requires failed.Some? ==> failed.value < i
      requires anyFailed <==> failed.Some?
      requires failedRule == (if failed.Some? then Some(rules[failed.value].1) else before)
      requires forall j :: 0 <= j < |rules| ==> rules[j].1.lazy == (i <= j && lazy0[j])
      requires forall j :: 0 <= j < |rules| ==>
        rules[j].1.lastValue == (if j < i && !lazy0[j] then Some(input) else last0[j])
      modifies this`failedRule, rules[i].1
      ensures var res := rules[i].1.Answer(lazy0[i], input);
        && (stop <==> !Continues(res, rules[i].1.sufficient, matchAny))
        && (stop ==> r == res)
        && next == (if res == Ok(false) && failed.None? then Some(i) else failed)
      ensures nowFailed <==> next.Some?
      ensures failedRule == (if next.Some? then Some(rules[next.value].1) else before)
      ensures forall j :: 0 <= j < |rules| ==> rules[j].1.lazy == (i + 1 <= j && lazy0[j])
      ensures forall j :: 0 <= j < |rules| ==>
        rules[j].1.lastValue == (if j < i + 1 && !lazy0[j] then Some(input) else last0[j])
    {
      var rule := rules[i].1;
      var res := RunRule(rule, i, input, lazy0, last0);
      stop, r, nowFailed := Judge(rule, res, anyFailed);
      next := if res == Ok(false) && failed.None? then Some(i) else failed;
    }

    method RunRule(rule: Rule, i: nat, input: string, ghost lazy0: seq<bool>, ghost last0: seq<Option<string>>)
      returns (res: Outcome<bool>)
      requires Valid() && i < |rules| == |lazy0| == |last0| && rule == rules[i].1
      requires forall j :: 0 <= j < |rules| ==> rules[j].1.lazy == (i <= j && lazy0[j])
      requires forall j :: 0 <= j < |rules| ==>
        rules[j].1.lastValue == (if j < i && !lazy0[j] then Some(input) else last0[j])
      modifies rule`lazy, rule`lastValue
      ensures res == rule.Answer(lazy0[i], input)
      ensures forall j :: 0 <= j < |rules| ==> rules[j].1.lazy == (i + 1 <= j && lazy0[j])
      ensures forall j :: 0 <= j < |rules| ==>
        rules[j].1.lastValue == (if j < i + 1 && !lazy0[j] then Some(input) else last0[j])
    {
      res := rule.Check(input);
      forall j | 0 <= j < |rules|
        ensures rules[j].1.lazy == (i + 1 <= j && lazy0[j])
        ensures rules[j].1.lastValue == (if j < i + 1 && !lazy0[j] then Some(input) else last0[j])
      {
        if j != i {
          assert rules[j].1 != rules[i].1;
        }
      }
    }

    /**
     * The body of check()'s loop after a rule ran: a rule that throws
     * propagates the exception; a pass ends the run under matchAny or when the
     * rule is sufficient; a failure ends it unless matchAny, which only
     * records the first failure and goes on.
     */
    method Judge(rule: Rule, res: Outcome<bool>, anyFailed: bool) returns (stop: bool, r: Outcome<bool>, nowFailed: bool)
      requires !matchAny ==> !anyFailed
      modifies this`failedRule
      ensures stop <==> !Continues(res, rule.sufficient, matchAny)
      ensures stop ==> r == res
      ensures nowFailed <==> anyFailed || res == Ok(false)
      ensures failedRule == if res == Ok(false) && !anyFailed then Some(rule) else old(failedRule)
    {
      stop, r, nowFailed := false, Ok(true), anyFailed;
      if res.Thrown? {
        return true, Thrown(res.error), nowFailed;
      }
      if res.value {
        if matchAny || rule.sufficient {
          return true, Ok(true), nowFailed;
        }
      } else if !matchAny {
        failedRule := Some(rule);
        return true, Ok(false), true;
      } else {
        if !anyFailed {
          failedRule := Some(rule);
        }
        nowFailed := true;
      }
    }

    /** The names marked required by a dependent list, one by one. */
    static method MarkAll(required: set<string>, names: seq<string>) returns (result: set<string>)
      ensures result == required + set n | n in names
    {
      result := required;
      var i := 0;
      while i < |names|
        invariant 0 <= i <= |names|
        invariant result == required + set n | n in names[..i]
      {
        assert names[..i + 1] == names[..i] + [names[i]];
        result := result + {names[i]};
        i := i + 1;
      }
      assert names[..i] == names;
    }

    /**
     * determineDependents($input, &$required): nothing while the attribute
     * has an error; otherwise records the input and adds the names its
     * exact, '*' and regex dependencies mark.
     */
    method DetermineDependents(input: string, required: set<string>) returns (result: set<string>)
      modifies this`lastValue
      ensures HasError() ==> result == required && lastValue == old(lastValue)
      ensures !HasError() ==>
        result == required + DependentsOf(dependent, dependentRegex, input, config.natives)
        && lastValue == Some(input)
    {
      if HasError() {
        return required;
      }
      lastValue := Some(input);
      var foundRequired;
      result, foundRequired := MarkExact(dependent, input, required);
      var star := Get(dependent, "*");
      if Truthy(input) && !foundRequired && star.Some? {
        result := MarkAll(result, star.value);
      }
      result := MarkRegex(dependentRegex, input, config.natives, result);
    }

    /** The loop over the exact dependencies: '*' is skipped, an integer-like key never matches. */
    static method MarkExact(dependent: OMap<seq<string>>, input: string, required: set<string>)
      returns (result: set<string>, foundRequired: bool)
      ensures result == required + ExactTargets(dependent, input)
      ensures foundRequired <==> ExactFound(dependent, input)
    {
      result := required;
      foundRequired := false;
      var i := 0;
      while i < |dependent|
        invariant 0 <= i <= |dependent|
        invariant result == required + ExactTargets(dependent[..i], input)
        invariant foundRequired <==> ExactFound(dependent[..i], input)
      {
        var (onInput, names) := dependent[i];
        assert dependent[..i + 1][..i] == dependent[..i];
        if onInput == "*" {
        } else if onInput == input && !IsIntKey(onInput) {
          foundRequired := true;
          result := MarkAll(result, names);
        }
        assert forall j :: 0 <= j < i ==> dependent[..i + 1][j] == dependent[..i][j];
        i := i + 1;
      }
      assert dependent[..i] == dependent;
    }

    /** The loop over the regex dependencies: every pattern the input matches marks its names. */
    static method MarkRegex(dependentRegex: OMap<seq<string>>, input: string, natives: Natives, required: set<string>)
      returns (result: set<string>)
      ensures result == required + RegexTargets(dependentRegex, input, natives)
    {
      result := required;
      var k := 0;
      while k < |dependentRegex|
        invariant 0 <= k <= |dependentRegex|
        invariant result == required + RegexTargets(dependentRegex[..k], input, natives)
      {
        var (onRegex, names) := dependentRegex[k];
        assert dependentRegex[..k + 1][..k] == dependentRegex[..k];
        if natives.pregMatch(onRegex, input) {
          result := MarkAll(result, names);
        }
        k := k + 1;
      }
      assert dependentRegex[..k] == dependentRegex;
    }

    predicate HasError()
      reads this`failedRule
    {
      failedRule.Some?
    }

    /** getError(): none without a failed rule; otherwise that rule's error for this attribute. */
    function GetError(): (r: Option<string>)
      reads this`failedRule
      ensures r.Some? ==> HasError()
      ensures HasError() ==> (r.None? <==> failedRule.value.error.Suppressed?)
    {
      if failedRule.None? then None
      else failedRule.value.ErrorFor(name, defaultError, config.errorTemplate)
    }

    /** getMissingText(): the own template if truthy, else the profile's, with `:attrib:` filled in. */
    function GetMissingText(): string
    {
      FormatString(if Truthy(missing) then missing else config.missingTemplate, [("attrib", name)])
    }

    predicate UseFilters()
      reads this`noFilters
    {
      !noFilters
    }

    /** reset(): the only way to clear a recorded failure. */
    method Reset()
      modifies this`failedRule
      ensures !HasError()
    {
      failedRule := None;
    }

    method SetRequired(required: bool)
      modifies this`required
      ensures this.required == required
    {
      this.required := required;
    }

    method SetNoFilters(noFilters: bool)
      modifies this`noFilters
      ensures this.noFilters == noFilters
    {
      this.noFilters := noFilters;
    }

    /** setRule($ruleName, $definition): a new rule replaces one of the same name in place, or is appended. */
    method SetRule(ruleName: string, def: RuleDef) returns (r: Outcome<()>)
      requires Valid()
      modifies this`rules
      ensures Valid()
      ensures r.Thrown? ==> rules == old(rules) && ParseDefinition(def, config.ruleCatalogs) == Thrown(r.error)
      ensures r.Ok? <==> IsLazy(def) || ParseDefinition(def, config.ruleCatalogs).Ok?
      ensures r.Ok? ==> exists rule: Rule :: (fresh(rule) && BuiltFrom(rule, ruleName, def, config.ruleCatalogs)
        && rules == Put(old(rules), ruleName, rule))
    {
      var made := NewRule(ruleName, def, config.ruleCatalogs);
      if made.Thrown? {
        return Thrown(made.error);
      }
      PutUnique(rules, ruleName, made.value);
      PutDistinct(rules, ruleName, made.value);
      rules := Put(rules, ruleName, made.value);
      r := Ok(());
    }

    /** removeRule($ruleName). */
    method RemoveRule(ruleName: string)
      requires Valid()
      modifies this`rules
      ensures Valid()
      ensures rules == Remove(old(rules), ruleName)
      ensures !HasKey(rules, ruleName)
    {
      RemoveDistinct(rules, ruleName);
      RemoveUnique(rules, ruleName);
      RemoveKeys(rules, ruleName, ruleName);
      rules := Remove(rules, ruleName);
    }
  }

  /**
   * What the constructor makes of a definition: the normalised settings with
   * no failure and no last value, one rule built per rule definition in
   * order, and the resolved pre- and post-filter chains.
   */
  ghost predicate BuiltAttribute(a: Attribute, name: string, def: AttribDef, config: Config)
    reads a, a.filters, a.RuleObjects()
  {
    var f := Normalize(def);
    a.Valid()
    && a.name == name && a.config == config
    && a.required == f.required && a.matchAny == f.matchAny && a.default == f.default
    && a.missing == f.missing && a.defaultError == f.error
    && a.dependent == f.dependent && a.dependentRegex == f.dependentRegex
    && !a.noFilters && a.failedRule.None? && a.lastValue.None?
    && Keys(a.rules) == Keys(f.rules)
    && (forall i :: 0 <= i < |a.rules| ==>
          BuiltFrom(a.rules[i].1, f.rules[i].0, f.rules[i].1, config.ruleCatalogs))
    && a.filters.owner == AttributeOwner(name) && a.filters.config == config
    && a.filters.pre == ResolveAll(AsList(f.preFilters, config.natives), AttributeOwner(name), config.filterCatalogs).filters
    && a.filters.post == ResolveAll(AsList(f.postFilters, config.natives), AttributeOwner(name), config.filterCatalogs).filters
  }

  /**
   * The Attribute constructor: rules are made in order, then the pre- and
   * post-filters are added; the first exception aborts construction.
   */
  method NewAttribute(name: string, def: AttribDef, config: Config) returns (r: Outcome<Attribute>)
    requires UniqueKeys(Normalize(def).rules)
    ensures var f := Normalize(def);
      r.Thrown? <==> BuildError(f, name, config).Some?
    ensures r.Thrown? ==> r.error == BuildError(Normalize(def), name, config).value
    ensures r.Ok? ==>
      fresh(r.value) && fresh(r.value.filters)
      && (forall i :: 0 <= i < |r.value.rules| ==> fresh(r.value.rules[i].1))
      && BuiltAttribute(r.value, name, def, config)
  {
    var f := Normalize(def);
    var made := BuildRules(f.rules, config.ruleCatalogs);
    if made.Thrown? {
      return Thrown(made.error);
    }
    var built := made.value;
    var chains := NewChains(name, f, config);
    if chains.Thrown? {
      return Thrown(chains.error);
    }
    var a := new Attribute(name, config, f, built, chains.value);
    r := Ok(a);
  }

  /** The constructor's addFilters('pre', …) and addFilters('post', …) on fresh chains; the first exception ends it. */
  method NewChains(name: string, f: Settings, config: Config) returns (r: Outcome<FilterChains>)
    ensures var pre := ResolveAll(AsList(f.preFilters, config.natives), AttributeOwner(name), config.filterCatalogs);
      var post := ResolveAll(AsList(f.postFilters, config.natives), AttributeOwner(name), config.filterCatalogs);
      (r.Thrown? <==> pre.outcome.Thrown? || post.outcome.Thrown?)
      && (r.Thrown? ==> r.error == if pre.outcome.Thrown? then pre.outcome.error else post.outcome.error)
      && (r.Ok? ==> fresh(r.value) && r.value.owner == AttributeOwner(name) && r.value.config == config
                    && r.value.pre == pre.filters && r.value.post == post.filters)
  {
    var chains := new FilterChains(AttributeOwner(name), config);
    var pre := chains.AddFilters("pre", f.preFilters);
    if pre.Thrown? {
      return Thrown(pre.error);
    }
    var post := chains.AddFilters("post", f.postFilters);
    if post.Thrown? {
      return Thrown(post.error);
    }
    r := Ok(chains);
  }

  /** The constructor's loop over the rule definitions: each rule is made in order; the first exception ends it. */
  method BuildRules(defs: OMap<RuleDef>, catalogs: seq<RuleCatalog>) returns (r: Outcome<OMap<Rule>>)
    ensures r.Thrown? <==> RulesError(defs, catalogs).Some?
    ensures r.Thrown? ==> r.error == RulesError(defs, catalogs).value
    ensures r.Ok? ==>
      Keys(r.value) == Keys(defs)
      && (forall i :: 0 <= i < |r.value| ==>
            fresh(r.value[i].1) && BuiltFrom(r.value[i].1, defs[i].0, defs[i].1, catalogs))
      && forall i, j :: 0 <= i < j < |r.value| ==> r.value[i].1 != r.value[j].1
  {
    var built: OMap<Rule> := [];
    var i := 0;
    while i < |defs|
      invariant 0 <= i <= |defs|
      invariant |built| == i
      invariant forall j :: 0 <= j < i ==> built[j].0 == defs[j].0
      invariant forall j :: 0 <= j < i ==>
        fresh(built[j].1) && BuiltFrom(built[j].1, defs[j].0, defs[j].1, catalogs)
      invariant forall j, k :: 0 <= j < k < i ==> built[j].1 != built[k].1
      invariant RulesError(defs, catalogs) == RulesError(defs[i..], catalogs)
    {
      assert defs[i..][1..] == defs[i + 1..];
      var made := NewRule(defs[i].0, defs[i].1, catalogs);
      if made.Thrown? {
        return Thrown(made.error);
      }
      built := built + [(defs[i].0, made.value)];
      i := i + 1;
    }
    assert Keys(built) == Keys(defs);
    r := Ok(built);
  }

  /** The missing text with the default template names the attribute. */
  lemma DefaultMissingText(a: Attribute)
    requires !Truthy(a.missing) && a.config.missingTemplate == DefaultMissingTemplate && ':' !in a.name
    ensures a.GetMissingText() == "Attribute \"" + a.name + "\" is missing"
  {
    assert DefaultMissingTemplate == "Attribute \"" + Placeholder("attrib") + "\" is missing";
    FormatSingle("Attribute \"", "attrib", "\" is missing", a.name);
  }
}
