// src/DataFilter/Result.php: the outcome of validating one input against a
// profile. check() clears the four buckets and fills them in two loops,
// calling each attribute's check and determineDependents on the way; it is
// proved against Classify. The accessors are projections and unions of the
// buckets.
module Results {
  import opened Common
  import opened Util
  import opened OrderedMap
  import opened Config
  import opened Filterable
  import opened Rules
  import opened Attributes
  import opened Classification

  // ---------------------------------------------------------------------
  // The attribute table as check() reads it

  ghost function Attribs(table: OMap<Attribute>): set<Attribute>
  {
    set i | 0 <= i < |table| :: table[i].1
  }

  ghost function ChainsOf(table: OMap<Attribute>): set<FilterChains>
  {
    set i | 0 <= i < |table| :: table[i].1.filters
  }

  /** The rule objects of every attribute in the table: what their checks may change. */
  ghost function RulesOf(table: OMap<Attribute>): set<Rule>
    reads Attribs(table)`rules
  {
    set i, j | 0 <= i < |table| && 0 <= j < |table[i].1.rules| :: table[i].1.rules[j].1
  }

  /** What check() reads from an attribute besides its rules. */
  function ViewOf(a: Attribute): View
    reads a`noFilters, a`required, a.filters`pre, a.filters`post
  {
    View(a.UseFilters(), a.filters.pre, a.filters.post, a.default, a.required, a.GetMissingText())
  }

  /** The table as views, entry by entry. */
  function Views(table: OMap<Attribute>): (views: OMap<View>)
    reads Attribs(table)`noFilters, Attribs(table)`required, ChainsOf(table)`pre, ChainsOf(table)`post
    ensures |views| == |table|
    ensures forall i :: 0 <= i < |table| ==> views[i] == (table[i].0, ViewOf(table[i].1))
  {
    if table == [] then []
    else
      var n := |table|;
      assert Attribs(table[..n - 1]) <= Attribs(table) by {
        forall a | a in Attribs(table[..n - 1]) ensures a in Attribs(table) {
          var i :| 0 <= i < n - 1 && table[..n - 1][i].1 == a;
          assert table[i].1 == a;
        }
      }
      assert ChainsOf(table[..n - 1]) <= ChainsOf(table) by {
        forall c | c in ChainsOf(table[..n - 1]) ensures c in ChainsOf(table) {
          var i :| 0 <= i < n - 1 && table[..n - 1][i].1.filters == c;
          assert table[i].1.filters == c;
        }
      }
      Views(table[..n - 1]) + [(table[n - 1].0, ViewOf(table[n - 1].1))]
  }

  /** The views have the table's keys, and a declared name's view is its attribute's. */
  lemma ViewsGet(table: OMap<Attribute>, name: string)
    requires UniqueKeys(table)
    ensures Keys(Views(table)) == Keys(table)
    ensures UniqueKeys(Views(table))
    ensures Get(table, name).Some? ==> Get(Views(table), name) == Some(ViewOf(Get(table, name).value))
  {
    var views := Views(table);
    assert Keys(views) == Keys(table);
    GetSome(table, name);
    if Get(table, name).Some? {
      var i :| 0 <= i < |table| && table[i] == (name, Get(table, name).value);
      GetAt(table, i);
      GetAt(views, i);
    }
  }

  /** Nothing the views read changed, so neither did the views. */
  twostate lemma ViewsUnchanged(table: OMap<Attribute>)
    requires unchanged(Attribs(table)`noFilters, Attribs(table)`required, ChainsOf(table)`pre, ChainsOf(table)`post)
    ensures Views(table) == old(Views(table))
  {
  }

  /** The checks leave every attribute's rules alone, so each stays valid and their rule objects stay the same. */
  twostate lemma RulesKept(table: OMap<Attribute>)
    requires unchanged(Attribs(table)`rules)
    requires forall a :: a in Attribs(table) ==> old(a.Valid())
    ensures forall a :: a in Attribs(table) ==> a.Valid()
    ensures RulesOf(table) == old(RulesOf(table))
  {
  }

  // ---------------------------------------------------------------------
  // The verdicts the attributes' checks give

  /** No rule of the attribute is lazy: each rule's check is its constraint's verdict. */
  ghost predicate AttribEager(a: Attribute)
    reads a`rules, a.RuleObjects()`lazy
  {
    forall j :: 0 <= j < |a.rules| ==> !a.rules[j].1.lazy
  }

  /** No rule of any attribute of the table is lazy. */
  ghost predicate Eager(table: OMap<Attribute>)
    reads Attribs(table)`rules, RulesOf(table)`lazy
  {
    forall r :: r in RulesOf(table) ==> !r.lazy
  }

  /** The attributes of the table that have recorded a failing rule (hasError()). */
  ghost function Failing(table: OMap<Attribute>): set<Attribute>
    reads Attribs(table)`failedRule
  {
    set a | a in Attribs(table) && a.failedRule.Some?
  }

  /** How check() on `input` ends for an attribute none of whose rules is lazy. */
  ghost function DecisionOf(a: Attribute, input: string): Decision
    reads a`rules
  {
    Decide(Answers(a.rules, seq(|a.rules|, _ => false), input), SufficientAll(a.rules), a.matchAny)
  }

  /**
   * The verdict of an attribute none of whose rules is lazy on the checked
   * value: the exception a rule threw; the first failing rule's error when
   * the rules reject it; when they accept it, the names its dependencies
   * mark, unless the attribute has recorded a failure, now or before
   * (`hadError`), since determineDependents does nothing then.
   */
  ghost function Judge(a: Attribute, hadError: bool, checked: string): Verdict
    reads a`rules
  {
    var d := DecisionOf(a, checked);
    match d.result
    case Thrown(e) => Raised(e)
    case Ok(ok) =>
      if ok then
        Passed(if hadError || d.failed.Some? then {}
               else DependentsOf(a.dependent, a.dependentRegex, checked, a.config.natives))
      else Failed(a.rules[d.failed.value].1.ErrorFor(a.name, a.defaultError, a.config.errorTemplate))
  }

  /** The attribute that judges `path`, if one does, and the value it checks. */
  ghost function Judging(table: OMap<Attribute>, views: OMap<View>, pre: seq<Transform>, sep: string,
                         path: string, value: string): (j: Option<(Attribute, string)>)
    requires |sep| > 0
    ensures j.Some? ==> j.value.0 in Attribs(table)
    ensures Keys(views) == Keys(table) ==> (j.Some? <==> AttribFor(Keys(views), path, sep).Some?)
  {
    var name := AttribFor(Keys(views), path, sep);
    if name.None? then None
    else if (GetSome(table, name.value); Get(table, name.value).None?) then None
    else
      GetSome(table, name.value);
      GetSome(views, name.value);
      var a := Get(table, name.value).value;
      assert exists i :: 0 <= i < |table| && table[i] == (name.value, a);
      Some((a, CheckedValue(Get(views, name.value).value, pre, value)))
  }

  /**
   * The attributes with a recorded failure once the first `k` paths have
   * been judged, from the ones with a failure before: a check records one
   * whenever its decision has a failing rule, and none is ever cleared.
   */
  ghost function FailingAfter(table: OMap<Attribute>, views: OMap<View>, pre: seq<Transform>, sep: string,
                              flat: OMap<string>, k: nat, before: set<Attribute>): set<Attribute>
    requires |sep| > 0 && k <= |flat|
    reads Attribs(table)`rules
  {
    if k == 0 then before
    else FailingAfter(table, views, pre, sep, flat, k - 1, before) + Recorded(table, views, pre, sep, flat[k - 1].0, flat[k - 1].1)
  }

  /** The attribute that records a failure when it judges `path`: none, or the path's attribute. */
  ghost function Recorded(table: OMap<Attribute>, views: OMap<View>, pre: seq<Transform>, sep: string,
                          path: string, value: string): set<Attribute>
    requires |sep| > 0
    reads Attribs(table)`rules
  {
    var j := Judging(table, views, pre, sep, path, value);
    if j.Some? && DecisionOf(j.value.0, j.value.1).failed.Some? then {j.value.0} else {}
  }

  /**
   * The verdict on `path` is the one its attribute gives, given the
   * attributes that had recorded a failure before; a path no attribute
   * judges passes without marks.
   */
  ghost predicate TurnJudged(table: OMap<Attribute>, views: OMap<View>, pre: seq<Transform>, sep: string,
                             path: string, value: string, failing: set<Attribute>, v: Verdict)
    requires |sep| > 0
    reads Attribs(table)`rules
  {
    var j := Judging(table, views, pre, sep, path, value);
    if j.None? then v == Passed({})
    else v == Judge(j.value.0, j.value.0 in failing, j.value.1)
  }

  /**
   * Each verdict of `trace`, up to the first that threw, is the one the
   * path's attribute gives (JudgedAt), after the failures recorded by the
   * paths before it.
   */
  ghost predicate Judged(table: OMap<Attribute>, views: OMap<View>, pre: seq<Transform>, sep: string,
                         flat: OMap<string>, before: set<Attribute>, trace: seq<Verdict>)
    requires |sep| > 0 && |trace| <= |flat|
    reads Attribs(table)`rules
    decreases |trace|
  {
    trace == [] ||
    var n := |trace| - 1;
    Judged(table, views, pre, sep, flat, before, trace[..n])
    && (Quiet(trace[..n]) ==> JudgedAt(table, views, pre, sep, flat, before, n, trace[n]))
  }

  /** No verdict of `trace` threw. */
  predicate Quiet(trace: seq<Verdict>)
  {
    forall i :: 0 <= i < |trace| ==> !trace[i].Raised?
  }

  /**
   * What the first loop keeps while it sorts a table with no lazy rule:
   * still no lazy rule, the failures recorded so far, and a judged trace.
   */
  ghost predicate Tracked(table: OMap<Attribute>, views: OMap<View>, pre: seq<Transform>, sep: string,
                          flat: OMap<string>, before: set<Attribute>, trace: seq<Verdict>)
    requires |sep| > 0 && |trace| <= |flat|
    reads Attribs(table)`rules, RulesOf(table)`lazy, Attribs(table)`failedRule
  {
    Eager(table) && Failing(table) == FailingAfter(table, views, pre, sep, flat, |trace|, before)
    && Judged(table, views, pre, sep, flat, before, trace)
  }

  /** The verdict on path `k` is the one its attribute gives, after the failures of the paths before it. */
  ghost predicate JudgedAt(table: OMap<Attribute>, views: OMap<View>, pre: seq<Transform>, sep: string,
                           flat: OMap<string>, before: set<Attribute>, k: nat, v: Verdict)
    requires |sep| > 0 && k < |flat|
    reads Attribs(table)`rules
  {
    TurnJudged(table, views, pre, sep, flat[k].0, flat[k].1, FailingAfter(table, views, pre, sep, flat, k, before), v)
  }

  /** The attribute found at entry `i` is the one that judges the path, on its view's checked value. */
  lemma JudgingFound(table: OMap<Attribute>, views: OMap<View>, pre: seq<Transform>, sep: string,
                     path: string, value: string, i: nat)
    requires |sep| > 0 && UniqueKeys(table) && Keys(views) == Keys(table) && UniqueKeys(views)
    requires i < |table| && AttribFor(Keys(views), path, sep) == Some(table[i].0)
    ensures Get(views, table[i].0).Some?
    ensures Judging(table, views, pre, sep, path, value)
      == Some((table[i].1, CheckedValue(Get(views, table[i].0).value, pre, value)))
    ensures Eager(table) ==> AttribEager(table[i].1)
  {
    GetAt(table, i);
    GetSome(views, table[i].0);
    InTable(table, i);
    if Eager(table) {
      forall j | 0 <= j < |table[i].1.rules| ensures !table[i].1.rules[j].1.lazy {
        assert table[i].1.rules[j].1 in table[i].1.RuleObjects();
      }
    }
  }

  /** The first pass over one more path: file it, mark what it marks, and stop if it throws. */
  lemma FirstPassTurn(flat: OMap<string>, views: OMap<View>, pre: seq<Transform>, post: seq<Transform>, sep: string,
                      trace: seq<Verdict>, v: Verdict, buckets: Buckets, required: set<string>)
    requires |sep| > 0 && |trace| < |flat|
    requires FirstPass(flat[..|trace|], views, pre, post, sep, trace) == Pass(buckets, required, Ok(()))
    ensures var path, value := flat[|trace|].0, flat[|trace|].1;
      FirstPass(flat[..|trace| + 1], views, pre, post, sep, trace + [v])
      == Pass(File(buckets, path, PathEntry(views, pre, post, sep, path, value, v)),
              if AttribFor(Keys(views), path, sep).Some? && v.Passed? then required + v.marks else required,
              if Raises(views, sep, path, v) then Thrown(v.exception) else Ok(()))
  {
    FirstPassNext(flat, views, pre, post, sep, trace, v, |trace|);
    SortPathParts(Pass(buckets, required, Ok(())), views, pre, post, sep, flat[|trace|].0, flat[|trace|].1, v);
  }

  /**
   * One more turn, on values: with `failing` the failures after the paths
   * of `trace`, a verdict that is the attribute's own extends the judged
   * trace, and the path's attribute joins the failing ones if it records a
   * failure.
   */
  lemma JudgedNext(table: OMap<Attribute>, views: OMap<View>, pre: seq<Transform>, sep: string,
                   flat: OMap<string>, before: set<Attribute>, trace: seq<Verdict>, v: Verdict, failing: set<Attribute>)
    requires |sep| > 0 && |trace| < |flat|
    requires failing == FailingAfter(table, views, pre, sep, flat, |trace|, before)
    requires Judged(table, views, pre, sep, flat, before, trace)
    requires TurnJudged(table, views, pre, sep, flat[|trace|].0, flat[|trace|].1, failing, v)
    ensures FailingAfter(table, views, pre, sep, flat, |trace| + 1, before)
      == failing + Recorded(table, views, pre, sep, flat[|trace|].0, flat[|trace|].1)
    ensures Judged(table, views, pre, sep, flat, before, trace + [v])
  {
    assert (trace + [v])[..|trace|] == trace;
  }

  /** Padding a trace that threw keeps it judged: nothing after the throw is read. */
  lemma {:induction false} JudgedPadded(table: OMap<Attribute>, views: OMap<View>, pre: seq<Transform>, sep: string,
                                        flat: OMap<string>, before: set<Attribute>, trace: seq<Verdict>, n: nat)
    requires |sep| > 0 && |trace| <= n <= |flat| && !Quiet(trace)
    requires Judged(table, views, pre, sep, flat, before, trace)
    ensures Judged(table, views, pre, sep, flat, before, Padded(trace, n))
    decreases n
  {
    if n > |trace| {
      JudgedPadded(table, views, pre, sep, flat, before, trace, n - 1);
      var i :| 0 <= i < |trace| && trace[i].Raised?;
      var shorter := Padded(trace, n - 1);
      var padded := Padded(trace, n);
      assert padded[..n - 1] == shorter;
      assert shorter[i] == trace[i];
      assert !Quiet(padded[..n - 1]);
      assert Judged(table, views, pre, sep, flat, before, padded[..n - 1]);
    } else {
      assert Padded(trace, n) == trace;
    }
  }

  /** Every prefix of a judged trace is judged. */
  lemma {:induction false} JudgedTake(table: OMap<Attribute>, views: OMap<View>, pre: seq<Transform>, sep: string,
                                      flat: OMap<string>, before: set<Attribute>, trace: seq<Verdict>, m: nat)
    requires |sep| > 0 && |trace| <= |flat| && Judged(table, views, pre, sep, flat, before, trace)
    requires m <= |trace|
    ensures Judged(table, views, pre, sep, flat, before, trace[..m])
    decreases |trace|
  {
    if m < |trace| {
      var n := |trace| - 1;
      var shorter := trace[..n];
      assert Judged(table, views, pre, sep, flat, before, shorter);
      JudgedTake(table, views, pre, sep, flat, before, shorter, m);
      assert shorter[..m] == trace[..m];
    } else {
      assert trace[..m] == trace;
    }
  }

  /**
   * A first pass whose last verdict threw: padding the trace to the whole
   * input changes neither what the pass leaves nor that the trace is judged.
   */
  lemma ThrowPadded(table: OMap<Attribute>, views: OMap<View>, pre: seq<Transform>, post: seq<Transform>, sep: string,
                    flat: OMap<string>, before: set<Attribute>, trace: seq<Verdict>, judged: bool)
    requires |sep| > 0 && 0 < |trace| <= |flat| && trace[|trace| - 1].Raised?
    requires FirstPass(flat[..|trace|], views, pre, post, sep, trace).outcome.Thrown?
    requires judged ==> Judged(table, views, pre, sep, flat, before, trace)
    ensures FirstPass(flat, views, pre, post, sep, Padded(trace, |flat|))
      == FirstPass(flat[..|trace|], views, pre, post, sep, trace)
    ensures judged ==> Judged(table, views, pre, sep, flat, before, Padded(trace, |flat|))
  {
    FirstPassPadded(flat, views, pre, post, sep, trace);
    if judged {
      assert !Quiet(trace);
      JudgedPadded(table, views, pre, sep, flat, before, trace, |flat|);
    }
  }

  /** Read path by path: each verdict before the first throw is the one its attribute gives. */
  lemma JudgedEach(table: OMap<Attribute>, views: OMap<View>, pre: seq<Transform>, sep: string,
                   flat: OMap<string>, before: set<Attribute>, trace: seq<Verdict>, k: nat)
    requires |sep| > 0 && |trace| <= |flat| && Judged(table, views, pre, sep, flat, before, trace)
    requires k < |trace| && Quiet(trace[..k])
    ensures JudgedAt(table, views, pre, sep, flat, before, k, trace[k])
  {
    JudgedTake(table, views, pre, sep, flat, before, trace, k + 1);
    var upto := trace[..k + 1];
    assert upto[..k] == trace[..k] && upto[k] == trace[k];
    assert Judged(table, views, pre, sep, flat, before, upto);
  }

  /** The path is accepted: no attribute judges it, or its attribute's rules let the checked value through. */
  ghost predicate Accepts(table: OMap<Attribute>, views: OMap<View>, pre: seq<Transform>, sep: string,
                          path: string, value: string)
    requires |sep| > 0
    reads Attribs(table)`rules
  {
    var j := Judging(table, views, pre, sep, path, value);
    j.None? || DecisionOf(j.value.0, j.value.1).result == Ok(true)
  }

  /**
   * After a run of passes, a path that no attribute judges, or whose
   * attribute's rules let it through, passes too.
   */
  lemma PassedAt(table: OMap<Attribute>, views: OMap<View>, pre: seq<Transform>, sep: string,
                 flat: OMap<string>, before: set<Attribute>, trace: seq<Verdict>, k: nat)
    requires |sep| > 0 && |trace| == |flat| && Keys(views) == Keys(table) && k < |trace|
    requires Judged(table, views, pre, sep, flat, before, trace)
    requires forall i :: 0 <= i < k ==> trace[i].Passed?
    requires AttribFor(Keys(views), flat[k].0, sep).None? || trace[k].Passed?
      || Accepts(table, views, pre, sep, flat[k].0, flat[k].1)
    ensures trace[k].Passed?
  {
    assert Quiet(trace[..k]);
    JudgedEach(table, views, pre, sep, flat, before, trace, k);
  }

  /**
   * In a judged trace where each path is unjudged, passed or accepted,
   * the first `n` verdicts are all passes.
   */
  lemma {:induction false} TracePasses(table: OMap<Attribute>, views: OMap<View>, pre: seq<Transform>, sep: string,
                                       flat: OMap<string>, before: set<Attribute>, trace: seq<Verdict>, n: nat)
    requires |sep| > 0 && |trace| == |flat| && Keys(views) == Keys(table) && n <= |trace|
    requires Judged(table, views, pre, sep, flat, before, trace)
    requires forall k :: 0 <= k < |flat| ==>
      AttribFor(Keys(views), flat[k].0, sep).None? || trace[k].Passed?
      || Accepts(table, views, pre, sep, flat[k].0, flat[k].1)
    ensures forall k :: 0 <= k < n ==> trace[k].Passed?
    decreases n
  {
    if n > 0 {
      TracePasses(table, views, pre, sep, flat, before, trace, n - 1);
      PassedAt(table, views, pre, sep, flat, before, trace, n - 1);
    }
  }

  /**
   * For a table with no lazy rule, check() returns true exactly when the
   * rules of every path's attribute let its checked value through and no
   * declared attribute is missing.
   */
  lemma CheckAccepts(table: OMap<Attribute>, views: OMap<View>, pre: seq<Transform>, post: seq<Transform>,
                     sep: string, flat: OMap<string>, before: set<Attribute>, trace: seq<Verdict>)
    requires |sep| > 0 && |trace| == |flat| && UniqueKeys(flat) && UniqueKeys(views) && Keys(views) == Keys(table)
    requires Judged(table, views, pre, sep, flat, before, trace)
    ensures var required := FirstPass(flat, views, pre, post, sep, trace).required;
      (Classify(flat, views, pre, post, sep, trace).outcome == Ok(true))
      <==> (forall k :: 0 <= k < |flat| ==> Accepts(table, views, pre, sep, flat[k].0, flat[k].1))
           && NoneMissing(views, Keys(flat), required, sep)
  {
    CheckPasses(flat, views, pre, post, sep, trace);
    PassesAccepted(table, views, pre, sep, flat, before, trace);
  }

  /** In a judged trace, every judged path passed exactly when every path is accepted. */
  lemma PassesAccepted(table: OMap<Attribute>, views: OMap<View>, pre: seq<Transform>, sep: string,
                       flat: OMap<string>, before: set<Attribute>, trace: seq<Verdict>)
    requires |sep| > 0 && |trace| == |flat| && Keys(views) == Keys(table)
    requires Judged(table, views, pre, sep, flat, before, trace)
    ensures AllPassed(flat, views, sep, trace)
      <==> forall k :: 0 <= k < |flat| ==> Accepts(table, views, pre, sep, flat[k].0, flat[k].1)
  {
    if AllPassed(flat, views, sep, trace) {
      TracePasses(table, views, pre, sep, flat, before, trace, |trace|);
      forall k | 0 <= k < |flat| ensures Accepts(table, views, pre, sep, flat[k].0, flat[k].1) {
        AcceptedAt(table, views, pre, sep, flat, before, trace, k);
      }
    }
    if forall k :: 0 <= k < |flat| ==> Accepts(table, views, pre, sep, flat[k].0, flat[k].1) {
      TracePasses(table, views, pre, sep, flat, before, trace, |trace|);
    }
  }

  /** A path that passed after a run of passes was accepted. */
  lemma AcceptedAt(table: OMap<Attribute>, views: OMap<View>, pre: seq<Transform>, sep: string,
                   flat: OMap<string>, before: set<Attribute>, trace: seq<Verdict>, k: nat)
    requires |sep| > 0 && |trace| == |flat| && Keys(views) == Keys(table) && k < |trace|
    requires Judged(table, views, pre, sep, flat, before, trace)
    requires forall i :: 0 <= i <= k ==> trace[i].Passed?
    ensures Accepts(table, views, pre, sep, flat[k].0, flat[k].1)
  {
    assert Quiet(trace[..k]);
    JudgedEach(table, views, pre, sep, flat, before, trace, k);
  }

  /** With no lazy rule, the rules' `lazy` flags are all false. */
  lemma {:induction false} LazyNone(rules: OMap<Rule>)
    requires forall j :: 0 <= j < |rules| ==> !rules[j].1.lazy
    ensures LazyAll(rules) == seq(|rules|, _ => false)
  {
    if rules != [] {
      LazyNone(rules[1..]);
    }
  }

  // ---------------------------------------------------------------------
  // The loops of check() that only compute

  /**
   * The attribute lookup of check(): the path's own name, else the spliced
   * wildcard names, first declared wins.
   */
  method FindAttribute(keys: seq<string>, path: string, sep: string) returns (name: Option<string>)
    requires |sep| > 0
    ensures name == AttribFor(keys, path, sep)
  {
    if path in keys {
      return Some(path);
    }
    var parts := Split(path, sep);
    var count := |parts|;
    if count <= 1 {
      return None;
    }
    ghost var all := Probes(parts, count - 1, sep);
    var i := count - 1;
    while i >= 1
      invariant 0 <= i <= count - 1
      invariant FirstDeclared(keys, all) == FirstDeclared(keys, Probes(parts, i, sep))
      decreases i
    {
      var n := if i < |parts| then i else |parts|;
      var testName := Join(parts[..n], sep);
      ghost var rest := Probes(parts[n..], i - 1, sep);
      assert Probes(parts, i, sep) == [Wildcard(testName, sep)] + rest;
      if Wildcard(testName, sep) in keys {
        return Some(Wildcard(testName, sep));
      }
      assert ([Wildcard(testName, sep)] + rest)[1..] == rest;
      parts := parts[n..];
      i := i - 1;
    }
    return None;
  }

  /** The strpos filter over the seen names: does any start with `prefix`? */
  method AnyStartsWith(seen: seq<string>, prefix: string) returns (found: bool)
    ensures found <==> exists i :: 0 <= i < |seen| && OccursAt(seen[i], prefix, 0)
  {
    found := false;
    var i := 0;
    while i < |seen|
      invariant 0 <= i <= |seen|
      invariant found <==> exists k :: 0 <= k < i && OccursAt(seen[k], prefix, 0)
    {
      if OccursAt(seen[i], prefix, 0) {
        found := true;
      }
      i := i + 1;
    }
  }

  /** An attribute of the table: its rule objects and filter chains are in the table's frames. */
  lemma InTable(table: OMap<Attribute>, i: nat)
    requires i < |table|
    ensures table[i].1 in Attribs(table) && table[i].1.filters in ChainsOf(table)
    ensures table[i].1.RuleObjects() <= RulesOf(table)
  {
    var a := table[i].1;
    forall r | r in a.RuleObjects() ensures r in RulesOf(table) {
      var j :| 0 <= j < |a.rules| && a.rules[j].1 == r;
      assert table[i].1.rules[j].1 == r;
    }
  }

  /** The second loop's test for one declared attribute, in the order check() asks. */
  method DeclareOne(name: string, view: View, seen: seq<string>, required: set<string>, sep: string) returns (e: Filed)
    requires |sep| > 0
    ensures e == DeclaredEntry(name, view, seen, required, sep)
  {
    if name in seen {
      return Nowhere;
    } else if view.default.Some? {
      return InValid(Kept(view.default.value, name));
    } else if view.required || name in required {
      var parts := Split(name, sep);
      var count := |parts|;
      if count > 1 && parts[count - 1] == "*" {
        var before := Join(parts[..count - 1], sep) + sep;
        var found := AnyStartsWith(seen, before);
        if found {
          return Nowhere;
        }
      }
      return InMissing(Absent(name, view.missingText));
    }
    return Nowhere;
  }

  // ---------------------------------------------------------------------
  // The first loop's turn

  /**
   * One turn of the first loop of check(): look the path's attribute up,
   * have it judge the value, and say where the path is filed, which names
   * it marks required and whether it threw.
   */
  method SortOne(path: string, value: string, sep: string, table: OMap<Attribute>, views: OMap<View>,
                 pre: seq<Transform>, post: seq<Transform>, required: set<string>)
    returns (v: Verdict, e: Filed, required': set<string>, outcome: Outcome<()>)
    requires |sep| > 0 && UniqueKeys(table) && Keys(views) == Keys(table) && UniqueKeys(views)
    requires forall a :: a in Attribs(table) ==> a.Valid()
    modifies Attribs(table)`lastValue, Attribs(table)`failedRule, RulesOf(table)
    ensures e == PathEntry(views, pre, post, sep, path, value, v)
    ensures required' == if AttribFor(Keys(views), path, sep).Some? && v.Passed? then required + v.marks else required
    ensures outcome == if Raises(views, sep, path, v) then Thrown(v.exception) else Ok(())
    ensures unchanged(Attribs(table)`rules)
    ensures old(Eager(table)) ==> Eager(table)
    ensures old(Eager(table)) ==>
      TurnJudged(table, views, pre, sep, path, value, old(Failing(table)), v)
      && Failing(table) == old(Failing(table)) + Recorded(table, views, pre, sep, path, value)
  {
    var name, checked, stored;
    v, name, checked, stored, required' := JudgePath(path, value, sep, table, views, pre, required);
    if name.None? {
      return v, InUnknown(ApplyChain(pre, value)), required', Ok(());
    }
    var view := Get(views, name.value).value;
    if v.Passed? && view.useFilters {
      stored := ApplyChain(post, ApplyChain(view.post, checked));
    }
    PathEntryFound(views, pre, post, sep, path, value, v, name.value, view, checked, stored);
    if v.Passed? {
      e := InValid(Kept(stored, name.value));
    } else if v.Failed? {
      e := InInvalid(Rejected(checked, name.value, v.error));
    } else {
      e := Nowhere;
    }
    outcome := if v.Raised? then Thrown(v.exception) else Ok(());
  }

  /** The lookup and the attribute's check of a turn: with no lazy rule, the verdict is Judge's. */
  method JudgePath(path: string, value: string, sep: string, table: OMap<Attribute>, views: OMap<View>,
                   pre: seq<Transform>, required: set<string>)
    returns (v: Verdict, name: Option<string>, checked: string, stored: string, required': set<string>)
    requires |sep| > 0 && UniqueKeys(table) && Keys(views) == Keys(table) && UniqueKeys(views)
    requires forall a :: a in Attribs(table) ==> a.Valid()
    modifies Attribs(table)`lastValue, Attribs(table)`failedRule, RulesOf(table)
    ensures name == AttribFor(Keys(views), path, sep)
    ensures name.Some? ==> (Get(views, name.value).Some?
      && checked == CheckedValue(Get(views, name.value).value, pre, value) && stored == checked)
    ensures required' == if name.Some? && v.Passed? then required + v.marks else required
    ensures unchanged(Attribs(table)`rules)
    ensures old(Eager(table)) ==> Eager(table)
    ensures old(Eager(table)) ==>
      TurnJudged(table, views, pre, sep, path, value, old(Failing(table)), v)
      && Failing(table) == old(Failing(table)) + Recorded(table, views, pre, sep, path, value)
  {
    name := FindAttribute(Keys(table), path, sep);
    if name.None? {
      return Passed({}), name, value, value, required;
    }
    assert unchanged(Attribs(table)`rules) && unchanged(RulesOf(table));
    GetSome(table, name.value);
    ghost var i :| 0 <= i < |table| && table[i] == (name.value, Get(table, name.value).value);
    v, checked, required' := JudgeEntry(path, value, sep, table, views, pre, required, name.value, i);
    stored := checked;
  }

  /** The check of a turn by the attribute declared at entry `i` of the table. */
  method JudgeEntry(path: string, value: string, sep: string, table: OMap<Attribute>, views: OMap<View>,
                    pre: seq<Transform>, required: set<string>, name: string, ghost i: nat)
    returns (v: Verdict, checked: string, required': set<string>)
    requires |sep| > 0 && UniqueKeys(table) && Keys(views) == Keys(table) && UniqueKeys(views)
    requires forall a :: a in Attribs(table) ==> a.Valid()
    requires i < |table| && table[i].0 == name && AttribFor(Keys(views), path, sep) == Some(name)
    modifies Attribs(table)`lastValue, Attribs(table)`failedRule, RulesOf(table)
    ensures Get(views, name).Some? && checked == CheckedValue(Get(views, name).value, pre, value)
    ensures required' == if v.Passed? then required + v.marks else required
    ensures unchanged(Attribs(table)`rules)
    ensures old(Eager(table)) ==> Eager(table)
    ensures old(Eager(table)) ==>
      TurnJudged(table, views, pre, sep, path, value, old(Failing(table)), v)
      && Failing(table) == old(Failing(table)) + Recorded(table, views, pre, sep, path, value)
  {
    GetAt(table, i);
    var attrib := Get(table, name).value;
    InTable(table, i);
    JudgingFound(table, views, pre, sep, path, value, i);
    var view := Get(views, name).value;
    v, checked, required' := CheckAttribute(attrib, view, value, pre, required, table);
  }

  /**
   * The attribute's part of a turn: filter the value, check it and, after a
   * passed check, collect what the attribute's dependencies mark required
   * (the post-filters of a passed value are SortOne's).
   */
  method CheckAttribute(attrib: Attribute, view: View, value: string, pre: seq<Transform>,
                        required: set<string>, ghost table: OMap<Attribute>)
    returns (v: Verdict, checked: string, required': set<string>)
    requires attrib.Valid()
    modifies attrib`lastValue, attrib`failedRule, attrib.RuleObjects()
    ensures unchanged(Attribs(table)`rules)
    ensures checked == CheckedValue(view, pre, value)
    ensures required' == if v.Passed? then required + v.marks else required
    ensures attrib in Attribs(table) && old(Eager(table)) ==> Eager(table)
    ensures attrib in Attribs(table) ==>
      Failing(table) == old(Failing(table)) + (if attrib.HasError() then {attrib} else {})
    ensures old(AttribEager(attrib)) ==>
      v == Judge(attrib, old(attrib.HasError()), checked)
      && (attrib.HasError() <==> old(attrib.HasError()) || DecisionOf(attrib, checked).failed.Some?)
  {
    checked := value;
    if view.useFilters {
      checked := ApplyChain(pre, ApplyChain(view.pre, value));
    }
    var res := RunCheck(attrib, checked, table);
    required' := required;
    if res.Thrown? {
      v := Raised(res.error);
    } else if res.value {
      required' := attrib.DetermineDependents(checked, required);
      v := Passed(if attrib.HasError() then {}
                  else DependentsOf(attrib.dependent, attrib.dependentRegex, checked, attrib.config.natives));
    } else {
      v := Failed(attrib.GetError());
    }
  }

  /**
   * The attribute's check($value), with what it does to the table: the
   * attribute joins the failing ones if it records a failure, no rule turns
   * lazy, and with no lazy rule the outcome is DecisionOf's.
   */
  method RunCheck(attrib: Attribute, checked: string, ghost table: OMap<Attribute>) returns (res: Outcome<bool>)
    requires attrib.Valid()
    modifies attrib`lastValue, attrib`failedRule, attrib.RuleObjects()
    ensures attrib in Attribs(table) && old(Eager(table)) ==> Eager(table)
    ensures old(attrib.HasError()) ==> attrib.HasError()
    ensures attrib in Attribs(table) ==>
      Failing(table) == old(Failing(table)) + (if attrib.HasError() then {attrib} else {})
    ensures old(AttribEager(attrib)) ==>
      var d := DecisionOf(attrib, checked);
      res == d.result
      && attrib.failedRule == (if d.failed.Some? then Some(attrib.rules[d.failed.value].1) else old(attrib.failedRule))
  {
    if AttribEager(attrib) {
      LazyNone(attrib.rules);
    }
    ghost var eager := attrib in Attribs(table) && Eager(table);
    res := attrib.Check(checked);
    if eager {
      forall r | r in RulesOf(table) ensures !r.lazy {
        if r in attrib.RuleObjects() {
          var j :| 0 <= j < |attrib.rules| && attrib.rules[j].1 == r;
        }
      }
    }
    if attrib in Attribs(table) {
      forall b | b in Attribs(table) && b != attrib ensures b.failedRule == old(b.failedRule) { }
      assert Failing(table) == old(Failing(table)) + (if attrib.HasError() then {attrib} else {});
    }
  }

  // ---------------------------------------------------------------------
  // The accessors, on the buckets

  /**
   * One bucket read entry by entry: each key with the part of its entry
   * an accessor returns, in order (the foreach loops of getValidData,
   * getInvalidData, getInvalidErrors and getMissingErrors).
   */
  function Project<V, W>(m: OMap<V>, part: V -> W): (d: OMap<W>)
    ensures Keys(d) == Keys(m)
    ensures forall i :: 0 <= i < |d| ==> d[i].1 == part(m[i].1)
  {
    seq(|m|, i requires 0 <= i < |m| => (m[i].0, part(m[i].1)))
  }

  /** The value stored for each valid path (getValidData). */
  function KeptValues(m: OMap<Kept>): OMap<string>
  {
    Project(m, (k: Kept) => k.value)
  }

  /** The value the rules rejected for each invalid path (getInvalidData). */
  function RejectedValues(m: OMap<Rejected>): OMap<string>
  {
    Project(m, (r: Rejected) => r.value)
  }

  /** The error of each invalid path, null when the failed rule has none (getInvalidErrors). */
  function RejectedErrors(m: OMap<Rejected>): OMap<Option<string>>
  {
    Project(m, (r: Rejected) => r.error)
  }

  /** The missing text of each missing attribute (getMissingErrors). */
  function AbsentErrors(m: OMap<Absent>): OMap<Option<string>>
  {
    Project(m, (a: Absent) => Some(a.error))
  }

  /** getAllData(): valid, then invalid, then unknown data, the first bucket holding a key winning. */
  function AllData(b: Buckets): OMap<string>
  {
    Union(Union(KeptValues(b.valid), RejectedValues(b.invalid)), b.unknown)
  }

  /** getData($name): the value under the first bucket holding the name, null for none. */
  function DataOf(b: Buckets, name: string): Option<string>
  {
    match Get(b.valid, name)
    case Some(x) => Some(x.value)
    case None =>
      match Get(b.invalid, name)
      case Some(x) => Some(x.value)
      case None => Get(b.unknown, name)
  }

  /** hasError(): any invalid or missing entry; hasError($name): the name is invalid or missing. */
  predicate HasErrorIn(b: Buckets, name: Option<string>)
  {
    if name.None? then |b.invalid| > 0 || |b.missing| > 0
    else HasKey(b.invalid, name.value) || HasKey(b.missing, name.value)
  }

  /** getAllErrors(): the invalid errors, then the missing ones for the other keys. */
  function AllErrors(b: Buckets): OMap<Option<string>>
  {
    Union(RejectedErrors(b.invalid), AbsentErrors(b.missing))
  }

  /** What getErrorTexts() returns: the surviving texts under their old positions, or one joined string. */
  datatype ErrorTexts = Listed(texts: seq<(nat, string)>) | Joined(text: string)

  /** array_filter with a not-null test: the texts that are there, each under its position in `errors`. */
  function Present(errors: seq<Option<string>>): (r: seq<(nat, string)>)
    ensures forall j :: 0 <= j < |r| ==> r[j].0 < |errors| && errors[r[j].0] == Some(r[j].1)
    ensures forall j, k :: 0 <= j < k < |r| ==> r[j].0 < r[k].0
  {
    if errors == [] then []
    else
      var n := |errors|;
      var init := Present(errors[..n - 1]);
      if errors[n - 1].Some? then init + [(n - 1, errors[n - 1].value)] else init
  }

  /** The texts of a filtered list, in order: what join() reads. */
  function Texts(r: seq<(nat, string)>): (texts: seq<string>)
    ensures |texts| == |r| && forall j :: 0 <= j < |r| ==> texts[j] == r[j].1
  {
    seq(|r|, j requires 0 <= j < |r| => r[j].1)
  }

  /** The invalid errors, then the missing ones, as array_merge of their values lists them. */
  function MergedErrors(b: Buckets): seq<Option<string>>
  {
    Values(RejectedErrors(b.invalid)) + Values(AbsentErrors(b.missing))
  }

  /** getErrorTexts($join): the merged errors with nulls dropped; joined when $join is truthy. */
  function ErrorTextsOf(b: Buckets, join: Option<string>): ErrorTexts
  {
    var kept := Present(MergedErrors(b));
    if TruthyOpt(join) then Joined(Join(Texts(kept), join.value)) else Listed(kept)
  }

  // ---------------------------------------------------------------------
  // What the accessors promise

  /** Two maps with the same keys find a key at the same position. */
  lemma {:induction false} GetAligned<V, W>(m: OMap<V>, d: OMap<W>, k: string)
    requires Keys(d) == Keys(m)
    ensures Get(d, k).Some? <==> Get(m, k).Some?
    ensures Get(m, k).Some? ==>
      exists i :: 0 <= i < |m| && m[i] == (k, Get(m, k).value) && d[i] == (k, Get(d, k).value)
  {
    if m != [] && m[0].0 != k {
      assert Keys(d[1..]) == Keys(m[1..]) by {
        assert forall i :: 0 <= i < |m| - 1 ==> Keys(m[1..])[i] == Keys(m)[i + 1];
      }
      GetAligned(m[1..], d[1..], k);
      if Get(m, k).Some? {
        var i :| 0 <= i < |m[1..]| && m[1..][i] == (k, Get(m, k).value) && d[1..][i] == (k, Get(d, k).value);
        assert m[i + 1] == m[1..][i] && d[i + 1] == d[1..][i];
      }
    } else if m != [] {
      assert Keys(d)[0] == Keys(m)[0];
    }
  }

  /** getAllData() and getData() agree: the entry of a name in the union is the value getData returns. */
  lemma DataLookup(b: Buckets, k: string)
    ensures Get(AllData(b), k) == DataOf(b, k)
  {
    var vd, id := KeptValues(b.valid), RejectedValues(b.invalid);
    UnionGet(Union(vd, id), b.unknown, k);
    UnionGet(vd, id, k);
    GetAligned(b.valid, vd, k);
    GetAligned(b.invalid, id, k);
    GetSome(vd, k);
    GetSome(id, k);
    GetSome(Union(vd, id), k);
  }

  /** hasError($name) asks whether getAllErrors() has the name; hasError() whether it has any. */
  lemma HasErrorKeys(b: Buckets, k: string)
    ensures HasErrorIn(b, Some(k)) <==> HasKey(AllErrors(b), k)
    ensures HasErrorIn(b, None) <==> |AllErrors(b)| > 0
  {
    UnionGet(RejectedErrors(b.invalid), AbsentErrors(b.missing), k);
    if |b.invalid| > 0 {
      assert Keys(AllErrors(b))[0] == b.invalid[0].0;
    } else if |b.missing| > 0 {
      var m := b.missing[0].0;
      assert Keys(b.missing)[0] == m;
      UnionGet(RejectedErrors(b.invalid), AbsentErrors(b.missing), m);
      assert HasKey(AllErrors(b), m);
    }
  }

  /** With the buckets apart, hasError($name) holds exactly for the names filed as invalid or missing. */
  lemma HasErrorFiled(b: Buckets, k: string)
    requires Disjoint(b)
    ensures HasErrorIn(b, Some(k)) <==> Classification.Find(b, k).InInvalid? || Classification.Find(b, k).InMissing?
  {
    GetSome(b.valid, k);
    GetSome(b.invalid, k);
    GetSome(b.missing, k);
  }

  /** Dropping nulls from a concatenation drops them from each part, the second part's positions shifted. */
  lemma {:induction false} PresentAppend(xs: seq<Option<string>>, ys: seq<Option<string>>)
    ensures Texts(Present(xs + ys)) == Texts(Present(xs)) + Texts(Present(ys))
    decreases |ys|
  {
    if ys == [] {
      assert xs + ys == xs;
    } else {
      var n := |ys|;
      assert (xs + ys)[..|xs + ys| - 1] == xs + ys[..n - 1];
      PresentAppend(xs, ys[..n - 1]);
      if ys[n - 1].Some? {
        assert Texts(Present(xs + ys)) == Texts(Present(xs + ys[..n - 1])) + [ys[n - 1].value];
        assert Texts(Present(ys)) == Texts(Present(ys[..n - 1])) + [ys[n - 1].value];
      }
    }
  }

  /** A list without nulls loses nothing. */
  lemma {:induction false} PresentAll(xs: seq<string>)
    ensures Texts(Present(seq(|xs|, i requires 0 <= i < |xs| => Some(xs[i])))) == xs
    decreases |xs|
  {
    if xs != [] {
      var n := |xs|;
      var all := seq(|xs|, i requires 0 <= i < |xs| => Some(xs[i]));
      assert all[..n - 1] == seq(n - 1, i requires 0 <= i < n - 1 => Some(xs[..n - 1][i]));
      PresentAll(xs[..n - 1]);
      assert Texts(Present(all)) == Texts(Present(all[..n - 1])) + [xs[n - 1]];
    }
  }

  /**
   * getErrorTexts() lists the texts of the invalid paths that have one, in
   * bucket order, then every missing text.
   */
  lemma ErrorTextsOrder(b: Buckets)
    ensures Texts(Present(MergedErrors(b)))
      == Texts(Present(Values(RejectedErrors(b.invalid)))) + seq(|b.missing|, i requires 0 <= i < |b.missing| => b.missing[i].1.error)
  {
    var ms := seq(|b.missing|, i requires 0 <= i < |b.missing| => b.missing[i].1.error);
    PresentAppend(Values(RejectedErrors(b.invalid)), Values(AbsentErrors(b.missing)));
    assert Values(AbsentErrors(b.missing)) == seq(|ms|, i requires 0 <= i < |ms| => Some(ms[i]));
    PresentAll(ms);
  }

  // ---------------------------------------------------------------------
  // The result

  class Result {
    var valid: OMap<Kept>
    var invalid: OMap<Rejected>
    var missing: OMap<Absent>
    var unknown: OMap<string>

    function Contents(): Buckets
      reads this`valid, this`invalid, this`missing, this`unknown
    {
      Buckets(valid, invalid, missing, unknown)
    }

    constructor ()
      ensures Contents() == NoBuckets
    {
      valid, invalid, missing, unknown := [], [], [], [];
    }

    /** `$this->…Attribs[$key] = …`: file `key` in the bucket `e` names. */
    method Store(key: string, e: Filed)
      modifies this`valid, this`invalid, this`missing, this`unknown
      ensures Contents() == File(old(Contents()), key, e)
    {
      match e
      case InValid(x) => valid := Put(valid, key, x);
      case InInvalid(x) => invalid := Put(invalid, key, x);
      case InMissing(x) => missing := Put(missing, key, x);
      case InUnknown(x) => unknown := Put(unknown, key, x);
      case Nowhere =>
    }

    /**
     * check($data): clear the buckets, sort every flattened path, then file
     * the declared attributes that were not seen. The attributes' verdicts
     * come from their rules; `trace` records them, path by path, so that the
     * result can be stated as Classify of the views and chains as check()
     * found them.
     */
    method Check(data: seq<(string, Input)>, sep: string, table: OMap<Attribute>, chains: FilterChains)
      returns (r: Outcome<bool>, ghost trace: seq<Verdict>)
      requires |sep| > 0 && UniqueKeys(table)
      requires forall a :: a in Attribs(table) ==> a.Valid()
      modifies this`valid, this`invalid, this`missing, this`unknown
      modifies Attribs(table)`lastValue, Attribs(table)`failedRule, RulesOf(table)
      ensures |trace| == |Flatten(data, sep)|
      ensures Classified(Contents(), r)
        == Classify(Flatten(data, sep), old(Views(table)), old(chains.pre), old(chains.post), sep, trace)
      ensures unchanged(Attribs(table)`rules)
      ensures old(Eager(table)) ==>
        Judged(table, old(Views(table)), old(chains.pre), sep, Flatten(data, sep), old(Failing(table)), trace)
    {
      var views := Views(table);
      ViewsGet(table, "");
      r, trace := Classifying(Flatten(data, sep), sep, table, views, chains.pre, chains.post);
    }

    /** Both loops of check() over the flattened input, with the views and chains fixed. */
    method Classifying(flat: OMap<string>, sep: string, table: OMap<Attribute>, views: OMap<View>,
                       pre: seq<Transform>, post: seq<Transform>)
      returns (r: Outcome<bool>, ghost trace: seq<Verdict>)
      requires |sep| > 0 && UniqueKeys(table) && Keys(views) == Keys(table) && UniqueKeys(views)
      requires forall a :: a in Attribs(table) ==> a.Valid()
      modifies this`valid, this`invalid, this`missing, this`unknown
      modifies Attribs(table)`lastValue, Attribs(table)`failedRule, RulesOf(table)
      ensures |trace| == |flat|
      ensures Classified(Contents(), r) == Classify(flat, views, pre, post, sep, trace)
      ensures unchanged(Attribs(table)`rules)
      ensures old(Eager(table)) ==> Judged(table, views, pre, sep, flat, old(Failing(table)), trace)
    {
      var required, outcome;
      required, outcome, trace := SortAll(flat, sep, table, views, pre, post);
      if outcome.Thrown? {
        return Thrown(outcome.error), trace;
      }
      label sorted:
      DeclareAll(views, Keys(flat), required, sep);
      assert unchanged@sorted(Attribs(table)`rules);
      r := Ok(!HasError(None));
    }

    /** The first loop of check(), on emptied buckets: sort every path until one throws. */
    method SortAll(flat: OMap<string>, sep: string, table: OMap<Attribute>, views: OMap<View>,
                   pre: seq<Transform>, post: seq<Transform>)
      returns (required: set<string>, outcome: Outcome<()>, ghost trace: seq<Verdict>)
      requires |sep| > 0 && UniqueKeys(table) && Keys(views) == Keys(table) && UniqueKeys(views)
      requires forall a :: a in Attribs(table) ==> a.Valid()
      modifies this`valid, this`invalid, this`missing, this`unknown
      modifies Attribs(table)`lastValue, Attribs(table)`failedRule, RulesOf(table)
      ensures |trace| == |flat|
      ensures Pass(Contents(), required, outcome) == FirstPass(flat, views, pre, post, sep, trace)
      ensures unchanged(Attribs(table)`rules)
      ensures old(Eager(table)) ==> Judged(table, views, pre, sep, flat, old(Failing(table)), trace)
    {
      ghost var eager, failing := Eager(table), Failing(table);
      valid, invalid, missing, unknown := [], [], [], [];
      required, trace := {}, [];
      var i := 0;
      while i < |flat|
        invariant 0 <= i <= |flat| && |trace| == i
        invariant unchanged(Attribs(table)`rules)
        invariant FirstPass(flat[..i], views, pre, post, sep, trace) == Pass(Contents(), required, Ok(()))
        invariant eager ==> Tracked(table, views, pre, sep, flat, failing, trace)
      {
        RulesKept(table);
        var v, thrown;
        v, required, thrown := SortTurn(flat, i, sep, table, views, pre, post, required, trace, failing);
        trace := trace + [v];
        if thrown.Thrown? {
          ThrowPadded(table, views, pre, post, sep, flat, failing, trace, eager);
          return required, thrown, Padded(trace, |flat|);
        }
        i := i + 1;
      }
      assert flat[..i] == flat;
      outcome := Ok(());
    }

    /** One turn of the first loop: sort path `i` into the buckets and record its verdict. */
    method SortTurn(flat: OMap<string>, i: nat, sep: string, table: OMap<Attribute>, views: OMap<View>,
                    pre: seq<Transform>, post: seq<Transform>, required: set<string>,
                    ghost trace: seq<Verdict>, ghost failing: set<Attribute>)
      returns (v: Verdict, required': set<string>, thrown: Outcome<()>)
      requires |sep| > 0 && UniqueKeys(table) && Keys(views) == Keys(table) && UniqueKeys(views)
      requires forall a :: a in Attribs(table) ==> a.Valid()
      requires i == |trace| < |flat|
      requires FirstPass(flat[..i], views, pre, post, sep, trace) == Pass(Contents(), required, Ok(()))
      modifies this`valid, this`invalid, this`missing, this`unknown
      modifies Attribs(table)`lastValue, Attribs(table)`failedRule, RulesOf(table)
      ensures FirstPass(flat[..i + 1], views, pre, post, sep, trace + [v]) == Pass(Contents(), required', thrown)
      ensures thrown == if Raises(views, sep, flat[i].0, v) then Thrown(v.exception) else Ok(())
      ensures unchanged(Attribs(table)`rules)
      ensures old(Tracked(table, views, pre, sep, flat, failing, trace)) ==>
        Tracked(table, views, pre, sep, flat, failing, trace + [v])
    {
      ghost var tracked, prev := Tracked(table, views, pre, sep, flat, failing, trace), Failing(table);
      ghost var buckets := Contents();
      var e;
      v, e, required', thrown := SortOne(flat[i].0, flat[i].1, sep, table, views, pre, post, required);
      FirstPassTurn(flat, views, pre, post, sep, trace, v, buckets, required);
      if tracked {
        JudgedNext(table, views, pre, sep, flat, failing, trace, v, prev);
      }
      StoreTracked(flat[i].0, e, table, views, pre, sep, flat, failing, trace + [v]);
    }

    /** Store, which leaves the attributes and their rules alone. */
    method StoreTracked(key: string, e: Filed, ghost table: OMap<Attribute>, ghost views: OMap<View>,
                        ghost pre: seq<Transform>, ghost sep: string, ghost flat: OMap<string>,
                        ghost failing: set<Attribute>, ghost trace: seq<Verdict>)
      requires |sep| > 0 && |trace| <= |flat|
      modifies this`valid, this`invalid, this`missing, this`unknown
      ensures Contents() == File(old(Contents()), key, e)
      ensures old(Tracked(table, views, pre, sep, flat, failing, trace)) ==> Tracked(table, views, pre, sep, flat, failing, trace)
    {
      Store(key, e);
    }

    /** The second loop of check(): file the declared attributes in declaration order. */
    method DeclareAll(views: OMap<View>, seen: seq<string>, required: set<string>, sep: string)
      requires |sep| > 0
      modifies this`valid, this`invalid, this`missing, this`unknown
      ensures Contents() == SecondPass(views, seen, required, sep, old(Contents()))
    {
      ghost var first := Contents();
      var j := 0;
      while j < |views|
        invariant 0 <= j <= |views|
        invariant Contents() == SecondPass(views[..j], seen, required, sep, first)
      {
        var e := DeclareOne(views[j].0, views[j].1, seen, required, sep);
        SecondPassNext(views, seen, required, sep, first, j);
        Store(views[j].0, e);
        j := j + 1;
      }
      assert views[..j] == views;
    }

    function GetValidData(): OMap<string>
      reads this`valid
    {
      KeptValues(valid)
    }

    function GetInvalidData(): OMap<string>
      reads this`invalid
    {
      RejectedValues(invalid)
    }

    function GetInvalidErrors(): OMap<Option<string>>
      reads this`invalid
    {
      RejectedErrors(invalid)
    }

    function GetMissingErrors(): OMap<Option<string>>
      reads this`missing
    {
      AbsentErrors(missing)
    }

    function GetUnknownData(): OMap<string>
      reads this`unknown
    {
      unknown
    }

    function GetAllData(): OMap<string>
      reads this`valid, this`invalid, this`missing, this`unknown
    {
      AllData(Contents())
    }

    function GetData(name: string): Option<string>
      reads this`valid, this`invalid, this`missing, this`unknown
    {
      DataOf(Contents(), name)
    }

    predicate HasError(name: Option<string>)
      reads this`valid, this`invalid, this`missing, this`unknown
    {
      HasErrorIn(Contents(), name)
    }

    function GetAllErrors(): OMap<Option<string>>
      reads this`valid, this`invalid, this`missing, this`unknown
    {
      AllErrors(Contents())
    }

    function GetErrorTexts(join: Option<string>): ErrorTexts
      reads this`valid, this`invalid, this`missing, this`unknown
    {
      ErrorTextsOf(Contents(), join)
    }
  }
}
