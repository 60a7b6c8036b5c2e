// The two passes of Result::check (src/DataFilter/Result.php), stated on
// values: the first files every flattened path under valid, invalid or
// unknown; the second files the declared attributes that were not seen
// under valid (with their default) or missing.
//
// The buckets record the NAME of the attribute that judged an entry where
// the PHP code stores a reference to the attribute object.
module Classification {
  import opened Common
  import opened Util
  import opened OrderedMap
  import opened Config
  import opened Filterable

  // ---------------------------------------------------------------------
  // Finding the attribute of a path

  /** The table key of the wildcard attribute below `prefix`. */
  function Wildcard(prefix: string, sep: string): string
  {
    prefix + sep + "*"
  }

  /**
   * The wildcard names the lookup loop of check() tries, as written: the
   * turn for `i` splices the first `i` of the remaining `parts` off (all of
   * them when fewer remain), so only the first turn sees the path's parent.
   */
  function Probes(parts: seq<string>, i: nat, sep: string): (names: seq<string>)
    ensures |names| == i
    decreases i
  {
    if i == 0 then []
    else
      var n := if i < |parts| then i else |parts|;
      [Wildcard(Join(parts[..n], sep), sep)] + Probes(parts[n..], i - 1, sep)
  }

  /** The names tried after the path's own name: none for a single segment. */
  function Candidates(path: string, sep: string): seq<string>
    requires |sep| > 0
  {
    var parts := Split(path, sep);
    if |parts| > 1 then Probes(parts, |parts| - 1, sep) else []
  }

  /** The first of `names` that is a key of the table. */
  function FirstDeclared(keys: seq<string>, names: seq<string>): (r: Option<string>)
    ensures r.None? <==> forall i :: 0 <= i < |names| ==> names[i] !in keys
    ensures r.Some? ==> r.value in keys
    ensures r.Some? ==>
      exists i :: 0 <= i < |names| && names[i] == r.value && (forall j :: 0 <= j < i ==> names[j] !in keys)
  {
    if names == [] then None
    else if names[0] in keys then Some(names[0])
    else
      var r := FirstDeclared(keys, names[1..]);
      if r.Some? then
        ghost var i :| 0 <= i < |names[1..]| && names[1..][i] == r.value && r.value in keys
          && forall j :: 0 <= j < i ==> names[1..][j] !in keys;
        assert names[i + 1] == r.value;
        r
      else
        assert forall i :: 1 <= i < |names| ==> names[i] == names[1..][i - 1];
        r
  }

  /** The attribute that judges a flattened path: its own name, else the first wildcard declared. */
  function AttribFor(keys: seq<string>, path: string, sep: string): (r: Option<string>)
    requires |sep| > 0
    ensures r.Some? ==> r.value in keys
  {
    if path in keys then Some(path) else FirstDeclared(keys, Candidates(path, sep))
  }

  /** An exact attribute always wins over a wildcard; the first wildcard tried is the path's parent. */
  lemma FirstProbe(keys: seq<string>, path: string, sep: string)
    requires |sep| > 0
    ensures path in keys ==> AttribFor(keys, path, sep) == Some(path)
    ensures var parts := Split(path, sep);
      |parts| > 1 ==> Candidates(path, sep)[0] == Wildcard(Join(parts[..|parts| - 1], sep), sep)
    ensures var parts := Split(path, sep);
      path !in keys && |parts| > 1 && Wildcard(Join(parts[..|parts| - 1], sep), sep) in keys
      ==> AttribFor(keys, path, sep) == Some(Wildcard(Join(parts[..|parts| - 1], sep), sep))
  {
  }

  /**
   * The later turns no longer see the path: the second tries the last
   * segment as a prefix, every further one the bare `<sep>*`.
   */
  lemma {:induction false} LaterProbes(path: string, sep: string)
    requires |sep| > 0
    requires |Split(path, sep)| >= 3
    ensures var parts := Split(path, sep);
      Candidates(path, sep)[1] == Wildcard(parts[|parts| - 1], sep)
    ensures forall k :: 2 <= k < |Candidates(path, sep)| ==> Candidates(path, sep)[k] == Wildcard("", sep)
  {
    var parts := Split(path, sep);
    var c := |parts|;
    var rest := Probes(parts[c - 1..], c - 2, sep);
    assert Candidates(path, sep) == [Wildcard(Join(parts[..c - 1], sep), sep)] + rest;
    assert parts[c - 1..] == [parts[c - 1]];
    assert [parts[c - 1]][..1] == [parts[c - 1]] && [parts[c - 1]][1..] == [];
    assert rest == [Wildcard(Join([parts[c - 1]], sep), sep)] + Probes([], c - 3, sep);
    EmptyProbes(c - 3, sep);
  }

  lemma {:induction false} EmptyProbes(i: nat, sep: string)
    ensures forall k :: 0 <= k < i ==> Probes([], i, sep)[k] == Wildcard("", sep)
  {
    if i > 0 {
      EmptyProbes(i - 1, sep);
      assert Probes([], i, sep) == [Wildcard(Join([], sep), sep)] + Probes([], i - 1, sep);
    }
  }

  /** A two-segment path is judged by its parent's wildcard when that is declared, else by nothing. */
  lemma ParentDeclared(keys: seq<string>, parent: string, leaf: string)
    requires '.' !in parent && '.' !in leaf
    requires parent + "." + leaf !in keys
    ensures AttribFor(keys, parent + "." + leaf, ".") == if parent + ".*" in keys then Some(parent + ".*") else None
  {
    ParentProbe(parent, leaf);
  }

  /** tests/AttribPathTest.php: "attrib1.foo" is judged by "attrib1.*" and "attrib2.foo" by nothing. */
  lemma AttribPathExample()
    ensures AttribFor(["attrib1.*"], "attrib1.foo", DefaultSeparator) == Some("attrib1.*")
    ensures AttribFor(["attrib1.*"], "attrib2.foo", DefaultSeparator) == None
  {
    var keys := ["attrib1.*"];
    assert "attrib1" + "." + "foo" == "attrib1.foo" && "attrib1" + ".*" == "attrib1.*";
    assert "attrib2" + "." + "foo" == "attrib2.foo" && "attrib2" + ".*" == "attrib2.*";
    ParentDeclared(keys, "attrib1", "foo");
    ParentDeclared(keys, "attrib2", "foo");
  }

  /** A two-segment path tries exactly its parent's wildcard. */
  lemma ParentProbe(parent: string, leaf: string)
    requires '.' !in parent && '.' !in leaf
    ensures Candidates(parent + "." + leaf, ".") == [parent + ".*"]
  {
    SplitHead(parent, leaf, ".");
    SplitNone(leaf, ".");
    var parts := Split(parent + "." + leaf, ".");
    assert parts == [parent, leaf];
    assert parts[..1] == [parent];
    assert Probes(parts, 1, ".") == [Wildcard(Join([parent], "."), ".")] + Probes(parts[1..], 0, ".");
    assert Wildcard(parent, ".") == parent + ".*";
  }

  // ---------------------------------------------------------------------
  // What check() reads and what it files

  /** What check() reads from an attribute; checking changes none of it. */
  datatype View = View(
    useFilters: bool,
    pre: seq<Transform>,
    post: seq<Transform>,
    default: Option<string>,
    required: bool,
    missingText: string)

  /**
   * What an attribute answered for a path: its check passed and its
   * dependencies marked `marks`, it failed with `error`, or it threw. A path
   * without an attribute is not checked and its verdict is not consulted.
   */
  datatype Verdict = Passed(marks: set<string>) | Failed(error: Option<string>) | Raised(exception: Error)

  /** A valid entry: the stored value and the attribute that judged it. */
  datatype Kept = Kept(value: string, attrib: string)
  /** An invalid entry: the checked value, the attribute and its error. */
  datatype Rejected = Rejected(value: string, attrib: string, error: Option<string>)
  /** A missing entry: the attribute and its missing text. */
  datatype Absent = Absent(attrib: string, error: string)

  datatype Buckets = Buckets(valid: OMap<Kept>, invalid: OMap<Rejected>, missing: OMap<Absent>, unknown: OMap<string>)

  const NoBuckets: Buckets := Buckets([], [], [], [])

  /** The one entry a key can have, by bucket. */
  datatype Filed = InValid(kept: Kept) | InInvalid(rejected: Rejected) | InMissing(absent: Absent)
                 | InUnknown(value: string) | Nowhere

  /** Stores `e` under `key` in its bucket. */
  function File(b: Buckets, key: string, e: Filed): Buckets
  {
    match e
    case InValid(k) => b.(valid := Put(b.valid, key, k))
    case InInvalid(r) => b.(invalid := Put(b.invalid, key, r))
    case InMissing(a) => b.(missing := Put(b.missing, key, a))
    case InUnknown(v) => b.(unknown := Put(b.unknown, key, v))
    case Nowhere => b
  }

  /** What the buckets hold under `key`. */
  function Find(b: Buckets, key: string): Filed
  {
    if Get(b.valid, key).Some? then InValid(Get(b.valid, key).value)
    else if Get(b.invalid, key).Some? then InInvalid(Get(b.invalid, key).value)
    else if Get(b.missing, key).Some? then InMissing(Get(b.missing, key).value)
    else if Get(b.unknown, key).Some? then InUnknown(Get(b.unknown, key).value)
    else Nowhere
  }

  /** No key is in two buckets and no bucket has a key twice. */
  ghost predicate Disjoint(b: Buckets)
  {
    UniqueKeys(b.valid) && UniqueKeys(b.invalid) && UniqueKeys(b.missing) && UniqueKeys(b.unknown)
    && (forall k :: HasKey(b.valid, k) ==> !HasKey(b.invalid, k) && !HasKey(b.missing, k) && !HasKey(b.unknown, k))
    && (forall k :: HasKey(b.invalid, k) ==> !HasKey(b.missing, k) && !HasKey(b.unknown, k))
    && (forall k :: HasKey(b.missing, k) ==> !HasKey(b.unknown, k))
  }

  /** Filing a new key leaves every other key where it was and keeps the buckets apart. */
  lemma FileNew(b: Buckets, key: string, e: Filed)
    requires Disjoint(b) && Find(b, key) == Nowhere
    ensures Disjoint(File(b, key, e))
    ensures Find(File(b, key, e), key) == e
    ensures forall k :: k != key ==> Find(File(b, key, e), k) == Find(b, k)
  {
    match e
    case InValid(x) => FileValid(b, key, x);
    case InInvalid(x) => FileInvalid(b, key, x);
    case InMissing(x) => FileMissing(b, key, x);
    case InUnknown(x) => FileUnknown(b, key, x);
    case Nowhere =>
  }

  lemma FileValid(b: Buckets, key: string, x: Kept)
    requires Disjoint(b) && Find(b, key) == Nowhere
    ensures Disjoint(File(b, key, InValid(x)))
    ensures Find(File(b, key, InValid(x)), key) == InValid(x)
    ensures forall k :: k != key ==> Find(File(b, key, InValid(x)), k) == Find(b, k)
  {
    GetSome(b.valid, key);
    GetSome(b.invalid, key); GetSome(b.missing, key); GetSome(b.unknown, key);
    forall k ensures HasKey(Put(b.valid, key, x), k) == (HasKey(b.valid, k) || k == key) {
      PutKeys(b.valid, key, x);
    }
    PutUnique(b.valid, key, x);
    FindPut(b, key, InValid(x));
  }

  lemma FileInvalid(b: Buckets, key: string, x: Rejected)
    requires Disjoint(b) && Find(b, key) == Nowhere
    ensures Disjoint(File(b, key, InInvalid(x)))
    ensures Find(File(b, key, InInvalid(x)), key) == InInvalid(x)
    ensures forall k :: k != key ==> Find(File(b, key, InInvalid(x)), k) == Find(b, k)
  {
    GetSome(b.invalid, key);
    GetSome(b.valid, key); GetSome(b.missing, key); GetSome(b.unknown, key);
    forall k ensures HasKey(Put(b.invalid, key, x), k) == (HasKey(b.invalid, k) || k == key) {
      PutKeys(b.invalid, key, x);
    }
    PutUnique(b.invalid, key, x);
    FindPut(b, key, InInvalid(x));
  }

  lemma FileMissing(b: Buckets, key: string, x: Absent)
    requires Disjoint(b) && Find(b, key) == Nowhere
    ensures Disjoint(File(b, key, InMissing(x)))
    ensures Find(File(b, key, InMissing(x)), key) == InMissing(x)
    ensures forall k :: k != key ==> Find(File(b, key, InMissing(x)), k) == Find(b, k)
  {
    GetSome(b.missing, key);
    GetSome(b.valid, key); GetSome(b.invalid, key); GetSome(b.unknown, key);
    forall k ensures HasKey(Put(b.missing, key, x), k) == (HasKey(b.missing, k) || k == key) {
      PutKeys(b.missing, key, x);
    }
    PutUnique(b.missing, key, x);
    FindPut(b, key, InMissing(x));
  }

  lemma FileUnknown(b: Buckets, key: string, x: string)
    requires Disjoint(b) && Find(b, key) == Nowhere
    ensures Disjoint(File(b, key, InUnknown(x)))
    ensures Find(File(b, key, InUnknown(x)), key) == InUnknown(x)
    ensures forall k :: k != key ==> Find(File(b, key, InUnknown(x)), k) == Find(b, k)
  {
    GetSome(b.unknown, key);
    GetSome(b.valid, key); GetSome(b.invalid, key); GetSome(b.missing, key);
    forall k ensures HasKey(Put(b.unknown, key, x), k) == (HasKey(b.unknown, k) || k == key) {
      PutKeys(b.unknown, key, x);
    }
    PutUnique(b.unknown, key, x);
    FindPut(b, key, InUnknown(x));
  }

  lemma FindPut(b: Buckets, key: string, e: Filed)
    ensures forall k :: Get(File(b, key, e).valid, k) == if k == key && e.InValid? then Some(e.kept) else Get(b.valid, k)
    ensures forall k :: Get(File(b, key, e).invalid, k) == if k == key && e.InInvalid? then Some(e.rejected) else Get(b.invalid, k)
    ensures forall k :: Get(File(b, key, e).missing, k) == if k == key && e.InMissing? then Some(e.absent) else Get(b.missing, k)
    ensures forall k :: Get(File(b, key, e).unknown, k) == if k == key && e.InUnknown? then Some(e.value) else Get(b.unknown, k)
  {
    forall k ensures Get(File(b, key, e).valid, k) == if k == key && e.InValid? then Some(e.kept) else Get(b.valid, k)
      ensures Get(File(b, key, e).invalid, k) == if k == key && e.InInvalid? then Some(e.rejected) else Get(b.invalid, k)
      ensures Get(File(b, key, e).missing, k) == if k == key && e.InMissing? then Some(e.absent) else Get(b.missing, k)
      ensures Get(File(b, key, e).unknown, k) == if k == key && e.InUnknown? then Some(e.value) else Get(b.unknown, k)
    {
      match e
      case InValid(x) => GetPut(b.valid, key, x, k);
      case InInvalid(x) => GetPut(b.invalid, key, x, k);
      case InMissing(x) => GetPut(b.missing, key, x, k);
      case InUnknown(x) => GetPut(b.unknown, key, x, k);
      case Nowhere =>
    }
  }

  // ---------------------------------------------------------------------
  // The first pass: every flattened path

  /** The value handed to the attribute's rules: its own pre-filters first, then the profile's. */
  function CheckedValue(view: View, pre: seq<Transform>, value: string): string
  {
    if view.useFilters then ApplyChain(pre, ApplyChain(view.pre, value)) else value
  }

  /** The value stored for a passed path: its own post-filters first, then the profile's. */
  function StoredValue(view: View, post: seq<Transform>, checked: string): string
  {
    if view.useFilters then ApplyChain(post, ApplyChain(view.post, checked)) else checked
  }

  /**
   * Where the first pass files `path`, given the verdict of its attribute:
   * under unknown with only the profile pre-filters applied when no
   * attribute judges it, nowhere when the attribute threw.
   */
  function PathEntry(views: OMap<View>, pre: seq<Transform>, post: seq<Transform>, sep: string,
                     path: string, value: string, v: Verdict): Filed
    requires |sep| > 0
  {
    var name := AttribFor(Keys(views), path, sep);
    if name.None? then InUnknown(ApplyChain(pre, value))
    else
      GetSome(views, name.value);
      var view := Get(views, name.value).value;
      var checked := CheckedValue(view, pre, value);
      match v
      case Passed(_) => InValid(Kept(StoredValue(view, post, checked), name.value))
      case Failed(error) => InInvalid(Rejected(checked, name.value, error))
      case Raised(_) => Nowhere
  }

  /** The state the first pass threads: the buckets, the names marked required, an exception. */
  datatype Pass = Pass(buckets: Buckets, required: set<string>, outcome: Outcome<()>)

  /** One turn of the first loop: file the path, collect the marks of a passed check, record a throw. */
  function SortPath(p: Pass, views: OMap<View>, pre: seq<Transform>, post: seq<Transform>, sep: string,
                    path: string, value: string, v: Verdict): Pass
    requires |sep| > 0
  {
    var b := File(p.buckets, path, PathEntry(views, pre, post, sep, path, value, v));
    if AttribFor(Keys(views), path, sep).None? then p.(buckets := b)
    else match v
      case Passed(marks) => p.(buckets := b, required := p.required + marks)
      case Failed(_) => p.(buckets := b)
      case Raised(e) => p.(buckets := b, outcome := Thrown(e))
  }

  /**
   * The first loop over the flattened input, `trace[k]` being the verdict
   * on the k-th path; it stops at the first exception, so the verdicts
   * after it are never consulted.
   */
  function FirstPass(flat: OMap<string>, views: OMap<View>, pre: seq<Transform>, post: seq<Transform>, sep: string,
                     trace: seq<Verdict>): Pass
    requires |sep| > 0 && |trace| == |flat|
  {
    if flat == [] then Pass(NoBuckets, {}, Ok(()))
    else
      var n := |flat|;
      var p := FirstPass(flat[..n - 1], views, pre, post, sep, trace[..n - 1]);
      if p.outcome.Thrown? then p
      else SortPath(p, views, pre, post, sep, flat[n - 1].0, flat[n - 1].1, trace[n - 1])
  }

  // ---------------------------------------------------------------------
  // The second pass: every declared attribute

  /** A required wildcard `p<sep>*` is satisfied when some seen path starts with `p<sep>`. */
  predicate Covered(name: string, seen: seq<string>, sep: string)
    requires |sep| > 0
  {
    var parts := Split(name, sep);
    |parts| > 1 && parts[|parts| - 1] == "*"
    && exists i :: 0 <= i < |seen| && OccursAt(seen[i], Join(parts[..|parts| - 1], sep) + sep, 0)
  }

  /**
   * Where the second pass files a declared attribute: nothing for a seen
   * name, its default (unfiltered) under valid, else under missing when it
   * is required or marked required and not a covered wildcard.
   */
  function DeclaredEntry(name: string, view: View, seen: seq<string>, required: set<string>, sep: string): Filed
    requires |sep| > 0
  {
    if name in seen then Nowhere
    else if view.default.Some? then InValid(Kept(view.default.value, name))
    else if (view.required || name in required) && !Covered(name, seen, sep) then InMissing(Absent(name, view.missingText))
    else Nowhere
  }

  /** The second loop, over the declared attributes in declaration order. */
  function SecondPass(declared: OMap<View>, seen: seq<string>, required: set<string>, sep: string, b: Buckets): Buckets
    requires |sep| > 0
  {
    if declared == [] then b
    else
      var n := |declared|;
      var e := DeclaredEntry(declared[n - 1].0, declared[n - 1].1, seen, required, sep);
      File(SecondPass(declared[..n - 1], seen, required, sep, b), declared[n - 1].0, e)
  }

  /** What check() leaves in the buckets and what it returns or throws. */
  datatype Classified = Classified(buckets: Buckets, outcome: Outcome<bool>)

  /** check(): both passes; true iff nothing is invalid or missing. */
  function Classify(flat: OMap<string>, views: OMap<View>, pre: seq<Transform>, post: seq<Transform>, sep: string,
                    trace: seq<Verdict>): Classified
    requires |sep| > 0 && |trace| == |flat|
  {
    var p := FirstPass(flat, views, pre, post, sep, trace);
    if p.outcome.Thrown? then Classified(p.buckets, Thrown(p.outcome.error))
    else
      var b := SecondPass(views, Keys(flat), p.required, sep, p.buckets);
      Classified(b, Ok(b.invalid == [] && b.missing == []))
  }

  // ---------------------------------------------------------------------
  // What the passes promise

  /** The verdict on `path` throws out of check(): only a checked path can throw. */
  predicate Raises(views: OMap<View>, sep: string, path: string, v: Verdict)
    requires |sep| > 0
  {
    v.Raised? && AttribFor(Keys(views), path, sep).Some?
  }

  /** One turn of the first loop, unfolded: what it files and when it throws. */
  lemma SortPathStep(p: Pass, views: OMap<View>, pre: seq<Transform>, post: seq<Transform>, sep: string,
                     path: string, value: string, v: Verdict)
    requires |sep| > 0
    ensures var q := SortPath(p, views, pre, post, sep, path, value, v);
      q.buckets == File(p.buckets, path, PathEntry(views, pre, post, sep, path, value, v))
      && (q.outcome.Thrown? <==> p.outcome.Thrown? || Raises(views, sep, path, v))
      && (PathEntry(views, pre, post, sep, path, value, v) == Nowhere <==> Raises(views, sep, path, v))
  {
  }

  /** One turn of the first loop, by parts: what it files, what it marks, whether it throws. */
  lemma SortPathParts(p: Pass, views: OMap<View>, pre: seq<Transform>, post: seq<Transform>, sep: string,
                      path: string, value: string, v: Verdict)
    requires |sep| > 0
    ensures SortPath(p, views, pre, post, sep, path, value, v)
      == Pass(File(p.buckets, path, PathEntry(views, pre, post, sep, path, value, v)),
              if AttribFor(Keys(views), path, sep).Some? && v.Passed? then p.required + v.marks else p.required,
              if Raises(views, sep, path, v) then Thrown(v.exception) else p.outcome)
  {
  }

  /** Where a path with an attribute is filed, in terms of the values its turn computed. */
  lemma PathEntryFound(views: OMap<View>, pre: seq<Transform>, post: seq<Transform>, sep: string,
                       path: string, value: string, v: Verdict,
                       name: string, view: View, checked: string, stored: string)
    requires |sep| > 0
    requires AttribFor(Keys(views), path, sep) == Some(name) && Get(views, name) == Some(view)
    requires checked == CheckedValue(view, pre, value)
    requires v.Passed? ==> stored == StoredValue(view, post, checked)
    ensures PathEntry(views, pre, post, sep, path, value, v)
      == if v.Passed? then InValid(Kept(stored, name))
         else if v.Failed? then InInvalid(Rejected(checked, name, v.error))
         else Nowhere
  {
  }

  /** Once a prefix of the input threw, the rest of the first pass is never run. */
  lemma {:induction false} FirstPassStops(flat: OMap<string>, views: OMap<View>, pre: seq<Transform>, post: seq<Transform>,
                                          sep: string, trace: seq<Verdict>, i: nat)
    requires |sep| > 0 && |trace| == |flat| && i <= |flat|
    requires FirstPass(flat[..i], views, pre, post, sep, trace[..i]).outcome.Thrown?
    ensures FirstPass(flat, views, pre, post, sep, trace) == FirstPass(flat[..i], views, pre, post, sep, trace[..i])
    decreases |flat| - i
  {
    if i < |flat| {
      var n := |flat|;
      assert flat[..n - 1][..i] == flat[..i] && trace[..n - 1][..i] == trace[..i];
      FirstPassStops(flat[..n - 1], views, pre, post, sep, trace[..n - 1], i);
    } else {
      assert flat[..i] == flat && trace[..i] == trace;
    }
  }

  /** The first pass over one more path is one more turn, while nothing has thrown. */
  lemma FirstPassNext(flat: OMap<string>, views: OMap<View>, pre: seq<Transform>, post: seq<Transform>,
                      sep: string, trace: seq<Verdict>, v: Verdict, i: nat)
    requires |sep| > 0 && i < |flat| && |trace| == i
    requires FirstPass(flat[..i], views, pre, post, sep, trace).outcome.Ok?
    ensures FirstPass(flat[..i + 1], views, pre, post, sep, trace + [v])
      == SortPath(FirstPass(flat[..i], views, pre, post, sep, trace), views, pre, post, sep, flat[i].0, flat[i].1, v)
  {
    assert flat[..i + 1][..i] == flat[..i] && (trace + [v])[..i] == trace;
  }

  /** The verdicts seen before an exception, padded to `n` with verdicts that are never consulted. */
  function Padded(trace: seq<Verdict>, n: nat): (r: seq<Verdict>)
    requires |trace| <= n
    ensures |r| == n && r[..|trace|] == trace
  {
    trace + seq(n - |trace|, _ => Passed({}))
  }

  /** What a pass that threw after the verdicts in `trace` leaves is what the whole first pass leaves. */
  lemma FirstPassPadded(flat: OMap<string>, views: OMap<View>, pre: seq<Transform>, post: seq<Transform>,
                        sep: string, trace: seq<Verdict>)
    requires |sep| > 0 && |trace| <= |flat|
    requires FirstPass(flat[..|trace|], views, pre, post, sep, trace).outcome.Thrown?
    ensures FirstPass(flat, views, pre, post, sep, Padded(trace, |flat|))
      == FirstPass(flat[..|trace|], views, pre, post, sep, trace)
  {
    FirstPassStops(flat, views, pre, post, sep, Padded(trace, |flat|), |trace|);
  }

  /** The first pass leaves the keys it did not see empty and keeps the buckets apart. */
  lemma {:induction false} FirstPassKeys(flat: OMap<string>, views: OMap<View>, pre: seq<Transform>, post: seq<Transform>,
                                         sep: string, trace: seq<Verdict>)
    requires |sep| > 0 && |trace| == |flat| && UniqueKeys(flat)
    ensures var p := FirstPass(flat, views, pre, post, sep, trace);
      Disjoint(p.buckets) && forall key :: key !in Keys(flat) ==> Find(p.buckets, key) == Nowhere
  {
    if flat != [] {
      var n := |flat|;
      var init, path, value, v := flat[..n - 1], flat[n - 1].0, flat[n - 1].1, trace[n - 1];
      FirstPassKeys(init, views, pre, post, sep, trace[..n - 1]);
      var q := FirstPass(init, views, pre, post, sep, trace[..n - 1]);
      assert flat == init + [(path, value)];
      KeysAppend(init, [(path, value)]);
      if q.outcome.Ok? {
        LastKeyNew(flat);
        SortPathStep(q, views, pre, post, sep, path, value, v);
        FileNew(q.buckets, path, PathEntry(views, pre, post, sep, path, value, v));
      }
    }
  }

  /** The first pass throws iff some checked path threw. */
  lemma {:induction false} FirstPassThrows(flat: OMap<string>, views: OMap<View>, pre: seq<Transform>, post: seq<Transform>,
                                           sep: string, trace: seq<Verdict>)
    requires |sep| > 0 && |trace| == |flat|
    ensures FirstPass(flat, views, pre, post, sep, trace).outcome.Thrown?
      <==> exists k :: 0 <= k < |flat| && Raises(views, sep, flat[k].0, trace[k])
  {
    if flat != [] {
      var n := |flat|;
      var init, path, value, v := flat[..n - 1], flat[n - 1].0, flat[n - 1].1, trace[n - 1];
      FirstPassThrows(init, views, pre, post, sep, trace[..n - 1]);
      var q := FirstPass(init, views, pre, post, sep, trace[..n - 1]);
      SortPathStep(q, views, pre, post, sep, path, value, v);
      var before := exists k :: 0 <= k < n - 1 && Raises(views, sep, init[k].0, trace[..n - 1][k]);
      var all := exists k :: 0 <= k < n && Raises(views, sep, flat[k].0, trace[k]);
      assert q.outcome.Thrown? == before;
      assert FirstPass(flat, views, pre, post, sep, trace).outcome.Thrown? == (before || Raises(views, sep, path, v));
      assert all == (before || Raises(views, sep, path, v)) by {
        if before {
          var k :| 0 <= k < n - 1 && Raises(views, sep, init[k].0, trace[..n - 1][k]);
          assert init[k] == flat[k] && trace[..n - 1][k] == trace[k];
        }
        if all {
          var k :| 0 <= k < n && Raises(views, sep, flat[k].0, trace[k]);
          if k < n - 1 {
            assert init[k] == flat[k] && trace[..n - 1][k] == trace[k];
          }
        }
      }
    }
  }

  /** When the first pass does not throw, every flattened path lands where PathEntry says. */
  lemma {:induction false} FirstPassPaths(flat: OMap<string>, views: OMap<View>, pre: seq<Transform>, post: seq<Transform>,
                                          sep: string, trace: seq<Verdict>)
    requires |sep| > 0 && |trace| == |flat| && UniqueKeys(flat)
    ensures var p := FirstPass(flat, views, pre, post, sep, trace);
      p.outcome.Ok? ==> forall k :: 0 <= k < |flat| ==>
        Find(p.buckets, flat[k].0) == PathEntry(views, pre, post, sep, flat[k].0, flat[k].1, trace[k]) != Nowhere
  {
    if flat != [] {
      var n := |flat|;
      var init, path, value, v := flat[..n - 1], flat[n - 1].0, flat[n - 1].1, trace[n - 1];
      LastKeyNew(flat);
      FirstPassPaths(init, views, pre, post, sep, trace[..n - 1]);
      FirstPassKeys(init, views, pre, post, sep, trace[..n - 1]);
      var q := FirstPass(init, views, pre, post, sep, trace[..n - 1]);
      if q.outcome.Ok? {
        var e := PathEntry(views, pre, post, sep, path, value, v);
        SortPathStep(q, views, pre, post, sep, path, value, v);
        FileNew(q.buckets, path, e);
        var p := FirstPass(flat, views, pre, post, sep, trace);
        if p.outcome.Ok? {
          forall k | 0 <= k < n
            ensures Find(p.buckets, flat[k].0) == PathEntry(views, pre, post, sep, flat[k].0, flat[k].1, trace[k]) != Nowhere
          {
            if k < n - 1 {
              assert init[k] == flat[k] && trace[..n - 1][k] == trace[k];
              assert flat[k].0 in Keys(init);
            }
          }
        }
      }
    }
  }

  /** Where the second pass files `key`: by its declaration, nowhere for an undeclared name. */
  function DeclaredFor(declared: OMap<View>, seen: seq<string>, required: set<string>, sep: string, key: string): Filed
    requires |sep| > 0
  {
    match Get(declared, key)
    case None => Nowhere
    case Some(view) => DeclaredEntry(key, view, seen, required, sep)
  }

  /**
   * The second pass files every declared name that was not seen where
   * DeclaredEntry says, leaves every seen key as it was and keeps the
   * buckets apart.
   */
  lemma {:induction false} SecondPassFiles(declared: OMap<View>, seen: seq<string>, required: set<string>, sep: string, b: Buckets)
    requires |sep| > 0 && UniqueKeys(declared) && Disjoint(b)
    requires forall key :: key !in seen ==> Find(b, key) == Nowhere
    ensures Disjoint(SecondPass(declared, seen, required, sep, b))
    ensures forall key :: key in seen ==> Find(SecondPass(declared, seen, required, sep, b), key) == Find(b, key)
    ensures forall key :: key !in seen ==>
      Find(SecondPass(declared, seen, required, sep, b), key) == DeclaredFor(declared, seen, required, sep, key)
  {
    if declared == [] {
      forall key ensures DeclaredFor(declared, seen, required, sep, key) == Nowhere {
      }
    } else {
      var n := |declared|;
      var init, name, view := declared[..n - 1], declared[n - 1].0, declared[n - 1].1;
      LastKeyNew(declared);
      SecondPassFiles(init, seen, required, sep, b);
      var c := SecondPass(init, seen, required, sep, b);
      var e := DeclaredEntry(name, view, seen, required, sep);
      assert declared == init + [(name, view)];
      forall key ensures DeclaredFor(declared, seen, required, sep, key)
        == if key == name then e else DeclaredFor(init, seen, required, sep, key)
      {
        GetAppend(init, [(name, view)], key);
        GetSome(init, key);
      }
      GetSome(init, name);
      if e != Nowhere {
        FileNew(c, name, e);
      }
    }
  }

  /** The second pass over one more declaration files it last. */
  lemma SecondPassNext(declared: OMap<View>, seen: seq<string>, required: set<string>, sep: string, b: Buckets, j: nat)
    requires |sep| > 0 && j < |declared|
    ensures SecondPass(declared[..j + 1], seen, required, sep, b)
      == File(SecondPass(declared[..j], seen, required, sep, b), declared[j].0,
              DeclaredEntry(declared[j].0, declared[j].1, seen, required, sep))
  {
    assert declared[..j + 1][..j] == declared[..j];
  }

  /** A passed check of path `path` marked `name` required. */
  predicate Marks(views: OMap<View>, sep: string, path: string, v: Verdict, name: string)
    requires |sep| > 0
  {
    v.Passed? && name in v.marks && AttribFor(Keys(views), path, sep).Some?
  }

  /** When the first pass does not throw, a name is marked required iff a passed check marked it. */
  lemma {:induction false} FirstPassMarks(flat: OMap<string>, views: OMap<View>, pre: seq<Transform>, post: seq<Transform>,
                                          sep: string, trace: seq<Verdict>, name: string)
    requires |sep| > 0 && |trace| == |flat|
    ensures var p := FirstPass(flat, views, pre, post, sep, trace);
      p.outcome.Ok? ==> (name in p.required <==> exists k :: 0 <= k < |flat| && Marks(views, sep, flat[k].0, trace[k], name))
  {
    if flat != [] {
      var n := |flat|;
      var init, path, value, v := flat[..n - 1], flat[n - 1].0, flat[n - 1].1, trace[n - 1];
      FirstPassMarks(init, views, pre, post, sep, trace[..n - 1], name);
      var q := FirstPass(init, views, pre, post, sep, trace[..n - 1]);
      if q.outcome.Ok? {
        var before := exists k :: 0 <= k < n - 1 && Marks(views, sep, init[k].0, trace[..n - 1][k], name);
        var all := exists k :: 0 <= k < n && Marks(views, sep, flat[k].0, trace[k], name);
        assert (name in q.required) == before;
        assert FirstPass(flat, views, pre, post, sep, trace).outcome.Ok? ==>
          ((name in FirstPass(flat, views, pre, post, sep, trace).required) == (before || Marks(views, sep, path, v, name)));
        assert all == (before || Marks(views, sep, path, v, name)) by {
          if before {
            var k :| 0 <= k < n - 1 && Marks(views, sep, init[k].0, trace[..n - 1][k], name);
            assert init[k] == flat[k] && trace[..n - 1][k] == trace[k];
          }
          if all {
            var k :| 0 <= k < n && Marks(views, sep, flat[k].0, trace[k], name);
            if k < n - 1 {
              assert init[k] == flat[k] && trace[..n - 1][k] == trace[k];
            }
          }
        }
      }
    }
  }

  /**
   * check() as a whole: the buckets stay apart; it throws iff a checked
   * path threw; otherwise every flattened path lands where PathEntry says
   * and every other key where its declaration says.
   */
  lemma ClassifyFiles(flat: OMap<string>, views: OMap<View>, pre: seq<Transform>, post: seq<Transform>,
                      sep: string, trace: seq<Verdict>)
    requires |sep| > 0 && |trace| == |flat| && UniqueKeys(flat) && UniqueKeys(views)
    ensures Disjoint(Classify(flat, views, pre, post, sep, trace).buckets)
    ensures Classify(flat, views, pre, post, sep, trace).outcome.Thrown?
      <==> exists k :: 0 <= k < |flat| && Raises(views, sep, flat[k].0, trace[k])
    ensures var c := Classify(flat, views, pre, post, sep, trace);
      c.outcome.Ok? ==> forall k :: 0 <= k < |flat| ==>
        Find(c.buckets, flat[k].0) == PathEntry(views, pre, post, sep, flat[k].0, flat[k].1, trace[k]) != Nowhere
    ensures var c := Classify(flat, views, pre, post, sep, trace);
      var required := FirstPass(flat, views, pre, post, sep, trace).required;
      c.outcome.Ok? ==> forall key :: key !in Keys(flat) ==>
        Find(c.buckets, key) == DeclaredFor(views, Keys(flat), required, sep, key)
  {
    var p := FirstPass(flat, views, pre, post, sep, trace);
    FirstPassKeys(flat, views, pre, post, sep, trace);
    FirstPassThrows(flat, views, pre, post, sep, trace);
    FirstPassPaths(flat, views, pre, post, sep, trace);
    if p.outcome.Ok? {
      SecondPassFiles(views, Keys(flat), p.required, sep, p.buckets);
    }
  }

  /** With the buckets apart, invalid and missing are empty iff no key is filed under either. */
  lemma ErrorFree(b: Buckets)
    requires Disjoint(b)
    ensures (b.invalid == [] && b.missing == []) <==> forall key :: !Find(b, key).InInvalid? && !Find(b, key).InMissing?
  {
    if b.invalid != [] {
      var key := b.invalid[0].0;
      assert Keys(b.invalid)[0] == key;
      GetSome(b.invalid, key);
      GetSome(b.valid, key);
      assert Find(b, key).InInvalid?;
    } else if b.missing != [] {
      var key := b.missing[0].0;
      assert Keys(b.missing)[0] == key;
      GetSome(b.missing, key);
      GetSome(b.valid, key);
      GetSome(b.invalid, key);
      assert Find(b, key).InMissing?;
    }
  }

  /** Every checked path passed its rules. */
  predicate AllPassed(flat: OMap<string>, views: OMap<View>, sep: string, trace: seq<Verdict>)
    requires |sep| > 0 && |trace| == |flat|
  {
    forall k :: 0 <= k < |flat| ==> AttribFor(Keys(views), flat[k].0, sep).None? || trace[k].Passed?
  }

  /** No declared attribute that was not seen is filed as missing. */
  ghost predicate NoneMissing(views: OMap<View>, seen: seq<string>, required: set<string>, sep: string)
    requires |sep| > 0
  {
    forall key :: key !in seen ==> !DeclaredFor(views, seen, required, sep, key).InMissing?
  }

  /** No key is filed as invalid or missing. */
  ghost predicate Clean(b: Buckets)
  {
    forall key :: !Find(b, key).InInvalid? && !Find(b, key).InMissing?
  }

  /** Buckets filed as check() files them are clean iff every path passed and nothing is missing. */
  lemma CleanFiled(b: Buckets, flat: OMap<string>, views: OMap<View>, pre: seq<Transform>, post: seq<Transform>,
                   sep: string, trace: seq<Verdict>, required: set<string>)
    requires |sep| > 0 && |trace| == |flat|
    requires forall k :: 0 <= k < |flat| ==> !Raises(views, sep, flat[k].0, trace[k])
    requires forall k :: 0 <= k < |flat| ==>
      Find(b, flat[k].0) == PathEntry(views, pre, post, sep, flat[k].0, flat[k].1, trace[k])
    requires forall key :: key !in Keys(flat) ==> Find(b, key) == DeclaredFor(views, Keys(flat), required, sep, key)
    ensures Clean(b) <==> AllPassed(flat, views, sep, trace) && NoneMissing(views, Keys(flat), required, sep)
  {
    if Clean(b) {
      CleanPaths(b, flat, views, pre, post, sep, trace);
      CleanDeclared(b, flat, views, sep, required);
    }
    if AllPassed(flat, views, sep, trace) && NoneMissing(views, Keys(flat), required, sep) {
      FiledClean(b, flat, views, pre, post, sep, trace, required);
    }
  }

  /** In clean buckets every checked path passed. */
  lemma CleanPaths(b: Buckets, flat: OMap<string>, views: OMap<View>, pre: seq<Transform>, post: seq<Transform>,
                   sep: string, trace: seq<Verdict>)
    requires |sep| > 0 && |trace| == |flat| && Clean(b)
    requires forall k :: 0 <= k < |flat| ==> !Raises(views, sep, flat[k].0, trace[k])
    requires forall k :: 0 <= k < |flat| ==>
      Find(b, flat[k].0) == PathEntry(views, pre, post, sep, flat[k].0, flat[k].1, trace[k])
    ensures AllPassed(flat, views, sep, trace)
  {
    forall k | 0 <= k < |flat| ensures AttribFor(Keys(views), flat[k].0, sep).None? || trace[k].Passed? {
      assert Find(b, flat[k].0) == PathEntry(views, pre, post, sep, flat[k].0, flat[k].1, trace[k]);
    }
  }

  /** In clean buckets no unseen declared attribute is missing. */
  lemma CleanDeclared(b: Buckets, flat: OMap<string>, views: OMap<View>, sep: string, required: set<string>)
    requires |sep| > 0 && Clean(b)
    requires forall key :: key !in Keys(flat) ==> Find(b, key) == DeclaredFor(views, Keys(flat), required, sep, key)
    ensures NoneMissing(views, Keys(flat), required, sep)
  {
    var seen := Keys(flat);
    forall key | key !in seen ensures !DeclaredFor(views, seen, required, sep, key).InMissing? {
      assert Find(b, key) == DeclaredFor(views, seen, required, sep, key);
    }
  }

  /** If every path passed and nothing is missing, the buckets are clean. */
  lemma FiledClean(b: Buckets, flat: OMap<string>, views: OMap<View>, pre: seq<Transform>, post: seq<Transform>,
                   sep: string, trace: seq<Verdict>, required: set<string>)
    requires |sep| > 0 && |trace| == |flat|
    requires AllPassed(flat, views, sep, trace) && NoneMissing(views, Keys(flat), required, sep)
    requires forall k :: 0 <= k < |flat| ==> !Raises(views, sep, flat[k].0, trace[k])
    requires forall k :: 0 <= k < |flat| ==>
      Find(b, flat[k].0) == PathEntry(views, pre, post, sep, flat[k].0, flat[k].1, trace[k])
    requires forall key :: key !in Keys(flat) ==> Find(b, key) == DeclaredFor(views, Keys(flat), required, sep, key)
    ensures Clean(b)
  {
    var seen := Keys(flat);
    forall key ensures !Find(b, key).InInvalid? && !Find(b, key).InMissing? {
      if key in seen {
        var k :| 0 <= k < |flat| && seen[k] == key;
        assert Find(b, key) == PathEntry(views, pre, post, sep, flat[k].0, flat[k].1, trace[k]);
      } else {
        assert Find(b, key) == DeclaredFor(views, seen, required, sep, key);
      }
    }
  }

  /**
   * check() returns true exactly when every checked path passed its rules
   * (so none failed and none threw) and no declared attribute that was not
   * seen is left missing.
   */
  lemma CheckPasses(flat: OMap<string>, views: OMap<View>, pre: seq<Transform>, post: seq<Transform>,
                    sep: string, trace: seq<Verdict>)
    requires |sep| > 0 && |trace| == |flat| && UniqueKeys(flat) && UniqueKeys(views)
    ensures var required := FirstPass(flat, views, pre, post, sep, trace).required;
      (Classify(flat, views, pre, post, sep, trace).outcome == Ok(true))
      <==> (AllPassed(flat, views, sep, trace) && NoneMissing(views, Keys(flat), required, sep))
  {
    var c := Classify(flat, views, pre, post, sep, trace);
    var required := FirstPass(flat, views, pre, post, sep, trace).required;
    ClassifyFiles(flat, views, pre, post, sep, trace);
    if c.outcome.Ok? {
      ErrorFree(c.buckets);
      CleanFiled(c.buckets, flat, views, pre, post, sep, trace, required);
    } else {
      var k :| 0 <= k < |flat| && Raises(views, sep, flat[k].0, trace[k]);
      assert !(AttribFor(Keys(views), flat[k].0, sep).None? || trace[k].Passed?);
    }
  }

  /** The filters compose in the order check() applies them: the attribute's chain, then the profile's. */
  lemma FilterOrder(view: View, pre: seq<Transform>, post: seq<Transform>, value: string)
    ensures CheckedValue(view, pre, value) == if view.useFilters then ApplyChain(view.pre + pre, value) else value
    ensures StoredValue(view, post, value) == if view.useFilters then ApplyChain(view.post + post, value) else value
  {
    ApplyChainAppend(view.pre, pre, value);
    ApplyChainAppend(view.post, post, value);
  }

  /** The four filters of tests/ProgrammaticTest.php. */
  function MarkIn(s: string): string { ">" + s }
  function MarkOut(s: string): string { s + "<" }
  function BracketIn(s: string): string { "[" + s }
  function BracketOut(s: string): string { s + "]" }

  /**
   * tests/ProgrammaticTest.php: with attribute filters `>_` / `_<` and
   * profile filters `[_` / `_]`, "foo" is stored as "[>foo<]", and as "foo"
   * once the attribute's filters are switched off.
   */
  lemma ToggleFiltersExample(filtersOn: bool)
    ensures var view := View(filtersOn, [MarkIn], [MarkOut], None, true, "missing");
      var c := Classify([("attrib1", "foo")], [("attrib1", view)], [BracketIn], [BracketOut], ".", [Passed({})]);
      c == Classified(Buckets([("attrib1", Kept(if filtersOn then "[>foo<]" else "foo", "attrib1"))], [], [], []), Ok(true))
  {
    var view := View(filtersOn, [MarkIn], [MarkOut], None, true, "missing");
    var pre: seq<Transform> := [BracketIn];
    var post: seq<Transform> := [BracketOut];
    var flat := [("attrib1", "foo")];
    var views := [("attrib1", view)];
    assert AttribFor(["attrib1"], "attrib1", ".") == Some("attrib1");
    assert Keys(views) == ["attrib1"] && Keys(flat) == ["attrib1"];
    if filtersOn {
      assert ApplyChain(view.pre, "foo") == ">foo";
      assert ApplyChain(pre, ">foo") == "[>foo";
      assert ApplyChain(view.post, "[>foo") == "[>foo<";
      assert ApplyChain(post, "[>foo<") == "[>foo<]";
    }
    assert flat[..0] == [];
    assert FirstPass(flat[..0], views, pre, post, ".", [Passed({})][..0]) == Pass(NoBuckets, {}, Ok(()));
    assert Get(views, "attrib1") == Some(view);
    var stored := if filtersOn then "[>foo<]" else "foo";
    assert PathEntry(views, pre, post, ".", "attrib1", "foo", Passed({})) == InValid(Kept(stored, "attrib1"));
    var p := FirstPass(flat, views, pre, post, ".", [Passed({})]);
    assert p == Pass(Buckets([("attrib1", Kept(stored, "attrib1"))], [], [], []), {}, Ok(()));
    assert DeclaredEntry("attrib1", view, ["attrib1"], {}, ".") == Nowhere;
    assert views[..0] == [];
    assert SecondPass(views, ["attrib1"], {}, ".", p.buckets) == p.buckets;
    assert Classify(flat, views, pre, post, ".", [Passed({})]) == Classified(p.buckets, Ok(true));
  }

  /** A wildcard `p.*` below a one-segment parent is covered iff some seen path starts with `p.`. */
  lemma CoveredWildcard(parent: string, seen: seq<string>)
    requires '.' !in parent
    ensures Covered(parent + ".*", seen, ".") <==> exists i :: 0 <= i < |seen| && OccursAt(seen[i], parent + ".", 0)
  {
    WildcardParts(parent);
  }

  /** `p.*` splits into its parent and the star. */
  lemma WildcardParts(parent: string)
    requires '.' !in parent
    ensures Split(parent + ".*", ".") == [parent, "*"]
    ensures Join([parent], ".") == parent
  {
    SplitHead(parent, "*", ".");
    SplitNone("*", ".");
    assert parent + ".*" == parent + "." + "*";
  }

  /** The last key of a map with unique keys is not a key of the rest. */
  lemma LastKeyNew<V>(m: OMap<V>)
    requires UniqueKeys(m) && m != []
    ensures m[|m| - 1].0 !in Keys(m[..|m| - 1])
    ensures UniqueKeys(m[..|m| - 1])
  {
    var n := |m|;
    var ks := Keys(m[..n - 1]);
    forall k | 0 <= k < n - 1 ensures ks[k] != m[n - 1].0 {
      assert ks[k] == m[k].0;
    }
  }
}
