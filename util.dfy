// src/DataFilter/Util.php: flattening nested input into separator-joined
// paths, and ":key:" template substitution; plus PHP's explode/implode on
// which the rest of the engine builds paths and rule specifications.
module Util {
  import opened Common
  import opened OrderedMap

  /** The default of the global flatten separator. */
  const DefaultSeparator: string := "."

  // ---------------------------------------------------------------------
  // Substrings

  predicate OccursAt(s: string, p: string, i: nat)
  {
    i + |p| <= |s| && s[i..i + |p|] == p
  }

  predicate Contains(s: string, p: string)
  {
    exists i: nat | i <= |s| :: OccursAt(s, p, i)
  }

  /** strpos($s, $p): the first position where `p` occurs in `s`. */
  function Find(s: string, p: string): (r: Option<nat>)
    requires |p| > 0
    ensures r.Some? ==> OccursAt(s, p, r.value)
    ensures r.Some? ==> forall j: nat :: j < r.value ==> !OccursAt(s, p, j)
    ensures r.None? ==> forall j: nat :: !OccursAt(s, p, j)
    decreases |s|
  {
    if |s| < |p| then None
    else if s[..|p|] == p then Some(0)
    else
      var rest := Find(s[1..], p);
      assert forall j: nat :: OccursAt(s, p, j + 1) <==> OccursAt(s[1..], p, j) by {
        forall j: nat ensures OccursAt(s, p, j + 1) <==> OccursAt(s[1..], p, j) {
          if j + 1 + |p| <= |s| {
            assert s[1..][j..j + |p|] == s[j + 1..j + 1 + |p|];
          }
        }
      }
      assert forall j: nat :: OccursAt(s, p, j) ==> j > 0;
      match rest
      case None =>
        assert forall j: nat :: OccursAt(s, p, j) ==> OccursAt(s[1..], p, j - 1);
        None
      case Some(j) =>
        assert forall k: nat :: k < j + 1 ==> !OccursAt(s, p, k) by {
          forall k: nat | k < j + 1 ensures !OccursAt(s, p, k) {
            if k > 0 {
              assert !OccursAt(s[1..], p, k - 1);
            }
          }
        }
        Some(j + 1)
  }

  lemma FindContains(s: string, p: string)
    requires |p| > 0
    ensures Find(s, p).Some? <==> Contains(s, p)
  {
  }

  // ---------------------------------------------------------------------
  // explode / implode

  /** PHP explode($sep, $s): the pieces between the occurrences of `sep`. */
  function Split(s: string, sep: string): (parts: seq<string>)
    requires |sep| > 0
    ensures |parts| >= 1
    decreases |s|
  {
    match Find(s, sep)
    case None => [s]
    case Some(i) => [s[..i]] + Split(s[i + |sep|..], sep)
  }

  /** PHP join($sep, $parts). */
  function Join(parts: seq<string>, sep: string): string
  {
    if parts == [] then ""
    else if |parts| == 1 then parts[0]
    else parts[0] + sep + Join(parts[1..], sep)
  }

  /** Joining the pieces of a split restores the string. */
  lemma {:induction false} JoinSplit(s: string, sep: string)
    requires |sep| > 0
    ensures Join(Split(s, sep), sep) == s
    decreases |s|
  {
    match Find(s, sep)
    case None =>
    case Some(i) =>
      var rest := s[i + |sep|..];
      var tail := Split(rest, sep);
      JoinSplit(rest, sep);
      assert Split(s, sep) == [s[..i]] + tail;
      assert ([s[..i]] + tail)[1..] == tail;
      assert Join([s[..i]] + tail, sep) == s[..i] + sep + Join(tail, sep);
      assert s[i..i + |sep|] == sep;
      assert s == s[..i] + s[i..i + |sep|] + rest;
  }

  /** No piece of a split contains the separator. */
  lemma {:induction false} SplitPieces(s: string, sep: string)
    requires |sep| > 0
    ensures forall part :: part in Split(s, sep) ==> !Contains(part, sep)
    decreases |s|
  {
    match Find(s, sep)
    case None =>
    case Some(i) =>
      SplitPieces(s[i + |sep|..], sep);
      forall j: nat ensures !OccursAt(s[..i], sep, j) {
        if j + |sep| <= i {
          assert s[..i][j..j + |sep|] == s[j..j + |sep|];
          assert !OccursAt(s, sep, j);
        }
      }
  }

  /** A first piece free of a one-character separator is split off as it is. */
  lemma SplitHead(w: string, rest: string, sep: string)
    requires |sep| == 1 && sep[0] !in w
    ensures Split(w + sep + rest, sep) == [w] + Split(rest, sep)
  {
    var s := w + sep + rest;
    assert s[|w|..|w| + 1] == sep;
    assert OccursAt(s, sep, |w|);
    forall j: nat | j < |w| ensures !OccursAt(s, sep, j) {
      assert s[j] == w[j];
      assert s[j..j + 1][0] == s[j];
    }
    assert Find(s, sep) == Some(|w|);
    assert s[..|w|] == w;
    assert s[|w| + 1..] == rest;
  }

  /** A string free of a one-character separator is one piece. */
  lemma SplitNone(s: string, sep: string)
    requires |sep| == 1 && sep[0] !in s
    ensures Split(s, sep) == [s]
  {
    forall j: nat ensures !OccursAt(s, sep, j) {
      if j < |s| {
        assert s[j..j + 1][0] == s[j];
      }
    }
    SplitPlain(s, sep);
  }

  /** A string without the separator is one piece. */
  lemma SplitPlain(s: string, sep: string)
    requires |sep| > 0 && !Contains(s, sep)
    ensures Split(s, sep) == [s]
  {
    FindContains(s, sep);
  }

  // ---------------------------------------------------------------------
  // Literal replace-all (preg_replace with a pattern free of metacharacters)

  /** Replaces every occurrence of `p`, left to right and without overlaps. */
  function ReplaceAll(s: string, p: string, v: string): string
    requires |p| > 0
    decreases |s|
  {
    if s == [] then []
    else if OccursAt(s, p, 0) then v + ReplaceAll(s[|p|..], p, v)
    else [s[0]] + ReplaceAll(s[1..], p, v)
  }

  /** Replacement copies a prefix that holds no occurrence of the pattern. */
  lemma {:induction false} ReplaceCopies(s: string, p: string, v: string, i: nat)
    requires |p| > 0 && i <= |s|
    requires forall j: nat :: j < i ==> !OccursAt(s, p, j)
    ensures ReplaceAll(s, p, v) == s[..i] + ReplaceAll(s[i..], p, v)
    decreases i
  {
    if i > 0 {
      assert !OccursAt(s, p, 0);
      forall j: nat | j < i - 1 ensures !OccursAt(s[1..], p, j) {
        assert !OccursAt(s, p, j + 1);
        if j + |p| <= |s| - 1 {
          assert s[1..][j..j + |p|] == s[j + 1..j + 1 + |p|];
        }
      }
      ReplaceCopies(s[1..], p, v, i - 1);
      assert s[1..][i - 1..] == s[i..];
      assert s[..i] == [s[0]] + s[1..][..i - 1];
    }
  }

  /** Replacing a literal is splitting at it and joining with the replacement. */
  lemma {:induction false} ReplaceIsSplitJoin(s: string, p: string, v: string)
    requires |p| > 0
    ensures ReplaceAll(s, p, v) == Join(Split(s, p), v)
    decreases |s|
  {
    match Find(s, p)
    case None =>
      ReplaceCopies(s, p, v, |s|);
      assert s[..|s|] == s && s[|s|..] == [];
    case Some(i) =>
      var rest := s[i + |p|..];
      ReplaceCopies(s, p, v, i);
      assert s[i..][..|p|] == p;
      assert s[i..][|p|..] == rest;
      ReplaceIsSplitJoin(rest, p, v);
      assert Split(s, p) == [s[..i]] + Split(rest, p);
  }

  /** A string without the pattern is left unchanged. */
  lemma ReplaceAbsent(s: string, p: string, v: string)
    requires |p| > 0 && !Contains(s, p)
    ensures ReplaceAll(s, p, v) == s
  {
    ReplaceCopies(s, p, v, |s|);
    assert s[..|s|] == s && s[|s|..] == [];
  }

  /** Substitution of one placeholder whose surroundings cannot start another. */
  lemma ReplaceOne(a: string, p: string, b: string, v: string)
    requires |p| > 0 && p[0] !in a && p[0] !in b
    ensures ReplaceAll(a + p + b, p, v) == a + v + b
  {
    var s := a + p + b;
    forall j: nat | j < |a| ensures !OccursAt(s, p, j) {
      assert s[j] == a[j];
    }
    ReplaceCopies(s, p, v, |a|);
    assert s[..|a|] == a;
    assert s[|a|..] == p + b;
    assert OccursAt(p + b, p, 0);
    assert (p + b)[|p|..] == b;
    forall j: nat ensures !OccursAt(b, p, j) {
      if j + |p| <= |b| {
        assert b[j..j + |p|][0] == b[j];
        assert b[j] in b;
      }
    }
    ReplaceAbsent(b, p, v);
  }

  // ---------------------------------------------------------------------
  // formatString

  /** Formatting with two arguments replaces the first placeholder, then the second. */
  lemma FormatTwo(s: string, k1: string, v1: string, k2: string, v2: string)
    ensures FormatString(s, [(k1, v1), (k2, v2)])
      == ReplaceAll(ReplaceAll(s, Placeholder(k1), v1), Placeholder(k2), v2)
  {
    var args, last := [(k1, v1), (k2, v2)], [(k2, v2)];
    var t := ReplaceAll(s, Placeholder(k1), v1);
    assert args[0] == (k1, v1) && args[1..] == last;
    assert FormatString(s, args) == FormatString(t, last);
    assert last[0] == (k2, v2) && last[1..] == [];
    var u := ReplaceAll(t, Placeholder(k2), v2);
    assert FormatString(t, last) == FormatString(u, []) == u;
  }

  /** Regrouping a concatenation, kept apart so that no proof about replacement has to. */
  lemma AppendAssoc(a: string, b: string, c: string, d: string, e: string)
    ensures a + b + c + d + e == a + b + (c + d + e)
  {
  }

  /** A single occurrence after a stretch free of it is the only one replaced. */
  lemma ReplaceAfter(x: string, p: string, c: string, v: string)
    requires |p| > 0 && p[0] !in c
    requires forall j: nat :: j < |x| ==> !OccursAt(x + p + c, p, j)
    ensures ReplaceAll(x + p + c, p, v) == x + v + c
  {
    var s := x + p + c;
    ReplaceCopies(s, p, v, |x|);
    assert s[..|x|] == x && s[|x|..] == [] + p + c;
    ReplaceOne([], p, c, v);
  }

  /** The placeholder `:k:` of a format argument named `k`. */
  function Placeholder(k: string): string
  {
    ":" + k + ":"
  }

  /** Util::formatString: substitutes each argument, in the order given. */
  function FormatString(str: string, args: seq<(string, string)>): string
    decreases |args|
  {
    if args == [] then str
    else FormatString(ReplaceAll(str, Placeholder(args[0].0), args[0].1), args[1..])
  }

  /** A string with no ':' holds no placeholder and is returned unchanged. */
  lemma {:induction false} FormatPlain(str: string, args: seq<(string, string)>)
    requires ':' !in str
    ensures FormatString(str, args) == str
    decreases |args|
  {
    if args != [] {
      var p := Placeholder(args[0].0);
      forall j: nat ensures !OccursAt(str, p, j) {
        if j + |p| <= |str| {
          assert str[j..j + |p|][0] == str[j];
          assert str[j] in str;
        }
      }
      ReplaceAbsent(str, p, args[0].1);
      FormatPlain(str, args[1..]);
    }
  }

  /** A template with a single `:k:` and no other ':' gets `v` in its place. */
  lemma FormatSingle(a: string, k: string, b: string, v: string)
    requires ':' !in a && ':' !in b && ':' !in v
    ensures FormatString(a + Placeholder(k) + b, [(k, v)]) == a + v + b
  {
    ReplaceOne(a, Placeholder(k), b, v);
  }

  // ---------------------------------------------------------------------
  // flatten

  /** Request data: a scalar (as its string form) or an ordered array. */
  datatype Input = Scalar(value: string) | Array(entries: seq<(string, Input)>)

  /** Util::flatten($data, $flat, $prefix), threading `flat` through the entries. */
  function FlattenInto(data: seq<(string, Input)>, flat: OMap<string>, prefix: string, sep: string)
    : OMap<string>
    decreases data
  {
    if data == [] then flat
    else
      var e := data[0];
      assert e in data;
      var next := match e.1
        case Scalar(v) => Put(flat, prefix + e.0, v)
        case Array(sub) => assert e.1 < e; FlattenInto(sub, flat, prefix + e.0 + sep, sep);
      FlattenInto(data[1..], next, prefix, sep)
  }

  /** Util::flatten($data) with the separator as a parameter. */
  function Flatten(data: seq<(string, Input)>, sep: string): OMap<string>
  {
    FlattenInto(data, [], "", sep)
  }

  /** Reference definition: the leaves of the input, depth first, in input order. */
  function Leaves(data: seq<(string, Input)>, prefix: string, sep: string): seq<(string, string)>
    decreases data
  {
    if data == [] then []
    else
      var e := data[0];
      assert e in data;
      var here := match e.1
        case Scalar(v) => [(prefix + e.0, v)]
        case Array(sub) => assert e.1 < e; Leaves(sub, prefix + e.0 + sep, sep);
      here + Leaves(data[1..], prefix, sep)
  }

  /** Assigns each pair in turn, as `$flat[$k] = $v` does. */
  function PutAll(flat: OMap<string>, pairs: seq<(string, string)>): OMap<string>
    decreases |pairs|
  {
    if pairs == [] then flat else PutAll(Put(flat, pairs[0].0, pairs[0].1), pairs[1..])
  }

  lemma {:induction false} PutAllAppend(flat: OMap<string>, xs: seq<(string, string)>, ys: seq<(string, string)>)
    ensures PutAll(flat, xs + ys) == PutAll(PutAll(flat, xs), ys)
    decreases |xs|
  {
    if xs != [] {
      assert (xs + ys)[1..] == xs[1..] + ys;
      PutAllAppend(Put(flat, xs[0].0, xs[0].1), xs[1..], ys);
    } else {
      assert xs + ys == ys;
    }
  }

  /** flatten assigns the leaves of the input to `flat`, depth first. */
  lemma {:induction false} FlattenIsPutAll(data: seq<(string, Input)>, flat: OMap<string>, prefix: string, sep: string)
    ensures FlattenInto(data, flat, prefix, sep) == PutAll(flat, Leaves(data, prefix, sep))
    decreases data
  {
    if data != [] {
      var e := data[0];
      assert e in data;
      var here := match e.1
        case Scalar(v) => [(prefix + e.0, v)]
        case Array(sub) => Leaves(sub, prefix + e.0 + sep, sep);
      var next := match e.1
        case Scalar(v) => Put(flat, prefix + e.0, v)
        case Array(sub) => FlattenInto(sub, flat, prefix + e.0 + sep, sep);
      if e.1.Scalar? {
        assert next == PutAll(flat, here);
      } else {
        assert e.1 < e;
        FlattenIsPutAll(e.1.entries, flat, prefix + e.0 + sep, sep);
      }
      FlattenIsPutAll(data[1..], next, prefix, sep);
      PutAllAppend(flat, here, Leaves(data[1..], prefix, sep));
    }
  }

  /** Assigning pairs with distinct new keys appends them in order. */
  lemma {:induction false} PutAllFresh(flat: OMap<string>, pairs: seq<(string, string)>)
    requires UniqueKeys(pairs)
    requires forall i :: 0 <= i < |pairs| ==> !HasKey(flat, pairs[i].0)
    ensures PutAll(flat, pairs) == flat + pairs
    decreases |pairs|
  {
    if pairs != [] {
      var k := pairs[0].0;
      var next := Put(flat, k, pairs[0].1);
      assert next == flat + [pairs[0]] by {
        PutAppend(flat, k, pairs[0].1);
      }
      forall i | 0 <= i < |pairs[1..]| ensures !HasKey(next, pairs[1..][i].0) {
        KeysAppend(flat, [pairs[0]]);
        assert pairs[1..][i] == pairs[i + 1];
      }
      PutAllFresh(next, pairs[1..]);
      assert flat + [pairs[0]] + pairs[1..] == flat + pairs;
    }
  }

  lemma {:induction false} PutAppend(m: OMap<string>, k: string, v: string)
    requires !HasKey(m, k)
    ensures Put(m, k, v) == m + [(k, v)]
  {
    if m != [] {
      assert Keys(m) == [m[0].0] + Keys(m[1..]);
      PutAppend(m[1..], k, v);
      assert m + [(k, v)] == [m[0]] + (m[1..] + [(k, v)]);
    }
  }

  lemma {:induction false} PutAllUnique(flat: OMap<string>, pairs: seq<(string, string)>)
    requires UniqueKeys(flat)
    ensures UniqueKeys(PutAll(flat, pairs))
    decreases |pairs|
  {
    if pairs != [] {
      PutUnique(flat, pairs[0].0, pairs[0].1);
      PutAllUnique(Put(flat, pairs[0].0, pairs[0].1), pairs[1..]);
    }
  }

  /**
   * The flat result has one entry per path. When the leaf paths are distinct
   * it is exactly the leaves, depth first and in input order.
   */
  lemma FlattenLeaves(data: seq<(string, Input)>, sep: string)
    ensures UniqueKeys(Flatten(data, sep))
    ensures UniqueKeys(Leaves(data, "", sep)) ==> Flatten(data, sep) == Leaves(data, "", sep)
  {
    FlattenIsPutAll(data, [], "", sep);
    PutAllUnique([], Leaves(data, "", sep));
    if UniqueKeys(Leaves(data, "", sep)) {
      PutAllFresh([], Leaves(data, "", sep));
    }
  }

  /** An entry holding an empty array contributes nothing. */
  lemma FlattenEmptyArray(k: string, rest: seq<(string, Input)>, flat: OMap<string>, prefix: string, sep: string)
    ensures FlattenInto([(k, Array([]))] + rest, flat, prefix, sep) == FlattenInto(rest, flat, prefix, sep)
  {
    assert ([(k, Array([]))] + rest)[1..] == rest;
  }
}
