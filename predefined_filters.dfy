// src/DataFilter/PredefinedFilters/Basic.php: the built-in filter factories.
module PredefinedFilters {
  import opened Common
  import opened Config
  import Util

  // ---------------------------------------------------------------------
  // Trim

  /** The characters PHP's trim() removes by default. */
  predicate IsTrimmed(c: char)
  {
    c == ' ' || c == '\t' || c == '\n' || c == '\r' || c == '\0' || c == 11 as char
  }

  function TrimLeft(s: string): string
  {
    if s != [] && IsTrimmed(s[0]) then TrimLeft(s[1..]) else s
  }

  function TrimRight(s: string): string
  {
    if s != [] && IsTrimmed(s[|s| - 1]) then TrimRight(s[..|s| - 1]) else s
  }

  /** filterTrim: trim($input). */
  function Trim(s: string): string
  {
    TrimRight(TrimLeft(s))
  }

  /** Everything before `i` is whitespace, and `s[i]` (if any) is not. */
  predicate LeftCut(s: string, i: int)
  {
    0 <= i <= |s| && (forall k :: 0 <= k < i ==> IsTrimmed(s[k])) && (i < |s| ==> !IsTrimmed(s[i]))
  }

  /** Everything from `j` on is whitespace, and `s[j - 1]` (if any) is not. */
  predicate RightCut(s: string, j: int)
  {
    0 <= j <= |s| && (forall k :: j <= k < |s| ==> IsTrimmed(s[k])) && (j > 0 ==> !IsTrimmed(s[j - 1]))
  }

  /** `s[i..j]` is `s` without its leading and trailing whitespace. */
  predicate TrimBounds(s: string, i: int, j: int)
  {
    0 <= i <= j <= |s|
    && (forall k :: 0 <= k < i ==> IsTrimmed(s[k]))
    && (forall k :: j <= k < |s| ==> IsTrimmed(s[k]))
    && (i < j ==> !IsTrimmed(s[i]) && !IsTrimmed(s[j - 1]))
  }

  lemma {:induction false} TrimLeftCut(s: string)
    ensures exists i :: LeftCut(s, i) && TrimLeft(s) == s[i..]
  {
    if s != [] && IsTrimmed(s[0]) {
      TrimLeftCut(s[1..]);
      var i :| LeftCut(s[1..], i) && TrimLeft(s[1..]) == s[1..][i..];
      assert TrimLeft(s) == s[i + 1..];
      forall k | 0 <= k < i + 1 ensures IsTrimmed(s[k]) {
        if k > 0 {
          assert s[k] == s[1..][k - 1];
        }
      }
      assert LeftCut(s, i + 1);
    } else {
      assert LeftCut(s, 0) && TrimLeft(s) == s[0..];
    }
  }

  lemma {:induction false} TrimRightCut(s: string)
    ensures exists j :: RightCut(s, j) && TrimRight(s) == s[..j]
  {
    if s != [] && IsTrimmed(s[|s| - 1]) {
      var f := s[..|s| - 1];
      TrimRightCut(f);
      var j :| RightCut(f, j) && TrimRight(f) == f[..j];
      assert TrimRight(s) == s[..j];
      assert RightCut(s, j);
    } else {
      assert RightCut(s, |s|) && TrimRight(s) == s[..|s|];
    }
  }

  /**
   * trim() removes exactly the leading and trailing run of whitespace: the
   * result is the slice s[i..j] where everything outside is whitespace and
   * the slice neither starts nor ends with whitespace.
   */
  lemma TrimSlice(s: string)
    ensures exists i, j :: TrimBounds(s, i, j) && Trim(s) == s[i..j]
  {
    TrimLeftCut(s);
    var i :| LeftCut(s, i) && TrimLeft(s) == s[i..];
    var t := s[i..];
    TrimRightCut(t);
    var j :| RightCut(t, j) && TrimRight(t) == t[..j];
    assert t[..j] == s[i..i + j];
    assert Trim(s) == s[i..i + j];
    assert forall k :: 0 <= k < i ==> IsTrimmed(s[k]);
    forall k | i + j <= k < |s| ensures IsTrimmed(s[k]) {
      assert s[k] == t[k - i];
    }
    if j > 0 {
      assert s[i] == t[0];
      assert s[i + j - 1] == t[j - 1];
    }
    assert TrimBounds(s, i, i + j);
  }

  lemma {:induction false} TrimLeftKeeps(s: string)
    requires s == [] || !IsTrimmed(s[0])
    ensures TrimLeft(s) == s
  {
  }

  lemma {:induction false} TrimRightKeeps(s: string)
    requires s == [] || !IsTrimmed(s[|s| - 1])
    ensures TrimRight(s) == s
  {
  }

  /** Trimming twice is trimming once. */
  lemma TrimIdempotent(s: string)
    ensures Trim(Trim(s)) == Trim(s)
  {
    TrimSlice(s);
    var t := Trim(s);
    if t != [] {
      TrimLeftKeeps(t);
      TrimRightKeeps(t);
    }
  }

  // ---------------------------------------------------------------------
  // WebCompliant

  /** `[a-z0-9\-_\.~]`. */
  predicate IsWebChar(c: char)
  {
    'a' <= c <= 'z' || '0' <= c <= '9' || c == '-' || c == '_' || c == '.' || c == '~'
  }

  /** preg_replace('/[^a-z0-9\-_\.~]/', '-', ...). */
  function DashOthers(s: string): (r: string)
    ensures |r| == |s|
    ensures forall i :: 0 <= i < |s| ==> r[i] == if IsWebChar(s[i]) then s[i] else '-'
  {
    if s == [] then [] else [if IsWebChar(s[0]) then s[0] else '-'] + DashOthers(s[1..])
  }

  /** preg_replace('/\-\-+/', '-', ...): each run of dashes becomes one. */
  function CollapseDashes(s: string): string
  {
    if |s| >= 2 && s[0] == '-' && s[1] == '-' then CollapseDashes(s[1..])
    else if s == [] then []
    else [s[0]] + CollapseDashes(s[1..])
  }

  function DropLeadingDashes(s: string): string
  {
    if s != [] && s[0] == '-' then DropLeadingDashes(s[1..]) else s
  }

  function DropTrailingDashes(s: string): string
  {
    if s != [] && s[|s| - 1] == '-' then DropTrailingDashes(s[..|s| - 1]) else s
  }

  /** preg_replace('/(?:^\-+|\-+$)/', '', ...). */
  function StripDashes(s: string): string
  {
    DropTrailingDashes(DropLeadingDashes(s))
  }

  /** filterWebCompliant. */
  function WebCompliant(s: string): string
  {
    StripDashes(CollapseDashes(DashOthers(Lower(s))))
  }

  /** A URL slug: web characters only, no doubled dash, no dash at either end. */
  predicate IsSlug(s: string)
  {
    (forall i :: 0 <= i < |s| ==> IsWebChar(s[i]))
    && (forall i :: 0 <= i < |s| - 1 ==> !(s[i] == '-' && s[i + 1] == '-'))
    && (s != [] ==> s[0] != '-' && s[|s| - 1] != '-')
  }

  predicate NoDoubleDash(s: string)
  {
    forall i :: 0 <= i < |s| - 1 ==> !(s[i] == '-' && s[i + 1] == '-')
  }

  predicate AllWeb(s: string)
  {
    forall i :: 0 <= i < |s| ==> IsWebChar(s[i])
  }

  lemma {:induction false} CollapseProps(s: string)
    ensures AllWeb(s) ==> AllWeb(CollapseDashes(s))
    ensures NoDoubleDash(CollapseDashes(s))
    ensures s != [] ==> CollapseDashes(s) != [] && CollapseDashes(s)[0] == s[0]
    ensures NoDoubleDash(s) ==> CollapseDashes(s) == s
    decreases |s|
  {
    if |s| >= 2 && s[0] == '-' && s[1] == '-' {
      CollapseProps(s[1..]);
    } else if s != [] {
      CollapseProps(s[1..]);
      var c := CollapseDashes(s[1..]);
      assert CollapseDashes(s) == [s[0]] + c;
      if c != [] {
        assert c[0] == s[1];
      }
    }
  }

  lemma {:induction false} DropLeadingProps(s: string)
    ensures exists i :: 0 <= i <= |s| && DropLeadingDashes(s) == s[i..]
    ensures DropLeadingDashes(s) != [] ==> DropLeadingDashes(s)[0] != '-'
  {
    if s != [] && s[0] == '-' {
      DropLeadingProps(s[1..]);
      var i :| 0 <= i <= |s[1..]| && DropLeadingDashes(s[1..]) == s[1..][i..];
      assert DropLeadingDashes(s) == s[i + 1..];
    } else {
      assert DropLeadingDashes(s) == s[0..];
    }
  }

  lemma {:induction false} DropTrailingProps(s: string)
    ensures exists j :: 0 <= j <= |s| && DropTrailingDashes(s) == s[..j]
    ensures DropTrailingDashes(s) != [] ==> DropTrailingDashes(s)[|DropTrailingDashes(s)| - 1] != '-'
  {
    if s != [] && s[|s| - 1] == '-' {
      var f := s[..|s| - 1];
      DropTrailingProps(f);
      var j :| 0 <= j <= |f| && DropTrailingDashes(f) == f[..j];
      assert DropTrailingDashes(s) == s[..j];
    } else {
      assert DropTrailingDashes(s) == s[..|s|];
    }
  }

  /** A slice keeps the character and adjacency properties. */
  lemma SliceKeeps(s: string, i: int, j: int)
    requires 0 <= i <= j <= |s|
    ensures AllWeb(s) ==> AllWeb(s[i..j])
    ensures NoDoubleDash(s) ==> NoDoubleDash(s[i..j])
  {
    var t := s[i..j];
    assert forall k :: 0 <= k < |t| ==> t[k] == s[i + k];
  }

  lemma StripProps(s: string)
    ensures AllWeb(s) && NoDoubleDash(s) ==> IsSlug(StripDashes(s))
    ensures exists i, j :: 0 <= i <= j <= |s| && StripDashes(s) == s[i..j]
  {
    DropLeadingProps(s);
    var i :| 0 <= i <= |s| && DropLeadingDashes(s) == s[i..];
    var t := s[i..];
    DropTrailingProps(t);
    var j :| 0 <= j <= |t| && DropTrailingDashes(t) == t[..j];
    assert StripDashes(s) == s[i..i + j];
    SliceKeeps(s, i, i + j);
    var r := StripDashes(s);
    if r != [] {
      assert r[0] == t[0];
    }
  }

  /** The web-compliant filter always yields a URL slug. */
  lemma WebCompliantIsSlug(s: string)
    ensures IsSlug(WebCompliant(s))
  {
    var d := DashOthers(Lower(s));
    CollapseProps(d);
    StripProps(CollapseDashes(d));
  }

  lemma {:induction false} LowerKeepsWeb(s: string)
    requires AllWeb(s)
    ensures Lower(s) == s
  {
  }

  lemma {:induction false} DashOthersKeepsWeb(s: string)
    requires AllWeb(s)
    ensures DashOthers(s) == s
  {
  }

  lemma {:induction false} DropLeadingKeeps(s: string)
    requires s == [] || s[0] != '-'
    ensures DropLeadingDashes(s) == s
  {
  }

  lemma {:induction false} DropTrailingKeeps(s: string)
    requires s == [] || s[|s| - 1] != '-'
    ensures DropTrailingDashes(s) == s
  {
  }

  /** A slug passes through the filter unchanged, so the filter is idempotent. */
  lemma WebCompliantIdempotent(s: string)
    ensures IsSlug(s) ==> WebCompliant(s) == s
    ensures WebCompliant(WebCompliant(s)) == WebCompliant(s)
  {
    forall t | IsSlug(t) ensures WebCompliant(t) == t {
      LowerKeepsWeb(t);
      DashOthersKeepsWeb(t);
      CollapseProps(t);
      DropLeadingKeeps(t);
      DropTrailingKeeps(t);
    }
    WebCompliantIsSlug(s);
  }

  lemma LowerAppend(a: string, b: string)
    ensures Lower(a + b) == Lower(a) + Lower(b)
  {
  }

  lemma DashAppend(a: string, b: string)
    ensures DashOthers(a + b) == DashOthers(a) + DashOthers(b)
  {
  }

  /** Collapsing works piecewise when no run of dashes straddles the cut. */
  lemma {:induction false} CollapseAppend(a: string, b: string)
    requires a == [] || b == [] || a[|a| - 1] != '-' || b[0] != '-'
    ensures CollapseDashes(a + b) == CollapseDashes(a) + CollapseDashes(b)
  {
    if a == [] {
      assert a + b == b;
    } else if |a| == 1 {
      assert a + b == [a[0]] + b;
    } else {
      assert (a + b)[1..] == a[1..] + b;
      CollapseAppend(a[1..], b);
    }
  }

  /** The filter before its final strip. */
  function Stages(s: string): string
  {
    CollapseDashes(DashOthers(Lower(s)))
  }

  /** The stages work piecewise after a piece that does not end in a dash. */
  lemma StagesAppend(a: string, b: string)
    requires EndsClean(a)
    ensures Stages(a + b) == Stages(a) + Stages(b)
  {
    LowerAppend(a, b);
    DashAppend(Lower(a), Lower(b));
    CollapseAppend(DashOthers(Lower(a)), DashOthers(Lower(b)));
  }

  lemma StagesFive(w1: string, w2: string, w3: string, w4: string, w5: string)
    requires EndsClean(w1) && EndsClean(w2) && EndsClean(w3) && EndsClean(w4)
    ensures Stages(w1 + (w2 + (w3 + (w4 + w5)))) == Stages(w1) + Stages(w2) + Stages(w3) + Stages(w4) + Stages(w5)
  {
    StagesThree(w3, w4, w5);
    StagesThree(w1, w2, w3 + (w4 + w5));
    Util.AppendAssoc(Stages(w1), Stages(w2), Stages(w3), Stages(w4), Stages(w5));
  }

  lemma StagesThree(a: string, b: string, c: string)
    requires EndsClean(a) && EndsClean(b)
    ensures Stages(a + (b + c)) == Stages(a) + Stages(b) + Stages(c)
  {
    StagesAppend(b, c);
    StagesAppend(a, b + c);
  }

  /** After the first two stages `a` does not end in a dash. */
  predicate EndsClean(a: string)
  {
    DashOthers(Lower(a)) != [] && DashOthers(Lower(a))[|DashOthers(Lower(a))| - 1] != '-'
  }

  lemma ExampleWords(s: string)
    requires s == "What are you doing?"
    ensures s == "What" + (" are" + (" you" + (" doing" + "?")))
  {
  }

  lemma ExampleWord1()
    ensures Stages("What") == "what" && EndsClean("What")
  {
  }

  lemma ExampleWord2()
    ensures Stages(" are") == "-are" && EndsClean(" are")
  {
  }

  lemma ExampleWord3()
    ensures Stages(" you") == "-you" && EndsClean(" you")
  {
  }

  lemma ExampleWord4()
    ensures Stages(" doing") == "-doing" && EndsClean(" doing")
  {
  }

  lemma ExampleWord5()
    ensures Stages("?") == "-"
  {
  }

  lemma ExampleStages(s: string)
    requires s == "What" + (" are" + (" you" + (" doing" + "?")))
    ensures Stages(s) == "what" + "-are" + "-you" + "-doing" + "-"
  {
    ExampleWord1();
    ExampleWord2();
    ExampleWord3();
    ExampleWord4();
    ExampleWord5();
    StagesFive("What", " are", " you", " doing", "?");
  }

  lemma ExampleStrip(s: string)
    requires s == "what-are-you-doing-"
    ensures StripDashes(s) == "what-are-you-doing"
  {
    DropLeadingKeeps(s);
    var t := s[..|s| - 1];
    assert t == "what-are-you-doing";
    DropTrailingKeeps(t);
  }

  /** The example sentence becomes a slug of its words. */
  lemma WebCompliantExample(s: string)
    requires s == "What are you doing?"
    ensures WebCompliant(s) == "what-are-you-doing"
  {
    ExampleWords(s);
    ExampleStages(s);
    assert "what" + "-are" + "-you" + "-doing" + "-" == "what-are-you-doing-";
    ExampleStrip(Stages(s));
  }

  // ---------------------------------------------------------------------
  // The catalog

  /** The filter class PredefinedFilters\Basic, keyed by lower-cased method name. */
  function BasicFilters(natives: Natives): FilterCatalog
  {
    map[
      "filtertrim" := (owner: Owner) => Trim,
      "filterwebcompliant" := (owner: Owner) => WebCompliant,
      "filterwebcompliantunicode" := (owner: Owner) => natives.webCompliantUnicode
    ]
  }
}
