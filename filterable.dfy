// src/DataFilter/Filterable.php: the pre- and post-filter chains a profile
// and every attribute carry. Filters are registered with addFilters, which
// resolves each given filter to a closure and appends it, and run with
// applyFilter, which threads a value through a chain in registration order.
module Filterable {
  import opened Common
  import opened Config

  /** A filter as addFilters receives it. */
  datatype FilterSpec =
    | Closure(f: Transform)              // an anonymous function, kept as it is
    | ArrayCallable(f: Transform)        // [class, method], wrapped into a one-argument closure
    | Named(name: string)                // a predefined filter, looked up as "filter<name>"
    | Invokable(factory: FilterFactory)  // any other callable: called once with the owner, its result is kept
    | NotCallable                        // anything else

  /** The `$filters` argument: a single value, or a list of filters. */
  datatype FilterArg = One(spec: FilterSpec) | Many(specs: seq<FilterSpec>)

  /** The positions addFilters and applyFilter accept. */
  predicate IsPosition(position: string)
  {
    position == "pre" || position == "post"
  }

  /** PHP's is_callable for a filter value. */
  predicate IsCallable(spec: FilterSpec, natives: Natives)
  {
    match spec
    case Closure(_) => true
    case ArrayCallable(_) => true
    case Named(name) => natives.isFunctionName(name)
    case Invokable(_) => true
    case NotCallable => false
  }

  /**
   * The list addFilters walks: a single callable becomes a one-element list;
   * a single value that is not callable is not a list, and PHP's foreach over
   * it yields nothing.
   */
  function AsList(arg: FilterArg, natives: Natives): (specs: seq<FilterSpec>)
    ensures arg.Many? ==> specs == arg.specs
    ensures arg.One? ==> (specs == [arg.spec] <==> IsCallable(arg.spec, natives))
    ensures arg.One? ==> (specs == [] <==> !IsCallable(arg.spec, natives))
  {
    match arg
    case Many(specs) => specs
    case One(spec) => if IsCallable(spec, natives) then [spec] else []
  }

  /** The closure addFilters stores for one filter, or the exception it throws. */
  function Resolve(spec: FilterSpec, owner: Owner, catalogs: seq<FilterCatalog>): Outcome<Transform>
  {
    match spec
    case Closure(f) => Ok(f)
    case ArrayCallable(f) => Ok(f)
    case Named(name) =>
      (match CatalogFind(catalogs, "filter" + name)
       case None => Thrown(UnknownFilter("filter" + name))
       case Some(factory) => Ok(factory(owner)))
    case Invokable(factory) => Ok(factory(owner))
    case NotCallable => Thrown(FilterNotCallable)
  }

  /** What a run of addFilters appends, and how it ends. */
  datatype Resolved = Resolved(filters: seq<Transform>, outcome: Outcome<()>)

  /** Resolves the filters in order; the first exception ends the run. */
  function ResolveAll(specs: seq<FilterSpec>, owner: Owner, catalogs: seq<FilterCatalog>): Resolved
  {
    if specs == [] then Resolved([], Ok(()))
    else match Resolve(specs[0], owner, catalogs)
      case Thrown(e) => Resolved([], Thrown(e))
      case Ok(f) =>
        var rest := ResolveAll(specs[1..], owner, catalogs);
        Resolved([f] + rest.filters, rest.outcome)
  }

  lemma ResolveAllStep(specs: seq<FilterSpec>, owner: Owner, catalogs: seq<FilterCatalog>)
    requires specs != []
    ensures var f := Resolve(specs[0], owner, catalogs);
      var rest := ResolveAll(specs[1..], owner, catalogs);
      ResolveAll(specs, owner, catalogs)
        == if f.Thrown? then Resolved([], Thrown(f.error)) else Resolved([f.value] + rest.filters, rest.outcome)
  {
  }

  /** The loop of addFilters(): each filter is resolved in turn; the first exception ends it. */
  method ResolveEach(specs: seq<FilterSpec>, owner: Owner, catalogs: seq<FilterCatalog>) returns (res: Resolved)
    ensures res == ResolveAll(specs, owner, catalogs)
  {
    ghost var all := ResolveAll(specs, owner, catalogs);
    var added: seq<Transform> := [];
    var i := 0;
    while i < |specs|
      invariant 0 <= i <= |specs|
      invariant var rest := ResolveAll(specs[i..], owner, catalogs);
        all.filters == added + rest.filters && all.outcome == rest.outcome
    {
      ResolveAllStep(specs[i..], owner, catalogs);
      assert specs[i..][1..] == specs[i + 1..];
      var f := Resolve(specs[i], owner, catalogs);
      if f.Thrown? {
        return Resolved(added, Thrown(f.error));
      }
      added := added + [f.value];
      i := i + 1;
    }
    assert specs[i..] == [];
    res := Resolved(added, Ok(()));
  }

  /**
   * The filters appended are the resolved filters of a prefix of the list:
   * all of it when every filter resolves, and otherwise everything before the
   * first filter that throws, whose exception is the outcome.
   */
  lemma {:induction false} ResolveAllPrefix(specs: seq<FilterSpec>, owner: Owner, catalogs: seq<FilterCatalog>)
    ensures var r := ResolveAll(specs, owner, catalogs);
      |r.filters| <= |specs|
      && (forall i :: 0 <= i < |r.filters| ==> Resolve(specs[i], owner, catalogs) == Ok(r.filters[i]))
      && (r.outcome.Ok? <==> |r.filters| == |specs|)
      && (r.outcome.Thrown? ==> Resolve(specs[|r.filters|], owner, catalogs) == Thrown(r.outcome.error))
    ensures ResolveAll(specs, owner, catalogs).outcome.Ok?
      <==> forall i :: 0 <= i < |specs| ==> Resolve(specs[i], owner, catalogs).Ok?
  {
    if specs != [] {
      ResolveAllPrefix(specs[1..], owner, catalogs);
      var r := ResolveAll(specs, owner, catalogs);
      if Resolve(specs[0], owner, catalogs).Ok? {
        assert forall i :: 1 <= i < |specs| ==> specs[1..][i - 1] == specs[i];
        if r.outcome.Ok? {
          forall i | 0 <= i < |specs| ensures Resolve(specs[i], owner, catalogs).Ok? {
            if i > 0 {
              assert specs[1..][i - 1] == specs[i];
            }
          }
        }
      }
    }
  }

  /** Threads `input` through the filters, first registered first. */
  function ApplyChain(filters: seq<Transform>, input: string): string
  {
    if filters == [] then input
    else filters[|filters| - 1](ApplyChain(filters[..|filters| - 1], input))
  }

  /** Running two chains one after the other is running their concatenation. */
  lemma {:induction false} ApplyChainAppend(a: seq<Transform>, b: seq<Transform>, input: string)
    ensures ApplyChain(a + b, input) == ApplyChain(b, ApplyChain(a, input))
  {
    if b == [] {
      assert a + b == a;
    } else {
      assert (a + b)[..|a + b| - 1] == a + b[..|b| - 1];
      ApplyChainAppend(a, b[..|b| - 1], input);
    }
  }

  /** The first registered filter sees the input first. */
  lemma ApplyChainFirst(f: Transform, rest: seq<Transform>, input: string)
    ensures ApplyChain([f] + rest, input) == ApplyChain(rest, f(input))
  {
    ApplyChainAppend([f], rest, input);
    assert ApplyChain([f], input) == f(ApplyChain([], input));
  }

  /** The pre- and post-filter lists of a profile or an attribute. */
  class FilterChains {
    var pre: seq<Transform>
    var post: seq<Transform>
    /** Who the chains belong to; predefined filter factories receive it. */
    const owner: Owner
    const config: Config

    constructor (owner: Owner, config: Config)
      ensures pre == [] && post == []
      ensures this.owner == owner && this.config == config
    {
      pre := [];
      post := [];
      this.owner := owner;
      this.config := config;
    }

    function Chain(position: string): seq<Transform>
      reads this`pre, this`post
    {
      if position == "pre" then pre else post
    }

    /**
     * addFilters: a bad position throws before anything changes; otherwise
     * the resolved filters are appended to that chain, and those resolved
     * before an exception stay appended.
     */
    method AddFilters(position: string, arg: FilterArg) returns (r: Outcome<()>)
      modifies this`pre, this`post
      ensures !IsPosition(position) ==> r == Thrown(BadFilterPosition(position))
      ensures !IsPosition(position) ==> pre == old(pre) && post == old(post)
      ensures IsPosition(position) ==>
        var res := ResolveAll(AsList(arg, config.natives), owner, config.filterCatalogs);
        Chain(position) == old(Chain(position)) + res.filters && r == res.outcome
      ensures position != "pre" ==> pre == old(pre)
      ensures position != "post" ==> post == old(post)
    {
      if !IsPosition(position) {
        return Thrown(BadFilterPosition(position));
      }
      var res := ResolveEach(AsList(arg, config.natives), owner, config.filterCatalogs);
      if position == "pre" {
        pre := pre + res.filters;
      } else {
        post := post + res.filters;
      }
      r := res.outcome;
    }

    method AddPreFilters(arg: FilterArg) returns (r: Outcome<()>)
      modifies this`pre, this`post
      ensures post == old(post)
      ensures var res := ResolveAll(AsList(arg, config.natives), owner, config.filterCatalogs);
        pre == old(pre) + res.filters && r == res.outcome
    {
      r := AddFilters("pre", arg);
    }

    method AddPostFilters(arg: FilterArg) returns (r: Outcome<()>)
      modifies this`pre, this`post
      ensures pre == old(pre)
      ensures var res := ResolveAll(AsList(arg, config.natives), owner, config.filterCatalogs);
        post == old(post) + res.filters && r == res.outcome
    {
      r := AddFilters("post", arg);
    }

    /** applyFilter: a bad position throws; otherwise the chain's left fold. */
    method ApplyFilter(position: string, input: string) returns (r: Outcome<string>)
      ensures !IsPosition(position) ==> r == Thrown(BadFilterPosition(position))
      ensures IsPosition(position) ==> r == Ok(ApplyChain(Chain(position), input))
    {
      if !IsPosition(position) {
        return Thrown(BadFilterPosition(position));
      }
      var filters := Chain(position);
      if filters == [] {
        return Ok(input);
      }
      var value := input;
      var i := 0;
      while i < |filters|
        invariant 0 <= i <= |filters|
        invariant value == ApplyChain(filters[..i], input)
      {
        assert filters[..i + 1][..i] == filters[..i];
        value := filters[i](value);
        i := i + 1;
      }
      assert filters[..i] == filters;
      r := Ok(value);
    }
  }
}
