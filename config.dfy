// The profile-wide settings every attribute and rule consults: the error and
// missing templates and the predefined rule and filter catalogs
// (src/DataFilter/Profile.php:159-194). The profile never changes them after
// construction, so attributes and rules hold a copy instead of a reference to
// their profile.
//
// PHP finds a predefined rule "Name" by looking for a static method
// "ruleName" on each catalog class in turn. Here a catalog is a map from the
// lower-cased method name (PHP method names are case-insensitive) to a
// factory, and the first catalog that has the method wins.
module Config {
  import opened Common

  /** A constraint closure, applied to the input value. */
  type Predicate = string -> bool

  /** A filter closure. */
  type Transform = string -> string

  /** A static `rule<Name>(...$args)`; None when the call yields no closure. */
  type RuleFactory = seq<string> -> Option<Predicate>

  /** Who registers a filter: the profile, or the attribute with this name. */
  datatype Owner = ProfileOwner | AttributeOwner(attribName: string)

  /** A static `filter<Name>($attribute, $profile)`. */
  type FilterFactory = Owner -> Transform

  type RuleCatalog = map<string, RuleFactory>
  type FilterCatalog = map<string, FilterFactory>

  /**
   * Library routines the predicates call and this model does not define:
   * preg_match, is_numeric, the date_parse checks, the \p{L} variants, and
   * whether a string names a global PHP function (which makes it callable).
   */
  datatype Natives = Natives(
    pregMatch: (string, string) -> bool,
    isFunctionName: Predicate,
    isNumeric: Predicate,
    isDate: Predicate,
    isTime: Predicate,
    isDateTime: Predicate,
    isUrlPartUnicode: Predicate,
    webCompliantUnicode: Transform)

  /** Profile::DEFAULT_ERROR. */
  const DefaultErrorTemplate: string := "Attribute \":attrib:\" does not match \":rule:\""

  /** Profile::DEFAULT_MISSING. */
  const DefaultMissingTemplate: string := "Attribute \":attrib:\" is missing"

  datatype Config = Config(
    errorTemplate: string,
    missingTemplate: string,
    ruleCatalogs: seq<RuleCatalog>,
    filterCatalogs: seq<FilterCatalog>,
    natives: Natives)

  /** Catalog `i` is the first that implements `name`. */
  predicate FirstWith<F>(catalogs: seq<map<string, F>>, name: string, i: int)
  {
    0 <= i < |catalogs| && Lower(name) in catalogs[i]
    && forall j :: 0 <= j < i ==> Lower(name) !in catalogs[j]
  }

  /** The factory of the first catalog that implements `name`. */
  function CatalogFind<F>(catalogs: seq<map<string, F>>, name: string): (r: Option<F>)
    ensures r.Some? <==> exists i :: 0 <= i < |catalogs| && Lower(name) in catalogs[i]
    ensures r.Some? ==> exists i :: FirstWith(catalogs, name, i) && r.value == catalogs[i][Lower(name)]
  {
    if catalogs == [] then None
    else if Lower(name) in catalogs[0] then Some(catalogs[0][Lower(name)])
    else
      var r := CatalogFind(catalogs[1..], name);
      if r.Some? then
        ghost var i :| FirstWith(catalogs[1..], name, i) && r.value == catalogs[1..][i][Lower(name)];
        assert Lower(name) in catalogs[i + 1];
        assert forall j :: 0 <= j < i + 1 ==> Lower(name) !in catalogs[j] by {
          forall j | 0 <= j < i + 1 ensures Lower(name) !in catalogs[j] {
            if j > 0 {
              assert catalogs[j] == catalogs[1..][j - 1];
            }
          }
        }
        assert FirstWith(catalogs, name, i + 1);
        r
      else
        assert forall i :: 1 <= i < |catalogs| ==> catalogs[i] == catalogs[1..][i - 1];
        r
  }

  /** Catalogs added later never shadow an earlier one. */
  lemma CatalogFindAppend<F>(first: seq<map<string, F>>, more: seq<map<string, F>>, name: string)
    requires CatalogFind(first, name).Some?
    ensures CatalogFind(first + more, name) == CatalogFind(first, name)
  {
    if Lower(name) !in first[0] {
      assert (first + more)[1..] == first[1..] + more;
      CatalogFindAppend(first[1..], more, name);
    }
  }
}
