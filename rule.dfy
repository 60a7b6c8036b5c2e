// src/DataFilter/Rule.php: one named validation rule of an attribute. A
// definition is normalised into a constraint closure plus the sufficient,
// skipEmpty and error settings; a string constraint "Name:a:b" is resolved
// against the rule catalogs as rule<Name>(a, b). A definition marked lazy is
// stored and parsed on the first check.
module Rules {
  import opened Common
  import opened Util
  import opened Config
  import opened PredefinedRules

  /** The constraint a definition names. */
  datatype Constraint =
    | Closure(p: Predicate)        // an anonymous function
    | ArrayCallable(p: Predicate)  // [class, method], wrapped into a closure
    | Named(spec: string)          // a predefined rule "Name:arg1:arg2"
    | NotClosure                   // an invokable object, a scalar, or no constraint at all

  /** The `error` setting: `false` suppresses the message; otherwise a template (null is read as ""). */
  datatype ErrorSetting = Suppressed | Template(text: string)

  /** A rule definition. */
  datatype RuleDef =
    | Bare(constraint: Constraint)  // a string or callable given directly
    | Fields(constraint: Constraint, sufficient: bool, skipEmpty: bool, error: ErrorSetting, lazy: bool)
    | Invalid                       // null, or another value that is neither array, string nor callable

  /** What parseDefinition stores. */
  datatype Parsed = Parsed(constraint: Predicate, sufficient: bool, skipEmpty: bool, error: ErrorSetting)

  /** The constructor defers parsing iff the definition is an array with `lazy` exactly true. */
  predicate IsLazy(def: RuleDef)
  {
    def.Fields? && def.lazy
  }

  /** The closure a constraint resolves to, or the exception parseDefinition throws. */
  function ResolveConstraint(c: Constraint, catalogs: seq<RuleCatalog>): Outcome<Predicate>
  {
    match c
    case Closure(p) => Ok(p)
    case ArrayCallable(p) => Ok(p)
    case Named(spec) =>
      var args := Split(spec, ":");
      var methodName := "rule" + args[0];
      (match CatalogFind(catalogs, methodName)
       case None => Thrown(UnknownRule(methodName))
       case Some(factory) =>
         (match factory(args[1..])
          case None => Thrown(RuleFactoryFailed(methodName))
          case Some(p) => Ok(p)))
    case NotClosure => Thrown(ConstraintNotCallable)
  }

  /** parseDefinition($definition) for a given definition. */
  function ParseDefinition(def: RuleDef, catalogs: seq<RuleCatalog>): Outcome<Parsed>
  {
    match def
    case Invalid => Thrown(ConstraintNotCallable)
    case Bare(c) =>
      (match ResolveConstraint(c, catalogs)
       case Thrown(e) => Thrown(e)
       case Ok(p) => Ok(Parsed(p, false, false, Template(""))))
    case Fields(c, sufficient, skipEmpty, error, _) =>
      (match ResolveConstraint(c, catalogs)
       case Thrown(e) => Thrown(e)
       case Ok(p) => Ok(Parsed(p, sufficient, skipEmpty, error)))
  }

  /**
   * parseDefinition() without an argument, as the lazy check calls it. The
   * guard throws when a definition IS stored, and without one PHP merges the
   * defaults with null, which leaves no closure: either way it throws.
   */
  function ParseStored(stored: Option<RuleDef>, catalogs: seq<RuleCatalog>): (r: Outcome<Parsed>)
    ensures r.Thrown?
    ensures stored.Some? ==> r == Thrown(NullDefinition)
  {
    if stored.Some? then Thrown(NullDefinition)
    else ParseDefinition(Invalid, catalogs)
  }

  /** A bare string or callable is the array {constraint: it} merged with the defaults. */
  lemma BareIsDefaults(c: Constraint, catalogs: seq<RuleCatalog>)
    ensures ParseDefinition(Bare(c), catalogs) == ParseDefinition(Fields(c, false, false, Template(""), false), catalogs)
    ensures ParseDefinition(Bare(c), catalogs).Ok? <==> ResolveConstraint(c, catalogs).Ok?
  {
  }

  /** What check returns once the rule is parsed. */
  function Verdict(skipEmpty: bool, constraint: Option<Predicate>, input: string): Outcome<bool>
  {
    if |input| == 0 && skipEmpty then Ok(true)
    else if constraint.None? then Thrown(ConstraintNotCallable)
    else Ok(constraint.value(input))
  }

  /**
   * getError($attrib): null when the error is `false`; otherwise the rule's
   * template, else the attribute's default error, else the profile's
   * template (a falsy value falls through), with `:rule:` and then
   * `:attrib:` substituted.
   */
  function ErrorText(error: ErrorSetting, ruleName: string, attribName: string, attribError: string, profileTemplate: string)
    : Option<string>
  {
    if error.Suppressed? then None
    else
      var template :=
        if Truthy(error.text) then error.text
        else if Truthy(attribError) then attribError
        else profileTemplate;
      Some(FormatString(template, [("rule", ruleName), ("attrib", attribName)]))
  }

  /** A rule object. Only `lazy` and `lastValue` change after construction. */
  class Rule {
    const name: string
    const constraint: Option<Predicate>
    const sufficient: bool
    const skipEmpty: bool
    const error: ErrorSetting
    /** The definition kept for a lazy rule. */
    const definition: Option<RuleDef>
    const catalogs: seq<RuleCatalog>
    var lazy: bool
    var lastValue: Option<string>

    /** A rule parsed at construction. */
    constructor FromParsed(name: string, p: Parsed, catalogs: seq<RuleCatalog>)
      ensures this.name == name && this.catalogs == catalogs
      ensures constraint == Some(p.constraint) && sufficient == p.sufficient
      ensures skipEmpty == p.skipEmpty && error == p.error
      ensures definition.None? && !lazy && lastValue.None?
    {
      this.name := name;
      this.catalogs := catalogs;
      constraint := Some(p.constraint);
      sufficient := p.sufficient;
      skipEmpty := p.skipEmpty;
      error := p.error;
      definition := None;
      lazy := false;
      lastValue := None;
    }

    /** A lazy rule: the definition is stored, every other field keeps its class default. */
    constructor Deferred(name: string, def: RuleDef, catalogs: seq<RuleCatalog>)
      ensures this.name == name && this.catalogs == catalogs
      ensures constraint.None? && !sufficient && !skipEmpty && error == Template("")
      ensures definition == Some(def) && lazy && lastValue.None?
    {
      this.name := name;
      this.catalogs := catalogs;
      constraint := None;
      sufficient := false;
      skipEmpty := false;
      error := Template("");
      definition := Some(def);
      lazy := true;
      lastValue := None;
    }

    /** What check returns while the rule is lazy or once it is parsed. */
    function Answer(isLazy: bool, input: string): Outcome<bool>
    {
      if isLazy then ParseStored(definition, catalogs).PropagateFailure()
      else Verdict(skipEmpty, constraint, input)
    }

    /** What check returns in the current state. */
    function Pending(input: string): Outcome<bool>
      reads this`lazy
    {
      Answer(lazy, input)
    }

    /**
     * check($input): a lazy rule clears the flag and parses its stored
     * definition, which throws; otherwise the input is recorded and judged.
     */
    method Check(input: string) returns (r: Outcome<bool>)
      modifies this`lazy, this`lastValue
      ensures r == Answer(old(lazy), input)
      ensures !lazy
      ensures old(lazy) ==> r == ParseStored(definition, catalogs).PropagateFailure() && lastValue == old(lastValue)
      ensures !old(lazy) ==> r == Verdict(skipEmpty, constraint, input) && lastValue == Some(input)
    {
      if lazy {
        lazy := false;
        var parsed := ParseStored(definition, catalogs);
        return parsed.PropagateFailure();
      }
      lastValue := Some(input);
      if |input| == 0 && skipEmpty {
        return Ok(true);
      }
      if constraint.None? {
        return Thrown(ConstraintNotCallable);
      }
      r := Ok(constraint.value(input));
    }

    /** getError($attrib) for the attribute named `attribName`. */
    function ErrorFor(attribName: string, attribError: string, profileTemplate: string): (r: Option<string>)
      ensures r.None? <==> error.Suppressed?
    {
      ErrorText(error, name, attribName, attribError, profileTemplate)
    }
  }

  /** The state the Rule constructor leaves a rule built from `def` in. */
  ghost predicate BuiltFrom(rule: Rule, name: string, def: RuleDef, catalogs: seq<RuleCatalog>)
    reads rule`lazy, rule`lastValue
  {
    rule.name == name && rule.catalogs == catalogs && rule.lastValue.None?
    && if IsLazy(def) then
      rule.lazy && rule.definition == Some(def) && rule.constraint.None?
    else
      ParseDefinition(def, catalogs).Ok? && !rule.lazy
      && var p := ParseDefinition(def, catalogs).value;
      rule.constraint == Some(p.constraint) && rule.sufficient == p.sufficient
      && rule.skipEmpty == p.skipEmpty && rule.error == p.error
  }

  /** The Rule constructor: lazy definitions are stored, all others parsed now. */
  method NewRule(name: string, def: RuleDef, catalogs: seq<RuleCatalog>) returns (r: Outcome<Rule>)
    ensures r.Ok? <==> IsLazy(def) || ParseDefinition(def, catalogs).Ok?
    ensures r.Ok? ==> fresh(r.value) && BuiltFrom(r.value, name, def, catalogs)
    ensures r.Thrown? ==> r.error == ParseDefinition(def, catalogs).error
  {
    if IsLazy(def) {
      var rule := new Rule.Deferred(name, def, catalogs);
      return Ok(rule);
    }
    var parsed := ParseDefinition(def, catalogs);
    if parsed.Thrown? {
      return Thrown(parsed.error);
    }
    var rule := new Rule.FromParsed(name, parsed.value, catalogs);
    r := Ok(rule);
  }

  // ---------------------------------------------------------------------
  // Properties

  /** A lazy rule never reaches its constraint: the stored definition makes parsing throw. */
  lemma LazyThrows(def: RuleDef, catalogs: seq<RuleCatalog>)
    requires IsLazy(def)
    ensures ParseStored(Some(def), catalogs) == Thrown(NullDefinition)
    ensures ParseDefinition(def, catalogs).Ok? ==> ParseStored(Some(def), catalogs).Thrown?
  {
  }

  /** An empty input passes a skipEmpty rule whatever its constraint; other inputs go to the constraint. */
  lemma SkipEmpty(constraint: Predicate, skipEmpty: bool, input: string)
    ensures Verdict(true, Some(constraint), "") == Ok(true)
    ensures Verdict(true, None, "") == Ok(true)
    ensures input != "" || !skipEmpty ==> Verdict(skipEmpty, Some(constraint), input) == Ok(constraint(input))
  {
  }

  /**
   * The template precedence: a suppressed error gives no text; a truthy
   * rule error beats the attribute's default error, which beats the
   * profile's template.
   */
  lemma ErrorPrecedence(error: ErrorSetting, ruleName: string, attribName: string, attribError: string, profileTemplate: string)
    ensures ErrorText(error, ruleName, attribName, attribError, profileTemplate).None? <==> error == Suppressed
    ensures error.Template? && Truthy(error.text) ==>
      ErrorText(error, ruleName, attribName, attribError, profileTemplate)
        == Some(FormatString(error.text, [("rule", ruleName), ("attrib", attribName)]))
    ensures error.Template? && !Truthy(error.text) && Truthy(attribError) ==>
      ErrorText(error, ruleName, attribName, attribError, profileTemplate)
        == Some(FormatString(attribError, [("rule", ruleName), ("attrib", attribName)]))
    ensures error.Template? && !Truthy(error.text) && !Truthy(attribError) ==>
      ErrorText(error, ruleName, attribName, attribError, profileTemplate)
        == Some(FormatString(profileTemplate, [("rule", ruleName), ("attrib", attribName)]))
  {
  }

  /**
   * The templates of the inheritance example: whichever level supplies a
   * truthy text without placeholders, that text is the error.
   */
  lemma ErrorInheritance(ruleName: string, attribName: string)
    ensures ErrorText(Template("From Rule"), ruleName, attribName, "From Attrib", "From Profile") == Some("From Rule")
    ensures ErrorText(Template(""), ruleName, attribName, "From Attrib", "From Profile") == Some("From Attrib")
    ensures ErrorText(Template(""), ruleName, attribName, "", "From Profile") == Some("From Profile")
  {
    var args := [("rule", ruleName), ("attrib", attribName)];
    FormatPlain("From Rule", args);
    FormatPlain("From Attrib", args);
    FormatPlain("From Profile", args);
  }

  /** `:rule:` does not occur before the placeholder that follows `a + ":attrib:" + b`. */
  lemma NoRuleBefore(a: string, b: string, c: string)
    requires ':' !in a && ':' !in b && |b| != 4
    ensures var x := a + Placeholder("attrib") + b;
      forall j: nat :: j < |x| ==> !OccursAt(x + Placeholder("rule") + c, Placeholder("rule"), j)
  {
    var p := Placeholder("rule");
    var x := a + Placeholder("attrib") + b;
    var s := x + p + c;
    assert p == ":rule:";
    assert Placeholder("attrib") == ":attrib:";
    forall j: nat | j < |x| ensures !OccursAt(s, p, j) {
      if j + |p| <= |s| {
        var w := s[j..j + |p|];
        if j < |a| {
          assert w[0] == s[j] == a[j];
          assert a[j] in a;
        } else if j == |a| {
          assert w[1] == s[j + 1] == 'a';
        } else if j < |a| + 7 {
          assert w[0] == s[j] == ":attrib:"[j - |a|];
        } else if j > |a| + 7 {
          assert w[0] == s[j] == b[j - |a| - 8];
          assert b[j - |a| - 8] in b;
        } else if j + 5 < |x| {
          assert w[5] == s[j + 5] == b[j + 5 - |a| - 8];
          assert b[j + 5 - |a| - 8] in b;
        } else {
          assert w[5] == s[j + 5] == (p + c)[j + 5 - |x|] == p[j + 5 - |x|];
        }
      }
    }
  }

  /**
   * A template of the default's shape, `a:attrib:b:rule:c` with no other
   * ':' and a rule name without ':', names the attribute and the rule.
   */
  lemma FormatAttribRule(a: string, b: string, c: string, ruleName: string, attribName: string)
    requires ':' !in a && ':' !in b && ':' !in c && ':' !in ruleName && |b| != 4
    ensures FormatString(a + Placeholder("attrib") + b + Placeholder("rule") + c, [("rule", ruleName), ("attrib", attribName)])
      == a + attribName + b + ruleName + c
  {
    var pa, pr := Placeholder("attrib"), Placeholder("rule");
    NoRuleBefore(a, b, c);
    FormatTwo(a + pa + b + pr + c, "rule", ruleName, "attrib", attribName);
    ReplaceBoth(a, b, c, pa, pr, ruleName, attribName);
  }

  /** Replacing the later placeholder first, then the earlier one. */
  lemma ReplaceBoth(a: string, b: string, c: string, pa: string, pr: string, ruleName: string, attribName: string)
    requires |pa| > 0 && |pr| > 0 && pr[0] !in c && pa[0] !in a && pa[0] !in b + ruleName + c
    requires forall j: nat :: j < |a + pa + b| ==> !OccursAt(a + pa + b + pr + c, pr, j)
    ensures ReplaceAll(ReplaceAll(a + pa + b + pr + c, pr, ruleName), pa, attribName)
      == a + attribName + b + ruleName + c
  {
    ReplaceAfter(a + pa + b, pr, c, ruleName);
    AppendAssoc(a, pa, b, ruleName, c);
    ReplaceOne(a, pa, b + ruleName + c, attribName);
    AppendAssoc(a, attribName, b, ruleName, c);
  }

  /** Profile::DEFAULT_ERROR has the shape FormatAttribRule handles. */
  lemma DefaultErrorShape()
    ensures var a, b, c := "Attribute \"", "\" does not match \"", "\"";
      DefaultErrorTemplate == a + Placeholder("attrib") + b + Placeholder("rule") + c
      && ':' !in a && ':' !in b && ':' !in c && |b| != 4
  {
  }

  /** The default template reads `Attribute "<attrib>" does not match "<rule>"`. */
  lemma DefaultErrorText(ruleName: string, attribName: string)
    requires ':' !in ruleName
    ensures ErrorText(Template(""), ruleName, attribName, "", DefaultErrorTemplate)
      == Some("Attribute \"" + attribName + "\" does not match \"" + ruleName + "\"")
  {
    var a, b, c := "Attribute \"", "\" does not match \"", "\"";
    DefaultErrorShape();
    FormatAttribRule(a, b, c, ruleName, attribName);
  }

  /** "Regex:<pattern>" hands the whole pattern, colons included, to ruleRegex. */
  lemma RegexArguments(pattern: string)
    ensures var args := Split("Regex:" + pattern, ":");
      |args| >= 2 && args[0] == "Regex" && Join(args[1..], ":") == pattern
  {
    SplitHead("Regex", pattern, ":");
    assert "Regex:" + pattern == "Regex" + ":" + pattern;
    JoinSplit(pattern, ":");
  }

  /** User catalogs come after the built-in one, so a built-in rule cannot be shadowed. */
  lemma BuiltinFirst(natives: Natives, user: seq<RuleCatalog>, methodName: string)
    requires Lower(methodName) in BasicRules(natives)
    ensures CatalogFind([BasicRules(natives)] + user, methodName) == Some(BasicRules(natives)[Lower(methodName)])
  {
    CatalogFindAppend([BasicRules(natives)], user, methodName);
  }

  /** A named constraint whose method the built-in catalog implements resolves through that factory. */
  lemma NamedBuiltin(natives: Natives, user: seq<RuleCatalog>, spec: string, name: string)
    requires var args := Split(spec, ":"); Lower("rule" + args[0]) == name && name in BasicRuleNames
    ensures var args := Split(spec, ":");
      ResolveConstraint(Named(spec), [BasicRules(natives)] + user)
        == match BasicRule(natives, name, args[1..])
           case None => Thrown(RuleFactoryFailed("rule" + args[0]))
           case Some(p) => Ok(p)
  {
    var args := Split(spec, ":");
    BasicRuleEntry(natives, name, args[1..]);
    BuiltinFirst(natives, user, "rule" + args[0]);
  }

  lemma RegexMethodName()
    ensures Lower("rule" + "Regex") == "ruleregex" && "ruleregex" in BasicRuleNames
  {
  }

  lemma LenMinMethodName()
    ensures Lower("rule" + "LenMin") == "rulelenmin" && "rulelenmin" in BasicRuleNames
  {
  }

  /** "LenMin:<n>" splits into the rule name and the numeral. */
  lemma LenMinArguments(n: nat)
    ensures var args := Split("LenMin:" + ShowNat(n), ":");
      args[0] == "LenMin" && args[1..] == [ShowNat(n)]
  {
    SplitHead("LenMin", ShowNat(n), ":");
    assert "LenMin:" + ShowNat(n) == "LenMin" + ":" + ShowNat(n);
    SplitPlain(ShowNat(n), ":");
  }

  /** The constraint "Regex:<pattern>" matches with the normalised pattern, colons intact. */
  lemma RegexConstraint(natives: Natives, user: seq<RuleCatalog>, pattern: string, input: string)
    ensures var r := ResolveConstraint(Named("Regex:" + pattern), [BasicRules(natives)] + user);
      r.Ok? && (r.value(input) <==> natives.pregMatch(NormalizePattern(pattern), input))
  {
    var spec := "Regex:" + pattern;
    var args := Split(spec, ":");
    RegexArguments(pattern);
    RegexMethodName();
    NamedBuiltin(natives, user, spec, "ruleregex");
    RegexEntry(natives, args[1..]);
  }

  /** The constraint "LenMin:<n>" accepts exactly the inputs of at least n chars, each standing for a byte. */
  lemma LenMinConstraint(natives: Natives, user: seq<RuleCatalog>, n: nat, input: string)
    ensures var r := ResolveConstraint(Named("LenMin:" + ShowNat(n)), [BasicRules(natives)] + user);
      r.Ok? && (r.value(input) <==> |input| >= n)
  {
    var spec := "LenMin:" + ShowNat(n);
    var args := Split(spec, ":");
    LenMinArguments(n);
    LenMinMethodName();
    NamedBuiltin(natives, user, spec, "rulelenmin");
    LenMinEntry(natives, args[1..]);
    LengthFactories(natives, n, n, input);
  }
}
