// src/DataFilter/PredefinedRules/Basic.php: the built-in rule factories.
// Each `rule<Name>(...$args)` returns a closure over its arguments; here a
// factory maps the argument strings to an optional predicate (None when PHP
// could not build the closure).
module PredefinedRules {
  import opened Common
  import opened Util
  import opened Config

  // ---------------------------------------------------------------------
  // Length rules

  /** The value of a decimal numeral; None for anything else. */
  function ParseNat(s: string): (r: Option<nat>)
    ensures r.Some? <==> s != [] && forall i :: 0 <= i < |s| ==> IsDigit(s[i])
  {
    if s == [] || !IsDigit(s[|s| - 1]) then None
    else if |s| == 1 then Some(s[0] as int - '0' as int)
    else
      var front := ParseNat(s[..|s| - 1]);
      if front.None? then None
      else
        assert forall i :: 0 <= i < |s| - 1 ==> s[..|s| - 1][i] == s[i];
        Some(10 * front.value + (s[|s| - 1] as int - '0' as int))
  }

  /** The decimal numeral of `n`. */
  function ShowNat(n: nat): (s: string)
    ensures s != [] && forall i :: 0 <= i < |s| ==> IsDigit(s[i])
  {
    var d := ((n % 10) + '0' as int) as char;
    if n < 10 then [d] else ShowNat(n / 10) + [d]
  }

  /** Reading back a written length gives the length. */
  lemma {:induction false} ParseShow(n: nat)
    ensures ParseNat(ShowNat(n)) == Some(n)
  {
    if n >= 10 {
      var s := ShowNat(n);
      ParseShow(n / 10);
      assert s[..|s| - 1] == ShowNat(n / 10);
    }
  }

  /** ruleLenMin: the length reaches `len`, one char per byte of the PHP string. */
  function LenMin(len: nat): Predicate
  {
    input => |input| >= len
  }

  /** ruleLenMax: the length stays within `len`, one char per byte of the PHP string. */
  function LenMax(len: nat): Predicate
  {
    input => |input| <= len
  }

  /** ruleLenRange: both bounds inclusive. */
  function LenRange(min: nat, max: nat): Predicate
  {
    input => |input| >= min && |input| <= max
  }

  /** The length range is exactly the conjunction of its two bounds. */
  lemma LenRangeBoth(min: nat, max: nat, input: string)
    ensures LenRange(min, max)(input) <==> LenMin(min)(input) && LenMax(max)(input)
    ensures LenRange(min, max)(input) <==> min <= |input| <= max
  {
  }

  // ---------------------------------------------------------------------
  // Character-class rules

  /** ctype_digit: non-empty and ASCII digits only. */
  predicate IsInt(s: string)
  {
    s != [] && forall i :: 0 <= i < |s| ==> IsDigit(s[i])
  }

  /** ctype_alnum: non-empty and ASCII letters or digits only. */
  predicate IsAlphanum(s: string)
  {
    s != [] && forall i :: 0 <= i < |s| ==> IsDigit(s[i]) || IsAsciiLetter(s[i])
  }

  /** Every string the Int rule accepts is one that LenMin reads as a length. */
  lemma IntIsNumeral(s: string)
    ensures IsInt(s) <==> ParseNat(s).Some?
    ensures IsInt(s) ==> IsAlphanum(s)
  {
  }

  /** ruleInArray: the input is one of the arguments. */
  function InArray(options: seq<string>): Predicate
  {
    input => input in options
  }

  // ---------------------------------------------------------------------
  // Regular expressions

  /** Characters PHP accepts as regex delimiters in ruleRegex's check. */
  predicate IsDelimiter(c: char)
  {
    c == '/' || c == '#' || c == '~'
  }

  predicate IsModifier(c: char)
  {
    c in "msugex"
  }

  /** `^([\/#~]).+\1[msugex]*` followed by the end of `t`. */
  predicate DelimitedCore(t: string)
  {
    |t| >= 3 && IsDelimiter(t[0])
    && exists k :: 2 <= k < |t| && IsClosedAt(t, k)
  }

  /** `t[k]` closes the pattern: the body in between has no newline and only modifiers follow. */
  predicate IsClosedAt(t: string, k: int)
    requires 2 <= k < |t| && |t| >= 1
  {
    t[k] == t[0]
    && (forall i :: 1 <= i < k ==> t[i] != '\n')
    && (forall i :: k < i < |t| ==> IsModifier(t[i]))
  }

  /** preg_match('/^([\/#~]).+\1[msugex]*$/', r); `$` also matches before a final newline. */
  predicate IsDelimited(r: string)
  {
    DelimitedCore(r) || (|r| > 0 && r[|r| - 1] == '\n' && DelimitedCore(r[..|r| - 1]))
  }

  /** PHP stripslashes: drops each escaping backslash, reads `\0` as NUL. */
  function StripSlashes(s: string): string
  {
    if s == [] then []
    else if s[0] != '\\' then [s[0]] + StripSlashes(s[1..])
    else if |s| == 1 then []
    else (if s[1] == '0' then ['\0'] else [s[1]]) + StripSlashes(s[2..])
  }

  /** Text without backslashes is not changed by stripslashes. */
  lemma {:induction false} StripPlain(s: string)
    requires '\\' !in s
    ensures StripSlashes(s) == s
  {
    if s != [] {
      assert s[0] in s;
      assert forall c :: c in s[1..] ==> c in s;
      StripPlain(s[1..]);
    }
  }

  /** The pattern ruleRegex matches with. */
  function NormalizePattern(r: string): string
  {
    if IsDelimited(r) then r else "/" + StripSlashes(r) + "/"
  }

  /**
   * A delimited pattern is used as given. Any other pattern is wrapped in
   * slashes, and the wrapped form is itself delimited whenever its body is
   * non-empty and on one line, so normalising it again changes nothing.
   */
  lemma NormalizeWraps(r: string)
    ensures IsDelimited(r) ==> NormalizePattern(r) == r
    ensures var body := StripSlashes(r);
      !IsDelimited(r) && body != [] && '\n' !in body ==>
        IsDelimited(NormalizePattern(r)) && NormalizePattern(NormalizePattern(r)) == NormalizePattern(r)
  {
    var body := StripSlashes(r);
    if !IsDelimited(r) && body != [] && '\n' !in body {
      var t := "/" + body + "/";
      forall i | 1 <= i < |t| - 1 ensures t[i] != '\n' {
        assert t[i] == body[i - 1];
      }
      assert IsClosedAt(t, |t| - 1);
    }
  }

  /** ruleRegex: the arguments, re-joined with ':', as a pattern. */
  function Regex(natives: Natives, args: seq<string>): Predicate
  {
    var pattern := NormalizePattern(Join(args, ":"));
    input => natives.pregMatch(pattern, input)
  }

  /** ruleRegexInverse. */
  function RegexInverse(natives: Natives, args: seq<string>): Predicate
  {
    var pattern := NormalizePattern(Join(args, ":"));
    input => !natives.pregMatch(pattern, input)
  }

  const UrlPartPattern: string := "/^(?:[0-9a-z]+[\\-_~\\.])*[0-9a-z]+$/i"
  const EmailPattern: string := "/^[a-z0-9._%+-]+@(?:[a-z0-9-]+\\.?)*[a-z0-9]+\\.[a-z]{2,4}$/i"

  // ---------------------------------------------------------------------
  // The catalog

  function LenMinFactory(args: seq<string>): Option<Predicate>
  {
    if |args| < 1 then None
    else match ParseNat(args[0])
      case None => None
      case Some(n) => Some(LenMin(n))
  }

  function LenMaxFactory(args: seq<string>): Option<Predicate>
  {
    if |args| < 1 then None
    else match ParseNat(args[0])
      case None => None
      case Some(n) => Some(LenMax(n))
  }

  function LenRangeFactory(args: seq<string>): Option<Predicate>
  {
    if |args| < 2 then None
    else match (ParseNat(args[0]), ParseNat(args[1]))
      case (Some(min), Some(max)) => Some(LenRange(min, max))
      case _ => None
  }

  function RegexFactory(natives: Natives, args: seq<string>): Option<Predicate>
  {
    if args == [] then None else Some(Regex(natives, args))
  }

  function RegexInverseFactory(natives: Natives, args: seq<string>): Option<Predicate>
  {
    if args == [] then None else Some(RegexInverse(natives, args))
  }

  /** The static methods of the rule class PredefinedRules\Basic, lower-cased. */
  const BasicRuleNames: set<string> := {
    "rulelenmin", "rulelenmax", "rulelenrange", "ruleregex", "ruleregexinverse",
    "rulenumber", "ruleint", "rulealphanum", "ruleinarray", "ruledate", "ruletime",
    "ruledatetime", "ruleurlpart", "ruleurlpartunicode", "ruleemail"}

  /** The factory behind one method of PredefinedRules\Basic. */
  function BasicRule(natives: Natives, name: string, args: seq<string>): Option<Predicate>
  {
    match name
    case "rulelenmin" => LenMinFactory(args)
    case "rulelenmax" => LenMaxFactory(args)
    case "rulelenrange" => LenRangeFactory(args)
    case "ruleregex" => RegexFactory(natives, args)
    case "ruleregexinverse" => RegexInverseFactory(natives, args)
    case "rulenumber" => Some(natives.isNumeric)
    case "ruleint" => Some((input: string) => IsInt(input))
    case "rulealphanum" => Some((input: string) => IsAlphanum(input))
    case "ruleinarray" => Some(InArray(args))
    case "ruledate" => Some(natives.isDate)
    case "ruletime" => Some(natives.isTime)
    case "ruledatetime" => Some(natives.isDateTime)
    case "ruleurlpart" => Some((input: string) => natives.pregMatch(UrlPartPattern, input))
    case "ruleurlpartunicode" => Some(natives.isUrlPartUnicode)
    case "ruleemail" => Some((input: string) => natives.pregMatch(EmailPattern, input))
    case _ => None
  }

  /** The rule class PredefinedRules\Basic as a catalog. */
  function BasicRules(natives: Natives): RuleCatalog
  {
    map name | name in BasicRuleNames :: (args: seq<string>) => BasicRule(natives, name, args)
  }

  /** Each listed method is in the catalog with the factory BasicRule gives it. */
  lemma BasicRuleEntry(natives: Natives, name: string, args: seq<string>)
    requires name in BasicRuleNames
    ensures name in BasicRules(natives) && BasicRules(natives)[name](args) == BasicRule(natives, name, args)
  {
  }

  lemma RegexEntry(natives: Natives, args: seq<string>)
    ensures BasicRule(natives, "ruleregex", args) == RegexFactory(natives, args)
  {
  }

  lemma LenMinEntry(natives: Natives, args: seq<string>)
    ensures BasicRule(natives, "rulelenmin", args) == LenMinFactory(args)
  {
  }

  /** The length factories accept exactly the decimal lengths they are given. */
  lemma LengthFactories(natives: Natives, n: nat, m: nat, input: string)
    ensures LenMinFactory([ShowNat(n)]).Some?
      && (LenMinFactory([ShowNat(n)]).value(input) <==> |input| >= n)
    ensures LenMaxFactory([ShowNat(n)]).Some?
      && (LenMaxFactory([ShowNat(n)]).value(input) <==> |input| <= n)
    ensures LenRangeFactory([ShowNat(n), ShowNat(m)]).Some?
      && (LenRangeFactory([ShowNat(n), ShowNat(m)]).value(input) <==> n <= |input| <= m)
  {
    ParseShow(n);
    ParseShow(m);
  }

  /** ruleInArray with arguments `options` accepts exactly the listed strings. */
  lemma InArrayFactory(natives: Natives, options: seq<string>, input: string)
    ensures "ruleinarray" in BasicRules(natives)
    ensures BasicRules(natives)["ruleinarray"](options).Some?
    ensures BasicRules(natives)["ruleinarray"](options).value(input) <==> exists i :: 0 <= i < |options| && options[i] == input
  {
  }
}
