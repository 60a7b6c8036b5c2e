# DataFilter evaluation engine in Dafny

DataFilter validates nested key/value input against a declarative profile.
This project models the engine's core and proves what it promises:

- Input is flattened into separator-joined paths.
- Each path is matched to an attribute, by its exact name or by a `prefix.*` wildcard.
- The path's value goes through the attribute's and the profile's pre-filters.
- The attribute's rules judge the value.
- The value then lands in exactly one bucket of a result: valid, invalid or unknown.
- Declared attributes that were not seen become valid with their default, or missing when they are required.

Modules, one per source file, bottom up:

- `Common`: options, the exceptions the code throws (`Outcome`), PHP truthiness, ASCII `strtolower`.
- `OrderedMap`: PHP arrays with string keys as ordered association lists (`Put` replaces in place or appends; `+` is `Union`).
- `Util` (`Util.php`): `explode`/`join`, literal replace-all, `formatString`, `flatten`.
- `Config`: the profile's templates and the rule and filter catalogs (first match wins). It also holds `Natives`, the library routines the model takes as parameters: `preg_match`, `is_numeric`, the date checks and the `\p{L}` variants.
- `PredefinedRules`, `PredefinedFilters` (`PredefinedRules/Basic.php`, `PredefinedFilters/Basic.php`): the built-in rule and filter factories.
- `Filterable` (`Filterable.php`): the pre/post filter chains, as a class with `pre`/`post` fields that `AddFilters` appends to.
- `Rules` (`Rule.php`): definition normalisation, the lazy flag, `check`, error templates.
- `Attributes` (`Attribute.php`): the `Attribute` class with its rule loop, failure memory and dependency marking.
- `Classification`: the two passes of `Result::check`, stated as functions on values.
- `Results` (`Result.php`): the `Result` class whose `Check` method fills the four buckets, proved equal to `Classification.Classify`. It also holds the accessors.
- `Profiles` (`Profile.php`): the `Profile` class and its constructor.
- `ProfileGroups` (`ProfileGroup.php`): the named-profile selector.

The flatten separator, a global setting in the source, is a parameter `sep` here (`"."` by default).

## Model

| member | source | states |
|---|---|---|
| Common.Lower | src/DataFilter/PredefinedFilters/Basic.php:46 | strtolower keeps the length and lower-cases each ASCII letter, position by position |
| Util.Find | src/DataFilter/Result.php:447 | strpos: the result is an occurrence and no earlier position holds one; None iff the pattern occurs nowhere |
| Util.FindContains | src/DataFilter/Result.php:447 | strpos finds something iff the pattern occurs in the string |
| Util.JoinSplit | src/DataFilter/Result.php:378-384 | join(sep, explode(sep, s)) gives back s |
| Util.SplitPieces | src/DataFilter/Result.php:378 | no piece of explode contains the separator |
| Util.SplitHead | src/DataFilter/Rule.php:155-156 | a first piece free of a one-character separator is split off as it is |
| Util.SplitNone | src/DataFilter/Rule.php:155 | a string without a one-character separator explodes into itself alone |
| Util.SplitPlain | src/DataFilter/Rule.php:155 | a string that does not contain the separator explodes into itself alone |
| Util.ReplaceCopies | src/DataFilter/Util.php:36 | replace-all copies a prefix holding no occurrence unchanged |
| Util.ReplaceIsSplitJoin | src/DataFilter/Util.php:36 | replacing every occurrence of a literal equals exploding at it and joining with the replacement |
| Util.ReplaceAbsent | src/DataFilter/Util.php:36 | a string without the pattern is unchanged by replacement |
| Util.ReplaceOne | src/DataFilter/Util.php:36 | a single placeholder whose surroundings cannot start another is replaced by the value |
| Util.ReplaceAfter | src/DataFilter/Util.php:36 | an occurrence after a stretch free of it is the only one replaced |
| Util.FormatTwo | src/DataFilter/Util.php:33-39 | formatString with two arguments substitutes the first key, then the second, on the result |
| Util.FormatPlain | src/DataFilter/Util.php:33-39 | a template with no ':' holds no placeholder and comes back unchanged, whatever the arguments |
| Util.FormatSingle | src/DataFilter/Util.php:33-39 | a template with one `:k:` and no other ':' gets the value in place of the placeholder |
| Util.PutAllAppend | src/DataFilter/Util.php:50-64 | assigning the pairs of xs + ys is assigning xs, then ys |
| Util.FlattenIsPutAll | src/DataFilter/Util.php:50-64 | flatten assigns the input's leaves (path `prefix.k`, recursing into arrays with `prefix.k<sep>`) to the flat array, depth first and in input order |
| Util.PutAllFresh | src/DataFilter/Util.php:58 | assigning pairs with distinct new keys appends them in order |
| Util.PutAppend | src/DataFilter/Util.php:58 | assigning a new key appends the entry |
| Util.PutAllUnique | src/DataFilter/Util.php:58 | assignment never duplicates a key |
| Util.FlattenLeaves | src/DataFilter/Util.php:50-64 | the flattened array has one entry per path; when the leaf paths are distinct it is exactly the leaves, depth first, scalar values only |
| Util.FlattenEmptyArray | src/DataFilter/Util.php:52-61 | an entry holding an empty array contributes nothing |
| OrderedMap.Keys | src/DataFilter/Result.php:446 | array_keys: one key per entry, in order |
| OrderedMap.Values | src/DataFilter/Result.php:349 | array_values: one value per entry, in order |
| OrderedMap.GetSome | src/DataFilter/Profile.php:313-316 | a lookup (getAttrib) finds a value iff the key is present, and null otherwise |
| OrderedMap.GetAt | src/DataFilter/Profile.php:313-316 | with unique keys a lookup finds the entry stored under the key |
| OrderedMap.PutKeys | src/DataFilter/Profile.php:288-294 | `$m[$k] = $v` keeps the key order when k is present and appends k otherwise |
| OrderedMap.PutUnique | src/DataFilter/Profile.php:288-294 | assignment keeps the keys unique |
| OrderedMap.GetPut | src/DataFilter/Profile.php:288-294 | after `$m[$k] = $v` the key k reads v and every other key reads as before |
| OrderedMap.RemoveKeys | src/DataFilter/Profile.php:325-332 | after unset($m[$k]) exactly the other keys remain |
| OrderedMap.GetRemove | src/DataFilter/Profile.php:325-332 | after unset($m[$k]) k reads null and every other key reads as before |
| OrderedMap.RemoveUnique | src/DataFilter/Profile.php:325-332 | removal keeps the keys unique |
| OrderedMap.UnionGet | src/DataFilter/Result.php:261-264 | `$a + $b` looks a key up in a first, falling back to b; it has the keys of both |
| OrderedMap.UnionUnique | src/DataFilter/Result.php:331-334 | the union of arrays with unique keys has unique keys |
| Config.CatalogFind | src/DataFilter/Rule.php:158-164 | the factory found belongs to the first catalog that implements the lower-cased method name; None iff no catalog does |
| Config.CatalogFindAppend | src/DataFilter/Filterable.php:76-85 | catalogs appended later never shadow an earlier catalog that has the method |
| PredefinedRules.ParseNat | src/DataFilter/PredefinedRules/Basic.php:31-36 | a length argument written as a non-empty run of decimal digits is read as that number; any other argument is refused |
| PredefinedRules.ShowNat | src/DataFilter/PredefinedRules/Basic.php:31-36 | the written form of a length is a non-empty run of digits |
| PredefinedRules.ParseShow | src/DataFilter/PredefinedRules/Basic.php:31-36 | reading back a written length gives the length |
| PredefinedRules.LenRangeBoth | src/DataFilter/PredefinedRules/Basic.php:60-65 | LenRange(min, max) accepts iff min <= length <= max (one char per byte), which is LenMin(min) and LenMax(max) together |
| PredefinedRules.IntIsNumeral | src/DataFilter/PredefinedRules/Basic.php:128-145 | Int accepts exactly the non-empty all-digit strings; every Int input is also Alphanum |
| PredefinedRules.StripPlain | src/DataFilter/PredefinedRules/Basic.php:80-82 | stripslashes leaves a pattern without backslashes as it is |
| PredefinedRules.NormalizeWraps | src/DataFilter/PredefinedRules/Basic.php:76-82 | a delimited pattern (`/`, `#` or `~`, closing delimiter, modifiers) is used as given; any other is stripped and wrapped in `/…/`, which is then delimited itself, so normalising again changes nothing |
| PredefinedRules.BasicRuleEntry | src/DataFilter/PredefinedRules/Basic.php:31-262 | every static rule method of the Basic class is in the catalog under its lower-cased name |
| PredefinedRules.RegexEntry | src/DataFilter/PredefinedRules/Basic.php:74-87 | the catalog's ruleRegex is the regex factory |
| PredefinedRules.LenMinEntry | src/DataFilter/PredefinedRules/Basic.php:31-36 | the catalog's ruleLenMin is the LenMin factory |
| PredefinedRules.LengthFactories | src/DataFilter/PredefinedRules/Basic.php:31-65 | given decimal numerals, LenMin accepts iff length >= n, LenMax iff length <= n, LenRange iff n <= length <= m, the length counting one char per byte |
| PredefinedRules.InArrayFactory | src/DataFilter/PredefinedRules/Basic.php:152-158 | ruleInArray(a1..an) accepts exactly the string inputs equal to one of its string arguments |
| PredefinedFilters.TrimLeftCut | src/DataFilter/PredefinedFilters/Basic.php:28-33 | the left trim cuts exactly the leading whitespace |
| PredefinedFilters.TrimRightCut | src/DataFilter/PredefinedFilters/Basic.php:28-33 | the right trim cuts exactly the trailing whitespace |
| PredefinedFilters.TrimSlice | src/DataFilter/PredefinedFilters/Basic.php:28-33 | trim gives the slice s[i..j] with only whitespace outside it and no whitespace at either end of it |
| PredefinedFilters.TrimLeftKeeps | src/DataFilter/PredefinedFilters/Basic.php:28-33 | a string not starting with whitespace is kept by the left trim |
| PredefinedFilters.TrimRightKeeps | src/DataFilter/PredefinedFilters/Basic.php:28-33 | a string not ending with whitespace is kept by the right trim |
| PredefinedFilters.TrimIdempotent | src/DataFilter/PredefinedFilters/Basic.php:28-33 | trimming twice is trimming once |
| PredefinedFilters.DashOthers | src/DataFilter/PredefinedFilters/Basic.php:46-47 | every character outside `[a-z0-9\-_.~]` becomes '-', the others stay, the length is kept |
| PredefinedFilters.CollapseProps | src/DataFilter/PredefinedFilters/Basic.php:45 | collapsing leaves no doubled '-', keeps web characters and the first character, and changes nothing without doubled dashes |
| PredefinedFilters.DropLeadingProps | src/DataFilter/PredefinedFilters/Basic.php:44 | dropping leading dashes leaves a suffix that does not start with '-' |
| PredefinedFilters.DropTrailingProps | src/DataFilter/PredefinedFilters/Basic.php:44 | dropping trailing dashes leaves a prefix that does not end with '-' |
| PredefinedFilters.SliceKeeps | src/DataFilter/PredefinedFilters/Basic.php:44 | a slice keeps "web characters only" and "no doubled dash" |
| PredefinedFilters.StripProps | src/DataFilter/PredefinedFilters/Basic.php:44 | stripping dashes yields a slice, and a slug when the input had web characters only and no doubled dash |
| PredefinedFilters.WebCompliantIsSlug | src/DataFilter/PredefinedFilters/Basic.php:40-50 | the web-compliant filter always yields a slug: web characters only, no doubled '-', no '-' at either end |
| PredefinedFilters.LowerKeepsWeb | src/DataFilter/PredefinedFilters/Basic.php:46 | lower-casing keeps a string of web characters |
| PredefinedFilters.DashOthersKeepsWeb | src/DataFilter/PredefinedFilters/Basic.php:47 | the dash replacement keeps a string of web characters |
| PredefinedFilters.DropLeadingKeeps | src/DataFilter/PredefinedFilters/Basic.php:44 | a string not starting with '-' keeps its start |
| PredefinedFilters.DropTrailingKeeps | src/DataFilter/PredefinedFilters/Basic.php:44 | a string not ending with '-' keeps its end |
| PredefinedFilters.WebCompliantIdempotent | src/DataFilter/PredefinedFilters/Basic.php:40-50 | a slug passes through unchanged, so the filter is idempotent |
| PredefinedFilters.LowerAppend | src/DataFilter/PredefinedFilters/Basic.php:46 | lower-casing works piecewise |
| PredefinedFilters.DashAppend | src/DataFilter/PredefinedFilters/Basic.php:47 | the dash replacement works piecewise |
| PredefinedFilters.CollapseAppend | src/DataFilter/PredefinedFilters/Basic.php:45 | collapsing works piecewise when no run of dashes straddles the cut |
| PredefinedFilters.StagesAppend | src/DataFilter/PredefinedFilters/Basic.php:45-47 | the first three stages work piecewise after a piece that does not end in a dash |
| PredefinedFilters.WebCompliantExample | src/DataFilter/PredefinedFilters/Basic.php:40-50 | "What are you doing?" becomes "what-are-you-doing" |
| PredefinedFilters.ExampleStrip | src/DataFilter/PredefinedFilters/Basic.php:44 | the final strip turns "what-are-you-doing-" into "what-are-you-doing" |
| Filterable.AsList | src/DataFilter/Filterable.php:50-58 | a list is walked as given; a single callable becomes a one-element list, and a single non-callable yields nothing |
| Filterable.ResolveAllStep | src/DataFilter/Filterable.php:59-113 | resolution of a list: the first filter throws and nothing is appended, or it is appended before the rest |
| Filterable.ResolveEach | src/DataFilter/Filterable.php:59-113 | the addFilters loop resolves the filters in order and stops at the first exception, as ResolveAll says |
| Filterable.ResolveAllPrefix | src/DataFilter/Filterable.php:59-113 | what is appended is the resolved prefix of the list before the first exception (all of it iff every filter resolves), and that exception is the outcome |
| Filterable.ApplyChainAppend | src/DataFilter/Filterable.php:162-169 | running two chains one after the other is running their concatenation |
| Filterable.ApplyChainFirst | src/DataFilter/Filterable.php:162-169 | the first registered filter sees the input first |
| Filterable.FilterChains.constructor | src/DataFilter/Attribute.php:113-114 | both chains start empty |
| Filterable.FilterChains.AddFilters | src/DataFilter/Filterable.php:42-115 | a position other than pre/post throws and changes nothing; otherwise the resolved filters are appended to that chain only, those resolved before an exception staying appended |
| Filterable.FilterChains.AddPreFilters | src/DataFilter/Filterable.php:124-127 | appends the resolved filters to the pre chain, the post chain unchanged |
| Filterable.FilterChains.AddPostFilters | src/DataFilter/Filterable.php:136-139 | appends the resolved filters to the post chain, the pre chain unchanged |
| Filterable.FilterChains.ApplyFilter | src/DataFilter/Filterable.php:152-170 | a bad position throws; otherwise the value threaded through the chain in registration order (unchanged for an empty chain) |
| Rules.ParseStored | src/DataFilter/Rule.php:118-137 | parsing the stored definition always throws, the guard's own exception when a definition is stored |
| Rules.BareIsDefaults | src/DataFilter/Rule.php:132-142 | a bare constraint parses as {constraint: it} with sufficient and skipEmpty false and no error, and succeeds iff its constraint resolves |
| Rules.Rule.FromParsed | src/DataFilter/Rule.php:96-109 | a non-lazy rule holds the parsed constraint, flags and error, with no last value |
| Rules.Rule.Deferred | src/DataFilter/Rule.php:96-105 | a lazy rule keeps its definition and the class defaults |
| Rules.Rule.Check | src/DataFilter/Rule.php:196-208 | a lazy rule clears its flag and throws without recording; otherwise the input is recorded first, an empty input passes under skipEmpty, else the constraint decides |
| Rules.Rule.ErrorFor | src/DataFilter/Rule.php:235-255 | there is no error text exactly when the rule's error is `false` |
| Rules.NewRule | src/DataFilter/Rule.php:96-109 | a lazy definition is stored unparsed; any other is parsed now, and the rule is built iff parsing succeeds, else parsing's exception propagates |
| Rules.LazyThrows | src/DataFilter/Rule.php:120-126 | a lazy rule's first check throws, even when its definition would parse |
| Rules.SkipEmpty | src/DataFilter/Rule.php:202-207 | an empty input passes a skipEmpty rule without consulting the constraint; other inputs get the constraint's answer |
| Rules.ErrorPrecedence | src/DataFilter/Rule.php:235-255 | error `false` gives null; else a truthy rule error wins over a truthy attribute error setting, which wins over the profile template, and the text is formatString of the winner with `:rule:` and `:attrib:` |
| Rules.ErrorInheritance | src/DataFilter/Rule.php:235-255 | the rule, attribute and profile levels each supply the text when the levels above are empty |
| Rules.FormatAttribRule | src/DataFilter/Rule.php:252-254 | a template `a:attrib:b:rule:c` names the attribute and the rule |
| Rules.DefaultErrorText | src/DataFilter/Profile.php:159-164 | the default error reads `Attribute "<attrib>" does not match "<rule>"` |
| Rules.RegexArguments | src/DataFilter/Rule.php:155-156 | "Regex:<pattern>" splits into the name and pieces that re-join to the whole pattern, colons included |
| Rules.BuiltinFirst | src/DataFilter/Profile.php:216-223 | a rule the Basic catalog implements is found there, whatever user catalogs follow |
| Rules.NamedBuiltin | src/DataFilter/Rule.php:154-171 | a named built-in constraint resolves through its factory called with the split arguments |
| Rules.LenMinArguments | src/DataFilter/Rule.php:155-156 | "LenMin:<n>" splits into the rule name and the numeral |
| Rules.RegexConstraint | src/DataFilter/PredefinedRules/Basic.php:74-87 | the constraint "Regex:<pattern>" matches with the normalised whole pattern |
| Rules.LenMinConstraint | src/DataFilter/PredefinedRules/Basic.php:31-36 | the constraint "LenMin:<n>", n a decimal numeral, accepts exactly the inputs of at least n chars (one char per byte) |
| Attributes.DefinitionForms | src/DataFilter/Attribute.php:116-132 | `true` is required with no rules, `false` optional with no rules, a bare constraint optional with one rule "default" |
| Attributes.RulesErrorSpec | src/DataFilter/Attribute.php:156-176 | building the rules throws iff some non-lazy rule fails to parse, with that rule's exception |
| Attributes.DecideFrom | src/DataFilter/Attribute.php:185-217 | the rule loop ends after at most every rule, and any recorded failure is among the rules that ran |
| Attributes.DecideNext | src/DataFilter/Attribute.php:189-211 | each rule either ends the loop with its own outcome or lets it continue, the first failure being recorded |
| Attributes.FirstFailure | src/DataFilter/Attribute.php:202-211 | the first failure lies among the rules considered |
| Attributes.DecideSkips | src/DataFilter/Attribute.php:189-211 | rules that let the loop continue are passed over, collecting their first failure |
| Attributes.FirstFailureStops | src/DataFilter/Attribute.php:189-204 | without matchAny the first failing rule is recorded, check returns false and no later rule runs |
| Attributes.PassStops | src/DataFilter/Attribute.php:192-197 | a passing rule returns true at once under matchAny or when it is sufficient |
| Attributes.AllPass | src/DataFilter/Attribute.php:189-216 | without matchAny, rules that all pass give true with no failure recorded |
| Attributes.NoFailureBefore | src/DataFilter/Attribute.php:202-211 | no failure is recorded when none happened |
| Attributes.FirstFailureIsFirst | src/DataFilter/Attribute.php:202-211 | the recorded failure is the earliest failing rule |
| Attributes.MatchAnyResult | src/DataFilter/Attribute.php:206-216 | under matchAny the result is false iff there are rules and all fail (the first then recorded); zero rules give true |
| Attributes.NoRules | src/DataFilter/Attribute.php:215-216 | an attribute without rules passes and records nothing |
| Attributes.Answers | src/DataFilter/Attribute.php:190 | one answer per rule |
| Attributes.ExactTargetsSpec | src/DataFilter/Attribute.php:232-243 | a name is marked by the exact entries iff some non-`*` key strictly equal to the input lists it, a key PHP stores as an int (a canonical decimal within PHP_INT_MIN..PHP_INT_MAX) never being equal |
| Attributes.RegexTargetsSpec | src/DataFilter/Attribute.php:252-258 | a name is marked by the regex entries iff some pattern the input matches lists it |
| Attributes.StarOnlyAsFallback | src/DataFilter/Attribute.php:244-258 | `*` fires only for a truthy input that no exact key matched; regex entries apply either way |
| Attributes.IntKeysNeverMatch | src/DataFilter/Attribute.php:232-243 | an input PHP would store as an int key matches no exact entry, so it reaches only `*` and the regex entries |
| Attributes.IntKeyLengths | src/DataFilter/Attribute.php:232-243 | a canonical numeral is an int key when it has at most 18 digits and never with 20 or more; with a minus sign, exactly when its magnitude is at most 2^63 |
| Attributes.NumeralMagnitude | src/DataFilter/Attribute.php:232-243 | an n-digit numeral lies below 10^n, and reaches 10^(n-1) when it has no leading zero |
| Attributes.Pow10Around | src/DataFilter/Attribute.php:232-243 | PHP_INT_MAX lies strictly between 10^18 and 10^19 |
| Attributes.Attribute.constructor | src/DataFilter/Attribute.php:106-149 | the attribute holds the normalised settings, with no failure and no last value |
| Attributes.Attribute.Check | src/DataFilter/Attribute.php:185-217 | records the input and returns what the rule loop decides; a new failure replaces failedRule, which is otherwise kept, so a recorded failure is never cleared; rules after the deciding one do not run |
| Attributes.Attribute.RunRules | src/DataFilter/Attribute.php:189-216 | the loop over the rules, in order, matches the rule-loop decision |
| Attributes.Attribute.Judge | src/DataFilter/Attribute.php:191-211 | one turn: an exception propagates, a pass ends the loop under matchAny or sufficiency, a failure ends it unless matchAny and is recorded if first |
| Attributes.Attribute.MarkAll | src/DataFilter/Attribute.php:236-240 | every listed name is added to the required set |
| Attributes.Attribute.DetermineDependents | src/DataFilter/Attribute.php:224-260 | nothing happens while the attribute has an error; otherwise the exact, `*` and regex targets of the input are added to the required set |
| Attributes.Attribute.MarkExact | src/DataFilter/Attribute.php:232-243 | the exact loop adds exactly the exact targets and reports whether some key matched |
| Attributes.Attribute.MarkRegex | src/DataFilter/Attribute.php:252-258 | the regex loop adds exactly the regex targets |
| Attributes.Attribute.GetError | src/DataFilter/Attribute.php:287-293 | no error text without a failed rule; with one, null exactly when that rule's error is `false` |
| Attributes.Attribute.Reset | src/DataFilter/Attribute.php:341-344 | clears the recorded failure |
| Attributes.Attribute.SetRule | src/DataFilter/Attribute.php:173-176 | a new rule replaces the one of the same name in place or is appended; a parse exception changes nothing |
| Attributes.Attribute.RemoveRule | tests/ProgrammaticTest.php:32-33 | deletes the named rule, keeping the others in order |
| Attributes.NewAttribute | src/DataFilter/Attribute.php:106-149 | construction throws iff building a rule or a filter chain throws, with that exception; otherwise a fresh attribute that is BuiltAttribute: the normalised settings, one rule built per definition in order, the resolved filter chains, no failure and no last value |
| Attributes.NewChains | src/DataFilter/Attribute.php:146-147 | fresh chains get the resolved pre-filters, then the post-filters; the first exception ends it and is the outcome |
| Attributes.BuildRules | src/DataFilter/Attribute.php:156-176 | each rule is built in order under its name; the first exception ends the loop |
| Attributes.DefaultMissingText | src/DataFilter/Attribute.php:310-316 | with no own missing template, the default one reads `Attribute "<name>" is missing` |
| Classification.Probes | src/DataFilter/Result.php:382-388 | the splice loop tries one name per turn |
| Classification.FirstDeclared | src/DataFilter/Result.php:382-388 | the first tried name that is declared wins; none iff no tried name is declared |
| Classification.AttribFor | src/DataFilter/Result.php:376-390 | a path is judged only by a declared attribute |
| Classification.FirstProbe | src/DataFilter/Result.php:376-388 | an exact name always wins; the first wildcard tried is `<all-but-last-segment><sep>*`, and it wins when declared and no exact name is |
| Classification.LaterProbes | src/DataFilter/Result.php:382-384 | as written, the second turn tries the last segment as a prefix and every later turn the bare `<sep>*` |
| Classification.ParentDeclared | src/DataFilter/Result.php:376-388 | a two-segment path without an exact attribute is judged by its parent's wildcard when declared, else by nothing |
| Classification.AttribPathExample | src/DataFilter/Result.php:376-388 | "attrib1.foo" is judged by "attrib1.*", "attrib2.foo" by nothing |
| Classification.ParentProbe | src/DataFilter/Result.php:382-384 | a two-segment path tries exactly its parent's wildcard |
| Classification.FileNew | src/DataFilter/Result.php:395-455 | filing a new key keeps every other key where it was and the buckets disjoint |
| Classification.FindPut | src/DataFilter/Result.php:395-455 | filing a key changes only that key's entry in the bucket it names |
| Classification.SortPathParts | src/DataFilter/Result.php:375-425 | one turn of the first loop files the path, adds the marks of a passed check and records a throw |
| Classification.PathEntryFound | src/DataFilter/Result.php:399-424 | a passed path is valid with the post-filtered value, a failed one invalid with the checked value and the attribute's error |
| Classification.FirstPassStops | src/DataFilter/Result.php:375-425 | once a path threw, the rest of the input is not processed |
| Classification.Padded | src/DataFilter/Result.php:375-425 | the verdicts seen before an exception keep their places |
| Classification.FirstPassPadded | src/DataFilter/Result.php:375-425 | verdicts after an exception are never consulted |
| Classification.FirstPassKeys | src/DataFilter/Result.php:375-425 | the first pass keeps the buckets disjoint and files no key it did not see |
| Classification.FirstPassThrows | src/DataFilter/Result.php:375-425 | the first pass throws iff some path that has an attribute threw |
| Classification.FirstPassPaths | src/DataFilter/Result.php:375-425 | without an exception, every flattened path lands in exactly one of valid, invalid, unknown, where PathEntry says |
| Classification.SecondPassFiles | src/DataFilter/Result.php:428-458 | the second pass files each unseen declared name as its declaration says, leaves seen keys alone and keeps the buckets disjoint |
| Classification.SecondPassNext | src/DataFilter/Result.php:428-458 | the declarations are handled in declaration order |
| Classification.FirstPassMarks | src/DataFilter/Result.php:413-414 | a name is marked required iff a passed check's dependencies marked it |
| Classification.ClassifyFiles | src/DataFilter/Result.php:366-463 | check keeps the four buckets disjoint, throws iff a checked path threw, files every path by its verdict and every other key by its declaration |
| Classification.ErrorFree | src/DataFilter/Result.php:462 | invalid and missing are empty iff no key is filed under either |
| Classification.CleanFiled | src/DataFilter/Result.php:462 | buckets filed by check are clean iff every path passed and nothing is missing |
| Classification.CleanPaths | src/DataFilter/Result.php:462 | in clean buckets every checked path passed |
| Classification.CleanDeclared | src/DataFilter/Result.php:462 | in clean buckets no unseen declared attribute is missing |
| Classification.FiledClean | src/DataFilter/Result.php:462 | when every path passed and nothing is missing, the buckets are clean |
| Classification.CheckPasses | src/DataFilter/Result.php:366-463 | check returns true iff every checked path passed and no unseen declared attribute is missing |
| Classification.FilterOrder | src/DataFilter/Result.php:400-411 | with filters on, the checked value is profilePre(attribPre(v)) and the stored one profilePost(attribPost(that)); with noFilters the raw value |
| Classification.ToggleFiltersExample | src/DataFilter/Result.php:400-411 | attribute filters `>_`/`_<` and profile filters `[_`/`_]` store "foo" as "[>foo<]", and as "foo" with noFilters |
| Classification.CoveredWildcard | src/DataFilter/Result.php:444-451 | a required `p.*` counts as satisfied iff some seen path starts with `p.` |
| Classification.WildcardParts | src/DataFilter/Result.php:442-445 | `p.*` explodes into its parent and the star |
| Results.Views | src/DataFilter/Result.php:400-455 | what check reads of each attribute, entry by entry |
| Results.ViewsGet | src/DataFilter/Result.php:376 | the views have the table's keys, and a declared name's view is its attribute's |
| Results.FindAttribute | src/DataFilter/Result.php:376-390 | the lookup loop returns the attribute AttribFor names |
| Results.AnyStartsWith | src/DataFilter/Result.php:446-449 | true iff some seen name starts with the prefix |
| Results.DeclareOne | src/DataFilter/Result.php:431-457 | one declared attribute is filed where DeclaredEntry says |
| Results.SortOne | src/DataFilter/Result.php:376-424 | one path is filed where PathEntry says, marks are added only after a passed check, a throw propagates, and with no lazy rule the verdict is the one the path's attribute gives on its checked value |
| Results.JudgePath | src/DataFilter/Result.php:376-414 | the lookup finds AttribFor's attribute and checks its pre-filtered value; with no lazy rule the verdict is that attribute's rule-loop decision and the failing attributes grow by it exactly when it records a failure |
| Results.JudgeEntry | src/DataFilter/Result.php:400-414 | the check by the attribute declared at a given entry, with the same verdict and failing-set statement |
| Results.RunCheck | src/DataFilter/Result.php:406 | the attribute's check: with no lazy rule the outcome and recorded failure are DecisionOf's; a recorded error is never cleared and only this attribute can join the failing ones |
| Results.CheckAttribute | src/DataFilter/Result.php:400-414 | the attribute's part: the checked value is pre-filtered, dependencies are collected only after a pass, and with no lazy rule the verdict is Judge of the attribute's rule-loop decision |
| Results.Project | src/DataFilter/Result.php:97-105 | a bucket read entry by entry, as getValidData, getInvalidData (139-147), getInvalidErrors (160-168) and getMissingErrors (202-210) do: the same keys in order, each with the part of its entry |
| Results.Present | src/DataFilter/Result.php:348-353 | array_filter keeps the non-null texts under their original positions, in order |
| Results.Texts | src/DataFilter/Result.php:355 | join reads the kept texts in order |
| Results.DataLookup | src/DataFilter/Result.php:261-303 | getData(name) is the entry of name in getAllData: valid, then invalid, then unknown |
| Results.HasErrorKeys | src/DataFilter/Result.php:311-334 | hasError(name) holds iff getAllErrors has name; hasError() iff it has any entry |
| Results.HasErrorFiled | src/DataFilter/Result.php:311-318 | hasError(name) holds iff name is filed as invalid or missing |
| Results.PresentAppend | src/DataFilter/Result.php:348-353 | dropping nulls from a merge drops them from each part |
| Results.PresentAll | src/DataFilter/Result.php:348-353 | a list without nulls loses nothing |
| Results.ErrorTextsOrder | src/DataFilter/Result.php:347-356 | getErrorTexts lists the invalid errors that are not null, then every missing text |
| Results.Result.constructor | src/DataFilter/Result.php:60-63 | a new result has empty buckets |
| Results.Result.Store | src/DataFilter/Result.php:395-455 | assigning a key files it in the bucket named |
| Results.Result.Check | src/DataFilter/Result.php:366-463 | the four buckets and the answer are Classify of the flattened input over the attributes as check found them, so every property proved of Classify holds of the result; with no lazy rule every verdict before a throw is the one its attribute's rules give (Judged) |
| Results.Result.Classifying | src/DataFilter/Result.php:375-462 | both loops over the flattened input give Classify's buckets and answer, with the trace judged when no rule is lazy |
| Results.Result.SortAll | src/DataFilter/Result.php:375-425 | the first loop on emptied buckets fills them as FirstPass says, and with no lazy rule the trace is judged: each verdict is its attribute's, given the failures before it |
| Results.Result.SortTurn | src/DataFilter/Result.php:376-424 | one more turn extends the first pass by the path's verdict and keeps the trace judged |
| Results.Judging | src/DataFilter/Result.php:376-406 | a path is judged by an attribute of the table exactly when AttribFor finds one |
| Results.JudgedNext | src/DataFilter/Result.php:376-424 | a verdict given by the path's own attribute extends a judged trace, the failing set growing by what that attribute records |
| Results.JudgedTake | src/DataFilter/Result.php:376-424 | every prefix of a judged trace is judged |
| Results.JudgedEach | src/DataFilter/Result.php:376-424 | read path by path, each verdict before the first throw is the one its attribute gives |
| Results.JudgedPadded | src/DataFilter/Result.php:376-424 | after a throw the rest of the trace is never read, so padding keeps it judged |
| Results.ThrowPadded | src/DataFilter/Result.php:376-424 | padding a trace that threw changes neither what the first pass leaves nor that the trace is judged |
| Results.PassedAt | src/DataFilter/Result.php:406-424 | after a run of passes, an unjudged path or one whose attribute's rules accept it passes |
| Results.TracePasses | src/DataFilter/Result.php:406-424 | when each path is unjudged or accepted, every verdict of a judged trace is a pass |
| Results.AcceptedAt | src/DataFilter/Result.php:406-424 | a path that passed after a run of passes was accepted by its attribute's rules |
| Results.PassesAccepted | src/DataFilter/Result.php:406-424 | in a judged trace every judged path passed exactly when every path is accepted by its attribute's rules |
| Results.CheckAccepts | src/DataFilter/Result.php:366-463 | with no lazy rule, check returns true exactly when every path's attribute's rules accept its checked value and no declared attribute is missing |
| Results.Result.DeclareAll | src/DataFilter/Result.php:428-458 | the second loop files the declarations as SecondPass says |
| Profiles.ConfigOf | src/DataFilter/Profile.php:208-223 | templates default to the built-in texts unless set; each catalog list is Basic followed by the user's classes, duplicates kept |
| Profiles.BasicFirst | src/DataFilter/Profile.php:216-223 | Basic's rules and filters cannot be replaced by a user class; among user classes the first that has the name wins |
| Profiles.DefsError | src/DataFilter/Profile.php:272-277 | setAttribs throws iff some definition's attribute cannot be built |
| Profiles.KeysAfterFresh | src/DataFilter/Profile.php:272-277 | setting distinct new names appends them in order |
| Profiles.SetStep | src/DataFilter/Profile.php:272-277 | one more setAttrib grows the keys as assignment does and keeps the earlier names set |
| Profiles.Profile.constructor | src/DataFilter/Profile.php:208-238 | a new profile has an empty table and no last result |
| Profiles.Profile.SetAttrib | src/DataFilter/Profile.php:288-294 | inserts or replaces by name, keeping the original position; an Attribute object is stored as-is, a definition as a fresh attribute built from it (BuiltAttribute: its normalised settings, rules and filter chains); a build exception changes nothing |
| Profiles.Profile.SetAttribs | src/DataFilter/Profile.php:272-277 | setAttrib in order; throws iff some definition cannot be built; otherwise every name is set, new names appended in order |
| Profiles.Profile.RemoveAttrib | src/DataFilter/Profile.php:325-332 | returns whether the name was present and deletes it, keeping the others in order |
| Profiles.Profile.Run | src/DataFilter/Profile.php:392-397 | a fresh result becomes the last result, whether or not the check throws, and holds Classify of the input over the table as it was; with no lazy rule the trace is judged by the table's rules |
| Profiles.Profile.Check | src/DataFilter/Profile.php:406-409 | returns whether the run's result has no error, which is Classify's answer over a trace judged by the table's rules when none is lazy |
| Profiles.CheckedResult | src/DataFilter/Profile.php:392-397 | a fresh result checked against the table holds Classify of the input, the rules stay as they were, and with no lazy rule the trace is judged |
| Profiles.NewProfile | src/DataFilter/Profile.php:208-238 | construction throws iff the filters or an attribute cannot be built; otherwise the templates and catalogs are ConfigOf, the chains hold the resolved filters, and the table holds attribs, else attributes, else nothing |
| Profiles.ProfileChains | src/DataFilter/Profile.php:224-230 | the profile's pre then post filters are resolved; an exception in either ends construction |
| Profiles.Populate | src/DataFilter/Profile.php:231-237 | the table holds the definitions' names in order, or setAttribs's exception propagates |
| ProfileGroups.Selected | src/DataFilter/ProfileGroup.php:86-95 | an unknown truthy name throws; with no truthy name and no current profile, run throws |
| ProfileGroups.SelectionPersists | src/DataFilter/ProfileGroup.php:86-95 | a profile selected by name stays selected for later runs without a name |
| ProfileGroups.SelectedKnown | src/DataFilter/ProfileGroup.php:86-95 | a successful selection always names a stored profile |
| ProfileGroups.LastResultKeyVersusSelected | src/DataFilter/ProfileGroup.php:120-129 | with a name getLastResult reads the profile run would use; with none it reads the key "" rather than the current profile |
| ProfileGroups.PutMembers | src/DataFilter/ProfileGroup.php:53-58 | storing a profile adds at most that profile to the group |
| ProfileGroups.ProfileGroup.constructor | src/DataFilter/ProfileGroup.php:39-45 | an empty group has no current profile |
| ProfileGroups.ProfileGroup.AddProfile | src/DataFilter/ProfileGroup.php:53-58 | a Profile is stored as-is, a definition built into a new profile first; an existing entry is replaced in place; a build exception stores nothing |
| ProfileGroups.ProfileGroup.Store | src/DataFilter/ProfileGroup.php:57 | stores the profile under the name, replacing in place |
| ProfileGroups.ProfileGroup.SetProfile | src/DataFilter/ProfileGroup.php:67-74 | a known name becomes current; an unknown one throws and leaves the current profile unchanged |
| ProfileGroups.ProfileGroup.Target | src/DataFilter/ProfileGroup.php:86-94 | selection sets current as run does and yields the selected stored profile |
| ProfileGroups.ProfileGroup.Run | src/DataFilter/ProfileGroup.php:86-95 | a truthy name first becomes current (and persists); the selected profile is run; with no current profile, an exception |
| ProfileGroups.ProfileGroup.RunProfile | src/DataFilter/ProfileGroup.php:94 | the selected profile's own run, the rest of the group untouched |
| ProfileGroups.ProfileGroup.Check | src/DataFilter/ProfileGroup.php:107-110 | whether the selected profile's run has no error |
| ProfileGroups.ProfileGroup.GetLastResult | src/DataFilter/ProfileGroup.php:120-129 | selects as run does, then reads the last result stored under the argument itself, throwing for a missing key |
| ProfileGroups.NewGroup | src/DataFilter/ProfileGroup.php:39-45 | addProfile for each entry in order; throws iff some definition cannot be built; otherwise every name is stored, Profile objects as given |
| ProfileGroups.GroupErrorNone | src/DataFilter/ProfileGroup.php:39-45 | construction succeeds iff every definition entry builds |
| ProfileGroups.GroupStep | src/DataFilter/ProfileGroup.php:41-43 | each entry appends its name |
| ProfileGroups.GroupStepKept | src/DataFilter/ProfileGroup.php:41-43 | Profile objects given so far stay stored under their names |

## Left out

- `Profile::fromJson` is file I/O and JSON decoding.
- Regular-expression matching (`preg_match` in ruleRegex, ruleRegexInverse, ruleUrlPart, ruleEmail and dependentRegex) is a parameter. So are `is_numeric`, the `date_parse` checks and the `\p{L}` variants (ruleUrlPartUnicode, filterWebCompliantUnicode). The model keeps what the code does around them: pattern joining and normalisation, and which factory is picked.
- PHP reflection is replaced by explicit catalogs of named factories. This covers `is_callable`, `method_exists`, `call_user_func_array` and the `Closure` class test. Whether a bare string names a global function is the `isFunctionName` parameter.
- Input values are strings. A few of PHP's coercions are written out: `"0"` is falsy, integer-like `dependent` keys never match a string input strictly, and a null error or missing text reads as "". Other loose comparisons and casts are not modelled, nor are numbers, booleans and null as input values.
- Strings are sequences of chars, and each char stands for one byte of the PHP string: `strlen` is the sequence length. Multi-byte encodings are not modelled.
- PredefinedRules.InArrayFactory compares strictly: an input is accepted iff it is equal, as a string, to one of the arguments. PHP's `in_array` without its third argument compares loosely (`"01"` and `"1.0"` both equal `"1"`), so inputs that PHP's loose comparison accepts but that differ as strings are rejected here.
- PredefinedRules.ParseNat reads only decimal numerals. PHP passes the split argument string on and compares it with `>=`/`<=` as a number, so `LenMin:-1`, `LenMin: 3` or `LenMin:3.5` build working rules in PHP; the model refuses such arguments.
- PredefinedRules.LengthFactories states the length rules for decimal numeral arguments only, for the reason given for ParseNat.
- PredefinedRules.LenRangeBoth counts chars for bytes, as every length rule here does.
- Rules.LenMinConstraint covers numeral arguments only: the rule built from a non-numeric argument, which PHP accepts, is refused by the model.
- Rules.ErrorPrecedence uses the attribute's `error` setting where the code calls `$attrib->getDefaultErrorStr()` (Rule.php:249), a method Attribute.php does not define. `getDefaultErrorStr` is not part of this model.
- Rules.ErrorInheritance takes its attribute level from that same `error` setting, for the same reason. Likewise the attribute's `useFilters()` (Result.php:400, 407), also not defined in Attribute.php, is modelled as the negation of the attribute's `noFilters` flag, which the tests set through `setNoFilters`.
- `formatString` is a literal replace-all. `preg_replace`'s treatment of backreferences in the replacement text is not modelled.
- The buckets record the name of the attribute that judged an entry, not a reference to the object. `getValidAttribs`, `getInvalidAttribs`, `getMissingAttribs` and `Result::getAttrib` are therefore not modelled, nor is the `&$attrib` aliasing.
- `getInvalidOrMissingErrors` is `getAllErrors` under another name.
- The plain getters have no row of their own. These are `getName`, `getLastValue`, `isSufficient`, `getDefault`, `isRequired`, `getAttribs`, `getErrorTemplate`, `getMissingTemplate`, `getPredefinedRuleClasses` and `getPredefinedFilterClasses`. They are fields or one-line functions of the classes.
- The global `Util::$FLATTEN_SEPARATOR` is the parameter `sep`, which must be non-empty.
- Results.Result.Check states its buckets through a ghost `trace` of verdicts, one per path. The trace is tied to the attributes' rules (`Judged`) only when no rule of the table is lazy. A lazy rule's check throws, and that path's verdict is then stated only as a throw. `Check` states that the filter chains and the attribute settings it reads stay as they were. It leaves each attribute's `lastValue`/`failedRule` after the run unstated; Attributes.Attribute.Check states the rule loop's effect on them.
- ProfileGroups.ProfileGroup.Run states the selected profile's run as Classify over some trace. It does not restate the tie between that trace and the rules, which Profiles.Profile.Run states for the same run.
- ProfileGroups.ProfileGroup.RunProfile likewise states the run as Classify over some trace, without the tie to the rules that Profiles.Profile.Run states.
- ProfileGroups.ProfileGroup.Check gives Classify's answer over some trace; Profiles.Profile.Check states the same answer over a trace judged by the rules.
- Results.Result.Check states the buckets a check leaves when it throws half-way as the first pass up to the exception; the verdicts it pads the trace with after that point are never consulted, so they say nothing about the paths left unchecked.
- Rules.Rule.Check: as written, a lazy rule throws on its first check, and a later check finds no constraint and throws too. The evidently intended lazy parsing is not modelled.
- The profile stores Attribute objects as given. Sharing one Attribute object between two profiles is outside the model: `Profile.Valid` and `ProfileGroup.AllValid` do not state which objects each profile owns.
- Profiles.Profile.SetAttribs states the keys and the names after the call, not the individual attribute objects.
- Profiles.NewProfile and Profiles.Profile.SetAttrib require that an attribute definition's rule names are unique (`WellKeyed`). So does Attributes.NewAttribute (`UniqueKeys`). PHP array keys always are.
- ProfileGroups.NewGroup requires distinct profile names, as PHP array keys are.
- ProfileGroups.ProfileGroup.GetLastResult follows the code: it reads the key given as argument, the empty key when there is none, not the current profile. ProfileGroups.LastResultKeyVersusSelected states the difference.
- Attributes.Attribute.SetRule, SetRequired, SetNoFilters and RemoveRule are plain setters. The repository's tests call `setRule`, `setRequired`, `setNoFilters` and `removeRule`, but Attribute.php does not define them; SetRule follows `addRule` (Attribute.php:173-176).
- Attributes.Attribute.Reset clears `failedRule` and nothing else. In PHP, check() records a failure by reference into the rules array (`$this->failedRule = &$rule`, Attribute.php:202 and 209), so reset()'s `$this->failedRule = null` (Attribute.php:343) also empties that rule's slot, and a later check() that reaches the slot fails calling `check()` on null. The model keeps the rule. reset() is not called anywhere in the library itself.
- Attributes.Attribute.SetRule leaves `failedRule` on the rule object it recorded. In PHP, `addRule`'s assignment to `$this->rules[$ruleName]` (Attribute.php:175) writes through that same reference, so after a failure recorded under that name, getError() reports the new rule's error text. That aliasing is not modelled.
- Rules.Rule.Check calls a constraint as a total function of the input alone. PHP calls `$constraint($input, $this, $this->attrib, $this->dataFilter)` (Rule.php:207), so a user closure may read the rule, the attribute and the profile, and may throw, the exception propagating through Attribute::check and Result::check. The built-in rules use only the input.
