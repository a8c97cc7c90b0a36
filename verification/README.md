# KubeMod: JSONPath matching, patch paths and tiered rule execution

KubeMod selects parts of a Kubernetes resource with JSONPath, turns every selected item into the
path of a JSON patch operation, and executes its rules tier by tier. This project models those
three parts of the program in Dafny and proves what each promises, and what they promise
together. `dafny verify dfyconfig.toml` checks everything.

**Values.** A document is a `Json` tree (`Values`, `Documents`); an object is a sequence of
members with distinct keys, which fixes the arbitrary order of a Go `range` over a map. KubeMod's
`Undefined` is one more value. `IsDocument` is what `json.Unmarshal` produces, `IsGoValue` also
admits `Undefined`. Array lengths are bounded by Go's `int`.

**Selectors and the match engine.** `Selectors` lists the callbacks each selector makes.
`Visitors` and `Ranges` model the callback style: a visitor is an arbitrary function that
transforms an arbitrary state, and loops and recursions are proved to feed it exactly the listed
callbacks. `Paths` models the chain of plain and ambiguous nodes, the nested callbacks of
`visitMatchs`, and an independent list semantics that reads the segments from left to right;
`EngineRefinesMatches` equates the two for every visitor and state. On top of it stand `Descent`
(what `..` visits), `Soundness` (captured keys address the captured value; `Undefined` never
escapes), `Reaching` (what must be found), `Exactness` (the exact matches of paths of names, stars
and `..` in terms of the tree), `SelectorLaws` (what each selector reports, in terms of the document
and of its arguments as written), `Dropping` (when errors and `Undefined` may be dropped early or
late) and `Panics` (the same engine with the panic of an overflowing range step).

**Parser.** `Syntax` gives the grammar as a function of the tokens, a printer, and the round
trip. `Parser` is the parser object over a shared scanner; it extends in place the node objects of
`PathObjects`. An expression inside brackets or a script is one opaque token.

**From select to patch path.** `Quoting` is `strconv.Quote` (what counts as printable is a
parameter), `Placeholders` the map that `{#: path}` evaluates to, `Collisions` the key tuples that
share an entry of it, found with the documents of `FullTrees`, `SelectKeys` the scanner that reads a
printed key back, `Formats` the part of `fmt.Sprintf` that path templates reach, `PathTemplates` the
compiled templates, `SafeKeys` the keys they render as they are, `Guards` the check for unfilled
placeholders, `Pointers` JSON Pointer (sections 3 and 4 of RFC 6901), `PointerLaws` what pointers mean
in the tree, `Picks` and `Addressing` the composition of all of it, `OddNames` where it fails,
`PatchTexts` the text of a patch and a reader for it, and `Patches` the operations of a rule.

**Rules.** `Matching` models match criteria, `Rules` and `RuleStore` the store, a class whose
lists represent a finite map from (namespace, name) to item, `Views` what a lookup sees in terms of
that map, `Tiers` and `TierRuns` the two tier loops, `PatchRuns` what a patch run does to the bytes and
the document, rule by rule, and `RejectMessages` the texts of rejections. The lock is free between two lookups, so
both loops take an arbitrary schedule of Put and Delete operations, one batch before each lookup.

`Sequences` and `Decimals` are helpers; `Decimals` holds `strconv.Itoa` and `strconv.Atoi`.

Opaque and arbitrary throughout: expressions inside brackets, filters and scripts, regular
expressions, value and message templates, the `%v` form of values that are not strings, JSON
parsing, and patch application. Theorems hold for every choice of these functions. A constant
string key evaluates to that string, and to an index if it is written as one; what else may read
as an index is left open by the constant `OTHER_INDEX`, which has no definition. Likewise
`OTHER_PATH` stands for the paths of templates with verbs that `Formats` does not model. A constant
number evaluates to that number.

## Properties that do not hold as one might expect

- *The `(BADINDEX)` guard.* The code refuses any path that contains `(BADINDEX)`. An index out of
  range always trips it (`BadIndexTripsGuard`), but template and keys that are each free of that
  text can spell it together, and then a path whose every placeholder has a key is refused
  (`GuardFalseAlarm`: template `(#0`, key `BADINDEX)`). `GuardIsExact` tells from the template alone
  when that cannot happen, whatever the keys: the text next to the placeholders must not be a piece
  of the guard that a key could complete (`Exposed`).
- *Negative ends.* `[:b]` with a negative b selects nothing: the omitted min is 0, and min is compared
  with max before negative bounds are counted from the end (`NegativeEnd`; `RangeReports` in general).
- *Range steps.* `i += step` wraps around for huge steps and the next index is negative, so the
  loop panics. `RangeSelect` says exactly when: the last index visited plus the step exceeds the
  largest int (`StepOverflowsIff` in closed form, `StepOverflowExample` with a concrete range). An
  evaluation panics if and only if some range of its path meets such a value (`EngineOutcome`).
- *Dropping errors early.* Dropping errors and `Undefined` at the end of a plain run is the same
  as dropping them after each selector as long as no selector revives an `Undefined` that was lost
  before it (`DropsAgreeIff`). Direct selectors never do; a script is safe behind every path exactly
  if it keeps `Undefined` or fails on it (`AbsorbingIsExact`), which `isUndefined(@)` does not.
- *Two `..` segments.* Key tuples of a path print alike only if they are equal exactly for paths
  with at most one `..` (`PrintsApartIff`), and then no match is lost (`NoMatchLost`). Every path of
  names, stars and two or more `..` loses a match on some document (`LosesNothingIff`), `$..x..y` on
  a small one (`TwoDescentsCollide`).
- *Percent signs in keys.* A key that holds one of the marks `%!v(BADINDEX)` and `%!(EXTRA`, or ends
  with the beginning of one, is spoiled by the clean-up after Sprintf in some template; every other
  key is rendered as it is in all of them (`TameIsExact`).
- *Integer-looking keys.* A key such as `007` is scanned as the number 7
  (`LeadingZerosAreLost`); a key that fits an int survives exactly if it has no plus sign and no
  leading zero and is not `-0` (`PartShowsName`).
- *Names that read as an index.* A name that is not written like an index may still read as one and
  select an array element that no pointer token of that text leads to (`OddNameMisses`). For selects
  of names and stars, generated paths address their matches in every document if and only if no
  name is such (`AddressingIff`; `NameLeadsIff` for a single step).
- *All and Any.* All(P) is not always the opposite of Any(not P): both fail on lists that are
  empty or hold `Undefined`, unless some value is rejected (`AllAnyDuality`).
- *The cluster-rules namespace.* For a request in that namespace both scans walk the same list, and
  rules whose target matches it are looked at twice (`ApplicableCount`).
- *Tiers at the extremes.* The comment at core/modrulestore.go:142 speaks of a tier higher than
  the minimum; the code also accepts the minimum itself. Rules at the largest int16 tier are
  collected by the lookup but never executed (`NoTierIffNoRule`, `SteadyRunCovers`); validation
  refuses them.

## Model

| member | source | states |
|---|---|---|
| Ranges.RangePositions | jsonpath/selector.go:185-230 | the k-th visited index and the number of visits, ceil of the clamped span by the step size, for both directions; step 0 counts as 1 |
| Ranges.RangeMembers | jsonpath/selector.go:215-227 | an index is visited if and only if it lies in the clamped bounds a whole number of strides from the starting end |
| Ranges.RangeDirection | jsonpath/selector.go:218-227 | visits go strictly one way, so no index comes twice |
| Ranges.RangeSelect | jsonpath/selector.go:185-230 | the loops with 64-bit steps call any visitor with exactly the listed indices, and panic if and only if the step after the last visit overflows |
| Ranges.VisitUp | jsonpath/selector.go:219-222 | the upward loop, with wrap-around, equals the progression or panics under the overflow condition |
| Ranges.VisitDown | jsonpath/selector.go:223-227 | the downward loop terminates and equals the progression; it never overflows |
| Ranges.StepOverflowsIff | jsonpath/selector.go:219-222 | the overflow condition in closed form, computable before the call |
| Ranges.StepOverflowExample | jsonpath/selector.go:185-222 | the range [1024:1025:9223372036854774784] panics on every array of at least 1025 elements |
| SelectorLaws.RangeReports | jsonpath/selector.go:185-242 | on an array whose parts evaluate, nothing if min exceeds max; otherwise, of the indices in the slice, negative bounds counted from the end, every step-th one from the starting end |
| SelectorLaws.RangeSilent | jsonpath/selector.go:187-205 | a value that is no array, or a part that does not evaluate, gives no calls |
| SelectorLaws.OpenRange | jsonpath/parse.go:58 | `[a:]` reports the elements from a on, or the last -a ones, of arrays up to MaxInt32 elements |
| SelectorLaws.NegativeEnd | jsonpath/selector.go:207-213 | `[:b]` with a negative b reports nothing |
| SelectorLaws.StarReports | jsonpath/selector.go:65-76 | `*` and `[*]` report every element under its index and every member under its key, in order, and nothing elsewhere |
| SelectorLaws.UnionCalls | jsonpath/selector.go:73-87 | a union reports, in key order, what its keys select, passing over exactly the keys that fail or select Undefined |
| SelectorLaws.PlainPathOutcome | jsonpath/selector.go:89-138 | names on a document give the value they lead to, Undefined from the first object that lacks one or the first null on, and otherwise an error |
| Visitors.VisitAllLoop | jsonpath/selector.go:154-167 | the loops over slices and maps show the visitor every child once, in order |
| Visitors.MultiSelect | jsonpath/selector.go:73-87 | the union loop makes one call per key that selects something defined |
| Visitors.MapperFeedsDescendants | jsonpath/selector.go:145-152 | the recursive callbacks that prefix keys report exactly the descendants, in order, to any visitor |
| Visitors.RunBranchFeedsCalls | jsonpath/selector.go:66-230 | every ambiguous selector, run with any visitor and state, makes exactly its listed calls, before any panic of a range step |
| Descent.DescendantsExact | jsonpath/selector.go:145-152 | a key list and value are reported by `..` if and only if the key list leads to that value in the tree |
| Descent.DescendantsOrder | jsonpath/selector.go:145-152 | reported key lists are pairwise distinct, parents come before children, and there is one report per node of the tree |
| Paths.EvaluatePathLoop | jsonpath/path.go:20-29 | the loop over plain selectors stops at the first error and otherwise composes them |
| Paths.EngineRefinesMatches | jsonpath/path.go:31-95 | the folded node chain reports to any visitor exactly the matches of the left-to-right list semantics, in order |
| Paths.EvaluateLists | jsonpath/path.go:66-72 | with a branch anywhere in the path, evaluation is the list of matched values and never an error |
| Soundness.CallReplays | jsonpath/selector.go:66-230 | any call of any selector: directly selecting its key, a `..` list in order, gives its value |
| Soundness.FilterKeepsExactly | jsonpath/selector.go:170-182 | a filter reports a child if and only if its condition evaluates to true without error |
| Soundness.KeySoundness | jsonpath/path.go:74-103 | replacing every branch by its captured key and evaluating from the root gives the reported value |
| Soundness.EqualKeysEqualValues | jsonpath/path.go:74-103 | two matches with the same captured keys are the same match |
| Soundness.UndefinedContained | jsonpath/path.go:31-72 | on a document a script-free path from `$` or `@` with a branch yields a list of documents, without Undefined at any depth, and no error, unless a range step panics |
| Panics.RangeOrPanic | jsonpath/selector.go:185-230 | the 64-bit loops, run inside the engine, visit the listed indices and then panic exactly if the step overflows |
| Panics.EngineOutcome | jsonpath/path.go:31-95 | with panics, the engine panics if and only if some range of the path meets a value on which its step overflows, and otherwise reports exactly the matches, in order |
| Panics.EvaluationContained | jsonpath/path.go:31-72 | a script-free path with a branch either panics, exactly under that condition, or yields a list of documents without Undefined and no error |
| Exactness.TreeIff | jsonpath/selector.go:154-167 | a value is what Go can hold, or free of Undefined besides, exactly if each node that keys lead to is: distinct member keys, a length that fits an int |
| SelectorLaws.CurrentStartsOver | jsonpath/selector.go:39-50 | `@` starts over from the current element; of the selectors before it only an error counts |
| SelectorLaws.WhatExpressionsSee | jsonpath/selector.go:89-113 | a script and a key are evaluated on the value they are applied to, with the root beside it; an array asks the key for an integer and an object for a string, and a key that fails is an error |
| Exactness.MatchesExactly | jsonpath/path.go:31-104 | the matches of a path of names, stars, bracket stars and `..` on a document are exactly the key tuples of its shape that lead somewhere in the tree, each with the value it leads to |
| Dropping.DropsAgreeIff | jsonpath/path.go:31-48 | dropping errors and Undefined late or early reports the same matches for a path and all its prefixes if and only if no selector revives an Undefined lost before it |
| Dropping.LateDropIsEagerDrop | jsonpath/path.go:31-48 | so it does for direct selectors, scripts that keep Undefined or fail on it, and, on a defined root, a first selector of any kind |
| Dropping.AbsorbingIsExact | jsonpath/path.go:31-48 | a selector is safe behind every path of absorbing selectors if and only if it absorbs Undefined itself |
| Dropping.Revived | jsonpath/path.go:31-48 | behind any path that loses an Undefined, a selector that does not absorb makes late dropping report more |
| Dropping.ScriptRevivesUndefined | jsonpath/path.go:31-48 | behind any missing key of the root, late dropping reports the value that any reviving selector gives, early dropping nothing |
| PathObjects.PathRef.WithPlainSelector | jsonpath/path.go:50-52 | extends the slice or the node's ending in place; the chain means the old chain with one more selector |
| PathObjects.PathRef.WithAmbiguousSelector | jsonpath/path.go:53-58 | puts a fresh node on top and leaves the nodes below unchanged |
| PathObjects.AmbiguousNode.constructor | jsonpath/path.go:90-95 | a new node over a parent means the parent with one more branch |
| Syntax.ParseRoundTrip | jsonpath/parse.go:41-196 | printing any well-formed segments and parsing gives the segments back, omitted range parts as 0, MaxInt32 and 1, trailing tokens unread |
| Syntax.AcceptedIsPrintable | jsonpath/parse.go:41-196 | whatever the parser accepts, in any spelling, means the segments of some well-formed forms; printing those and parsing again gives the same result |
| Syntax.DotSpellings | jsonpath/parse.go:81-96 | the tokens of `.name`, `.*` and `(script)` mean a name, the star and a script, whatever follows |
| Syntax.DescendSpellings | jsonpath/parse.go:154-184 | the same after two dots, behind the segment of the `..` |
| Syntax.BracketSpellings | jsonpath/parse.go:98-152 | the tokens of `[a]`, `[a,b]`, `[*]` and `[?a]` mean a direct selection, a union, the star and a filter, whatever follows |
| Syntax.RangeSpellings | jsonpath/parse.go:52-59 | the tokens of `[a:b]`, `[a:b:c]` and `[:]` mean ranges with the omitted parts 0, 2147483647 and 1 |
| Syntax.DescendBracketSpellings | jsonpath/parse.go:154-184 | the same after two dots, where a single key stays a union |
| Syntax.Refusals | jsonpath/parse.go:119-184 | mixed separators and a range after two dots are errors |
| Parser.PathParser.ParsePathTokens | jsonpath/parse.go:41-79 | the parser object follows the grammar, extends its path by the parsed segments and leaves the scanner where the grammar stops |
| Parser.PathParser.ParseSelectTokens | jsonpath/parse.go:81-96 | the same after a dot |
| Parser.PathParser.ParseMapperTokens | jsonpath/parse.go:154-184 | the same after two dots |
| Parser.PathParser.ParseScriptTokens | jsonpath/parse.go:186-196 | the same for scripts |
| Parser.PathParser.ParseBracketTokens | jsonpath/parse.go:98-152 | the loop over keys and separators collects what the grammar does and terminates |
| Parser.ParsePrinted | jsonpath/parse.go:32-79 | parsing printed segments builds exactly the chain obtained by folding them |
| Quoting.QuoteAllInjective | jsonpath/placeholder.go:171-181 | quoted and bracketed name lists print alike only if they are equal, for all strings |
| Quoting.UnquoteReads | jsonpath/placeholder.go:171-181 | reading a quoted name as a Go string literal gives the name back, whatever counts as printable |
| Placeholders.WriteWildcards | jsonpath/placeholder.go:171-181 | the recursive writer appends the quoted names of a nested key list to the buffer |
| Placeholders.PrintSelectKey | jsonpath/placeholder.go:157-169 | the value of `#` is a dollar sign and the quoted names |
| Placeholders.SelectKeyEqualIffFlattenEqual | jsonpath/placeholder.go:157-181 | two key tuples print alike if and only if they flatten to the same names |
| Placeholders.NoMatchLost | jsonpath/placeholder.go:96-119 | with at most one `..`, the map of `{#: path}` has exactly one entry per captured key tuple and it holds that tuple's match |
| Placeholders.NothingLostIff | jsonpath/placeholder.go:107-119 | for any path, the map has as many entries as there are captured tuples if and only if no two of them print alike |
| Collisions.PrintsApartIff | jsonpath/placeholder.go:157-181 | all tuples of a path's shape print alike only if equal, if and only if the path has at most one `..` |
| Collisions.LosesNothingIff | jsonpath/placeholder.go:96-119 | a path of names, stars and `..` loses no match in any document if and only if it has at most one `..` |
| Collisions.TwoDescentsCollide | jsonpath/placeholder.go:96-119 | the parsed path `$..x..y` loses a match on a concrete document |
| SelectKeys.SelectKeyRoundTrip | core/modrulestoreitem.go:330-373 | scanning the printed form of a nested key list gives its flattened names, integers as numbers |
| SelectKeys.SelectKeySpelled | jsonpath/placeholder.go:157-181 | names that need no escape print as `$["a"]["b"]`, and that text is scanned as those names |
| SelectKeys.ExtractKeyParts | core/modrulestoreitem.go:355-373 | the loop over regular expression matches yields one typed part per match |
| SelectKeys.PartShowsName | core/modrulestoreitem.go:361-366 | a key prints back as itself if and only if it is no int that fits, or has neither plus sign nor leading zeros and is not -0 |
| Decimals.AtoiIff | core/modrulestoreitem.go:361-366 | the strings read as an int, and as which: a sign or none, any zeros and the decimal of a number that fits |
| SelectKeys.LeadingZerosAreLost | core/modrulestoreitem.go:361-366 | the key 007 comes back as 7 |
| PathTemplates.OneBasedInPlace | core/modrulestoreitem.go:342-345 | the loop that rewrites the matches in place makes every index one-based |
| PathTemplates.PiecesIff | core/modrulestoreitem.go:336-347 | the pieces of a template are the only ones that spell it with every placeholder as long as its digits go |
| PathTemplates.CompileTemplate | core/modrulestoreitem.go:336-349 | compiling a template with that loop and Sprintf equals the compilation function |
| PathTemplates.CompileIndexed | core/modrulestoreitem.go:336-349 | a template without percent signs compiles to one indexed verb per placeholder, the rest verbatim |
| PathTemplates.RenderIsSubstitution | core/modrulestoreitem.go:315-349 | compiling and rendering equals one-pass substitution of each maximal placeholder by the part at its index, for all keys in which no mark of Sprintf starts |
| SafeKeys.TameIsExact | core/modrulestoreitem.go:315-327 | a key is rendered as it is in every template without percent signs if and only if no mark occurs in it and it does not end with the beginning of one |
| PathTemplates.SurplusPartsIgnored | core/modrulestoreitem.go:319-324 | parts beyond the placeholders have no effect |
| Guards.BadIndexTripsGuard | core/modrulestoreitem.go:249-251 | a path rendered with a placeholder without a part is always refused |
| Guards.GuardIsExact | core/modrulestoreitem.go:249-251 | the guard trips exactly for unfilled placeholders, whatever the keys, if and only if some placeholder has no key or the template keeps clear of the guard text |
| Guards.GuardExactWithout | core/modrulestoreitem.go:249-251 | for keys and a template that lack some character of the guard, it trips if and only if a placeholder has no part |
| Guards.GuardFalseAlarm | core/modrulestoreitem.go:249-251 | template and key free of the guard text that together spell it |
| Pointers.TokensOfJoin | core/modrulestoreitem.go:313-327 | a path joined from tokens without slashes reads back as those tokens |
| PointerLaws.ResolveIsAt | core/modrulestoreitem.go:313-327 | escaped and joined, any keys form a pointer to exactly what they lead to in the tree |
| Addressing.MirrorJoins | core/modrulestoreitem.go:315-349 | substituting captured keys in the mirrored template joins the address of the match |
| Addressing.GeneratedPathAddressesMatch | core/modrulestoreitem.go:238-258 | the path generated from a match's printed keys is a JSON Pointer that resolves in the document to exactly that match |
| Addressing.EveryEntryIsAddressed | core/modrulestoreitem.go:245-258 | the same for every entry of the map a patch iterates over |
| Addressing.NameLeadsIff | jsonpath/selector.go:89-138 | selecting a name in any document gives what the pointer token leads to, or Undefined, if and only if the name does not read as an index without being written like one |
| OddNames.AddressingIff | core/modrulestoreitem.go:238-258 | for a select of names and stars, generated paths address every match in every document if and only if no name reads as such an odd index |
| OddNames.OddNameMisses | core/modrulestoreitem.go:238-258 | such a name alone matches the last element of an array just long enough, and its generated pointer resolves to nothing |
| Patches.SelectItems | core/modrulestoreitem.go:238-266 | one item per map entry, each key once in any order, or an error if and only if the select fails or some path trips the guard |
| Patches.PatchText.Append | core/modrulestoreitem.go:289-295 | the builder and its operation index keep the text equal to the comma-joined entries |
| PatchTexts.PatchReads | core/modrulestoreitem.go:289-299 | a reader of the JSON text gets back every entry's operation and path, if they need no escapes, and its value text |
| Patches.CalculatePatchText | core/modrulestoreitem.go:216-301 | the patch text reads back as one operation per selected item, operation by operation, each with the rule's op, the item's path and the value rendered for it; an error if and only if some operation fails |
| Patches.WithoutSelect | core/modrulestoreitem.go:259-293 | without a select there is one entry, at the path as written, and the operation fails exactly if its value cannot be rendered without an item |
| Patches.WithSelect | core/modrulestoreitem.go:238-287 | with a select, an operation fails exactly if the select does, or some key's path holds the guard text, or some key's value cannot be rendered |
| Patches.GroupAddressesItems | core/modrulestoreitem.go:268-296 | an entry whose template mirrors its select points at the very match its value was rendered for, and the value template saw that match's key parts and item |
| Matching.IsStringMatch | core/modrulestoreitem.go:510-542 | the first requirement present decides alone; no requirement accepts everything |
| Matching.FilterUndefined | core/modrulestoreitem.go:439-447 | the loop keeps exactly the defined values |
| Matching.BreakerLoop | core/modrulestoreitem.go:473-507 | the early-exit loop equals exists for Any and forall otherwise, flipped by negate |
| Matching.IsMatchItem | core/modrulestoreitem.go:405-508 | for every select result the early exits decide the quantified meaning |
| Matching.IsMatch | core/modrulestoreitem.go:391-403 | a rule matches if and only if all its criteria do |
| Matching.ListOutcome | core/modrulestoreitem.go:464-507 | on a list, "Any" or no word asks for some value that meets the requirement, "All" for a non-empty list in which every value is defined and meets it, any other word for the defined values only |
| Matching.SingleOutcome | core/modrulestoreitem.go:405-462 | errors, null and Undefined do not match, a boolean decides itself, any other single value must meet the requirement |
| Matching.OmittedMeansAny | core/modrulestoreitem.go:473-505 | leaving matchFor out means Any for every select result |
| Matching.NegateFlips | core/modrulestoreitem.go:405-508 | setting negate flips the outcome in every case |
| Matching.AllAnyDuality | core/modrulestoreitem.go:464-505 | the exact lists on which All(P) is the opposite of Any(not P) |
| RuleStore.FindItemIndexByName | core/modrulestore.go:401-409 | the first index with a name, or -1 if and only if there is none |
| RuleStore.SortByTier | core/modrulestore.go:43-52 | sorting permutes the list and orders it by tier |
| RuleStore.PermutedRepresents | core/modrulestore.go:111-112 | a permuted list represents the same rules |
| RuleStore.ModRuleStore.Put | core/modrulestore.go:76-115 | upserts one entry of the map and sorts its list, or changes no rule when compilation fails |
| RuleStore.ModRuleStore.Delete | core/modrulestore.go:118-139 | removes exactly that entry; a missing rule leaves every list as it was |
| RuleStore.ModRuleStore.PerformAll | core/modrulestore.go:76-139 | any sequence of operations ends in the map the operations describe |
| RuleStore.RunHoldsLastWrites | core/modrulestore.go:76-139 | from the empty store, a key holds the rule last successfully put and not deleted since |
| RuleStore.ModRuleStore.GetMatching | core/modrulestore.go:143-208 | the one-pass scan with reset returns the lowest tier from the minimum on, and exactly that tier's matching rules of the asked type |
| RuleStore.Process | core/modrulestore.go:150-174 | one rule keeps the scan's invariant: the lowest tier seen and all rules seen at it |
| Rules.NextTierAttained | core/modrulestore.go:143-174 | the tier found is that of an applicable rule, not below the minimum, and least among those |
| Rules.NoTierIffNoRule | core/modrulestore.go:142-144 | the tier is MaxInt16 if and only if no applicable rule below MaxInt16 reaches the minimum |
| Rules.LookupIgnoresOrder | core/modrulestore.go:143-208 | the tier, and up to order the rules, do not depend on the order of the lists |
| Rules.ApplicableIgnoresOrder | core/modrulestore.go:124-128 | reordering lists, as the fast delete does, only reorders the applicable rules |
| Tiers.EveryRunIsSafe | core/modrulestore.go:282-289 | under any edits between lookups the executed tiers strictly increase, adding one never overflows, and there are at most 65534 |
| Tiers.SteadyRunCovers | core/modrulestore.go:282-325 | with unchanging rules the executed tiers are exactly the distinct valid tiers of the applicable rules, ascending |
| Tiers.AscendingIsUnique | core/modrulestore.go:282-289 | an ascending tier sequence is determined by its set of tiers |
| Tiers.EveryRuleVisited | core/modrulestore.go:282-292 | a complete undisturbed run looks at every applicable valid rule exactly as often as it applies |
| Tiers.LastingTier | core/modrulestore.go:282-292 | whatever changes around it, the tier of a validated rule that every lookup of a complete run sees is executed |
| Tiers.LastingRuleVisited | core/modrulestore.go:282-292 | a rule that every lookup sees equally often is visited that often if it is validated, and never otherwise |
| TierRuns.ApplyRulesLoop | core/modrulestore.go:292-313 | the inner loop with its three error cases equals applying the rules one after the other |
| PatchRuns.RunWellPatched | core/modrulestore.go:292-313 | rule by rule: an uncalculable patch changes nothing, a failed application goes on with the returned bytes, a successful one parses them, and unparsable bytes end the run; each tier's rules are those that match the document it starts from, in the order they are scanned |
| PatchRuns.TiersInStep | core/modrulestore.go:301-313 | if failing applications return the bytes they were given, every tier is matched against the parse of the bytes the lower tiers left |
| TierRuns.CalculatePatch | core/modrulestore.go:254-325 | for any schedule of edits the loop ends, every lookup sees the map as the edits up to then leave it, the map ends as they describe, at most 65534 strictly increasing tiers are executed, the document comes about rule by rule as in RunWellPatched and is the parse of the returned bytes, and a rule that no edit is about is tried exactly as often as it applies |
| TierRuns.CalculatePatchUndisturbed | core/modrulestore.go:254-325 | without edits the result is the cascade over the ascending distinct tiers, each tier matched against what lower tiers left; a successful run visits exactly the validated rules of the map that apply, once each outside the cluster-rules namespace |
| Views.ApplicableIsView | core/modrulestore.go:177-198 | the scanned rules are, up to order, those of the map that apply to the request, once for each way they apply |
| Views.ApplicableCount | core/modrulestore.go:180-198 | outside the cluster-rules namespace an applicable rule is looked at once; inside it twice exactly if its target matches that namespace |
| Views.ClusterRulesFirst | core/modrulestore.go:177-206 | the rules found are cluster-wide ones, in the order of their list, followed by those of the namespace |
| Views.LookupByMap | core/modrulestore.go:143-174 | the tier found is the least one, from the minimum on, among the rules of the map that apply |
| Views.MatchingByMap | core/modrulestore.go:200-206 | the rules found are those of the map that apply, have the tier and the type, and match, each as often as it applies |
| TierRuns.RunVisitsTheMap | core/modrulestore.go:282-292 | a complete undisturbed run visits exactly the validated rules of the map that apply, each as often as it applies |
| Views.EvolvedIsJoined | core/modrulestore.go:282-289 | the map a lookup sees is that after all edits made before it |
| Views.UntouchedTimes | core/modrulestore.go:180-198 | a rule that no edit is about keeps applying as often as it did |
| TierRuns.RunVisitsUntouched | core/modrulestore.go:282-292 | a complete run, whatever the edits, visits every validated rule that no edit is about as often as it applies |
| RejectMessages.AppendMessages | core/modrulestore.go:377-393 | one message per rule, after those there are |
| RejectMessages.MessageReads | core/modrulestore.go:377-393 | a message reads back as the rule's namespace and name, and its rendered text exactly if the rule has a template that does not fail |
| TierRuns.DetermineRejections | core/modrulestore.go:349-397 | for any schedule of edits the loop ends, every lookup sees the map as the edits up to then leave it, the tiers strictly increase, there is one message per rejecting rule of the run, and a rejecting rule that no edit is about rejects as often as it applies |
| TierRuns.RunRejectsUntouched | core/modrulestore.go:367-397 | a complete run, whatever the edits, rejects with every matching Reject rule that no edit is about |
| TierRuns.RejectedIff | core/modrulestore.go:367-397 | under any edits a rule rejects if and only if in some round it applies to the map of that moment, matches, and has the executed tier |
| TierRuns.RejectionsComplete | core/modrulestore.go:367-397 | an undisturbed run rejects with exactly the applicable matching Reject rules |
| TierRuns.RunRejectsByTheMap | core/modrulestore.go:367-397 | the same in terms of the map, each rule at most once outside the cluster-rules namespace |
| TierRuns.RejectionsGrouped | core/modrulestore.go:367-397 | rejections are grouped by ascending tier |
| TierRuns.DetermineRejectionsUndisturbed | core/modrulestore.go:349-397 | without edits there is one message per rule of the map that rejects, ordered by tier, and none if and only if no rule rejects |

## Left out

- Visitors.RunBranchFeedsCalls: the list semantics takes ranges with unbounded integers; the 64-bit loop is RangeSelect, and Panics adds its panic to the engine.
- Soundness.UndefinedContained: the panic of a range step, which EvaluationContained adds.
- PathTemplates.RenderIsSubstitution: templates with percent signs, and more than 10000009 key parts, the point where fmt.Sprintf starts to refuse indices.
- PathTemplates.SurplusPartsIgnored: the same templates and numbers of parts.
- Guards.BadIndexTripsGuard: templates with percent signs.
- Guards.GuardIsExact: templates with percent signs.
- Guards.GuardExactWithout: templates with percent signs.
- Patches.CalculatePatchText: decoding by the patch library; the reader takes operations and paths without quotes and backslashes, which the code does not escape.
- TierRuns.CalculatePatch: the last-applied-configuration annotation and the final diff of documents.
- Aliasing of Go slices: captured keys are values here, although append may share their backing array between sibling callbacks.
- Numeric placeholders such as `{#0: ...}`, objects with several elements, and errors of key expressions in jsonpath/placeholder.go; only the `#` form that patch selects use is modelled.
- Invalid UTF-8 in strings, which strconv.Quote escapes byte by byte.
- Pointer escaping of keys, which the code does not do: keys with a slash or a tilde are outside GeneratedPathAddressesMatch.
- The Go parser of expressions: a bracket expression or a script is one token.
- Compilation of rules apart from its success or failure, and the order in which its errors are found.
- YAML conversion of values, logging, and locking itself; an edit schedule stands for what other goroutines do between lookups.
- Webhook handlers, the controller, the web application, dependency wiring, dates and the name pool.
