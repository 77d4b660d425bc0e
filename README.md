# ember-named-args-codemod, modelled in Dafny

The codemod (`index.js`, class `NamedArgsCodeShifter`) migrates Ember
templates to explicit argument syntax. A collection phase builds two
dictionaries keyed by component id:

- `componetsDictionairy` holds the named arguments of each component. It is
  seeded with an empty list for every component definition file. Then every
  mustache and block statement of every template is scanned, and the hash
  keys of an invocation whose callee is a known component are appended.
- `propertyDictionairy` holds the scoped properties of each component. It
  gets the key names of the properties in the component's definition file.

A rewrite phase then visits every path expression. In a component template
the head of the reference (the text before the first `.`) is classified.
Named and scoped at once is a conflict: the reference is reported and left
alone. Named alone gets `@`. Scoped, or a reference that starts with
`elementId`, gets `this.`. Anything else is left alone. In a route template
a reference that starts with `model` or `target` gets `this.`.

The files:

- `wrappers.dfy`: `Option`.
- `js_strings.dfy`: the JavaScript string operations the code relies on
  (`indexOf`, `split` with a string separator, `join`, `replace` with a
  string pattern). `startsWith` is Dafny's prefix relation `<=`.
- `component_ids.dfy`: the id derivation `file.split('app/components/')[1].replace('.js', '')`.
- `references.dfy`: the reserved-name constants, the classification and
  its precedence chain, and the two `PathExpression` visitors. A visitor is
  a method that rewrites an `array` of reference texts in place, the way the
  visitor assigns `node.original`.
- `shifter.dfy`: class `CodeShifter` with the two dictionaries as `map`
  fields. Its methods are the pushes, the scoped-property visitor, the
  seeding, the collection phase and the per-template rewrite steps. Each
  method is proved against a function of the old state (`Push`, `PushAll`,
  `CollectTemplate`, `Seeded`, `AddScoped`, `ScopeAll`), and the lemmas in
  the same module prove what the code promises about those functions.

Inputs the foreign libraries would produce are given as values:

- a template for the argument scan is a sequence of `Invocation(callee, hashKeys)`;
- a template for a rewrite is an array of path-expression texts in visit order;
- a definition file is the sequence of its property key names in visit
  order, or `None` when the file does not exist.

Where the code does something other than its comments and names suggest, the model follows the code:

- The comment at index.js:86 says there is no sense building the AST "if we don't have any named arguments", but the test is
  `namedArguments.length || scopredArguments`. An array is always truthy in
  JavaScript, so the test always passes and every component template is
  transformed (`TransformGuard`).
- The duplicate guard in `pushToComponentsDictionary` tests whether the list
  holds the *component's* name, not the argument's. So duplicates are kept.
  Once a hash key equal to the component's own name has been recorded,
  every later argument of that component is dropped
  (`SelfNamedArgumentBlocksRest`, `SelfNameCutsOff`, `SelfNamedArgumentExample`).
- The reserved-name test applies `startsWith` to the whole reference, so
  `modelX` and `elementIdFoo` match too (`ReservedPrefixQuirk`).
- The constructor ignores its arguments, so dry-run mode is never on and
  every transformed template is written back.

## Model

| member | source | states |
|---|---|---|
| JsStrings.IndexOf | index.js:91 | `indexOf` for a string pattern: its contract gives the first occurrence, or says there is none |
| JsStrings.Split | index.js:91 | `split` with a non-empty string separator, cut at each first occurrence in what is left; properties in `SplitCuts`, `SplitJoin` and `SplitPiecesFree` |
| JsStrings.SplitCuts | index.js:91 | the first piece of `split` is a prefix of the string with no separator starting inside it; with one piece it is the whole string and the separator occurs nowhere; with more, a separator starts right after it and the remaining pieces are the split of the text after that separator |
| JsStrings.Join | index.js:160 | `join`, which the source does not call; it is the inverse that `SplitJoin` uses to state the round trip of `split` |
| JsStrings.ReplaceFirst | index.js:160 | `replace` with a string pattern; properties in `ReplaceFirstAt` and `ReplaceFirstAbsent` |
| JsStrings.SplitJoin | index.js:160 | joining the pieces of `split(sep)` with `sep` gives back the original string |
| JsStrings.SplitPiecesFree | index.js:91 | no piece of `split(sep)` contains the separator |
| JsStrings.ReplaceFirstAt | index.js:160 | `replace` with a string pattern replaces only the first occurrence |
| JsStrings.ReplaceFirstAbsent | index.js:160 | `replace` leaves a string without the pattern unchanged |
| ComponentIds.StripComponentId | index.js:160 | the id of one definition path, `None` where the source throws; properties in `StripFailsIffNoMarker` and `StripRoundTrip` |
| ComponentIds.StrippedNames | index.js:160 | the ids of every definition path, in order; properties in `StrippedNamesSpec` |
| ComponentIds.StripFailsIffNoMarker | index.js:160 | deriving an id throws exactly when the path does not contain `app/components/` |
| ComponentIds.StripRoundTrip | index.js:160 | `root + "app/components/" + id + ".js"` gives back `id` when the marker first occurs after `root`, occurs nowhere after it, and `id` holds no `.js` |
| ComponentIds.StrippedNamesSpec | index.js:160 | the ids are derived file by file in order; one path without the marker makes the whole derivation fail |
| References.Head | index.js:91 | `original.split('.')[0]`; properties in `HeadSpec`, `HeadOfPrefixed` and `HeadUnique` |
| References.StartsWithAny | index.js:95-97 | the `map` of `startsWith` followed by the `reduce` with `||`; properties in `StartsWithAnySpec` |
| References.Classify | index.js:98-104 | the precedence chain conflict, named, scoped or reserved, untouched; properties in `ConflictLeftUnchanged`, `NamedBeatsReserved`, `NotNamedRewrite` and `RewriteExclusive` |
| References.RewriteComponentPath | index.js:98-104 | the new text of a component-template reference; properties in `RewriteExclusive` and `ComponentRewriteIdempotent` |
| References.RewriteRoutePath | index.js:113-118 | the new text of a route-template reference; properties in `RouteRewriteSpec` and `RouteRewriteIdempotent` |
| References.ConflictingPaths | index.js:98-99 | the conflict report of a template in visit order; properties in `ConflictingPathsSpec` and `ConflictCount` |
| References.ConflictCount | index.js:98-99 | the report has exactly one entry per conflicting occurrence: its length is the number of conflicting positions |
| References.HeadSpec | index.js:91 | the head is a prefix of the reference without `.`, and is either the whole reference or is followed by `.` |
| References.HeadOfPrefixed | index.js:91 | a prefix without `.` put in front of a reference is put in front of its head too |
| References.StartsWithAnySpec | index.js:95-97 | the map/reduce over `startsWith` is true exactly when some listed name is a prefix of the whole reference |
| References.ComponentReservedSpec | index.js:10 | a component reference counts as reserved exactly when it starts with `elementId` |
| References.ConflictLeftUnchanged | index.js:98-99 | a head that is both named and scoped is classified as a conflict, left unchanged and reported |
| References.NamedBeatsReserved | index.js:100-101 | a named, unscoped head gets `@` prefixed, even when the reference starts with `elementId` |
| References.NotNamedRewrite | index.js:102-104 | an unnamed head gets `this.` when it is scoped or the reference starts with `elementId`, and is left unchanged otherwise |
| References.RewriteExclusive | index.js:98-104 | the result is exactly one of the original, `@` + the original or `this.` + the original, each under exactly its branch's condition; no rewrite adds both prefixes |
| References.ComponentRewriteIdempotent | index.js:90-104 | when no name begins with `@` and `this` is not a name, a second component rewrite changes nothing |
| References.RouteRewriteSpec | index.js:113-118 | a route reference gets `this.` exactly when it starts with `model` or `target`, and is unchanged otherwise |
| References.RouteRewriteIdempotent | index.js:113-118 | a second route rewrite changes nothing |
| References.ReservedPrefixQuirk | index.js:95-97 | any reference that starts with `model`, `target` or `elementId` (such as `modelX`) is treated as reserved |
| References.ConflictingPathsSpec | index.js:98-99 | a reference is in the conflict report exactly when it is a conflicting reference of the template |
| References.RewriteComponentTemplate | index.js:90-105 | the component visitor rewrites every path expression by the classification and returns the conflicting ones in visit order |
| References.RewriteRouteTemplate | index.js:112-119 | the route visitor rewrites every path expression by the route rule |
| Shifter.Push | index.js:123-133 | one push into the argument dictionary; properties in `PushUnknownUnchanged`, `PushAppends` and `PushBlockedBySelfName` |
| Shifter.PushAll | index.js:135-138 | the pushes for every hash key of one invocation; properties in `PushAllGrows`, `PushAllAppendsAll`, `PushAllSound` and `SelfNamedArgumentBlocksRest` |
| Shifter.CollectTemplate | index.js:143-150 | the pushes for every mustache and block statement of one template; properties in `CollectTemplateSound` and `UnknownCalleesIgnored` |
| Shifter.CollectTemplates | index.js:167 | the scan of every template, one after the other; properties in `CollectTemplatesKeepsKeys`, `CollectTemplatesRecords`, `CollectTemplatesSound` and `ScanOrderMatters` |
| Shifter.Seeded | index.js:161-164 | the seeded argument dictionary; properties in `SeededSpec` |
| Shifter.AddScoped | index.js:55-59 | the property visitor's effect for one definition file; properties in `AddScopedSpec` |
| Shifter.ScopeAll | index.js:168 | the definition scan over every component id; properties in `ScopeAllNoEntry`, `ScopeAllRecords` and `ScopeAllSound` |
| Shifter.PushAllSound | index.js:135-138 | after an invocation's pushes, every name in a list was there before or is one of that invocation's hash keys for that component |
| Shifter.CollectTemplateSound | index.js:143-150 | after a template's scan, every name in a list was there before or was passed to that component in the template |
| Shifter.PushUnknownUnchanged | index.js:123-128 | a push for a callee that is not a key leaves the whole dictionary unchanged |
| Shifter.PushAppends | index.js:130-132 | a push for a known callee whose list lacks the callee's name appends the argument at the end; the keys, the other lists and the earlier elements stay |
| Shifter.PushBlockedBySelfName | index.js:130 | when the list already holds the component's own name, nothing is appended |
| Shifter.PushAllGrows | index.js:135-138 | an invocation's pushes never add a key, only extend lists at their end, and touch only the callee's list |
| Shifter.PushAllAppendsAll | index.js:135-138 | for a known callee whose name is neither recorded yet nor a hash key, all hash keys are appended in order |
| Shifter.SelfNamedArgumentBlocksRest | index.js:130-132 | once a component's list holds its own name, no later invocation adds anything to it |
| Shifter.SelfNamedArgumentExample | index.js:130-137 | `{{title title=x subtitle=y}}` records `title` and loses `subtitle` |
| Shifter.UnknownCalleesIgnored | index.js:124-128 | a template whose callees are all unknown leaves the dictionary unchanged |
| Shifter.CollectTemplatesKeepsKeys | index.js:167 | scanning any number of templates never adds a key |
| Shifter.CollectTemplateGrows | index.js:130-148 | scanning one template keeps every component and its list is a prefix of the list afterwards |
| Shifter.CollectTemplatesGrows | index.js:167 | scanning every template keeps every component and its list is a prefix of the list afterwards |
| Shifter.PushAllConcat | index.js:135-138 | pushing two runs of keys one after the other is pushing their concatenation |
| Shifter.SelfNameCutsOff | index.js:130-137 | for keys `pre + [c] + post` with `c` in neither `pre` nor its list, exactly the keys of `pre` and then `c` are appended; the keys of `post` are lost |
| Shifter.CollectTemplatesRecords | index.js:130-148 | after scanning every template, each hash key passed to a seeded component anywhere is in its argument list, and nothing earlier is lost, when no invocation of it passes its own name as a key |
| Shifter.CollectTemplatesSound | index.js:130-148 | after scanning every template, every name in a component's list was there before or was passed to that component at some invocation |
| Shifter.SigilOnlyForPassedArguments | index.js:100-101 | after the collection phase, a head that gets `@` was passed as a hash key to that component somewhere |
| Shifter.ScanOrderMatters | index.js:130-132 | with a self-named key, scanning `subtitle` then `title` records both, while the reverse order records only `title` |
| Shifter.PassedArgumentGetsSigil | index.js:92-101 | a reference in a component's template whose head was passed to that component, and is not a scoped property, gets `@`, when no invocation of that component passes its own name as a key |
| Shifter.ScopedPropertyGetsThis | index.js:56-59 | a reference whose head is a property of the component's existing definition file, and not a named argument, gets `this.` |
| Shifter.ScopeAllSound | index.js:56-59 | every recorded scoped property was recorded before or comes from an existing definition file of one of the component ids |
| Shifter.ThisOnlyForScopedOrReserved | index.js:102-103 | a reference that gets `this.` starts with `elementId`, or its head is a recorded or declared property of the component |
| Shifter.ArgumentAndPropertyConflict | index.js:91-99 | a head that is both passed to the component and declared in its definition is classified as a conflict and left unchanged, when no invocation of that component passes its own name as a key |
| Shifter.SeededSpec | index.js:161-164 | after seeding, the keys are exactly the component ids, each with the empty list |
| Shifter.AddScopedSpec | index.js:56-59 | a definition without properties creates no entry; otherwise its names follow the existing ones in visit order, under a key made on the first hit |
| Shifter.ScopeAllNoEntry | index.js:47-66 | a component without a definition file, or without properties in it, gets no scoped entry |
| Shifter.TransformGuard | index.js:87 | the skip test always passes, because an array is always truthy |
| Shifter.CodeShifter.constructor | index.js:41-42 | both dictionaries start empty |
| Shifter.CodeShifter.PushToComponentsDictionary | index.js:123-133 | the argument dictionary becomes `Push` of the old one; the property dictionary is unchanged |
| Shifter.CodeShifter.FindArgumentsInStatement | index.js:135-138 | every hash key of the invocation is pushed, in order |
| Shifter.CodeShifter.FindArgumentsInFile | index.js:143-150 | every mustache and block statement of a template is scanned, in visit order |
| Shifter.CodeShifter.FindScopedArguments | index.js:47-67 | a missing definition changes nothing; otherwise its property names are appended in visit order, the entry made on the first one |
| Shifter.CodeShifter.SeedComponents | index.js:160-164 | the argument dictionary is replaced by the seeded one, or left as it was when deriving an id throws |
| Shifter.CodeShifter.Collect | index.js:153-169 | after the collection phase the argument keys are exactly the component ids, the lists are the pushes of every template, and the properties are those of every existing definition file |
| Shifter.CodeShifter.ReplaceArguments | index.js:82-108 | a component without an entry throws; a missing template is skipped; otherwise the template is rewritten with its named and scoped names and the conflicts are returned |
| Shifter.CodeShifter.ReplaceModelInRoute | index.js:110-121 | a route template, when present, is rewritten by the route rule |

## Left out

- File reading, writing and existence checks (`readFileAsync`, `writeFileAsync`, `fileExistsAsync`, `performTransform`), index.js:12-32, 69-80: I/O. A file's presence is an `Option` or a nullable array, and a rewritten array stands for the written file.
- Parsing, visiting and printing by `recast` and `ember-template-recast`: foreign libraries. Their output is the sequences described above, in their visit order.
- File enumeration by `globby`, `path.resolve` and the `Promise.all` fan-out, index.js:154-158, 165-173: file-system traversal and async scheduling. `Collect` runs the template scan and then the definition scan. The two touch different dictionaries, so the order between them makes no difference. Within the template scan, `Collect` takes the templates in the order of its `templates` list. The source appends in whichever order the `readFileAsync` calls of index.js:142 finish (index.js:167-169), and each such completion order is one such list. The order changes only the order within each list unless a component is passed its own name as a hash key: then which names get recorded at all depends on the order (`ScanOrderMatters`). The rewrite phase is the per-file methods, not a driver over all files.
- The key rename `value.key.name = this.…`, index.js:60: the definition file is never written back.
- Console diagnostics, index.js:65, 78, 85, 99: only the conflict report is kept, as the list of conflicting references.
- The constructor's fixed directory paths, index.js:36-40: `findScopedArguments`, `replaceArguments` and `processFiles` use them only to locate files (index.js:48, 88, 154-156); the model takes the files, templates and definitions as given. `routePropertyDictionairy` and `routeDirectory` (index.js:39, 43) are read nowhere.
- JavaScript objects as dictionaries: a component id such as `constructor` or `__proto__` would hit a property inherited from `Object.prototype`. The model uses a plain map.
- A property key that is not an identifier, where `value.key.name` is `undefined`: the definition is taken as a sequence of names.
- bin/index.js (command-line parsing and `process.exit`) and tests/tests.js (a run over a fixture folder): not part of the core.
