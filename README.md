# i18n resource store — a verified Dafny model

This project models the core of the `@ticatec/i18n` library. The library is a small internationalisation resource store:

- **The structural merger** `deepMerge` folds language bundles into one untyped resource tree. It aligns arrays by index, objects by key, and uses an `override` flag to decide conflicts.
- **The store** `I18nContext` holds the merged tree and the active language. It offers `setResource`, `get` and `getText`.
- **The path resolver** (`getNestedObject`, `getNestedValue`) resolves dotted keys against the tree.
- **The helpers**:
  - `appendSuffix` puts the language into a file name;
  - `formatText` expands `{{path}}` placeholders;
  - `createResourceProxy` is a lazy facade whose field reads become dotted-key lookups on the live store;
  - `getI18nText` chains `getText` and `formatText`.

Values are JavaScript values restricted to what JSON produces, plus `undefined` (`Json.Json`). Objects are own-key maps and numbers are integers. Reading a property of `null` or `undefined` throws in JavaScript; here it yields `Result.TypeError`.

Modules:

| module | file | contents |
|---|---|---|
| `Strings` | `strings.dfy` | `split`/`join` on one character, `lastIndexOf`, `indexOf`, the regex `\s` class, decimal rendering of integers |
| `Json` | `json.dfy` | the value type, the runtime type tests (`typeof x === 'object'` holds for `null`), `String(v)` |
| `Utils` | `utils.dfy` | the own-key walk, `getNestedObject` (a loop method proved against `NestedObject`), `getNestedValue` |
| `Context` | `i18n_context.dfy` | `DeepMerge` as a value and the copying loops of `deepMerge` proved equal to it; the `I18nContext` class |
| `MergeProperties` | `merge_properties.dfy` | what a merge keeps, adds and overrides |
| `StoreProperties` | `store_properties.dfy` | what `getText` returns for found, missing and throwing keys |
| `I18nUtils` | `i18n_utils.dfy` | `appendSuffix`; the placeholder matcher and the scanner `formatText`; the facade as explicit nodes; `getI18nText` |
| `Scenarios` | `scenarios.dfy` | worked examples on concrete values: file names, a formatted greeting, a missing key, a facade read |

The class keeps a ghost history of the submitted bundles. Its invariant `Valid()` says that the held tree is the fold of `DeepMerge` over that history, starting from `{}`.

The leaf-keeping lemmas of `MergeProperties` follow object paths, which is where the walks of `get` descend. Inside arrays, a merge without override does not keep every element of the target: an `undefined` element is filled from the source (`ArrayMergeKeepsDefinedElements`), and a `null` element facing an object takes the object (`ArrayMergeFillsNullSlot`).

The global `replace` of `formatText` is modelled as a left-to-right scan:
- `Format` is the specification function;
- `FormatText` is the loop over the unscanned rest of the template;
- `ResolvePlaceholder` is the callback's loop over the segments of the path.

The regular expression `/{{\s*([^}]+)\s*}}/g` is decided by `MatchPlaceholder`:
- a match at a position starts with `{{`;
- it closes at the first `}` after that, which must be followed by a second `}`, with at least one character in between;
- the captured path drops the leading white space but keeps trailing white space, because the group is greedy;
- if the inner text is all white space, the path is its last character, because of backtracking.

## Model

| member | source | states |
|---|---|---|
| `Context.DeepMerge` | src/i18nContext.ts:12-69 | the merge as a value: what every branch of `deepMerge` returns, with arrays aligned by index and objects by key; its properties are the `MergeProperties` lemmas and `MergeTrees` is proved equal to it |
| `Context.MergeTrees` | src/i18nContext.ts:12-69 | the merge returns exactly `DeepMerge(target, source, override)`: a `null`/`undefined` source gives the target, a `null`/`undefined` target gives the source, two arrays and two objects merge element- and key-wise, any other pair gives `override ? source : target` |
| `Context.MergeArrays` | src/i18nContext.ts:20-38 | the index loop over a copy of the target array builds the element-wise merge; its invariants say which slots are merged, appended and still untouched |
| `Context.MergeObjects` | src/i18nContext.ts:40-65 | the key loop over a copy of the target object builds the key-wise merge; its invariants track the keys handled so far |
| `Context.MergeAllSnoc` | src/i18nContext.ts:77-79 | submitting one more bundle merges it into the fold of the earlier ones |
| `Context.I18nContext.constructor` | src/i18nContext.ts:5-10 | the store starts with `{}`, the empty language and no bundles |
| `Context.I18nContext.SetResource` | src/i18nContext.ts:77-79 | the held tree becomes the merge of the old tree with the bundle; the invariant is kept; a `null` bundle (a failed load) leaves the tree unchanged |
| `Context.I18nContext.SetLanguage` | src/i18nContext.ts:82-84 | any string is accepted and the getter returns the last value set |
| `Context.I18nContext.Language` | src/i18nContext.ts:86-88 | the language getter: the stored string |
| `Context.I18nContext.Get` | src/i18nContext.ts:112-114 | `get(key)`: the dotted-key lookup on the held tree |
| `Context.I18nContext.GetText` | src/i18nContext.ts:96-106 | `getText(key, defaultText)`: the stored string, else the non-empty default, else `Invalid key: <key>`; its properties are the `StoreProperties` lemmas |
| `MergeProperties.MergeNullSource` | src/i18nContext.ts:13-15 | a `null` or `undefined` source returns the target unchanged |
| `MergeProperties.MergeNullTarget` | src/i18nContext.ts:16-18 | a `null` or `undefined` target returns the source unchanged |
| `MergeProperties.ArrayMergeShape` | src/i18nContext.ts:20-38 | the merged array's length is the larger length; target elements past the source are kept; source elements past the target are appended in order |
| `MergeProperties.ArrayMergeKeepsDefinedElements` | src/i18nContext.ts:28-31 | without override, a non-recursing slot keeps the target element unless it is `undefined` |
| `MergeProperties.ArrayMergeFillsNullSlot` | src/i18nContext.ts:16-26 | in an array, a `null` element of the target facing an object recurses, and `deepMerge(null, object)` gives the object, so the slot takes the object even without override |
| `MergeProperties.ArrayMergeNullOverObject` | src/i18nContext.ts:24-26 | in an array, an incoming `null` over an object recurses and keeps the object, even with override |
| `MergeProperties.ObjectMergeNullOverObject` | src/i18nContext.ts:46-57 | in an object, `null` is excluded from recursion, so with override an incoming `null` replaces an object |
| `MergeProperties.ObjectMergeKeys` | src/i18nContext.ts:42-62 | the merged object's keys are the union of both key sets; a target key the source lacks keeps its value; a source key the target lacks is added, under either flag |
| `MergeProperties.ObjectMergeConflict` | src/i18nContext.ts:54-59 | a key on both sides that does not recurse takes the source value with override and keeps the target value (even `undefined`) without |
| `MergeProperties.MergeShapeMismatch` | src/i18nContext.ts:67-68 | scalar against anything, or array against object, gives `override ? source : target` |
| `MergeProperties.MergeIdempotent` | src/i18nContext.ts:12-69 | merging a tree into itself gives the same tree, under either flag |
| `MergeProperties.MergeKeepsTargetLeaves` | src/i18nContext.ts:46-59 | without override, every leaf of the target is still reached along its object path in the merged tree |
| `MergeProperties.MergeKeepsTargetPaths` | src/i18nContext.ts:42-62 | without override, every path of the target remains a path of the merged tree, so the store only grows |
| `MergeProperties.MergeOverrideTakesSourceLeaves` | src/i18nContext.ts:53-57 | with override, every leaf of the source is reached along its object path in the merged tree |
| `MergeProperties.MergeKeepsPathsMissingFromSource` | src/i18nContext.ts:42-62 | a target path that the source's objects do not cover keeps the target's subtree, under either flag |
| `MergeProperties.MergeAddsPathsMissingFromTarget` | src/i18nContext.ts:56-57 | a source path that the target's objects do not cover brings in the source's subtree, under either flag |
| `StoreProperties.GetTextFound` | src/i18nContext.ts:96-106 | a key leading object by object to a string yields that string, whatever the default |
| `StoreProperties.GetTextFallback` | src/i18nContext.ts:102-104 | a resolved non-string gives the default when it is non-empty, else `Invalid key: <key>` |
| `StoreProperties.GetTextMissingPath` | src/i18nContext.ts:99-104 | a key whose path leaves the tree before its last segment falls back |
| `StoreProperties.GetTextEmptyDefault` | src/i18nContext.ts:103 | an empty default is the same as no default |
| `StoreProperties.GetTextThrows` | src/i18nContext.ts:99 | `getText` throws exactly when the node reached before the last segment is `null` or `undefined` |
| `StoreProperties.GetTextCases` | src/i18nContext.ts:96-106 | when the lookup does not throw, the text is the stored string, the non-empty default or the invalid-key message |
| `Utils.GetNestedObject` | src/utils.ts:6-16 | the loop returns the node at the end of the own-key walk, or `{}` when some segment is missing or meets a non-object |
| `Utils.WalkAppend` | src/utils.ts:8-15 | walking `p + q` is walking `p`, then `q` from where `p` ended |
| `Utils.WalkStep` | src/utils.ts:10-13 | one more segment descends exactly when the current node is an object holding it |
| `Utils.WalkFailsOnPrefix` | src/utils.ts:10-11 | once a prefix fails, the whole path fails |
| `Utils.NestedObjectEmptyPath` | src/utils.ts:7-15 | with no segments the root is returned |
| `Utils.NestedObjectCompose` | src/utils.ts:7-15 | `getNestedObject(o, p + q) == getNestedObject(getNestedObject(o, p), q)`, through the `{}` fallback too |
| `Utils.Segments` | src/utils.ts:24-27 | splitting a key always gives at least one segment, so the `attr == null` branch cannot be taken |
| `Utils.GetNestedValue` | src/utils.ts:23-32 | `getNestedValue`: split the key, walk all segments but the last (the root itself when there is one segment), read the last one on the node reached |
| `Utils.Index` | src/utils.ts:30 | `obj[attr]` throws exactly on `null` and `undefined`; it reads an own field of an object, a position or the `length` of a string or an array, and `undefined` otherwise |
| `Utils.IndexPosition` | src/utils.ts:30 | the decimal name of a position reads that character of a string or element of an array; `length` reads the length |
| `Utils.GetNestedValueSingleSegment` | src/utils.ts:24-30 | a key with no dot is looked up directly on the root |
| `Utils.GetNestedValueAtNode` | src/utils.ts:23-32 | the lookup reads the last segment from the node the walk over the other segments reached |
| `Utils.GetNestedValueFound` | src/utils.ts:8-15 | when every segment is an own key along the way, `getNestedValue(d, "a.b.c")` is `d.a.b.c` |
| `Utils.GetNestedValueMissing` | src/utils.ts:10-11 | when an intermediate node is missing, `null` or not an object, the lookup yields `undefined` |
| `Utils.GetNestedValueReachedNode` | src/utils.ts:13-15 | the reached node is not checked again: the read throws exactly when it is `null`/`undefined`, and a boolean or number node gives `undefined` |
| `Utils.GetNestedValuePosition` | src/utils.ts:29-30 | a key whose last segment is a position below a string or an array reads that position: `title.0` on `{title: "Title"}` is `"T"` |
| `Utils.GetNestedValueEmptyKey` | src/utils.ts:24-30 | the empty key looks up the field `""` of the root |
| `Strings.Split` | src/utils.ts:24 | `split` on one character gives at least one piece, and no piece holds the separator |
| `Strings.JoinSplit` | src/utils.ts:24 | joining the pieces of a split gives the key back |
| `Strings.SplitJoin` | src/utils.ts:24 | splitting a dotted key made of dot-free segments gives the segments back |
| `Strings.LastIndexOf` | src/I18nUtils.ts:12 | `-1` exactly when the character is absent, otherwise the index of its last occurrence |
| `Strings.ParseIntToString` | src/I18nUtils.ts:98 | the decimal rendering of an integer reads back as that integer |
| `I18nUtils.AppendSuffix` | src/I18nUtils.ts:11-21 | `appendSuffix`: the suffix goes before the last dot with an underscore, or at the end when there is no dot; its properties are the lemmas below |
| `I18nUtils.AppendSuffixWithoutExtension` | src/I18nUtils.ts:15-17 | a name without a dot gets the suffix appended directly, with no underscore |
| `I18nUtils.AppendSuffixBeforeLastDot` | src/I18nUtils.ts:12-20 | the suffix goes before the last dot, after an underscore; only the last dot counts |
| `I18nUtils.AppendSuffixLength` | src/I18nUtils.ts:11-21 | the name grows by the suffix, plus one when it has a dot |
| `Scenarios.AppendSuffixExamples` | src/I18nUtils.ts:11-21 | `strings.json` with `en` gives `strings_en.json`; `strings` with `en` gives `stringsen` |
| `Scenarios.ResolveNameExample` | src/I18nUtils.ts:89-98 | the path `name` resolves against `{name: "Ada"}` to `Ada` |
| `Scenarios.FormatOnePlaceholder` | src/I18nUtils.ts:87-100 | text without `{` followed by one placeholder whose path starts with a non-blank character formats to the text followed by the resolved path |
| `Scenarios.FormatHelloExample` | src/I18nUtils.ts:87-100 | `formatText("Hello {{name}}", {name: "Ada"})` gives `Hello Ada` |
| `Scenarios.MissingKeyExample` | src/i18nContext.ts:96-106 | on an empty store, `getText("missing.key")` gives `Invalid key: missing.key` |
| `Scenarios.FacadeGreetingExample` | src/I18nUtils.ts:57-83 | with `{app: {greeting: "Hello"}}` stored, the `app` facade reads `greeting` as `Hello` |
| `Scenarios.FacadeMissingExample` | src/I18nUtils.ts:67-78 | in the same store, the `app` facade reads the absent `farewell` as `missing key: [app.farewell]` |
| `Scenarios.ChainThroughNullExample` | src/I18nUtils.ts:67-72 | with `{app: {x: null}}` stored, `proxy.x` is a node and the chain `x.y.z` throws, because `get("app.x.y")` reads a property of `null` |
| `I18nUtils.MatchPlaceholder` | src/I18nUtils.ts:88 | a match starts with `{{`, ends with `}}`, spans at least five characters and captures a non-empty path without `}` |
| `I18nUtils.CapturedPath` | src/I18nUtils.ts:88 | the captured group is non-empty and free of `}` |
| `I18nUtils.MatchOf` | src/I18nUtils.ts:88 | `{{`, a non-empty `}`-free text and `}}` always match, spanning exactly those characters |
| `I18nUtils.MatchShape` | src/I18nUtils.ts:88 | conversely, every match is `{{`, a non-empty `}`-free text and `}}`, and its path is the group captured from that text |
| `I18nUtils.MatchBlankPlaceholder` | src/I18nUtils.ts:88 | with only white space between the braces, the path is its last character |
| `I18nUtils.NoMatchWithoutPath` | src/I18nUtils.ts:88 | nothing matches without `{{`, nor at `{{}}` |
| `I18nUtils.Resolve` | src/I18nUtils.ts:89-98 | the replacement for one path: walk its segments from `params ?? {}`, giving `String()` of the value reached or `Missing` |
| `Json.ToJsString` | src/I18nUtils.ts:98 | `String(value)` for the values of the model |
| `I18nUtils.Format` | src/I18nUtils.ts:87-100 | the global replace as a value: every match replaced by its resolution, the text between matches copied, scanning resumed after each match |
| `I18nUtils.ResolvePlaceholder` | src/I18nUtils.ts:89-98 | the callback's loop gives the string form of the value at the path, or `Missing` as soon as a segment cannot be followed |
| `I18nUtils.ScanStep` | src/I18nUtils.ts:88-99 | one move of the scan replaces the match at the current position, or copies one character where none starts |
| `I18nUtils.FormatText` | src/I18nUtils.ts:87-100 | the scan returns exactly `Format(template, params)` |
| `I18nUtils.FormatCopiesAt` | src/I18nUtils.ts:88 | where no match starts, the character there is copied and scanning goes on at the next one |
| `I18nUtils.FormatScanFree` | src/I18nUtils.ts:88 | a stretch of positions at none of which a match starts is copied unchanged |
| `I18nUtils.FormatMatchFreePrefix` | src/I18nUtils.ts:88 | text at none of whose positions a match starts (such as `a {b} c`, `{{x` or `{{a}b}}`) is copied unchanged, and scanning goes on after it |
| `I18nUtils.FormatNoMatch` | src/I18nUtils.ts:88 | a template in which no match starts anywhere is returned as it is |
| `I18nUtils.FormatLiteralPrefix` | src/I18nUtils.ts:88 | text without `{` is copied unchanged and scanning goes on after it |
| `I18nUtils.FormatWithoutPlaceholders` | src/I18nUtils.ts:88 | a template without `{{` is returned as it is |
| `I18nUtils.FormatPlaceholder` | src/I18nUtils.ts:88-98 | leading white space is skipped, trailing white space stays in the path (`{{ name }}` looks up `name `), and the text after the match is scanned afresh, so replacements are not scanned again |
| `I18nUtils.ResolveWithoutParams` | src/I18nUtils.ts:90 | with `null` or `undefined` parameters every placeholder becomes `Missing` |
| `I18nUtils.ResolveFound` | src/I18nUtils.ts:89-98 | a path present object by object in the parameters is replaced by the string form of its value |
| `I18nUtils.ResolveNotFound` | src/I18nUtils.ts:91-96 | a path with a segment that cannot be followed is replaced by `Missing` |
| `I18nUtils.FormatNullParams` | src/I18nUtils.ts:90 | `null` parameters format like `{}` |
| `I18nUtils.CreateResourceProxy` | src/I18nUtils.ts:53-57 | the defaults are merged under the namespace with `override = false`, the bundle joins the store's history, and the root node sits at the base path |
| `I18nUtils.WalkNamespaced` | src/I18nUtils.ts:55 | walking into `{namespace: defaults}` through the namespace walks the defaults |
| `I18nUtils.ProxyKeepsStoredLeaves` | src/I18nUtils.ts:55 | values already in the store under the namespace win over the defaults |
| `I18nUtils.ProxyFillsGaps` | src/I18nUtils.ts:55 | where the store stops, the defaults' subtree becomes reachable |
| `I18nUtils.ReadField` | src/I18nUtils.ts:59-79 | the facade's field read on the live store: `undefined` gives `missing key: [<key>]`, a non-array object or `null` gives the node one level down, anything else is returned |
| `I18nUtils.FullKeyAt` | src/I18nUtils.ts:60-64 | the key of a field read below a chain of fields is the dotted key of the namespace, the chain and the field |
| `I18nUtils.ReadPath` | src/I18nUtils.ts:57-83 | a chain of one field is that field's read; a first read that throws ends a longer chain with the throw, and one that gives a plain value leaves the facade (`None`); a longer chain goes on only when its first read gives a node; `ReadPathIsKeyLookup` states what a whole chain reads |
| `I18nUtils.ReadFieldAt` | src/I18nUtils.ts:59-79 | a field read is decided by the live value at its key: `undefined` gives `missing key: [<key>]`, an object or `null` gives the node one level down, anything else is returned |
| `I18nUtils.ReadFieldMissingKey` | src/I18nUtils.ts:67-78 | a field the store's object does not hold reads as the `missing key` message naming the full key |
| `I18nUtils.ReadPathIsKeyLookup` | src/I18nUtils.ts:57-83 | a chain of field reads from the namespace root is the single field read at the end of the chain |
| `I18nUtils.GetI18nText` | src/I18nUtils.ts:107-109 | `getI18nText`: the token's text through `getText`, with the token's text as default, then formatted |
| `I18nUtils.GetI18nTextWithoutParams` | src/I18nUtils.ts:107-109 | with the default `null` parameters, the text formats exactly as with `{}` |

## Left out

- `loadJsonFile`, `loadResources` and `initialize` are not modelled. They use `fetch`, `async`/`await`, console logging and `window.localStorage`. A failed load passes `null` to `setResource`, which leaves the tree unchanged (`SetResource`, `MergeNullSource`).
- The JavaScript `Proxy` of `createResourceProxy` is not modelled: symbol properties and `String(prop)` of non-string properties. The facade is an explicit `Node` value, `ReadField` is its field read, and `ReadPath` a chain of reads.
- Prototype-chain lookups are not modelled: `key in target`, `key in value`, and inherited members such as `constructor` read through `obj[attr]`. Objects are own-key maps.
- Arrays are not traversed by numeric segments or `length` in `getNestedObject` or in the `formatText` callback; a walk stops at an array. The final read of `getNestedValue` does read positions and `length` (`Utils.Index`).
- `Utils.Index`, `Utils.IndexPosition`, `Utils.GetNestedValuePosition`: string lengths and positions count Unicode code points (a Dafny `char`), not the UTF-16 code units JavaScript counts, so they differ from JavaScript for text above U+FFFF (`"😀".length` is 2 there and 1 here), and lone surrogates, which `JSON.parse` can produce, are not representable. The other string operations of the model (`split`, `lastIndexOf` with slicing, the placeholder pattern) give the same results under either counting.
- `Utils.Index`: inherited members are not modelled, so reading a method name of a string or an array (`charAt`, `push`) or `constructor` gives `undefined`; a boolean or number node gives `undefined` for every name. Array positions are not bounded by 2^32 - 2.
- `Context.MergeTrees`, `Context.I18nContext.SetResource`: the default `override = true` of `deepMerge` and `setResource` is not modelled; callers always pass the flag.
- Reference sharing is not modelled. The store keeps references to the subtrees it was given, and `get` and the facade return stored arrays and objects by reference, so a caller that mutates a submitted bundle or a returned value changes the store in JavaScript. Here values are immutable.
- `Json.ToJsString`: integers are rendered with all their digits. JavaScript numbers are inexact beyond 2^53, and `String()` switches to exponent notation from 1e21 up.
- Numbers are integers. Floating point and the `String()` of non-integral numbers are not modelled.
- The key order of `for...in` is not modelled; objects are maps.
- Throwing is modelled as the `TypeError` result, not as an exception that unwinds.
- `Context.I18nContext.GetText`: the implementation takes only a key and a default text, with no parameters argument. Its doc comment (src/i18nContext.ts:91) says it supports parameter interpolation, but the body does none; the model follows the body.
- `MergeProperties.MergeShapeMismatch`: at the top level the result is `override ? source : target`, as the comment at src/i18nContext.ts:67 says; a key missing from the target inside objects is handled by the object branch, which adds the source value.
- `I18nUtils.ReadPath`: it yields `None` only when an intermediate read gives a plain (non-object) value. The JavaScript expression would then read a property of that value, outside the facade. An intermediate read that throws is not such a case: it ends the chain with `TypeError`.
- `I18nUtils.ReadPathIsKeyLookup` assumes non-empty field names. The empty path string is falsy in `path ? ... : ...`, so a chain through a field named `""` does not extend the path.
- `Utils.GetNestedValue`: the `attr == null` branch is not modelled, because `split` never returns an empty list (`Utils.Segments`).
- `Json.ToJsString` models `String()` for the values the model has: an object renders as `[object Object]` and an array as its comma-joined elements.
- `index.ts` is not part of this model; it only re-exports.
