# gatsby-transformer-archieml-markdown, modelled in Dafny

This project models the Gatsby plugin in `gatsby-node.js`. The plugin turns
ArchieML files into Gatsby nodes and renders Markdown found under chosen
property names into HTML.

- `unstable_shouldOnCreateNode` picks the file nodes to transform. By default
  these are the files whose base name ends in `.aml`.
- `handleMarkdown` walks the parsed document and works key by key, in
  `Object.keys` order. For a key that matches `markdownKeyRegex` (default
  `/markdown/`):
  - a string is replaced by `marked.parse` of it;
  - an array is a "freeform" array. Each entry whose `type` is truthy and is
    `"text"` or matches the pattern has its `value` rendered.

  Afterwards, whatever the key, a value with `typeof 'object'` is walked
  recursively. This covers objects and arrays, and also `null`.
- `onCreateNode` chooses the new node's type name, builds the output record
  and calls `createNode` and `createParentChildLink`. The type name is the
  `typeName` function, else the `typeName` string, else
  `<basename of dir>ArchieML`. The output record holds:
  - the document under `gatsbyKey`, as JSON text by default;
  - an id derived from the file node's id;
  - a content digest.

The model is split into modules:

- `JsValues` holds the document tree: strings, `null`, arrays, and objects
  with ordered own properties. It also holds the JavaScript semantics the walk
  relies on:
  - property lookup and assignment;
  - `Object.keys` of an array;
  - truthiness;
  - the string conversion that `RegExp.prototype.test` applies.
- `Patterns` makes the two default regular expressions concrete: suffix
  `.aml` and substring `markdown`.
- `Markdown` gives the walk as specification functions (`Walk`, `HandleKeys`,
  `HandleKey`, `RewriteMatched`, `RenderEntries`, `RenderEntry`). It also gives
  the source's nested `forEach` loops as methods (`HandleMarkdown`,
  `HandleEachKey`, `RenderFreeformEntries`, `RenderOneEntry`). Each method is
  proved to compute exactly its function, errors included.
- `MarkdownProperties` proves what the walk guarantees about any document.
- `MarkdownExamples` proves it about concrete documents: one with a single
  matching string key, and a freeform array of a `text` entry and an `other`
  entry.
- `GatsbyNode` models node selection, the type name, the output record and
  `onCreateNode`. `onCreateNode` returns the actions it calls, in order.

A thrown exception is modelled as an `Err` result:

- `Object.keys(null)` throws `KeysOfNull`;
- `entry.type` of a `null` entry throws `PropertyOfNull`;
- converting an object with an own `toString` property throws `NotConvertible`;
- `marked.parse` of a non-string `value` throws `RenderInputNotString`.

Two consequences of the code are worth stating outright:

- The walk recurses into arrays as well as objects, because
  `typeof [] === 'object'`. It recurses into `null` too, and that throws
  (`NullThrows`).
- Under a matching key, a value that is neither a string nor an array gets no
  rendering of its own. An object there is then walked like any other
  object; a `null` there throws.

## Model

| member | source | states |
|---|---|---|
| JsValues.KeyIndex | gatsby-node.js:56-67 | a property read finds the first own property of that name, or reports that none exists |
| JsValues.LookupFirst | gatsby-node.js:56-67 | `obj[key]` is defined iff `key` is among the object's keys, and is then the value of the first property of that name |
| JsValues.SetField | gatsby-node.js:67 | assignment makes that property the new value, leaves every other property's value unchanged, and keeps the key order when the property already existed |
| JsValues.IndexKey | gatsby-node.js:52 | `Object.keys` of an array names each element by a non-empty string of decimal digits, one digit exactly below 10 |
| JsValues.IndexKeyInjective | gatsby-node.js:52 | distinct array indices get distinct keys |
| JsValues.ArrayChild | gatsby-node.js:63-64 | the array property named by index `j`'s key is element `j` |
| JsValues.IndexedKeysDistinct | gatsby-node.js:52 | `Object.keys` of an array gives pairwise distinct keys, so each key names one element |
| JsValues.ItemsOfIndexed | gatsby-node.js:52-76 | reading the values back off the keyed form of an array gives the array itself |
| JsValues.ToJsString | gatsby-node.js:65 | converting an entry's `type` to a string can only fail with `NotConvertible` |
| JsValues.JoinItems | gatsby-node.js:65 | joining an array's elements fails only with `NotConvertible`; the joined text of `n` elements is at least `n - 1` characters long |
| JsValues.ConversionFails | gatsby-node.js:65 | the conversion throws exactly when an object with an own `toString` property is reached through arrays |
| JsValues.ConversionExamples | gatsby-node.js:65 | `["a", null, "b"]` converts to "a,,b", nested arrays are flattened by commas, `null` converts to "null" but to "" inside an array, and an object with an own `toString` throws |
| Patterns.IndexKeyIsNeverMarkdownKey | gatsby-node.js:54 | under the default `/markdown/`, no array index key ever matches |
| Markdown.DefaultKeyPattern | gatsby-node.js:54 | the default `/markdown/` matches the substring anywhere in the key and is case-sensitive: "intro_markdown" matches, "introMarkdown" does not |
| Markdown.IsTextEntry | gatsby-node.js:65 | an entry without a truthy `type` is never selected and one of type "text" always is; a non-empty string `type` is selected iff it is "text" or matches the pattern; the guard can fail only with `NotConvertible` |
| Markdown.RenderEntry | gatsby-node.js:65-67 | rendering one freeform entry keeps its kind and its keys |
| Markdown.RenderEntries | gatsby-node.js:64-69 | the freeform pass keeps the number of entries |
| Markdown.RewriteMatched | gatsby-node.js:54-71 | the matched-key rewrite keeps the kind and the keys or the length of the value |
| Markdown.HandleKey | gatsby-node.js:54-77 | handling one key keeps the kind of its value |
| Markdown.HandleKeys | gatsby-node.js:52-78 | the loop over the keys keeps the keys and their order |
| Markdown.Walk | gatsby-node.js:51-82 | the walk returns a node of the same kind with the same keys or length |
| Markdown.RenderEntriesPrefixFails | gatsby-node.js:64-69 | an exception in an entry ends the freeform pass with that exception |
| Markdown.HandleKeysPrefixFails | gatsby-node.js:52-78 | an exception under a key ends the walk with that exception |
| Markdown.RenderOneEntry | gatsby-node.js:64-68 | the guard and the assignment for one entry compute `RenderEntry` |
| Markdown.RenderFreeformEntries | gatsby-node.js:63-70 | the inner `forEach` computes `RenderEntries`, stopping at the first exception |
| Markdown.HandleOneKey | gatsby-node.js:52-77 | the `forEach` callback for one key (the rewrite, then the recursive call) computes `HandleKey` |
| Markdown.HandleEachKey | gatsby-node.js:52-78 | the outer `forEach` computes `HandleKeys`, stopping at the first exception |
| Markdown.HandleMarkdown | gatsby-node.js:51-82 | `handleMarkdown` computes `Walk` for objects, arrays and `null` |
| MarkdownProperties.HandleKeysEach | gatsby-node.js:52-78 | the walk succeeds iff every key does; each property of the result is its own key's outcome; a failure is the first failing key's exception |
| MarkdownProperties.HandleKeysOk | gatsby-node.js:52-78 | the loop over the keys succeeds iff the callback succeeds for every key |
| MarkdownProperties.HandleKeysValues | gatsby-node.js:52-78 | after a successful loop, property `i` holds key `i` with its callback's outcome |
| MarkdownProperties.HandleKeysFirstError | gatsby-node.js:52-78 | a failed loop fails with the exception of the first key whose callback throws |
| MarkdownProperties.RenderEntriesEach | gatsby-node.js:64-69 | the freeform pass succeeds iff every entry does, and entry `j` of the result is entry `j` rendered |
| MarkdownProperties.RenderEntriesOk | gatsby-node.js:64-69 | the freeform pass succeeds iff every entry is rendered without an exception |
| MarkdownProperties.RenderEntriesValues | gatsby-node.js:64-69 | after a successful freeform pass, entry `j` is entry `j` rendered |
| MarkdownProperties.FreeformEntries | gatsby-node.js:63-70 | an entry's `value` is rendered iff the line-65 guard holds, and every other entry is kept; the pass fails iff some entry is `null`, has an unconvertible `type`, or is selected with a non-string `value` |
| MarkdownProperties.SelectedEntry | gatsby-node.js:65-67 | one entry renders without an exception iff it is not `null`, its `type` converts, and if selected it has a string `value`; it is then rendered iff selected |
| MarkdownProperties.WalkChild | gatsby-node.js:73-77 | every property of an object or array is replaced by the outcome of handling it under its own key, whether or not the parent's key matched |
| MarkdownProperties.RenderEntryCases | gatsby-node.js:65-67 | a rendered entry is the entry itself, or the entry with its string `value` rendered |
| MarkdownProperties.RenderEntryKeepsAt | gatsby-node.js:67 | rendering an entry changes nothing below it except its `value` |
| MarkdownProperties.ArrayChildren | gatsby-node.js:63-64 | arrays of equal length have the same index keys, naming corresponding elements |
| MarkdownProperties.RewriteKeepsAt | gatsby-node.js:63-70 | below the entries of a rewritten array, nothing changes except an entry's own `value` |
| MarkdownProperties.RewriteKeepsStrings | gatsby-node.js:54-71 | the matched-key rewrite keeps every string below it, except the `value` of a selected entry directly under a rewritten array |
| MarkdownProperties.FreeformBeforeRewrite | gatsby-node.js:63-70 | a selected entry found below a rewritten node was a selected entry, below an array, before the rewrite |
| MarkdownProperties.RenderEntryKeepsShape | gatsby-node.js:65-67 | rendering one entry keeps the kind, keys and lengths at every path below it |
| MarkdownProperties.StringsAtAnyDepth | gatsby-node.js:54-77 | at any depth, a string becomes exactly `render(s)` when its key matches and stays `s` otherwise; the only exception is the `value` of an entry the freeform pass renders (`RenderedValueOrder`) |
| MarkdownProperties.RewriteKeepsShape | gatsby-node.js:54-71 | the matched-key rewrite keeps the kind, keys and lengths at every path |
| MarkdownProperties.ShapeAt | gatsby-node.js:51-82 | at each path the output has a node of the same kind as the input, or nothing iff the input has nothing |
| MarkdownProperties.ShapePreserved | gatsby-node.js:51-82 | the output has the input's shape at every path |
| MarkdownProperties.NoNullInResult | gatsby-node.js:73-77 | a walk that succeeds leaves no `null` anywhere in the output |
| MarkdownProperties.NullThrows | gatsby-node.js:52-77 | a `null` anywhere in the document makes the walk throw |
| MarkdownProperties.NoMatchOneKey | gatsby-node.js:54-77 | a key that does not match, over a subtree with no matching key, is left unchanged unless the subtree holds `null` |
| MarkdownProperties.NoMatchNoChange | gatsby-node.js:51-82 | with no matching key at any depth, the walk returns the document unchanged, or throws `KeysOfNull` iff it holds a `null` |
| MarkdownProperties.FreeformEntryValue | gatsby-node.js:63-70 | after the freeform pass, an entry's string `value` is rendered iff the entry is selected |
| MarkdownProperties.RenderedValueOrder | gatsby-node.js:61-77 | a freeform entry's `value` is rendered once if the entry is selected, and once more by the recursive walk if "value" itself matches |
| MarkdownExamples.OneMatchingString | gatsby-node.js:54-58 | `{k: s}` with a matching `k` becomes `{k: render(s)}` |
| MarkdownExamples.MarkdownKeyExample | gatsby-node.js:54-58 | `{markdown: "**x**"}` becomes `{markdown: "<strong>x</strong>"}` |
| MarkdownExamples.WalkIsNotIdempotent | gatsby-node.js:51-82 | walking an already walked document renders its strings a second time |
| MarkdownExamples.ValueOutsideFreeform | gatsby-node.js:54-77 | under the default pattern, `{intro: {value: "x"}}` walks to itself: "value" is special only inside a freeform array |
| MarkdownExamples.ShortKeyedEntryUnchanged | gatsby-node.js:54 | under the default pattern, `{type, value}` with string values walks to itself |
| MarkdownExamples.TwoKeysUnchanged | gatsby-node.js:52-78 | the key loop over two properties whose callbacks each leave the value alone returns the two properties unchanged |
| MarkdownExamples.TextEntryRendered | gatsby-node.js:65-67 | the entry `{type: "text", value: "*a*"}` gets its `value` rendered |
| MarkdownExamples.OtherEntryKept | gatsby-node.js:65 | the entry `{type: "other", value: "*a*"}` is not selected under `/markdown/` and is kept |
| MarkdownExamples.FreeformPass | gatsby-node.js:63-70 | of `[{type: "text"}, {type: "other"}]`, only the first entry's `value` is rendered |
| MarkdownExamples.WalkEntryPair | gatsby-node.js:73-77 | the recursive walk into an array of two such entries changes nothing |
| MarkdownExamples.FreeformExample | gatsby-node.js:61-77 | the whole walk of `{markdown: [text entry, other entry]}` renders only the text entry's `value` |
| MarkdownExamples.OneKeyDocument | gatsby-node.js:52-78 | a one-property document is walked to the outcome of handling its one key |
| GatsbyNode.ShouldOnCreateNode | gatsby-node.js:37-40 | a given `filenameRegex` decides alone; without options or without `filenameRegex`, a node is taken iff its base name ends in `.aml` |
| GatsbyNode.FilenameDefault | gatsby-node.js:37-40 | without `filenameRegex` or without options, a node is taken iff its base ends in `.aml`; `test.aml` is taken and `test.json` is not |
| GatsbyNode.FilenameCustom | gatsby-node.js:37-40 | a given `filenameRegex` alone decides |
| GatsbyNode.TypeName | gatsby-node.js:131-136 | a `typeName` function gives the type, else a `typeName` string; with neither, the type is the base name of `dir` followed by "ArchieML" |
| GatsbyNode.TypeNamePriority | gatsby-node.js:131-136 | a `typeName` function wins over a string, and a string over the default; the default is the base name of `dir` followed by "ArchieML"; without a function, two directories of one base name give one type |
| GatsbyNode.OutputRecord | gatsby-node.js:111-146 | the new node has exactly the keys `gatsbyKey` ("object" by default), "id" and "internal"; `internal` holds the digest of the payload and the type; the payload sits under `gatsbyKey` unless that key is "id" or "internal" |
| GatsbyNode.OutputRecordFields | gatsby-node.js:109-146 | the new node has exactly the keys `gatsbyKey`, "id" and "internal"; its id comes from `createNodeId` of the file id; the stored payload is the one digested; the payload is JSON text by default |
| GatsbyNode.OutputIdDependsOnNodeIdOnly | gatsby-node.js:141 | the new node's id depends only on the file node's id |
| GatsbyNode.GatsbyKeyCollision | gatsby-node.js:139-146 | a `gatsbyKey` of "id" or "internal" is overwritten, and the document is stored nowhere |
| GatsbyNode.OnCreateNode | gatsby-node.js:100-151 | an unselected node yields no action; a walk error aborts before any action; otherwise `createNode` of the output record is followed by the parent-child link |

## Left out

- In-place mutation and object identity: `handleMarkdown` assigns into the
  tree it is given and returns the same object. The model rebuilds the tree
  as a value. A parsed ArchieML document shares no subtrees, so no alias can
  observe the difference. The methods still follow the loops and their
  assignment order.
- `archieml.load` and `loadNodeContent`: the parsed document is a parameter
  of `OnCreateNode`. It is required to be an object, which is what the parser
  returns. The `await` and the asynchronous call are not modelled.
- `marked.parse` and `markdownOptions`: the renderer is an uninterpreted total
  function on strings. A renderer that throws on a malformed string is not
  modelled, but a non-string input is.
- Regular expressions: a custom `markdownKeyRegex` or `filenameRegex` is an
  uninterpreted predicate. The state of a `g`- or `y`-flagged regex
  (`lastIndex`), which makes repeated `test` calls depend on history, is not
  modelled.
- `path.basename`, `JSON.stringify`, `createNodeId` and `createContentDigest`
  are uninterpreted functions. `JSON.stringify` is deterministic, so its two
  calls give one value.
- `actions.createNode` and `actions.createParentChildLink` have effects inside
  Gatsby. The model records the calls as a list of actions.
- Option values of the wrong type: the model rejects them by its types
  (`filenameRegex` must be a predicate, `gatsbyKey` a string). A
  non-function, non-string `typeName` is modelled as `NoTypeName`.
- Numbers, booleans and `undefined` never occur in a parsed ArchieML
  document, so the tree has none, and keys named `__proto__` are not treated
  specially.
- String conversion (`String(v)` in `regex.test(entry.type)`): an object's
  conversion is modelled only as far as an ArchieML tree can reach. An own
  `toString` property throws; otherwise the result is "[object Object]".
- The file node: the model keeps its `id`, `base` and `dir`. The source
  hands the whole Gatsby node to a `typeName` function and to
  `createParentChildLink`; a `typeName` function that reads other fields of
  the node is not captured.
- JsValues.IndexKey: the key of an array index is stated by its shape
  (digits, length), not as the full decimal representation. Injectivity is
  proved separately.
