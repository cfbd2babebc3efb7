# Cursor pagination for a database client, modelled in Dafny

The repository adds a `paginate` method to every model delegate of a generated
database client. `paginate(client, delegateName, defaultCursorField)` returns a
function of the pagination arguments `{cursorField?, pageSize, ...rest}`. That
function resolves the cursor field (`args.cursorField ?? defaultCursorField`),
keeps every argument except `cursorField` and `pageSize` for forwarding, and
returns an async iterable. Each iterator it hands out holds one mutable field,
`lastCursor`, initially `null`. Each `next()` call does four things:

- it builds `{cursor: {[cursorField]: lastCursor}, skip: 1}` when `lastCursor`
  is truthy, and nothing otherwise;
- it calls the delegate's `findMany` with the forwarded arguments, those cursor
  arguments and `take: pageSize`;
- on an empty page it resolves to `{done: true, value: null}`;
- otherwise it records the cursor-field value of the page's last record and
  yields the page.

The code generator adds small helpers: the default cursor field per model
(the id field, else the first unique field), the list of cursor-field
candidates, whether a model has relations, and the string helpers `lowerCase`,
`quote`, `indentString` and `omit`.

The model has six modules:

- `Wrappers` (`js_values.dfy`) holds `Option` and `Result`.
- `JsValues` (`js_values.dfy`) holds the JavaScript values the code handles.
  It defines truthiness (`Falsy`), nullishness (`??`), property reads `Get`
  and property-key conversion `PropertyKey`.
- `Util` (`util.dfy`) holds `indentString` as a function and `omit` as a
  loop over the object's entries. The function `OmitKeys` specifies `omit`.
- `Pagination` (`paginate.dfy`) holds the closure as the function `Paginate`
  and the iterator as the class `PageIterator`. The class has the field
  `lastCursor` and the method `Next`. The function `Advance` is one step as
  a value, and `Next` is proved against it.
- `Generator` (`generator.dfy`) holds the schema-selection helpers.
  `getDefaultCursorFields` is a loop over the models that updates a map; the
  fold `CursorDefaults` specifies it.
- `Traversal` (`traversal.dfy`) proves an end-to-end theorem about the model.
  It uses an assumed `findMany` backed by one ordered list whose cursor
  values are distinct and truthy. Under it, the pages are the consecutive
  chunks of `pageSize` records (the last may be shorter). Put together they
  are the whole list, and the step after the last record ends the iteration.
  `CollectPages` drives a real `PageIterator` to the end and gets exactly
  those chunks.

Behaviour of the code worth knowing:

- With no `cursorField` argument and no default, nothing is raised. The
  generated patch passes `undefined` as the default for a model without an id
  or unique field. The cursor key is then `"undefined"`, `lastCursor` stays
  falsy on records without that property, and every step fetches the first
  page again (`UnresolvedCursorFieldRepeats`).
- There is no ordering-aware merge of `orderBy`: it is forwarded to
  `findMany` like any other argument.
- The code tests `lastCursor` for truthiness (`src/paginate.ts:38`). So a
  cursor value of `0`, `''` or `false` counts as no cursor, and the next step
  restarts from the first page (`FalsyCursorRestarts`). The end-to-end theorem
  therefore requires truthy cursor values.

`lastCursor` is a JavaScript `Value` that starts as `Null`, not an optional
value. The code stores whatever the last record holds under the cursor key,
`undefined` included. It then tests that value for truthiness, so `null`,
`undefined` and the other falsy values must stay apart from each other.

## Model

| member | source | states |
|---|---|---|
| `Pagination.Paginate` | src/paginate.ts:19-30 | the cursor field is the supplied `cursorField` unless it is null/undefined, then the default; the page size is `args.pageSize`; the forwarded arguments are exactly `args` without `cursorField` and `pageSize`, with their values; the delegate is kept |
| `JsValues.Falsy` | src/paginate.ts:38 | the values `if (this.lastCursor)` treats as false: undefined, null, false, 0 and the empty string; a predicate with no contract of its own, used by `CursorArgs` and `FalsyCursorRestarts` |
| `JsValues.PropertyKey` | src/paginate.ts:40 | the property name a cursor-field value stands for in `{[cursorField]: …}` here and in `page[…][cursorField]` at line 57; no contract of its own, its effect is shown by `UnresolvedCursorFieldRepeats` |
| `Pagination.CursorArgs` | src/paginate.ts:37-43 | the cursor arguments hold the keys `cursor` and `skip` exactly when `lastCursor` is truthy, and no key otherwise |
| `Pagination.FindManyRequest` | src/paginate.ts:47-51 | the request has exactly the forwarded keys, `take`, and the cursor keys when `lastCursor` is truthy; `take` is the page size |
| `Pagination.Advance` | src/paginate.ts:36-58 | one `next()` step as a value: its outcome and the new `lastCursor`; no contract of its own, its properties are `AdvanceCases` and `ListStep`, and `PageIterator.Next` is proved against it |
| `Pagination.RequestForwardsArgs` | src/paginate.ts:28-51 | the `findMany` request has exactly the keys of `args` minus the two control keys, plus `take`, plus `cursor`/`skip` exactly when `lastCursor` is truthy; `take` is the page size; `cursor = {[cursorField]: lastCursor}` and `skip = 1`; every other key keeps its value |
| `Pagination.FirstRequest` | src/paginate.ts:35-43 | from the initial `null` cursor the request carries no cursor arguments: only the forwarded arguments and `take` |
| `Pagination.FalsyCursorRestarts` | src/paginate.ts:37-43 | a falsy `lastCursor` (0, '', false, null, undefined) gives the same request and the same outcome as the first step |
| `Pagination.AdvanceCases` | src/paginate.ts:47-58 | a rejected fetch propagates and keeps the cursor; an empty page resolves to `{done: true, value: null}` and keeps the cursor; a non-empty page, also a short one, is yielded unchanged with `done: false` and the cursor becomes its last record's cursor-field value |
| `Pagination.UnresolvedCursorFieldRepeats` | src/paginate.ts:28-57 | with neither override nor default, no error is raised and the step after a non-empty first page fetches the first page again |
| `Pagination.PageIterator.constructor` | src/paginate.ts:33-35 | a new iterator starts with `lastCursor = null` over the given iterable |
| `Pagination.PageIterator.Next` | src/paginate.ts:36-59 | the outcome and the new `lastCursor` are those of `Advance` on the old cursor |
| `Pagination.IteratorsIndependent` | src/paginate.ts:32-35 | two iterators of one iterable exist at once; advancing the first one twice leaves the second one's first fetch equal to the first one's |
| `Traversal.ListStep` | src/paginate.ts:37-58 | against the list delegate, a step from the start or from after record `start - 1` yields the next chunk of `pageSize` records and moves the cursor to its last record, or ends at the end of the list |
| `Traversal.TraceFrom` | src/paginate.ts:37-58 | from any list position, the successive outcomes are the remaining chunks in order, then one `done` |
| `Traversal.ChunkSizes` | src/paginate.ts:47-51 | every chunk of the list holds between one and `pageSize` records, and all but the last exactly `pageSize` |
| `Traversal.ListTraversal` | src/paginate.ts:37-58 | a fresh iterator yields the consecutive chunks of the list (each of `pageSize` records but the last), then ends; the chunks put together are the whole list |
| `Traversal.Drain` | src/paginate.ts:36-59 | calling `next()` until done on an iterator over the list, starting without a cursor, collects exactly the chunks of the list |
| `Traversal.CollectPages` | src/paginate.ts:36-59 | driving a `PageIterator` until `done` collects exactly the chunks of the list, whose concatenation is the list |
| `Traversal.FiveRecordsInPagesOfTwo` | src/paginate.ts:37-58 | ids 1..5 with page size 2 give pages [1,2], [3,4], [5], then the end |
| `Traversal.NoRecordsEndAtOnce` | src/paginate.ts:53-55 | with no records the first step ends the iteration |
| `Util.IndentString` | src/util.ts:1-15 | a negative count, and only a negative count, is a RangeError; count 0 returns the input unchanged; count defaults to 1 |
| `Util.Indent` | src/util.ts:12-14 | the regex `replace(/^(?!\s*$)/gm, …)` as a walk over line starts; no contract of its own, its meaning is `IndentByLines` |
| `Util.BlankAheadIsBlankLine` | src/util.ts:12 | the lookahead `\s*$` at a line start succeeds exactly when that line is whitespace-only |
| `Util.IndentByLines` | src/util.ts:12-14 | the regex replace splits into lines as the per-line indentation of the input's lines |
| `Util.IndentStringLines` | src/util.ts:12-14 | for count >= 0 the line count and order are kept, each line that is not whitespace-only gets exactly `count` spaces in front, and blank lines are unchanged |
| `Util.IndentStringRoundTrip` | src/util.ts:12-14 | removing `count` leading characters from every line that is not whitespace-only restores the input |
| `Util.Omit` | src/util.ts:17-29 | no listed key is in the result; every key of `obj` that is not listed is there with its value; no other key appears |
| `Util.OmitKeys` | src/util.ts:21-28 | the object `omit` builds; no contract of its own, `Omit` is proved equal to it and states its keys and values |
| `Util.OmitNothing` | src/util.ts:21-28 | omitting no keys gives back the same map |
| `Util.OmitTwice` | src/util.ts:21-28 | omitting `a`, then `b`, is omitting `a + b` |
| `Generator.Find` | src/generator.ts:95-96 | `find` returns the first field satisfying the predicate, and none exactly when no field does |
| `Generator.DefaultCursorField` | src/generator.ts:95-97 | the first id field's name whenever an id field exists, also after unique fields; otherwise the first unique field's name; none exactly when no field is id or unique |
| `Generator.CursorDefaults` | src/generator.ts:94-99 | the `reduce` over the models as a fold; no contract of its own, its keys and values are `CursorDefaultsKeys` and `CursorDefaultsLastWins`, and `GetDefaultCursorFields` is proved equal to it |
| `Generator.CursorDefaultsKeys` | src/generator.ts:94-99 | the dictionary the fold builds has exactly the model names as keys, also for models without a default |
| `Generator.CursorDefaultsLastWins` | src/generator.ts:97 | of several models with one name the last one's default is the entry for that name |
| `Generator.GetDefaultCursorFields` | src/generator.ts:93-100 | the loop builds exactly the fold of the models; its keys are exactly the model names; for each name, the value is the default of the last model with that name |
| `Generator.CursorFields` | src/generator.ts:137-139 | a name is a candidate exactly when some field with that name is unique or id; at most one candidate per field |
| `Generator.CursorFieldsAppend` | src/generator.ts:137-139 | the candidates of `a + b` are those of `a` followed by those of `b`, so field order is kept |
| `Generator.CursorFieldsSingle` | src/generator.ts:137-139 | a single field contributes its name exactly when it is unique or id |
| `Generator.HasRelations` | src/generator.ts:140 | true exactly when some field has a non-empty relation name |
| `Generator.LowerCase` | src/generator.ts:123-125 | same length; the first character lowercased, the rest unchanged; '' maps to '' |
| `Generator.LowerCaseIdempotent` | src/generator.ts:123-125 | lowercasing twice is lowercasing once |
| `Generator.Quote` | src/generator.ts:11 | undefined gives '' and only undefined does; otherwise the text is the string between two single quotes |
| `Generator.QuoteInjective` | src/generator.ts:11 | different arguments give different quoted texts |

## Left out

- I/O: the generator's file writes and directory creation (src/generator.ts:129, 155-157).
- Registration through the generator-handler manifest (src/generator.ts:160-175), which is library plumbing.
- The templates for the declaration file and the client patch (src/generator.ts:13-91, 102-121). They are fixed text with interpolation; only `quote` and `lowerCase`, which they use, are modelled.
- Patching the client class at run time (src/generator.ts:116-118). The delegate is instead a function passed to `Paginate`.
- The type-level delegate-name machinery and the dynamic `client[delegateName]` lookup (src/paginate.ts:16-17, 45). The model uses the delegate function directly.
- The asynchrony of `next()`. `Next` is synchronous, and a rejected `findMany` is the `Rejected` fetch outcome. Concurrent calls to `next()` on one iterator are not modelled.
- The real query engine behind `findMany` and its ordering. The only `findMany` with a concrete meaning is the list delegate of `Traversal`, an assumption.
- JavaScript numbers are integers here: NaN, -0, fractions and BigInt are not represented. A fractional or infinite `count` for `indentString` is not modelled either.
- Arrays as record values, the prototype chain, and property order of objects. Objects are unordered maps of their own properties.
- Only '\n' ends a line in `indentString`. The extra line terminators of the `m` flag ('\r', U+2028, U+2029) are not modelled. `\s` is the JavaScript whitespace set.
- `Generator.LowerCase`: lowercases ASCII letters only, whereas `toLowerCase` also maps non-ASCII letters and can change the length. Strings are sequences of code points, not UTF-16 code units.
