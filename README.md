# Filler retrieval bookkeeping, modelled in Dafny

This project models the deterministic bookkeeping around the nearest-neighbour
index of a small "filler" responder. Reference texts are ingested from JSON files.
Each text gets a numeric label that packs its corpus position and its filler
category. The texts' embeddings go into an HNSW index under those labels. The
labels a k-NN search returns are decoded back to categories and looked up in a
filler map.

Modules, one per part of the source:

- `IdCodec` (`id_codec.dfy`): `createID` and `getFillerID` of `index.js`. A label
  is `index * 100 + fillerID` and decodes as `id % 100`. The code never checks the
  category's range. `CreateId` therefore has no precondition, and the range
  `0 <= f < 100` is a precondition of the round-trip and injectivity lemmas.
  Lemmas show what happens outside that range: category 105 at position 0 gets
  the label of category 5 at position 1.
- `Loaders` (`loaders.dfy`): the extension filter of `getFilesInDirectory`.
  `ExtName` follows Node's POSIX `path.extname`: trailing `/` are dropped, and the
  extension is the suffix of the last component from its last `.`. A component
  whose last `.` is its first character (`.json`), and the component `..`, have no
  extension.
- `Ingestion` (`ingestion.dfy`): `readAllFilesContent` as an imperative method.
  The two folders are a class whose `Rename` moves one file. `readdir` is a
  listing passed in, and reading plus `JSON.parse` is a function `parse` that
  yields a file's records or fails. The method first folds the files in and moves
  each one. It then numbers the flattened records by global position.
- `Indexing` (`indexing.dfy`): `buildIndexing` as a method that creates an
  abstract index and calls `AddPoint` once per embedding, in order. The index is
  a class whose state is the sequence of points it has received.
- `Fillers` (`fillers.dfy`): the mapping from neighbour labels to filler texts.
  This is in `returnMatchedFiller` and in the query loop of `main`.
- `Wrappers` (`wrappers.dfy`): `Option` (which models JavaScript's `undefined`)
  and `Result`.

Facts about the code that the model keeps:

- index.js checks no category range and raises no error of its own. A label is
  computed for any category and any position.
- Consecutive labels differ by `100 + f[i+1] - f[i]`, where `f` is the list of
  categories. With categories in range, this is between 1 and 199.
- A neighbour whose category has no entry in the filler map gets `undefined`
  in the result, and the run goes on.
- The category is read from the record field `metadata.fillerID`.
- A run aborts at the first file that cannot be read or parsed. The files
  before it have already been moved to the processed folder.
- Saving the index (scripts/ingestData.js:35-42) writes `JSON.stringify()`
  with no argument, so nothing of the index is saved.

## Model

| member | source | states |
|---|---|---|
| `IdCodec.CreateId` | index.js:132-135 | for a position `p >= 0` and a category `0 <= f < 100`, the label decodes to `f` and packs `p` (`floor(id / 100) == p`) |
| `IdCodec.GetFillerId` | index.js:143-145 | JavaScript's truncating `%`: a non-negative label gives a category in `[0, 100)`, a negative one a value in `(-100, 0]`, and the label minus the result is a multiple of 100 |
| `IdCodec.CreateIdInjective` | index.js:133 | two in-range (position, category) pairs with the same label are the same pair, so positions with the same category never collide |
| `IdCodec.OutOfRangeCategoryCollides` | index.js:132-145 | with no range check, category 105 at position 0 gets label 105, the same label as category 5 at position 1, and it decodes to 5 |
| `IdCodec.LargeCategoryNeverRoundTrips` | index.js:132-145 | a category of 100 or more never decodes back to itself |
| `IdCodec.NegativeCategoryNeverRoundTrips` | index.js:132-145 | a negative category never decodes back to itself once the label is non-negative |
| `Loaders.ExtName` | customTextAndJSONLoaders.js:19 | `path.extname` is empty or starts with `.` and has no other `.`; for a bare name it is a suffix of the name |
| `Loaders.ToLower` | customTextAndJSONLoaders.js:19 | `toLowerCase` keeps the length, leaves no upper-case ASCII letter, maps each upper-case letter to its lower-case form and keeps every other character |
| `Loaders.HasFileType` | customTextAndJSONLoaders.js:19 | a name passes the filter only when its extension is one character longer than the type, and the type then has no dot and no upper-case letter. A name without an extension never passes. Conversely, a name whose extension is exactly `"." + fileType`, for a lower-case type, passes |
| `Loaders.ExtNameOfDottedName` | customTextAndJSONLoaders.js:19 | a bare name `stem.ext` whose last dot is past its first character has the extension `.ext`; this includes `..json`, but not `..` |
| `Loaders.ExtNameOfHiddenName` | customTextAndJSONLoaders.js:19 | a bare name whose only dot is its first character has the extension `""` |
| `Loaders.GetFilesInDirectory` | customTextAndJSONLoaders.js:17-21 | the filtered list is an order-preserving subsequence of the listing; every kept name has the lower-cased extension `"." + fileType`, and every listed name with that extension is kept |
| `Loaders.FilterIdempotent` | customTextAndJSONLoaders.js:18-21 | filtering the output again with the same `fileType` returns it unchanged |
| `Loaders.FilterKeepsDistinct` | customTextAndJSONLoaders.js:17-20 | a listing without repeated names is filtered into one without repeated names |
| `Loaders.FilterKeepsEveryCopy` | customTextAndJSONLoaders.js:18-20 | a name of the requested type occurs in the output exactly as often as in the listing |
| `Loaders.UpperCaseExtensionMatches` | customTextAndJSONLoaders.js:19 | matching ignores case on the name: any bare `stem.JSON` with a non-empty stem (`..JSON` included) is kept for `fileType = "json"` |
| `Loaders.LeadingDotNameIsDropped` | customTextAndJSONLoaders.js:19 | a name such as `.json`, whose only dot comes first, is dropped for every `fileType` |
| `Loaders.UpperCaseFileTypeMatchesNothing` | customTextAndJSONLoaders.js:19 | only the name is lower-cased, so a `fileType` containing an upper-case letter keeps nothing |
| `Ingestion.FirstFailure` | index.js:163-167 | the position of the first file that does not parse: every earlier file parses, and the file at that position (if any) does not |
| `Ingestion.NumberEntries` | index.js:176-183 | the `forEach` builds `contents` as each record's `pageContent` and `ids` as `createID(i, fillerID)` of the global index `i` |
| `Ingestion.FoldFiles` | index.js:163-173 | the loop parses the files in order and appends each file's records before moving it. It stops at the first file that does not parse, or at the end: the records are those of exactly the files before that point, and exactly those files have left the source folder for the processed folder |
| `Ingestion.ReadAllFilesContent` | index.js:155-196 | the matching files are processed in listing order. If all parse, the result is the numbered concatenation of their records and every file is moved. If file `k` is the first that fails, the run fails naming it, and exactly files `0..k-1` have left the source folder for the processed folder |
| `Ingestion.Ingest` | index.js:163-183 | a run succeeds exactly when every matching file parses, and then `contents` and `ids` both hold as many entries as all the files' records together; a failed run names a file that does not parse, all earlier files having parsed |
| `Ingestion.MovedExactlyPrefix` | index.js:166-171 | after the first `k` distinct files have been moved, each of them is in the processed folder and out of the source folder, and file `k` and every later file are still in the source folder |
| `Ingestion.Flatten` | index.js:167 | the accumulated `jsonContent` holds as many records as all files together |
| `Ingestion.FlattenAt` | index.js:167 | record `o` of file `j` is at global position (records of files before `j`) + `o` of the concatenation |
| `Ingestion.FlattenPrefixGrows` | index.js:167 | the records of a file all come before those of any later file |
| `Ingestion.CorpusAligned` | index.js:176-183 | `contents` and `ids` have the corpus's length, and entry `i` of each comes from record `i` |
| `Ingestion.IdsDecode` | index.js:180-183 | with in-range categories, label `i` decodes to record `i`'s category and to position `i` |
| `Ingestion.IdsStrictlyIncreasing` | index.js:180-183 | with in-range categories, `ids` strictly increases, and consecutive labels differ by between 1 and 199 |
| `Ingestion.NoCollisionAcrossFiles` | index.js:163-183 | with in-range categories, two records (in the same or different files) get the same label exactly when they are the same record |
| `Ingestion.DataFolders.Rename` | index.js:170-171 | `fs.rename` takes the file out of the source folder and puts it in the processed folder, overwriting a file of the same name |
| `Indexing.HierarchicalNsw.constructor` | index.js:111 | a new index has the given space and dimension and holds no points |
| `Indexing.HierarchicalNsw.InitIndex` | index.js:112 | `initIndex` sets the capacity and leaves the index empty |
| `Indexing.HierarchicalNsw.AddPoint` | index.js:114 | `addPoint` appends one labelled point and keeps the capacity |
| `Indexing.BuildIndexing` | index.js:102-123 | a fresh `'l2'` index of the given dimension and capacity holding exactly the pairs `(IDs[i], embeddings[i])`, inserted in index order |
| `Indexing.InsertionsHoldExactly` | index.js:113-115 | a point is in the built index exactly when it pairs some embedding with the label at the same position |
| `Indexing.CorpusLabelsIdentifyPoints` | index.js:113-115 | built from an ingested corpus with in-range categories, no two points share a label, and each label decodes to the category and position of the record it came from |
| `Fillers.Get` | scripts/returnMatchedFiller.js:26 | `fillerMap.get` gives the entry when the key is present and `undefined` otherwise |
| `Fillers.ResolveFillers` | scripts/returnMatchedFiller.js:25-27 | there is one filler entry per neighbour, in order. Entry `i` is present exactly when `getFillerID(neighbors[i])` is a key of the map, and then it is that key's text. No default is substituted |
| `Fillers.WithFillers` | scripts/returnMatchedFiller.js:25-30 | the returned object keeps `neighbors` and `distances` unchanged and adds `fillers[i] = fillerMap.get(getFillerID(neighbors[i]))` |
| `Fillers.ResolveFillersAppend` | scripts/returnMatchedFiller.js:25-27 | resolving a concatenation of neighbour lists resolves each part on its own: an entry depends only on its own label |
| `Fillers.ResolvesToRecordCategory` | index.js:248-251 | over a corpus with in-range categories, a neighbour that is one of the corpus's labels resolves to the map entry of the category of the record at the label's packed position |

## Left out

- Embedding model (`loadModel`, `convertToEmbedding`, index.js:22-59): a TensorFlow library call on floating point; embeddings are an opaque element type.
- `vectorSearch` and `searchKnn` (index.js:71-90), and the HNSW graph itself: library internals on floats. The search result is an input to `Fillers.WithFillers`, and nothing is claimed about neighbour order or distances.
- Indexing.HierarchicalNsw.AddPoint: does not model the library's own checks (more points than `maxElements`, a vector of the wrong dimension) or its update of an existing label, because that code is not part of this model.
- `readdir`, `readFile`, `JSON.parse` and `path.join` (customTextAndJSONLoaders.js:4-17, index.js:158-171): reading and parsing are the abstract `parse` function, and `readdir` is the `listing` argument, taken to hold distinct names of files in the source folder.
- Ingestion.ReadAllFilesContent: assumes a parsed file is an array of well-formed records. The model does not capture what other parsed values do:
  - If a file's JSON is an object, a number or `null`, the spread at index.js:167 throws. `parse` counts such a file as not parsed.
  - A JSON string is spread into one-character strings, which then behave as malformed records.
  - A `null` element, or a record without a `metadata` object, throws a TypeError in the `forEach` (index.js:180-183). That happens after the loop at index.js:163-173 has moved every file to the processed folder. The run then fails with all files moved and nothing returned.
  - A record with `metadata` but without `pageContent` or `fillerID` gives `undefined` or `NaN` entries instead.
- Ingestion.DataFolders.Rename: a rename that fails (missing file, permissions) is not modelled. In the source it rejects the `await` at index.js:171 and aborts the run, leaving the earlier files moved. The model only renames files that are in the source folder.
- `loadTextDirectory` and `loadJSONDirectory` (customTextAndJSONLoaders.js:24-46): plain I/O loops around the filter.
- `scripts/ingestData.js`: glue around readAllFilesContent and buildIndexing, and a placeholder save. `loadIndexFromFile` lives in `utils/functions.js`, which is not part of this model, so loading an index is not modelled.
- The driver `main` (index.js:198-268), timing with `performance.now`, debug logging and `console.table`.
- IdCodec.CreateId: uses mathematical integers; the source's floating-point numbers are exact only while a label stays below 2^53.
- Loaders.ToLower: lower-cases ASCII letters only; `toLowerCase` also maps other Unicode letters.
- Asynchronous scheduling: the `await` points run in sequence, and the model runs them as one sequential method.
