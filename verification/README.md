# Document ingestion and retrieval service — Dafny model

A Dafny model of a small document ingestion and retrieval service. Users upload a
document. The service extracts its text and computes an embedding of that text. It
stores the text, the embedding and the file name in a vector collection. Free-text
queries are embedded the same way and answered with the documents and metadata the
collection returns.

The model has four modules:

- `Outcomes` (outcomes.dfy): `Option` and `Result`. A `Result` stands for a Python
  value or the exception message (`str(e)`) raised in its place.
- `Text` (text.dfy): Python's `str.split(sep)` and `sep.join(parts)` for a
  one-character separator, with their round-trip, length and last-piece facts.
- `DocParser` (doc_parser.dfy, models `doc_parser.py`, pure): the file type is taken
  from the file name. An exact, case-sensitive match picks the PDF, Word or plain-text
  path. Any other type fails with `Unsupported file type: <type>`. A Word document's
  text is its paragraphs joined with `'\n'`. The PDF extractor, the Word loader and the
  text-file reader are the three functions of a `Readers` value.
- `Service` (service.dfy, models `main.py`): class `DocumentService` holds the
  collection as `records: seq<Record>`, plus the embedding model and the readers.
  `IngestDocument` is a method that appends at most one record. `QueryDocuments` is a
  function that only reads `records`. The `reads this` frame and the absence of any
  `modifies` clause mean a query cannot change the collection.

The model follows the code as written, including where it may not do what was meant:

- The empty-text guard is `if not text`. It rejects only `""`; whitespace-only text is
  stored.
- The file type is not lower-cased, so `REPORT.PDF` is rejected (`DocParser.UpperCaseRejected`).
- Failure messages are `"Error ingesting document: "` or `"Error querying documents: "`
  followed by the raised message itself. There are no per-stage tags.
- No ranking or result cap is modelled. The code only passes `n_results = 5` to the store.
- The query passes a one-element list of query embeddings, and the store answers with one
  document list and one metadata list per query embedding. The `zip` pairs those outer
  lists. The reply therefore has a single entry, whose `"document"` is the whole list of
  returned documents and whose `"metadata"` is the whole list of their metadatas
  (`Service.SingleEntryReply`). It does not have one entry per document.

The Word-text round trip (split the text on `'\n'` to get the paragraphs back) holds
only for at least one paragraph, none containing `'\n'`. Zero paragraphs give `""`,
and `"".split('\n')` is `[""]`, not `[]`.

## Model

| member | source | states |
|---|---|---|
| `Text.Split` | doc_parser.py:7 | `split(sep)` always yields at least one piece, and no piece contains the separator |
| `Text.LastPiece` | doc_parser.py:7 | `split(sep)[-1]` is a separator-free suffix of the string that is either the whole string or directly preceded by the separator |
| `Text.JoinSplit` | doc_parser.py:7 | joining the pieces of a split with the separator gives back the original string |
| `Text.SplitJoin` | doc_parser.py:26 | for at least one separator-free part, splitting the join gives back exactly the parts |
| `Text.JoinLength` | doc_parser.py:26 | the joined text's length is the sum of the part lengths plus `max(n-1, 0)` separators |
| `DocParser.FileTypeIsTextAfterLastDot` | doc_parser.py:7 | the file type equals `t` if and only if `t` is dot-free, a suffix of the name, and either the whole name or preceded by a dot |
| `DocParser.FileTypeWithoutDot` | doc_parser.py:7 | a name with no dot is its own file type |
| `DocParser.FileTypeOfExtension` | doc_parser.py:7 | for any stem and dot-free extension, the type of `stem + "." + ext` is `ext` |
| `DocParser.Route` | doc_parser.py:9-16 | a path is chosen only when the type is one that path accepts, and that path is the only one that accepts it; otherwise the error is `Unsupported file type: <type>` and no path accepts the type |
| `DocParser.ExtensionsRouted` | doc_parser.py:9-14 | `.pdf` selects PDF, `.doc` and `.docx` select Word, `.txt` selects plain text, whatever the stem |
| `DocParser.UpperCaseRejected` | doc_parser.py:7-16 | `.PDF`, `.TXT` and `.DOCX` are rejected, and the message names the upper-case type |
| `DocParser.TrailingDotRejected` | doc_parser.py:7-16 | a name ending in `.` has the empty type and fails with `Unsupported file type: ` |
| `DocParser.DocxText` | doc_parser.py:26 | zero paragraphs give `""`; one gives its text unchanged; the length is the sum of the paragraph lengths plus the separators; without `'\n'` inside paragraphs, splitting on `'\n'` gives back the paragraph list |
| `DocParser.ExtractDocx` | doc_parser.py:23-27 | succeeds exactly when the document loads, and a loading error is passed through unchanged; on success the text's length is the paragraph lengths plus `max(n-1, 0)` newlines, one paragraph gives its text unchanged, and splitting the text on `'\n'` gives back the paragraphs when there is at least one and none contains `'\n'` |
| `DocParser.ParseDocument` | doc_parser.py:5-16 | type `pdf` returns the PDF reader's result, `doc`/`docx` the Word path's, and `txt` the text reader's; every other type fails with the unsupported-type message, whatever the contents |
| `DocParser.DispatchIgnoresContents` | doc_parser.py:7-16 | two uploads with the same name use the same reader on their own contents, or both fail with the same message |
| `Service.Zip` | main.py:61 | for any element types, the result has as many entries as the shorter input, and entry i pairs element i of the first with element i of the second |
| `Service.DocumentService.constructor` | main.py:13-18 | the service starts with an empty collection and with the given model and readers |
| `Service.DocumentService.IngestDocument` | main.py:21-42 | success happens exactly when parsing succeeds with non-empty text, the embedding succeeds and the add does not fail. On success the reply is the fixed message plus the file name, and exactly one record `(text, embedding(text), {"filename": name})` is appended after the unchanged earlier records. On failure nothing is written, and the error is status 500 with the parse error, `Document is empty.`, the embedding error or the store error after the ingest prefix. Every stored record stays well formed |
| `Service.SingleEntryReply` | main.py:58-63 | when the store returns one document list and one metadata list for the single query embedding, the reply is exactly one entry holding both whole lists |
| `Service.DocumentService.QueryDocuments` | main.py:51-66 | reads the collection and never writes it. Success happens exactly when embedding and the store query (asked for 5 results) both succeed. The reply echoes the query. Its results zip the store's per-embedding document lists with its per-embedding metadata lists, index by index, up to the shorter length. An embedding or store error becomes status 500 with the query prefix |

## Left out

- HTTP wiring: the application object, the two routes and their pass-through handlers (main.py:10, main.py:45-48, main.py:69-72).
- Vector-store client construction and its persistence directory (main.py:13-15). The collection is the `records` sequence and starts empty.
- Nearest-neighbour search. The store's query is the `search` parameter, a function of the records, the query embedding and the requested count. No ranking, ordering or cap on the returned results is claimed.
- The contents of the store's reply. `StoreHits` keeps its nesting, one list per query embedding, but nothing forces the store to return exactly one list for one embedding. `Service.SingleEntryReply` states the reply's shape when it does.
- Store add failures. They are an input (`addFault`) rather than a behaviour of the store.
- The sentence-transformer model (main.py:18, main.py:30, main.py:55). It is the fixed function `encode` into an uninterpreted `Embedding`, and its errors are messages.
- The PDF extractor, the Word loader and the text-file reader (doc_parser.py:18-21, doc_parser.py:25, doc_parser.py:29-33). They are the three functions of `Readers`, and each returns text (or paragraphs) or an error message.
- Asynchrony and concurrent requests. Each call runs to completion on its own.
- An upload without a file name. The model's `filename` is always a string.
