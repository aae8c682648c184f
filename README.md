# Notebook stores, modelled in Dafny

A model of the two stores behind the Notebook contact service, and proofs about them.

- **Note store.** The PostgreSQL `notes` table becomes a map from id to note, held in the class `NoteStore.NoteTable`. Each SQL statement of `PostgreStorage` becomes its effect on that map. The handlers that sit in front of it become `Handlers.Handler`: validation, existence checks, defaulting of offset and limit, id generation, and the status each request answers with.
- **Image store.** The image directory becomes a map from file name to bytes, held in `Images.ImageDir`. An upload is written under a temporary uuid name while its bytes go into MD5. The file is then renamed to the lowercase hex of the digest. `Get` strips one trailing `/` and looks the name up. `Delete` removes one name.

Files (one module each):

- `wrappers.dfy`: Option and Result.
- `http.dfy`: the status codes.
- `notes.dfy`: the `Note` record and `VerifyNote`.
- `string_order.dfy`: the order `ORDER BY id` sorts by, and the sorted key sequence of a table.
- `note_store.dfy`: the SET list of a partial update, the reference merge, pagination, and the `NoteTable` class.
- `decimal.dfy`: `strconv.Itoa` and `strconv.ParseInt(s, 10, 32)`.
- `handlers.dfy`: the note handlers, plus a client scenario.
- `hex.dfy`: bytes and `hex.EncodeToString`, with its inverse.
- `images.dfy`: the image directory, plus a client scenario.

How the model is built:

- A note's optional fields (`company`, `birthDate`, `imageId`) are `Option<string>`. `None` is Go's nil pointer, so an absent value differs from a present `""`. A string field holding `""` counts as unset.
- The Go `Note` struct has no `ImageID` field, but the store reads and writes one (internals/storage/postgreStorage.go:55,86,116). The model's `Note` includes it.
- `UpdateNote` builds its SET list one `append` at a time (`BuildUpdates`) and runs it (`Apply`). That list is proved to perform the reference merge `Merge`: a set field of the patch wins, an unset one keeps the stored value.
- A non-empty patch id renames the row. The row then lives under the new id, and the old id is gone.
- The table invariant `Valid()` states that each row is stored under its own id. The invariant `IdsNonEmpty()` states that no row has the empty id. `Handler.Add`, `Handler.Update` and `Handler.Delete` preserve both.
- `GetRangeNotes` writes OFFSET and LIMIT into the SQL text with `strconv.Itoa`, and a negative limit as `ALL` (internals/storage/postgreStorage.go:69-76). `ParseDecimalItoa` proves that this text, read as a decimal integer, is exactly the integer written. The store model therefore takes the integers themselves.
- The directory invariant `ContentAddressed` states that every name of digest shape (32 lowercase hex characters) holds bytes whose hex MD5 is that name. The constructor (an empty directory) establishes it; `Add`, on every fault, and `Delete` preserve it.
- MD5 is a function value given to the `ImageDir`, and all the model knows about it is that it returns 16 bytes. The uuid generator and file-system failures are parameters: `Add` takes a `freshId` for notes, and a `tmp` name plus a `Fault` for images.

## Model

| member | source | states |
|---|---|---|
| Notes.VerifyNote | internals/storage/abstract.go:16-25 | false when any of Name, Phone, Mail is the empty string; true when all three are non-empty |
| Notes.VerifyNoteIgnoresOtherFields | internals/storage/abstract.go:16-25 | changing ID, Company, BirthDate or ImageID never changes the verdict |
| StringOrder.LessIrreflexive | internals/storage/postgreStorage.go:76 | no id sorts before itself |
| StringOrder.LessAsymmetric | internals/storage/postgreStorage.go:76 | two ids are never each before the other |
| StringOrder.LessTransitive | internals/storage/postgreStorage.go:76 | the id order is transitive |
| StringOrder.LessTotal | internals/storage/postgreStorage.go:76 | any two distinct ids are ordered one way or the other |
| StringOrder.LeastExists | internals/storage/postgreStorage.go:76 | every non-empty set of ids has a least element |
| StringOrder.LeastUnique | internals/storage/postgreStorage.go:76 | that least element is unique |
| StringOrder.MinKey | internals/storage/postgreStorage.go:76 | returns a member of the set that is below every other member |
| StringOrder.SortedKeys | internals/storage/postgreStorage.go:76 | holds exactly the given ids, each once, strictly ascending |
| StringOrder.SortedKeysUnique | internals/storage/postgreStorage.go:76 | any strictly ascending sequence of exactly those ids is SortedKeys, so the ORDER BY result is determined |
| NoteStore.Assign | internals/storage/postgreStorage.go:122-123 | one SET entry whose value counts as set equals the merge with a patch that sets only that column |
| NoteStore.Apply | internals/storage/postgreStorage.go:122-123 | a column that no entry of the SET list writes keeps its stored value |
| NoteStore.ApplyAppend | internals/storage/postgreStorage.go:122 | running a SET list with one more entry equals running that entry after the list |
| NoteStore.PerformsAppend | internals/storage/postgreStorage.go:96-117 | appending an assignment extends the merge the SET list performs |
| NoteStore.BuildUpdates | internals/storage/postgreStorage.go:96-117 | the SET list is empty exactly when the patch sets nothing, has at most 7 entries, and running it on any row gives Merge(row, patch) |
| NoteStore.Merge | internals/storage/postgreStorage.go:96-120 | a patch with nothing set returns the stored note unchanged; the merge never invalidates a valid note and never empties a non-empty id |
| NoteStore.MergeIdempotent | internals/storage/postgreStorage.go:96-117 | applying a patch twice equals applying it once |
| NoteStore.MergeCompose | internals/storage/postgreStorage.go:96-117 | two successive patches equal one patch in which the later set fields win |
| NoteStore.Page | internals/storage/postgreStorage.go:68-82 | length is what remains after offset, capped at limit when limit >= 0; element i is input element offset + i |
| NoteStore.PageExtremes | internals/storage/abstract.go:30 | a negative limit with offset 0 gives everything; limit 0 gives nothing; an offset at or past the end gives nothing |
| NoteStore.PageThird | internals/storage/postgreStorage.go:68-82 | offset 2 with limit 1 gives exactly the third note, or nothing when there are fewer than three |
| NoteStore.InIdOrder | internals/storage/postgreStorage.go:76 | one entry per row, the i-th being the row under the i-th sorted id |
| NoteStore.InIdOrderIsSortedTable | internals/storage/postgreStorage.go:76 | the listing holds exactly the stored notes, strictly ascending by id |
| NoteStore.Rewrite | internals/storage/postgreStorage.go:122-123 | the keys are the old ones without the updated id, plus the merged id; the merged id holds the merged note; every other row keeps its value |
| NoteStore.RewriteEffect | internals/storage/postgreStorage.go:122-130 | after an update the table is still keyed by id; the merged note sits under the patch's id when one is set, else under the old id; a renamed row's old id is gone; no other row changes; the row count is unchanged |
| NoteStore.RewriteKeepsIdsNonEmpty | internals/storage/postgreStorage.go:97 | an update never stores a note under the empty id |
| NoteStore.AllNotesServed | internals/storage/abstract.go:30 | GetRangeNotes(0, -1) serves every stored note, strictly ascending by id |
| NoteStore.NoteTable.IsNote | internals/storage/postgreStorage.go:47-51 | true exactly when the id is a key; a function, so it changes nothing |
| NoteStore.NoteTable.GetNote | internals/storage/postgreStorage.go:59-66 | succeeds exactly when the id is stored, returning that row; otherwise fails with NoRows |
| NoteStore.NoteTable.GetRangeNotes | internals/storage/postgreStorage.go:68-82 | fails exactly for a negative offset; otherwise returns PageLength(n, offset, limit) notes, the i-th being the row under sorted id offset + i |
| NoteStore.NoteTable.AddNote | internals/storage/postgreStorage.go:84-93 | inserts the note and returns exactly it, changing no other entry; a taken id fails with Conflict and changes nothing |
| NoteStore.NoteTable.UpdateNote | internals/storage/postgreStorage.go:95-131 | nothing set: returns GetNote(id), table unchanged. Absent id: table unchanged, result read under the patch id or id. Rename onto another row: Conflict, unchanged. Otherwise: row replaced by Merge of stored and patch, under the merged id, and returned |
| NoteStore.NoteTable.DeleteNote | internals/storage/postgreStorage.go:133-136 | removes exactly that key and keeps the table keyed by id |
| Decimal.Itoa | internals/storage/postgreStorage.go:69 | the text is non-empty and starts with '-' exactly for a negative number; a non-negative number is written in digits only |
| Decimal.FormatNat | internals/storage/postgreStorage.go:69 | a non-empty digit string without a leading zero, except "0" itself |
| Decimal.DigitsValueFormatNat | internals/storage/postgreStorage.go:69 | the digits written for n read back as n |
| Decimal.ParseDecimalItoa | internals/storage/postgreStorage.go:69-74 | every integer that Itoa writes reads back unchanged |
| Decimal.ParseDecimal | internals/handlers/handlers.go:61 | a non-empty digit string reads as its decimal value; a '+' or '-' followed by digits reads as that value with the sign ("+5" is 5, "-007" is -7); a lone sign, a first character other than a digit or sign, a non-digit after it, or the empty string gives no value |
| Decimal.ParseInt32 | internals/handlers/handlers.go:61 | succeeds exactly when the text has a decimal value within the signed 32-bit range, and then returns that value |
| Decimal.ParseInt32Itoa | internals/handlers/handlers.go:61-64 | parsing Itoa(n) gives n exactly when n fits in 32 bits, else an error |
| Decimal.ParseInt32Empty | internals/handlers/handlers.go:61 | a missing parameter (the empty string) does not parse |
| Handlers.ListRangeParams | internals/handlers/handlers.go:57-66 | offset in [0, 2^31), limit in [-1, 2^31); a parsed non-negative value passes through; anything else gives 0 and -1 |
| Handlers.ListRangeDefaults | internals/handlers/handlers.go:58-59 | no parameters give offset 0 and limit -1 |
| Handlers.ListRangeParamsItoa | internals/handlers/handlers.go:61-66 | non-negative 32-bit values written in decimal reach the store unchanged, so limit 0 yields an empty page |
| Handlers.ListRangeParamsOutOfRange | internals/handlers/handlers.go:61-66 | negative or too large values fall back to offset 0 and limit -1 |
| Handlers.Handler.List | internals/handlers/handlers.go:24-54 | missing or empty id gives 500; an absent id gives 404; OK exactly when the id is stored, returning that note |
| Handlers.Handler.ListRange | internals/handlers/handlers.go:56-81 | always OK, serving the page of notes, sorted by id, for the defaulted offset and limit |
| Handlers.Handler.Add | internals/handlers/handlers.go:83-141 | unparsable, invalid or taken-id notes give 400 and leave the store unchanged; an empty id becomes the fresh id; success inserts exactly that note and answers 201; ids stay non-empty |
| Handlers.Handler.Update | internals/handlers/handlers.go:143-196 | missing id gives 500; absent id gives 404 before the body is read; unparsable body gives 400; otherwise the store's merge and rename; unchanged store on every failure; ids stay non-empty |
| Handlers.Handler.Delete | internals/handlers/handlers.go:198-220 | missing id gives 500; absent id gives 404, store unchanged; otherwise removes it and answers 204; afterwards IsNote(id) is false |
| Hex.EncodeToString | internals/handlers/imageHandler.go:64 | twice as long as the input, every character in 0-9a-f |
| Hex.DecodeLowerHex | internals/handlers/imageHandler.go:64 | the inverse of EncodeToString that DecodeEncode is stated with (the source never decodes); a decoded byte string is half as long as its text |
| Hex.DecodeEncode | internals/handlers/imageHandler.go:64 | decoding the hex of any bytes gives those bytes back |
| Hex.EncodeInjective | internals/handlers/imageHandler.go:64 | distinct byte strings have distinct hex spellings |
| Images.ContentKey | internals/handlers/imageHandler.go:63-64 | a key is 32 lowercase hex characters |
| Images.UuidIsNoContentKey | internals/handlers/imageHandler.go:49-50 | a uuid temporary name never equals a digest name |
| Images.ContentKeyCollision | internals/handlers/imageHandler.go:57-64 | two contents share a key exactly when their MD5 sums are equal |
| Images.DistinctContentDistinctKeys | internals/handlers/imageHandler.go:57-64 | contents whose MD5 sums differ get different keys |
| Images.Finalized | internals/handlers/imageHandler.go:66 | the key maps to the uploaded bytes; the temporary name is gone when it differs from the key; every other name keeps its presence and contents |
| Images.FinalizedEffect | internals/handlers/imageHandler.go:63-69 | after an upload the key maps to the bytes, the temporary name is gone, and all other names are unchanged |
| Images.SameContentOneSlot | internals/handlers/imageHandler.go:49-69 | re-uploading identical bytes under a fresh temporary name leaves the directory exactly as it was |
| Images.StripTrailingSlash | internals/handlers/imageHandler.go:33-36 | one trailing '/' is removed; a path without one is left untouched |
| Images.StripTrailingSlashAppended | internals/handlers/imageHandler.go:33-36 | `key/` is looked up as `key` |
| Images.FinalizedContentAddressed | internals/handlers/imageHandler.go:63-66 | a completed upload keeps every digest-shaped name holding bytes whose hex MD5 is that name |
| Images.TemporaryContentAddressed | internals/handlers/imageHandler.go:49-62 | writing a uuid-named temporary file, complete or partial, keeps the directory content addressed |
| Images.RemovalContentAddressed | internals/handlers/imageHandler.go:84 | removing a name keeps the directory content addressed |
| Images.ImageDir.Add | internals/handlers/imageHandler.go:41-73 | 201 exactly for a readable form with no fault, returning hex(MD5(bytes)) and the renamed file. A failed create leaves the directory unchanged. A failed copy leaves only a partial temporary file, and a failed rename only the full one; no digest name changes on any failure; content addressing is preserved |
| Images.ImageDir.Get | internals/handlers/imageHandler.go:32-39 | finds a file exactly when the path, stripped of one trailing '/', names one, and returns its bytes |
| Images.ImageDir.Delete | internals/handlers/imageHandler.go:75-89 | a missing or empty id, or an absent file, gives 500 and changes nothing; otherwise removes exactly that name and answers 204; content addressing is preserved |
| Images.UploadThenGet | internals/handlers/imageHandler.go:32-73 | an uploaded image reads back byte for byte under its key, with or without a trailing '/' |
| Images.DeleteThenGet | internals/handlers/imageHandler.go:32-39 | after a delete, Get of that key, with or without '/', finds nothing |

## Behaviour fixed by the code

- **UpdateNote on an absent id.** With at least one field set, the UPDATE changes no row and no error is raised. The note is then read back under the patch's id, if one is set, so another existing note can be returned (internals/storage/postgreStorage.go:122-130). `UpdateNote` models this as written. `Handler.Update` never reaches it, because it checks existence first.
- **Absent or empty ids in the store.** `UpdateNote` on an absent id fails with NoRows from its read-back, unless the patch id names an existing row. With nothing set, it fails the same way (internals/storage/postgreStorage.go:118-119). Only `DeleteNote` never fails: on an absent id it succeeds without changing anything. The handlers answer 404 because they call `IsNote` first.
- **Empty id on Delete.** `Handler.Delete` does not reject an empty route id (only a missing one). It answers 404, since no row has the empty id.
- **Unchecked generated id on Add.** The uuid is not checked against the table. A clash fails the INSERT, which answers 500 and leaves the table unchanged.
- **Any key accepted by image Delete.** An image `Delete` removes any existing name, including an orphaned temporary file.

## Left out

- Process bootstrap and routing (cmd/main.go), and `DBInit`, `New`, `Close` and `NewHandler`: connections and schema loading are I/O. `NewImageHandler` is left out for the same reason (directory creation); the `ImageDir` constructor starts from an empty directory, so files already present in a reused directory, which need not be content addressed, are not modelled, as is the handlers' write of the response body.
- The primary key on `notes.id` is an assumption. The schema file is not part of this model. `AddNote` on a taken id, and a rename onto another row's id, are therefore modelled as a `Conflict` that changes nothing.
- `ORDER BY id` is modelled as plain character-by-character order. A database collation other than "C" may order some strings differently.
- SQL text construction is not modelled. Values are treated as bound parameters, so a value containing a quote, which would break or inject into the UPDATE statement, is not represented. pgx row scanning and storage I/O errors, with the 500 answers they cause, are not modelled either.
- PostgreSQL's own range limit on OFFSET and LIMIT values is not modelled; the store takes unbounded integers. Through the handlers, both always fit in 32 bits.
- JSON decoding, the content-type switch (400 for a missing content type, 415 for another type), body-read errors and JSON encoding are not modelled. A request body is a decoded `Note` or `Unparsable`, and a response is a status plus the returned note(s).
- The MD5 algorithm is not modelled: it is a function supplied to the directory. The model assumes nothing about collisions: two contents share a key exactly when their digests are equal (`ContentKeyCollision`), and a real MD5 collision would make them share one slot.
- uuid generation is not modelled: the fresh id (notes) and the temporary name (images) are parameters. The temporary name is only required to have the uuid shape.
- The serving internals of `http.FileServer` (path cleaning, leading '/', directory listings, index files, headers) and the path cleaning of `filepath.Join` are not modelled. A name is looked up as given, after the trailing-slash strip.
- File-system failures are a `Fault` parameter, and `io.Copy` is modelled one byte at a time. Deferred `Close` calls are not modelled.
- Concurrency and transaction atomicity are not modelled: racing creates, renames and identical uploads each run as one sequential step.
