# Product catalog: server routes and client controller, in Dafny

This project models the decision logic of a small product catalog manager.
An Express/Mongoose server (`server/app.js`) stores product records and their
uploaded images. A React component (`client/src/components/ProductUploader.jsx`)
holds a form and a product list and calls the server.

The document collection is modelled as a map from product id to stored
document. Each stored document is a map from field name to JavaScript value.
JavaScript values (`Js.JsValue`) carry an explicit truthiness predicate, so the
PUT rule can be stated as the source writes it: `name || existing.name`.

Files:

- `wrappers.dfy`: `Option`.
- `js.dfy`: JavaScript values, `Truthy`, `a || b`, property lookup, `String(v)`, `FormData` parts.
- `decimal.dfy`: the decimal text of a timestamp and reading it back.
- `text.dfy`: `indexOf` and `split` with a string separator.
- `uploads.dfy`: multer's `single('image')` reception, Node's `path.extname`, and the stored-filename rule.
- `server.dfy`: one specification function per route (`CreateOutcome`, `PutOutcome`, `PatchOutcome`, `DeleteOutcome`, `DownloadOutcome`).
  It also holds the class `ProductStore`, whose methods change the collection the way the handlers do.
  They are proved equal to those functions. PUT assigns the fields one at a time. PATCH loops over the body keys.
- `client.dfy`: the list transforms and the download filename, as functions.
  The class `ProductUploader` holds the component's four state fields, and its methods are the handlers.
- `endtoend.dfy`: client and server together.
  It covers the header round trip and the case where that round trip fails.
  It covers what a create submission from the form does on the server.
  It also covers what the client's list holds after it records a PUT reply.

Behaviour the model makes explicit:

- PUT keeps a field whenever the request value is falsy: `""`, `0`, `null` or absent.
  So in this model, where values are not cast to the schema's types, a field holding a truthy value cannot be set to a falsy one through PUT.
  `"0"` is truthy and does replace the field; once Mongoose casts it to the schema's `Number`, the stored price is 0.
- The client parses the download filename with `split('filename=')[1]`.
  This gives back the stored name exactly when that name does not itself contain `filename=`; otherwise the client gets the text before the name's first `filename=`.
  A file uploaded as `a.filename=` is stored as `<now>.filename=` and read back as `<now>.`.
- After a successful edit, the client puts the whole PUT reply `{message, updatedProduct}` in place of the list entry.
  That object has no `_id`, so the edited product can no longer be found by its id in the client's list.
- A create submission without a chosen image sends the text `"null"` as the `image` field, not a file.
  The server answers 400.

## Model

| member | source | states |
|---|---|---|
| `Js.Truthy` | server/app.js:138-143 | a value is truthy exactly when it is not one of `undefined`, `null`, `false`, `0`, `""` |
| `Js.Or` | server/app.js:138-140 | `a || b` is one of its operands, the left one exactly when it is truthy, and is truthy exactly when either operand is |
| `Js.AppendPart` | client/src/components/ProductUploader.jsx:127-130 | `formData.append` makes a file part, carrying the `File`'s name, exactly for a `File`, and otherwise sends the value's string form |
| `Js.FalsyAndTruthyStrings` | server/app.js:138-140 | `""`, `0`, `undefined` and `null` are falsy; `"0"` and `"false"` are truthy |
| `Decimal.Format` | server/app.js:30 | the timestamp prints as non-empty digits with no leading zero |
| `Decimal.ValueOfFormat` | server/app.js:30 | reading the printed timestamp gives the timestamp back |
| `Decimal.FormatInjective` | server/app.js:30 | different timestamps print differently |
| `Decimal.LeadingDigitsOfConcat` | server/app.js:30 | digits followed by text that does not start with a digit split back apart |
| `Uploads.Extname` | server/app.js:30 | `path.extname` is empty or a `.` followed by text with no `/` and no further `.`; it is non-empty exactly when the last path component is not `..` and has a `.` after its first character |
| `Uploads.ExtnameIsSuffix` | server/app.js:30 | the extension is a suffix of the last path component |
| `Uploads.ExtnameExamples` | server/app.js:30 | `a.md` has extension `.md`; `.md` has none |
| `Uploads.StoredFilename` | server/app.js:30 | the stored filename ends with the original name's extension and is longer than it |
| `Uploads.StoredFilenameParts` | server/app.js:30 | a stored filename splits back into the timestamp's digits, which read as the timestamp, and the extension |
| `Uploads.StoredFilenamesDistinct` | server/app.js:30 | uploads at different times get different stored filenames |
| `Uploads.ReceiveSingle` | server/app.js:47 | `upload.single('image')` accepts the request exactly when every file part is named `image` and there is at most one; `req.file` is absent exactly when no file part was sent; every text part becomes a body key |
| `Uploads.ReceivedKeys` | server/app.js:47 | an accepted request's `req.body` has exactly the text-part names as keys |
| `Uploads.ReceivedValues` | server/app.js:47 | each `req.body` key holds the text of the last text part with that name |
| `Uploads.ReceivedFile` | server/app.js:47 | an accepted `req.file` carries the original name of a file part sent under the field name |
| `Text.IndexOf` | client/src/components/ProductUploader.jsx:104 | the index found is an occurrence with none before it; none found means none exists |
| `Text.SecondPiece` | client/src/components/ProductUploader.jsx:104 | `split(sep)[1]` is the text between the first separator and the next one, or the end |
| `Text.Split` | client/src/components/ProductUploader.jsx:104 | `split(sep)` gives at least one piece, exactly one when `sep` does not occur, and no piece contains `sep` |
| `Text.SplitJoin` | client/src/components/ProductUploader.jsx:104 | joining the pieces of `split(sep)` with `sep` gives the text back |
| `Text.SplitWithoutSeparator` | client/src/components/ProductUploader.jsx:104 | without the separator, `split` gives the whole text as one piece |
| `ProductApi.AsJson` | server/app.js:80 | a document's JSON is its fields plus `_id` |
| `ProductApi.UpdatedBody` | server/app.js:151 | the reply of a saved update has exactly the keys `message` and `updatedProduct`, the latter the saved document's JSON with its `_id` |
| `ProductApi.NewRecord` | server/app.js:54-62 | the new document has exactly the four schema fields, the body's name/description/price and the given imagePath |
| `ProductApi.CreateOutcome` | server/app.js:47-68 | no file: 400, store unchanged; with a file: 201 carrying only a message, exactly one new document under the fresh id with the body's fields and the stored filename as imagePath, others unchanged |
| `ProductApi.PutRecord` | server/app.js:137-146 | each of name/description/price is the request value if truthy, else the old one; imagePath is replaced only by a truthy value; other fields are kept |
| `ProductApi.PutSteps` | server/app.js:137-146 | the handler's four assignments in turn produce `PutRecord` |
| `ProductApi.PutFalsyKeepsField` | server/app.js:138-145 | a falsy request value leaves its field as it was |
| `ProductApi.PutAllFalsyIsIdentity` | server/app.js:138-146 | a PUT with all four values falsy changes no field |
| `ProductApi.PutNeverClearsField` | server/app.js:138-140 | a field holding a truthy value still holds a truthy value after any PUT on uncast values, so in this model it cannot be set to a falsy one |
| `ProductApi.PutIdempotent` | server/app.js:137-146 | the same PUT twice saves the same document as once |
| `ProductApi.PutOutcome` | server/app.js:123-151 | unknown id: 404, store unchanged; known id: 200 with the saved document, `PutRecord` saved under the same id, other documents unchanged |
| `ProductApi.PatchRecord` | server/app.js:174-177 | every body key takes its body value; keys not in the body keep theirs |
| `ProductApi.PatchIdempotent` | server/app.js:174-177 | the same PATCH twice saves the same document as once |
| `ProductApi.PatchOutcome` | server/app.js:160-182 | unknown id: 404, store unchanged; known id: 200, `PatchRecord` saved under the same id, others unchanged |
| `ProductApi.DeleteOutcome` | server/app.js:190-201 | unknown id: 404, store unchanged; known id: 200, exactly that document removed, others unchanged |
| `ProductApi.ContentDisposition` | server/app.js:106 | the header is `attachment; filename=` followed by the imagePath's string form |
| `ProductApi.DownloadOutcome` | server/app.js:94-107 | 404 exactly when the product is missing or its imagePath is falsy; otherwise an `image/jpeg` attachment whose disposition is `attachment; filename=` followed by the imagePath (values uncast, and header characters Node refuses not modelled: see Left out) |
| `ProductApi.DownloadAfterDelete` | server/app.js:194-201 | after a delete, downloading that id gives 404 |
| `ProductApi.ProductStore.constructor` | server/app.js:39-44 | the model starts from a collection of this schema with no documents |
| `ProductApi.ProductStore.List` | server/app.js:76-80 | the listing has one entry per document, each document's JSON appears, and nothing else appears |
| `ProductApi.ProductStore.Create` | server/app.js:47-68 | the reply and new collection are `CreateOutcome` of the old collection |
| `ProductApi.ProductStore.Put` | server/app.js:123-151 | field-by-field assignment gives `PutOutcome` of the old collection |
| `ProductApi.ProductStore.Patch` | server/app.js:160-182 | the loop over body keys gives `PatchOutcome` of the old collection, whatever order the keys come in |
| `ProductApi.ProductStore.Delete` | server/app.js:190-206 | the reply and new collection are `DeleteOutcome` of the old collection |
| `ProductApi.ProductStore.Download` | server/app.js:87-107 | reads the collection and answers `DownloadOutcome` |
| `Client.EmptyForm` | client/src/components/ProductUploader.jsx:5-10 | the form has exactly the four fields: empty name, description and price, a null image; every property is falsy |
| `Client.WithField` | client/src/components/ProductUploader.jsx:35-38 | the named field takes the value and every other field is unchanged |
| `Client.IndexOfId` | client/src/components/ProductUploader.jsx:76 | the first index with that `_id`, or none when no entry has it |
| `Client.FindById` | client/src/components/ProductUploader.jsx:76 | `find` returns none exactly when no entry has that `_id`; otherwise the first entry with that `_id` |
| `Client.ReplaceById` | client/src/components/ProductUploader.jsx:56-58 | same length; every entry with the id becomes the reply value; every other entry is unchanged in place |
| `Client.RemoveById` | client/src/components/ProductUploader.jsx:87 | no entry with the id remains; exactly those entries are dropped; the rest keep their relative order |
| `Client.RemoveByIdKeepsOthers` | client/src/components/ProductUploader.jsx:87 | every entry with another id survives the filter |
| `Client.RemoveAbsentId` | client/src/components/ProductUploader.jsx:87 | filtering out an id nobody has leaves the list as it was |
| `Client.DownloadFileName` | client/src/components/ProductUploader.jsx:104 | the name is a string or `undefined`; with a non-empty header it is a string exactly when the header contains `filename=`, and never contains `filename=`; without one it is a name starting `product_` and ending `.jpg` |
| `Client.DefaultDownloadFileName` | client/src/components/ProductUploader.jsx:104 | without a header the name is `product_<id>.jpg` |
| `Client.FileNameBetweenKeys` | client/src/components/ProductUploader.jsx:104 | with a header, the name is the text between the first `filename=` and the next one, or the end |
| `Client.FileNameWithoutKey` | client/src/components/ProductUploader.jsx:104 | a non-empty header without `filename=` gives `undefined` |
| `Client.FormParts` | client/src/components/ProductUploader.jsx:126-130 | four parts named name, description, price, image in order; a file part carrying the `File`'s name exactly where the field holds a `File`, otherwise its string form |
| `Client.ProductUploader.constructor` | client/src/components/ProductUploader.jsx:5-13 | empty form with a null image, empty list, not editing, no id under edit |
| `Client.ProductUploader.FetchProducts` | client/src/components/ProductUploader.jsx:15-31 | a fetched list replaces the state; a failed fetch changes nothing |
| `Client.ProductUploader.HandleInputChange` | client/src/components/ProductUploader.jsx:33-39 | only the named form field changes, to the typed text; list and edit state are unchanged |
| `Client.ProductUploader.HandleImageChange` | client/src/components/ProductUploader.jsx:41-46 | the form becomes `{...form, image}` with the first chosen file or `undefined`; nothing else changes |
| `Client.ProductUploader.HandleEdit` | client/src/components/ProductUploader.jsx:75-80 | for the id of a listed product (the only ids it is bound to, line 210): edit mode on, the id under edit is the given id, and the form holds the first entry with that `_id` |
| `Client.ProductUploader.HandleUpdate` | client/src/components/ProductUploader.jsx:48-73 | sends the form as a PUT for the id under edit; on success the list is `ReplaceById` with the reply, edit state is cleared and the form reset; on failure nothing changes |
| `Client.ProductUploader.HandleDelete` | client/src/components/ProductUploader.jsx:82-94 | on success the list is `RemoveById`; on failure nothing changes; form and edit state never change |
| `Client.ProductUploader.HandleSubmit` | client/src/components/ProductUploader.jsx:123-148 | edit mode sends the PUT and has `HandleUpdate`'s effects (list patched and form reset on success, nothing changed on failure); create mode posts the form's multipart parts and changes no state |
| `EndToEnd.HeaderRoundTrip` | client/src/components/ProductUploader.jsx:104 | parsing the header of server/app.js:106 yields the imagePath if it does not contain `filename=` |
| `EndToEnd.HeaderCutAtKey` | client/src/components/ProductUploader.jsx:104 | for an imagePath whose first `filename=` is at `m`, parsing the header yields the imagePath's first `m` characters |
| `EndToEnd.HeaderKeyBreaksRoundTrip` | client/src/components/ProductUploader.jsx:104 | if the imagePath contains `filename=`, parsing yields the text before its first occurrence, which differs from the imagePath |
| `EndToEnd.DownloadRoundTrip` | server/app.js:99-106 | a product with a non-empty text imagePath free of `filename=` is saved by the client under that name |
| `EndToEnd.StoredFilenameKey` | server/app.js:30 | a stored filename contains `filename=` only if its extension does |
| `EndToEnd.StoredFilenameRoundTrip` | server/app.js:30 | every upload whose extension lacks `filename=` downloads under its stored name |
| `EndToEnd.ExtnameWithKey` | server/app.js:30 | `a.filename=` has extension `.filename=` |
| `EndToEnd.DigitsDotKeyParse` | client/src/components/ProductUploader.jsx:104 | the header for `<digits>.filename=` is read back as `<digits>.` |
| `EndToEnd.KeyInExtensionBreaksRoundTrip` | client/src/components/ProductUploader.jsx:104 | a file uploaded as `a.filename=` downloads as `<now>.`, not its stored name |
| `EndToEnd.SubmitWithoutImageIsRejected` | server/app.js:50-52 | a create submission whose form image is not a `File` reaches the server without a file and gets 400 with the store unchanged |
| `EndToEnd.SubmitWithImageCreates` | server/app.js:54-68 | a create submission with a `File` stores a product holding the form's text fields and the stored filename of that file |
| `EndToEnd.EditedEntryLosesId` | client/src/components/ProductUploader.jsx:56-58 | after the PUT reply replaces the edited entry, no entry with the edited id is left in the list |

## Left out

- HTTP plumbing is not modelled: Express setup, CORS, JSON parsing, static `/uploads` serving and `listen`. Only statuses and JSON bodies are modelled.
- Database connection setup is not modelled, and neither are the documents a collection already holds when the server starts; `ProductStore` starts empty.
- Mongoose's casting to the schema's types is not modelled, for any of the four fields: `price` to `Number`, and `name`, `description` and `imagePath` to `String`. Stored values are the JavaScript values the request carried, and numbers are integers: floating point and NaN are out.
- `ProductApi.DownloadOutcome`: because the `String` cast is not modelled, a PATCH of `imagePath` to `0` or `false` stores `Num(0)` or `Bool(false)` and the model answers 404. The program stores the truthy text `"0"` or `"false"`, passes the guard at server/app.js:99, and sends the attachment (or 500 if no such file exists).
- `ProductApi.DownloadOutcome`: Node's `res.setHeader` (server/app.js:106) throws for a header character outside tab, 0x20-0x7E and 0x80-0xFF, and the handler's `catch` answers 500. The model answers `Attachment` for such an imagePath (for example one holding a newline or a character above 0xFF); `EndToEnd.DownloadRoundTrip` inherits this.
- `ProductApi.PutNeverClearsField` holds of uncast values only: the client sends the typed price as a string, so a PUT of `"0"` passes the `||` and, once cast to `Number`, stores price 0.
- Mongoose's strict schema mode, which drops unknown PATCH keys on save, is not modelled.
  PATCH is a key-wise overwrite of the fetched document.
  In the model every body key, known to the schema or not, is stored; under Mongoose's default strict mode the program would drop unknown keys on save.
  A body key `_id` is treated as an ordinary field; the id is the collection's map key and never changes.
- Mongoose includes the `__v` version key in a document's JSON; the model leaves that key out.
- The 500 replies for database, filesystem and multer failures are left out. This includes ids that are not valid ObjectIds, which Mongoose rejects.
  When multer refuses a request (`ReceiveSingle` gives `None`), the route is not reached; Express's error reply is not modelled.
- `ReceiveSingle`: a text field sent twice keeps its last value. Multer would collect the values into an array; the client never sends a field twice.
- `Date.now()` and the id the database assigns are parameters of `Create`. The id is required to be fresh, as ObjectIds are.
- File bytes are not modelled: multer's disk write and `res.download` streaming. `path.join` normalisation of the file path is not modelled either.
- Express's `res.download` (server/app.js:110) writes its own `Content-Disposition` header with a quoted filename, replacing the one set at line 106.
  That library behaviour is not part of this model. The round-trip lemmas are about the header text line 106 builds.
- The client's network calls are parameters: a reply, or `None` for a request that threw. Whether the browser exposes `Content-Disposition` to the script under CORS is not modelled.
- Client side effects are left out: the `localStorage` write, Blob and link creation and the click, JSX rendering, and console logging.
- `Client.ProductUploader.HandleEdit` requires the id to belong to a listed product, as the only call site (line 210) guarantees. The model therefore does not capture what an unlisted id would do: the form would become `undefined`, rendering would throw, and `handleSubmit` would throw at line 127 before sending any request.
- `===` between ids is modelled as value equality. Object identity matters only for ids that are objects, and ids never are.
- Concurrency is out: last-write-wins races between requests. The model is sequential.
- `ProductApi.ProductStore.List`: the listing order is not stated, because the database does not fix one.
