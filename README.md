# Lost & Found: the item core, modelled in Dafny

The Lost & Found platform is a small web application. People post items
they have lost or found. Other people list, search and filter those posts.
An owner can edit or delete their own posts.

This project models the heart of it:

- the backend item controller with all ten handlers;
- the item and user schemas: their validators, setters and defaults, the
  password re-hash on save, and the password comparison;
- the `protect` authentication middleware;
- the item router's public/protected split;
- the browser's "add item" page, with its form, image picker and submit
  handler;
- the browser's item service, with the URLs it requests and the
  `{success, data} | {success, message}` shape it returns.

Layout, module by module:

- `wrappers.dfy` (`Wrappers`): `Option` and `Result`.
- `documents.dfy` (`Documents`): object identifiers, validator failures,
  and Mongoose's validation-error message.
- `strings.dfy` (`Strings`): the JavaScript string primitives the sources
  use. These are white space as `\s` sees it, `trim`, ASCII lower-casing,
  `startsWith`, substring search, and `split` on one character.
- `item_schema.dfy` (`ItemSchema`): `Item.create` as a normaliser and
  validator, and the update validators of `findByIdAndUpdate`.
- `user_schema.dfy`:
  - `UserSchema`: the user paths, the unique email index and bcrypt as
    abstract functions;
  - `UserDocuments`: a user document as a class whose `Save` runs the
    validators and then the `pre('save')` hook.
- `item_queries.dfy` (`ItemQueries`): the collection and the seven read
  handlers. `getItemById` is a lookup by identifier. Each of the other six
  is a filter followed by a stable newest-first sort.
- `item_store.dfy` (`ItemStore`): the collection as an object whose
  document table and clock the three write handlers change in place.
- `auth_gate.dfy` (`AuthGate`): the middleware's decision as a function,
  and an `Exchange` object whose `Protect` method mirrors the middleware.
- `item_routes.dfy` (`ItemRoutes`): request routing, and the gated write.
- `add_item.dfy` (`AddItemForm`): the add-item page as an object.
- `item_service.dfy` (`ItemService`): the item service.

The boundaries are modelled as follows:

- The clock is part of the collection. `Date.now` and the next identifier
  are both taken from it.
- JWT verification is an arbitrary function from tokens to identifiers.
- bcrypt's hash and "salt of a hash" are arbitrary functions.
- The network outcome of a request is a parameter.
- The `FileReader` result is a parameter (`dataUrl`, `encode`).

## Model

| member | source | states |
|---|---|---|
| Strings.Trim | backend/models/Item.js:7 | the trimmed title is a slice of the input, only white space is cut off, and none is left at either end |
| Strings.TrimIdempotent | backend/models/Item.js:7 | trimming a trimmed value changes nothing, so a stored title is a fixed point of the setter |
| Strings.Lower | backend/models/Item.js:22 | lower-casing keeps the length and maps every character through ASCII lower-casing |
| Strings.LowerIdempotent | backend/models/User.js:15 | lower-casing a lower-cased value changes nothing |
| Strings.SplitJoin | backend/middleware/authMiddleware.js:13 | the pieces of `split(' ')`, joined with spaces, give the header back |
| Strings.SplitPiecesIff | backend/middleware/authMiddleware.js:13 | there is a second piece exactly when the separator occurs |
| Strings.ContainsAt | backend/controllers/itemController.js:169-174 | substring containment holds exactly when the query starts at some offset |
| ItemSchema.NoViolationsIffAcceptable | backend/models/Item.js:4-53 | no validator fails exactly when the trimmed title is non-empty, category and lower-cased status are in their enumerations, and the other required paths are filled |
| ItemSchema.Create | backend/models/Item.js:3-58 | a create succeeds iff the input is acceptable; the document then satisfies the schema, carries the trimmed title, the lower-cased status and every other given field, and `createdAt` defaults to now; otherwise the failures come in schema order |
| ItemSchema.UpperCaseStatusAccepted | backend/models/Item.js:18-23 | status `LOST` is accepted and stored as `lost` |
| ItemSchema.BlankTitleRejected | backend/models/Item.js:4-8 | a title of white space only fails the required check after trimming |
| ItemSchema.ApplyUpdate | backend/controllers/itemController.js:108-115 | with `runValidators` only the supplied paths are checked; a passing update overwrites exactly those fields, keeps the identifier, and keeps a valid document valid |
| ItemSchema.EmptyUpdateIsIdentity | backend/controllers/itemController.js:108-115 | an update body with no known field returns the document unchanged |
| UserSchema.LowerKeepsEmailShape | backend/models/User.js:15-16 | the `lowercase` setter neither makes nor breaks an address for the email pattern |
| UserSchema.UserViolationsIffUnacceptable | backend/models/User.js:6-27 | no user validator fails exactly when name is filled, email matches the pattern, the password has at least 6 characters and the phone has exactly 10 digits |
| UserSchema.ShortPasswordRejected | backend/models/User.js:18-22 | a password of 1 to 5 characters is refused with the minlength message |
| UserSchema.InsertUser | backend/models/User.js:14 | the unique index refuses an insert exactly when the identifier or the stored email is taken, and otherwise adds exactly that user |
| UserSchema.CaseVariantsCollide | backend/models/User.js:14-15 | two emails that differ only in letter case collide on the unique index |
| UserSchema.CompareAcceptsOwnHash | backend/models/User.js:46-48 | the password that produced a hash passes the comparison against it |
| UserDocuments.UserDocument.ComparePassword | backend/models/User.js:46-48 | a document without a password matches nothing, and a document holding the hash of the entered password under a recoverable salt matches it |
| UserSchema.CompareOnlyOnCollision | backend/models/User.js:46-48 | another password passes only if it hashes to the same value under that salt |
| UserDocuments.UserDocument.constructor | backend/models/User.js:6-17 | a new document holds the trimmed name, the lower-cased email and the creation instant, and a given password counts as modified |
| UserDocuments.UserDocument.Save | backend/models/User.js:35-42 | the validators run on the plain text; on success the password is replaced by its hash exactly when it was modified, and the new hash then passes `comparePassword` |
| ItemQueries.GetAllItems | backend/controllers/itemController.js:6-13 | the full listing is newest first and holds every stored document exactly once |
| ItemQueries.FindCount | backend/controllers/itemController.js:8 | a document occurs in a listing once if it is stored and satisfies the criterion, and never otherwise |
| ItemQueries.FindSpec | backend/controllers/itemController.js:8 | every listing is newest first and holds exactly the matching stored documents, each once |
| ItemQueries.InsertNewestSorted | backend/controllers/itemController.js:8 | inserting into a newest-first list keeps it newest first |
| ItemQueries.SortNewestSorted | backend/controllers/itemController.js:8 | `sort('-createdAt')` yields a newest-first list |
| ItemQueries.SelectSort | backend/controllers/itemController.js:8 | filtering and then sorting gives the same list as sorting and then filtering |
| ItemQueries.FindIsSelectOfAll | backend/controllers/itemController.js:20 | every listing is the full listing filtered by its criterion, in the same order |
| ItemQueries.GetLostItems | backend/controllers/itemController.js:18-25 | the lost listing is the full listing restricted to status `lost` |
| ItemQueries.GetFoundItems | backend/controllers/itemController.js:30-37 | the found listing is the full listing restricted to status `found` |
| ItemQueries.LostAndFoundPartitionAll | backend/controllers/itemController.js:20 | with a valid store, the lost and found listings together are as long as the full listing |
| ItemQueries.GetItemById | backend/controllers/itemController.js:44-50 | 404 with "Item not found" exactly when nothing is stored under the identifier, otherwise that document |
| ItemQueries.GetMyItems | backend/controllers/itemController.js:149-156 | the listing is the full listing restricted to the caller's documents: each of them once, newest first; a `null` caller makes the handler throw (500) |
| ItemQueries.SearchItems | backend/controllers/itemController.js:161-180 | an absent or empty query answers 400; otherwise exactly the documents whose title or description contains the query, ignoring case |
| ItemQueries.SearchFindsTitle | backend/controllers/itemController.js:171 | a run of the title equal to the query up to letter case makes the document match |
| ItemQueries.SearchFindsDescription | backend/controllers/itemController.js:172 | a run of the description equal to the query up to letter case makes the document match |
| ItemQueries.FilterItems | backend/controllers/itemController.js:185-198 | a truthy parameter restricts its field and a missing one is a wildcard; the status value goes through the `lowercase` setter first; the answer is the full listing restricted by those criteria, newest first, each document once; with neither, the answer is the full listing |
| ItemQueries.StatusFilterIgnoresCase | backend/controllers/itemController.js:191 | any status parameter that lower-cases to `lost` lists exactly what the lost listing lists |
| ItemQueries.UpperCaseLostFilter | backend/models/Item.js:18-23 | `status=LOST` lists the lost documents |
| ItemStore.Insert | backend/controllers/itemController.js:71-83 | a create stores the document under the next identifier, moves the clock on, and touches no other entry |
| ItemStore.Replace | backend/controllers/itemController.js:108-115 | an update replaces exactly one entry |
| ItemStore.Remove | backend/controllers/itemController.js:139 | a delete drops exactly one entry |
| ItemStore.ListingAfterInsert | backend/controllers/itemController.js:71-85 | after a create, each listing gains the new document exactly when it matches, and loses nothing |
| ItemStore.ListingAfterReplace | backend/controllers/itemController.js:108-117 | after an update, each listing holds the new version if it matches, and otherwise what it held apart from the old version |
| ItemStore.ListingAfterRemove | backend/controllers/itemController.js:139-140 | after a delete, each listing holds what it held apart from that document |
| ItemStore.CreateInput | backend/controllers/itemController.js:71-83 | the owner is the caller, `image` becomes `null` unless truthy, and `createdAt` is not taken from the body |
| ItemStore.ItemStore.CreateItem | backend/controllers/itemController.js:59-89 | 400 without the nine fields; 500 for a null caller or a schema refusal, with nothing stored; otherwise 201 with the caller as owner, and the document stored, findable and the only change (the whole outcome is `CreateOutcome`) |
| ItemStore.ItemStore.UpdateItem | backend/controllers/itemController.js:94-121 | 404, then 500 for a null caller, then 403 for a non-owner, then 500 for a failed update validator, each leaving the store alone; otherwise exactly that entry is replaced and returned (the whole outcome is `UpdateOutcome`) |
| ItemStore.ItemStore.DeleteItem | backend/controllers/itemController.js:126-144 | the same checks in the same order as update; then exactly that entry is removed and is no longer found (the whole outcome is `DeleteOutcome`) |
| ItemStore.CreateAcceptedIff | backend/controllers/itemController.js:65-83 | once the nine fields are there, a create succeeds exactly when the trimmed title is non-empty, the category is allowed and the lower-cased status is allowed |
| AuthGate.Decide | backend/middleware/authMiddleware.js:10-31 | "no token" exactly when the header is missing or lacks the prefix; the request passes exactly when the token is truthy and verifies, and `req.user` is then the lookup of the decoded identifier; otherwise "token failed" |
| AuthGate.Verify | backend/middleware/authMiddleware.js:16 | a missing or empty token never verifies, and a decoded identifier is the one the verifier gives for that token |
| AuthGate.TokenOf | backend/middleware/authMiddleware.js:13 | there is a token exactly when the header holds a space |
| AuthGate.Lookup | backend/middleware/authMiddleware.js:19 | the user is found exactly when stored, and comes back without the password |
| AuthGate.WithoutBearerNoToken | backend/middleware/authMiddleware.js:10-31 | a missing header, or one not starting with `Bearer`, gets "no token" |
| AuthGate.BearerTokenAuthenticates | backend/middleware/authMiddleware.js:10-21 | `Bearer <t>` with a verifying token lets the request through with the user stored under the decoded identifier |
| AuthGate.LaterPiecesIgnored | backend/middleware/authMiddleware.js:13 | anything after a further space is ignored |
| AuthGate.PrefixWithoutSpaceFails | backend/middleware/authMiddleware.js:10-25 | a header with the prefix but no space has an undefined token, so it gets "token failed" |
| AuthGate.BareBearerFails | backend/middleware/authMiddleware.js:10-25 | `Bearer` and `BearerX` get "token failed" |
| AuthGate.EmptyTokenFails | backend/middleware/authMiddleware.js:13-16 | a double space gives the empty token, which fails whatever the verifier says |
| AuthGate.MissingUserStillPasses | backend/middleware/authMiddleware.js:19-21 | a verified token whose identifier has no stored user passes, with `req.user` null |
| AuthGate.Exchange.Protect | backend/middleware/authMiddleware.js:4-31 | exactly one of `next` or a 401 response happens, as the decision says, and `req.user` is set only on success |
| ItemRoutes.Resolve | backend/routes/itemRoutes.js:2-34 | with one trailing slash optional and fixed segments matched up to letter case: nothing deeper than the owner's listing is routed; POST reaches only the collection, PUT and DELETE only `/:id` with a non-empty segment; an identifier route is a GET on one segment that is not a fixed one in any case; the owner's listing and the full listing are reached by GET on exactly their paths |
| ItemRoutes.ProtectedExactly | backend/routes/itemRoutes.js:18-34 | every write is protected, and of the reads only the owner's listing is |
| ItemRoutes.OneSegmentRoutes | backend/routes/itemRoutes.js:18-23 | the fixed segments win over `/:id` whatever the case of their letters, any other non-empty single segment is an identifier, and a trailing slash changes nothing |
| ItemRoutes.IdSegmentRoutes | backend/routes/itemRoutes.js:23-34 | a non-empty segment that is no fixed one is the identifier for GET, PUT and DELETE |
| ItemRoutes.MyItemsSegmentIsAnId | backend/routes/itemRoutes.js:23 | `/my-items` is looked up as an identifier |
| ItemRoutes.LostVariants | backend/routes/itemRoutes.js:19 | `/LOST` and `/lost/` reach `getLostItems` |
| ItemRoutes.OwnerListSegments | backend/routes/itemRoutes.js:32 | two segments that spell `user/my-items` up to case reach `getMyItems` |
| ItemRoutes.OwnerListPath | backend/routes/itemRoutes.js:32 | `/user/my-items` reaches `getMyItems` |
| ItemRoutes.MixedCaseOwnerList | backend/routes/itemRoutes.js:32 | `/User/My-Items` reaches `getMyItems` |
| ItemRoutes.MyItemsThroughGate | backend/routes/itemRoutes.js:32 | the owner's listing answers 401 as the gate decides, and otherwise `getMyItems` for the gate's user |
| ItemRoutes.MyItemsAreTheTokenOwners | backend/controllers/itemController.js:151 | whoever presents a token for a stored user sees exactly that user's documents |
| ItemRoutes.ItemApi.Write | backend/routes/itemRoutes.js:31-34 | a 401 leaves the store alone; once the gate lets the request through, the answer and the new store are exactly the handler's (`CreateOutcome`, `UpdateOutcome`, `DeleteOutcome`) for the gate's `req.user`; any change needs an authenticated, stored user; every entry but the one written is kept; the clock moves only when something is stored |
| AddItemForm.InitialForm | frontend/src/pages/AddItem.js:6-16 | the form starts with the nine fields, status `lost` and the rest empty |
| AddItemForm.HandleChange | frontend/src/pages/AddItem.js:25-30 | a change sets that one field and keeps every other |
| AddItemForm.CompleteFieldByField | frontend/src/pages/AddItem.js:75-84 | the completeness check is the eight-field test the handler writes out |
| AddItemForm.InitialFormIncomplete | frontend/src/pages/AddItem.js:6-16 | the untouched form cannot be sent |
| AddItemForm.StatusNotChecked | frontend/src/pages/AddItem.js:75-84 | an empty status does not hold the form back |
| AddItemForm.ClearingRequiredBlocks | frontend/src/pages/AddItem.js:75-84 | clearing any required field holds the form back |
| AddItemForm.ImageCheck | frontend/src/pages/AddItem.js:46-54 | a file is accepted exactly when it is at most 5 MiB and its type starts with `image/` |
| AddItemForm.ExactLimitAccepted | frontend/src/pages/AddItem.js:46 | a file of exactly 5 MiB passes the size test |
| AddItemForm.SizeCheckedFirst | frontend/src/pages/AddItem.js:46-49 | an oversized file is refused for its size, whatever its type |
| AddItemForm.TypeCheckedSecond | frontend/src/pages/AddItem.js:51-54 | a small file that is not an image is refused for its type |
| AddItemForm.Payload | frontend/src/pages/AddItem.js:91-95 | the body is the form, plus `image` only when a file is selected |
| AddItemForm.AddItemPage.Change | frontend/src/pages/AddItem.js:25-30 | the form becomes the changed form and nothing else changes |
| AddItemForm.AddItemPage.HandleImageChange | frontend/src/pages/AddItem.js:42-63 | no file changes nothing; a refused file sets the error and keeps the image; an accepted file becomes the image and its data URL the preview |
| AddItemForm.AddItemPage.HandleRemoveImage | frontend/src/pages/AddItem.js:65-68 | image and preview are cleared and nothing else changes |
| AddItemForm.AddItemPage.HandleSubmit | frontend/src/pages/AddItem.js:70-106 | an incomplete form sets the missing-fields error and sends nothing; otherwise the payload is posted once; success moves to `/my-items` and a refusal shows the server's message or the fallback; loading always ends false |
| ItemService.HexRoundTrip | frontend/src/services/itemService.js:134 | a hex digit reads back as its value |
| ItemService.DecodePlain | frontend/src/services/itemService.js:148-152 | a value without `%`, `&`, `=`, `+` or `#` reaches the server as written |
| ItemService.Encode | frontend/src/services/itemService.js:134 | an encoded value holds no `&`, `=` or `#` |
| ItemService.DecodeEncode | frontend/src/services/itemService.js:134 | the server's decoding undoes the encoding |
| ItemService.ParseKeyValue | frontend/src/services/itemService.js:151-152 | a `key=value` piece with a plain key reads back as that key and the decoded value |
| ItemService.FilterUrl | frontend/src/services/itemService.js:150-152 | the URL built by successive appends is the filter target |
| ItemService.FilterUrlWithoutCriteria | frontend/src/services/itemService.js:150-152 | with neither criterion the URL is `/items/filter?` |
| ItemService.FilterUrlCategoryOnly | frontend/src/services/itemService.js:151 | with a category only, the URL ends in a dangling `&` |
| ItemService.FilterPieces | frontend/src/services/itemService.js:150-152 | the server splits the filter query into the category piece, if any, and the status piece or an empty piece |
| ItemService.FilterLookup | frontend/src/services/itemService.js:150-152 | looking up `category` and `status` in those pieces gives back exactly the truthy criteria |
| ItemService.FilterRoundTrip | frontend/src/services/itemService.js:148-154 | for plain values the server reads back the given criteria, so it builds the same filter as the client was given |
| ItemService.SearchUrl | frontend/src/services/itemService.js:134 | the search wrapper's URL reaches the `search` route, and for a query without `#`, which would start the fragment, its query string is `q=` followed by the typed text unencoded |
| ItemService.SearchCutAtAmpersand | frontend/src/services/itemService.js:134 | as written, a query holding `&` reaches the server cut short at it |
| ItemService.SaltAndPepper | frontend/src/services/itemService.js:134 | as written, `salt & pepper` reaches the server as `salt ` |
| ItemService.SearchRoundTrip | frontend/src/services/itemService.js:134 | with the query encoded, the server reads back every query as typed |
| ItemService.Request | frontend/src/services/itemService.js:6-154 | create sends POST, update PUT, delete DELETE, and every other wrapper GET |
| ItemService.Fallback | frontend/src/services/itemService.js:4-165 | every wrapper has a non-empty fallback message |
| ItemService.Wrap | frontend/src/services/itemService.js:4-17 | success exactly when the request was answered, with its data; otherwise the server's message if truthy, else the wrapper's fallback |
| ItemService.ItemsPath | frontend/src/services/itemService.js:54 | `/items/<rest>` reaches the router with the segments of `rest` |
| ItemService.AllItemsReachesList | frontend/src/services/itemService.js:6 | the list wrapper reaches `getAllItems` |
| ItemService.MyItemsReachesOwnerList | frontend/src/services/itemService.js:118 | the owner's-listing wrapper reaches the protected `getMyItems` route |
| ItemService.IdCallsReachTheirHandlers | frontend/src/services/itemService.js:52-113 | with the verb each wrapper sends, the read, update and delete wrappers reach the handlers on `/:id` for any identifier that is no fixed segment in any letter case |
| ItemService.CreateCallReachesCreate | frontend/src/services/itemService.js:70 | the create wrapper's POST to `/items` reaches `createItem` |

## Left out

- I/O of every kind: the HTTP server, axios, MongoDB, `localStorage` and
  `alert`. Store failures (the generic 500 of each `catch`) are not
  modelled, apart from the validation errors and the null-user `TypeError`
  named in the table.
- `populate('userId', 'name email phone')`: the listings return the stored
  documents with the owner as an identifier. Joining the owner's public
  fields is not modelled.
- Date handling: `date` is kept as the text sent. A value that cannot be
  cast to a `Date` is not modelled. `createdAt` is a natural number from
  the clock.
- Identifier casting: `findById` on a string that is not an ObjectId
  throws a cast error (500). The model takes identifiers as numbers. The
  router keeps `:id` as text.
- ItemQueries.SearchItems: the query is matched as a literal substring.
  The source passes it to `$regex`, so regular-expression metacharacters
  are not modelled.
- Strings.Lower: only ASCII letters are case-folded. This applies to the
  `i` option of the search, to `lowercase: true`, and to the unique email
  index.
- ItemQueries.FilterItems: query casting is modelled only as the
  `lowercase` setter on `status`, so `status=LOST` lists the lost
  documents. A repeated key, which the server reads as an array, is not
  modelled. Neither is a category that matches only after some other
  casting.
- ItemQueries.SortNewest: MongoDB returns documents with equal `createdAt`
  in no fixed order. The model breaks such ties by identifier. Ties can
  occur, because `Date.now` counts milliseconds and `updateItem` applies
  any `createdAt` in the body. The exact list equalities are therefore
  claims about the model's tie-break: GetLostItems, GetFoundItems,
  FindIsSelectOfAll, GetMyItems, SearchItems and FilterItems as the full
  listing restricted, and SelectSort. What holds whatever the tie order is
  what FindSpec states: each matching document once, newest first.
- UserDocuments.UserDocument.ComparePassword: for a document without a
  password, `bcrypt.compare(entered, undefined)` rejects with an
  "Illegal arguments" error. It does not answer false. The model answers
  false.
- ItemRoutes.Resolve: the mount path `/api/items` is taken as already
  matched. Percent-decoding of `:id` is not modelled.
- ItemService.Decode: `%XX` is decoded to one character. Malformed escapes
  stay as written, and multi-byte UTF-8 sequences are not modelled.
- ItemService.Encode: only the characters the query parser treats
  specially are encoded. The rest of `encodeURIComponent` does not change
  what the server reads back.
- The base64 encoding in `toBase64`, and the `FileReader` preview: these
  are the `encode` and `dataUrl` parameters.
- JSON values that are not strings in request bodies, such as a number
  for `title`.
- Concurrency: every handler runs to completion on its own.
- The authentication controller and routes, and the other pages and
  components.
- `Item.create` throws inside the `try` of `createItem`, so a schema
  refusal answers 500, not 400.
- Strings are sequences of Unicode code points. JavaScript's `length`
  counts UTF-16 code units, so a character outside the Basic Multilingual
  Plane counts 2 there and 1 here. `minlength: 6` on the password, and
  every other length test, is therefore modelled on code points. For
  example, a password of three emoji passes in JavaScript but is refused
  by the model.

## Findings

| source | as written | input that shows it | evidently intended | confidence | as-written member | corrected member |
|---|---|---|---|---|---|---|
| frontend/src/services/itemService.js:134 | the search query is put into the URL without encoding | the query `salt & pepper` reaches the server as `q = "salt "` | the server receives the query as typed, as with `encodeURIComponent(query)` | not executed | ItemService.SaltAndPepper | ItemService.SearchRoundTrip |
