# Tour guide editor: a verified model of its core

This project models the core of the tour guide editor, a Go web application. Authors use it to build guided tours: a tour is a graph of nodes (stops with a location, narrative, media files and optional entry and exit conditions) joined by edges.

The model covers:

- the tour data model and the validation rules its struct tags declare, including the project's own `required_if` rule;
- node lookup and the default node;
- the tour service, which stores tours per session and per ID and edits a tour's nodes and edges in place;
- the editor's form-to-node mapping;
- the media ingestion pipeline: size check, MIME allow-list, image normalisation, SHA-256 content hash, date-partitioned object key, one upload to object storage;
- the authentication and session middleware, and middleware chaining;
- the credential check and token claims of the auth service.

Each Go file is one Dafny module:

| file | module | Go source |
|---|---|---|
| `wrappers.dfy` | `Wrappers` | `Option` and `Result` |
| `text.dfy` | `Text` | `strings.HasPrefix`, `strings.Split`, `%d`, `strconv.Atoi`, Go's truncating `%` |
| `encoding.dfy` | `Encoding` | `hex.EncodeToString`; padded base64url (section 5 of RFC 4648) |
| `filepath.dfy` | `FilePath` | `filepath.Ext`, `filepath.Base` |
| `validators.dfy` | `Validators` | internal/validators/validators.go |
| `models.dfy` | `Models` | internal/models/tour.go, internal/models/node.go |
| `tour_service.dfy` | `TourServices` | internal/services/services.go |
| `media_service.dfy` | `MediaServices` | internal/services/media_service.go |
| `editor_handler.dfy` | `EditorForms` | internal/handlers/editor_handler.go |
| `http.dfy` | `Http` | the parts of net/http that the middleware uses |
| `auth_middleware.dfy` | `AuthMiddleware` | internal/middleware/auth.go |
| `middleware.dfy` | `Middleware` | internal/middleware/middleware.go |
| `auth_service.dfy` | `AuthServices` | internal/services/auth_service.go |

## How the model is shaped

- **Shared mutable state is a class.**
  - A `Tour` is shared by pointer and edited in place, so it is a class with `var` fields. `SaveNode` and `DeleteNode` state its new node and edge lists in terms of the old ones.
  - The tour service keeps its two stores (session → tour, ID → tour) as `map` fields.
  - The storage client logs every `PutObject` it receives.
  - An `Exchange` records what a handler does to the response: cookies set, redirects, and the requests handed on to `next`.
- **Value-like data is a datatype.** Nodes, edges, media files and conditions are datatypes, because a tour holds its nodes by value in a slice.
- **Nil and empty slices are kept apart** with `Slice<T> = Nil | Made(items)`. The validator's `required` rejects a nil slice but accepts an empty one.
- **Go's validator library is spelled out:**
  - `required` on an int rejects 0.
  - `required` on a `time.Time` rejects the zero time.
  - `required` on a non-pointer struct (Location, Author) is skipped.
  - `omitempty`, `oneof`, `min`, `gtfield`, `nefield` and `dive` check what their tags say.
  - The checks whose definitions are outside this model (`url`, `latitude`, `longitude`) are parameters.
- **Foreign code, the clock and randomness are parameters:**
  - MIME sniffing, image size and embed-resize, SHA-256, `strconv.ParseFloat`
  - JWT verification and signing
  - the HEAD and GET responses, the temporary file, the storage backend's answer
  - `time.Now` (as Unix nanoseconds or a formatted date) and the bytes from `crypto/rand`

Where the project's own tests or comments suggest other behaviour than the code has, the model follows the code:

- internal/middleware/auth_test.go:33 expects 401 for a request without a token. `RequireAuth` answers 303 with a redirect to /login (auth.go:29-32), and so does the model.
- `ProcessAndUpload` asks `checkFileExists` whether the hash is already stored (media_service.go:85-97). That function is a stub that always answers "not stored" (media_service.go:226-229), so identical content is uploaded again every time (`OneUploadPerAcceptedPayload`).
- `ProcessURL` names the upload with `filepath.Base` of the whole URL string, not of its parsed path (media_service.go:151), so a query string ends up in the object key's extension (`UrlKeyExtension` states the case without one).
- The media code has no error kinds: it wraps each failure with `fmt.Errorf` and a message naming its stage (media_service.go:53-111, 212-221). `MediaError` models those wrappers, including the doubled "uploading to S3" around a failed put.

## Model

| member | source | states |
|---|---|---|
| Text.TruncRem | internal/models/node.go:9 | Go's `%` keeps the dividend's sign: the remainder lies in [0, m) for a non-negative dividend and in (-m, 0] for a negative one |
| Text.TruncRemCongruent | internal/models/node.go:9 | the truncated remainder differs from the dividend by a multiple of the divisor |
| Text.Atoi | internal/handlers/editor_handler.go:76-78 | strconv.Atoi returns an int64. When it reports an error, the value is 0 or the nearest int64 bound. It succeeds only on a string starting with a digit or a sign |
| Text.AtoiOfIntToString | internal/handlers/editor_handler.go:76 | Atoi reads back every int64 that `%d` prints, so a form field written from a node ID parses to that ID |
| Text.NatToStringInjective | internal/handlers/editor_handler.go:93 | distinct indices print as distinct decimal strings |
| Text.Split | internal/middleware/auth.go:77 | strings.Split yields one more piece than there are separators, and no piece contains the separator |
| Text.JoinSplit | internal/middleware/auth.go:77 | joining the pieces of strings.Split with the separator gives the input back |
| Text.SplitAtOnlySeparator | internal/middleware/auth.go:77-78 | a string with exactly one separator splits into its two sides |
| Encoding.HexRoundTrip | internal/services/media_service.go:79 | decoding the lowercase hex encoding of a digest gives the digest back |
| Encoding.HexEncode | internal/services/media_service.go:79 | hex.EncodeToString: two lowercase hex digits per byte, high nibble first, so a 32-byte digest gives 64 characters |
| Encoding.HexEncodeInjective | internal/services/media_service.go:78-79 | distinct digests have distinct hex strings |
| Encoding.Base64UrlEncode | internal/middleware/middleware.go:44 | the padded base64url encoding of n bytes has 4·⌈n/3⌉ characters, all from the URL-safe alphabet or '=' |
| Encoding.Base64UrlRoundTrip | internal/middleware/middleware.go:44 | decoding the padded base64url encoding of any byte string gives it back |
| FilePath.Ext | internal/services/media_service.go:82 | filepath.Ext is "" or starts with the last '.', holds no '/' and is a suffix of the path |
| FilePath.ExtOfStemAndExtension | internal/services/media_service.go:82 | a filename `stem.ext` with a dot-free, slash-free `ext` has extension `.ext` |
| FilePath.ExtWithoutDot | internal/services/media_service.go:82 | a path with no '.' after its last '/' has no extension |
| FilePath.Base | internal/services/media_service.go:151 | filepath.Base is never empty: "/" or a single element without separators |
| FilePath.BaseOfDirAndName | internal/services/media_service.go:151 | the base of `dir/name` is `name` |
| Validators.RequiredIf | internal/validators/validators.go:18-38 | An empty param passes. So does a param that names no field, and a sibling whose value is not "quiz". When the sibling is "quiz", the rule passes exactly when the field is a []string of at least 2 elements, and panics exactly when the field is not a []string |
| Models.ConditionFields | internal/models/tour.go:50-58 | the struct that `required_if` inspects has exactly the seven Condition field names |
| Models.ConditionRules | internal/models/tour.go:50-58 | A Condition is valid exactly when: its type is quiz, q&a or puzzle; its question and correct answer are non-empty; it has at least two options; and its media link is empty or a URL. The `required_if` params name no field, so they never bind |
| Models.TourRules | internal/models/tour.go:8-20 | In a valid tour, the end date is after the start date and the price is positive. Every node has a non-zero ID and valid media. No edge starts and ends at the same node |
| Models.RequiredUrl | internal/models/tour.go:15 | `required,url` on a string: non-empty and accepted by the URL check |
| Models.ValidAuthor | internal/models/tour.go:22-25 | Author: a non-empty name and a `required,url` profile link |
| Models.ValidLocation | internal/models/tour.go:38-41 | Location: latitude and longitude both non-zero (`required` rejects 0.0) and accepted by the latitude and longitude checks |
| Models.ValidMediaFile | internal/models/tour.go:43-48 | MediaFile: type one of image, audio or video; a `required,url` URI; a send delay of at least 0; the narrative unconstrained |
| Models.ValidCondition | internal/models/tour.go:50-58 | Condition: type one of quiz, q&a or puzzle; non-empty question and correct answer; Options passing the custom `required_if` and `min=2`; MediaLink empty, or passing `required_if` and `url` |
| Models.OptionalConditionValid | internal/models/tour.go:34-35 | a `*Condition` tagged `omitempty`: nil passes, otherwise the condition must be valid |
| Models.ValidNode | internal/models/tour.go:27-36 | Node: non-zero ID; valid location; non-empty short description and narrative; audio narrative empty or a URL; every media file valid (`dive`); each condition nil or valid |
| Models.ValidEdge | internal/models/tour.go:60-67 | Edge: non-zero From; non-zero To different from From (`nefield=From`); every media file valid; the condition nil or valid |
| Models.ValidNodes | internal/models/tour.go:18 | Nodes `required,dive`: a non-nil slice whose every node is valid; an empty made slice passes |
| Models.ValidEdges | internal/models/tour.go:19 | Edges `required,dive`: a non-nil slice whose every edge is valid; an empty made slice passes |
| Models.Tour.HeaderValid | internal/models/tour.go:8-17 | non-empty ID, name, description and version; both dates non-zero with the end after the start; a `required,url` hero image; a valid author; a price that is non-zero and at least 0 |
| Models.Tour.Valid | internal/models/tour.go:8-19 | validator.Struct on a Tour: the header rules, then the node and edge lists |
| Models.FindNode | internal/models/node.go:30-37 | None exactly when no node has the ID; otherwise the index of the first node that does |
| Models.Tour.GetNode | internal/models/node.go:30-37 | the loop returns the first index holding the ID, or None when there is none, as FindNode specifies |
| Models.NewNode | internal/models/node.go:7-28 | The ID is the clock reading modulo 10000 with Go's sign rule, so it lies in [-9999, 9999]. The location is (0, 0), there are no media files, and both conditions are "q&a", non-strict, with no options or hints |
| Models.NewNodeIsIncomplete | internal/models/node.go:7-28 | a fresh node never passes node validation, and neither does its default condition |
| TourServices.KeepEdges | internal/services/services.go:124-129 | the kept edges are never more than the edges given |
| TourServices.Upsert | internal/services/services.go:97-109 | SaveNode's edit: the first node with the same ID is overwritten at its index; without one the node is appended, which makes a nil list non-nil |
| TourServices.RemoveFirst | internal/services/services.go:115-121 | DeleteNode's node edit: the first node with the ID is spliced out; without one the list is left as it was |
| TourServices.EdgesAfterDelete | internal/services/services.go:123-130 | the edge list the code stores: the surviving edges in order, and nil (not an empty slice) when none survives |
| TourServices.EdgesAfterDeleteIntended | internal/services/services.go:123-130 | the corrected edge list: the surviving edges in order, as a non-nil slice even when none survives |
| TourServices.UpsertShape | internal/services/services.go:97-109 | the first node with the ID is overwritten at its index and every other position is kept; without one, the node is appended |
| TourServices.UpsertThenFind | internal/services/services.go:97-109 | after saving a node, looking up its ID finds it |
| TourServices.UpsertIdempotent | internal/services/services.go:97-109 | saving the same node twice leaves the node list as saving it once |
| TourServices.UpsertKeepsNodesValid | internal/services/services.go:97-109 | saving a valid node into a valid node list keeps it valid |
| TourServices.RemoveFirstShape | internal/services/services.go:116-121 | exactly the first node with the ID is removed and the rest keep their order; without one the list is unchanged |
| TourServices.RemoveFirstRemovesUniqueId | internal/services/services.go:116-121 | when IDs are unique, the deleted ID is no longer found |
| TourServices.RemoveFirstKeepsNodesValid | internal/services/services.go:116-121 | removing a node keeps a valid node list valid |
| TourServices.KeepEdgesAppend | internal/services/services.go:125-129 | filtering edges distributes over concatenation, which is what the appending loop relies on |
| TourServices.KeepEdgesMembership | internal/services/services.go:126 | an edge survives exactly when it was present and touches neither end at the deleted node |
| TourServices.KeepEdgesIdempotent | internal/services/services.go:123-130 | deleting the same node's edges again removes nothing more |
| TourServices.KeepEdgesKeepsValidity | internal/services/services.go:123-130 | surviving edges stay valid |
| TourServices.DeleteNodeNilsEdges | internal/services/services.go:124-130 | as written, when no edge survives the edge list is nil, and the tour then fails `required` on Edges |
| TourServices.DeleteNodeOnEdgeFreeTour | internal/services/services.go:124-130 | a valid, empty edge list becomes nil on every delete |
| TourServices.DeleteNodeIntendedKeepsValidity | internal/services/services.go:114-133 | with the intended edge list, deleting a node keeps valid node and edge lists valid |
| TourServices.TourService.constructor | internal/services/services.go:17-36 | both stores start empty |
| TourServices.TourService.GetCurrentTour | internal/services/services.go:38-44 | the tour last saved for the session, or nil |
| TourServices.TourService.SaveTour | internal/services/services.go:54-64 | a valid tour becomes the session's active tour and is stored under its ID; an invalid tour is refused and neither store changes |
| TourServices.TourService.SaveNode | internal/services/services.go:92-112 | An invalid node is refused and nothing changes. Otherwise the node list is edited in place as Upsert says and the tour is saved. Every other field of the tour (ID, name, description, dates, version, hero image, author, price, edges) is kept |
| TourServices.TourService.DeleteNode | internal/services/services.go:114-133 | The node list becomes RemoveFirst of the old one, and the edge list becomes the surviving edges in order (the corrected list, see Findings). Every header field (ID, name, description, dates, version, hero image, author, price) is kept. A valid tour stays valid, so it is saved; otherwise SaveTour's outcomes apply |
| MediaServices.CheckFileExists | internal/services/media_service.go:226-229 | the existence check never reports a stored object |
| MediaServices.ProcessImage | internal/services/media_service.go:171-196 | an unreadable size is a "getting image size" error; an image wider or taller than the configured box is embed-resized to it, and a resize failure is a "processing image" error; any other image is returned as it came |
| MediaServices.ProcessMedia | internal/services/media_service.go:158-169 | `image/` types go through ProcessImage; `audio/`, `video/` and every other type are returned unchanged |
| MediaServices.StorageKey | internal/services/media_service.go:82-83 | the object key is `date/hash` followed by filepath.Ext of the uploaded filename |
| MediaServices.ObjectUrl | internal/services/media_service.go:223 | the public URL is `https://<bucket>.s3.amazonaws.com/<key>` |
| MediaServices.Ingest | internal/services/media_service.go:53-111 | ProcessAndUpload step by step: read error, size limit, MIME allow-list, processing, SHA-256 hex, key, existence check, then one put whose failure is wrapped and whose success gives the object URL |
| MediaServices.CheckHead | internal/services/media_service.go:231-253 | ValidateURL's decision in order: the HEAD request fails, the status is not 200, the Content-Type is not allowed, or the length is over the maximum; otherwise no error |
| MediaServices.IngestUrl | internal/services/media_service.go:113-156 | ProcessURL step by step: the HEAD check, the GET and its body, the size limit, the temporary file, then Ingest under filepath.Base of the URL |
| MediaServices.DatePath | internal/services/media_service.go:83 | the date prefix is `yyyy/mm/dd`: 10 characters with slashes at 4 and 7, whose digit groups read back as the year, the month and the day |
| MediaServices.DatePathInjective | internal/services/media_service.go:83 | distinct dates give distinct date prefixes, so objects from different days never share a key |
| MediaServices.S3Client.PutObject | internal/mocks/s3_client.go:11-13 | every put is logged; the backend's answer is returned |
| MediaServices.MediaService.IsAllowedFormat | internal/services/media_service.go:255-262 | true exactly when some allowed format is a prefix of the MIME type |
| MediaServices.AllowedFormat | internal/services/media_service.go:255-262 | a MIME type is allowed when some configured format is a prefix of it |
| MediaServices.MediaService.UploadToS3 | internal/services/media_service.go:210-224 | exactly one put of (bucket, key, bytes, type); on success the object's public URL, on failure the backend's error |
| MediaServices.MediaService.ProcessAndUpload | internal/services/media_service.go:53-111 | The result and the puts issued are those of Ingest: read, size check, allow-list, processing, hash, key, existence check, upload, in that order |
| MediaServices.MediaService.ValidateURL | internal/services/media_service.go:231-253 | the HEAD check is CheckHead: transport failure, then status 200, then allowed type, then length |
| MediaServices.MediaService.ProcessURL | internal/services/media_service.go:113-156 | The result and the puts issued are those of IngestUrl. The URL is validated, then downloaded and spooled to a temporary file, then ingested under filepath.Base of the URL |
| MediaServices.SizeCheck | internal/services/media_service.go:61-63 | a payload over the limit is refused with its size and nothing is uploaded; one of exactly the limit passes the size check |
| MediaServices.DisallowedTypeNeverUploaded | internal/services/media_service.go:66-69 | a sniffed type outside the allow-list is refused, whatever the filename, and nothing is uploaded |
| MediaServices.EmptyAllowListRejectsAll | internal/services/media_service.go:255-262 | an empty allow-list rejects every type |
| MediaServices.NonImagesPassThrough | internal/services/media_service.go:158-169 | every non-image type, audio and video included, passes through byte for byte |
| MediaServices.ImageRules | internal/services/media_service.go:171-196 | an image within the bounding box is returned unchanged; an image whose size cannot be read is an error |
| MediaServices.SuccessDescriptor | internal/services/media_service.go:77-110 | A success reports the lowercase 64-character hex SHA-256 of the processed bytes, their length and the sniffed type. Its URL is that of the one object put under `date/hash+ext` |
| MediaServices.OneUploadPerAcceptedPayload | internal/services/media_service.go:85-110 | Exactly one put happens iff the payload passes the size, type and processing steps. A failed put gives an error and no descriptor |
| MediaServices.KeyDeterminesDigest | internal/services/media_service.go:78-83 | on the same day, equal object keys mean equal digests |
| MediaServices.HeadCheckOrder | internal/services/media_service.go:238-252 | A non-200 status is reported whatever the headers say, and a disallowed type whatever the length. A length is refused only above the maximum, so an unknown length (-1) passes |
| MediaServices.UrlIngestionGuards | internal/services/media_service.go:113-156 | A URL that fails the HEAD check is neither downloaded nor uploaded. A downloaded body over the limit is refused even when the HEAD check passed |
| MediaServices.UrlKeyExtension | internal/services/media_service.go:82-83 | the object key of a URL `dir/stem.ext` ends in `.ext` |
| EditorForms.FormValue | internal/handlers/editor_handler.go:79-80 | the submitted value of the field, or "" when the field is absent |
| EditorForms.IndexedKeyInjective | internal/handlers/editor_handler.go:93 | distinct indices give distinct form keys |
| EditorForms.IndexedRunUnique | internal/handlers/editor_handler.go:136-153 | the values an indexed loop collects are determined by the form |
| EditorForms.ReadIndexed | internal/handlers/editor_handler.go:136-153 | The loop collects the values at indices 0, 1, … up to the first empty one. It ends because the form is finite |
| EditorForms.ReadMediaFiles | internal/handlers/editor_handler.go:90-106 | One media file per index up to the first empty uri, carrying that index's type, uri and Atoi'd send_delay, with no narrative |
| EditorForms.UpdateConditionFromForm | internal/handlers/editor_handler.go:119-156 | An empty type or a nil condition leaves the condition as it was. Otherwise every field comes from the form: strict iff "on", options and hints as indexed runs. No error is reported |
| EditorForms.UpdateNodeFromForm | internal/handlers/editor_handler.go:74-117 | The node is edited in place. The ID changes only when it parses, and each coordinate only when it parses. The descriptions come from the form, the audio narrative is kept, and the media files and both conditions are rebuilt. No error is reported |
| EditorForms.UnparsableDelayIsZero | internal/handlers/editor_handler.go:98 | a send_delay that fails to parse is 0 or a clamped int64 bound |
| Http.CookieValue | internal/middleware/auth.go:24 | r.Cookie finds the first cookie with the name, or reports none exactly when no cookie has it |
| Http.Request.WithValue | internal/middleware/auth.go:68-69 | the derived request carries the new context value and is otherwise the same |
| Http.Exchange.SetCookie | internal/middleware/middleware.go:21-28 | http.SetCookie appends the cookie to the response and changes nothing else |
| Http.Exchange.Redirect | internal/middleware/auth.go:30 | http.Redirect records the location and status and changes nothing else |
| Http.Exchange.Forward | internal/middleware/middleware.go:35 | next.ServeHTTP records the request handed on and changes nothing else |
| AuthMiddleware.ExtractToken | internal/middleware/auth.go:74-82 | "" unless the header has exactly one space; the token never contains a space |
| AuthMiddleware.ExtractTokenOfScheme | internal/middleware/auth.go:77-78 | any one-word scheme is accepted: "Token abc" yields "abc" just as "Bearer abc" does |
| AuthMiddleware.ExtractTokenShape | internal/middleware/auth.go:74-82 | a header with exactly one space is a space-free scheme, a space and the extracted token |
| AuthMiddleware.RequestToken | internal/middleware/auth.go:21-27 | the header's token takes precedence; the auth_token cookie is used only when the header yields "" |
| AuthMiddleware.Decide | internal/middleware/auth.go:29-69 | No token means a redirect. A parse error means the token is rejected. The request is accepted exactly when the token parses with valid map claims, and then carries the "sub" claim |
| AuthMiddleware.RequireAuth | internal/middleware/auth.go:18-72 | Every refusal is a 303 to /login and `next` is not called. Only a parse error also clears the auth_token cookie (empty, Path "/", MaxAge -1, HttpOnly). An accepted request reaches `next` exactly once, with UserIDKey holding "sub" |
| AuthMiddleware.NoTokenNeverForwarded | internal/middleware/auth.go:29-32 | a request without a token is never forwarded, whatever the verifier would say |
| AuthMiddleware.HeaderTokenWins | internal/middleware/auth.go:21-27 | with a header token, the request's cookies do not affect the decision |
| Middleware.GenerateSessionID | internal/middleware/middleware.go:39-45 | A failed random read gives "". Otherwise the ID is 44 URL-safe base64 characters that decode back to the 32 random bytes |
| Middleware.GeneratedIDsDistinct | internal/middleware/middleware.go:39-45 | distinct random bytes give distinct session IDs |
| Middleware.SessionCookie | internal/middleware/middleware.go:21-28 | the new cookie is session_id with Path "/", HttpOnly, SameSite Strict, and Secure iff the request came over TLS |
| Middleware.ChosenSessionID | internal/middleware/middleware.go:13-31 | an existing session_id cookie is reused verbatim, even when empty; otherwise a generated ID is used |
| Middleware.SessionID | internal/middleware/middleware.go:10-37 | A cookie is set only when the request had none. `next` runs exactly once, with "sessionID" holding the chosen ID. Nothing is redirected |
| Middleware.SessionReused | internal/middleware/middleware.go:29-31 | with an existing cookie, the random source does not matter |
| Middleware.Chain | internal/middleware/middleware.go:48-53 | the loop from the last middleware to the first builds m0(m1(…(h))), so the first middleware listed is outermost |
| Middleware.Wrapped | internal/middleware/middleware.go:48-53 | the chained handler: the first middleware applied to the chain of the rest, and the handler itself for no middleware |
| Middleware.WrappedShort | internal/middleware/middleware.go:48-53 | with no middleware the handler itself is returned; with one, that middleware is applied |
| Middleware.WrappedAppend | internal/middleware/middleware.go:48-53 | chaining `a + b` is chaining `a` around the chain of `b` |
| AuthServices.UnixSeconds | internal/services/auth_service.go:48-49 | time.Unix rounds toward negative infinity |
| AuthServices.Wrap64 | internal/services/auth_service.go:44 | a time.Duration product wraps to int64: the result is in range, equal to the input when that is in range, and congruent to it modulo 2^64 |
| AuthServices.IssuedClaims | internal/services/auth_service.go:46-50 | The claims carry `sub` = username, `iat` = now in Unix seconds and `exp` = now + TTL in Unix seconds. iat ≤ exp for a non-negative TTL |
| AuthServices.LoggedExpiry | internal/services/auth_service.go:44-60 | the expiry the log prints: now plus tokenTTL · time.Minute, a Duration product that wraps at 64 bits |
| AuthServices.LoggedExpiryOvershoots | internal/services/auth_service.go:44-60 | when the product does not wrap, the logged offset is TTL · 60,000,000,000 ns, later than the token's expiry of now + TTL: the claim and the log disagree by a factor of 6·10¹⁰, and which is wrong depends on the unit the caller passes |
| AuthServices.LoggedExpiryOfOneHour | internal/services/auth_service.go:44-60 | for a caller passing a one-hour Duration, the token expires after an hour and the log's product wraps to about 224 years ahead |
| AuthServices.ClaimAndLogOfMinuteCount | internal/services/auth_service.go:44-60 | for a caller passing the minute count 60 as the Duration, the log shows an hour ahead and the token's `exp` is 60 ns after issue |
| AuthServices.AuthService.constructor | internal/services/auth_service.go:20-32 | the user table holds exactly admin → password123 and user → user12345 |
| AuthServices.AuthService.Authenticate | internal/services/auth_service.go:34-62 | "invalid credentials" iff the user is unknown or the password differs; otherwise the signer's token for IssuedClaims, or its error wrapped |
| AuthServices.DemoCredentials | internal/services/auth_service.go:22-25 | the demo table accepts exactly its two username/password pairs |

## Left out

- Floating point: latitude and longitude are `real`, and the `latitude`/`longitude` range checks and `strconv.ParseFloat` are parameters.
- MIME sniffing, libvips image decoding and embed-resize, and SHA-256 are parameters. The output dimensions of a resize are not modelled.
- JWT parsing, signature verification and signing (HS256, section 3.2 of RFC 7518) are parameters. Only their outcome is modelled.
- Network and file I/O (the HEAD and GET requests, the temporary file, the storage backend) are inputs describing their outcome. Reading the temporary file back is taken to give the bytes that were written.
- Closing and removing the temporary file and response bodies is not modelled.
- Concurrency: `sync.Map` and `sync.RWMutex` become plain maps and `const` fields. Two concurrent uploads of the same content both upload; nothing in the code serialises them.
- YAML parsing and export (`ParseTour`, `ExportTour`), template rendering, `NewTourService`'s registration of the custom rule, and logging are not modelled.
- `ctx.Value("sessionID").(string)` panics when the session middleware has not run. The model takes the session ID as a parameter.
- `r.Cookie` parsing of the Cookie header: cookies arrive as already-parsed (name, value) pairs.
- `time.Now` is one reading per call. The Go code reads the clock up to three times in `Authenticate`, and the model ignores the nanoseconds between those readings.
- `time.Time.Add` saturates at its range limits; the model adds without bound.
- The wrapped handler `next` is modelled by the request it receives. What it then does to the response is not part of this model.
- The validator's field-error messages: a failed validation is `InvalidNode` or `InvalidTour`.
- EditorForms.UpdateConditionFromForm: the condition is a value, not a pointer, so aliasing between conditions is not captured. A nil condition is filled in only locally and dropped, as in the code.
- Models.Tour.GetNode: returns the index of the node and not a pointer into the node slice. Writes through that pointer are not modelled.
- TourServices.TourService.DeleteNode: the splice is modelled on sequences. That `append(Nodes[:i], Nodes[i+1:]...)` shifts the shared backing array in place is not captured.
- TourServices.TourService.DeleteNode: stores the corrected edge list (a made slice, possibly empty) instead of the nil slice the code stores when no edge survives. It therefore saves a valid tour where the code's `SaveTour` fails `required` on Edges and leaves both stores unchanged. The code as written is `EdgesAfterDelete`, and `DeleteNodeNilsEdges` states its failure (see Findings).
- Middleware.Chain: handlers are values of an arbitrary type and middleware are functions on them. What a middleware does when it serves a request is modelled separately for `SessionID` and `RequireAuth`.

## Findings

| source | as written | input that shows it | evidently intended | confidence | as-written member | corrected member |
|---|---|---|---|---|---|---|
| internal/services/services.go:124-130 | `var newEdges []models.Edge` stays nil when no edge survives. `tour.Edges = newEdges` then sets Edges to nil, and `required` on Edges makes `SaveTour` reject the tour | any valid tour with no edges (Edges = `[]`), deleting any node ID; or a tour whose every edge touches the deleted node | the surviving edges as a non-nil (possibly empty) slice, so that deleting a node from a valid tour keeps it valid; `TourService.DeleteNode` is modelled this way | not executed | TourServices.DeleteNodeNilsEdges | TourServices.DeleteNodeIntendedKeepsValidity |
