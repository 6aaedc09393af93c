# lv33 back end: request handlers over an in-memory store

This project models the request-handling contract of the lv33 content back
end (`server.js`), an Express service behind a gambling-affiliate site. It
stores users, news posts, casinos, games, "global lucky" slots, poker sites,
casino cards and "best casino" cards. Uploaded images live in an `uploads/`
directory, and records refer to them by a path string.

In the model:

- The MySQL database is one `Tables.Table` per entity kind. A table is a map
  from auto-increment id to record, plus the next id to hand out.
- The upload directory is a set of file paths relative to the server's
  working directory (`Server.Store.disk`).
- Each HTTP handler is a method of the class `Server.Store`. It returns the
  status code and the reply's `message`, and it changes the tables and the
  file set step by step, as the handler does.
- Each method's postcondition states the whole new store as
  `State() == old(State()).(...)`, so "nothing else changed" is part of every
  contract.
- The list endpoints are functions. Each full list states that its result is
  a permutation of the table's rows, sorted by the endpoint's fixed key. Each
  category list states that its result holds exactly the table's rows in
  that category, each once, newest first.
- Two invariants are stated over the store and proved for every handler.
  `Server.FilesPresent` says that every stored image or logo path names a
  file on disk. `Server.PaymentsParse` says that every stored payments
  column parses as JSON. Both hold for the empty store, and every create and
  update keeps both. A delete that removes a file keeps `FilesPresent`
  exactly when no remaining row names the removed file. So the casino and
  global-slot lists never give their 500 reply in a store the handlers
  built.

The model follows the source where the source is irregular:

- The upload middleware writes the file before the handler looks at the
  request, so a request rejected with 400 or 404 still leaves its upload on
  disk.
- The casino-card update and delete never check that the row exists. Both
  answer 200 either way.
- Deleting a casino leaves its logo file on disk.
- Deleting a best-casino card does not test the logo for NULL. For a NULL
  logo it looks for the file `.null`, because that is what `` `.${null}` ``
  prints.
- When no `payments[]` value arrives, the casino handlers store the
  one-element list `[null]`. The global-slot handlers store `[]`.
- The global-slot update applies `JSON.stringify` twice. The list endpoint
  then returns the payments as one string holding the serialised list, not
  as a list.
- Two uploads received in the same millisecond under the same original name
  get the same file name, and the second overwrites the first. Two records
  then name one file. Deleting one of them removes that file, and the other
  record names a file that is gone (`Properties.SharedUploadDangles`).
- Usernames are not unique. Login tries only the first user with the given
  username, taken here as the one with the lowest id.

The model also makes these choices about the source:

- The column types are not in the repository. The model treats `ranking`,
  `rank` and `rating` (except the best-casino `rating`, which is only ever
  stored and returned) as numeric columns in strict mode. Text that is not a
  number makes the insert or update fail with the handler's 500 reply, and
  nothing changes.
- Every other column is nullable text. `created_at` is a clock reading that
  the caller passes in.

Modules:

- `Wrappers`: holds `Option`.
- `Decimal`: decimal digits, route-id parsing and numeric-column parsing.
- `Json`: `JSON.stringify`/`JSON.parse` restricted to null, strings and
  arrays, with a proved round trip.
- `Tables`: tables, `ORDER BY` and `WHERE`.
- `Forms`: request fields, the payments normalisers and upload naming.
- `Records`: the row types, the sort keys and the list endpoints'
  row formatting.
- `Server`: the handlers.
- `Properties`: lemmas that relate several handlers.

## Model

| member | source | states |
|---|---|---|
| Server.Store.constructor | server.js:30-44 | the store starts with every table empty (next id 1) and no uploaded file, so both store invariants hold |
| Server.Store.Signup | server.js:47-74 | a missing username, email or password gives 400 "All fields are required." and no change; an email already in `users` gives 409 and no change; otherwise exactly one row is added, holding `hash(password, salt)`, which differs from the password whenever `hash` never returns its input, and nothing else changes; keeps both store invariants |
| Server.Store.Login | server.js:77-105 | the reply is `LoginReply` of the current users; the store is not modified |
| Server.LoginReply | server.js:77-105 | 400 exactly when a field is missing; an unknown username and a wrong password both give 401 with the same message; 200 exactly when the lowest-id user with that username has a stored hash that `matches` the password, which implies such a user exists |
| Server.UserNamed | server.js:85-94 | the user found has the given username, is a row of the table, and has the lowest id among users with that username; none is found exactly when no user has that username |
| Properties.SignupThenLogin | server.js:62-95 | after a signup under a username nobody holds yet, a login with the same username and password answers 200, provided `matches` accepts a password against its own hash |
| Properties.EarlierUserShadows | server.js:85-94 | when the username is already taken, inserting another user with it does not change any login reply for that username |
| Properties.NewUserFound | server.js:85-94 | after a signup under a username nobody holds, the login lookup finds exactly the new row |
| Properties.FoundUserUnchanged | server.js:85-94 | inserting a user leaves the lowest-id user with an already taken username unchanged |
| Server.Store.CreatePost | server.js:108-127 | an empty title or content, or no image, gives 400 and changes no table; otherwise one post is inserted with the stored path `/uploads/<name>`; in both cases the uploaded file is on disk afterwards; keeps both store invariants |
| Server.Store.ListPosts | server.js:130-138 | the result is a permutation of the posts table, newest first |
| Server.Store.PostsInCategory | server.js:198-221 | exactly the posts whose category equals the tag, every one of them, each a row of the table, each once, newest first |
| Server.Store.ListCasinoNews | server.js:198-209 | exactly the posts in category `casino_betting_news`, every one of them, each a row of the table, each once, newest first |
| Server.Store.ListFeaturedNews | server.js:210-221 | exactly the posts in category `featured_news`, every one of them, each a row of the table, each once, newest first |
| Server.Store.UpdatePost | server.js:709-734 | an id not in the table gives 404 and no table change; otherwise only that row changes: title, content, link and category are overwritten, and the image is kept without a new file and replaced with one; keeps both store invariants |
| Server.Store.DeletePost | server.js:679-707 | an empty id gives 400; an unknown id gives 404 and no change; otherwise exactly that row is removed, and the file `.`+image is removed when the image is non-empty (nothing happens when it is already gone); when every stored path named a file before, it still does afterwards exactly when no remaining row names the removed file; keeps the payments invariant |
| Server.Store.CreateCasino | server.js:630-659 | a missing label1, label2, country, website or ranking gives 400; the logo is checked only after these; a ranking that is not a number gives 500; otherwise one casino is inserted with payments stored as the JSON text of the normalised list; keeps both store invariants |
| Server.Store.ListCasinos | server.js:184-196 | a permutation of the casinos table ordered by ranking ascending (NULL first), each with its payments parsed; a 500 reply exactly when some stored payments text does not parse, so never in a store where the payments invariant holds |
| Server.Store.UpdateCasino | server.js:141-179 | the id comes from the body; a missing id gives 400; an unknown id gives 404; a non-numeric ranking gives 500; otherwise only that row changes, with the update-without-file rule for the logo; keeps both store invariants |
| Server.Store.DeleteCasino | server.js:662-678 | an empty id gives 400; an unknown id gives 404; otherwise exactly that row is removed and the file set is unchanged; keeps both store invariants |
| Server.Store.CreateGame | server.js:223-242 | a missing title, link or image gives 400 and changes no table; otherwise one game is inserted; keeps both store invariants |
| Server.Store.ListGames | server.js:244-252 | a permutation of the games table, newest first |
| Server.Store.UpdateGame | server.js:254-275 | an unknown id gives 404; otherwise only that row changes, with title and link overwritten and the image kept unless a new file came; keeps both store invariants |
| Server.Store.DeleteGame | server.js:278-300 | an unknown id gives 404 and no change; otherwise exactly that row is removed, plus its image file when the image is non-empty; when every stored path named a file before, it still does afterwards exactly when no remaining row names the removed file; keeps the payments invariant |
| Server.Store.CreateGlobalSlot | server.js:304-323 | validates nothing: always 201, inserting the slot with the image path or NULL and payments stored as the JSON text of `payments \|\| payments[] \|\| []` wrapped in a list when it is a string; keeps both store invariants |
| Server.Store.ListGlobalSlots | server.js:327-337 | a permutation of the global-slot table, newest first, each with its payments parsed and an empty column listed as `[]`; a 500 reply exactly when some column does not parse, so never in a store where the payments invariant holds |
| Server.Store.UpdateGlobalSlot | server.js:340-368 | an unknown id gives 404; otherwise only that row changes, and its payments hold the JSON text of the JSON text of the list; keeps both store invariants |
| Server.Store.DeleteGlobalSlot | server.js:372-396 | an empty id gives 400; an unknown id gives 404; otherwise exactly that row and its image file are removed; when every stored path named a file before, it still does afterwards exactly when no remaining row names the removed file; keeps the payments invariant |
| Server.Store.CreatePokerSite | server.js:400-418 | a missing name, description, rating, link or logo gives 400; a non-numeric rating gives 500; otherwise one site is inserted; keeps both store invariants |
| Server.Store.ListPokerSites | server.js:420-427 | a permutation of the poker-site table ordered by rating descending (NULL last) |
| Server.Store.UpdatePokerSite | server.js:428-453 | an unknown id gives 404; a non-numeric rating gives 500; otherwise only that row changes, with the update-without-file rule for the logo; keeps both store invariants |
| Server.Store.DeletePokerSite | server.js:454-478 | an empty id gives 400; an unknown id gives 404; otherwise exactly that row and its logo file are removed; when every stored path named a file before, it still does afterwards exactly when no remaining row names the removed file; keeps the payments invariant |
| Server.Store.AddCasinoCard | server.js:480-499 | a missing name, safetyIndex, features, bonus, image, visitLink or reviewLink gives 400 (termsLink and rank are optional); a non-numeric rank gives 500; otherwise one card is inserted; keeps both store invariants |
| Server.Store.ListCasinoCards | server.js:500-508 | a permutation of the casino-card table ordered by rank ascending (NULL first) |
| Server.Store.UpdateCasinoCard | server.js:511-533 | no existence check: an unknown id answers 200 and changes no table; for an existing row the snake-case fields are written (500 on a non-numeric rank), with the update-without-file rule for the image; keeps both store invariants |
| Server.Store.DeleteCasinoCard | server.js:537-546 | always 200; the row is removed when it exists, and the file set is never touched; keeps both store invariants |
| Server.Store.CreateBestCasino | server.js:548-566 | a missing promo, code, min_deposit, wagering, rating, link or logo gives 400; otherwise one card is inserted; keeps both store invariants |
| Server.Store.ListBestCasinos | server.js:568-576 | a permutation of the best-casino table, newest first |
| Server.Store.UpdateBestCasino | server.js:578-601 | an unknown id gives 404 "Not found."; otherwise only that row changes, with the update-without-file rule for the logo; keeps both store invariants |
| Server.Store.DeleteBestCasino | server.js:604-621 | an unknown id gives 404; otherwise exactly that row is removed, and so is the file `.`+logo, with a NULL logo printed as `null`; when every stored path named a file before, it still does afterwards exactly when no remaining row names the removed file; keeps the payments invariant |
| Server.Lookup | server.js:159-162 | a textual id finds a row exactly when it is a decimal numeral naming a key of the table |
| Server.ImageOf | server.js:110 | the stored path is truthy exactly when a file was uploaded, and is then `/uploads/<name>` |
| Server.KeepOrReplace | server.js:719-724 | without a new file the stored path is unchanged; with one it becomes the new file's path |
| Properties.UpdateImageRule | server.js:164-170 | without a new file the stored path is unchanged; with one, the stored path names the file the middleware wrote |
| Properties.SecondDeleteNotFound | server.js:282-283 | once a delete has removed the row an id names, the same id finds nothing, so a second delete answers 404 |
| Properties.UploadThenDelete | server.js:685-697 | the stored path, prefixed with `.`, names the uploaded file; a create followed by a delete of the record leaves the disk as it was before the create |
| Properties.NullLogoPath | server.js:611-613 | for a NULL logo the best-casino delete looks for `.null`, which is never an uploaded file, so no upload is removed |
| Server.FilesGrow | server.js:18-26 | a file the upload middleware writes never breaks "every stored path names a file on disk" |
| Server.StoredFileReceived | server.js:110 | the path a create stores, or an update keeps or replaces, names a file on disk once the middleware has written the upload |
| Server.FilesAfterDelete | server.js:285-294 | after a delete that only removes rows and files, every stored path still names a file exactly when no remaining row names a removed file |
| Server.CasinoInsertKeeps | server.js:630-659 | inserting a casino with the uploaded logo and the JSON text of its payments keeps both store invariants |
| Server.CasinoPutKeeps | server.js:141-179 | updating a casino with the update-without-file logo rule and the JSON text of its payments keeps both store invariants |
| Server.SlotInsertKeeps | server.js:304-323 | inserting a global slot with the uploaded image and the JSON text of its payments keeps both store invariants |
| Server.SlotPutKeeps | server.js:340-368 | updating a global slot with the update-without-file image rule and the twice-serialised payments keeps both store invariants |
| Server.NormaliseSlotPayments | server.js:309-310 | the in-place normalisation of `rawPayments` yields the list `Forms.SlotPayments` describes |
| Tables.FilesOnInsert | server.js:232-235 | inserting a row whose file, if any, is on disk keeps every row's file on disk |
| Tables.FilesOnPut | server.js:264-270 | overwriting a row with one whose file, if any, is on disk keeps every row's file on disk |
| Tables.FilesOnShrink | server.js:285-294 | after rows and files are removed, every remaining row's file is on disk exactly when no remaining row names a removed file |
| Properties.SharedUpload | server.js:22-24 | two game creates with uploads received in the same millisecond under the same original name leave two rows naming one file, with the invariant intact |
| Properties.SharedUploadDangles | server.js:285-294 | deleting the first of those games removes the shared file, so the second row names a file that is gone and the file invariant no longer holds |
| Forms.CasinoPayments | server.js:638-640 | an array is kept as it is; anything else, including nothing, becomes a one-element list, `[null]` when nothing was sent |
| Forms.SlotPayments | server.js:309-311 | `payments` wins over `payments[]` when truthy; an array is kept, a non-empty string `s` becomes `[s]`, and nothing becomes `[]` |
| Forms.CasinoAndSlotPayments | server.js:345-346 | the two normalisers agree on every truthy value; they differ on a missing one (`[null]` against `[]`) and on the empty string (`[""]` against `[]`) |
| Records.CasinoPaymentsListed | server.js:189 | a casino's stored payments are parsed back into the list they were saved from |
| Records.CasinoMissingPaymentsListed | server.js:151-153 | a casino saved without payments is listed with `[null]` |
| Records.SlotPaymentsListedAfterCreate | server.js:330 | the payments a global slot is created with are listed back as that list |
| Records.SlotPaymentsListedAfterUpdate | server.js:359-360 | after an update, the listed payments are one string (the serialised list) rather than a list |
| Records.WithPayments | server.js:187-190 | the formatted rows keep each row's id and fields in order, with the parsed column; formatting fails exactly when some row's column does not parse |
| Records.ToNumeric | server.js:651 | NULL is stored as NULL; text is refused exactly when it is not decimal text (an optional `-`, digits, optionally `.` and more digits), and is otherwise stored as the number it parses to |
| Json.DecodeEncode | server.js:189 | `JSON.parse(JSON.stringify(v))` gives back `v` for every null, string and array of these |
| Json.Strings | server.js:311 | the JSON list of a list of strings holds each string, in order |
| Forms.UploadNameInjective | server.js:22-24 | two uploads get the same stored name only when both the clock reading and the original name are equal |
| Forms.PublicPathResolves | server.js:696 | `.` followed by the stored path names the file the middleware wrote under `uploads/` |
| Decimal.ParseNatOfDecimal | server.js:23 | the decimal text of the clock reading parses back to that reading |
| Decimal.NatToDecimalInjective | server.js:23 | different clock readings print as different digit strings |
| Decimal.ParseNat | server.js:160 | an id parses exactly when it is a non-empty string of digits |
| Decimal.ParseNumberAccepts | server.js:651 | a numeric column accepts a text exactly when it has the shape of a decimal number: an optional `-`, digits, and optionally `.` followed by digits |
| Decimal.ParseNumberOfDecimal | server.js:651 | a whole number, with or without a minus sign, is read as that number |
| Decimal.ParseNumberOfFixedPoint | server.js:651 | a decimal with a fraction part is read as its whole part plus the fraction |
| Tables.Table.Insert | server.js:64-67 | an insert adds one row under the next id, keeps every other row, and keeps the table valid |
| Tables.Table.Put | server.js:172 | an update changes that row only and keeps the set of ids |
| Tables.Table.Remove | server.js:293 | a delete removes that id only and leaves every other row as it was |
| Tables.SortBy | server.js:132 | `ORDER BY`: a permutation of the rows, sorted on the key |
| Tables.SelectWhere | server.js:201 | `WHERE ... ORDER BY`: exactly the matching rows of the table, each once, sorted on the key |
| Tables.InsertSorted | server.js:186 | inserting into a sorted list keeps it sorted and adds exactly that row |
| Tables.RowsOf | server.js:132 | every row of the table appears once, in id order |

## Left out

- Express routing, CORS, body parsing, static serving of `/uploads` and
  `app.listen`: framework plumbing with no logic of its own.
- The MySQL connection and the `process.exit` on a failed connect (server
  lines 30-44). The store is always reachable.
- 500 replies from database or file-system failures. The only 500 paths
  modelled are a non-numeric value for a numeric column and an unparsable
  payments column in a list. `unlinkSync` never fails here.
- Console logging.
- Concurrent requests and the check-then-act race between a handler's
  `SELECT` and its `UPDATE`/`DELETE`. Each handler runs atomically.
- bcrypt. `hash(password, salt)` and `matches(password, stored)` are
  abstract functions fixed when the store is built. The random salt is a
  parameter of `Signup`.
- `Date.now()` and `created_at`. Both are natural-number parameters.
- JSON whitespace, numbers, booleans and objects; lone surrogate code units
  in strings. Only null, strings and arrays of these are stored.
- MySQL's lenient casts. A route id such as `5abc`, `+5` or ` 5`, and
  numeric text such as `1e3` or `.5`, are not accepted here. In the model
  they find no row or give 500.
- Server.Store.Signup: the email test is exact string equality. MySQL's
  default collations compare text without case (and, for PAD SPACE
  collations, without trailing spaces), so the server answers 409 to
  `A@x.com` when `a@x.com` is registered, where the model inserts a second
  row. The model assumes a binary collation on `users.email`.
- Server.Store.Signup: that the stored hash differs from the password is
  bcrypt's promise. The abstract `hash` does not carry it, so the contract
  states it only for a `hash` that never returns its input.
- Server.LoginReply: the username test is exact string equality, where
  MySQL's default collations ignore case. The model assumes a binary
  collation on `users.username`.
- Server.UserNamed: the username test is exact string equality, under the
  same binary-collation assumption.
- Server.Store.PostsInCategory: the category test is exact string equality,
  where MySQL's default collations ignore case. The model assumes a binary
  collation on `posts.category`.
- Server.Store.ListCasinoNews: selects `casino_betting_news` exactly, under
  the same binary-collation assumption.
- Server.Store.ListFeaturedNews: selects `featured_news` exactly, under the
  same binary-collation assumption.
- Server.UserNamed: the order of `SELECT ... WHERE username = ?` without an
  `ORDER BY` is not defined by SQL. The model takes the lowest id, the order
  a primary-key scan produces.
- Tables.SortBy: the order among rows with equal sort keys is not defined by
  SQL. The model produces one admissible order and states only that the
  result is sorted and a permutation.
- A form field sent more than once, other than `payments[]`. Text fields are
  single strings.
- Directories named by a stored path (for example the path `/` resolving to
  `.`): the file set holds files only.
- The `!id` test of the route-parameter handlers: Express never passes an
  empty route parameter, but the test is modelled as written, on the empty
  string.
- Properties.SignupThenLogin: assumes `matches(p, hash(p, salt))` for the
  password used. That is bcrypt's own promise, and the abstract functions do
  not carry it.
