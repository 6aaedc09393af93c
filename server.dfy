/**
 * The request handlers of the content back end, over an in-memory store: one
 * table per entity kind and the set of files on disk (paths relative to the
 * server's working directory). Every handler first receives the optional
 * upload, which the upload middleware has already written to `uploads/`
 * before the handler's own checks run.
 */
module Server {
  import opened Wrappers
  import opened Decimal
  import opened Json
  import opened Forms
  import opened Tables
  import opened Records

  /** The status code and the `message` of a handler's JSON reply. */
  datatype Response = Response(status: nat, message: string)

  const InvalidCredentials := "Invalid username or password."

  /** A list endpoint's reply: the rows, or the 500 reply when a stored column cannot be parsed. */
  datatype Listing<T> = Listed(rows: seq<T>) | Failed(response: Response)

  /** The whole store as one value, so that a handler can say what it changed and that nothing else changed. */
  datatype Db = Db(users: Table<User>, posts: Table<Post>, casinos: Table<Casino>, games: Table<Game>,
                   slots: Table<GlobalSlot>, pokerSites: Table<PokerSite>, cards: Table<CasinoCard>,
                   bestCasinos: Table<BestCasino>, disk: set<string>)
  {
    predicate Valid() {
      users.Valid() && posts.Valid() && casinos.Valid() && games.Valid() && slots.Valid()
      && pokerSites.Valid() && cards.Valid() && bestCasinos.Valid()
    }
  }

  /**
   * The global-slot handlers' `rawPayments`: the first truthy of `payments`
   * and `payments[]` (else `[]`), reassigned to a one-element list when it is
   * not already a list.
   */
  method NormaliseSlotPayments(payments: FormValue, bracketed: FormValue) returns (items: seq<string>)
    ensures items == SlotPayments(payments, bracketed)
  {
    var raw := if FormTruthy(payments) then payments else if FormTruthy(bracketed) then bracketed else Many([]);
    if !raw.Many? {
      raw := Many([raw.s]);
    }
    items := raw.items;
  }

  /** The file a stored image or logo path names: `'.' + path`; a NULL path names none. */
  function StoredFile(f: Field): Option<string> {
    if f.Text? then Some(FileOf(f.s)) else None
  }

  function PostFile(p: Post): Option<string> { StoredFile(p.image) }
  function CasinoFile(c: Casino): Option<string> { StoredFile(c.logo) }
  function GameFile(g: Game): Option<string> { StoredFile(g.image) }
  function SlotFile(s: GlobalSlot): Option<string> { StoredFile(s.image) }
  function PokerFile(p: PokerSite): Option<string> { StoredFile(p.logo) }
  function CardFile(c: CasinoCard): Option<string> { StoredFile(c.image) }
  function BestFile(b: BestCasino): Option<string> { StoredFile(b.logo) }

  /** The record/file invariant: every stored image or logo path names a file on disk. */
  ghost predicate FilesPresent(db: Db) {
    FilesOn(db.posts, PostFile, db.disk) && FilesOn(db.casinos, CasinoFile, db.disk)
    && FilesOn(db.games, GameFile, db.disk) && FilesOn(db.slots, SlotFile, db.disk)
    && FilesOn(db.pokerSites, PokerFile, db.disk) && FilesOn(db.cards, CardFile, db.disk)
    && FilesOn(db.bestCasinos, BestFile, db.disk)
  }

  /** Some row of some table stores a path naming `f`. */
  ghost predicate Referenced(db: Db, f: string) {
    RefersTo(db.posts, PostFile, f) || RefersTo(db.casinos, CasinoFile, f)
    || RefersTo(db.games, GameFile, f) || RefersTo(db.slots, SlotFile, f)
    || RefersTo(db.pokerSites, PokerFile, f) || RefersTo(db.cards, CardFile, f)
    || RefersTo(db.bestCasinos, BestFile, f)
  }

  /** No row of `db` names a file that was in `before` and is no longer on disk. */
  ghost predicate NoDangling(before: set<string>, db: Db) {
    forall f :: f in before && f !in db.disk ==> !Referenced(db, f)
  }

  /** Files the upload middleware adds never break the invariant. */
  lemma FilesGrow(db: Db, extra: set<string>)
    ensures FilesPresent(db) ==> FilesPresent(db.(disk := db.disk + extra))
  {
    var more := db.disk + extra;
    FilesOnGrow(db.posts, PostFile, db.disk, more);
    FilesOnGrow(db.casinos, CasinoFile, db.disk, more);
    FilesOnGrow(db.games, GameFile, db.disk, more);
    FilesOnGrow(db.slots, SlotFile, db.disk, more);
    FilesOnGrow(db.pokerSites, PokerFile, db.disk, more);
    FilesOnGrow(db.cards, CardFile, db.disk, more);
    FilesOnGrow(db.bestCasinos, BestFile, db.disk, more);
  }

  /**
   * After a delete (rows only removed, files only removed), the invariant
   * holds exactly when no remaining row names a removed file.
   */
  lemma FilesAfterDelete(before: Db, after: Db)
    requires FilesPresent(before) && after.disk <= before.disk
    requires SubTable(after.posts, before.posts) && SubTable(after.casinos, before.casinos)
    requires SubTable(after.games, before.games) && SubTable(after.slots, before.slots)
    requires SubTable(after.pokerSites, before.pokerSites) && SubTable(after.cards, before.cards)
    requires SubTable(after.bestCasinos, before.bestCasinos)
    ensures FilesPresent(after) <==> NoDangling(before.disk, after)
  {
    FilesOnShrink(after.posts, before.posts, PostFile, after.disk, before.disk);
    FilesOnShrink(after.casinos, before.casinos, CasinoFile, after.disk, before.disk);
    FilesOnShrink(after.games, before.games, GameFile, after.disk, before.disk);
    FilesOnShrink(after.slots, before.slots, SlotFile, after.disk, before.disk);
    FilesOnShrink(after.pokerSites, before.pokerSites, PokerFile, after.disk, before.disk);
    FilesOnShrink(after.cards, before.cards, CardFile, after.disk, before.disk);
    FilesOnShrink(after.bestCasinos, before.bestCasinos, BestFile, after.disk, before.disk);
  }

  /** A path a handler stores names a file on disk once the upload has been received. */
  lemma StoredFileReceived(current: Field, file: Option<Upload>, disk: set<string>)
    requires OnDiskField(current, disk)
    ensures OnDiskField(KeepOrReplace(current, file), disk + Received(file))
    ensures OnDiskField(ImageOf(file), disk + Received(file))
  {
    if file.Some? {
      PublicPathResolves(file.value);
    }
  }

  ghost predicate OnDiskField(f: Field, disk: set<string>) {
    StoredFile(f).Some? ==> StoredFile(f).value in disk
  }

  /** Every stored payments column parses, so the casino and global-slot lists answer 200. */
  ghost predicate PaymentsParse(db: Db) {
    CasinoPaymentsParse(db.casinos) && SlotPaymentsParse(db.slots)
  }

  ghost predicate CasinoPaymentsParse(t: Table<Casino>) {
    forall k :: k in t.rows ==> CasinoPaymentsView(t.rows[k].payments).Some?
  }

  ghost predicate SlotPaymentsParse(t: Table<GlobalSlot>) {
    forall k :: k in t.rows ==> SlotPaymentsView(t.rows[k].payments).Some?
  }

  /** Rewriting a global slot with a parsable payments column keeps every slot's column parsable. */
  lemma SlotPaymentsPut(t: Table<GlobalSlot>, k: nat, row: GlobalSlot)
    requires k in t.rows && SlotPaymentsView(row.payments).Some?
    requires SlotPaymentsParse(t)
    ensures SlotPaymentsParse(t.Put(k, row))
  {
  }

  lemma SlotPaymentsInsert(t: Table<GlobalSlot>, row: GlobalSlot)
    requires SlotPaymentsView(row.payments).Some? && SlotPaymentsParse(t)
    ensures SlotPaymentsParse(t.Insert(row))
  {
  }

  lemma CasinoPaymentsInsert(t: Table<Casino>, row: Casino)
    requires CasinoPaymentsView(row.payments).Some? && CasinoPaymentsParse(t)
    ensures CasinoPaymentsParse(t.Insert(row))
  {
  }

  lemma CasinoPaymentsPut(t: Table<Casino>, k: nat, row: Casino)
    requires k in t.rows && CasinoPaymentsView(row.payments).Some? && CasinoPaymentsParse(t)
    ensures CasinoPaymentsParse(t.Put(k, row))
  {
  }

  /** A casino create keeps both invariants. */
  lemma CasinoInsertKeeps(db: Db, file: Option<Upload>, payments: FormValue, casino: Casino)
    requires db.Valid() && casino.logo == ImageOf(file) && casino.payments == Text(Encode(JArr(CasinoPayments(payments))))
    ensures var after := db.(disk := db.disk + Received(file), casinos := db.casinos.Insert(casino));
      (FilesPresent(db) ==> FilesPresent(after)) && (PaymentsParse(db) ==> PaymentsParse(after))
  {
    FilesGrow(db, Received(file));
    if FilesPresent(db) {
      StoredFileReceived(Null, file, db.disk);
      FilesOnInsert(db.casinos, CasinoFile, db.disk + Received(file), casino);
    }
    if PaymentsParse(db) {
      CasinoPaymentsListed(payments);
      CasinoPaymentsInsert(db.casinos, casino);
    }
  }

  /** A casino update keeps both invariants. */
  lemma CasinoPutKeeps(db: Db, file: Option<Upload>, payments: FormValue, k: nat, row: Casino)
    requires db.Valid() && k in db.casinos.rows && row.payments == Text(Encode(JArr(CasinoPayments(payments))))
    requires row.logo == KeepOrReplace(db.casinos.rows[k].logo, file)
    ensures var after := db.(disk := db.disk + Received(file), casinos := db.casinos.Put(k, row));
      (FilesPresent(db) ==> FilesPresent(after)) && (PaymentsParse(db) ==> PaymentsParse(after))
  {
    FilesGrow(db, Received(file));
    if FilesPresent(db) {
      StoredFileReceived(db.casinos.rows[k].logo, file, db.disk);
      FilesOnPut(db.casinos, CasinoFile, db.disk + Received(file), k, row);
    }
    if PaymentsParse(db) {
      CasinoPaymentsListed(payments);
      CasinoPaymentsPut(db.casinos, k, row);
    }
  }

  /** A global-slot create keeps both invariants. */
  lemma SlotInsertKeeps(db: Db, file: Option<Upload>, items: seq<string>, slot: GlobalSlot)
    requires db.Valid() && slot.image == ImageOf(file) && slot.payments == Text(Encode(JArr(Strings(items))))
    ensures var after := db.(disk := db.disk + Received(file), slots := db.slots.Insert(slot));
      (FilesPresent(db) ==> FilesPresent(after)) && (PaymentsParse(db) ==> PaymentsParse(after))
  {
    FilesGrow(db, Received(file));
    if FilesPresent(db) {
      StoredFileReceived(Null, file, db.disk);
      FilesOnInsert(db.slots, SlotFile, db.disk + Received(file), slot);
    }
    if PaymentsParse(db) {
      SlotPaymentsListedAfterCreate(items);
      SlotPaymentsInsert(db.slots, slot);
    }
  }

  /** A global-slot update of an existing row keeps both invariants. */
  lemma SlotPutKeeps(db: Db, file: Option<Upload>, items: seq<string>, k: nat, row: GlobalSlot)
    requires db.Valid() && k in db.slots.rows && row.payments == Text(Encode(JStr(Encode(JArr(Strings(items))))))
    requires row.image == KeepOrReplace(db.slots.rows[k].image, file)
    ensures var after := db.(disk := db.disk + Received(file), slots := db.slots.Put(k, row));
      (FilesPresent(db) ==> FilesPresent(after)) && (PaymentsParse(db) ==> PaymentsParse(after))
  {
    FilesGrow(db, Received(file));
    if FilesPresent(db) {
      StoredFileReceived(db.slots.rows[k].image, file, db.disk);
      FilesOnPut(db.slots, SlotFile, db.disk + Received(file), k, row);
    }
    if PaymentsParse(db) {
      SlotPaymentsListedAfterUpdate(items);
      SlotPaymentsPut(db.slots, k, row);
    }
  }

  /** The `image`/`logo` value a handler computes: `req.file ? '/uploads/' + name : null`. */
  function ImageOf(file: Option<Upload>): (f: Field)
    ensures Truthy(f) <==> file.Some?
    ensures file.Some? ==> f == Text(PublicPath(file.value))
  {
    match file
    case Some(u) => Text(PublicPath(u))
    case None => Null
  }

  /** The update rule: a new upload replaces the stored path, and without one the stored path is kept. */
  function KeepOrReplace(current: Field, file: Option<Upload>): (f: Field)
    ensures file.None? ==> f == current
    ensures file.Some? ==> f == Text(PublicPath(file.value))
  {
    if file.Some? then ImageOf(file) else current
  }

  /** The file the upload middleware writes for a request. */
  function Received(file: Option<Upload>): (r: set<string>)
    ensures file.None? ==> r == {}
    ensures file.Some? ==> r == {DiskPath(file.value)}
  {
    match file
    case Some(u) => {DiskPath(u)}
    case None => {}
  }

  /** `SELECT ... WHERE id = ?` with a textual id: the row it finds, if any. */
  function Lookup<R>(t: Table<R>, id: string): (r: Option<nat>)
    ensures r.Some? <==> ParseNat(id).Some? && ParseNat(id).value in t.rows
    ensures r.Some? ==> r.value == ParseNat(id).value
  {
    match ParseNat(id)
    case Some(k) => if k in t.rows then Some(k) else None
    case None => None
  }

  /**
   * The file a delete handler removes for a stored path it found truthy:
   * `'.' + path`, if that file exists.
   */
  function FileOf(path: string): string {
    Resolve("." + path)
  }

  predicate EmailTaken(users: Table<User>, email: string) {
    exists k :: k in users.rows && users.rows[k].email == email
  }

  /** The position of the first of `rows` whose username is `name`. */
  function FirstNamed(rows: seq<Row<User>>, name: string): (r: Option<nat>)
    ensures r.Some? ==> r.value < |rows| && rows[r.value].value.username == name
    ensures r.Some? ==> forall i :: 0 <= i < r.value ==> rows[i].value.username != name
    ensures r.None? ==> forall i :: 0 <= i < |rows| ==> rows[i].value.username != name
  {
    if rows == [] then None
    else if rows[0].value.username == name then Some(0)
    else
      match FirstNamed(rows[1..], name)
      case Some(i) => Some(i + 1)
      case None => None
  }

  /**
   * `users[0]` of `SELECT * FROM users WHERE username = ?`: usernames are not
   * unique, and the row found is the one with the lowest id.
   */
  function UserNamed(users: Table<User>, name: string): (r: Option<Row<User>>)
    requires users.Valid()
    ensures r.Some? ==> r.value.id in users.rows && users.rows[r.value.id] == r.value.value
    ensures r.Some? ==> r.value.value.username == name
    ensures r.Some? ==> forall k :: k in users.rows && users.rows[k].username == name ==> r.value.id <= k
    ensures r.None? <==> forall k :: k in users.rows ==> users.rows[k].username != name
  {
    var rows := RowsOf(users);
    match FirstNamed(rows, name)
    case Some(at) =>
      FirstNamedIsLowest(users, name, at);
      Some(rows[at])
    case None =>
      NoneNamed(users, name);
      None
  }

  lemma FirstNamedIsLowest(users: Table<User>, name: string, at: nat)
    requires users.Valid() && FirstNamed(RowsOf(users), name) == Some(at)
    ensures forall k :: k in users.rows && users.rows[k].username == name ==> RowsOf(users)[at].id <= k
  {
    var rows := RowsOf(users);
    forall k | k in users.rows && users.rows[k].username == name
      ensures rows[at].id <= k
    {
      var i :| 0 <= i < |rows| && rows[i] == Row(k, users.rows[k]);
      assert at <= i;
    }
  }

  lemma NoneNamed(users: Table<User>, name: string)
    requires users.Valid() && FirstNamed(RowsOf(users), name).None?
    ensures forall k :: k in users.rows ==> users.rows[k].username != name
  {
    var rows := RowsOf(users);
    forall k | k in users.rows ensures users.rows[k].username != name {
      var i :| 0 <= i < |rows| && rows[i] == Row(k, users.rows[k]);
    }
  }

  /**
   * The reply to a login: 400 without both fields, and the same 401 for an
   * unknown username as for a wrong password. Only the lowest-id user with the
   * username is tried.
   */
  function LoginReply(users: Table<User>, matches: (string, string) -> bool, body: Body): (r: Response)
    requires users.Valid()
    ensures var username, password := FieldOf(body, "username"), FieldOf(body, "password");
      (r.status == 400 <==> !Truthy(username) || !Truthy(password))
      && (r.status == 400 ==> r.message == "Username and password are required.")
      && (r.status == 401 ==> r.message == InvalidCredentials)
      && (r.status == 200 ==> r.message == "Login successful")
      && (r.status == 400 || r.status == 401 || r.status == 200)
      && (r.status == 200 <==> Truthy(username) && Truthy(password) && UserNamed(users, username.s).Some?
                               && matches(password.s, UserNamed(users, username.s).value.value.password))
      && (r.status == 200 ==> exists k :: k in users.rows && users.rows[k].username == username.s
                                          && matches(password.s, users.rows[k].password))
  {
    var username, password := FieldOf(body, "username"), FieldOf(body, "password");
    if !Truthy(username) || !Truthy(password) then Response(400, "Username and password are required.")
    else match UserNamed(users, username.s)
      case None => Response(401, InvalidCredentials)
      case Some(row) =>
        if matches(password.s, row.value.password) then Response(200, "Login successful")
        else Response(401, InvalidCredentials)
  }

  class Store {
    var users: Table<User>
    var posts: Table<Post>
    var casinos: Table<Casino>
    var games: Table<Game>
    var slots: Table<GlobalSlot>
    var pokerSites: Table<PokerSite>
    var cards: Table<CasinoCard>
    var bestCasinos: Table<BestCasino>
    var disk: set<string>

    /** The password hash (`bcrypt.hash(password, 10)` with a random salt) and its check (`bcrypt.compare`). */
    const hash: (string, string) -> string
    const matches: (string, string) -> bool

    function State(): Db
      reads this
    {
      Db(users, posts, casinos, games, slots, pokerSites, cards, bestCasinos, disk)
    }

    predicate Valid()
      reads this
    {
      State().Valid()
    }

    constructor (hash: (string, string) -> string, matches: (string, string) -> bool)
      ensures Valid() && this.hash == hash && this.matches == matches
      ensures State() == Db(EmptyTable(), EmptyTable(), EmptyTable(), EmptyTable(), EmptyTable(),
                            EmptyTable(), EmptyTable(), EmptyTable(), {})
      ensures FilesPresent(State()) && PaymentsParse(State())
    {
      this.hash := hash;
      this.matches := matches;
      users, posts, casinos, games := EmptyTable(), EmptyTable(), EmptyTable(), EmptyTable();
      slots, pokerSites, cards, bestCasinos := EmptyTable(), EmptyTable(), EmptyTable(), EmptyTable();
      disk := {};
    }

    // ---------------------------------------------------------------- users

    method Signup(body: Body, salt: string) returns (resp: Response)
      requires Valid()
      modifies this
      ensures Valid()
      ensures var username, email, password := FieldOf(body, "username"), FieldOf(body, "email"), FieldOf(body, "password");
        if !Truthy(username) || !Truthy(email) || !Truthy(password) then
          resp == Response(400, "All fields are required.") && State() == old(State())
        else if EmailTaken(old(users), email.s) then
          resp == Response(409, "Email already registered.") && State() == old(State())
        else
          resp == Response(200, "Signup successful!")
          && State() == old(State()).(users := old(users).Insert(User(username.s, email.s, hash(password.s, salt))))
      ensures resp.status == 200 && (forall p, s :: hash(p, s) != p) ==>
        users.rows[old(users).next].password != FieldOf(body, "password").s
      ensures FilesPresent(old(State())) ==> FilesPresent(State())
      ensures PaymentsParse(old(State())) ==> PaymentsParse(State())
    {
      var username, email, password := FieldOf(body, "username"), FieldOf(body, "email"), FieldOf(body, "password");
      if !Truthy(username) || !Truthy(email) || !Truthy(password) {
        return Response(400, "All fields are required.");
      }
      var existing := exists k :: k in users.rows && users.rows[k].email == email.s;
      if existing {
        return Response(409, "Email already registered.");
      }
      var hashed := hash(password.s, salt);
      users := users.Insert(User(username.s, email.s, hashed));
      resp := Response(200, "Signup successful!");
    }

    method Login(body: Body) returns (resp: Response)
      requires Valid()
      ensures resp == LoginReply(users, matches, body)
    {
      var username, password := FieldOf(body, "username"), FieldOf(body, "password");
      if !Truthy(username) || !Truthy(password) {
        return Response(400, "Username and password are required.");
      }
      var found := UserNamed(users, username.s);
      if found.None? {
        return Response(401, InvalidCredentials);
      }
      var user := found.value.value;
      var ok := matches(password.s, user.password);
      if !ok {
        return Response(401, InvalidCredentials);
      }
      resp := Response(200, "Login successful");
    }

    // ---------------------------------------------------------------- posts

    method CreatePost(body: Body, file: Option<Upload>, now: nat) returns (resp: Response)
      requires Valid()
      modifies this
      ensures Valid()
      ensures var title, content := FieldOf(body, "title"), FieldOf(body, "content");
        var received := old(State()).(disk := old(disk) + Received(file));
        if !Truthy(title) || !Truthy(content) || file.None? then
          resp == Response(400, "Title, content, and image are required.") && State() == received
        else
          resp == Response(201, "Post created successfully!")
          && State() == received.(posts := old(posts).Insert(
               Post(title, content, FieldOf(body, "link"), ImageOf(file), FieldOf(body, "category"), now)))
      ensures FilesPresent(old(State())) ==> FilesPresent(State())
      ensures PaymentsParse(old(State())) ==> PaymentsParse(State())
    {
      FilesGrow(State(), Received(file));
      disk := disk + Received(file);
      var title, content, link, category := FieldOf(body, "title"), FieldOf(body, "content"), FieldOf(body, "link"), FieldOf(body, "category");
      var image := ImageOf(file);
      if !Truthy(title) || !Truthy(content) || !Truthy(image) {
        return Response(400, "Title, content, and image are required.");
      }
      if FilesPresent(old(State())) {
        StoredFileReceived(Null, file, old(disk));
        FilesOnInsert(posts, PostFile, disk, Post(title, content, link, image, category, now));
      }
      posts := posts.Insert(Post(title, content, link, image, category, now));
      resp := Response(201, "Post created successfully!");
    }

    /** `GET /api/posts`: newest first. */
    function ListPosts(): (r: seq<Row<Post>>)
      reads this
      requires Valid()
      ensures IsListing(posts, r, PostOrder, Descending)
    {
      SortBy(RowsOf(posts), PostOrder, Descending)
    }

    /** The posts whose category is `tag`, newest first. */
    function PostsInCategory(tag: string): (r: seq<Row<Post>>)
      reads this
      requires Valid()
      ensures forall i :: 0 <= i < |r| ==> r[i].id in posts.rows && posts.rows[r[i].id] == r[i].value
      ensures forall i :: 0 <= i < |r| ==> r[i].value.category == Text(tag)
      ensures forall k :: k in posts.rows && posts.rows[k].category == Text(tag) ==> Row(k, posts.rows[k]) in r
      ensures forall i, j :: 0 <= i < j < |r| ==> r[i].id != r[j].id
      ensures Sorted(r, PostOrder, Descending)
    {
      SelectWhere(posts, (p: Post) => p.category == Text(tag), PostOrder, Descending)
    }

    /** `GET /api/posts/casino-news`. */
    function ListCasinoNews(): (r: seq<Row<Post>>)
      reads this
      requires Valid()
      ensures forall i :: 0 <= i < |r| ==> r[i].id in posts.rows && posts.rows[r[i].id] == r[i].value
      ensures forall i :: 0 <= i < |r| ==> r[i].value.category == Text("casino_betting_news")
      ensures forall k :: k in posts.rows && posts.rows[k].category == Text("casino_betting_news") ==> Row(k, posts.rows[k]) in r
      ensures forall i, j :: 0 <= i < j < |r| ==> r[i].id != r[j].id
      ensures Sorted(r, PostOrder, Descending)
    {
      PostsInCategory("casino_betting_news")
    }

    /** `GET /api/posts/featured-news`. */
    function ListFeaturedNews(): (r: seq<Row<Post>>)
      reads this
      requires Valid()
      ensures forall i :: 0 <= i < |r| ==> r[i].id in posts.rows && posts.rows[r[i].id] == r[i].value
      ensures forall i :: 0 <= i < |r| ==> r[i].value.category == Text("featured_news")
      ensures forall k :: k in posts.rows && posts.rows[k].category == Text("featured_news") ==> Row(k, posts.rows[k]) in r
      ensures forall i, j :: 0 <= i < j < |r| ==> r[i].id != r[j].id
      ensures Sorted(r, PostOrder, Descending)
    {
      PostsInCategory("featured_news")
    }

    method UpdatePost(id: string, body: Body, file: Option<Upload>) returns (resp: Response)
      requires Valid()
      modifies this
      ensures Valid()
      ensures var received := old(State()).(disk := old(disk) + Received(file));
        match Lookup(old(posts), id)
        case None => resp == Response(404, "Post not found.") && State() == received
        case Some(k) =>
          resp == Response(200, "News post updated successfully!")
          && State() == received.(posts := old(posts).Put(k, old(posts).rows[k].(
               title := FieldOf(body, "title"), content := FieldOf(body, "content"), link := FieldOf(body, "link"),
               image := KeepOrReplace(old(posts).rows[k].image, file), category := FieldOf(body, "category"))))
      ensures FilesPresent(old(State())) ==> FilesPresent(State())
      ensures PaymentsParse(old(State())) ==> PaymentsParse(State())
    {
      FilesGrow(State(), Received(file));
      disk := disk + Received(file);
      var found := Lookup(posts, id);
      if found.None? {
        return Response(404, "Post not found.");
      }
      var k := found.value;
      var row := posts.rows[k].(title := FieldOf(body, "title"), content := FieldOf(body, "content"),
                                link := FieldOf(body, "link"), category := FieldOf(body, "category"));
      if file.Some? {
        row := row.(image := ImageOf(file));
      }
      if FilesPresent(old(State())) {
        StoredFileReceived(posts.rows[k].image, file, old(disk));
        FilesOnPut(posts, PostFile, disk, k, row);
      }
      posts := posts.Put(k, row);
      resp := Response(200, "News post updated successfully!");
    }

    method DeletePost(id: string) returns (resp: Response)
      requires Valid()
      modifies this
      ensures Valid()
      ensures if id == "" then resp == Response(400, "Post ID is required.") && State() == old(State())
        else match Lookup(old(posts), id)
        case None => resp == Response(404, "Post not found.") && State() == old(State())
        case Some(k) =>
          var image := old(posts).rows[k].image;
          resp == Response(200, "News post deleted successfully.")
          && State() == old(State()).(posts := old(posts).Remove(k),
                                      disk := if Truthy(image) then old(disk) - {FileOf(image.s)} else old(disk))
      ensures FilesPresent(old(State())) ==> (FilesPresent(State()) <==> NoDangling(old(disk), State()))
      ensures PaymentsParse(old(State())) ==> PaymentsParse(State())
    {
      if id == "" {
        return Response(400, "Post ID is required.");
      }
      var found := Lookup(posts, id);
      if found.None? {
        return Response(404, "Post not found.");
      }
      var k := found.value;
      var image := posts.rows[k].image;
      if Truthy(image) {
        var path := FileOf(image.s);
        if path in disk {
          disk := disk - {path};
        }
      }
      posts := posts.Remove(k);
      if FilesPresent(old(State())) {
        SubTableRemove(old(posts), k);
        FilesAfterDelete(old(State()), State());
      }
      resp := Response(200, "News post deleted successfully.");
    }

    // ---------------------------------------------------------------- casinos

    method CreateCasino(body: Body, payments: FormValue, file: Option<Upload>) returns (resp: Response)
      requires Valid()
      modifies this
      ensures var label1, label2, country, website := FieldOf(body, "label1"), FieldOf(body, "label2"), FieldOf(body, "country"), FieldOf(body, "website");
        var ranking := FieldOf(body, "ranking");
        var received := old(State()).(disk := old(disk) + Received(file));
        if !Truthy(label1) || !Truthy(label2) || !Truthy(country) || !Truthy(website) || !Truthy(ranking) then
          resp == Response(400, "All fields are required.") && State() == received
        else if file.None? then
          resp == Response(400, "Logo upload is required.") && State() == received
        else if ToNumeric(ranking).Refused? then
          resp == Response(500, "Server error while creating casino.") && State() == received
        else
          resp == Response(201, "New casino created successfully!")
          && State() == received.(casinos := old(casinos).Insert(Casino(label1, label2, country, website, ImageOf(file),
               Text(Encode(JArr(CasinoPayments(payments)))), ToNumeric(ranking).cell)))
      ensures Valid()
      ensures FilesPresent(old(State())) ==> FilesPresent(State())
      ensures PaymentsParse(old(State())) ==> PaymentsParse(State())
    {
      FilesGrow(State(), Received(file));
      disk := disk + Received(file);
      var label1, label2, country, website := FieldOf(body, "label1"), FieldOf(body, "label2"), FieldOf(body, "country"), FieldOf(body, "website");
      var ranking := FieldOf(body, "ranking");
      if !Truthy(label1) || !Truthy(label2) || !Truthy(country) || !Truthy(website) || !Truthy(ranking) {
        return Response(400, "All fields are required.");
      }
      var list := CasinoPayments(payments);
      var logo := ImageOf(file);
      if !Truthy(logo) {
        return Response(400, "Logo upload is required.");
      }
      var cell := ToNumeric(ranking);
      if cell.Refused? {
        return Response(500, "Server error while creating casino.");
      }
      var casino := Casino(label1, label2, country, website, logo, Text(Encode(JArr(list))), cell.cell);
      casinos := casinos.Insert(casino);
      resp := Response(201, "New casino created successfully!");
      assert State() == old(State()).(disk := old(disk) + Received(file), casinos := old(casinos).Insert(casino));
      CasinoInsertKeeps(old(State()), file, payments, casino);
    }

    /** `GET /api/casino-list`: by ranking, lowest first, each with its payments parsed. */
    function ListCasinos(): (r: Listing<Parsed<Casino>>)
      reads this
      requires Valid()
      ensures r.Listed? <==> CasinoPaymentsParse(casinos)
      ensures PaymentsParse(State()) ==> r.Listed?
      ensures r.Failed? ==> r.response == Response(500, "Error fetching casino list")
      ensures r.Listed? ==> IsListing(casinos, Unparsed(r.rows), CasinoOrder, Ascending)
      ensures r.Listed? ==> forall i :: 0 <= i < |r.rows| ==> Some(r.rows[i].payments) == CasinoPaymentsView(r.rows[i].value.payments)
    {
      var sorted := SortBy(RowsOf(casinos), CasinoOrder, Ascending);
      ListingRows(casinos, sorted, CasinoOrder, Ascending);
      match WithPayments(sorted, (c: Casino) => c.payments, CasinoPaymentsView)
      case Some(rows) => Listed(rows)
      case None => Failed(Response(500, "Error fetching casino list"))
    }

    method UpdateCasino(body: Body, payments: FormValue, file: Option<Upload>) returns (resp: Response)
      requires Valid()
      modifies this
      ensures Valid()
      ensures var id, ranking := FieldOf(body, "id"), FieldOf(body, "ranking");
        var received := old(State()).(disk := old(disk) + Received(file));
        if !Truthy(id) then
          resp == Response(400, "Casino ID is required for updating.") && State() == received
        else match Lookup(old(casinos), id.s)
        case None => resp == Response(404, "Casino not found.") && State() == received
        case Some(k) =>
          if ToNumeric(ranking).Refused? then
            resp == Response(500, "Server error while updating casino.") && State() == received
          else
            resp == Response(200, "Casino updated successfully!")
            && State() == received.(casinos := old(casinos).Put(k, old(casinos).rows[k].(
                 label1 := FieldOf(body, "label1"), label2 := FieldOf(body, "label2"), country := FieldOf(body, "country"),
                 website := FieldOf(body, "website"), logo := KeepOrReplace(old(casinos).rows[k].logo, file),
                 payments := Text(Encode(JArr(CasinoPayments(payments)))), ranking := ToNumeric(ranking).cell)))
      ensures FilesPresent(old(State())) ==> FilesPresent(State())
      ensures PaymentsParse(old(State())) ==> PaymentsParse(State())
    {
      FilesGrow(State(), Received(file));
      disk := disk + Received(file);
      var id := FieldOf(body, "id");
      if !Truthy(id) {
        return Response(400, "Casino ID is required for updating.");
      }
      var list := CasinoPayments(payments);
      var logo := ImageOf(file);
      var found := Lookup(casinos, id.s);
      if found.None? {
        return Response(404, "Casino not found.");
      }
      var k := found.value;
      var cell := ToNumeric(FieldOf(body, "ranking"));
      if cell.Refused? {
        return Response(500, "Server error while updating casino.");
      }
      var row := casinos.rows[k].(label1 := FieldOf(body, "label1"), label2 := FieldOf(body, "label2"),
                                  country := FieldOf(body, "country"), website := FieldOf(body, "website"),
                                  payments := Text(Encode(JArr(list))), ranking := cell.cell);
      if Truthy(logo) {
        row := row.(logo := logo);
      }
      casinos := casinos.Put(k, row);
      resp := Response(200, "Casino updated successfully!");
      assert State() == old(State()).(disk := old(disk) + Received(file), casinos := old(casinos).Put(k, row));
      CasinoPutKeeps(old(State()), file, payments, k, row);
    }

    /** Deleting a casino removes the row only: its logo file stays on disk. */
    method DeleteCasino(id: string) returns (resp: Response)
      requires Valid()
      modifies this
      ensures Valid()
      ensures if id == "" then resp == Response(400, "Casino ID is required.") && State() == old(State())
        else match Lookup(old(casinos), id)
        case None => resp == Response(404, "Casino not found.") && State() == old(State())
        case Some(k) =>
          resp == Response(200, "Casino deleted successfully.")
          && State() == old(State()).(casinos := old(casinos).Remove(k))
      ensures FilesPresent(old(State())) ==> FilesPresent(State())
      ensures PaymentsParse(old(State())) ==> PaymentsParse(State())
    {
      if id == "" {
        return Response(400, "Casino ID is required.");
      }
      var found := Lookup(casinos, id);
      if found.None? {
        return Response(404, "Casino not found.");
      }
      casinos := casinos.Remove(found.value);
      if FilesPresent(old(State())) {
        SubTableRemove(old(casinos), found.value);
        FilesAfterDelete(old(State()), State());
      }
      resp := Response(200, "Casino deleted successfully.");
    }

    // ---------------------------------------------------------------- games

    method CreateGame(body: Body, file: Option<Upload>, now: nat) returns (resp: Response)
      requires Valid()
      modifies this
      ensures Valid()
      ensures var title, link := FieldOf(body, "title"), FieldOf(body, "link");
        var received := old(State()).(disk := old(disk) + Received(file));
        if !Truthy(title) || !Truthy(link) || file.None? then
          resp == Response(400, "Title, link, and image are required.") && State() == received
        else
          resp == Response(201, "Game added successfully!")
          && State() == received.(games := old(games).Insert(Game(title, link, ImageOf(file), now)))
      ensures FilesPresent(old(State())) ==> FilesPresent(State())
      ensures PaymentsParse(old(State())) ==> PaymentsParse(State())
    {
      FilesGrow(State(), Received(file));
      disk := disk + Received(file);
      var title, link := FieldOf(body, "title"), FieldOf(body, "link");
      var image := ImageOf(file);
      if !Truthy(title) || !Truthy(link) || !Truthy(image) {
        return Response(400, "Title, link, and image are required.");
      }
      if FilesPresent(old(State())) {
        StoredFileReceived(Null, file, old(disk));
        FilesOnInsert(games, GameFile, disk, Game(title, link, image, now));
      }
      games := games.Insert(Game(title, link, image, now));
      resp := Response(201, "Game added successfully!");
    }

    /** `GET /api/games`: newest first. */
    function ListGames(): (r: seq<Row<Game>>)
      reads this
      requires Valid()
      ensures IsListing(games, r, GameOrder, Descending)
    {
      SortBy(RowsOf(games), GameOrder, Descending)
    }

    method UpdateGame(id: string, body: Body, file: Option<Upload>) returns (resp: Response)
      requires Valid()
      modifies this
      ensures Valid()
      ensures var received := old(State()).(disk := old(disk) + Received(file));
        match Lookup(old(games), id)
        case None => resp == Response(404, "Game not found.") && State() == received
        case Some(k) =>
          resp == Response(200, "Game updated successfully!")
          && State() == received.(games := old(games).Put(k, old(games).rows[k].(
               title := FieldOf(body, "title"), link := FieldOf(body, "link"),
               image := KeepOrReplace(old(games).rows[k].image, file))))
      ensures FilesPresent(old(State())) ==> FilesPresent(State())
      ensures PaymentsParse(old(State())) ==> PaymentsParse(State())
    {
      FilesGrow(State(), Received(file));
      disk := disk + Received(file);
      var found := Lookup(games, id);
      if found.None? {
        return Response(404, "Game not found.");
      }
      var k := found.value;
      var row := games.rows[k].(title := FieldOf(body, "title"), link := FieldOf(body, "link"));
      if file.Some? {
        row := row.(image := ImageOf(file));
      }
      if FilesPresent(old(State())) {
        StoredFileReceived(games.rows[k].image, file, old(disk));
        FilesOnPut(games, GameFile, disk, k, row);
      }
      games := games.Put(k, row);
      resp := Response(200, "Game updated successfully!");
    }

    method DeleteGame(id: string) returns (resp: Response)
      requires Valid()
      modifies this
      ensures Valid()
      ensures match Lookup(old(games), id)
        case None => resp == Response(404, "Game not found.") && State() == old(State())
        case Some(k) =>
          var image := old(games).rows[k].image;
          resp == Response(200, "Game deleted successfully.")
          && State() == old(State()).(games := old(games).Remove(k),
                                      disk := if Truthy(image) then old(disk) - {FileOf(image.s)} else old(disk))
      ensures FilesPresent(old(State())) ==> (FilesPresent(State()) <==> NoDangling(old(disk), State()))
      ensures PaymentsParse(old(State())) ==> PaymentsParse(State())
    {
      var found := Lookup(games, id);
      if found.None? {
        return Response(404, "Game not found.");
      }
      var k := found.value;
      var image := games.rows[k].image;
      if Truthy(image) {
        var path := FileOf(image.s);
        if path in disk {
          disk := disk - {path};
        }
      }
      games := games.Remove(k);
      if FilesPresent(old(State())) {
        SubTableRemove(old(games), k);
        FilesAfterDelete(old(State()), State());
      }
      resp := Response(200, "Game deleted successfully.");
    }

    // ---------------------------------------------------------------- global slots

    /** Creating a global slot checks no field at all; the image is optional. */
    method CreateGlobalSlot(body: Body, payments: FormValue, bracketed: FormValue, file: Option<Upload>, now: nat)
      returns (resp: Response)
      requires Valid()
      modifies this
      ensures resp == Response(201, "Global Lucky Slot created successfully!")
      ensures State() == old(State()).(disk := old(disk) + Received(file),
        slots := old(slots).Insert(GlobalSlot(FieldOf(body, "name"), FieldOf(body, "promo"), FieldOf(body, "score"),
          FieldOf(body, "stars"), FieldOf(body, "link"), ImageOf(file),
          Text(Encode(JArr(Strings(SlotPayments(payments, bracketed))))), now)))
      ensures Valid()
      ensures FilesPresent(old(State())) ==> FilesPresent(State())
      ensures PaymentsParse(old(State())) ==> PaymentsParse(State())
    {
      disk := disk + Received(file);
      var items := NormaliseSlotPayments(payments, bracketed);
      var saved := Encode(JArr(Strings(items)));
      var slot := GlobalSlot(FieldOf(body, "name"), FieldOf(body, "promo"), FieldOf(body, "score"),
                             FieldOf(body, "stars"), FieldOf(body, "link"), ImageOf(file), Text(saved), now);
      slots := slots.Insert(slot);
      resp := Response(201, "Global Lucky Slot created successfully!");
      assert State() == old(State()).(disk := old(disk) + Received(file), slots := old(slots).Insert(slot));
      SlotInsertKeeps(old(State()), file, items, slot);
    }

    /** `GET /api/global-slots`: newest first, each with its payments parsed (an empty column as `[]`). */
    function ListGlobalSlots(): (r: Listing<Parsed<GlobalSlot>>)
      reads this
      requires Valid()
      ensures r.Listed? <==> SlotPaymentsParse(slots)
      ensures PaymentsParse(State()) ==> r.Listed?
      ensures r.Failed? ==> r.response == Response(500, "Error fetching global slots")
      ensures r.Listed? ==> IsListing(slots, Unparsed(r.rows), SlotOrder, Descending)
      ensures r.Listed? ==> forall i :: 0 <= i < |r.rows| ==> Some(r.rows[i].payments) == SlotPaymentsView(r.rows[i].value.payments)
    {
      var sorted := SortBy(RowsOf(slots), SlotOrder, Descending);
      ListingRows(slots, sorted, SlotOrder, Descending);
      match WithPayments(sorted, (g: GlobalSlot) => g.payments, SlotPaymentsView)
      case Some(rows) => Listed(rows)
      case None => Failed(Response(500, "Error fetching global slots"))
    }

    /** The update stores `JSON.stringify` of the already stringified list. */
    method UpdateGlobalSlot(id: string, body: Body, payments: FormValue, bracketed: FormValue, file: Option<Upload>)
      returns (resp: Response)
      requires Valid()
      modifies this
      ensures var received := old(State()).(disk := old(disk) + Received(file));
        match Lookup(old(slots), id)
        case None => resp == Response(404, "Global Lucky Slot not found.") && State() == received
        case Some(k) =>
          resp == Response(200, "Global Lucky Slot updated successfully!")
          && State() == received.(slots := old(slots).Put(k, old(slots).rows[k].(
               name := FieldOf(body, "name"), promo := FieldOf(body, "promo"), score := FieldOf(body, "score"),
               stars := FieldOf(body, "stars"), link := FieldOf(body, "link"),
               image := KeepOrReplace(old(slots).rows[k].image, file),
               payments := Text(Encode(JStr(Encode(JArr(Strings(SlotPayments(payments, bracketed))))))))))
      ensures Valid()
      ensures FilesPresent(old(State())) ==> FilesPresent(State())
      ensures PaymentsParse(old(State())) ==> PaymentsParse(State())
    {
      disk := disk + Received(file);
      var items := NormaliseSlotPayments(payments, bracketed);
      var serialised := Encode(JArr(Strings(items)));
      var found := Lookup(slots, id);
      if found.None? {
        FilesGrow(old(State()), Received(file));
        return Response(404, "Global Lucky Slot not found.");
      }
      var k := found.value;
      var row := slots.rows[k].(name := FieldOf(body, "name"), promo := FieldOf(body, "promo"),
                                score := FieldOf(body, "score"), stars := FieldOf(body, "stars"),
                                link := FieldOf(body, "link"), payments := Text(Encode(JStr(serialised))));
      if file.Some? {
        row := row.(image := ImageOf(file));
      }
      slots := slots.Put(k, row);
      resp := Response(200, "Global Lucky Slot updated successfully!");
      assert State() == old(State()).(disk := old(disk) + Received(file), slots := old(slots).Put(k, row));
      SlotPutKeeps(old(State()), file, items, k, row);
    }

    method DeleteGlobalSlot(id: string) returns (resp: Response)
      requires Valid()
      modifies this
      ensures Valid()
      ensures if id == "" then resp == Response(400, "ID is required.") && State() == old(State())
        else match Lookup(old(slots), id)
        case None => resp == Response(404, "Global Lucky Slot not found.") && State() == old(State())
        case Some(k) =>
          var image := old(slots).rows[k].image;
          resp == Response(200, "Global Lucky Slot deleted successfully.")
          && State() == old(State()).(slots := old(slots).Remove(k),
                                      disk := if Truthy(image) then old(disk) - {FileOf(image.s)} else old(disk))
      ensures FilesPresent(old(State())) ==> (FilesPresent(State()) <==> NoDangling(old(disk), State()))
      ensures PaymentsParse(old(State())) ==> PaymentsParse(State())
    {
      if id == "" {
        return Response(400, "ID is required.");
      }
      var found := Lookup(slots, id);
      if found.None? {
        return Response(404, "Global Lucky Slot not found.");
      }
      var k := found.value;
      var image := slots.rows[k].image;
      if Truthy(image) {
        var path := FileOf(image.s);
        if path in disk {
          disk := disk - {path};
        }
      }
      slots := slots.Remove(k);
      if FilesPresent(old(State())) {
        SubTableRemove(old(slots), k);
        FilesAfterDelete(old(State()), State());
      }
      resp := Response(200, "Global Lucky Slot deleted successfully.");
    }

    // ---------------------------------------------------------------- poker sites

    method CreatePokerSite(body: Body, file: Option<Upload>) returns (resp: Response)
      requires Valid()
      modifies this
      ensures Valid()
      ensures var name, description, rating, link := FieldOf(body, "name"), FieldOf(body, "description"), FieldOf(body, "rating"), FieldOf(body, "link");
        var received := old(State()).(disk := old(disk) + Received(file));
        if !Truthy(name) || !Truthy(description) || !Truthy(rating) || !Truthy(link) || file.None? then
          resp == Response(400, "All fields are required.") && State() == received
        else if ToNumeric(rating).Refused? then
          resp == Response(500, "Server error while adding poker site.") && State() == received
        else
          resp == Response(201, "Poker site added successfully!")
          && State() == received.(pokerSites := old(pokerSites).Insert(
               PokerSite(name, description, ToNumeric(rating).cell, link, ImageOf(file))))
      ensures FilesPresent(old(State())) ==> FilesPresent(State())
      ensures PaymentsParse(old(State())) ==> PaymentsParse(State())
    {
      FilesGrow(State(), Received(file));
      disk := disk + Received(file);
      var name, description, rating, link := FieldOf(body, "name"), FieldOf(body, "description"), FieldOf(body, "rating"), FieldOf(body, "link");
      var logo := ImageOf(file);
      if !Truthy(name) || !Truthy(description) || !Truthy(rating) || !Truthy(link) || !Truthy(logo) {
        return Response(400, "All fields are required.");
      }
      var cell := ToNumeric(rating);
      if cell.Refused? {
        return Response(500, "Server error while adding poker site.");
      }
      if FilesPresent(old(State())) {
        StoredFileReceived(Null, file, old(disk));
        FilesOnInsert(pokerSites, PokerFile, disk, PokerSite(name, description, cell.cell, link, logo));
      }
      pokerSites := pokerSites.Insert(PokerSite(name, description, cell.cell, link, logo));
      resp := Response(201, "Poker site added successfully!");
    }

    /** `GET /api/poker-sites`: by rating, highest first. */
    function ListPokerSites(): (r: seq<Row<PokerSite>>)
      reads this
      requires Valid()
      ensures IsListing(pokerSites, r, PokerOrder, Descending)
    {
      SortBy(RowsOf(pokerSites), PokerOrder, Descending)
    }

    method UpdatePokerSite(id: string, body: Body, file: Option<Upload>) returns (resp: Response)
      requires Valid()
      modifies this
      ensures Valid()
      ensures var received := old(State()).(disk := old(disk) + Received(file));
        var rating := FieldOf(body, "rating");
        match Lookup(old(pokerSites), id)
        case None => resp == Response(404, "Poker site not found.") && State() == received
        case Some(k) =>
          if ToNumeric(rating).Refused? then
            resp == Response(500, "Server error during poker site update.") && State() == received
          else
            resp == Response(200, "Poker site updated successfully!")
            && State() == received.(pokerSites := old(pokerSites).Put(k, old(pokerSites).rows[k].(
                 name := FieldOf(body, "name"), description := FieldOf(body, "description"),
                 rating := ToNumeric(rating).cell, link := FieldOf(body, "link"),
                 logo := KeepOrReplace(old(pokerSites).rows[k].logo, file))))
      ensures FilesPresent(old(State())) ==> FilesPresent(State())
      ensures PaymentsParse(old(State())) ==> PaymentsParse(State())
    {
      FilesGrow(State(), Received(file));
      disk := disk + Received(file);
      var found := Lookup(pokerSites, id);
      if found.None? {
        return Response(404, "Poker site not found.");
      }
      var k := found.value;
      var cell := ToNumeric(FieldOf(body, "rating"));
      if cell.Refused? {
        return Response(500, "Server error during poker site update.");
      }
      var row := pokerSites.rows[k].(name := FieldOf(body, "name"), description := FieldOf(body, "description"),
                                     rating := cell.cell, link := FieldOf(body, "link"));
      if file.Some? {
        row := row.(logo := ImageOf(file));
      }
      if FilesPresent(old(State())) {
        StoredFileReceived(pokerSites.rows[k].logo, file, old(disk));
        FilesOnPut(pokerSites, PokerFile, disk, k, row);
      }
      pokerSites := pokerSites.Put(k, row);
      resp := Response(200, "Poker site updated successfully!");
    }

    method DeletePokerSite(id: string) returns (resp: Response)
      requires Valid()
      modifies this
      ensures Valid()
      ensures if id == "" then resp == Response(400, "Poker site ID is required.") && State() == old(State())
        else match Lookup(old(pokerSites), id)
        case None => resp == Response(404, "Poker site not found.") && State() == old(State())
        case Some(k) =>
          var logo := old(pokerSites).rows[k].logo;
          resp == Response(200, "Poker site deleted successfully.")
          && State() == old(State()).(pokerSites := old(pokerSites).Remove(k),
                                      disk := if Truthy(logo) then old(disk) - {FileOf(logo.s)} else old(disk))
      ensures FilesPresent(old(State())) ==> (FilesPresent(State()) <==> NoDangling(old(disk), State()))
      ensures PaymentsParse(old(State())) ==> PaymentsParse(State())
    {
      if id == "" {
        return Response(400, "Poker site ID is required.");
      }
      var found := Lookup(pokerSites, id);
      if found.None? {
        return Response(404, "Poker site not found.");
      }
      var k := found.value;
      var logo := pokerSites.rows[k].logo;
      if Truthy(logo) {
        var path := FileOf(logo.s);
        if path in disk {
          disk := disk - {path};
        }
      }
      pokerSites := pokerSites.Remove(k);
      if FilesPresent(old(State())) {
        SubTableRemove(old(pokerSites), k);
        FilesAfterDelete(old(State()), State());
      }
      resp := Response(200, "Poker site deleted successfully.");
    }

    // ---------------------------------------------------------------- casino cards

    /** Terms link and rank are optional; the form names its fields in camel case here. */
    method AddCasinoCard(body: Body, file: Option<Upload>) returns (resp: Response)
      requires Valid()
      modifies this
      ensures Valid()
      ensures var name, safetyIndex, features, bonus := FieldOf(body, "name"), FieldOf(body, "safetyIndex"), FieldOf(body, "features"), FieldOf(body, "bonus");
        var visitLink, reviewLink, rank := FieldOf(body, "visitLink"), FieldOf(body, "reviewLink"), FieldOf(body, "rank");
        var received := old(State()).(disk := old(disk) + Received(file));
        if !Truthy(name) || !Truthy(safetyIndex) || !Truthy(features) || !Truthy(bonus) || file.None?
           || !Truthy(visitLink) || !Truthy(reviewLink) then
          resp == Response(400, "All fields are required.") && State() == received
        else if ToNumeric(rank).Refused? then
          resp == Response(500, "Server error while adding casino card.") && State() == received
        else
          resp == Response(201, "Casino card added successfully!")
          && State() == received.(cards := old(cards).Insert(CasinoCard(name, safetyIndex, features, bonus,
               FieldOf(body, "termsLink"), visitLink, reviewLink, ImageOf(file), ToNumeric(rank).cell)))
      ensures FilesPresent(old(State())) ==> FilesPresent(State())
      ensures PaymentsParse(old(State())) ==> PaymentsParse(State())
    {
      FilesGrow(State(), Received(file));
      disk := disk + Received(file);
      var name, safetyIndex, features, bonus := FieldOf(body, "name"), FieldOf(body, "safetyIndex"), FieldOf(body, "features"), FieldOf(body, "bonus");
      var termsLink, visitLink, reviewLink, rank := FieldOf(body, "termsLink"), FieldOf(body, "visitLink"), FieldOf(body, "reviewLink"), FieldOf(body, "rank");
      var image := ImageOf(file);
      if !Truthy(name) || !Truthy(safetyIndex) || !Truthy(features) || !Truthy(bonus) || !Truthy(image)
         || !Truthy(visitLink) || !Truthy(reviewLink) {
        return Response(400, "All fields are required.");
      }
      var cell := ToNumeric(rank);
      if cell.Refused? {
        return Response(500, "Server error while adding casino card.");
      }
      if FilesPresent(old(State())) {
        StoredFileReceived(Null, file, old(disk));
        FilesOnInsert(cards, CardFile, disk, CasinoCard(name, safetyIndex, features, bonus, termsLink, visitLink, reviewLink, image, cell.cell));
      }
      cards := cards.Insert(CasinoCard(name, safetyIndex, features, bonus, termsLink, visitLink, reviewLink, image, cell.cell));
      resp := Response(201, "Casino card added successfully!");
    }

    /** `GET /api/casino-cards`: by rank, lowest first. */
    function ListCasinoCards(): (r: seq<Row<CasinoCard>>)
      reads this
      requires Valid()
      ensures IsListing(cards, r, CardOrder, Ascending)
    {
      SortBy(RowsOf(cards), CardOrder, Ascending)
    }

    /**
     * The card update never checks that the row exists, and reads its fields
     * under snake-case names (`safety_index`, `terms_link`, ...).
     */
    method UpdateCasinoCard(id: string, body: Body, file: Option<Upload>) returns (resp: Response)
      requires Valid()
      modifies this
      ensures Valid()
      ensures var received := old(State()).(disk := old(disk) + Received(file));
        var rank := FieldOf(body, "rank");
        match Lookup(old(cards), id)
        case None => resp == Response(200, "Casino card updated successfully!") && State() == received
        case Some(k) =>
          if ToNumeric(rank).Refused? then
            resp == Response(500, "Error updating casino card.") && State() == received
          else
            resp == Response(200, "Casino card updated successfully!")
            && State() == received.(cards := old(cards).Put(k, old(cards).rows[k].(
                 name := FieldOf(body, "name"), bonus := FieldOf(body, "bonus"), visitLink := FieldOf(body, "visit_link"),
                 reviewLink := FieldOf(body, "review_link"), termsLink := FieldOf(body, "terms_link"),
                 features := FieldOf(body, "features"), rank := ToNumeric(rank).cell,
                 safetyIndex := FieldOf(body, "safety_index"), image := KeepOrReplace(old(cards).rows[k].image, file))))
      ensures FilesPresent(old(State())) ==> FilesPresent(State())
      ensures PaymentsParse(old(State())) ==> PaymentsParse(State())
    {
      FilesGrow(State(), Received(file));
      disk := disk + Received(file);
      var found := Lookup(cards, id);
      if found.Some? {
        var k := found.value;
        var cell := ToNumeric(FieldOf(body, "rank"));
        if cell.Refused? {
          return Response(500, "Error updating casino card.");
        }
        var row := cards.rows[k].(name := FieldOf(body, "name"), bonus := FieldOf(body, "bonus"),
                                  visitLink := FieldOf(body, "visit_link"), reviewLink := FieldOf(body, "review_link"),
                                  termsLink := FieldOf(body, "terms_link"), features := FieldOf(body, "features"),
                                  rank := cell.cell, safetyIndex := FieldOf(body, "safety_index"));
        if file.Some? {
          row := row.(image := ImageOf(file));
        }
        if FilesPresent(old(State())) {
          StoredFileReceived(cards.rows[k].image, file, old(disk));
          FilesOnPut(cards, CardFile, disk, k, row);
        }
        cards := cards.Put(k, row);
      }
      resp := Response(200, "Casino card updated successfully!");
    }

    /** The card delete never checks that the row exists and never touches the image file. */
    method DeleteCasinoCard(id: string) returns (resp: Response)
      requires Valid()
      modifies this
      ensures Valid()
      ensures resp == Response(200, "Casino card deleted successfully.")
      ensures match Lookup(old(cards), id)
        case None => State() == old(State())
        case Some(k) => State() == old(State()).(cards := old(cards).Remove(k))
      ensures FilesPresent(old(State())) ==> FilesPresent(State())
      ensures PaymentsParse(old(State())) ==> PaymentsParse(State())
    {
      var found := Lookup(cards, id);
      if found.Some? {
        cards := cards.Remove(found.value);
        if FilesPresent(old(State())) {
          SubTableRemove(old(cards), found.value);
          FilesAfterDelete(old(State()), State());
        }
      }
      resp := Response(200, "Casino card deleted successfully.");
    }

    // ---------------------------------------------------------------- best casinos

    method CreateBestCasino(body: Body, file: Option<Upload>, now: nat) returns (resp: Response)
      requires Valid()
      modifies this
      ensures Valid()
      ensures var promo, code, minDeposit := FieldOf(body, "promo"), FieldOf(body, "code"), FieldOf(body, "min_deposit");
        var wagering, rating, link := FieldOf(body, "wagering"), FieldOf(body, "rating"), FieldOf(body, "link");
        var received := old(State()).(disk := old(disk) + Received(file));
        if !Truthy(promo) || !Truthy(code) || !Truthy(minDeposit) || !Truthy(wagering) || !Truthy(rating)
           || !Truthy(link) || file.None? then
          resp == Response(400, "All fields are required.") && State() == received
        else
          resp == Response(201, "Best Casino card added!")
          && State() == received.(bestCasinos := old(bestCasinos).Insert(
               BestCasino(promo, code, minDeposit, wagering, rating, link, ImageOf(file), now)))
      ensures FilesPresent(old(State())) ==> FilesPresent(State())
      ensures PaymentsParse(old(State())) ==> PaymentsParse(State())
    {
      FilesGrow(State(), Received(file));
      disk := disk + Received(file);
      var promo, code, minDeposit := FieldOf(body, "promo"), FieldOf(body, "code"), FieldOf(body, "min_deposit");
      var wagering, rating, link := FieldOf(body, "wagering"), FieldOf(body, "rating"), FieldOf(body, "link");
      var logo := ImageOf(file);
      if !Truthy(promo) || !Truthy(code) || !Truthy(minDeposit) || !Truthy(wagering) || !Truthy(rating)
         || !Truthy(link) || !Truthy(logo) {
        return Response(400, "All fields are required.");
      }
      if FilesPresent(old(State())) {
        StoredFileReceived(Null, file, old(disk));
        FilesOnInsert(bestCasinos, BestFile, disk, BestCasino(promo, code, minDeposit, wagering, rating, link, logo, now));
      }
      bestCasinos := bestCasinos.Insert(BestCasino(promo, code, minDeposit, wagering, rating, link, logo, now));
      resp := Response(201, "Best Casino card added!");
    }

    /** `GET /api/best-casino`: newest first. */
    function ListBestCasinos(): (r: seq<Row<BestCasino>>)
      reads this
      requires Valid()
      ensures IsListing(bestCasinos, r, BestOrder, Descending)
    {
      SortBy(RowsOf(bestCasinos), BestOrder, Descending)
    }

    method UpdateBestCasino(id: string, body: Body, file: Option<Upload>) returns (resp: Response)
      requires Valid()
      modifies this
      ensures Valid()
      ensures var received := old(State()).(disk := old(disk) + Received(file));
        match Lookup(old(bestCasinos), id)
        case None => resp == Response(404, "Not found.") && State() == received
        case Some(k) =>
          resp == Response(200, "Best Casino updated successfully!")
          && State() == received.(bestCasinos := old(bestCasinos).Put(k, old(bestCasinos).rows[k].(
               promo := FieldOf(body, "promo"), code := FieldOf(body, "code"), minDeposit := FieldOf(body, "min_deposit"),
               wagering := FieldOf(body, "wagering"), rating := FieldOf(body, "rating"), link := FieldOf(body, "link"),
               logo := KeepOrReplace(old(bestCasinos).rows[k].logo, file))))
      ensures FilesPresent(old(State())) ==> FilesPresent(State())
      ensures PaymentsParse(old(State())) ==> PaymentsParse(State())
    {
      FilesGrow(State(), Received(file));
      disk := disk + Received(file);
      var found := Lookup(bestCasinos, id);
      if found.None? {
        return Response(404, "Not found.");
      }
      var k := found.value;
      var row := bestCasinos.rows[k].(promo := FieldOf(body, "promo"), code := FieldOf(body, "code"),
                                      minDeposit := FieldOf(body, "min_deposit"), wagering := FieldOf(body, "wagering"),
                                      rating := FieldOf(body, "rating"), link := FieldOf(body, "link"));
      if file.Some? {
        row := row.(logo := ImageOf(file));
      }
      if FilesPresent(old(State())) {
        StoredFileReceived(bestCasinos.rows[k].logo, file, old(disk));
        FilesOnPut(bestCasinos, BestFile, disk, k, row);
      }
      bestCasinos := bestCasinos.Put(k, row);
      resp := Response(200, "Best Casino updated successfully!");
    }

    /** The logo path is used without a null check: a NULL logo makes the handler look for the file ".null". */
    method DeleteBestCasino(id: string) returns (resp: Response)
      requires Valid()
      modifies this
      ensures Valid()
      ensures match Lookup(old(bestCasinos), id)
        case None => resp == Response(404, "Not found.") && State() == old(State())
        case Some(k) =>
          resp == Response(200, "Best Casino deleted successfully.")
          && State() == old(State()).(bestCasinos := old(bestCasinos).Remove(k),
                                      disk := old(disk) - {FileOf(JsText(old(bestCasinos).rows[k].logo))})
      ensures FilesPresent(old(State())) ==> (FilesPresent(State()) <==> NoDangling(old(disk), State()))
      ensures PaymentsParse(old(State())) ==> PaymentsParse(State())
    {
      var found := Lookup(bestCasinos, id);
      if found.None? {
        return Response(404, "Not found.");
      }
      var k := found.value;
      var path := FileOf(JsText(bestCasinos.rows[k].logo));
      if path in disk {
        disk := disk - {path};
      }
      bestCasinos := bestCasinos.Remove(k);
      if FilesPresent(old(State())) {
        SubTableRemove(old(bestCasinos), k);
        FilesAfterDelete(old(State()), State());
      }
      resp := Response(200, "Best Casino deleted successfully.");
    }
  }
}
