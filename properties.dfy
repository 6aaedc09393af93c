/**
 * Properties that relate several handlers: what a signup means for a later
 * login, what a delete means for a later delete, and which file a delete
 * removes for a record whose image a create stored.
 */
module Properties {
  import opened Wrappers
  import opened Forms
  import opened Tables
  import opened Records
  import opened Server
  import opened Decimal

  /**
   * After a signup under a username nobody holds yet, logging in with that
   * username and the same password succeeds, provided the hash check accepts
   * a password against its own hash.
   */
  lemma SignupThenLogin(users: Table<User>, matches: (string, string) -> bool, hash: (string, string) -> string,
                        username: string, email: string, password: string, salt: string, body: Body)
    requires users.Valid()
    requires FieldOf(body, "username") == Text(username) && FieldOf(body, "password") == Text(password)
    requires username != "" && password != ""
    requires UserNamed(users, username).None?
    requires matches(password, hash(password, salt))
    ensures LoginReply(users.Insert(User(username, email, hash(password, salt))), matches, body)
            == Response(200, "Login successful")
  {
    NewUserFound(users, User(username, email, hash(password, salt)));
  }

  /** A signup under a username nobody has makes that user the one login finds. */
  lemma NewUserFound(users: Table<User>, user: User)
    requires users.Valid() && UserNamed(users, user.username).None?
    ensures UserNamed(users.Insert(user), user.username) == Some(Row(users.next, user))
  {
    var after := users.Insert(user);
    forall k | k in after.rows && after.rows[k].username == user.username
      ensures k == users.next
    {
      assert k !in users.rows;
    }
    assert after.rows[users.next] == user;
  }

  /**
   * Usernames are not unique: once a username is taken, a later signup under
   * it changes nothing about logging in with that username.
   */
  lemma EarlierUserShadows(users: Table<User>, matches: (string, string) -> bool, user: User, body: Body)
    requires users.Valid()
    requires Truthy(FieldOf(body, "username")) && UserNamed(users, FieldOf(body, "username").s).Some?
    requires user.username == FieldOf(body, "username").s
    ensures LoginReply(users.Insert(user), matches, body) == LoginReply(users, matches, body)
  {
    FoundUserUnchanged(users, user, user.username);
  }

  /** Inserting a user leaves the lookup of a username that was already taken where it was. */
  lemma FoundUserUnchanged(users: Table<User>, user: User, name: string)
    requires users.Valid() && UserNamed(users, name).Some?
    ensures UserNamed(users.Insert(user), name) == UserNamed(users, name)
  {
    var after := users.Insert(user);
    var before := UserNamed(users, name).value;
    assert before.id in after.rows && after.rows[before.id].username == name;
    var now := UserNamed(after, name);
    assert now.Some?;
    var a := now.value.id;
    assert a <= before.id;
    assert a in users.rows by {
      assert before.id < users.next;
    }
    assert users.rows[a] == after.rows[a];
    assert users.rows[a].username == name;
    assert before.id <= a;
    assert now.value == Row(before.id, after.rows[before.id]);
    assert before == Row(before.id, users.rows[before.id]);
  }

  /** Once delete has removed the row an id names, the same id finds nothing: a second delete answers 404. */
  lemma {:induction false} SecondDeleteNotFound<R>(t: Table<R>, id: string)
    requires Lookup(t, id).Some?
    ensures Lookup(t.Remove(Lookup(t, id).value), id).None?
  {
  }

  /**
   * The path a create stores for an upload, prefixed with "." by the delete
   * handlers, is the file the middleware wrote: deleting the record removes
   * exactly that file, and a disk that did not hold it before the create is
   * back where it started.
   */
  lemma UploadThenDelete(disk: set<string>, u: Upload)
    requires DiskPath(u) !in disk
    ensures FileOf(PublicPath(u)) == DiskPath(u)
    ensures (disk + Received(Some(u))) - {FileOf(ImageOf(Some(u)).s)} == disk
  {
    PublicPathResolves(u);
  }

  /**
   * A best-casino row with a NULL logo makes its delete look for the file
   * ".null", which is never a file the upload middleware writes, so that
   * delete leaves every upload in place.
   */
  lemma NullLogoPath(disk: set<string>)
    ensures FileOf(JsText(Null)) == ".null"
    ensures forall u: Upload :: FileOf(JsText(Null)) != DiskPath(u)
    ensures forall p :: p in disk && p != ".null" ==> p in disk - {FileOf(JsText(Null))}
  {
    var p := "." + JsText(Null);
    assert p == ".null";
    assert p[..2][1] == 'n';
    forall u: Upload ensures ".null" != DiskPath(u) {
      assert DiskPath(u)[0] == 'u';
    }
  }

  /** An update that brings no file leaves the stored path alone; one that brings a file points at it. */
  lemma UpdateImageRule(current: Field, file: Option<Upload>)
    ensures file.None? ==> KeepOrReplace(current, file) == current
    ensures file.Some? ==> FileOf(KeepOrReplace(current, file).s) == DiskPath(file.value)
  {
    if file.Some? {
      PublicPathResolves(file.value);
    }
  }

  /**
   * Two games created from uploads received in the same millisecond under the
   * same original name are given one file name, so the second upload
   * overwrites the first and both rows name the one file.
   */
  method SharedUpload(hash: (string, string) -> string, matches: (string, string) -> bool,
                      body: Body, u: Upload, now: nat) returns (s: Store)
    requires Truthy(FieldOf(body, "title")) && Truthy(FieldOf(body, "link"))
    ensures fresh(s) && s.Valid() && s.games.rows.Keys == {1, 2} && s.disk == {DiskPath(u)}
    ensures s.games.rows[1].image == s.games.rows[2].image == Text(PublicPath(u))
    ensures FilesPresent(s.State())
  {
    s := new Store(hash, matches);
    var game := Game(FieldOf(body, "title"), FieldOf(body, "link"), Text(PublicPath(u)), now);
    var created := s.CreateGame(body, Some(u), now);
    assert s.games == Table(map[1 := game], 2) && s.disk == {DiskPath(u)};
    created := s.CreateGame(body, Some(u), now);
    assert s.games == Table(map[1 := game, 2 := game], 3) && s.disk == {DiskPath(u)};
  }

  /**
   * Deleting the first of those games removes the shared file and leaves the
   * second game naming a file that is gone.
   */
  method SharedUploadDangles(hash: (string, string) -> string, matches: (string, string) -> bool,
                             body: Body, u: Upload, now: nat) returns (s: Store)
    requires Truthy(FieldOf(body, "title")) && Truthy(FieldOf(body, "link"))
    ensures s.Valid() && s.games.rows.Keys == {2} && s.games.rows[2].image == Text(PublicPath(u))
    ensures s.disk == {}
    ensures !FilesPresent(s.State())
  {
    s := SharedUpload(hash, matches, body, u, now);
    assert ParseNat("1") == Some(1) by {
      ParseNatOfDecimal(1);
    }
    PublicPathResolves(u);
    var deleted := s.DeleteGame("1");
    assert GameFile(s.games.rows[2]) == Some(DiskPath(u));
  }
}
