/**
 Properties of the application as a whole: the invariant every request
 preserves, the ordering of the guards, the login and registration contracts,
 and the session's lifecycle.
 */
module AppProperties {
  import opened Wrappers
  import opened Hashing
  import opened Models
  import Forms
  import opened App

  // The invariant.

  /** No route deletes users, writes an asset without an existing owner, or
      reuses a key, so every request preserves the invariant; in particular a
      session's user id always resolves through `load_user`. */
  lemma StepPreservesInv(h: Hasher, st: State, req: Request)
    requires Inv(st)
    ensures Inv(Step(h, st, req).next)
    ensures Step(h, st, req).next.session.Some? ==> CurrentUser(Step(h, st, req).next).Some?
  {
    var r := Step(h, st, req);
    match req
    case Home =>
    case Login(c) =>
      if r.response == Ok && c.Some? {
        var i :| 0 <= i < |st.db.users| && st.db.users[i].username == c.value.username
          && h.verify(st.db.users[i].password, c.value.password)
          && r.next.session == Some(st.db.users[i].id);
        assert HasUser(st.db.users, st.db.users[i].id);
      }
    case Logout =>
    case Register(c) =>
      if c.Some? && r.response == Ok {
        InsertUserKeepsValid(st.db, c.value.username, h.hash(c.value.password), DefaultRole);
        if st.session.Some? {
          UsersPrefixKeepsHasUser(st.db.users, r.next.db.users, st.session.value);
        }
      }
    case NewAsset(input, now) =>
      if CurrentUser(st).Some? && input.Some? {
        var u := CurrentUser(st).value;
        InsertAssetKeepsValid(st.db, input.value.name, Some(input.value.description), u.id, now);
      }
    case ListAssets =>
    case EditAsset(id, input) =>
      if CurrentUser(st).Some? && input.Some? && HasAsset(st.db.assets, id) {
        var i := AssetIndex(st.db.assets, id).value;
        var a := input.value;
        UpdateAssetKeepsValid(st.db, i, a.name, Some(a.description));
      }
    case DeleteAsset(id) =>
      if r.response == Ok {
        var i :| 0 <= i < |st.db.assets| && st.db.assets[i].id == id
          && r.next.db.assets == RemoveAt(st.db.assets, i);
        RemoveAssetKeepsValid(st.db, i);
      }
  }

  lemma UsersPrefixKeepsHasUser(users: seq<User>, users': seq<User>, id: UserId)
    requires |users| <= |users'| && users'[..|users|] == users
    requires HasUser(users, id)
    ensures HasUser(users', id)
  {
    var j :| 0 <= j < |users| && users[j].id == id;
    assert users'[j] == users[j];
  }

  /** Under the unique-username constraint a username picks out one row. */
  lemma SameUsernameSameRow(users: seq<User>, i: nat, j: nat)
    requires UniqueUsernames(users)
    requires i < |users| && j < |users|
    requires users[i].username == users[j].username
    ensures i == j
  {
  }

  /** Under the primary-key constraint a user id picks out one row. */
  lemma SameIdSameRow(users: seq<User>, i: nat, j: nat)
    requires UniqueUserIds(users)
    requires i < |users| && j < |users|
    requires users[i].id == users[j].id
    ensures i == j
  {
  }

  /** Every request keeps the existing user rows, in place and unchanged; a row
      it adds has the default role. */
  lemma UsersOnlyGrow(h: Hasher, st: State, req: Request)
    ensures var users' := Step(h, st, req).next.db.users;
      && |st.db.users| <= |users'|
      && users'[..|st.db.users|] == st.db.users
      && forall k :: |st.db.users| <= k < |users'| ==> users'[k].role == DefaultRole
  {
    var users' := Step(h, st, req).next.db.users;
    assert users' == st.db.users || |users'| == |st.db.users| + 1;
    assert users'[..|st.db.users|] == st.db.users;
  }

  /** No route creates an administrator: every admin after a request was
      already stored before it. */
  lemma NoRouteCreatesAdmin(h: Hasher, st: State, req: Request)
    ensures var users' := Step(h, st, req).next.db.users;
      forall k :: 0 <= k < |users'| && users'[k].role == AdminRole ==> users'[k] in st.db.users
  {
    var users' := Step(h, st, req).next.db.users;
    UsersOnlyGrow(h, st, req);
    forall k | 0 <= k < |users'| && users'[k].role == AdminRole
      ensures users'[k] in st.db.users
    {
      assert k < |st.db.users|;
      assert users'[k] == st.db.users[k];
    }
  }

  // The guards.

  /** An anonymous visitor is sent to the login page, never told `Forbidden`:
      authentication is always checked before the role. */
  lemma AnonymousNeverForbidden(h: Hasher, st: State, req: Request)
    requires CurrentUser(st).None?
    ensures Step(h, st, req).response != Forbidden
    ensures !req.Login? && !req.Register? ==>
      Step(h, st, req) == Reply(RedirectToLogin, st)
  {
  }

  /** `Forbidden` arises only from a non-admin asking to delete. */
  lemma ForbiddenOnlyForNonAdminDelete(h: Hasher, st: State, req: Request)
    requires Step(h, st, req).response == Forbidden
    ensures req.DeleteAsset?
    ensures CurrentUser(st).Some? && CurrentUser(st).value.role != AdminRole
    ensures Step(h, st, req).next == st
  {
  }

  /** The role check runs before the lookup: a non-admin is refused even for an
      id that names no asset. */
  lemma DeleteForbiddenEvenIfMissing(st: State, id: AssetId)
    requires CurrentUser(st).Some? && CurrentUser(st).value.role != AdminRole
    requires !HasAsset(st.db.assets, id)
    ensures DeleteAssetRoute(st, id) == Reply(Forbidden, st)
  {
  }

  /** An administrator's delete proceeds to the lookup: a missing id is
      `NotFound` with nothing changed, and otherwise exactly the asset with
      that id is removed. */
  lemma AdminDelete(st: State, id: AssetId)
    requires Valid(st.db)
    requires CurrentUser(st).Some? && CurrentUser(st).value.role == AdminRole
    ensures !HasAsset(st.db.assets, id) ==> DeleteAssetRoute(st, id) == Reply(NotFound, st)
    ensures HasAsset(st.db.assets, id) ==>
      var r := DeleteAssetRoute(st, id);
      && r.response == Ok
      && |r.next.db.assets| == |st.db.assets| - 1
      && (forall a :: a in r.next.db.assets <==> a in st.db.assets && a.id != id)
  {
    if HasAsset(st.db.assets, id) {
      var r := DeleteAssetRoute(st, id);
      var i :| 0 <= i < |st.db.assets| && st.db.assets[i].id == id
        && r.next.db.assets == RemoveAt(st.db.assets, i);
      RemoveOnlyTarget(st.db.assets, i);
    }
  }

  /** With distinct keys, removing position `i` removes exactly the asset whose
      key is that position's key. */
  lemma RemoveOnlyTarget(assets: seq<Asset>, i: nat)
    requires UniqueAssetIds(assets)
    requires i < |assets|
    ensures forall a :: a in RemoveAt(assets, i) <==> a in assets && a.id != assets[i].id
  {
    var r := RemoveAt(assets, i);
    forall a
      ensures a in r <==> a in assets && a.id != assets[i].id
    {
      if a in r {
        var k :| 0 <= k < |r| && r[k] == a;
        var k' := if k < i then k else k + 1;
        assert assets[k'] == a;
        assert a.id != assets[i].id by {
          if k' < i {
            assert assets[k'].id != assets[i].id;
          } else {
            assert assets[i].id != assets[k'].id;
          }
        }
      }
      if a in assets && a.id != assets[i].id {
        var k :| 0 <= k < |assets| && assets[k] == a;
        assert k != i;
        if k < i {
          assert r[k] == a;
        } else {
          assert r[k - 1] == a;
        }
      }
    }
  }

  // Login and registration.

  /** A login succeeds exactly when a user with that username exists and the
      password verifies against its digest; the session then holds that user's
      id. On failure nothing changes. */
  lemma LoginIff(h: Hasher, st: State, c: Credentials)
    requires Valid(st.db)
    ensures var r := LoginRoute(h, st, Some(c));
      && (r.response == Ok <==>
           exists i :: 0 <= i < |st.db.users| && st.db.users[i].username == c.username
             && h.verify(st.db.users[i].password, c.password))
      && (r.response == Ok ==>
           forall i :: 0 <= i < |st.db.users| && st.db.users[i].username == c.username ==>
             r.next.session == Some(st.db.users[i].id))
      && (r.response != Ok ==> r == Reply(InvalidCredentials, st))
  {
    var r := LoginRoute(h, st, Some(c));
    var found := UserByName(st.db.users, c.username);
    if found.Some? {
      var u := found.value;
      var j :| 0 <= j < |st.db.users| && st.db.users[j] == u;
      forall i | 0 <= i < |st.db.users| && st.db.users[i].username == c.username
        ensures st.db.users[i] == u
      {
        SameUsernameSameRow(st.db.users, i, j);
      }
    }
  }

  /** An unknown username and a known username with a wrong password produce
      the same reply value and leave the state unchanged. */
  lemma LoginFailuresIndistinguishable(h: Hasher, st: State, unknown: Credentials, wrong: Credentials)
    requires Valid(st.db)
    requires !UsernameInUse(st.db.users, unknown.username)
    requires UsernameInUse(st.db.users, wrong.username)
    requires forall i :: 0 <= i < |st.db.users| && st.db.users[i].username == wrong.username ==>
      !h.verify(st.db.users[i].password, wrong.password)
    ensures LoginRoute(h, st, Some(unknown)) == Reply(InvalidCredentials, st)
    ensures LoginRoute(h, st, Some(wrong)) == Reply(InvalidCredentials, st)
    ensures LoginRoute(h, st, Some(unknown)) == LoginRoute(h, st, Some(wrong))
  {
    LoginIff(h, st, unknown);
    LoginIff(h, st, wrong);
  }

  /** Registering and then logging in with the same credentials authenticates
      the new account, given only that the hasher round-trips. */
  lemma RegisterThenLogin(h: Hasher, st: State, c: Credentials)
    requires RoundTrips(h)
    requires Valid(st.db)
    requires !UsernameInUse(st.db.users, c.username)
    ensures var st1 := RegisterRoute(h, st, Some(c)).next;
      var r := LoginRoute(h, st1, Some(c));
      && r.response == Ok
      && CurrentUser(r.next).Some?
      && CurrentUser(r.next).value.username == c.username
      && CurrentUser(r.next).value.role == DefaultRole
      && CurrentUser(r.next).value !in st.db.users
  {
    var st1 := RegisterRoute(h, st, Some(c)).next;
    var n := |st.db.users|;
    var u := st1.db.users[n];
    InsertUserKeepsValid(st.db, c.username, h.hash(c.password), DefaultRole);
    assert h.verify(u.password, c.password);
    LoginIff(h, st1, c);
    var r := LoginRoute(h, st1, Some(c));
    assert r.next.session == Some(u.id);
    assert HasUser(st1.db.users, u.id);
    var cu := CurrentUser(r.next).value;
    var k :| 0 <= k < |st1.db.users| && st1.db.users[k] == cu;
    SameIdSameRow(st1.db.users, k, n);
    assert forall j :: 0 <= j < n ==> st.db.users[j].id != u.id;
  }

  /** Assuming the hasher rejects every password but the one hashed, logging in
      with any other password fails. */
  lemma WrongPasswordRejected(h: Hasher, st: State, c: Credentials, p: string)
    requires Discriminating(h)
    requires Valid(st.db)
    requires exists i :: (0 <= i < |st.db.users| && st.db.users[i].username == c.username
      && st.db.users[i].password == h.hash(p))
    requires c.password != p
    ensures LoginRoute(h, st, Some(c)) == Reply(InvalidCredentials, st)
  {
    var i :| 0 <= i < |st.db.users| && st.db.users[i].username == c.username
      && st.db.users[i].password == h.hash(p);
    LoginIff(h, st, c);
    forall j | 0 <= j < |st.db.users| && st.db.users[j].username == c.username
      ensures !h.verify(st.db.users[j].password, c.password)
    {
      SameUsernameSameRow(st.db.users, i, j);
    }
  }

  // The session lifecycle.

  /** The session moves to a new user only through a login whose credentials
      verify against that user's stored digest. */
  lemma SessionOnlyViaLogin(h: Hasher, st: State, req: Request)
    requires Step(h, st, req).next.session.Some?
    requires Step(h, st, req).next.session != st.session
    ensures req.Login? && req.credentials.Some?
    ensures exists i :: (0 <= i < |st.db.users|
      && st.db.users[i].username == req.credentials.value.username
      && h.verify(st.db.users[i].password, req.credentials.value.password)
      && Step(h, st, req).next.session == Some(st.db.users[i].id))
  {
  }

  /** After logout the visitor is anonymous. */
  lemma LogoutEndsIdentity(st: State)
    requires CurrentUser(st).Some?
    ensures CurrentUser(LogoutRoute(st).next).None?
    ensures LogoutRoute(st).next.db == st.db
  {
  }

  /** An authenticated user stays the current user through every request other
      than logout and login. */
  lemma IdentityStable(h: Hasher, st: State, req: Request, u: User)
    requires Inv(st)
    requires CurrentUser(st) == Some(u)
    requires !req.Logout? && !req.Login?
    ensures CurrentUser(Step(h, st, req).next) == Some(u)
  {
    var st' := Step(h, st, req).next;
    UsersOnlyGrow(h, st, req);
    var j :| 0 <= j < |st.db.users| && st.db.users[j] == u;
    assert st'.db.users[j] == u;
    assert HasUser(st'.db.users, u.id);
    var v := CurrentUser(st').value;
    var k :| 0 <= k < |st'.db.users| && st'.db.users[k] == v;
    StepPreservesInv(h, st, req);
    SameIdSameRow(st'.db.users, j, k);
  }

  // Assets.

  /** `new_asset` makes no name check: an existing name is accepted again,
      and the new row is owned by the current user. */
  lemma NewAssetAcceptsDuplicateName(st: State, input: AssetInput, now: Timestamp)
    requires CurrentUser(st).Some?
    requires AssetNameInUse(st.db.assets, input.name)
    ensures var r := NewAssetRoute(st, Some(input), now);
      && r.response == Ok
      && |r.next.db.assets| == |st.db.assets| + 1
      && r.next.db.assets[|st.db.assets|].ownerId == CurrentUser(st).value.id
      && (exists i, j :: 0 <= i < j < |r.next.db.assets|
           && r.next.db.assets[i].name == r.next.db.assets[j].name)
  {
    var r := NewAssetRoute(st, Some(input), now);
    var n := |st.db.assets|;
    var i :| 0 <= i < n && st.db.assets[i].name == input.name;
    assert r.next.db.assets[i] == st.db.assets[i];
  }

  /** The routes do not apply the asset form: input the form refuses is stored
      all the same. */
  lemma NewAssetIgnoresAssetForm(st: State, input: AssetInput, now: Timestamp)
    requires CurrentUser(st).Some?
    requires !Forms.AssetValid(st.db.assets, Forms.AssetFields(input.name, input.description))
    ensures NewAssetRoute(st, Some(input), now).response == Ok
    ensures NewAssetRoute(st, Some(input), now).next.db.assets[|st.db.assets|].name == input.name
  {
  }

  /** Editing a missing id is `NotFound` and changes nothing; otherwise only the
      name and description of the asset with that id change. */
  lemma EditChangesOnlyTarget(st: State, id: AssetId, input: AssetInput)
    requires Valid(st.db)
    requires CurrentUser(st).Some?
    ensures !HasAsset(st.db.assets, id) ==> EditAssetRoute(st, id, Some(input)) == Reply(NotFound, st)
    ensures HasAsset(st.db.assets, id) ==>
      var assets' := EditAssetRoute(st, id, Some(input)).next.db.assets;
      forall k :: 0 <= k < |st.db.assets| ==>
        assets'[k] == if st.db.assets[k].id == id
          then st.db.assets[k].(name := input.name, description := Some(input.description))
          else st.db.assets[k]
  {
  }

  // Runs of requests.

  lemma {:induction false} RunPreservesInv(h: Hasher, st: State, reqs: seq<Request>)
    requires Inv(st)
    ensures Inv(Run(h, st, reqs))
    decreases |reqs|
  {
    if |reqs| > 0 {
      StepPreservesInv(h, st, reqs[0]);
      RunPreservesInv(h, Step(h, st, reqs[0]).next, reqs[1..]);
    }
  }

  /** However many requests are handled, every administrator at the end was
      already stored at the start. */
  lemma {:induction false} RunCreatesNoAdmin(h: Hasher, st: State, reqs: seq<Request>)
    ensures var users' := Run(h, st, reqs).db.users;
      forall k :: 0 <= k < |users'| && users'[k].role == AdminRole ==> users'[k] in st.db.users
    decreases |reqs|
  {
    if |reqs| > 0 {
      var mid := Step(h, st, reqs[0]).next;
      NoRouteCreatesAdmin(h, st, reqs[0]);
      RunCreatesNoAdmin(h, mid, reqs[1..]);
      assert Run(h, st, reqs) == Run(h, mid, reqs[1..]);
      var users' := Run(h, st, reqs).db.users;
      forall k | 0 <= k < |users'| && users'[k].role == AdminRole
        ensures users'[k] in st.db.users
      {
        assert users'[k] in mid.db.users;
        var m :| 0 <= m < |mid.db.users| && mid.db.users[m] == users'[k];
      }
    }
  }

  /** Starting from an empty database no request sequence ever yields an
      administrator, so the only way to have one is out-of-band seeding. */
  lemma NoAdminFromEmpty(h: Hasher, reqs: seq<Request>)
    ensures var users' := Run(h, Initial(), reqs).db.users;
      forall k :: 0 <= k < |users'| ==> users'[k].role != AdminRole
  {
    RunCreatesNoAdmin(h, Initial(), reqs);
  }

  /** The access-control scenario: with an admin and a regular user stored and
      an asset owned by the regular user, the user's delete is refused with
      `Forbidden` and leaves the asset, and the admin's delete removes it. */
  lemma DeleteScenario(h: Hasher)
    ensures var admin := User(1, "admin", "d1", AdminRole);
      var user := User(2, "user", "d2", DefaultRole);
      var asset := Asset(1, "UserAsset", Some("An asset for testing"), 2, 0, None);
      var db := Db([admin, user], [asset]);
      && DeleteAssetRoute(State(db, Some(2)), 1) == Reply(Forbidden, State(db, Some(2)))
      && DeleteAssetRoute(State(db, Some(1)), 1) == Reply(Ok, State(db.(assets := []), Some(1)))
      && DeleteAssetRoute(State(db, None), 1) == Reply(RedirectToLogin, State(db, None))
  {
    var admin := User(1, "admin", "d1", AdminRole);
    var user := User(2, "user", "d2", DefaultRole);
    var asset := Asset(1, "UserAsset", Some("An asset for testing"), 2, 0, None);
    var db := Db([admin, user], [asset]);
    assert db.users[1].id == 2 && db.users[0].id == 1;
    assert HasUser(db.users, 2) && HasUser(db.users, 1);
    assert db.assets[0].id == 1;
    assert HasAsset(db.assets, 1);
  }
}
