/**
 The request handlers as pure transitions from a state and a request to a
 response and a new state. The state is the database and the session, which
 is either anonymous or holds one user id. Handlers read their form fields
 straight from the request; none of them consults the form validators.
 */
module App {
  import opened Wrappers
  import opened Hashing
  import opened Models

  datatype State = State(db: Db, session: Option<UserId>)

  datatype Response =
    | Ok                          // the page or the redirect of a successful request
    | Listing(assets: seq<Asset>) // the asset list page
    | RedirectToLogin             // `login_required` turning away an anonymous visitor
    | Forbidden                   // abort(403)
    | NotFound                    // get_or_404
    | InvalidCredentials
    | UsernameTaken

  datatype Reply = Reply(response: Response, next: State)

  datatype Credentials = Credentials(username: string, password: string)
  datatype AssetInput = AssetInput(name: string, description: string)

  /** One request per route. A form of `None` is a GET, which only renders the
      page; `Some` carries the POSTed fields. `now` is the clock reading taken
      when a new asset row is inserted. */
  datatype Request =
    | Home
    | Login(credentials: Option<Credentials>)
    | Logout
    | Register(credentials: Option<Credentials>)
    | NewAsset(input: Option<AssetInput>, now: Timestamp)
    | ListAssets
    | EditAsset(assetId: AssetId, input: Option<AssetInput>)
    | DeleteAsset(assetId: AssetId)

  /** The session's stored id resolved through `load_user`; a session whose id
      no longer resolves is anonymous. */
  function CurrentUser(st: State): (r: Option<User>)
    ensures r.Some? <==> st.session.Some? && HasUser(st.db.users, st.session.value)
    ensures r.Some? ==> r.value in st.db.users && r.value.id == st.session.value
  {
    match st.session
    case None => None
    case Some(id) => UserById(st.db.users, id)
  }

  /** The outcome of a guard: the request goes on as `user`, or stops with `response`. */
  datatype Gate = Admit(user: User) | Refuse(response: Response)

  /** `login_required`. */
  function LoginRequired(st: State): (g: Gate)
    ensures g.Admit? ==> CurrentUser(st) == Some(g.user)
    ensures g.Refuse? ==> CurrentUser(st).None? && g.response == RedirectToLogin
  {
    match CurrentUser(st)
    case None => Refuse(RedirectToLogin)
    case Some(u) => Admit(u)
  }

  /** `admin_required`: authentication first, role second. */
  function AdminRequired(st: State): (g: Gate)
    ensures g.Admit? ==> CurrentUser(st) == Some(g.user) && g.user.role == AdminRole
    ensures CurrentUser(st).None? ==> g == Refuse(RedirectToLogin)
    ensures CurrentUser(st).Some? && CurrentUser(st).value.role != AdminRole ==> g == Refuse(Forbidden)
    ensures CurrentUser(st).Some? && CurrentUser(st).value.role == AdminRole ==> g == Admit(CurrentUser(st).value)
  {
    match LoginRequired(st)
    case Refuse(response) => Refuse(response)
    case Admit(u) => if u.role != AdminRole then Refuse(Forbidden) else Admit(u)
  }

  function HomeRoute(st: State): (r: Reply)
    ensures r.next == st
    ensures r.response == (if CurrentUser(st).Some? then Ok else RedirectToLogin)
  {
    match LoginRequired(st)
    case Refuse(response) => Reply(response, st)
    case Admit(_) => Reply(Ok, st)
  }

  function LoginRoute(h: Hasher, st: State, credentials: Option<Credentials>): (r: Reply)
    ensures r.next.db == st.db
    ensures r.response == Ok || r.response == InvalidCredentials
    ensures r.response == InvalidCredentials ==> r.next == st
    ensures credentials.None? ==> r == Reply(Ok, st)
    ensures credentials.Some? && r.response == Ok ==>
      exists i :: 0 <= i < |st.db.users|
        && st.db.users[i].username == credentials.value.username
        && h.verify(st.db.users[i].password, credentials.value.password)
        && r.next.session == Some(st.db.users[i].id)
  {
    match credentials
    case None => Reply(Ok, st)
    case Some(c) =>
      match UserByName(st.db.users, c.username)
      case None => Reply(InvalidCredentials, st)
      case Some(u) =>
        if h.verify(u.password, c.password) then Reply(Ok, st.(session := Some(u.id)))
        else Reply(InvalidCredentials, st)
  }

  function LogoutRoute(st: State): (r: Reply)
    ensures r.next.db == st.db
    ensures CurrentUser(st).None? ==> r == Reply(RedirectToLogin, st)
    ensures CurrentUser(st).Some? ==> r.response == Ok && r.next.session.None?
  {
    match LoginRequired(st)
    case Refuse(response) => Reply(response, st)
    case Admit(_) => Reply(Ok, st.(session := None))
  }

  function RegisterRoute(h: Hasher, st: State, credentials: Option<Credentials>): (r: Reply)
    ensures r.next.session == st.session && r.next.db.assets == st.db.assets
    ensures r.response == Ok || r.response == UsernameTaken
    ensures credentials.None? ==> r == Reply(Ok, st)
    ensures credentials.Some? ==>
      (r.response == UsernameTaken <==> UsernameInUse(st.db.users, credentials.value.username))
    ensures r.response == UsernameTaken ==> r.next == st
    ensures credentials.Some? && r.response == Ok ==>
      var n := |st.db.users|;
      && |r.next.db.users| == n + 1
      && r.next.db.users[..n] == st.db.users
      && r.next.db.users[n].username == credentials.value.username
      && r.next.db.users[n].password == h.hash(credentials.value.password)
      && r.next.db.users[n].role == DefaultRole
      && !HasUser(st.db.users, r.next.db.users[n].id)
  {
    match credentials
    case None => Reply(Ok, st)
    case Some(c) =>
      if UserByName(st.db.users, c.username).Some? then Reply(UsernameTaken, st)
      else Reply(Ok, st.(db := InsertUser(st.db, c.username, h.hash(c.password), DefaultRole)))
  }

  function NewAssetRoute(st: State, input: Option<AssetInput>, now: Timestamp): (r: Reply)
    ensures r.next.session == st.session && r.next.db.users == st.db.users
    ensures CurrentUser(st).None? ==> r == Reply(RedirectToLogin, st)
    ensures CurrentUser(st).Some? ==> r.response == Ok
    ensures input.None? ==> r.next == st
    ensures CurrentUser(st).Some? && input.Some? ==>
      var n := |st.db.assets|;
      && |r.next.db.assets| == n + 1
      && r.next.db.assets[..n] == st.db.assets
      && r.next.db.assets[n].name == input.value.name
      && r.next.db.assets[n].description == Some(input.value.description)
      && r.next.db.assets[n].ownerId == st.session.value
      && r.next.db.assets[n].dateCreated == now
      && r.next.db.assets[n].createdBy.None?
      && !HasAsset(st.db.assets, r.next.db.assets[n].id)
  {
    match LoginRequired(st)
    case Refuse(response) => Reply(response, st)
    case Admit(u) =>
      match input
      case None => Reply(Ok, st)
      case Some(a) => Reply(Ok, st.(db := InsertAsset(st.db, a.name, Some(a.description), u.id, now)))
  }

  function ListAssetsRoute(st: State): (r: Reply)
    ensures r.next == st
    ensures CurrentUser(st).None? ==> r.response == RedirectToLogin
    ensures CurrentUser(st).Some? ==> r.response == Listing(st.db.assets)
  {
    match LoginRequired(st)
    case Refuse(response) => Reply(response, st)
    case Admit(_) => Reply(Listing(st.db.assets), st)
  }

  function EditAssetRoute(st: State, id: AssetId, input: Option<AssetInput>): (r: Reply)
    ensures r.next.session == st.session && r.next.db.users == st.db.users
    ensures CurrentUser(st).None? ==> r == Reply(RedirectToLogin, st)
    ensures CurrentUser(st).Some? && !HasAsset(st.db.assets, id) ==> r == Reply(NotFound, st)
    ensures CurrentUser(st).Some? && HasAsset(st.db.assets, id) ==> r.response == Ok
    ensures input.None? ==> r.next == st
    ensures |r.next.db.assets| == |st.db.assets|
    ensures forall k :: 0 <= k < |st.db.assets| && st.db.assets[k].id != id ==>
      r.next.db.assets[k] == st.db.assets[k]
    ensures forall k :: 0 <= k < |st.db.assets| ==>
      var (a, b) := (st.db.assets[k], r.next.db.assets[k]);
      && b.id == a.id && b.ownerId == a.ownerId
      && b.dateCreated == a.dateCreated && b.createdBy == a.createdBy
    ensures CurrentUser(st).Some? && input.Some? ==>
      forall k :: 0 <= k < |st.db.assets| && r.next.db.assets[k] != st.db.assets[k] ==>
        && r.next.db.assets[k].name == input.value.name
        && r.next.db.assets[k].description == Some(input.value.description)
    ensures CurrentUser(st).Some? && input.Some? && HasAsset(st.db.assets, id) ==>
      exists i :: 0 <= i < |st.db.assets| && st.db.assets[i].id == id
        && r.next.db.assets == st.db.assets[i := st.db.assets[i].(
             name := input.value.name, description := Some(input.value.description))]
  {
    match LoginRequired(st)
    case Refuse(response) => Reply(response, st)
    case Admit(_) =>
      match AssetIndex(st.db.assets, id)
      case None => Reply(NotFound, st)
      case Some(i) =>
        match input
        case None => Reply(Ok, st)
        case Some(a) =>
          var edited := st.db.assets[i].(name := a.name, description := Some(a.description));
          Reply(Ok, st.(db := st.db.(assets := st.db.assets[i := edited])))
  }

  function DeleteAssetRoute(st: State, id: AssetId): (r: Reply)
    ensures r.next.session == st.session && r.next.db.users == st.db.users
    ensures CurrentUser(st).None? ==> r == Reply(RedirectToLogin, st)
    ensures CurrentUser(st).Some? && CurrentUser(st).value.role != AdminRole ==> r == Reply(Forbidden, st)
    ensures r.response == Ok ==>
      exists i :: 0 <= i < |st.db.assets| && st.db.assets[i].id == id
        && r.next.db.assets == RemoveAt(st.db.assets, i)
    ensures r.response != Ok ==> r.next == st
  {
    match AdminRequired(st)
    case Refuse(response) => Reply(response, st)
    case Admit(_) =>
      match AssetIndex(st.db.assets, id)
      case None => Reply(NotFound, st)
      case Some(i) => Reply(Ok, st.(db := st.db.(assets := RemoveAt(st.db.assets, i))))
  }

  /** Dispatch of a request to its route. */
  function Step(h: Hasher, st: State, req: Request): Reply
  {
    match req
    case Home => HomeRoute(st)
    case Login(credentials) => LoginRoute(h, st, credentials)
    case Logout => LogoutRoute(st)
    case Register(credentials) => RegisterRoute(h, st, credentials)
    case NewAsset(input, now) => NewAssetRoute(st, input, now)
    case ListAssets => ListAssetsRoute(st)
    case EditAsset(id, input) => EditAssetRoute(st, id, input)
    case DeleteAsset(id) => DeleteAssetRoute(st, id)
  }

  /** The state after a sequence of requests, handled one at a time. */
  function Run(h: Hasher, st: State, reqs: seq<Request>): State
    decreases |reqs|
  {
    if |reqs| == 0 then st else Run(h, Step(h, st, reqs[0]).next, reqs[1..])
  }

  /** An empty database with an anonymous visitor. */
  function Initial(): (st: State)
    ensures Inv(st)
    ensures CurrentUser(st).None?
  {
    State(Db([], []), None)
  }

  /** The application invariant: the storage constraints hold and a session's
      user id names a stored user. */
  predicate Inv(st: State)
  {
    Valid(st.db) && (st.session.Some? ==> HasUser(st.db.users, st.session.value))
  }
}
