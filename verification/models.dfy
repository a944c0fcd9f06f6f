/**
 The two persisted record types, `User` and `Asset`, and the database that
 holds them. Each table is a sequence of rows in row order, so that a query's
 `.first()` is the first matching row. Integer primary keys are assigned the
 way SQLite assigns a rowid when none is given: one more than the largest key
 in the table, or 1 for an empty table.
 */
module Models {
  import opened Wrappers
  import opened Hashing

  type UserId = nat
  type AssetId = nat

  /** A clock reading; only ever compared for equality. */
  type Timestamp = int

  /** The role column's default, and the role `admin_required` asks for. */
  const DefaultRole: string := "user"
  const AdminRole: string := "admin"

  /** The declared width of the asset name column. SQLite does not enforce it,
      so it is recorded here and never checked. */
  const AssetNameWidth: nat := 100

  datatype User = User(id: UserId, username: string, password: Digest, role: string)

  /** `description` and `createdBy` are the nullable columns. */
  datatype Asset = Asset(
    id: AssetId,
    name: string,
    description: Option<string>,
    ownerId: UserId,
    dateCreated: Timestamp,
    createdBy: Option<string>)

  datatype Db = Db(users: seq<User>, assets: seq<Asset>)

  /** Position of the first element of `s` that satisfies `p`. */
  function FirstIndex<T>(s: seq<T>, p: T -> bool): (r: Option<nat>)
    ensures r.Some? ==> r.value < |s| && p(s[r.value])
    ensures r.Some? ==> forall j :: 0 <= j < r.value ==> !p(s[j])
    ensures r.None? ==> forall j :: 0 <= j < |s| ==> !p(s[j])
  {
    if |s| == 0 then None
    else if p(s[0]) then Some(0)
    else
      match FirstIndex(s[1..], p)
      case None =>
        assert forall j :: 1 <= j < |s| ==> s[j] == s[1..][j - 1];
        None
      case Some(k) =>
        assert forall j :: 1 <= j <= k + 1 ==> s[j] == s[1..][j - 1];
        Some(k + 1)
  }

  /** The largest key of a table, 0 for an empty one. */
  function MaxId(ids: seq<nat>): (m: nat)
    ensures forall i :: 0 <= i < |ids| ==> ids[i] <= m
    ensures |ids| == 0 ==> m == 0
    ensures |ids| > 0 ==> m in ids
  {
    if |ids| == 0 then 0
    else
      var rest := MaxId(ids[1..]);
      assert forall i :: 1 <= i < |ids| ==> ids[i] == ids[1..][i - 1];
      if ids[0] >= rest then ids[0] else rest
  }

  /** The key SQLite gives a new row: one more than the largest, 1 if there is none. */
  function NextId(ids: seq<nat>): (r: nat)
    ensures forall i :: 0 <= i < |ids| ==> ids[i] < r
    ensures |ids| == 0 ==> r == 1
    ensures |ids| > 0 ==> r - 1 in ids
  {
    MaxId(ids) + 1
  }

  /** The key column of a table, in row order. */
  function Keys<T>(rows: seq<T>, key: T -> nat): (ks: seq<nat>)
    ensures |ks| == |rows|
    ensures forall i :: 0 <= i < |rows| ==> ks[i] == key(rows[i])
  {
    seq(|rows|, i requires 0 <= i < |rows| => key(rows[i]))
  }

  predicate HasUser(users: seq<User>, id: UserId)
  {
    exists j :: 0 <= j < |users| && users[j].id == id
  }

  predicate HasAsset(assets: seq<Asset>, id: AssetId)
  {
    exists j :: 0 <= j < |assets| && assets[j].id == id
  }

  predicate UsernameInUse(users: seq<User>, name: string)
  {
    exists j :: 0 <= j < |users| && users[j].username == name
  }

  predicate AssetNameInUse(assets: seq<Asset>, name: string)
  {
    exists j :: 0 <= j < |assets| && assets[j].name == name
  }

  /** Primary keys: user ids are pairwise distinct. */
  predicate UniqueUserIds(users: seq<User>)
  {
    forall i, j :: 0 <= i < j < |users| ==> users[i].id != users[j].id
  }

  /** `unique=True` on the username column. */
  predicate UniqueUsernames(users: seq<User>)
  {
    forall i, j :: 0 <= i < j < |users| ==> users[i].username != users[j].username
  }

  /** Primary keys: asset ids are pairwise distinct. */
  predicate UniqueAssetIds(assets: seq<Asset>)
  {
    forall i, j :: 0 <= i < j < |assets| ==> assets[i].id != assets[j].id
  }

  /** The foreign key `owner_id -> user.id` resolves for every asset. */
  predicate OwnersExist(db: Db)
  {
    forall i :: 0 <= i < |db.assets| ==> HasUser(db.users, db.assets[i].ownerId)
  }

  /** The storage invariant. Asset names are deliberately absent: the name
      column carries no uniqueness constraint. */
  predicate Valid(db: Db)
  {
    && UniqueUserIds(db.users)
    && UniqueUsernames(db.users)
    && UniqueAssetIds(db.assets)
    && OwnersExist(db)
  }

  /** `User.query.get(id)`. */
  function UserById(users: seq<User>, id: UserId): (r: Option<User>)
    ensures r.Some? <==> HasUser(users, id)
    ensures r.Some? ==> r.value in users && r.value.id == id
  {
    match FirstIndex(users, (u: User) => u.id == id)
    case None => None
    case Some(i) => Some(users[i])
  }

  /** `User.query.filter_by(username=name).first()`. */
  function UserByName(users: seq<User>, name: string): (r: Option<User>)
    ensures r.Some? <==> UsernameInUse(users, name)
    ensures r.Some? ==> r.value in users && r.value.username == name
  {
    match FirstIndex(users, (u: User) => u.username == name)
    case None => None
    case Some(i) => Some(users[i])
  }

  /** Position of the row `Asset.query.get_or_404(id)` finds. */
  function AssetIndex(assets: seq<Asset>, id: AssetId): (r: Option<nat>)
    ensures r.Some? <==> HasAsset(assets, id)
    ensures r.Some? ==> r.value < |assets| && assets[r.value].id == id
  {
    FirstIndex(assets, (a: Asset) => a.id == id)
  }

  /** `Asset.query.filter_by(name=name).first()`. */
  function AssetByName(assets: seq<Asset>, name: string): (r: Option<Asset>)
    ensures r.Some? <==> AssetNameInUse(assets, name)
    ensures r.Some? ==> r.value in assets && r.value.name == name
  {
    match FirstIndex(assets, (a: Asset) => a.name == name)
    case None => None
    case Some(i) => Some(assets[i])
  }

  /** Adds one user row under a fresh key; nothing else changes. */
  function InsertUser(db: Db, username: string, password: Digest, role: string): (r: Db)
    ensures r.assets == db.assets
    ensures |r.users| == |db.users| + 1 && r.users[..|db.users|] == db.users
    ensures r.users[|db.users|].username == username
    ensures r.users[|db.users|].password == password
    ensures r.users[|db.users|].role == role
    ensures !HasUser(db.users, r.users[|db.users|].id)
  {
    var id := NextId(Keys(db.users, (u: User) => u.id));
    assert forall j :: 0 <= j < |db.users| ==> db.users[j].id < id;
    db.(users := db.users + [User(id, username, password, role)])
  }

  /** Adds one asset row under a fresh key, with the creation time supplied and
      no creator name; nothing else changes. */
  function InsertAsset(db: Db, name: string, description: Option<string>, ownerId: UserId, now: Timestamp): (r: Db)
    ensures r.users == db.users
    ensures |r.assets| == |db.assets| + 1 && r.assets[..|db.assets|] == db.assets
    ensures r.assets[|db.assets|].name == name
    ensures r.assets[|db.assets|].description == description
    ensures r.assets[|db.assets|].ownerId == ownerId
    ensures r.assets[|db.assets|].dateCreated == now
    ensures r.assets[|db.assets|].createdBy == None
    ensures !HasAsset(db.assets, r.assets[|db.assets|].id)
  {
    var id := NextId(Keys(db.assets, (a: Asset) => a.id));
    assert forall j :: 0 <= j < |db.assets| ==> db.assets[j].id < id;
    db.(assets := db.assets + [Asset(id, name, description, ownerId, now, None)])
  }

  /** The sequence without its element at position `i`. */
  function RemoveAt<T>(s: seq<T>, i: nat): (r: seq<T>)
    requires i < |s|
    ensures |r| == |s| - 1
    ensures forall k :: 0 <= k < i ==> r[k] == s[k]
    ensures forall k :: i <= k < |r| ==> r[k] == s[k + 1]
  {
    s[..i] + s[i + 1..]
  }

  // Preservation of the storage invariant by each kind of write.

  lemma InsertUserKeepsValid(db: Db, username: string, password: Digest, role: string)
    requires Valid(db)
    requires !UsernameInUse(db.users, username)
    ensures Valid(InsertUser(db, username, password, role))
  {
    var r := InsertUser(db, username, password, role);
    var n := |db.users|;
    assert forall k :: 0 <= k < n ==> r.users[k] == db.users[k];
    forall i | 0 <= i < |r.assets|
      ensures HasUser(r.users, r.assets[i].ownerId)
    {
      var j :| 0 <= j < n && db.users[j].id == db.assets[i].ownerId;
      assert r.users[j].id == r.assets[i].ownerId;
    }
  }

  lemma InsertAssetKeepsValid(db: Db, name: string, description: Option<string>, ownerId: UserId, now: Timestamp)
    requires Valid(db)
    requires HasUser(db.users, ownerId)
    ensures Valid(InsertAsset(db, name, description, ownerId, now))
  {
    var r := InsertAsset(db, name, description, ownerId, now);
    assert forall k :: 0 <= k < |db.assets| ==> r.assets[k] == db.assets[k];
  }

  lemma RemoveAssetKeepsValid(db: Db, i: nat)
    requires Valid(db)
    requires i < |db.assets|
    ensures Valid(db.(assets := RemoveAt(db.assets, i)))
  {
    var r := db.(assets := RemoveAt(db.assets, i));
    forall a, b | 0 <= a < b < |r.assets|
      ensures r.assets[a].id != r.assets[b].id
    {
      var a' := if a < i then a else a + 1;
      var b' := if b < i then b else b + 1;
      assert r.assets[a] == db.assets[a'] && r.assets[b] == db.assets[b'];
    }
    forall k | 0 <= k < |r.assets|
      ensures HasUser(r.users, r.assets[k].ownerId)
    {
      var k' := if k < i then k else k + 1;
      assert r.assets[k] == db.assets[k'];
    }
  }

  lemma UpdateAssetKeepsValid(db: Db, i: nat, name: string, description: Option<string>)
    requires Valid(db)
    requires i < |db.assets|
    ensures Valid(db.(assets := db.assets[i := db.assets[i].(name := name, description := description)]))
  {
  }
}
