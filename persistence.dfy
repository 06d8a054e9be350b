/** The database behind the store: its four tables, the changes the store stages on
    them, and the queries the store runs against the committed tables. */
module Persistence {
  import opened Outcomes
  import opened Entities
  import opened Queries

  /** The committed contents of the user, user-login and user-claim tables and of the
      claim catalog (ClaimEntities, keyed by its integer id). */
  datatype Tables = Tables(users: seq<UserRecord>, logins: seq<LoginRow>,
                           userClaims: seq<UserClaimRow>, catalog: map<int, Claim>)

  /** A change the EF context tracks until SaveChanges commits it. */
  datatype Change =
    | InsertUser(user: UserRecord)                // DbContext.Add(user)
    | UpdateUser(user: UserRecord)                // DbContext.Update(user)
    | DeleteUser(id: Guid)                        // DbContext.Remove(user)
    | InsertLogin(login: LoginRow)                // UserLogins.Add(row)
    | DeleteLogin(login: LoginRow)                // UserLogins.Remove(row)
    | SetClaimEntity(claimEntityId: int, claim: Claim) // assignments to a tracked ClaimEntity

  /** The user rows after an update of the row whose key is u.id. */
  function ReplaceById(users: seq<UserRecord>, u: UserRecord): (r: seq<UserRecord>)
    ensures |r| == |users|
  {
    seq(|users|, i requires 0 <= i < |users| => if users[i].id == u.id then u else users[i])
  }

  /** The tables after one committed change. */
  function Apply(t: Tables, c: Change): (r: Tables)
    ensures r.userClaims == t.userClaims && r.catalog.Keys == t.catalog.Keys
  {
    match c
    case InsertUser(u) => t.(users := t.users + [u])
    case UpdateUser(u) => t.(users := ReplaceById(t.users, u))
    case DeleteUser(id) => t.(users := Filter(t.users, (v: UserRecord) => v.id != id))
    case InsertLogin(l) => t.(logins := t.logins + [l])
    case DeleteLogin(l) => t.(logins := Filter(t.logins, (m: LoginRow) => m != l))
    case SetClaimEntity(k, claim) =>
      if k in t.catalog then t.(catalog := t.catalog[k := claim]) else t
  }

  /** The tables after committing a sequence of changes in order. No change the store
      can stage adds or removes a user-claim row or a catalog entry. */
  function Flush(t: Tables, cs: seq<Change>): (r: Tables)
    ensures r.userClaims == t.userClaims && r.catalog.Keys == t.catalog.Keys
    decreases |cs|
  {
    if cs == [] then t else Flush(Apply(t, cs[0]), cs[1..])
  }

  /** Committing two batches one after the other is committing them together. */
  lemma {:induction false} FlushConcat(t: Tables, a: seq<Change>, b: seq<Change>)
    ensures Flush(t, a + b) == Flush(Flush(t, a), b)
    decreases |a|
  {
    if a == [] {
      assert a + b == b;
    } else {
      assert (a + b)[0] == a[0];
      assert (a + b)[1..] == a[1..] + b;
      FlushConcat(Apply(t, a[0]), a[1..], b);
    }
  }

  // ---- Users -------------------------------------------------------------------

  /** `Users.SingleOrDefault(u => u.Id == id)`. */
  function UserById(users: seq<UserRecord>, id: Guid): (r: Result<Option<UserRecord>>)
    ensures r.Err? <==> exists i, j :: 0 <= i < j < |users| && users[i].id == id && users[j].id == id
    ensures r.Err? ==> r.error == MoreThanOneMatch
    ensures r == Ok(None) <==> forall i :: 0 <= i < |users| ==> users[i].id != id
    ensures r.Ok? && r.value.Some? ==> r.value.value in users && r.value.value.id == id
  {
    SingleOrDefault(users, (u: UserRecord) => u.id == id)
  }

  /** The primary key of the user table: no two rows share an id. */
  ghost predicate UniqueIds(users: seq<UserRecord>) {
    forall i, j :: 0 <= i < j < |users| ==> users[i].id != users[j].id
  }

  /** `Users.FirstOrDefault(u => u.NormalizedUserName == name)`, null comparing equal to null. */
  function UserByNormalizedName(users: seq<UserRecord>, name: Option<string>): (r: Option<UserRecord>)
    ensures r.None? <==> forall i :: 0 <= i < |users| ==> users[i].normalizedUserName != name
    ensures r.Some? ==> exists i :: 0 <= i < |users| && users[i] == r.value && users[i].normalizedUserName == name &&
                                    forall j :: 0 <= j < i ==> users[j].normalizedUserName != name
  {
    FirstOrDefault(users, (u: UserRecord) => u.normalizedUserName == name)
  }

  /** `Users.FirstOrDefault(u => u.NormalizedEmail.Equals(email))`; a null column never matches. */
  function UserByNormalizedEmail(users: seq<UserRecord>, email: string): (r: Option<UserRecord>)
    ensures r.None? <==> forall i :: 0 <= i < |users| ==> users[i].normalizedEmail != Some(email)
    ensures r.Some? ==> exists i :: 0 <= i < |users| && users[i] == r.value && users[i].normalizedEmail == Some(email) &&
                                    forall j :: 0 <= j < i ==> users[j].normalizedEmail != Some(email)
  {
    FirstOrDefault(users, (u: UserRecord) => u.normalizedEmail == Some(email))
  }

  // ---- Logins ------------------------------------------------------------------

  /** The logins of user uid, in table order, projected to (provider, key, display name). */
  function LoginsOf(logins: seq<LoginRow>, uid: Guid): (r: seq<LoginInfo>)
    ensures |r| <= |logins|
    ensures forall i :: 0 <= i < |logins| && logins[i].userId == uid ==> logins[i].Info() in r
    ensures forall x :: x in r ==> exists i :: 0 <= i < |logins| && logins[i].userId == uid && logins[i].Info() == x
  {
    if logins == [] then []
    else
      assert forall i :: 1 <= i < |logins| ==> logins[i] == logins[1..][i - 1];
      (if logins[0].userId == uid then [logins[0].Info()] else []) + LoginsOf(logins[1..], uid)
  }

  /** `UserLogins.SingleOrDefault(l => l.UserId == uid && l.LoginProvider == provider && l.ProviderKey == key)`. */
  function LoginOfUser(logins: seq<LoginRow>, uid: Guid, provider: string, key: string): (r: Result<Option<LoginRow>>)
    ensures r.Err? <==>
            exists i, j :: 0 <= i < j < |logins| &&
              logins[i].userId == uid && logins[i].loginProvider == provider && logins[i].providerKey == key &&
              logins[j].userId == uid && logins[j].loginProvider == provider && logins[j].providerKey == key
    ensures r.Err? ==> r.error == MoreThanOneMatch
    ensures r == Ok(None) <==> forall i :: 0 <= i < |logins| ==>
              !(logins[i].userId == uid && logins[i].loginProvider == provider && logins[i].providerKey == key)
    ensures r.Ok? && r.value.Some? ==>
              var l := r.value.value;
              l in logins && l.userId == uid && l.loginProvider == provider && l.providerKey == key
  {
    SingleOrDefault(logins, (l: LoginRow) => l.userId == uid && l.loginProvider == provider && l.providerKey == key)
  }

  /** `UserLogins.SingleOrDefault(l => l.LoginProvider == provider && l.ProviderKey == key)`. */
  function LoginByKey(logins: seq<LoginRow>, provider: string, key: string): (r: Result<Option<LoginRow>>)
    ensures r.Err? <==>
            exists i, j :: 0 <= i < j < |logins| &&
              logins[i].loginProvider == provider && logins[i].providerKey == key &&
              logins[j].loginProvider == provider && logins[j].providerKey == key
    ensures r.Err? ==> r.error == MoreThanOneMatch
    ensures r == Ok(None) <==> forall i :: 0 <= i < |logins| ==>
              !(logins[i].loginProvider == provider && logins[i].providerKey == key)
    ensures r.Ok? && r.value.Some? ==>
              var l := r.value.value;
              l in logins && l.loginProvider == provider && l.providerKey == key
  {
    SingleOrDefault(logins, (l: LoginRow) => l.loginProvider == provider && l.providerKey == key)
  }

  /** The two-step lookup of FindByLoginAsync: the login row, then the user it names. */
  function LoginOwner(t: Tables, provider: string, key: string): (r: Result<Option<UserRecord>>)
    ensures (forall i :: 0 <= i < |t.logins| ==>
               !(t.logins[i].loginProvider == provider && t.logins[i].providerKey == key)) ==> r == Ok(None)
    ensures r.Ok? && r.value.Some? ==>
              r.value.value in t.users &&
              exists i :: 0 <= i < |t.logins| && t.logins[i].loginProvider == provider &&
                          t.logins[i].providerKey == key && t.logins[i].userId == r.value.value.id
  {
    match LoginByKey(t.logins, provider, key)
    case Err(e) => Err(e)
    case Ok(None) => Ok(None)
    case Ok(Some(l)) => UserById(t.users, l.userId)
  }

  // ---- Claims ------------------------------------------------------------------

  /** The user-claim rows of uid together with their catalog entry (the inner join
      that `Include(uc => uc.ClaimEntity)` produces), in table order. */
  function UserRows(t: Tables, uid: Guid): (r: seq<UserClaimRow>)
    ensures |r| <= |t.userClaims|
    ensures forall row :: row in r <==> row in t.userClaims && row.userId == uid && row.claimEntityId in t.catalog
  {
    var p := (row: UserClaimRow) => row.userId == uid && row.claimEntityId in t.catalog;
    assert forall row :: row in Filter(t.userClaims, p) <==> row in t.userClaims && p(row) by {
      forall row ensures row in Filter(t.userClaims, p) <==> row in t.userClaims && p(row) {
        FilterMembership(t.userClaims, p, row);
      }
    }
    Filter(t.userClaims, p)
  }

  /** What GetClaimsAsync returns for uid: the catalog entry of each of its rows. */
  function ClaimsOf(t: Tables, uid: Guid): (r: seq<Claim>)
    ensures |r| == |UserRows(t, uid)|
    ensures forall k :: 0 <= k < |r| ==> UserRows(t, uid)[k].claimEntityId in t.catalog &&
                                         r[k] == t.catalog[UserRows(t, uid)[k].claimEntityId]
  {
    var rows := UserRows(t, uid);
    seq(|rows|, k requires 0 <= k < |rows| => t.catalog[rows[k].claimEntityId])
  }

  /** The rows ReplaceClaimAsync loads: those of uid whose catalog entry equals claim. */
  function MatchedRows(t: Tables, uid: Guid, claim: Claim): (r: seq<UserClaimRow>)
    ensures |r| <= |UserRows(t, uid)|
    ensures forall row :: row in r <==> row in t.userClaims && row.userId == uid && RefersTo(t.catalog, claim, row)
  {
    var p := (row: UserClaimRow) => row.claimEntityId in t.catalog && t.catalog[row.claimEntityId] == claim;
    assert forall row :: row in Filter(UserRows(t, uid), p) <==> row in UserRows(t, uid) && p(row) by {
      forall row ensures row in Filter(UserRows(t, uid), p) <==> row in UserRows(t, uid) && p(row) {
        FilterMembership(UserRows(t, uid), p, row);
      }
    }
    Filter(UserRows(t, uid), p)
  }

  /** The entity updates ReplaceClaimAsync's loop stages, one per loaded row. */
  function ReplaceChanges(matched: seq<UserClaimRow>, newClaim: Claim): (r: seq<Change>)
    ensures |r| == |matched|
  {
    seq(|matched|, k requires 0 <= k < |matched| => SetClaimEntity(matched[k].claimEntityId, newClaim))
  }

  /** One more loop step of ReplaceClaimAsync stages one more update. */
  lemma ReplaceChangesSnoc(matched: seq<UserClaimRow>, i: nat, newClaim: Claim)
    requires i < |matched|
    ensures ReplaceChanges(matched[..i + 1], newClaim) ==
            ReplaceChanges(matched[..i], newClaim) + [SetClaimEntity(matched[i].claimEntityId, newClaim)]
  {
    var a := ReplaceChanges(matched[..i + 1], newClaim);
    var b := ReplaceChanges(matched[..i], newClaim) + [SetClaimEntity(matched[i].claimEntityId, newClaim)];
    assert |a| == |b|;
    forall k | 0 <= k < |a| ensures a[k] == b[k] {
      assert matched[..i + 1][k] == matched[k];
    }
  }

  /** AddClaimsAsync's count: how many of the user's catalog entries equal some candidate. */
  function DuplicateCount(existing: seq<Claim>, candidates: seq<Claim>): (r: nat)
    ensures r == 0 <==> forall c :: c in candidates ==> c !in existing
  {
    CountWhere(existing, (e: Claim) => e in candidates)
  }

  /** The user rows carrying id: what following a junction row's user reference yields. */
  function UsersWithId(users: seq<UserRecord>, id: Guid): (r: seq<UserRecord>)
    ensures forall u :: u in r <==> u in users && u.id == id
  {
    var r := Filter(users, (u: UserRecord) => u.id == id);
    assert forall u :: u in r <==> u in users && u.id == id by {
      forall u ensures u in r <==> u in users && u.id == id {
        FilterMembership(users, (u: UserRecord) => u.id == id, u);
      }
    }
    r
  }

  /** Whether a junction row refers to a catalog entry equal to claim. */
  predicate RefersTo(catalog: map<int, Claim>, claim: Claim, row: UserClaimRow)
    ensures RefersTo(catalog, claim, row) ==> claim in catalog.Values
    ensures row.claimEntityId !in catalog ==> !RefersTo(catalog, claim, row)
  {
    row.claimEntityId in catalog && catalog[row.claimEntityId] == claim
  }

  /** GetUsersForClaimAsync's join: for each junction row whose catalog entry equals
      claim, in table order, the user rows it refers to. */
  function UsersForClaim(rows: seq<UserClaimRow>, users: seq<UserRecord>, catalog: map<int, Claim>, claim: Claim): (r: seq<UserRecord>)
    ensures forall u :: u in r <==>
              u in users && exists row :: row in rows && row.userId == u.id && RefersTo(catalog, claim, row)
  {
    if rows == [] then []
    else
      var here := if RefersTo(catalog, claim, rows[0]) then UsersWithId(users, rows[0].userId) else [];
      var rest := UsersForClaim(rows[1..], users, catalog, claim);
      assert forall row :: row in rows <==> row == rows[0] || row in rows[1..];
      here + rest
  }

  /** One more junction row adds, at the end, the users it refers to when its entry
      equals claim, and nothing otherwise. */
  lemma {:induction false} UsersForClaimSnoc(rows: seq<UserClaimRow>, row: UserClaimRow, users: seq<UserRecord>,
                                            catalog: map<int, Claim>, claim: Claim)
    ensures UsersForClaim(rows + [row], users, catalog, claim) ==
            UsersForClaim(rows, users, catalog, claim) +
            (if RefersTo(catalog, claim, row) then UsersWithId(users, row.userId) else [])
    decreases |rows|
  {
    if rows == [] {
      assert rows + [row] == [row];
      assert [row][1..] == [];
    } else {
      assert (rows + [row])[0] == rows[0];
      assert (rows + [row])[1..] == rows[1..] + [row];
      UsersForClaimSnoc(rows[1..], row, users, catalog, claim);
    }
  }

  /** With unique ids, following a reference yields one user row if some row carries
      the id, and none otherwise. */
  lemma {:induction false} UniqueIdSelectsOne(users: seq<UserRecord>, id: Guid)
    requires UniqueIds(users)
    ensures |UsersWithId(users, id)| == if exists i :: 0 <= i < |users| && users[i].id == id then 1 else 0
    decreases |users|
  {
    if users != [] {
      var tail := users[1..];
      assert forall i :: 1 <= i < |users| ==> users[i] == tail[i - 1];
      UniqueIdSelectsOne(tail, id);
      assert UsersWithId(users, id) == (if users[0].id == id then [users[0]] else []) + UsersWithId(tail, id);
      if users[0].id == id {
        assert forall i :: 0 <= i < |tail| ==> tail[i].id != id;
      } else {
        assert (exists i :: 0 <= i < |users| && users[i].id == id) ==> exists i :: 0 <= i < |tail| && tail[i].id == id by {
          if i :| 0 <= i < |users| && users[i].id == id {
            assert tail[i - 1].id == id;
          }
        }
      }
    }
  }

  /** With unique ids and every referenced user present, the join returns exactly one
      user per junction row whose entry equals claim. */
  lemma {:induction false} UsersForClaimCount(rows: seq<UserClaimRow>, users: seq<UserRecord>,
                                             catalog: map<int, Claim>, claim: Claim)
    requires UniqueIds(users)
    requires forall k :: 0 <= k < |rows| && RefersTo(catalog, claim, rows[k]) ==>
               exists i :: 0 <= i < |users| && users[i].id == rows[k].userId
    ensures |UsersForClaim(rows, users, catalog, claim)| ==
            CountWhere(rows, (row: UserClaimRow) => RefersTo(catalog, claim, row))
    decreases |rows|
  {
    if rows != [] {
      assert forall k :: 1 <= k < |rows| ==> rows[k] == rows[1..][k - 1];
      UsersForClaimCount(rows[1..], users, catalog, claim);
      UniqueIdSelectsOne(users, rows[0].userId);
    }
  }
}
