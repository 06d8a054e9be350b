/** What the login operations do to the tables once their staged rows are committed. */
module LoginLemmas {
  import opened Outcomes
  import opened Entities
  import opened Queries
  import opened Persistence
  import opened UserLemmas

  /** A committed AddLoginAsync row makes FindByLoginAsync find its owner, provided no
      other row had that (provider, key) and the owner's id is a key of the user table. */
  lemma AddLoginThenFindByLogin(t: Tables, row: LoginRow, owner: UserRecord)
    requires forall i :: 0 <= i < |t.logins| ==>
               !(t.logins[i].loginProvider == row.loginProvider && t.logins[i].providerKey == row.providerKey)
    requires UniqueIds(t.users) && owner in t.users && owner.id == row.userId
    ensures LoginOwner(Apply(t, InsertLogin(row)), row.loginProvider, row.providerKey) == Ok(Some(owner))
  {
    var t' := Apply(t, InsertLogin(row));
    var p := (l: LoginRow) => l.loginProvider == row.loginProvider && l.providerKey == row.providerKey;
    assert t'.logins[|t.logins|] == row;
    var found := LoginByKey(t'.logins, row.loginProvider, row.providerKey);
    assert found.Ok? && found.value.Some? && found.value.value == row;
    var i :| 0 <= i < |t.users| && t.users[i] == owner;
    var byId := UserById(t.users, row.userId);
    assert byId.Ok? && byId.value.Some?;
    var j :| 0 <= j < |t.users| && t.users[j] == byId.value.value && t.users[j].id == row.userId;
    assert i == j;
  }

  /** Once the removal of the user's only row for (provider, key) is committed,
      FindByLoginAsync finds nobody for that pair. */
  lemma RemoveLoginThenFindByLogin(t: Tables, row: LoginRow)
    requires forall l :: l in t.logins && l.loginProvider == row.loginProvider && l.providerKey == row.providerKey ==> l == row
    ensures LoginOwner(Apply(t, DeleteLogin(row)), row.loginProvider, row.providerKey) == Ok(None)
  {
    var t' := Apply(t, DeleteLogin(row));
    forall i | 0 <= i < |t'.logins|
      ensures !(t'.logins[i].loginProvider == row.loginProvider && t'.logins[i].providerKey == row.providerKey)
    {
      assert t'.logins[i] in t.logins && t'.logins[i] != row;
    }
  }

  /** A committed AddLoginAsync row appears at the end of its owner's GetLoginsAsync
      list and in no one else's. */
  lemma {:induction false} AddLoginExtendsLogins(logins: seq<LoginRow>, row: LoginRow, uid: Guid)
    ensures LoginsOf(logins + [row], uid) ==
            LoginsOf(logins, uid) + (if row.userId == uid then [row.Info()] else [])
    decreases |logins|
  {
    if logins == [] {
      assert [] + [row] == [row];
      assert [row][1..] == [];
    } else {
      assert (logins + [row])[0] == logins[0];
      assert (logins + [row])[1..] == logins[1..] + [row];
      AddLoginExtendsLogins(logins[1..], row, uid);
    }
  }

  /** A committed RemoveLoginAsync takes the login off its owner's GetLoginsAsync list. */
  lemma RemoveLoginDropsIt(t: Tables, row: LoginRow)
    ensures row.Info() !in LoginsOf(Apply(t, DeleteLogin(row)).logins, row.userId)
  {
    var rest := Apply(t, DeleteLogin(row)).logins;
    forall i | 0 <= i < |rest| && rest[i].userId == row.userId ensures rest[i].Info() != row.Info() {
      assert rest[i] != row;
    }
  }

  /** The row RemoveLoginAsync stages is one of the user's rows for that (provider, key). */
  lemma StagedRemovalIsTheUsersRow(logins: seq<LoginRow>, uid: Guid, provider: string, key: string)
    ensures match LoginOfUser(logins, uid, provider, key)
            case Ok(Some(row)) => row in logins && row.userId == uid && row.loginProvider == provider && row.providerKey == key
            case Ok(None) => forall l :: l in logins ==> !(l.userId == uid && l.loginProvider == provider && l.providerKey == key)
            case Err(e) => e == MoreThanOneMatch
  {
    match LoginOfUser(logins, uid, provider, key)
    case Ok(None) =>
      forall l | l in logins ensures !(l.userId == uid && l.loginProvider == provider && l.providerKey == key) {
        var i :| 0 <= i < |logins| && logins[i] == l;
      }
    case Ok(Some(row)) =>
    case Err(e) =>
  }

  /** FindByLoginAsync's lookup when exactly one login row i has (provider, key) and the
      user it names is in the user table, whose ids are unique: that user is found. */
  lemma LoginOwnerFindsOwner(t: Tables, provider: string, key: string, i: int, owner: UserRecord)
    requires 0 <= i < |t.logins| && t.logins[i].loginProvider == provider && t.logins[i].providerKey == key
    requires forall j :: 0 <= j < |t.logins| && j != i ==>
               !(t.logins[j].loginProvider == provider && t.logins[j].providerKey == key)
    requires UniqueIds(t.users) && owner in t.users && owner.id == t.logins[i].userId
    ensures LoginOwner(t, provider, key) == Ok(Some(owner))
  {
    SingleOrDefaultUnique(t.logins, (l: LoginRow) => l.loginProvider == provider && l.providerKey == key, i);
    UniqueIdsNeverAmbiguous(t.users, owner.id);
  }

  /** Exactly one login row for (provider, key), naming a user who is not in the user
      table: the second lookup misses and FindByLoginAsync returns null. */
  lemma LoginOwnerMissingOwner(t: Tables, provider: string, key: string, i: int)
    requires 0 <= i < |t.logins| && t.logins[i].loginProvider == provider && t.logins[i].providerKey == key
    requires forall j :: 0 <= j < |t.logins| && j != i ==>
               !(t.logins[j].loginProvider == provider && t.logins[j].providerKey == key)
    requires forall k :: 0 <= k < |t.users| ==> t.users[k].id != t.logins[i].userId
    ensures LoginOwner(t, provider, key) == Ok(None)
  {
    SingleOrDefaultUnique(t.logins, (l: LoginRow) => l.loginProvider == provider && l.providerKey == key, i);
  }

  /** Two login rows for (provider, key): the first SingleOrDefault throws. */
  lemma LoginOwnerAmbiguous(t: Tables, provider: string, key: string, i: int, j: int)
    requires 0 <= i < j < |t.logins|
    requires t.logins[i].loginProvider == provider && t.logins[i].providerKey == key
    requires t.logins[j].loginProvider == provider && t.logins[j].providerKey == key
    ensures LoginOwner(t, provider, key) == Err(MoreThanOneMatch)
  {
    assert LoginByKey(t.logins, provider, key).Err?;
  }
}
