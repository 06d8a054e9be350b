/** What committed user changes do to the lookups by id. */
module UserLemmas {
  import opened Outcomes
  import opened Entities
  import opened Queries
  import opened Persistence

  /** With ids a key of the user table, SingleOrDefault by id never throws. */
  lemma UniqueIdsNeverAmbiguous(users: seq<UserRecord>, id: Guid)
    requires UniqueIds(users)
    ensures UserById(users, id).Ok?
    ensures forall u :: u in users && u.id == id ==> UserById(users, id) == Ok(Some(u))
  {
    forall u | u in users && u.id == id ensures UserById(users, id) == Ok(Some(u)) {
      var i :| 0 <= i < |users| && users[i] == u;
    }
  }

  /** A committed CreateAsync of a user with a new id makes FindByIdAsync find exactly
      that row, and keeps ids a key. */
  lemma CreateThenFindById(t: Tables, rec: UserRecord)
    requires forall i :: 0 <= i < |t.users| ==> t.users[i].id != rec.id
    ensures UserById(Apply(t, InsertUser(rec)).users, rec.id) == Ok(Some(rec))
    ensures UniqueIds(t.users) ==> UniqueIds(Apply(t, InsertUser(rec)).users)
  {
    var us := Apply(t, InsertUser(rec)).users;
    assert us[|t.users|] == rec;
    assert forall i :: 0 <= i < |t.users| ==> us[i] == t.users[i];
    var r := UserById(us, rec.id);
    assert r != Ok(None);
    assert r.Ok? by {
      forall i, j | 0 <= i < j < |us| ensures !(us[i].id == rec.id && us[j].id == rec.id) {
        assert us[i] == t.users[i];
      }
    }
  }

  /** A committed UpdateAsync replaces the row with the user's id by the user's new
      values and leaves every other row as it was. */
  lemma UpdateThenFindById(t: Tables, rec: UserRecord)
    requires UniqueIds(t.users)
    requires exists i :: 0 <= i < |t.users| && t.users[i].id == rec.id
    ensures UserById(Apply(t, UpdateUser(rec)).users, rec.id) == Ok(Some(rec))
    ensures UniqueIds(Apply(t, UpdateUser(rec)).users)
    ensures forall i :: 0 <= i < |t.users| && t.users[i].id != rec.id ==> Apply(t, UpdateUser(rec)).users[i] == t.users[i]
  {
    var us := Apply(t, UpdateUser(rec)).users;
    var i :| 0 <= i < |t.users| && t.users[i].id == rec.id;
    assert us[i] == rec;
    assert forall k :: 0 <= k < |us| ==> us[k].id == t.users[k].id;
    UniqueIdsNeverAmbiguous(us, rec.id);
  }

  /** After a committed DeleteAsync nobody has that id. */
  lemma DeleteThenFindById(t: Tables, id: Guid)
    ensures UserById(Apply(t, DeleteUser(id)).users, id) == Ok(None)
  {
    var us := Apply(t, DeleteUser(id)).users;
    forall i | 0 <= i < |us| ensures us[i].id != id {
      assert us[i] in t.users;
    }
  }
}
