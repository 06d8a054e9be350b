/** Properties of the store as a whole: the order of its guards, and what a caller of
    several operations in a row observes. */
module StoreLemmas {
  import opened Outcomes
  import opened Entities
  import opened Queries
  import opened Persistence
  import opened Stores
  import opened UserLemmas
  import opened LoginLemmas
  import opened ClaimLemmas

  /** After Dispose every query that checks disposal fails with ObjectDisposed before
      looking at its arguments; those that check the token first still report a
      cancellation first. HasPasswordAsync, which does not check disposal, still works. */
  lemma DisposedStoreRejects(store: CustomUserStore, user: User?, userId: Option<string>, name: Option<string>,
                             claims: Option<seq<Claim>>, claim: Option<Claim>, provider: string, key: string,
                             format: Guid -> string, parse: string -> Option<Guid>, cancelled: bool)
    requires store.disposed
    ensures !cancelled ==>
              store.GetUserId(user, cancelled, format) == Err(ObjectDisposed) &&
              store.GetUserName(user, cancelled) == Err(ObjectDisposed) &&
              store.GetNormalizedUserName(user, cancelled) == Err(ObjectDisposed) &&
              store.GetPasswordHash(user, cancelled) == Err(ObjectDisposed) &&
              store.GetEmail(user, cancelled) == Err(ObjectDisposed) &&
              store.GetEmailConfirmed(user, cancelled) == Err(ObjectDisposed) &&
              store.GetNormalizedEmail(user, cancelled) == Err(ObjectDisposed) &&
              store.GetSecurityStamp(user, cancelled) == Err(ObjectDisposed) &&
              store.GetLogins(user, cancelled) == Err(ObjectDisposed) &&
              store.FindById(userId, cancelled, parse) == Err(ObjectDisposed) &&
              store.FindByName(name, cancelled) == Err(ObjectDisposed) &&
              store.FindByLogin(provider, key, cancelled) == Err(ObjectDisposed) &&
              store.GetUsersForClaim(claim, cancelled) == Err(ObjectDisposed)
    ensures store.GetClaims(user, cancelled) == Err(ObjectDisposed)
    ensures store.AddClaims(user, claims, cancelled) == Err(ObjectDisposed)
    ensures store.FindByEmail(name, cancelled) == Err(ObjectDisposed)
    ensures user != null && !cancelled ==> store.HasPassword(user, cancelled) == Ok(user.passwordHash.Some?)
  {
  }

  /** A cancelled token wins over disposal and null arguments in every query that checks
      it at entry; GetClaimsAsync, AddClaimsAsync and FindByEmailAsync check disposal and
      their null arguments first. */
  lemma CancellationOrder(store: CustomUserStore, user: User?, userId: Option<string>, name: Option<string>,
                          claims: Option<seq<Claim>>, claim: Option<Claim>, provider: string, key: string,
                          format: Guid -> string, parse: string -> Option<Guid>)
    ensures store.GetUserId(user, true, format) == Err(OperationCanceled)
    ensures store.GetUserName(user, true) == Err(OperationCanceled)
    ensures store.GetNormalizedUserName(user, true) == Err(OperationCanceled)
    ensures store.GetPasswordHash(user, true) == Err(OperationCanceled)
    ensures store.HasPassword(user, true) == Err(OperationCanceled)
    ensures store.GetEmail(user, true) == Err(OperationCanceled)
    ensures store.GetEmailConfirmed(user, true) == Err(OperationCanceled)
    ensures store.GetNormalizedEmail(user, true) == Err(OperationCanceled)
    ensures store.GetSecurityStamp(user, true) == Err(OperationCanceled)
    ensures store.GetLogins(user, true) == Err(OperationCanceled)
    ensures store.FindById(userId, true, parse) == Err(OperationCanceled)
    ensures store.FindByName(name, true) == Err(OperationCanceled)
    ensures store.FindByLogin(provider, key, true) == Err(OperationCanceled)
    ensures store.GetUsersForClaim(claim, true) == Err(OperationCanceled)
    ensures store.GetClaims(user, true) ==
              if store.disposed then Err(ObjectDisposed)
              else if user == null then Err(ArgumentNull("user"))
              else Err(OperationCanceled)
    ensures store.AddClaims(user, claims, true) ==
              if store.disposed then Err(ObjectDisposed)
              else if claims.None? then Err(ArgumentNull("source"))
              else if user == null then Err(NullReference)
              else Err(OperationCanceled)
    ensures store.FindByEmail(name, true) ==
              if store.disposed then Err(ObjectDisposed)
              else if name.None? then Err(ArgumentNull("normalizedEmail"))
              else Err(OperationCanceled)
  {
  }

  /** GetUserIdAsync's string finds the user's row again through FindByIdAsync, when
      parsing inverts formatting and ids are a key. */
  lemma GetUserIdThenFindById(store: CustomUserStore, user: User, format: Guid -> string,
                              parse: string -> Option<Guid>, row: UserRecord)
    requires !store.disposed && parse(format(user.id)) == Some(user.id)
    requires UniqueIds(store.users) && row in store.users && row.id == user.id
    ensures store.GetUserId(user, false, format) == Ok(format(user.id))
    ensures store.FindById(Some(format(user.id)), false, parse) == Ok(Some(row))
  {
    UniqueIdsNeverAmbiguous(store.users, user.id);
  }

  /** A store-level AddClaims that succeeds leaves the user's claims without the
      candidate: its insertion never happens. */
  lemma AddClaimsSucceedsWithoutInserting(store: CustomUserStore, user: User, c: Claim)
    requires !store.disposed && c !in ClaimsOf(store.Committed(), user.id)
    ensures store.AddClaims(user, Some([c]), false) == Ok(())
    ensures store.GetClaims(user, false) == Ok(ClaimsOf(store.Committed(), user.id))
    ensures c !in store.GetClaims(user, false).value
  {
  }

  /** The claims of a user depend on the junction table and the catalog only. */
  lemma ClaimsIgnoreOtherTables(t: Tables, t2: Tables, uid: Guid)
    requires t.userClaims == t2.userClaims && t.catalog == t2.catalog
    ensures ClaimsOf(t, uid) == ClaimsOf(t2, uid)
  {
    assert t2 == t.(users := t2.users, logins := t2.logins);
  }

  /** A batch of one change commits as that change alone. */
  lemma FlushSingle(t: Tables, c: Change)
    ensures Flush(t, [c]) == Apply(t, c)
  {
    assert [c][1..] == [];
  }

  /** A replacement for one user, committed together with a later update of that user,
      reaches every user sharing the rewritten catalog entry. */
  lemma ReplaceThenSaveReachesSharer(t: Tables, uid: Guid, v: Guid, id: int, claim: Claim, newClaim: Claim, rec: UserRecord)
    requires UserClaimRow(uid, id) in t.userClaims && UserClaimRow(v, id) in t.userClaims
    requires id in t.catalog && t.catalog[id] == claim
    ensures newClaim in ClaimsOf(Flush(t, ReplaceChanges(MatchedRows(t, uid, claim), newClaim) + [UpdateUser(rec)]), v)
  {
    var changes := ReplaceChanges(MatchedRows(t, uid, claim), newClaim);
    FlushConcat(t, changes, [UpdateUser(rec)]);
    var t1 := Flush(t, changes);
    FlushSingle(t1, UpdateUser(rec));
    ReplaceLeaksToSharingUsers(t, uid, v, id, claim, newClaim);
    ClaimsIgnoreOtherTables(t1, Apply(t1, UpdateUser(rec)), v);
  }

  /** CreateAsync followed by FindByIdAsync on an automatically saving store: the row
      found holds the user's values, whose only change is the new concurrency stamp. */
  method CreateThenLookUp(store: CustomUserStore, user: User, newStamp: string, parse: string -> Option<Guid>,
                            format: Guid -> string) returns (found: Result<Option<UserRecord>>)
    requires !store.disposed && store.autoSaveChanges && store.pending == []
    requires user.concurrencyStamp != Some(newStamp) && parse(format(user.id)) == Some(user.id)
    requires forall i :: 0 <= i < |store.users| ==> store.users[i].id != user.id
    modifies store, user
    ensures user.Record() == old(user.Record()).(concurrencyStamp := Some(newStamp))
    ensures found == Ok(Some(user.Record()))
  {
    ghost var t := store.Committed();
    var created := store.Create(user, false, newStamp, Commit);
    assert [] + [InsertUser(user.Record())] == [InsertUser(user.Record())];
    FlushSingle(t, InsertUser(user.Record()));
    UserLemmas.CreateThenFindById(t, user.Record());
    found := store.FindById(Some(format(user.id)), false, parse);
  }

  /** AddLoginAsync does not save: FindByLoginAsync misses the new login until a later
      UpdateAsync saves it, and then finds the user. */
  method LoginWaitsForNextSave(store: CustomUserStore, user: User, info: LoginInfo, newStamp: string)
    returns (before: Result<Option<UserRecord>>, after: Result<Option<UserRecord>>)
    requires !store.disposed && store.autoSaveChanges && store.pending == []
    requires UniqueIds(store.users) && exists i :: 0 <= i < |store.users| && store.users[i].id == user.id
    requires forall i :: 0 <= i < |store.logins| ==>
               !(store.logins[i].loginProvider == info.loginProvider && store.logins[i].providerKey == info.providerKey)
    requires user.concurrencyStamp != Some(newStamp)
    modifies store, user
    ensures before == Ok(None)
    ensures after == Ok(Some(user.Record()))
  {
    ghost var t := store.Committed();
    var added := store.AddLogin(user, Some(info), false);
    ghost var row := LoginRow(user.id, info.loginProvider, info.providerKey, info.providerDisplayName);
    before := store.FindByLogin(info.loginProvider, info.providerKey, false);
    var updated := store.Update(user, false, newStamp, Commit);
    ghost var rec := user.Record();
    ghost var staged := [InsertLogin(row), UpdateUser(rec)];
    assert store.Committed() == Flush(t, staged);
    assert staged == [InsertLogin(row)] + [UpdateUser(rec)];
    FlushConcat(t, [InsertLogin(row)], [UpdateUser(rec)]);
    FlushSingle(t, InsertLogin(row));
    FlushSingle(Apply(t, InsertLogin(row)), UpdateUser(rec));
    assert Apply(Apply(t, InsertLogin(row)), UpdateUser(rec)) == Apply(Apply(t, UpdateUser(rec)), InsertLogin(row));
    UpdateThenFindById(t, rec);
    ghost var t2 := Apply(t, UpdateUser(rec));
    UniqueIdsNeverAmbiguous(t2.users, rec.id);
    assert rec in t2.users;
    AddLoginThenFindByLogin(t2, row, rec);
    after := store.FindByLogin(info.loginProvider, info.providerKey, false);
  }

  /** ReplaceClaimAsync for alice, saved by her next UpdateAsync, changes the claim of
      bob, who refers to the same catalog entry. */
  method ReplaceClaimReachesOtherUser(store: CustomUserStore, alice: User, bob: User, id: int,
                                      claim: Claim, newClaim: Claim, newStamp: string)
    returns (bobsClaims: Result<seq<Claim>>)
    requires !store.disposed && store.autoSaveChanges && store.pending == []
    requires UserClaimRow(alice.id, id) in store.userClaims && UserClaimRow(bob.id, id) in store.userClaims
    requires id in store.catalog && store.catalog[id] == claim
    requires alice.concurrencyStamp != Some(newStamp)
    modifies store, alice
    ensures bobsClaims.Ok? && newClaim in bobsClaims.value
  {
    ghost var t := store.Committed();
    var replaced := store.ReplaceClaim(alice, Some(claim), Some(newClaim), false);
    ghost var changes := ReplaceChanges(MatchedRows(t, alice.id, claim), newClaim);
    assert store.Committed() == t;
    assert store.pending == [] + changes;
    ghost var p0 := store.pending;
    ghost var c0 := store.Committed();
    var updated := store.Update(alice, false, newStamp, Commit);
    assert store.SavedAs(c0, p0 + [UpdateUser(alice.Record())], Commit);
    ghost var staged := changes + [UpdateUser(alice.Record())];
    assert c0 == t && p0 == changes;
    assert store.SavedAs(t, staged, Commit);
    assert store.Committed() == Flush(t, staged);
    ReplaceThenSaveReachesSharer(t, alice.id, bob.id, id, claim, newClaim, alice.Record());
    bobsClaims := store.GetClaims(bob, false);
  }

  /** RemoveClaimsAsync of a claim the user holds throws and leaves it in place. */
  method RemoveClaimsKeepsClaim(store: CustomUserStore, user: User, c: Claim) returns (r: Result<()>, after: Result<seq<Claim>>)
    requires !store.disposed && c in ClaimsOf(store.Committed(), user.id)
    ensures r == Err(CollectionModified)
    ensures after.Ok? && c in after.value
  {
    r := store.RemoveClaims(user, Some([c]), false);
    after := store.GetClaims(user, false);
  }

  /** After Dispose (called once or twice), every operation that changes state fails
      with ObjectDisposed and leaves the store and the user as they were. */
  method DisposedStoreChangesNothing(store: CustomUserStore, user: User, info: LoginInfo, claim: Claim,
                                     newClaim: Claim, name: Option<string>, newStamp: string, confirmed: bool)
    returns (results: seq<Result<()>>, identity: seq<Result<IdentityResult>>, added: Result<bool>)
    requires user.concurrencyStamp != Some(newStamp)
    modifies store, user
    ensures store.disposed
    ensures store.Committed() == old(store.Committed()) && store.pending == old(store.pending)
    ensures user.Record() == old(user.Record())
    ensures forall k :: 0 <= k < |results| ==> results[k] == Err(ObjectDisposed)
    ensures forall k :: 0 <= k < |identity| ==> identity[k] == Err(ObjectDisposed)
    ensures added == Err(ObjectDisposed)
    ensures |results| == 11 && |identity| == 3
  {
    store.Dispose();
    store.Dispose();
    var created := store.Create(user, false, newStamp, Commit);
    var updated := store.Update(user, false, newStamp, Commit);
    var deleted := store.Delete(user, false, Commit);
    added := store.AddLogin(user, Some(info), false);
    var removed := store.RemoveLogin(user, info.loginProvider, info.providerKey, false);
    var replaced := store.ReplaceClaim(user, Some(claim), Some(newClaim), false);
    var claimsRemoved := store.RemoveClaims(user, Some([claim]), false);
    var s1 := store.SetUserName(user, name, false);
    var s2 := store.SetNormalizedUserName(user, name, false);
    var s3 := store.SetPasswordHash(user, name, false);
    var s4 := store.SetEmail(user, name, false);
    var s5 := store.SetEmailConfirmed(user, confirmed, false);
    var s6 := store.SetNormalizedEmail(user, name, false);
    var s7 := store.SetSecurityStamp(user, Some("stamp"), false);
    results := [removed, replaced, claimsRemoved, s1, s2, s3, s4, s5, s6, s7, store.AddClaims(user, Some([claim]), false)];
    identity := [created, updated, deleted];
  }

  /** A cancelled token stops every state-changing operation that checks it at entry,
      whatever the store's state; ReplaceClaimAsync and RemoveClaimsAsync check disposal
      first. Nothing changes either way. */
  method CancelledCallsChangeNothing(store: CustomUserStore, user: User, info: LoginInfo, claim: Claim,
                                     newClaim: Claim, name: Option<string>, newStamp: string, confirmed: bool)
    returns (results: seq<Result<()>>, identity: seq<Result<IdentityResult>>, added: Result<bool>,
             replaced: Result<()>, claimsRemoved: Result<()>)
    requires user.concurrencyStamp != Some(newStamp)
    modifies store, user
    ensures store.Committed() == old(store.Committed()) && store.pending == old(store.pending)
    ensures user.Record() == old(user.Record())
    ensures forall k :: 0 <= k < |results| ==> results[k] == Err(OperationCanceled)
    ensures forall k :: 0 <= k < |identity| ==> identity[k] == Err(OperationCanceled)
    ensures added == Err(OperationCanceled)
    ensures |results| == 8 && |identity| == 3
    ensures replaced == (if store.disposed then Err(ObjectDisposed) else Err(OperationCanceled))
    ensures claimsRemoved == (if store.disposed then Err(ObjectDisposed) else Err(OperationCanceled))
  {
    var created := store.Create(user, true, newStamp, Commit);
    var updated := store.Update(user, true, newStamp, Commit);
    var deleted := store.Delete(user, true, Commit);
    added := store.AddLogin(user, Some(info), true);
    var removed := store.RemoveLogin(user, info.loginProvider, info.providerKey, true);
    replaced := store.ReplaceClaim(user, Some(claim), Some(newClaim), true);
    claimsRemoved := store.RemoveClaims(user, Some([claim]), true);
    var s1 := store.SetUserName(user, name, true);
    var s2 := store.SetNormalizedUserName(user, name, true);
    var s3 := store.SetPasswordHash(user, name, true);
    var s4 := store.SetEmail(user, name, true);
    var s5 := store.SetEmailConfirmed(user, confirmed, true);
    var s6 := store.SetNormalizedEmail(user, name, true);
    var s7 := store.SetSecurityStamp(user, Some("stamp"), true);
    results := [removed, s1, s2, s3, s4, s5, s6, s7];
    identity := [created, updated, deleted];
  }
}
