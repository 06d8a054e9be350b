# CustomUserStore in Dafny

This project models `CustomUserStore`, the ASP.NET Identity user store of CustomIdentity, and proves
properties of that model. The store sits on an Entity Framework context with four tables:

- users;
- user logins;
- user-claim junction rows;
- a shared claim catalog (`ClaimEntities`), which the junction rows point into.

The store is a class (`Stores.CustomUserStore`) with these fields:

- the committed tables;
- the list of changes the context tracks but has not yet saved (`pending`);
- the `AutoSaveChanges` flag;
- whether an `ErrorDescriber` has been assigned, which no constructor does;
- the disposed flag.

Queries read the committed tables. A `Persistence.Change` is appended to `pending` by the context's
`Add`, `Update` and `Remove` (in CreateAsync, UpdateAsync and DeleteAsync), by the login table's `Add`
and `Remove`, and by ReplaceClaimAsync's assignments to the catalog entries it loads. The seven setters
change only the `User` object. `SaveChanges` commits the pending changes with `Persistence.Flush`, but
only when `AutoSaveChanges` is set and the database accepts the save.

`Entities.User` is a class whose fields the setters change in place. `Entities.UserRecord` is its
value, as a table row holds it.

Every exception that the store's own code and `SaveChanges` raise is a `Result` error
(`Outcomes.Error`), in the order the source checks for it:

1. the cancellation token, where the method checks it on entry;
2. `ThrowIfDisposed`;
3. the null checks;
4. the query, which receives the token. So methods that do not check the token on entry still
   report cancellation, after their other checks.

The LINQ operators the store uses are modelled in `Queries`, with strings compared ordinally:

- `Where` and `Count`;
- `FirstOrDefault`, which returns the first match in table order;
- `SingleOrDefault`, which fails when two rows match.

Key uniqueness is not built into the tables. Lemmas state it as a hypothesis where a result depends
on it.

The model follows the code where the code differs from what its operation names suggest:

- `AddClaimsAsync` checks for duplicates and never inserts; its insertion is commented out.
- `ReplaceClaimAsync` rewrites the shared catalog entries in place, so every user who refers to a
  rewritten entry sees the new claim.
- `RemoveClaimsAsync` removes only from a local list. The first removal invalidates the enumeration
  of the deferred `Where`, whose next step throws, so the call fails whenever some claim matches. It
  never changes a table.

A caller-facing description of this store would have `AddClaims` insert the new assignments,
`RemoveClaims` delete the matching ones, and `ReplaceClaim` leave other users' claims alone. The
model keeps the code's behaviour and states these differences as lemmas:
`StoreLemmas.AddClaimsSucceedsWithoutInserting`, `StoreLemmas.RemoveClaimsKeepsClaim`,
`ClaimLemmas.ReplaceLeaksToSharingUsers` and `ClaimLemmas.SharedEntryExample`.

Some library calls are parameters of the operations that use them:

- `Guid.NewGuid().ToString()` is `newStamp`, required to differ from the user's current stamp;
- `Guid.TryParse` is `parse`;
- `Guid.ToString` is `format`.

The cancellation token is a `bool`. Whether the database commits a save, reports a concurrency
conflict or fails another way is the `DbOutcome` argument.

Files:

- `outcomes.dfy`: results, errors, the save outcome and its mapping to `IdentityResult`.
- `entities.dfy`: the user entity and the row types.
- `queries.dfy`: the LINQ operators.
- `persistence.dfy`: the tables, staged changes, commit, and the joins the store runs.
- `user_store.dfy`: the store class.
- `user_lemmas.dfy`, `login_lemmas.dfy`, `claim_lemmas.dfy` and `store_lemmas.dfy`: properties that
  relate several operations.

## Model

| member | source | states |
|---|---|---|
| Entities.User.constructor | CustomIdentity.DAL/Entities/User.cs:9-33 | a user entity holds exactly the eleven column values of its row |
| Outcomes.SaveResult | CustomIdentity.DAL/Stores/CustomUserStore.cs:564-567 | saving succeeds exactly when automatic saving is off or the database commits; it reports a concurrency error exactly on a conflict while saving automatically |
| Outcomes.ConcurrencyMapped | CustomIdentity.DAL/Stores/CustomUserStore.cs:139-148 | a save that raised a concurrency error becomes `Failed(ConcurrencyFailure)` when an `ErrorDescriber` is assigned and a null dereference when none is; a successful save becomes `Success`; every other error propagates unchanged |
| Queries.Filter | CustomIdentity.DAL/Stores/CustomUserStore.cs:324 | `Where` keeps only elements satisfying the predicate, and every element that satisfies it |
| Queries.FilterCount | CustomIdentity.DAL/Stores/CustomUserStore.cs:324 | `Where` returns as many elements as `Count` with the same predicate counts |
| Queries.FilterConcat | CustomIdentity.DAL/Stores/CustomUserStore.cs:324 | `Where` distributes over concatenation, keeping table order |
| Queries.FilterMultiset | CustomIdentity.DAL/Stores/CustomUserStore.cs:324 | `Where` keeps each satisfying element exactly as often as it occurs, and drops every other |
| Queries.CountWhere | CustomIdentity.DAL/Stores/CustomUserStore.cs:343 | `Count` with a predicate is at most the length and is zero exactly when no element satisfies it |
| Queries.FirstIndex | CustomIdentity.DAL/Stores/CustomUserStore.cs:194 | the index found is that of the first match; none is found exactly when nothing matches |
| Queries.FirstOrDefault | CustomIdentity.DAL/Stores/CustomUserStore.cs:194 | null exactly when nothing matches; otherwise the first matching element in order |
| Queries.SingleOrDefault | CustomIdentity.DAL/Stores/CustomUserStore.cs:183 | null exactly when nothing matches; fails with the more-than-one-match error exactly when two elements match; otherwise the one matching element |
| Queries.SingleOrDefaultUnique | CustomIdentity.DAL/Stores/CustomUserStore.cs:306 | when exactly one element matches, SingleOrDefault returns that element |
| Queries.FilterMembership | CustomIdentity.DAL/Stores/CustomUserStore.cs:324 | an element is in a filtered sequence exactly when it is in the sequence and satisfies the predicate |
| Queries.FilterCongruence | CustomIdentity.DAL/Stores/CustomUserStore.cs:324 | two predicates that agree on every element filter a sequence alike |
| Persistence.ReplaceById | CustomIdentity.DAL/Stores/CustomUserStore.cs:137 | an update keeps the number of user rows |
| Persistence.Apply | CustomIdentity.DAL/Stores/CustomUserStore.cs:107-173 | no change the store stages adds or removes a junction row or a catalog key |
| Persistence.Flush | CustomIdentity.DAL/Stores/CustomUserStore.cs:566 | committing any batch of staged changes leaves the junction table and the catalog's keys as they were |
| Persistence.FlushConcat | CustomIdentity.DAL/Stores/CustomUserStore.cs:566 | committing two batches one after the other is committing their concatenation |
| Persistence.UserById | CustomIdentity.DAL/Stores/CustomUserStore.cs:183 | the lookup by id fails with the more-than-one-match error exactly when two rows carry the id; it is null exactly when none does; otherwise it is a row of the table with that id |
| Persistence.UserByNormalizedName | CustomIdentity.DAL/Stores/CustomUserStore.cs:194 | null exactly when no row's normalized name equals the argument (null equal to null); otherwise the first such row in table order |
| Persistence.UserByNormalizedEmail | CustomIdentity.DAL/Stores/CustomUserStore.cs:497 | null exactly when no row's normalized email equals the argument, a null column never matching; otherwise the first such row in table order |
| Persistence.LoginOfUser | CustomIdentity.DAL/Stores/CustomUserStore.cs:275 | fails with the more-than-one-match error exactly when two login rows carry the user's id, provider and key; null exactly when none does; otherwise such a row |
| Persistence.LoginByKey | CustomIdentity.DAL/Stores/CustomUserStore.cs:306 | fails with the more-than-one-match error exactly when two login rows carry the provider and key; null exactly when none does; otherwise such a row |
| Persistence.UserRows | CustomIdentity.DAL/Stores/CustomUserStore.cs:324-325 | a junction row is loaded exactly when it belongs to the user and its catalog entry exists, as the inner join of `Include` keeps it |
| Persistence.MatchedRows | CustomIdentity.DAL/Stores/CustomUserStore.cs:377-380 | a junction row is loaded exactly when it belongs to the user and its catalog entry holds the claim |
| Persistence.RefersTo | CustomIdentity.DAL/Stores/CustomUserStore.cs:429 | a junction row whose catalog entry is missing refers to no claim, and a claim referred to is one the catalog holds |
| Persistence.LoginsOf | CustomIdentity.DAL/Stores/CustomUserStore.cs:291-296 | the projection contains the (provider, key, display name) of every login row of the user, and only of the user's rows |
| Persistence.LoginOwner | CustomIdentity.DAL/Stores/CustomUserStore.cs:306-313 | no row for (provider, key) gives null; a user found is a row of the user table, and some login row for (provider, key) names its id; the converse cases are the LoginOwner lemmas below |
| Persistence.ClaimsOf | CustomIdentity.DAL/Stores/CustomUserStore.cs:324-327 | one claim per junction row of the user that has a catalog entry, in table order, and each is that row's catalog entry |
| Persistence.ReplaceChanges | CustomIdentity.DAL/Stores/CustomUserStore.cs:383-389 | the loop stages one entity update per loaded row |
| Persistence.ReplaceChangesSnoc | CustomIdentity.DAL/Stores/CustomUserStore.cs:383-389 | one more iteration of the loop stages one more update, for the next loaded row |
| Persistence.DuplicateCount | CustomIdentity.DAL/Stores/CustomUserStore.cs:343-347 | the count is zero exactly when no candidate equals any of the user's claims |
| Persistence.UsersWithId | CustomIdentity.DAL/Stores/CustomUserStore.cs:428-430 | following a junction row's user reference yields exactly the user rows carrying its id |
| Persistence.UsersForClaim | CustomIdentity.DAL/Stores/CustomUserStore.cs:427-432 | a user row is in the result exactly when some junction row refers to it and its catalog entry equals the claim |
| Persistence.UsersForClaimSnoc | CustomIdentity.DAL/Stores/CustomUserStore.cs:427-432 | one more junction row appends, at the end, the users it refers to when its entry equals the claim, and nothing otherwise |
| Persistence.UniqueIdSelectsOne | CustomIdentity.DAL/Stores/CustomUserStore.cs:428-430 | with unique ids, a user reference yields one user row when some row carries the id and none otherwise |
| Persistence.UsersForClaimCount | CustomIdentity.DAL/Stores/CustomUserStore.cs:427-432 | with unique ids and every referenced user present, the join returns exactly one user per junction row whose entry equals the claim |
| Stores.CustomUserStore.constructor | CustomIdentity.DAL/Stores/CustomUserStore.cs:30-38 | the store starts over the given tables, with nothing pending, automatic saving on, no `ErrorDescriber` assigned and not disposed |
| Stores.CustomUserStore.SetErrorDescriber | CustomIdentity.DAL/Stores/CustomUserStore.cs:20 | only the record of whether an `ErrorDescriber` is assigned changes |
| Stores.CustomUserStore.Dispose | CustomIdentity.DAL/Stores/CustomUserStore.cs:559-562 | only the disposed flag changes, and it is set |
| Stores.CustomUserStore.SetAutoSaveChanges | CustomIdentity.DAL/Stores/CustomUserStore.cs:21 | only the `AutoSaveChanges` flag changes |
| Stores.CustomUserStore.ThrowIfDisposed | CustomIdentity.DAL/Stores/CustomUserStore.cs:198-204 | fails, with the disposed error, exactly when the store is disposed |
| Stores.CustomUserStore.UserGuard | CustomIdentity.DAL/Stores/CustomUserStore.cs:42-48 | passes exactly when the token is not cancelled, the store is not disposed and the user is not null; otherwise it reports the first of these three failures, in that order |
| Stores.CustomUserStore.SaveChanges | CustomIdentity.DAL/Stores/CustomUserStore.cs:564-567 | commits all pending changes and empties the list when saving automatically and the database commits; otherwise it changes nothing |
| Stores.CustomUserStore.Create | CustomIdentity.DAL/Stores/CustomUserStore.cs:107-123 | after the guards, the only change to the user is a concurrency stamp that differs from the old one; the user's row is staged and saved; the result is `Success`, or the save's error |
| Stores.CustomUserStore.Update | CustomIdentity.DAL/Stores/CustomUserStore.cs:125-149 | as for Create, with the row staged as an update and a concurrency error reported as `Failed(ConcurrencyFailure)`, or as a null dereference while no `ErrorDescriber` is assigned |
| Stores.CustomUserStore.Delete | CustomIdentity.DAL/Stores/CustomUserStore.cs:151-173 | stages the deletion of the user's id and saves, with Update's mapping of a conflict; the user is not touched |
| Stores.CustomUserStore.FindById | CustomIdentity.DAL/Stores/CustomUserStore.cs:175-187 | cancellation, then disposal; an id that is null or does not parse finds nobody; a user found is a row whose id is the parsed id; otherwise the result is the single-row lookup by that id |
| Stores.CustomUserStore.FindByName | CustomIdentity.DAL/Stores/CustomUserStore.cs:189-196 | cancellation, then disposal; otherwise the first user in table order whose normalized name equals the argument (null equal to null), or null when there is none |
| Stores.CustomUserStore.FindByEmail | CustomIdentity.DAL/Stores/CustomUserStore.cs:489-499 | disposal, then a null argument, then the token; otherwise the first user in table order whose normalized email equals the argument, or null |
| Stores.CustomUserStore.GetUserId | CustomIdentity.DAL/Stores/CustomUserStore.cs:40-51 | fails exactly as the guards do; otherwise the user's id as formatted text |
| Stores.CustomUserStore.GetUserName | CustomIdentity.DAL/Stores/CustomUserStore.cs:53-64 | fails exactly as the guards do; otherwise the user's name |
| Stores.CustomUserStore.GetNormalizedUserName | CustomIdentity.DAL/Stores/CustomUserStore.cs:80-91 | fails exactly as the guards do; otherwise the user's normalized name |
| Stores.CustomUserStore.GetPasswordHash | CustomIdentity.DAL/Stores/CustomUserStore.cs:220-231 | fails exactly as the guards do; otherwise the user's password hash |
| Stores.CustomUserStore.HasPassword | CustomIdentity.DAL/Stores/CustomUserStore.cs:233-237 | only the token is checked, so disposal does not matter; a null user is dereferenced; otherwise true exactly when the hash is not null |
| Stores.CustomUserStore.GetEmail | CustomIdentity.DAL/Stores/CustomUserStore.cs:449-460 | fails exactly as the guards do; otherwise the user's email |
| Stores.CustomUserStore.GetEmailConfirmed | CustomIdentity.DAL/Stores/CustomUserStore.cs:462-473 | fails exactly as the guards do; otherwise the user's confirmation flag |
| Stores.CustomUserStore.GetNormalizedEmail | CustomIdentity.DAL/Stores/CustomUserStore.cs:501-512 | fails exactly as the guards do; otherwise the user's normalized email |
| Stores.CustomUserStore.GetSecurityStamp | CustomIdentity.DAL/Stores/CustomUserStore.cs:546-557 | fails exactly as the guards do; otherwise the user's security stamp |
| Stores.CustomUserStore.SetUserName | CustomIdentity.DAL/Stores/CustomUserStore.cs:66-78 | fails exactly as the guards do and then leaves the user unchanged; otherwise changes only the name, which the getter then returns |
| Stores.CustomUserStore.SetNormalizedUserName | CustomIdentity.DAL/Stores/CustomUserStore.cs:93-105 | as SetUserName, for the normalized name |
| Stores.CustomUserStore.SetPasswordHash | CustomIdentity.DAL/Stores/CustomUserStore.cs:206-218 | as SetUserName, for the password hash; afterwards HasPassword is true exactly when the new hash is not null |
| Stores.CustomUserStore.SetEmail | CustomIdentity.DAL/Stores/CustomUserStore.cs:435-447 | as SetUserName, for the email |
| Stores.CustomUserStore.SetEmailConfirmed | CustomIdentity.DAL/Stores/CustomUserStore.cs:475-487 | as SetUserName, for the confirmation flag |
| Stores.CustomUserStore.SetNormalizedEmail | CustomIdentity.DAL/Stores/CustomUserStore.cs:514-526 | as SetUserName, for the normalized email |
| Stores.CustomUserStore.SetSecurityStamp | CustomIdentity.DAL/Stores/CustomUserStore.cs:528-544 | after the guards, a null or empty stamp is rejected as a null argument and leaves the user unchanged; otherwise changes only the stamp, which the getter then returns |
| Stores.CustomUserStore.AddLogin | CustomIdentity.DAL/Stores/CustomUserStore.cs:239-263 | after the guards and a null-login check, stages exactly one new login row carrying the user's id and the given provider, key and display name, and returns false; nothing is saved |
| Stores.CustomUserStore.RemoveLogin | CustomIdentity.DAL/Stores/CustomUserStore.cs:265-280 | after the guards, stages the removal of the user's row for (provider, key) when there is one; nothing when there is none; the lookup's error when two rows match |
| Stores.CustomUserStore.GetLogins | CustomIdentity.DAL/Stores/CustomUserStore.cs:282-299 | fails exactly as the guards do; otherwise the user's login rows, projected |
| Stores.CustomUserStore.FindByLogin | CustomIdentity.DAL/Stores/CustomUserStore.cs:301-314 | cancellation, then disposal; otherwise the owner of the (provider, key) login row |
| Stores.CustomUserStore.GetClaims | CustomIdentity.DAL/Stores/CustomUserStore.cs:316-330 | disposal, then a null user, then the token; otherwise the user's claims |
| Stores.CustomUserStore.AddClaims | CustomIdentity.DAL/Stores/CustomUserStore.cs:332-359 | disposal, then a null claim list, then a null user, then the token; then it rejects the batch exactly when some candidate equals one of the user's claims; it changes nothing |
| Stores.CustomUserStore.ReplaceClaim | CustomIdentity.DAL/Stores/CustomUserStore.cs:361-390 | disposal, then null user, claim and new claim, then the token; then its loop stages, for each of the user's rows whose entry equals the claim, a rewrite of that catalog entry to the new claim; nothing is saved |
| Stores.CustomUserStore.RemoveClaims | CustomIdentity.DAL/Stores/CustomUserStore.cs:392-416 | disposal, then null user and claims, then the token; then it fails with the collection-modified error exactly when some candidate equals one of the user's claims; it changes nothing either way |
| Stores.CustomUserStore.GetUsersForClaim | CustomIdentity.DAL/Stores/CustomUserStore.cs:418-433 | cancellation, disposal, then a null claim; otherwise one user per junction row whose entry equals the claim |
| UserLemmas.UniqueIdsNeverAmbiguous | CustomIdentity.DAL/Stores/CustomUserStore.cs:183 | with unique ids, the lookup by id never fails and finds every row that carries the id |
| UserLemmas.CreateThenFindById | CustomIdentity.DAL/Stores/CustomUserStore.cs:107-187 | committing the insertion of a user with a new id makes the lookup by id find exactly that row, and keeps ids unique |
| UserLemmas.UpdateThenFindById | CustomIdentity.DAL/Stores/CustomUserStore.cs:125-187 | committing an update of an existing user makes the lookup find the new values, keeps ids unique and leaves every other row as it was |
| UserLemmas.DeleteThenFindById | CustomIdentity.DAL/Stores/CustomUserStore.cs:151-187 | after a committed deletion, the lookup by that id finds nobody |
| LoginLemmas.AddLoginThenFindByLogin | CustomIdentity.DAL/Stores/CustomUserStore.cs:239-314 | once a new (provider, key) login row is committed, the login lookup finds its owner |
| LoginLemmas.RemoveLoginThenFindByLogin | CustomIdentity.DAL/Stores/CustomUserStore.cs:265-314 | once the only row for (provider, key) is removed and committed, the login lookup finds nobody |
| LoginLemmas.AddLoginExtendsLogins | CustomIdentity.DAL/Stores/CustomUserStore.cs:253-296 | appending a login row appends its projection to its owner's logins and leaves every other user's logins as they were |
| LoginLemmas.RemoveLoginDropsIt | CustomIdentity.DAL/Stores/CustomUserStore.cs:275-296 | after the removal is committed, the removed login is no longer among its owner's logins |
| LoginLemmas.StagedRemovalIsTheUsersRow | CustomIdentity.DAL/Stores/CustomUserStore.cs:275-279 | the row RemoveLoginAsync removes belongs to the user and matches provider and key; when it finds none, the user has no such row |
| LoginLemmas.LoginOwnerFindsOwner | CustomIdentity.DAL/Stores/CustomUserStore.cs:306-311 | with exactly one login row for (provider, key) and unique user ids, the login lookup finds the user that row names |
| LoginLemmas.LoginOwnerMissingOwner | CustomIdentity.DAL/Stores/CustomUserStore.cs:306-313 | with exactly one login row for (provider, key) naming a user who is not in the table, the lookup returns null |
| LoginLemmas.LoginOwnerAmbiguous | CustomIdentity.DAL/Stores/CustomUserStore.cs:306 | with two login rows for (provider, key), the lookup fails with the more-than-one-match error |
| ClaimLemmas.Substituted | CustomIdentity.DAL/Stores/CustomUserStore.cs:383-389 | the user's claims with every occurrence of one claim replaced keep their number |
| ClaimLemmas.FlushReplaceChanges | CustomIdentity.DAL/Stores/CustomUserStore.cs:383-389 | committing the loop's updates changes only the catalog: each rewritten entry holds the new claim and every other entry stays as it was |
| ClaimLemmas.ReplaceClaimEffect | CustomIdentity.DAL/Stores/CustomUserStore.cs:377-389 | after the replacement is committed, every user keeps the same junction rows; each of their claims is the new claim where its row refers to a rewritten entry, and stays as it was elsewhere |
| ClaimLemmas.ReplaceRewritesOwnClaims | CustomIdentity.DAL/Stores/CustomUserStore.cs:377-389 | the user's own claims after the replacement are the old ones with every occurrence of the replaced claim substituted |
| ClaimLemmas.ReplaceLeaksToSharingUsers | CustomIdentity.DAL/Stores/CustomUserStore.cs:383-389 | when two users refer to one catalog entry holding the claim, replacing the claim for one of them gives the other the new claim too |
| ClaimLemmas.SharedEntryExample | CustomIdentity.DAL/Stores/CustomUserStore.cs:383-389 | a concrete instance: alice's replacement of `role=admin` by `role=guest` turns bob's `role=admin` into `role=guest` |
| StoreLemmas.DisposedStoreRejects | CustomIdentity.DAL/Stores/CustomUserStore.cs:198-204 | a disposed store fails GetUserId, the seven field getters, GetLogins, FindById, FindByName, FindByLogin and GetUsersForClaim with the disposed error when not cancelled, and GetClaims, AddClaims and FindByEmail even when cancelled; HasPassword still answers |
| StoreLemmas.CancellationOrder | CustomIdentity.DAL/Stores/CustomUserStore.cs:316-341 | with a cancelled token, GetUserId, the seven field getters, HasPassword, GetLogins, FindById, FindByName, FindByLogin and GetUsersForClaim report cancellation whatever the store and arguments; GetClaims, AddClaims and FindByEmail report disposal and their null arguments first |
| StoreLemmas.GetUserIdThenFindById | CustomIdentity.DAL/Stores/CustomUserStore.cs:175-187 | when parsing inverts formatting and ids are unique, the text GetUserId returns finds the user's row again |
| StoreLemmas.AddClaimsSucceedsWithoutInserting | CustomIdentity.DAL/Stores/CustomUserStore.cs:332-359 | AddClaims of a new claim succeeds, and the user's claims still do not contain it |
| StoreLemmas.ClaimsIgnoreOtherTables | CustomIdentity.DAL/Stores/CustomUserStore.cs:324-327 | a user's claims depend only on the junction table and the catalog |
| StoreLemmas.FlushSingle | CustomIdentity.DAL/Stores/CustomUserStore.cs:566 | a batch of one change commits as that change alone |
| StoreLemmas.ReplaceThenSaveReachesSharer | CustomIdentity.DAL/Stores/CustomUserStore.cs:383-389 | a replacement committed by a later update of the user reaches every user who shares a rewritten entry |
| StoreLemmas.CreateThenLookUp | CustomIdentity.DAL/Stores/CustomUserStore.cs:107-187 | CreateAsync followed by FindByIdAsync, with automatic saving, finds the user's values with the new stamp |
| StoreLemmas.LoginWaitsForNextSave | CustomIdentity.DAL/Stores/CustomUserStore.cs:239-314 | a new login is not found until a later UpdateAsync saves it; then it finds the updated user |
| StoreLemmas.ReplaceClaimReachesOtherUser | CustomIdentity.DAL/Stores/CustomUserStore.cs:361-390 | ReplaceClaimAsync for alice, then alice's UpdateAsync, changes the claims of bob, who shares the entry |
| StoreLemmas.RemoveClaimsKeepsClaim | CustomIdentity.DAL/Stores/CustomUserStore.cs:392-416 | RemoveClaimsAsync of a claim the user holds fails, and the claim is still there afterwards |
| StoreLemmas.DisposedStoreChangesNothing | CustomIdentity.DAL/Stores/CustomUserStore.cs:198-204 | after Dispose, once or twice, Create, Update, Delete, AddLogin, RemoveLogin, ReplaceClaim, RemoveClaims, AddClaims and the seven setters fail with the disposed error and change neither the store nor the user |
| StoreLemmas.CancelledCallsChangeNothing | CustomIdentity.DAL/Stores/CustomUserStore.cs:107-173 | with a cancelled token, Create, Update, Delete, AddLogin, RemoveLogin and the seven setters report cancellation whatever the store's state; ReplaceClaim and RemoveClaims report disposal first; none changes the store or the user |

## Left out

- Entity Framework's change tracking and identity resolution are not modelled. A staged user change
  records the user's values when it is staged, while EF reads the tracked entity when it saves. The
  model therefore does not capture edits made between staging and saving, such as a setter that
  runs after a failed save. Nor does it capture a setter's change to a user that the context tracks:
  in EF any later save commits it, CreateAsync's and DeleteAsync's included, while in the model only
  UpdateAsync of that user commits it. Queries see the same gap. An EF query filters on the
  database's values but returns the context's already-tracked instance of each entity it loads,
  unsaved edits included: the `ClaimEntity` loads of AddClaimsAsync, ReplaceClaimAsync and
  RemoveClaimsAsync, and the users the FindBy methods return. The model's queries read only the
  committed tables. So after ReplaceClaimAsync(alice, admin → guest) with no save, EF's
  AddClaimsAsync(alice, [guest]) rejects the duplicate and RemoveClaimsAsync(alice, [admin]) returns
  normally, while in the model the first succeeds and the second fails with the collection-modified
  error.
- Attaching an untracked user in UpdateAsync, and duplicate tracking of one key, are not modelled.
- Query ordering is table order in the model; SQL without `ORDER BY` promises no order.
- The asynchronous layer is left out: `Task` and `async` are plain calls and the cancellation token
  is a boolean.
- The database's optimistic-concurrency detection and its key and foreign-key constraints are not in
  the store's code. A save's outcome is an input; constraints appear only as lemma hypotheses, such
  as unique ids.
- `Guid.NewGuid`, `Guid.TryParse` and `Guid.ToString` are library calls and are parameters of the
  operations that use them.
- `IdentityErrorDescriber` is modelled only as assigned or not. The content of `IdentityResult`
  errors is not modelled: with a describer, a conflicting update or delete yields
  `Failed(ConcurrencyFailure)`.
- The type of a non-concurrency `DbUpdateException` is not modelled beyond one error value.
- Database faults raised by the queries themselves are not modelled: a lost connection or a command
  time-out in `SingleOrDefaultAsync`, `FirstOrDefaultAsync` or `ToListAsync`. In the model a query
  fails only when it is cancelled or when SingleOrDefault finds two rows.
- Null provider or key strings, null elements inside a claim list, and an `ObjectDisposedException`
  message naming the type are not modelled.
- EF may wrap a null dereference inside a query in another exception type. The model reports
  `NullReference` for AddClaimsAsync's null user. Its `user.Id` sits in the query's expression
  tree and is evaluated when `ToListAsync` extracts the query's parameters, before the token is
  observed.
- Stores.CustomUserStore.RemoveClaims models the exception that the list enumerator raises. It does
  not model the list's intermediate contents, which the method discards.
- Stores.CustomUserStore.AddLogin states the returned `false` of `Task.FromResult(false)`; callers
  see only a completed task.
- Stores.CustomUserStore.Create: EF Core generates a value for a `Guid` key left at `Guid.Empty`
  when `Add` is called, so CreateAsync can change `user.Id`; the model keeps the id and changes only
  the concurrency stamp.
- Persistence.Flush: cascade deletes are not modelled. If the relationship between a junction row
  and its user is required, committing DeleteAsync also deletes that user's junction rows; in the
  model the junction table never changes.
- String equality is ordinal throughout. The comparisons EF translates to SQL, in FindByNameAsync,
  RemoveLoginAsync, FindByLoginAsync, ReplaceClaimAsync, GetUsersForClaimAsync and
  FindByEmailAsync, follow the database's collation instead. Only AddClaimsAsync's duplicate count
  and RemoveClaimsAsync's filter run in memory and are ordinal.
- `AccessFailedCount` is an unbounded integer; the store never changes it.
- The roles, role claims and user-role entities, and the permission model, are not used by this
  store and are not part of this model.
