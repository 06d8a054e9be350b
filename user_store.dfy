/** CustomUserStore: the ASP.NET Identity user store over the EF context. Queries read
    the committed tables; Add, Remove and changes to tracked entities are staged in
    `pending` until SaveChanges commits them. */
module Stores {
  import opened Outcomes
  import opened Entities
  import opened Queries
  import opened Persistence

  class CustomUserStore {
    var autoSaveChanges: bool
    /** Whether a caller has assigned the ErrorDescriber property; no constructor does. */
    var hasErrorDescriber: bool
    var disposed: bool
    var users: seq<UserRecord>
    var logins: seq<LoginRow>
    var userClaims: seq<UserClaimRow>
    var catalog: map<int, Claim>
    var pending: seq<Change>

    /** A store over a context whose tables hold db; saving is automatic by default and
        no ErrorDescriber is assigned. */
    constructor (db: Tables)
      ensures Committed() == db && pending == []
      ensures autoSaveChanges && !disposed && !hasErrorDescriber
    {
      hasErrorDescriber := false;
      users, logins, userClaims, catalog := db.users, db.logins, db.userClaims, db.catalog;
      pending := [];
      autoSaveChanges := true;
      disposed := false;
    }

    /** The committed contents of the database. */
    function Committed(): Tables
      reads this
    {
      Tables(users, logins, userClaims, catalog)
    }

    // ---- Lifecycle and saving ---------------------------------------------------

    method Dispose()
      modifies this`disposed
      ensures disposed
    {
      disposed := true;
    }

    method SetAutoSaveChanges(value: bool)
      modifies this`autoSaveChanges
      ensures autoSaveChanges == value
    {
      autoSaveChanges := value;
    }

    /** Assigning the ErrorDescriber property: `present` is false for a null describer. */
    method SetErrorDescriber(present: bool)
      modifies this`hasErrorDescriber
      ensures hasErrorDescriber == present
    {
      hasErrorDescriber := present;
    }

    /** ThrowIfDisposed. */
    function ThrowIfDisposed(): (r: Result<()>)
      reads this
      ensures r.Err? <==> disposed
      ensures r.Err? ==> r.error == ObjectDisposed
    {
      if disposed then Err(ObjectDisposed) else Ok(())
    }

    /** The checks a user operation opens with: the cancellation token, then
        ThrowIfDisposed, then a null user. */
    function UserGuard(user: User?, cancelled: bool): (r: Result<()>)
      reads this
      ensures r.Ok? <==> !cancelled && !disposed && user != null
      ensures cancelled ==> r == Err(OperationCanceled)
      ensures !cancelled && disposed ==> r == Err(ObjectDisposed)
      ensures !cancelled && !disposed && user == null ==> r == Err(ArgumentNull("user"))
    {
      if cancelled then Err(OperationCanceled)
      else if ThrowIfDisposed().Err? then ThrowIfDisposed()
      else if user == null then Err(ArgumentNull("user"))
      else Ok(())
    }

    /** The state SaveChanges leaves when the context held `staged` over committed
        tables db: committed only when automatic saving is on and the database agrees;
        otherwise nothing is committed and the changes stay tracked. */
    ghost predicate SavedAs(db: Tables, staged: seq<Change>, outcome: DbOutcome)
      reads this
    {
      if autoSaveChanges && outcome == Commit then Committed() == Flush(db, staged) && pending == []
      else Committed() == db && pending == staged
    }

    /** SaveChanges: SaveChangesAsync when AutoSaveChanges is set, a no-op otherwise. */
    method SaveChanges(outcome: DbOutcome) returns (r: Result<()>)
      modifies this`users, this`logins, this`userClaims, this`catalog, this`pending
      ensures r == SaveResult(autoSaveChanges, outcome)
      ensures SavedAs(old(Committed()), old(pending), outcome)
    {
      r := SaveResult(autoSaveChanges, outcome);
      if autoSaveChanges && outcome == Commit {
        var db := Flush(Committed(), pending);
        users, logins, userClaims, catalog := db.users, db.logins, db.userClaims, db.catalog;
        pending := [];
      }
    }

    // ---- Create, update, delete -------------------------------------------------

    /** CreateAsync. `newStamp` is the fresh Guid.NewGuid().ToString(). */
    method Create(user: User?, cancelled: bool, newStamp: string, outcome: DbOutcome) returns (r: Result<IdentityResult>)
      requires user != null ==> user.concurrencyStamp != Some(newStamp)
      modifies this`users, this`logins, this`userClaims, this`catalog, this`pending, user
      ensures UserGuard(user, cancelled).Err? ==>
                r == Err(UserGuard(user, cancelled).error) && Committed() == old(Committed()) &&
                pending == old(pending) && (user != null ==> unchanged(user))
      ensures UserGuard(user, cancelled).Ok? ==>
                user.Record() == old(user.Record()).(concurrencyStamp := Some(newStamp)) &&
                user.concurrencyStamp != old(user.concurrencyStamp) &&
                SavedAs(old(Committed()), old(pending) + [InsertUser(user.Record())], outcome) &&
                r == (if SaveResult(autoSaveChanges, outcome).Ok? then Ok(Success)
                      else Err(SaveResult(autoSaveChanges, outcome).error))
    {
      var g := UserGuard(user, cancelled);
      if g.Err? {
        return Err(g.error);
      }
      user.concurrencyStamp := Some(newStamp);
      pending := pending + [InsertUser(user.Record())];
      var saved := SaveChanges(outcome);
      r := if saved.Ok? then Ok(Success) else Err(saved.error);
    }

    /** UpdateAsync: a fresh concurrency stamp, then a save whose concurrency conflict
        is reported as Failed(ConcurrencyFailure), or raises a null dereference when no
        ErrorDescriber is assigned. */
    method Update(user: User?, cancelled: bool, newStamp: string, outcome: DbOutcome) returns (r: Result<IdentityResult>)
      requires user != null ==> user.concurrencyStamp != Some(newStamp)
      modifies this`users, this`logins, this`userClaims, this`catalog, this`pending, user
      ensures UserGuard(user, cancelled).Err? ==>
                r == Err(UserGuard(user, cancelled).error) && Committed() == old(Committed()) &&
                pending == old(pending) && (user != null ==> unchanged(user))
      ensures UserGuard(user, cancelled).Ok? ==>
                user.Record() == old(user.Record()).(concurrencyStamp := Some(newStamp)) &&
                user.concurrencyStamp != old(user.concurrencyStamp) &&
                SavedAs(old(Committed()), old(pending) + [UpdateUser(user.Record())], outcome) &&
                r == ConcurrencyMapped(SaveResult(autoSaveChanges, outcome), hasErrorDescriber)
    {
      var g := UserGuard(user, cancelled);
      if g.Err? {
        return Err(g.error);
      }
      user.concurrencyStamp := Some(newStamp);
      pending := pending + [UpdateUser(user.Record())];
      var saved := SaveChanges(outcome);
      r := ConcurrencyMapped(saved, hasErrorDescriber);
    }

    /** DeleteAsync: the same conflict mapping as UpdateAsync; the user is not touched. */
    method Delete(user: User?, cancelled: bool, outcome: DbOutcome) returns (r: Result<IdentityResult>)
      modifies this`users, this`logins, this`userClaims, this`catalog, this`pending
      ensures UserGuard(user, cancelled).Err? ==>
                r == Err(UserGuard(user, cancelled).error) && Committed() == old(Committed()) &&
                pending == old(pending)
      ensures UserGuard(user, cancelled).Ok? ==>
                SavedAs(old(Committed()), old(pending) + [DeleteUser(user.id)], outcome) &&
                r == ConcurrencyMapped(SaveResult(autoSaveChanges, outcome), hasErrorDescriber)
    {
      var g := UserGuard(user, cancelled);
      if g.Err? {
        return Err(g.error);
      }
      pending := pending + [DeleteUser(user.id)];
      var saved := SaveChanges(outcome);
      r := ConcurrencyMapped(saved, hasErrorDescriber);
    }

    // ---- Lookups of users -------------------------------------------------------

    /** FindByIdAsync: an id that does not parse as a Guid finds nobody. */
    function FindById(userId: Option<string>, cancelled: bool, parse: string -> Option<Guid>): (r: Result<Option<UserRecord>>)
      reads this
      ensures cancelled ==> r == Err(OperationCanceled)
      ensures !cancelled && disposed ==> r == Err(ObjectDisposed)
      ensures !cancelled && !disposed && (userId.None? || parse(userId.value).None?) ==> r == Ok(None)
      ensures r.Ok? && r.value.Some? ==>
                userId.Some? && parse(userId.value) == Some(r.value.value.id) && r.value.value in users
      ensures !cancelled && !disposed && userId.Some? && parse(userId.value).Some? ==>
                r == UserById(users, parse(userId.value).value)
    {
      if cancelled then Err(OperationCanceled)
      else if ThrowIfDisposed().Err? then ThrowIfDisposed().PropagateTo()
      else if userId.None? then Ok(None)
      else match parse(userId.value)
        case None => Ok(None)
        case Some(id) => UserById(users, id)
    }

    /** FindByNameAsync: the first user, in table order, with that normalized name. */
    function FindByName(normalizedUserName: Option<string>, cancelled: bool): (r: Result<Option<UserRecord>>)
      reads this
      ensures cancelled ==> r == Err(OperationCanceled)
      ensures !cancelled && disposed ==> r == Err(ObjectDisposed)
      ensures r.Ok? <==> !cancelled && !disposed
      ensures r.Ok? ==>
                (r.value.None? <==> forall i :: 0 <= i < |users| ==> users[i].normalizedUserName != normalizedUserName)
      ensures r.Ok? && r.value.Some? ==>
                exists i :: 0 <= i < |users| && users[i] == r.value.value &&
                            users[i].normalizedUserName == normalizedUserName &&
                            forall j :: 0 <= j < i ==> users[j].normalizedUserName != normalizedUserName
    {
      if cancelled then Err(OperationCanceled)
      else if ThrowIfDisposed().Err? then ThrowIfDisposed().PropagateTo()
      else Ok(UserByNormalizedName(users, normalizedUserName))
    }

    /** FindByEmailAsync: no cancellation check at entry; the token reaches the query,
        which runs after the disposal and null checks. */
    function FindByEmail(normalizedEmail: Option<string>, cancelled: bool): (r: Result<Option<UserRecord>>)
      reads this
      ensures disposed ==> r == Err(ObjectDisposed)
      ensures !disposed && normalizedEmail.None? ==> r == Err(ArgumentNull("normalizedEmail"))
      ensures !disposed && normalizedEmail.Some? && cancelled ==> r == Err(OperationCanceled)
      ensures r.Ok? <==> !disposed && normalizedEmail.Some? && !cancelled
      ensures r.Ok? ==>
                (r.value.None? <==> forall i :: 0 <= i < |users| ==> users[i].normalizedEmail != normalizedEmail)
      ensures r.Ok? && r.value.Some? ==>
                exists i :: 0 <= i < |users| && users[i] == r.value.value &&
                            users[i].normalizedEmail == normalizedEmail &&
                            forall j :: 0 <= j < i ==> users[j].normalizedEmail != normalizedEmail
    {
      if ThrowIfDisposed().Err? then ThrowIfDisposed().PropagateTo()
      else if normalizedEmail.None? then Err(ArgumentNull("normalizedEmail"))
      else if cancelled then Err(OperationCanceled)
      else Ok(UserByNormalizedEmail(users, normalizedEmail.value))
    }

    // ---- Getters ----------------------------------------------------------------

    /** GetUserIdAsync; `format` is Guid.ToString. */
    function GetUserId(user: User?, cancelled: bool, format: Guid -> string): (r: Result<string>)
      reads this, user
      ensures r.Err? <==> UserGuard(user, cancelled).Err?
      ensures r.Err? ==> r.error == UserGuard(user, cancelled).error
      ensures r.Ok? ==> r.value == format(user.id)
    {
      if UserGuard(user, cancelled).Err? then UserGuard(user, cancelled).PropagateTo() else Ok(format(user.id))
    }

    function GetUserName(user: User?, cancelled: bool): (r: Result<Option<string>>)
      reads this, user
      ensures r.Err? <==> UserGuard(user, cancelled).Err?
      ensures r.Err? ==> r.error == UserGuard(user, cancelled).error
      ensures r.Ok? ==> r.value == user.userName
    {
      if UserGuard(user, cancelled).Err? then UserGuard(user, cancelled).PropagateTo() else Ok(user.userName)
    }

    function GetNormalizedUserName(user: User?, cancelled: bool): (r: Result<Option<string>>)
      reads this, user
      ensures r.Err? <==> UserGuard(user, cancelled).Err?
      ensures r.Err? ==> r.error == UserGuard(user, cancelled).error
      ensures r.Ok? ==> r.value == user.normalizedUserName
    {
      if UserGuard(user, cancelled).Err? then UserGuard(user, cancelled).PropagateTo() else Ok(user.normalizedUserName)
    }

    function GetPasswordHash(user: User?, cancelled: bool): (r: Result<Option<string>>)
      reads this, user
      ensures r.Err? <==> UserGuard(user, cancelled).Err?
      ensures r.Err? ==> r.error == UserGuard(user, cancelled).error
      ensures r.Ok? ==> r.value == user.passwordHash
    {
      if UserGuard(user, cancelled).Err? then UserGuard(user, cancelled).PropagateTo() else Ok(user.passwordHash)
    }

    /** HasPasswordAsync: only the cancellation check; it reads nothing of the store, so
        disposal does not affect it, and a null user is dereferenced. */
    function HasPassword(user: User?, cancelled: bool): (r: Result<bool>)
      reads user
      ensures cancelled ==> r == Err(OperationCanceled)
      ensures !cancelled && user == null ==> r == Err(NullReference)
      ensures r.Ok? <==> !cancelled && user != null
      ensures r.Ok? ==> (r.value <==> user.passwordHash.Some?)
    {
      if cancelled then Err(OperationCanceled)
      else if user == null then Err(NullReference)
      else Ok(user.passwordHash != None)
    }

    function GetEmail(user: User?, cancelled: bool): (r: Result<Option<string>>)
      reads this, user
      ensures r.Err? <==> UserGuard(user, cancelled).Err?
      ensures r.Err? ==> r.error == UserGuard(user, cancelled).error
      ensures r.Ok? ==> r.value == user.email
    {
      if UserGuard(user, cancelled).Err? then UserGuard(user, cancelled).PropagateTo() else Ok(user.email)
    }

    function GetEmailConfirmed(user: User?, cancelled: bool): (r: Result<bool>)
      reads this, user
      ensures r.Err? <==> UserGuard(user, cancelled).Err?
      ensures r.Err? ==> r.error == UserGuard(user, cancelled).error
      ensures r.Ok? ==> r.value == user.emailConfirmed
    {
      if UserGuard(user, cancelled).Err? then UserGuard(user, cancelled).PropagateTo() else Ok(user.emailConfirmed)
    }

    function GetNormalizedEmail(user: User?, cancelled: bool): (r: Result<Option<string>>)
      reads this, user
      ensures r.Err? <==> UserGuard(user, cancelled).Err?
      ensures r.Err? ==> r.error == UserGuard(user, cancelled).error
      ensures r.Ok? ==> r.value == user.normalizedEmail
    {
      if UserGuard(user, cancelled).Err? then UserGuard(user, cancelled).PropagateTo() else Ok(user.normalizedEmail)
    }

    function GetSecurityStamp(user: User?, cancelled: bool): (r: Result<Option<string>>)
      reads this, user
      ensures r.Err? <==> UserGuard(user, cancelled).Err?
      ensures r.Err? ==> r.error == UserGuard(user, cancelled).error
      ensures r.Ok? ==> r.value == user.securityStamp
    {
      if UserGuard(user, cancelled).Err? then UserGuard(user, cancelled).PropagateTo() else Ok(user.securityStamp)
    }

    // ---- Setters: each changes its one field of the user and nothing else --------

    method SetUserName(user: User?, userName: Option<string>, cancelled: bool) returns (r: Result<()>)
      modifies user
      ensures r == UserGuard(user, cancelled)
      ensures r.Err? && user != null ==> unchanged(user)
      ensures r.Ok? ==> user.Record() == old(user.Record()).(userName := userName)
      ensures r.Ok? ==> GetUserName(user, false) == Ok(userName)
    {
      r := UserGuard(user, cancelled);
      if r.Ok? {
        user.userName := userName;
      }
    }

    method SetNormalizedUserName(user: User?, normalizedName: Option<string>, cancelled: bool) returns (r: Result<()>)
      modifies user
      ensures r == UserGuard(user, cancelled)
      ensures r.Err? && user != null ==> unchanged(user)
      ensures r.Ok? ==> user.Record() == old(user.Record()).(normalizedUserName := normalizedName)
      ensures r.Ok? ==> GetNormalizedUserName(user, false) == Ok(normalizedName)
    {
      r := UserGuard(user, cancelled);
      if r.Ok? {
        user.normalizedUserName := normalizedName;
      }
    }

    method SetPasswordHash(user: User?, passwordHash: Option<string>, cancelled: bool) returns (r: Result<()>)
      modifies user
      ensures r == UserGuard(user, cancelled)
      ensures r.Err? && user != null ==> unchanged(user)
      ensures r.Ok? ==> user.Record() == old(user.Record()).(passwordHash := passwordHash)
      ensures r.Ok? ==> GetPasswordHash(user, false) == Ok(passwordHash)
      ensures r.Ok? ==> HasPassword(user, false) == Ok(passwordHash.Some?)
    {
      r := UserGuard(user, cancelled);
      if r.Ok? {
        user.passwordHash := passwordHash;
      }
    }

    method SetEmail(user: User?, email: Option<string>, cancelled: bool) returns (r: Result<()>)
      modifies user
      ensures r == UserGuard(user, cancelled)
      ensures r.Err? && user != null ==> unchanged(user)
      ensures r.Ok? ==> user.Record() == old(user.Record()).(email := email)
      ensures r.Ok? ==> GetEmail(user, false) == Ok(email)
    {
      r := UserGuard(user, cancelled);
      if r.Ok? {
        user.email := email;
      }
    }

    method SetEmailConfirmed(user: User?, confirmed: bool, cancelled: bool) returns (r: Result<()>)
      modifies user
      ensures r == UserGuard(user, cancelled)
      ensures r.Err? && user != null ==> unchanged(user)
      ensures r.Ok? ==> user.Record() == old(user.Record()).(emailConfirmed := confirmed)
      ensures r.Ok? ==> GetEmailConfirmed(user, false) == Ok(confirmed)
    {
      r := UserGuard(user, cancelled);
      if r.Ok? {
        user.emailConfirmed := confirmed;
      }
    }

    method SetNormalizedEmail(user: User?, normalizedEmail: Option<string>, cancelled: bool) returns (r: Result<()>)
      modifies user
      ensures r == UserGuard(user, cancelled)
      ensures r.Err? && user != null ==> unchanged(user)
      ensures r.Ok? ==> user.Record() == old(user.Record()).(normalizedEmail := normalizedEmail)
      ensures r.Ok? ==> GetNormalizedEmail(user, false) == Ok(normalizedEmail)
    {
      r := UserGuard(user, cancelled);
      if r.Ok? {
        user.normalizedEmail := normalizedEmail;
      }
    }

    /** SetSecurityStampAsync additionally rejects a null or empty stamp. */
    method SetSecurityStamp(user: User?, stamp: Option<string>, cancelled: bool) returns (r: Result<()>)
      modifies user
      ensures UserGuard(user, cancelled).Err? ==> r == UserGuard(user, cancelled)
      ensures UserGuard(user, cancelled).Ok? && (stamp.None? || stamp.value == "") ==>
                r == Err(ArgumentNull("stamp"))
      ensures r.Ok? <==> UserGuard(user, cancelled).Ok? && stamp.Some? && stamp.value != ""
      ensures r.Err? && user != null ==> unchanged(user)
      ensures r.Ok? ==> user.Record() == old(user.Record()).(securityStamp := stamp)
      ensures r.Ok? ==> GetSecurityStamp(user, false) == Ok(stamp)
    {
      r := UserGuard(user, cancelled);
      if r.Err? {
        return;
      }
      if stamp.None? || stamp.value == "" {
        return Err(ArgumentNull("stamp"));
      }
      user.securityStamp := stamp;
    }

    // ---- Logins -----------------------------------------------------------------

    /** AddLoginAsync stages one new login row; it does not save. */
    method AddLogin(user: User?, login: Option<LoginInfo>, cancelled: bool) returns (r: Result<bool>)
      modifies this`pending
      ensures UserGuard(user, cancelled).Err? ==> r == Err(UserGuard(user, cancelled).error)
      ensures UserGuard(user, cancelled).Ok? && login.None? ==> r == Err(ArgumentNull("login"))
      ensures r.Ok? <==> UserGuard(user, cancelled).Ok? && login.Some?
      ensures r.Err? ==> pending == old(pending)
      ensures r.Ok? ==> r == Ok(false)
      ensures r.Ok? ==>
                pending == old(pending) + [InsertLogin(LoginRow(user.id, login.value.loginProvider,
                                                                login.value.providerKey,
                                                                login.value.providerDisplayName))]
    {
      var g := UserGuard(user, cancelled);
      if g.Err? {
        return Err(g.error);
      }
      if login.None? {
        return Err(ArgumentNull("login"));
      }
      var newUserLogin := LoginRow(user.id, login.value.loginProvider, login.value.providerKey,
                                   login.value.providerDisplayName);
      pending := pending + [InsertLogin(newUserLogin)];
      r := Ok(false);
    }

    /** RemoveLoginAsync stages the removal of the user's row for (provider, key), if
        there is one; it does not save. */
    method RemoveLogin(user: User?, loginProvider: string, providerKey: string, cancelled: bool) returns (r: Result<()>)
      modifies this`pending
      ensures UserGuard(user, cancelled).Err? ==> r == Err(UserGuard(user, cancelled).error) && pending == old(pending)
      ensures UserGuard(user, cancelled).Ok? ==>
                match LoginOfUser(logins, user.id, loginProvider, providerKey)
                case Err(e) => r == Err(e) && pending == old(pending)
                case Ok(None) => r == Ok(()) && pending == old(pending)
                case Ok(Some(row)) => r == Ok(()) && pending == old(pending) + [DeleteLogin(row)]
    {
      var g := UserGuard(user, cancelled);
      if g.Err? {
        return Err(g.error);
      }
      var entry := LoginOfUser(logins, user.id, loginProvider, providerKey);
      if entry.Err? {
        return Err(entry.error);
      }
      if entry.value.Some? {
        pending := pending + [DeleteLogin(entry.value.value)];
      }
      r := Ok(());
    }

    /** GetLoginsAsync: the user's login rows in table order. */
    function GetLogins(user: User?, cancelled: bool): (r: Result<seq<LoginInfo>>)
      reads this, user
      ensures r.Err? <==> UserGuard(user, cancelled).Err?
      ensures r.Err? ==> r.error == UserGuard(user, cancelled).error
      ensures r.Ok? ==> r.value == LoginsOf(logins, user.id)
    {
      if UserGuard(user, cancelled).Err? then UserGuard(user, cancelled).PropagateTo()
      else Ok(LoginsOf(logins, user.id))
    }

    /** FindByLoginAsync: the owner of the (provider, key) row, or null. */
    function FindByLogin(loginProvider: string, providerKey: string, cancelled: bool): (r: Result<Option<UserRecord>>)
      reads this
      ensures cancelled ==> r == Err(OperationCanceled)
      ensures !cancelled && disposed ==> r == Err(ObjectDisposed)
      ensures !cancelled && !disposed ==> r == LoginOwner(Committed(), loginProvider, providerKey)
    {
      if cancelled then Err(OperationCanceled)
      else if ThrowIfDisposed().Err? then ThrowIfDisposed().PropagateTo()
      else LoginOwner(Committed(), loginProvider, providerKey)
    }

    // ---- Claims (no cancellation check at entry: the token reaches the query) ---

    /** GetClaimsAsync: the catalog entries of the user's rows, in table order. */
    function GetClaims(user: User?, cancelled: bool): (r: Result<seq<Claim>>)
      reads this, user
      ensures disposed ==> r == Err(ObjectDisposed)
      ensures !disposed && user == null ==> r == Err(ArgumentNull("user"))
      ensures !disposed && user != null && cancelled ==> r == Err(OperationCanceled)
      ensures r.Ok? <==> !disposed && user != null && !cancelled
      ensures r.Ok? ==> r.value == ClaimsOf(Committed(), user.id)
    {
      if ThrowIfDisposed().Err? then ThrowIfDisposed().PropagateTo()
      else if user == null then Err(ArgumentNull("user"))
      else if cancelled then Err(OperationCanceled)
      else Ok(ClaimsOf(Committed(), user.id))
    }

    /** AddClaimsAsync: rejects the batch when a candidate equals one of the user's
        claims, and otherwise does nothing; it changes no table either way. */
    function AddClaims(user: User?, claims: Option<seq<Claim>>, cancelled: bool): (r: Result<()>)
      reads this, user
      ensures disposed ==> r == Err(ObjectDisposed)
      ensures !disposed && claims.None? ==> r == Err(ArgumentNull("source"))
      ensures !disposed && claims.Some? && user == null ==> r == Err(NullReference)
      ensures !disposed && claims.Some? && user != null && cancelled ==> r == Err(OperationCanceled)
      ensures !disposed && claims.Some? && user != null && !cancelled ==>
                (r.Ok? || r == Err(DuplicateClaims)) &&
                (r == Err(DuplicateClaims) <==>
                   exists c :: c in claims.value && c in ClaimsOf(Committed(), user.id))
    {
      if ThrowIfDisposed().Err? then ThrowIfDisposed().PropagateTo()
      else if claims.None? then Err(ArgumentNull("source"))
      else if user == null then Err(NullReference)
      else if cancelled then Err(OperationCanceled)
      else if DuplicateCount(ClaimsOf(Committed(), user.id), claims.value) != 0 then Err(DuplicateClaims)
      else Ok(())
    }

    /** ReplaceClaimAsync: rewrites, in the context, the catalog entry of every row of
        the user whose entry equals claim; it does not save. */
    method ReplaceClaim(user: User?, claim: Option<Claim>, newClaim: Option<Claim>, cancelled: bool) returns (r: Result<()>)
      modifies this`pending
      ensures disposed ==> r == Err(ObjectDisposed)
      ensures !disposed && user == null ==> r == Err(ArgumentNull("user"))
      ensures !disposed && user != null && claim.None? ==> r == Err(ArgumentNull("claim"))
      ensures !disposed && user != null && claim.Some? && newClaim.None? ==> r == Err(ArgumentNull("newClaim"))
      ensures !disposed && user != null && claim.Some? && newClaim.Some? && cancelled ==> r == Err(OperationCanceled)
      ensures r.Ok? <==> !disposed && user != null && claim.Some? && newClaim.Some? && !cancelled
      ensures r.Err? ==> pending == old(pending)
      ensures r.Ok? ==>
                pending == old(pending) + ReplaceChanges(MatchedRows(Committed(), user.id, claim.value), newClaim.value)
    {
      if disposed {
        return Err(ObjectDisposed);
      }
      if user == null {
        return Err(ArgumentNull("user"));
      }
      if claim.None? {
        return Err(ArgumentNull("claim"));
      }
      if newClaim.None? {
        return Err(ArgumentNull("newClaim"));
      }
      if cancelled {
        return Err(OperationCanceled);
      }
      var matchedUserClaims := MatchedRows(Committed(), user.id, claim.value);
      var i := 0;
      while i < |matchedUserClaims|
        invariant 0 <= i <= |matchedUserClaims|
        invariant pending == old(pending) + ReplaceChanges(matchedUserClaims[..i], newClaim.value)
      {
        ReplaceChangesSnoc(matchedUserClaims, i, newClaim.value);
        pending := pending + [SetClaimEntity(matchedUserClaims[i].claimEntityId, newClaim.value)];
        i := i + 1;
      }
      assert matchedUserClaims[..i] == matchedUserClaims;
      r := Ok(());
    }

    /** RemoveClaimsAsync: removes matching rows from a local list only. The first
        removal changes the list under the enumeration of the deferred Where, whose next
        step throws; the store is left unchanged either way. */
    method RemoveClaims(user: User?, claims: Option<seq<Claim>>, cancelled: bool) returns (r: Result<()>)
      ensures disposed ==> r == Err(ObjectDisposed)
      ensures !disposed && user == null ==> r == Err(ArgumentNull("user"))
      ensures !disposed && user != null && claims.None? ==> r == Err(ArgumentNull("claims"))
      ensures !disposed && user != null && claims.Some? && cancelled ==> r == Err(OperationCanceled)
      ensures !disposed && user != null && claims.Some? && !cancelled ==>
                (r.Ok? || r == Err(CollectionModified)) &&
                (r.Ok? <==> forall c :: c in claims.value ==> c !in ClaimsOf(Committed(), user.id))
    {
      if disposed {
        return Err(ObjectDisposed);
      }
      if user == null {
        return Err(ArgumentNull("user"));
      }
      if claims.None? {
        return Err(ArgumentNull("claims"));
      }
      if cancelled {
        return Err(OperationCanceled);
      }
      var allClaimsForUser := UserRows(Committed(), user.id);
      ghost var userClaimValues := ClaimsOf(Committed(), user.id);
      var candidates := claims.value;
      var i := 0;
      while i < |candidates|
        invariant 0 <= i <= |candidates|
        invariant allClaimsForUser == UserRows(Committed(), user.id)
        invariant forall c :: c in candidates[..i] ==> c !in userClaimValues
      {
        var claim := candidates[i];
        var j := 0;
        while j < |allClaimsForUser|
          invariant 0 <= j <= |allClaimsForUser|
          invariant allClaimsForUser == UserRows(Committed(), user.id)
          invariant forall k :: 0 <= k < j ==> userClaimValues[k] != claim
        {
          var matched := allClaimsForUser[j];
          if catalog[matched.claimEntityId] == claim {
            allClaimsForUser := allClaimsForUser[..j] + allClaimsForUser[j + 1..];
            assert userClaimValues[j] == claim && claim in claims.value;
            return Err(CollectionModified);
          }
          j := j + 1;
        }
        assert candidates[..i + 1] == candidates[..i] + [claim];
        i := i + 1;
      }
      assert candidates[..i] == candidates;
      r := Ok(());
    }

    /** GetUsersForClaimAsync: one user per junction row whose entry equals claim. */
    function GetUsersForClaim(claim: Option<Claim>, cancelled: bool): (r: Result<seq<UserRecord>>)
      reads this
      ensures cancelled ==> r == Err(OperationCanceled)
      ensures !cancelled && disposed ==> r == Err(ObjectDisposed)
      ensures !cancelled && !disposed && claim.None? ==> r == Err(ArgumentNull("claim"))
      ensures r.Ok? <==> !cancelled && !disposed && claim.Some?
      ensures r.Ok? ==> r.value == UsersForClaim(userClaims, users, catalog, claim.value)
    {
      if cancelled then Err(OperationCanceled)
      else if ThrowIfDisposed().Err? then ThrowIfDisposed().PropagateTo()
      else if claim.None? then Err(ArgumentNull("claim"))
      else Ok(UsersForClaim(userClaims, users, catalog, claim.value))
    }
  }
}
