/** The entities of the identity database: the user, its logins and its claims. */
module Entities {
  import opened Outcomes

  /** A user identifier; the store only compares identifiers for equality. */
  datatype Guid = Guid(bits: nat)

  /** A claim as the store compares it: by type and value only. A claim-catalog row
      (ClaimEntity) holds the same two strings, so it is represented by the same type. */
  datatype Claim = Claim(claimType: string, claimValue: string)

  /** The external login a caller passes in (UserLoginInfo). */
  datatype LoginInfo = LoginInfo(loginProvider: string, providerKey: string, providerDisplayName: Option<string>)

  /** A row of the user-login table. */
  datatype LoginRow = LoginRow(userId: Guid, loginProvider: string, providerKey: string,
                               providerDisplayName: Option<string>)
  {
    /** The row projected to what GetLoginsAsync returns. */
    function Info(): LoginInfo {
      LoginInfo(loginProvider, providerKey, providerDisplayName)
    }
  }

  /** A row of the user-claim junction table: a user and the catalog entry it refers to. */
  datatype UserClaimRow = UserClaimRow(userId: Guid, claimEntityId: int)

  /** The values of a user row, as the database holds them. Strings are nullable. */
  datatype UserRecord = UserRecord(
    id: Guid,
    userName: Option<string>,
    normalizedUserName: Option<string>,
    email: Option<string>,
    normalizedEmail: Option<string>,
    emailConfirmed: bool,
    passwordHash: Option<string>,
    securityStamp: Option<string>,
    concurrencyStamp: Option<string>,
    twoFactorEnabled: bool,
    accessFailedCount: int)

  /** The user entity, which the store's setters change in place. */
  class User {
    var id: Guid
    var userName: Option<string>
    var normalizedUserName: Option<string>
    var email: Option<string>
    var normalizedEmail: Option<string>
    var emailConfirmed: bool
    var passwordHash: Option<string>
    var securityStamp: Option<string>
    var concurrencyStamp: Option<string>
    var twoFactorEnabled: bool
    var accessFailedCount: int

    constructor (r: UserRecord)
      ensures Record() == r
    {
      id, userName, normalizedUserName := r.id, r.userName, r.normalizedUserName;
      email, normalizedEmail, emailConfirmed := r.email, r.normalizedEmail, r.emailConfirmed;
      passwordHash, securityStamp, concurrencyStamp := r.passwordHash, r.securityStamp, r.concurrencyStamp;
      twoFactorEnabled, accessFailedCount := r.twoFactorEnabled, r.accessFailedCount;
    }

    /** The current field values of this user. */
    function Record(): UserRecord
      reads this
    {
      UserRecord(id, userName, normalizedUserName, email, normalizedEmail, emailConfirmed,
                 passwordHash, securityStamp, concurrencyStamp, twoFactorEnabled, accessFailedCount)
    }
  }
}
