/** Accounts, users and scopes: the linking and granting transactions of `registry-db`.
  *
  * Every external account belongs to one user; linking an account that already belongs to
  * somebody else merges the two users. Over a whole run this is a union-find whose classes carry
  * permissions.
  */
module Registry {
  import opened Results

  datatype Account = Account(provider: string, providerUserId: string)

  /** A UUID. */
  type User = nat

  type Scopes = set<string>

  const EVERYTHING: Scopes := {"*"}

  datatype LinkRow = LinkRow(user: User, displayName: string)

  datatype Tables = Tables(
    users: set<User>,
    accounts: map<Account, LinkRow>,
    grants: map<User, Scopes>,
    tokens: map<string, User>)

  // ---------------------------------------------------------------------------------------
  // The transactions

  function GrantsOf(grants: map<User, Scopes>, user: User): Scopes {
    if user in grants then grants[user] else {}
  }

  /** `create_user_and_link` with a fresh UUID; a primary key already in use aborts it. */
  function Create(db: Tables, account: Account, user: User, displayName: string): Result<Tables> {
    if user in db.users || account in db.accounts then
      Err
    else
      Ok(db.(users := db.users + {user},
             accounts := db.accounts[account := LinkRow(user, displayName)],
             grants := if db.users == {} then db.grants[user := EVERYTHING] else db.grants))
  }

  /** Every row of `from` re-pointed onto `onto`. */
  function Repointed(accounts: map<Account, LinkRow>, from: User, onto: User): map<Account, LinkRow> {
    map a | a in accounts :: if accounts[a].user == from then accounts[a].(user := onto) else accounts[a]
  }

  /** `other`'s scopes unioned into `user`'s, and its own row gone. */
  function MergedGrants(grants: map<User, Scopes>, other: User, user: User): map<User, Scopes> {
    (if other in grants then grants[user := GrantsOf(grants, user) + grants[other]] else grants) - {other}
  }

  function TokensWithout(tokens: map<string, User>, user: User): map<string, User> {
    map t | t in tokens && tokens[t] != user :: tokens[t]
  }

  function Named(accounts: map<Account, LinkRow>, account: Account, displayName: string): map<Account, LinkRow>
    requires account in accounts
  {
    accounts[account := accounts[account].(displayName := displayName)]
  }

  /** `link_account_to_user`: attach a new account, or merge its user into `user`. A user that
    * no longer exists violates the foreign key and aborts it. */
  function Link(db: Tables, account: Account, user: User, displayName: string): Result<Tables> {
    if user !in db.users then
      Err
    else if account !in db.accounts then
      Ok(db.(accounts := db.accounts[account := LinkRow(user, displayName)]))
    else
      var other := db.accounts[account].user;
      if other == user then
        Ok(db.(accounts := Named(db.accounts, account, displayName)))
      else
        Ok(Tables(db.users - {other},
                  Named(Repointed(db.accounts, other, user), account, displayName),
                  MergedGrants(db.grants, other, user),
                  TokensWithout(db.tokens, other)))
  }

  /** `set_scopes`: an empty list removes the row. */
  function SetScopes(db: Tables, subject: User, scopes: Scopes): Tables {
    db.(grants := if scopes == {} then db.grants - {subject} else db.grants[subject := scopes])
  }

  /** `insert_refresh_token`, under its key and its foreign key. */
  function IssueToken(db: Tables, hash: string, user: User): Result<Tables> {
    if user !in db.users || hash in db.tokens then Err else Ok(db.(tokens := db.tokens[hash := user]))
  }

  /** The foreign keys: every account and every token belongs to a user that exists. */
  predicate ForeignKeys(db: Tables) {
    && (forall a :: a in db.accounts ==> db.accounts[a].user in db.users)
    && (forall t :: t in db.tokens ==> db.tokens[t] in db.users)
  }

  /** The database, with its transactions as statements that a violation rolls back. */
  class RegistryDb {
    var users: set<User>
    var accounts: map<Account, LinkRow>
    var grants: map<User, Scopes>
    var tokens: map<string, User>

    ghost function Now(): Tables
      reads this
    {
      Tables(users, accounts, grants, tokens)
    }

    constructor ()
      ensures Now() == Tables({}, map[], map[], map[])
    {
      users, accounts, grants, tokens := {}, map[], map[], map[];
    }

    method FindLinkedAccount(account: Account) returns (user: Option<User>)
      ensures user == if account in accounts then Some(accounts[account].user) else None
    {
      user := if account in accounts then Some(accounts[account].user) else None;
    }

    method CreateUserAndLink(account: Account, user: User, displayName: string) returns (r: Result<User>)
      modifies this
      ensures Create(old(Now()), account, user, displayName).Ok? <==> r.Ok?
      ensures r.Ok? ==> r.value == user && Now() == Create(old(Now()), account, user, displayName).value
      ensures r.Err? ==> Now() == old(Now())
    {
      var isFirst := users == {};
      if user in users {
        return Err;
      }
      var users' := users + {user};
      if account in accounts {
        return Err;
      }
      var accounts' := accounts[account := LinkRow(user, displayName)];
      var grants' := grants;
      if isFirst {
        grants' := grants[user := EVERYTHING];
      }
      users, accounts, grants := users', accounts', grants';
      r := Ok(user);
    }

    /** The login handler: find the account's user, or else create one. A known account keeps its
      * user and nothing changes; an unknown one ends as `Create` says. */
    method LogIn(account: Account, drawn: User, displayName: string) returns (r: Result<User>)
      modifies this
      ensures account in old(accounts) ==> r == Ok(old(accounts)[account].user)
      ensures account !in old(accounts) ==> (r.Ok? <==> drawn !in old(users)) && (r.Ok? ==> r.value == drawn)
      ensures r.Ok? ==> account in accounts && accounts[account].user == r.value
      ensures Now() == match Create(old(Now()), account, drawn, displayName) case Ok(db) => db case Err => old(Now())
    {
      var known := FindLinkedAccount(account);
      if known.Some? {
        return Ok(known.value);
      }
      r := CreateUserAndLink(account, drawn, displayName);
    }

    /** Statement by statement, as the transaction runs; deleting the merged user last finds no
      * row left for the cascade to take. */
    method LinkAccountToUser(account: Account, user: User, displayName: string) returns (r: Result<()>)
      requires ForeignKeys(Now())
      modifies this
      ensures r.Ok? <==> Link(old(Now()), account, user, displayName).Ok?
      ensures r.Ok? ==> Now() == Link(old(Now()), account, user, displayName).value
      ensures r.Err? ==> Now() == old(Now())
      ensures r.Ok? <==> user in old(users)
      ensures ForeignKeys(Now())
    {
      var users', accounts', grants', tokens' := users, accounts, grants, tokens;
      if account in accounts' {
        var other := accounts'[account].user;
        if other != user {
          if other in grants' {
            assert {} + grants'[other] == grants'[other];
            grants' := grants'[user := if user in grants' then grants'[user] + grants'[other] else grants'[other]];
          }
          grants' := grants' - {other};
          if user !in users' {
            return Err;
          }
          accounts' := Repointed(accounts', other, user);
          tokens' := TokensWithout(tokens', other);
          assert forall a :: a in accounts' ==> accounts'[a].user != other;
          users' := users' - {other};
        }
      } else {
        if user !in users' {
          return Err;
        }
        accounts' := accounts'[account := LinkRow(user, displayName)];
        assert accounts'[account := accounts'[account]] == accounts';
      }
      accounts' := accounts'[account := accounts'[account].(displayName := displayName)];
      users, accounts, grants, tokens := users', accounts', grants', tokens';
      r := Ok(());
    }
  }
}
