/** Whole runs of logins and link requests: who ends up together, and with which scopes. */
module Linking {
  import opened Results
  import opened Registry

  // ---------------------------------------------------------------------------------------
  // Being connected through link requests

  type Edge = (Account, Account)

  ghost predicate Adjacent(edges: set<Edge>, a: Account, b: Account) {
    (a, b) in edges || (b, a) in edges
  }

  ghost predicate IsPath(edges: set<Edge>, p: seq<Account>) {
    |p| == 1 || (|p| > 1 && Adjacent(edges, p[|p| - 2], p[|p| - 1]) && IsPath(edges, p[..|p| - 1]))
  }

  ghost predicate PathBetween(edges: set<Edge>, p: seq<Account>, a: Account, b: Account) {
    IsPath(edges, p) && p[0] == a && p[|p| - 1] == b
  }

  ghost predicate Connected(edges: set<Edge>, a: Account, b: Account) {
    exists p :: PathBetween(edges, p, a, b)
  }

  lemma ConnectedSelf(edges: set<Edge>, a: Account)
    ensures Connected(edges, a, a)
  {
    assert PathBetween(edges, [a], a, a);
  }

  lemma ConnectedStep(edges: set<Edge>, a: Account, b: Account, c: Account)
    requires Connected(edges, a, b) && Adjacent(edges, b, c)
    ensures Connected(edges, a, c)
  {
    var p :| PathBetween(edges, p, a, b);
    assert (p + [c])[..|p|] == p;
    assert PathBetween(edges, p + [c], a, c);
  }

  lemma {:induction false} ConnectedThrough(edges: set<Edge>, a: Account, b: Account, c: Account)
    requires Connected(edges, a, b) && Connected(edges, b, c)
    ensures Connected(edges, a, c)
  {
    var q :| PathBetween(edges, q, b, c);
    AlongPath(edges, a, q);
  }

  lemma {:induction false} AlongPath(edges: set<Edge>, a: Account, q: seq<Account>)
    requires IsPath(edges, q) && Connected(edges, a, q[0])
    ensures Connected(edges, a, q[|q| - 1])
  {
    if |q| > 1 {
      AlongPath(edges, a, q[..|q| - 1]);
      ConnectedStep(edges, a, q[|q| - 2], q[|q| - 1]);
    }
  }

  lemma {:induction false} ConnectedBack(edges: set<Edge>, a: Account, b: Account)
    requires Connected(edges, a, b)
    ensures Connected(edges, b, a)
  {
    var p :| PathBetween(edges, p, a, b);
    BackAlongPath(edges, p);
  }

  lemma {:induction false} BackAlongPath(edges: set<Edge>, p: seq<Account>)
    requires IsPath(edges, p)
    ensures Connected(edges, p[|p| - 1], p[0])
  {
    ConnectedSelf(edges, p[|p| - 1]);
    if |p| > 1 {
      BackAlongPath(edges, p[..|p| - 1]);
      ConnectedStep(edges, p[|p| - 1], p[|p| - 1], p[|p| - 2]);
      ConnectedThrough(edges, p[|p| - 1], p[|p| - 2], p[0]);
    }
  }

  lemma {:induction false} MoreEdges(edges: set<Edge>, more: set<Edge>, p: seq<Account>)
    requires IsPath(edges, p) && edges <= more
    ensures IsPath(more, p)
  {
    if |p| > 1 {
      MoreEdges(edges, more, p[..|p| - 1]);
    }
  }

  lemma ConnectedStill(edges: set<Edge>, more: set<Edge>, a: Account, b: Account)
    requires Connected(edges, a, b) && edges <= more
    ensures Connected(more, a, b)
  {
    var p :| PathBetween(edges, p, a, b);
    MoreEdges(edges, more, p);
    assert PathBetween(more, p, a, b);
  }

  // ---------------------------------------------------------------------------------------
  // Runs

  /** What happens to the database. A login of an account it knows changes nothing; of one it
    * does not know, it is `Create` with the UUID it drew. A link request comes from a user who
    * is logged in through the account `via`. */
  datatype Event =
    | Login(account: Account, drawn: User, name: string)
    | LinkRequest(account: Account, user: User, via: Account, name: string)
    | Grant(subject: User, scopes: Scopes)
    | Token(hash: string, user: User)

  /** The database, the account pairs joined by committed link requests, and the accounts whose
    * login was given every scope. */
  datatype World = World(db: Tables, edges: set<Edge>, bootstrapped: seq<Account>)

  const FRESH_WORLD := World(Tables({}, map[], map[], map[]), {}, [])

  function UserOf(db: Tables, a: Account): User
    requires a in db.accounts
  {
    db.accounts[a].user
  }

  predicate Owns(db: Tables, user: User, via: Account) {
    via in db.accounts && db.accounts[via].user == user
  }

  function OrUnchanged(db: Tables, r: Result<Tables>): Tables {
    if r.Ok? then r.value else db
  }

  /** One committed request adds one edge. */
  function Next(w: World, e: Event): World {
    match e
    case Login(account, drawn, name) =>
      var r := Create(w.db, account, drawn, name);
      World(OrUnchanged(w.db, r), w.edges,
            if r.Ok? && w.db.users == {} then w.bootstrapped + [account] else w.bootstrapped)
    case LinkRequest(account, user, via, name) =>
      var r := if Owns(w.db, user, via) then Link(w.db, account, user, name) else Err;
      World(OrUnchanged(w.db, r), if r.Ok? then w.edges + {(account, via)} else w.edges, w.bootstrapped)
    case Grant(subject, scopes) => w.(db := SetScopes(w.db, subject, scopes))
    case Token(hash, user) => w.(db := OrUnchanged(w.db, IssueToken(w.db, hash, user)))
  }

  function After(events: seq<Event>): World {
    if events == [] then FRESH_WORLD
    else Next(After(events[..|events| - 1]), events[|events| - 1])
  }

  ghost predicate SameUser(db: Tables, a: Account, b: Account) {
    a in db.accounts && b in db.accounts && db.accounts[a].user == db.accounts[b].user
  }

  ghost predicate EveryUserHasAccount(db: Tables) {
    forall u :: u in db.users ==> exists a :: a in db.accounts && db.accounts[a].user == u
  }

  ghost predicate EdgesStayTogether(w: World) {
    forall a, b :: (a, b) in w.edges ==> SameUser(w.db, a, b)
  }

  ghost predicate UsersAreConnected(w: World) {
    forall a, b :: SameUser(w.db, a, b) ==> Connected(w.edges, a, b)
  }

  ghost predicate Inv(w: World) {
    && ForeignKeys(w.db) && EveryUserHasAccount(w.db)
    && EdgesStayTogether(w) && UsersAreConnected(w)
    && |w.bootstrapped| == (if w.db.users == {} then 0 else 1)
  }

  /** Where the link request puts each account. */
  lemma LinkedUserOf(db: Tables, account: Account, user: User, name: string, a: Account)
    requires Link(db, account, user, name).Ok?
    ensures var db' := Link(db, account, user, name).value;
            && (a in db'.accounts <==> a in db.accounts || a == account)
            && (a in db'.accounts ==>
                  db'.accounts[a].user == if a == account || (account in db.accounts && SameUser(db, a, account)) then user
                                          else db.accounts[a].user)
  {
  }

  lemma {:induction false} LinkKeepsEdges(w: World, account: Account, user: User, via: Account, name: string)
    requires Inv(w) && Owns(w.db, user, via) && Link(w.db, account, user, name).Ok?
    ensures EdgesStayTogether(Next(w, LinkRequest(account, user, via, name)))
  {
    var w' := Next(w, LinkRequest(account, user, via, name));
    forall a, b | (a, b) in w'.edges ensures SameUser(w'.db, a, b) {
      LinkedUserOf(w.db, account, user, name, a);
      LinkedUserOf(w.db, account, user, name, b);
      if (a, b) in w.edges {
        assert SameUser(w.db, a, b);
      }
    }
  }

  /** After a link, everything in the user's class reaches the linked account. */
  lemma {:induction false} ClassReachesLinked(w: World, account: Account, user: User, via: Account, name: string, a: Account)
    requires Inv(w) && Owns(w.db, user, via) && Link(w.db, account, user, name).Ok?
    requires var db' := Link(w.db, account, user, name).value; a in db'.accounts && db'.accounts[a].user == user
    ensures Connected(Next(w, LinkRequest(account, user, via, name)).edges, a, account)
  {
    var more := Next(w, LinkRequest(account, user, via, name)).edges;
    LinkedUserOf(w.db, account, user, name, a);
    ConnectedSelf(more, a);
    if a == account {
    } else if w.db.accounts[a].user == user {
      assert SameUser(w.db, a, via);
      ConnectedStill(w.edges, more, a, via);
      ConnectedStep(more, a, via, account);
    } else {
      assert SameUser(w.db, a, account);
      ConnectedStill(w.edges, more, a, account);
    }
  }

  lemma {:induction false} LinkConnects(w: World, account: Account, user: User, via: Account, name: string)
    requires Inv(w) && Owns(w.db, user, via) && Link(w.db, account, user, name).Ok?
    ensures UsersAreConnected(Next(w, LinkRequest(account, user, via, name)))
  {
    var w' := Next(w, LinkRequest(account, user, via, name));
    forall a, b | SameUser(w'.db, a, b) ensures Connected(w'.edges, a, b) {
      if w'.db.accounts[a].user == user {
        ClassReachesLinked(w, account, user, via, name, a);
        ClassReachesLinked(w, account, user, via, name, b);
        ConnectedBack(w'.edges, b, account);
        ConnectedThrough(w'.edges, a, account, b);
      } else {
        LinkedUserOf(w.db, account, user, name, a);
        LinkedUserOf(w.db, account, user, name, b);
        assert SameUser(w.db, a, b);
        ConnectedStill(w.edges, w'.edges, a, b);
      }
    }
  }

  lemma {:induction false} LinkKeepsTables(db: Tables, account: Account, user: User, name: string)
    requires ForeignKeys(db) && EveryUserHasAccount(db) && Link(db, account, user, name).Ok?
    ensures var db' := Link(db, account, user, name).value;
            ForeignKeys(db') && EveryUserHasAccount(db') && db'.users != {}
  {
    var db' := Link(db, account, user, name).value;
    LinkedUserOf(db, account, user, name, account);
    forall u | u in db'.users ensures exists a :: a in db'.accounts && db'.accounts[a].user == u {
      if u != user {
        var a :| a in db.accounts && db.accounts[a].user == u;
        LinkedUserOf(db, account, user, name, a);
      }
    }
    assert user in db'.users;
  }

  lemma {:induction false} LoginKeepsInv(w: World, account: Account, drawn: User, name: string)
    requires Inv(w)
    ensures Inv(Next(w, Login(account, drawn, name)))
  {
    var w' := Next(w, Login(account, drawn, name));
    if Create(w.db, account, drawn, name).Ok? {
      forall u | u in w'.db.users ensures exists a :: a in w'.db.accounts && w'.db.accounts[a].user == u {
        if u == drawn {
          assert w'.db.accounts[account].user == drawn;
        } else {
          var a :| a in w.db.accounts && w.db.accounts[a].user == u;
          assert w'.db.accounts[a].user == u;
        }
      }
      forall a, b | SameUser(w'.db, a, b) ensures Connected(w'.edges, a, b) {
        if a == account || b == account {
          ConnectedSelf(w'.edges, account);
        } else {
          assert SameUser(w.db, a, b);
        }
      }
      forall a, b | (a, b) in w'.edges ensures SameUser(w'.db, a, b) {
        assert SameUser(w.db, a, b);
      }
    }
  }

  lemma {:induction false} InvStep(w: World, e: Event)
    requires Inv(w)
    ensures Inv(Next(w, e))
  {
    match e
    case Login(account, drawn, name) => LoginKeepsInv(w, account, drawn, name);
    case LinkRequest(account, user, via, name) =>
      if Owns(w.db, user, via) && Link(w.db, account, user, name).Ok? {
        LinkKeepsTables(w.db, account, user, name);
        LinkKeepsEdges(w, account, user, via, name);
        LinkConnects(w, account, user, via, name);
      }
    case Grant(subject, scopes) => GrantKeepsInv(w, subject, scopes);
    case Token(hash, user) => TokenKeepsInv(w, hash, user);
  }

  lemma GrantKeepsInv(w: World, subject: User, scopes: Scopes)
    requires Inv(w)
    ensures Inv(Next(w, Grant(subject, scopes)))
  {
    var w' := Next(w, Grant(subject, scopes));
    forall a, b ensures SameUser(w'.db, a, b) <==> SameUser(w.db, a, b) {
    }
  }

  lemma TokenKeepsInv(w: World, hash: string, user: User)
    requires Inv(w)
    ensures Inv(Next(w, Token(hash, user)))
  {
    var w' := Next(w, Token(hash, user));
    forall a, b ensures SameUser(w'.db, a, b) <==> SameUser(w.db, a, b) {
    }
  }

  lemma {:induction false} InvHolds(events: seq<Event>)
    ensures Inv(After(events))
  {
    if events != [] {
      InvHolds(events[..|events| - 1]);
      InvStep(After(events[..|events| - 1]), events[|events| - 1]);
    }
  }

  /** Every request that commits comes through some account: a user that exists has one. */
  lemma CommittedRequestHasVia(events: seq<Event>, account: Account, user: User, name: string) returns (via: Account)
    requires Link(After(events).db, account, user, name).Ok?
    ensures Owns(After(events).db, user, via)
  {
    InvHolds(events);
    var db := After(events).db;
    assert user in db.users;
    via :| via in db.accounts && db.accounts[via].user == user;
  }

  /** After any run, two accounts belong to one user exactly when committed link requests
    * connect them; every account has a user and every user an account. */
  lemma {:induction false} SameUserIffConnected(events: seq<Event>)
    ensures var w := After(events);
            && ForeignKeys(w.db) && EveryUserHasAccount(w.db)
            && forall a, b :: a in w.db.accounts && b in w.db.accounts ==>
                 (SameUser(w.db, a, b) <==> Connected(w.edges, a, b))
  {
    var w := After(events);
    InvHolds(events);
    forall a, b | a in w.db.accounts && b in w.db.accounts ensures SameUser(w.db, a, b) <==> Connected(w.edges, a, b) {
      if Connected(w.edges, a, b) {
        var p :| PathBetween(w.edges, p, a, b);
        PathStaysTogether(w, p);
      }
    }
  }

  lemma {:induction false} PathStaysTogether(w: World, p: seq<Account>)
    requires Inv(w) && IsPath(w.edges, p) && p[0] in w.db.accounts
    ensures SameUser(w.db, p[0], p[|p| - 1])
  {
    if |p| > 1 {
      PathStaysTogether(w, p[..|p| - 1]);
      assert SameUser(w.db, p[|p| - 2], p[|p| - 1]) || SameUser(w.db, p[|p| - 1], p[|p| - 2]);
    }
  }

  // ---------------------------------------------------------------------------------------
  // Scopes

  /** What `scopes_for_subject` answers for whoever logs in through the account. */
  function ScopesOf(db: Tables, a: Account): Scopes
    requires a in db.accounts
  {
    GrantsOf(db.grants, db.accounts[a].user)
  }

  /** A merge gives the accounts of both users exactly the union of their scopes, and leaves
    * everybody else's alone. */
  lemma {:induction false} MergeUnionsScopes(db: Tables, account: Account, user: User, name: string, a: Account)
    requires Link(db, account, user, name).Ok? && a in db.accounts
    requires account in db.accounts && UserOf(db, account) != user
    ensures a in Link(db, account, user, name).value.accounts
    ensures ScopesOf(Link(db, account, user, name).value, a) ==
            if UserOf(db, a) == user || SameUser(db, a, account)
            then GrantsOf(db.grants, user) + ScopesOf(db, account)
            else ScopesOf(db, a)
  {
    var other := UserOf(db, account);
    var db' := Link(db, account, user, name).value;
    LinkedUserOf(db, account, user, name, a);
    if UserOf(db, a) == user || SameUser(db, a, account) {
      assert GrantsOf(db'.grants, user) == GrantsOf(db.grants, user) + GrantsOf(db.grants, other);
    }
  }

  /** No login, link or token ever shrinks what an account may do. */
  lemma {:induction false} ScopesGrowStep(w: World, e: Event, a: Account)
    requires Inv(w) && !e.Grant? && a in w.db.accounts
    ensures a in Next(w, e).db.accounts
    ensures ScopesOf(w.db, a) <= ScopesOf(Next(w, e).db, a)
  {
    if e.LinkRequest? && Owns(w.db, e.user, e.via) && Link(w.db, e.account, e.user, e.name).Ok? {
      LinkedUserOf(w.db, e.account, e.user, e.name, a);
      if e.account in w.db.accounts && UserOf(w.db, e.account) != e.user {
        MergeUnionsScopes(w.db, e.account, e.user, e.name, a);
      }
    }
  }

  ghost predicate NoGrants(events: seq<Event>) {
    forall e :: e in events ==> !e.Grant?
  }

  lemma AfterLast(events: seq<Event>, more: seq<Event>, k: nat)
    requires |more| == k + 1
    ensures After(events + more) == Next(After(events + more[..k]), more[k])
  {
    var all := events + more;
    assert all[..|all| - 1] == events + more[..k];
  }

  lemma {:induction false} ScopesNeverShrink(events: seq<Event>, more: seq<Event>, a: Account)
    requires NoGrants(more) && a in After(events).db.accounts
    ensures a in After(events + more).db.accounts
    ensures ScopesOf(After(events).db, a) <= ScopesOf(After(events + more).db, a)
  {
    if more == [] {
      assert events + more == events;
    } else {
      var k := |more| - 1;
      assert more[k] in more;
      ScopesNeverShrink(events, more[..k], a);
      var before := events + more[..k];
      InvHolds(before);
      ScopesGrowStep(After(before), more[k], a);
      AfterLast(events, more, k);
    }
  }

  /** The automatic grant of every scope is made once in a run: with the first committed login,
    * after which the users table is never empty again. */
  lemma {:induction false} BootstrapHappensOnce(events: seq<Event>, more: seq<Event>)
    ensures |After(events).bootstrapped| == if After(events).db.users == {} then 0 else 1
    ensures After(events).db.users != {} ==>
              After(events + more).db.users != {} && After(events + more).bootstrapped == After(events).bootstrapped
  {
    InvHolds(events);
    if more == [] {
      assert events + more == events;
    } else {
      var k := |more| - 1;
      BootstrapHappensOnce(events, more[..k]);
      AfterLast(events, more, k);
      InvHolds(events + more);
    }
  }

  /** Without explicit grants, the first account's user holds every scope and nobody else any. */
  ghost predicate OnlyFirstHolds(w: World) {
    if w.bootstrapped == [] then w.db.grants == map[]
    else w.bootstrapped[0] in w.db.accounts && w.db.grants == map[UserOf(w.db, w.bootstrapped[0]) := EVERYTHING]
  }

  lemma {:induction false} OnlyFirstStep(w: World, e: Event)
    requires Inv(w) && OnlyFirstHolds(w) && !e.Grant?
    ensures OnlyFirstHolds(Next(w, e))
  {
    var w' := Next(w, e);
    if e.Login? && Create(w.db, e.account, e.drawn, e.name).Ok? {
      assert w.db.users == {} ==> w'.bootstrapped == [e.account];
    } else if e.LinkRequest? && Owns(w.db, e.user, e.via) && Link(w.db, e.account, e.user, e.name).Ok? {
      var first := w.bootstrapped[0];
      LinkedUserOf(w.db, e.account, e.user, e.name, first);
      if e.account in w.db.accounts && UserOf(w.db, e.account) != e.user {
        var other := UserOf(w.db, e.account);
        assert {} + EVERYTHING == EVERYTHING;
        assert MergedGrants(w.db.grants, other, e.user) == map[UserOf(w'.db, first) := EVERYTHING];
      }
    }
  }

  lemma {:induction false} OnlyFirstAlways(events: seq<Event>)
    requires NoGrants(events)
    ensures OnlyFirstHolds(After(events))
  {
    if events != [] {
      var k := |events| - 1;
      OnlyFirstAlways(events[..k]);
      InvHolds(events[..k]);
      assert events[k] in events;
      OnlyFirstStep(After(events[..k]), events[k]);
    }
  }

  /** In a run without explicit grants, an account holds every scope exactly when link requests
    * connect it to the first account that ever logged in, and no scope at all otherwise. */
  lemma {:induction false} ScopesFollowLinks(events: seq<Event>, a: Account)
    requires NoGrants(events) && a in After(events).db.accounts
    ensures var w := After(events);
            && |w.bootstrapped| == 1
            && ScopesOf(w.db, a) == if Connected(w.edges, a, w.bootstrapped[0]) then {"*"} else {}
  {
    var w := After(events);
    InvHolds(events);
    OnlyFirstAlways(events);
    SameUserIffConnected(events);
    assert w.db.accounts[a].user in w.db.users;
    assert SameUser(w.db, a, w.bootstrapped[0]) <==> Connected(w.edges, a, w.bootstrapped[0]);
  }

  // ---------------------------------------------------------------------------------------
  // What each event does, and to whom it does nothing

  /** A login of an unknown account with an unused UUID registers exactly that account under it;
    * any other login changes nothing. */
  lemma LoginRegisters(w: World, account: Account, drawn: User, name: string)
    ensures var db, db' := w.db, Next(w, Login(account, drawn, name)).db;
            if account !in db.accounts && drawn !in db.users then
              && db'.users == db.users + {drawn} && db'.tokens == db.tokens
              && db'.accounts == db.accounts[account := LinkRow(drawn, name)]
            else db' == db
  {
  }

  /** A committed link request joins the account to the one it came through, records its display
    * name, and leaves the names of all others alone. */
  lemma {:induction false} LinkRequestJoins(w: World, account: Account, user: User, via: Account, name: string, a: Account)
    requires ForeignKeys(w.db) && Owns(w.db, user, via)
    ensures var w' := Next(w, LinkRequest(account, user, via, name));
            && SameUser(w'.db, account, via) && w'.edges == w.edges + {(account, via)} && UserOf(w'.db, account) == user
            && w'.db.accounts.Keys == w.db.accounts.Keys + {account}
            && (a in w'.db.accounts ==>
                  w'.db.accounts[a].displayName == if a == account then name else w.db.accounts[a].displayName)
  {
    LinkedUserOf(w.db, account, user, name, account);
    LinkedUserOf(w.db, account, user, name, via);
    LinkedUserOf(w.db, account, user, name, a);
  }

  /** An explicit grant replaces the subject's scopes and nobody else's. */
  lemma GrantReplacesScopes(w: World, subject: User, scopes: Scopes, u: User)
    ensures var db' := Next(w, Grant(subject, scopes)).db;
            && GrantsOf(db'.grants, u) == (if u == subject then scopes else GrantsOf(w.db.grants, u))
            && db'.accounts == w.db.accounts && db'.users == w.db.users && db'.tokens == w.db.tokens
  {
  }

  /** Linking takes away the tokens of the user it merges away and no others. */
  lemma LinkKeepsTokens(db: Tables, account: Account, user: User, name: string, hash: string)
    requires Link(db, account, user, name).Ok?
    ensures var db' := Link(db, account, user, name).value;
            && (hash in db'.tokens <==>
                  && hash in db.tokens
                  && (account in db.accounts && UserOf(db, account) != user ==> db.tokens[hash] != UserOf(db, account)))
            && (hash in db'.tokens ==> db'.tokens[hash] == db.tokens[hash])
  {
  }

  /** The event merges `u` into another user. */
  predicate MergesAway(w: World, e: Event, u: User) {
    && e.LinkRequest? && Owns(w.db, e.user, e.via) && Link(w.db, e.account, e.user, e.name).Ok?
    && e.account in w.db.accounts && UserOf(w.db, e.account) == u && u != e.user
  }

  /** The event issues the token to `u`. */
  predicate Issues(w: World, e: Event, hash: string, u: User) {
    e == Token(hash, u) && u in w.db.users && hash !in w.db.tokens
  }

  predicate HasToken(w: World, hash: string, u: User) {
    hash in w.db.tokens && w.db.tokens[hash] == u
  }

  lemma TokenStep(w: World, e: Event, hash: string, u: User)
    ensures HasToken(Next(w, e), hash, u) <==>
            Issues(w, e, hash, u) || (HasToken(w, hash, u) && !MergesAway(w, e, u))
  {
    if e.LinkRequest? && Owns(w.db, e.user, e.via) && Link(w.db, e.account, e.user, e.name).Ok? {
      LinkKeepsTokens(w.db, e.account, e.user, e.name, hash);
    }
  }

  ghost predicate IssuedAt(events: seq<Event>, hash: string, u: User, j: nat) {
    j < |events| && Issues(After(events[..j]), events[j], hash, u)
  }

  ghost predicate MergedAt(events: seq<Event>, u: User, i: nat) {
    i < |events| && MergesAway(After(events[..i]), events[i], u)
  }

  /** The token was issued to `u` by event `j`, and `u` has not been merged away since. */
  ghost predicate HeldSince(events: seq<Event>, hash: string, u: User, j: nat) {
    IssuedAt(events, hash, u, j) && forall i: nat :: j < i < |events| ==> !MergedAt(events, u, i)
  }

  lemma SameBefore(events: seq<Event>, hash: string, u: User, i: nat)
    requires i < |events| - 1
    ensures IssuedAt(events[..|events| - 1], hash, u, i) <==> IssuedAt(events, hash, u, i)
    ensures MergedAt(events[..|events| - 1], u, i) <==> MergedAt(events, u, i)
  {
    assert events[..|events| - 1][..i] == events[..i];
  }

  lemma {:induction false} HeldLonger(events: seq<Event>, hash: string, u: User, j: nat)
    requires j < |events| - 1
    ensures HeldSince(events, hash, u, j) <==>
            HeldSince(events[..|events| - 1], hash, u, j) && !MergedAt(events, u, |events| - 1)
  {
    var before, k := events[..|events| - 1], |events| - 1;
    SameBefore(events, hash, u, j);
    if HeldSince(events, hash, u, j) {
      forall i: nat | j < i < |before| ensures !MergedAt(before, u, i) {
        SameBefore(events, hash, u, i);
        assert !MergedAt(events, u, i);
      }
      assert !MergedAt(events, u, k);
    }
    if HeldSince(before, hash, u, j) && !MergedAt(events, u, k) {
      forall i: nat | j < i < |events| ensures !MergedAt(events, u, i) {
        if i < k {
          SameBefore(events, hash, u, i);
          assert !MergedAt(before, u, i);
        }
      }
    }
  }

  lemma LastEvent(events: seq<Event>, hash: string, u: User)
    requires events != []
    ensures HasToken(After(events), hash, u) <==>
            || IssuedAt(events, hash, u, |events| - 1)
            || (HasToken(After(events[..|events| - 1]), hash, u) && !MergedAt(events, u, |events| - 1))
  {
    TokenStep(After(events[..|events| - 1]), events[|events| - 1], hash, u);
  }

  /** In every run, a token belongs to a user if and only if it was issued to that user and no
    * committed request has merged the user away since. */
  lemma {:induction false} TokenLivesIff(events: seq<Event>, hash: string, u: User)
    ensures HasToken(After(events), hash, u) <==> exists j: nat :: HeldSince(events, hash, u, j)
  {
    if events != [] {
      var k := |events| - 1;
      TokenLivesIff(events[..k], hash, u);
      LastEvent(events, hash, u);
      if IssuedAt(events, hash, u, k) {
        assert HeldSince(events, hash, u, k);
      } else if HasToken(After(events), hash, u) {
        var j: nat :| HeldSince(events[..k], hash, u, j);
        HeldLonger(events, hash, u, j);
      }
      if j: nat :| HeldSince(events, hash, u, j) {
        if j < k {
          HeldLonger(events, hash, u, j);
        }
      }
    }
  }
}
