/** The headless clients of a server, and the controller loops that keep them in step. */
module Headless {
  import opened Decimal

  datatype Client = Client(server: string, index: nat)

  /** HeadlessClient objects by object name. */
  type Clients = map<string, Client>

  function ClientName(server: string, index: nat): string {
    server + "-hc-" + ToDecimal(index)
  }

  /** Every object is named after its server and index. */
  ghost predicate WellNamed(clients: Clients) {
    forall k :: k in clients ==> k == ClientName(clients[k].server, clients[k].index)
  }

  lemma DashBeforeDigits(server: string, index: nat, i: nat)
    requires i < |ClientName(server, index)|
    ensures |ClientName(server, index)| == |server| + 4 + |ToDecimal(index)|
    ensures i == |server| + 3 ==> ClientName(server, index)[i] == '-'
    ensures i > |server| + 3 ==> IsAsciiDigit(ClientName(server, index)[i])
  {
    var name, d := ClientName(server, index), ToDecimal(index);
    assert name == server + ("-hc-" + d);
    if i > |server| + 3 {
      assert name[i] == d[i - |server| - 4];
    }
  }

  /** The naming scheme is injective: digits contain no dash, so the last dash of a name tells
    * where its index begins. */
  lemma {:induction false} ClientNameIsInjective(s: string, i: nat, t: string, j: nat)
    requires ClientName(s, i) == ClientName(t, j)
    ensures s == t && i == j
  {
    var name := ClientName(s, i);
    DashBeforeDigits(s, i, |s| + 3);
    DashBeforeDigits(t, j, |t| + 3);
    DashBeforeDigits(s, i, |t| + 3);
    DashBeforeDigits(t, j, |s| + 3);
    assert |s| == |t|;
    assert s == name[..|s|] == t;
    assert ToDecimal(i) == name[|s| + 4..] == ToDecimal(j);
    DecimalIsInjective(i, j);
  }

  /** The objects of other servers are the same in both. */
  ghost predicate OthersSame(clients: Clients, clients': Clients, server: string) {
    && (forall k :: k in clients && clients[k].server != server ==> k in clients' && clients'[k] == clients[k])
    && (forall k :: k in clients' && clients'[k].server != server ==> k in clients && clients[k] == clients'[k])
  }

  /** `list_headless_clients`. */
  function ClientsOf(clients: Clients, server: string): set<string> {
    set k | k in clients && clients[k].server == server
  }

  /** The calls made to the cluster, by object name. */
  datatype Call = ListCall | DeleteCall(name: string) | CreateCall(name: string)

  /** `delete_all_headless_clients`; `up` says which calls get through, and one that does not stops
    * it. */
  method DeleteAllHeadlessClients(clients: Clients, server: string, up: Call -> bool) returns (ok: bool, clients': Clients)
    ensures ok <==> up(ListCall) && forall k :: k in ClientsOf(clients, server) ==> up(DeleteCall(k))
    ensures ok ==> ClientsOf(clients', server) == {}
    ensures OthersSame(clients, clients', server) && clients'.Keys <= clients.Keys
    ensures WellNamed(clients) ==> WellNamed(clients')
  {
    clients' := clients;
    if !up(ListCall) {
      return false, clients;
    }
    var rest := ClientsOf(clients, server);
    while rest != {}
      invariant ClientsOf(clients', server) <= rest <= ClientsOf(clients, server)
      invariant forall k :: k in ClientsOf(clients, server) && k !in rest ==> up(DeleteCall(k))
      invariant clients'.Keys <= clients.Keys && forall k :: k in clients' ==> clients'[k] == clients[k]
      invariant OthersSame(clients, clients', server)
    {
      var k :| k in rest;
      if !up(DeleteCall(k)) {
        return false, clients';
      }
      clients' := clients' - {k};
      rest := rest - {k};
    }
    ok := true;
  }

  /** The first loop of `ensure_headless_clients`. */
  method DeleteExcess(clients: Clients, server: string, desired: nat, up: Call -> bool) returns (ok: bool, clients': Clients)
    requires WellNamed(clients)
    ensures ok <==> forall k :: k in ClientsOf(clients, server) && clients[k].index >= desired ==> up(DeleteCall(k))
    ensures WellNamed(clients') && OthersSame(clients, clients', server)
    ensures forall k :: k in clients' ==> k in clients && clients'[k] == clients[k]
    ensures forall k :: k in clients && clients[k].server == server && clients[k].index < desired ==> k in clients'
    ensures ok ==> forall k :: k in clients' && clients'[k].server == server ==> clients'[k].index < desired
  {
    clients' := clients;
    var rest := ClientsOf(clients, server);
    while rest != {}
      invariant rest <= ClientsOf(clients, server)
      invariant forall k :: k in ClientsOf(clients, server) && k !in rest && clients[k].index >= desired ==> up(DeleteCall(k))
      invariant forall k :: k in clients' ==> k in clients && clients'[k] == clients[k]
      invariant forall k :: k in clients && (clients[k].server != server || clients[k].index < desired) ==> k in clients'
      invariant forall k :: k in clients' && clients'[k].server == server && k !in rest ==> clients'[k].index < desired
    {
      var k :| k in rest;
      if clients[k].index >= desired {
        if !up(DeleteCall(k)) {
          return false, clients';
        }
        clients' := clients' - {k};
      }
      rest := rest - {k};
    }
    ok := true;
  }

  /** The second loop: create what is missing among the indices listed at the start. */
  method CreateMissing(clients: Clients, server: string, desired: nat, existing: set<nat>, up: Call -> bool)
      returns (ok: bool, clients': Clients)
    requires WellNamed(clients)
    requires forall i :: i in existing && i < desired ==> ClientName(server, i) in clients
    requires forall k :: k in clients && clients[k].server == server ==> clients[k].index < desired
    ensures ok <==> forall i: nat :: i < desired && i !in existing ==> up(CreateCall(ClientName(server, i)))
    ensures WellNamed(clients') && OthersSame(clients, clients', server)
    ensures forall k :: k in clients' && clients'[k].server == server ==> clients'[k].index < desired
    ensures ok ==> forall i: nat :: i < desired ==> ClientName(server, i) in clients'
  {
    clients' := clients;
    for index := 0 to desired
      invariant WellNamed(clients') && OthersSame(clients, clients', server)
      invariant forall k :: k in clients ==> k in clients'
      invariant forall k :: k in clients' && clients'[k].server == server ==> clients'[k].index < desired
      invariant forall i: nat :: i < index ==> ClientName(server, i) in clients'
      invariant forall i: nat :: i < index && i !in existing ==> up(CreateCall(ClientName(server, i)))
    {
      if index in existing {
        continue;
      }
      var name := ClientName(server, index);
      if !up(CreateCall(name)) {
        return false, clients';
      }
      if name in clients' {
        NameIsOwn(clients', server, index);
      }
      clients' := clients'[name := Client(server, index)];
    }
    ok := true;
  }

  /** Where objects are well named, a name of this server's scheme is never another's object. */
  lemma NameIsOwn(clients: Clients, server: string, index: nat)
    requires WellNamed(clients) && ClientName(server, index) in clients
    ensures clients[ClientName(server, index)] == Client(server, index)
  {
    var c := clients[ClientName(server, index)];
    ClientNameIsInjective(server, index, c.server, c.index);
  }

  /** Every deletion of an excess client and every creation of a missing one gets through. */
  ghost predicate AllGetThrough(clients: Clients, server: string, desired: nat, up: Call -> bool) {
    && (forall k :: k in ClientsOf(clients, server) && clients[k].index >= desired ==> up(DeleteCall(k)))
    && (forall i: nat :: i < desired && ClientName(server, i) !in clients ==> up(CreateCall(ClientName(server, i))))
  }

  /** `ensure_headless_clients`: on success this server has exactly the indices 0 to
    * desired - 1; every other server's clients are untouched whatever happens. */
  method EnsureHeadlessClients(clients: Clients, server: string, desired: nat, up: Call -> bool)
      returns (ok: bool, clients': Clients)
    requires WellNamed(clients)
    ensures ok <==> up(ListCall) && AllGetThrough(clients, server, desired, up)
    ensures WellNamed(clients') && OthersSame(clients, clients', server)
    ensures ok ==> forall i: nat :: ClientName(server, i) in clients' <==> i < desired
    ensures ok ==> forall k :: k in clients' && clients'[k].server == server ==>
              clients'[k].index < desired && k == ClientName(server, clients'[k].index)
  {
    if !up(ListCall) {
      return false, clients;
    }
    var existing := set k | k in clients && clients[k].server == server :: clients[k].index;
    forall i: nat ensures i in existing <==> ClientName(server, i) in clients {
      if ClientName(server, i) in clients {
        NameIsOwn(clients, server, i);
      }
    }
    ok, clients' := DeleteExcess(clients, server, desired, up);
    if !ok {
      return;
    }
    ghost var kept := clients';
    ok, clients' := CreateMissing(clients', server, desired, existing, up);
    if ok {
      forall i: nat ensures ClientName(server, i) in clients' <==> i < desired {
        if ClientName(server, i) in clients' {
          NameIsOwn(clients', server, i);
        }
      }
    }
  }
}
