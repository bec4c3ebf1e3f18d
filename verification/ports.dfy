/** Game ports: the range a server binds, and the gateway calls that keep ranges apart. */
module Ports {
  import opened Results

  /** u16. */
  type Port = p: int | 0 <= p <= 65535

  // ---------------------------------------------------------------------------------------
  // Ranges

  /** `port.saturating_add(4)`. */
  function LastPort(p: Port): Port {
    if p + 4 <= 65535 then p + 4 else 65535
  }

  /** A server on base `p` binds port `q`. */
  predicate Binds(p: Port, q: Port) {
    p <= q <= LastPort(p)
  }

  /** A server binds its base port and the four above it, as far as there are any. */
  lemma BindsFivePorts(p: Port, q: Port)
    ensures Binds(p, q) <==> p <= q <= p + 4
  {
  }

  /** Some port is bound by servers on both bases. */
  ghost predicate SharePort(a: Port, b: Port) {
    exists q: Port :: Binds(a, q) && Binds(b, q)
  }

  predicate PortRangesOverlap(a: Port, b: Port) {
    a <= LastPort(b) && b <= LastPort(a)
  }

  /** The comparison of end points decides whether two ranges share a port, for every pair of
    * bases, including ranges clipped at 65535. */
  lemma OverlapIffShared(a: Port, b: Port)
    ensures PortRangesOverlap(a, b) <==> SharePort(a, b)
  {
    if PortRangesOverlap(a, b) {
      var q := if a <= b then b else a;
      assert Binds(a, q) && Binds(b, q);
    }
  }

  // ---------------------------------------------------------------------------------------
  // The gateway

  datatype DesiredState = Running | Stopped

  datatype Server = Server(port: Port, desired: DesiredState)

  type Servers = map<string, Server>

  /** The name stands in the way of a server on `port`. */
  predicate InTheWay(servers: Servers, port: Port, exclude: Option<string>, name: string) {
    && name in servers && exclude != Some(name)
    && servers[name].desired == Running && PortRangesOverlap(port, servers[name].port)
  }

  predicate IsLabelChar(c: char) {
    'a' <= c <= 'z' || '0' <= c <= '9' || c == '-'
  }

  /** `validate_k8s_name` on a non-empty name. */
  predicate ValidName(name: string) {
    && 0 < |name| <= 63
    && (forall i :: 0 <= i < |name| ==> IsLabelChar(name[i]))
    && name[0] != '-' && name[|name| - 1] != '-'
  }

  /** `request.port as u16`. */
  function TruncatedPort(port: nat): Port {
    port % 65536
  }

  /** Any two servers that mean to run have disjoint port ranges. */
  ghost predicate PortsDisjoint(servers: Servers) {
    forall m, n :: m in servers && n in servers && m != n && servers[m].desired == Running && servers[n].desired == Running
      ==> !SharePort(servers[m].port, servers[n].port)
  }

  /** The RPCs; `reaches` says whether the write that follows the checks goes through. */
  datatype Call =
    | Create(name: string, port: nat, reaches: bool)
    | Start(name: string, reaches: bool)
    | Stop(name: string, reaches: bool)
    | Update(name: string)
    | Delete(name: string, reaches: bool)

  ghost predicate Refused(servers: Servers, port: Port, exclude: Option<string>) {
    exists n :: InTheWay(servers, port, exclude, n)
  }

  /** What one call makes of the stored servers. An update rewrites other fields only. */
  ghost function Handle(servers: Servers, call: Call): Servers {
    match call
    case Create(name, port, reaches) =>
      if ValidName(name) && !Refused(servers, TruncatedPort(port), None) && reaches
      then servers[name := Server(TruncatedPort(port), Running)] else servers
    case Start(name, reaches) =>
      if name in servers && !Refused(servers, servers[name].port, Some(name)) && reaches
      then servers[name := servers[name].(desired := Running)] else servers
    case Stop(name, reaches) =>
      if name in servers && reaches then servers[name := servers[name].(desired := Stopped)] else servers
    case Update(_) => servers
    case Delete(name, reaches) => if reaches then servers - {name} else servers
  }

  /** A server that passed the check, put in place, keeps all ranges apart. */
  lemma AdmittedIsDisjoint(servers: Servers, name: string, port: Port, exclude: Option<string>)
    requires PortsDisjoint(servers) && !Refused(servers, port, exclude)
    requires exclude == None || exclude == Some(name)
    ensures PortsDisjoint(servers[name := Server(port, Running)])
  {
    var servers' := servers[name := Server(port, Running)];
    forall m, n | m in servers' && n in servers' && m != n && servers'[m].desired == Running && servers'[n].desired == Running
      ensures !SharePort(servers'[m].port, servers'[n].port)
    {
      OverlapIffShared(servers'[m].port, servers'[n].port);
      assert !InTheWay(servers, port, exclude, m) && !InTheWay(servers, port, exclude, n);
    }
  }

  lemma {:induction false} HandleKeepsDisjoint(servers: Servers, call: Call)
    requires PortsDisjoint(servers)
    ensures PortsDisjoint(Handle(servers, call))
  {
    match call
    case Create(name, port, _) =>
      if !Refused(servers, TruncatedPort(port), None) {
        AdmittedIsDisjoint(servers, name, TruncatedPort(port), None);
      }
    case Start(name, _) =>
      if name in servers && !Refused(servers, servers[name].port, Some(name)) {
        AdmittedIsDisjoint(servers, name, servers[name].port, Some(name));
      }
    case _ =>
  }

  /** No call touches another server than the one it names. */
  lemma CallTouchesOnlyItsServer(servers: Servers, call: Call, n: string)
    requires n != call.name
    ensures n in Handle(servers, call) <==> n in servers
    ensures n in servers ==> Handle(servers, call)[n] == servers[n]
  {
  }

  /** What becomes of the server a call names: created and started servers mean to run unless
    * refused, stopped ones do not, deleted ones are gone, and the port never changes but by a
    * create. */
  lemma CallTakesEffect(servers: Servers, call: Call)
    ensures var n, after := call.name, Handle(servers, call);
            match call
            case Create(_, port, reaches) =>
              if ValidName(n) && reaches && forall m :: m in servers && servers[m].desired == Running ==>
                                                        !SharePort(port % 65536, servers[m].port)
              then n in after && after[n] == Server(port % 65536, Running) else after == servers
            case Start(_, reaches) =>
              if n in servers && reaches && forall m :: m in servers && m != n && servers[m].desired == Running ==>
                                                        !SharePort(servers[n].port, servers[m].port)
              then n in after && after[n] == Server(servers[n].port, Running) else after == servers
            case Stop(_, reaches) =>
              if n in servers && reaches then n in after && after[n] == Server(servers[n].port, Stopped) else after == servers
            case Update(_) => after == servers
            case Delete(_, reaches) => if reaches then n !in after else after == servers
  {
    match call
    case Create(_, port, _) => RefusedIff(servers, port % 65536, None);
    case Start(n, _) => if n in servers { RefusedIff(servers, servers[n].port, Some(n)); }
    case _ =>
  }

  /** A port is refused exactly when some other server that means to run shares a port with it. */
  lemma RefusedIff(servers: Servers, port: Port, exclude: Option<string>)
    ensures Refused(servers, port, exclude) <==>
            exists m :: m in servers && exclude != Some(m) && servers[m].desired == Running && SharePort(port, servers[m].port)
  {
    forall m | m in servers ensures PortRangesOverlap(port, servers[m].port) <==> SharePort(port, servers[m].port) {
      OverlapIffShared(port, servers[m].port);
    }
    if m :| m in servers && exclude != Some(m) && servers[m].desired == Running && SharePort(port, servers[m].port) {
      assert InTheWay(servers, port, exclude, m);
    }
  }

  ghost function After(calls: seq<Call>): Servers {
    if calls == [] then map[] else Handle(After(calls[..|calls| - 1]), calls[|calls| - 1])
  }

  /** In every run of calls, one at a time, any two servers whose desired state is Running have
    * disjoint port ranges. */
  lemma {:induction false} RunningServersNeverShareAPort(calls: seq<Call>)
    ensures PortsDisjoint(After(calls))
  {
    if calls != [] {
      RunningServersNeverShareAPort(calls[..|calls| - 1]);
      HandleKeepsDisjoint(After(calls[..|calls| - 1]), calls[|calls| - 1]);
    }
  }

  /** The store behind the gateway. */
  class Gateway {
    var servers: Servers

    constructor ()
      ensures servers == map[]
    {
      servers := map[];
    }

    /** `check_port_conflict` over the listed servers, in whatever order they come. */
    method CheckPortConflict(port: Port, exclude: Option<string>) returns (ok: bool)
      ensures ok <==> !Refused(servers, port, exclude)
    {
      var rest := servers.Keys;
      while rest != {}
        invariant rest <= servers.Keys
        invariant forall n :: n in servers && n !in rest ==> !InTheWay(servers, port, exclude, n)
      {
        var n :| n in rest;
        rest := rest - {n};
        if exclude == Some(n) {
          continue;
        }
        if servers[n].desired != Running {
          continue;
        }
        if PortRangesOverlap(port, servers[n].port) {
          assert InTheWay(servers, port, exclude, n);
          return false;
        }
      }
      ok := true;
    }

    /** `validate_k8s_name`. */
    method ValidateName(name: string) returns (ok: bool)
      ensures ok <==> ValidName(name)
    {
      if |name| > 63 {
        return false;
      }
      for i := 0 to |name|
        invariant forall j :: 0 <= j < i ==> IsLabelChar(name[j])
      {
        if !('a' <= name[i] <= 'z' || '0' <= name[i] <= '9' || name[i] == '-') {
          return false;
        }
      }
      return name != [] && name[0] != '-' && name[|name| - 1] != '-';
    }

    method CreateServer(name: string, port: nat, reaches: bool) returns (ok: bool)
      modifies this
      ensures servers == Handle(old(servers), Create(name, port, reaches))
      ensures ok <==> ValidName(name) && reaches && !Refused(old(servers), TruncatedPort(port), None)
      ensures ok ==> name in servers && servers[name] == Server(TruncatedPort(port), Running)
    {
      var valid := ValidateName(name);
      if !valid {
        return false;
      }
      ok := CheckPortConflict(TruncatedPort(port), None);
      if ok && reaches {
        servers := servers[name := Server(TruncatedPort(port), Running)];
      }
      ok := ok && reaches;
    }

    /** The desired state is written before the resync, so a resync that fails leaves it written. */
    method StartServer(name: string, reaches: bool, resyncs: bool) returns (ok: bool)
      modifies this
      ensures servers == Handle(old(servers), Start(name, reaches))
      ensures ok <==> name in old(servers) && reaches && resyncs && !Refused(old(servers), old(servers)[name].port, Some(name))
      ensures ok ==> name in servers && servers[name].desired == Running
    {
      if name !in servers {
        return false;
      }
      ok := CheckPortConflict(servers[name].port, Some(name));
      if ok && reaches {
        servers := servers[name := servers[name].(desired := Running)];
      }
      ok := ok && reaches && resyncs;
    }

    method StopServer(name: string, reaches: bool) returns (ok: bool)
      modifies this
      ensures servers == Handle(old(servers), Stop(name, reaches))
      ensures ok <==> name in old(servers) && reaches
      ensures ok ==> name in servers && servers[name].desired == Stopped
    {
      ok := name in servers && reaches;
      if ok {
        servers := servers[name := servers[name].(desired := Stopped)];
      }
    }
  }
}
