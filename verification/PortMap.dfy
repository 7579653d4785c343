/**
 The port map registry: brick path to port, connection to port, and port to bricks.
 */
module PortMap {
  import opened Wrappers

  const PORT_MIN := 1024
  const PORT_MAX := 65535

  type Conn = nat

  /** The absent connection. */
  const NIL: Conn := 0

  datatype Reg = Reg(bricks: map<string, int>, conns: map<Conn, int>, ports: map<int, map<string, int>>)

  datatype Op =
    | SignIn(port: int, path: string, conn: Conn, pid: int)
    | SignOut(port: int, path: string, conn: Conn)
    | Disconnect(conn: Conn)

  predicate ValidPort(port: int) {
    PORT_MIN <= port <= PORT_MAX
  }

  function OnPort(r: Reg, port: int): map<string, int> {
    if port in r.ports then r.ports[port] else map[]
  }

  function UpdateReg(r: Reg, port: int, path: string, conn: Conn, pid: int): Reg {
    if !ValidPort(port) then r
    else Reg(r.bricks[path := port],
             if conn != NIL then r.conns[conn := port] else r.conns,
             r.ports[port := OnPort(r, port)[path := pid]])
  }

  function RemoveReg(r: Reg, port: int, path: string, conn: Conn): Reg {
    if !ValidPort(port) then r
    else Reg(r.bricks - {path}, r.conns[conn := port],
             if port in r.ports then r.ports[port := r.ports[port] - {path}] else r.ports)
  }

  function DisconnectReg(r: Reg, conn: Conn): Reg {
    if conn == NIL || conn !in r.conns then r
    else
      var port := r.conns[conn];
      Reg(r.bricks - OnPort(r, port).Keys, r.conns - {conn}, r.ports - {port})
  }

  function Search(r: Reg, path: string): Option<int> {
    if path != "" && path in r.bricks then Some(r.bricks[path]) else None
  }

  function NumOnPort(r: Reg, port: int): Option<nat> {
    if ValidPort(port) && port in r.ports then Some(|r.ports[port]|) else None
  }

  function Step(r: Reg, op: Op): Reg {
    match op
    case SignIn(port, path, conn, pid) => UpdateReg(r, port, path, conn, pid)
    case SignOut(port, path, conn) => RemoveReg(r, port, path, conn)
    case Disconnect(conn) => DisconnectReg(r, conn)
  }

  function Run(ops: seq<Op>): Reg {
    if ops == [] then Reg(map[], map[], map[]) else Step(Run(ops[..|ops| - 1]), ops[|ops| - 1])
  }

  // ---------------------------------------------------------------- the maps agree

  /** Whatever a lookup answers is a valid port that lists the brick. */
  ghost predicate Listed(r: Reg) {
    forall p :: p in r.bricks ==>
      ValidPort(r.bricks[p]) && r.bricks[p] in r.ports && p in r.ports[r.bricks[p]]
  }

  /** No port lists a brick that a lookup would not send to it. */
  ghost predicate StaleFree(r: Reg) {
    forall q, p :: q in r.ports && p in r.ports[q] ==> p in r.bricks && r.bricks[p] == q
  }

  lemma StepListed(r: Reg, op: Op)
    requires Listed(r)
    ensures Listed(Step(r, op))
  {
  }

  /** In every run, whoever signs in, out or disconnects. */
  lemma {:induction false} RunListed(ops: seq<Op>)
    ensures Listed(Run(ops))
  {
    if ops != [] {
      RunListed(ops[..|ops| - 1]);
      StepListed(Run(ops[..|ops| - 1]), ops[|ops| - 1]);
    }
  }

  /** The process that last signed a brick in on a port. */
  function LastPid(ops: seq<Op>, port: int, path: string): Option<int> {
    if ops == [] then None
    else
      var op := ops[|ops| - 1];
      if op.SignIn? && op.port == port && op.path == path && ValidPort(port) then Some(op.pid)
      else LastPid(ops[..|ops| - 1], port, path)
  }

  /** Whoever else signs in, a port lists a brick with the process that last signed it in there. */
  lemma {:induction false} ListedPidIsLast(ops: seq<Op>, port: int, path: string)
    requires path in OnPort(Run(ops), port)
    ensures LastPid(ops, port, path) == Some(OnPort(Run(ops), port)[path])
  {
    if ops != [] {
      var before, op := ops[..|ops| - 1], ops[|ops| - 1];
      if !(op.SignIn? && op.port == port && op.path == path && ValidPort(port)) {
        ListedPidIsLast(before, port, path);
      }
    }
  }

  /** The brick is not listed on a port other than the one of the operation. */
  predicate Tidy(r: Reg, op: Op) {
    match op
    case SignIn(port, path, _, _) => ValidPort(port) ==> forall q :: q in r.ports && q != port ==> path !in r.ports[q]
    case SignOut(port, path, _) => ValidPort(port) ==> forall q :: q in r.ports && q != port ==> path !in r.ports[q]
    case Disconnect(_) => true
  }

  /** An operation keeps the two maps exact inverses exactly when it is tidy. */
  lemma StaleFreeExactly(r: Reg, op: Op)
    requires Listed(r) && StaleFree(r)
    ensures StaleFree(Step(r, op)) <==> Tidy(r, op)
  {
    var r' := Step(r, op);
    if !Tidy(r, op) {
      var q :| q in r.ports && q != op.port && op.path in r.ports[q];
      assert q in r'.ports && op.path in r'.ports[q];
      assert op.path !in r'.bricks || r'.bricks[op.path] != q;
    } else {
      forall q, p | q in r'.ports && p in r'.ports[q]
        ensures p in r'.bricks && r'.bricks[p] == q
      {
        if op.SignIn? && ValidPort(op.port) && q == op.port && p == op.path {
        } else {
          assert q in r.ports && p in r.ports[q];
          if op.Disconnect? && op.conn in r.conns && r.conns[op.conn] in r.ports && p in r.ports[r.conns[op.conn]] {
            assert r.bricks[p] == r.conns[op.conn];
          }
        }
      }
    }
  }

  // ---------------------------------------------------------------- lookups and live sign-ins

  /** The history without the registry: the last port each brick signed in on and is still live on,
      and the last port seen on each connection. */
  datatype Live = Live(at: map<string, int>, conns: map<Conn, int>)

  function LiveStep(l: Live, op: Op): Live {
    match op
    case SignIn(port, path, conn, _) =>
      if !ValidPort(port) then l
      else Live(l.at[path := port], if conn != NIL then l.conns[conn := port] else l.conns)
    case SignOut(port, path, conn) =>
      if !ValidPort(port) then l else Live(l.at - {path}, l.conns[conn := port])
    case Disconnect(conn) =>
      if conn == NIL || conn !in l.conns then l
      else Live(map p | p in l.at && l.at[p] != l.conns[conn] :: l.at[p], l.conns - {conn})
  }

  function LiveRun(ops: seq<Op>): Live {
    if ops == [] then Live(map[], map[]) else LiveStep(LiveRun(ops[..|ops| - 1]), ops[|ops| - 1])
  }

  ghost predicate TidyRun(ops: seq<Op>) {
    ops == [] || (TidyRun(ops[..|ops| - 1]) && Tidy(Run(ops[..|ops| - 1]), ops[|ops| - 1]))
  }

  lemma StepIsLive(r: Reg, op: Op)
    requires Listed(r) && StaleFree(r)
    ensures var l := LiveStep(Live(r.bricks, r.conns), op);
            Step(r, op).bricks == l.at && Step(r, op).conns == l.conns
  {
    if op.Disconnect? && op.conn != NIL && op.conn in r.conns {
      var port := r.conns[op.conn];
      forall p | p in r.bricks
        ensures p in OnPort(r, port) <==> r.bricks[p] == port
      {
      }
    }
  }

  /** In every tidy run the maps are exact inverses, and a lookup answers with the last live
      sign-in. */
  lemma {:induction false} TidyRunIsLive(ops: seq<Op>)
    requires TidyRun(ops)
    ensures Listed(Run(ops)) && StaleFree(Run(ops))
    ensures Run(ops).bricks == LiveRun(ops).at && Run(ops).conns == LiveRun(ops).conns
  {
    if ops != [] {
      var before := ops[..|ops| - 1];
      TidyRunIsLive(before);
      StepListed(Run(before), ops[|ops| - 1]);
      StaleFreeExactly(Run(before), ops[|ops| - 1]);
      StepIsLive(Run(before), ops[|ops| - 1]);
    }
  }

  /** A disconnect leaves the lookups of the live bricks right exactly when the port of the connection
      lists no brick that has since signed in elsewhere. */
  lemma DisconnectExactly(r: Reg, conn: Conn)
    requires Listed(r) && conn != NIL && conn in r.conns
    ensures DisconnectReg(r, conn).bricks == LiveStep(Live(r.bricks, r.conns), Disconnect(conn)).at <==>
            forall p :: p in OnPort(r, r.conns[conn]) && p in r.bricks ==> r.bricks[p] == r.conns[conn]
  {
    var port := r.conns[conn];
    var got, want := DisconnectReg(r, conn).bricks, LiveStep(Live(r.bricks, r.conns), Disconnect(conn)).at;
    if p :| p in OnPort(r, port) && p in r.bricks && r.bricks[p] != port {
      assert p !in got && p in want;
    } else {
      assert forall p :: p in r.bricks ==> (p in OnPort(r, port) <==> r.bricks[p] == port);
      assert got == want;
    }
  }

  /** Without tidiness a lookup can lose a live brick: it signs in on port q over another connection
      while still listed on port p, and then the connection of port p goes away. */
  lemma UntidyRunLosesBrick(path: string, p: int, q: int, c: Conn, d: Conn, pid: int)
    requires ValidPort(p) && ValidPort(q) && p != q && c != d && c != NIL && d != NIL
    ensures var ops := [SignIn(p, path, c, pid), SignIn(q, path, d, pid), Disconnect(c)];
            path !in Run(ops).bricks && path in LiveRun(ops).at && LiveRun(ops).at[path] == q
  {
    var a, b, e := SignIn(p, path, c, pid), SignIn(q, path, d, pid), Disconnect(c);
    assert [a, b, e][..2] == [a, b] && [a, b][..1] == [a] && [a][..0] == [];
    assert Run([]) == Reg(map[], map[], map[]) && LiveRun([]) == Live(map[], map[]);
    assert Run([a]) == Step(Run([]), a) && LiveRun([a]) == LiveStep(LiveRun([]), a);
    assert Run([a, b]) == Step(Run([a]), b) && LiveRun([a, b]) == LiveStep(LiveRun([a]), b);
    assert Run([a, b, e]) == Step(Run([a, b]), e) && LiveRun([a, b, e]) == LiveStep(LiveRun([a, b]), e);
  }

  // ---------------------------------------------------------------- the registry as an object

  class Registry {
    var bricks: map<string, int>
    var conns: map<Conn, int>
    var ports: map<int, map<string, int>>

    function State(): Reg
      reads this
    {
      Reg(bricks, conns, ports)
    }

    constructor ()
      ensures State() == Reg(map[], map[], map[])
    {
      bricks, conns, ports := map[], map[], map[];
    }

    method Update(port: int, path: string, conn: Conn, pid: int) returns (ok: bool)
      modifies this
      ensures ok == ValidPort(port) && State() == UpdateReg(old(State()), port, path, conn, pid)
    {
      if port < PORT_MIN || port > PORT_MAX {
        return false;
      }
      bricks := bricks[path := port];
      if conn != NIL {
        conns := conns[conn := port];
      }
      if port !in ports {
        ports := ports[port := map[]];
      }
      ports := ports[port := ports[port][path := pid]];
      return true;
    }

    method SearchByBrickPath(path: string) returns (r: Option<int>)
      ensures r == Search(State(), path)
    {
      if path == "" {
        return None;
      }
      if path in bricks {
        return Some(bricks[path]);
      }
      return None;
    }

    method NumOfBricksOnPort(port: int) returns (r: Option<nat>)
      ensures r == NumOnPort(State(), port)
    {
      if port < PORT_MIN || port > PORT_MAX {
        return None;
      }
      if port in ports {
        return Some(|ports[port]|);
      }
      return None;
    }

    method RemovePortByConn(conn: Conn) returns (ok: bool)
      modifies this
      ensures ok == (conn != NIL) && State() == DisconnectReg(old(State()), conn)
    {
      if conn == NIL {
        return false;
      }
      if conn !in conns {
        return true;
      }
      var port := conns[conn];
      conns := conns - {conn};
      var todo := if port in ports then ports[port].Keys else {};
      ghost var all := todo;
      while todo != {}
        invariant todo <= all && bricks == old(bricks) - (all - todo)
        invariant conns == old(conns) - {conn} && ports == old(ports)
        decreases |todo|
      {
        var brick :| brick in todo;
        bricks := bricks - {brick};
        todo := todo - {brick};
      }
      ports := ports - {port};
      return true;
    }

    method Remove(port: int, path: string, conn: Conn) returns (ok: bool)
      modifies this
      ensures ok == ValidPort(port) && State() == RemoveReg(old(State()), port, path, conn)
    {
      if port < PORT_MIN || port > PORT_MAX {
        return false;
      }
      bricks := bricks - {path};
      if port in ports {
        ports := ports[port := ports[port] - {path}];
      }
      conns := conns[conn := port];
      return true;
    }
  }
}
