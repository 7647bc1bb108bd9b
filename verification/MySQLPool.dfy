/** The connection pool and its scope guard. */
module MySQLPool {
  import opened Text

  type Conn = nat

  const POOL_SIZE := 8

  /** `held` maps a thread to the connection its `ConnGuard` holds; `asleep` and `woken` are the
      threads inside the timed wait of `get_conn`. */
  datatype Pool = Pool(created: set<Conn>, idle: seq<Conn>, held: map<int, Conn>, asleep: set<int>, woken: set<int>)

  /** The connections `init_pool_` managed to create; failed attempts are skipped. */
  function Opened(attempts: seq<bool>): (r: seq<Conn>)
    ensures forall i :: 0 <= i < |r| ==> r[i] < |attempts|
    ensures forall i, j :: 0 <= i < j < |r| ==> r[i] != r[j]
  {
    if attempts == [] then []
    else
      var k := |attempts| - 1;
      Opened(attempts[..k]) + if attempts[k] then [k] else []
  }

  /** Exactly the attempts that succeeded gave a connection, in order. */
  lemma {:induction false} OpenedAre(attempts: seq<bool>)
    ensures forall c: nat :: c in Opened(attempts) <==> c < |attempts| && attempts[c]
    ensures forall i, j :: 0 <= i < j < |Opened(attempts)| ==> Opened(attempts)[i] < Opened(attempts)[j]
  {
    if attempts != [] {
      var k := |attempts| - 1;
      OpenedAre(attempts[..k]);
      var before := Opened(attempts[..k]);
      assert forall c: nat :: c in Opened(attempts) <==> c in before || (c == k && attempts[k]);
    }
  }

  lemma {:induction false} AllOpened(attempts: seq<bool>)
    requires forall i :: 0 <= i < |attempts| ==> attempts[i]
    ensures |Opened(attempts)| == |attempts|
  {
    if attempts != [] {
      AllOpened(attempts[..|attempts| - 1]);
    }
  }

  function ToSet(s: seq<Conn>): set<Conn> {
    set c | c in s
  }

  function Initial(attempts: seq<bool>): Pool {
    var conns := Opened(attempts);
    Pool(ToSet(conns), conns, map[], {}, {})
  }

  datatype Op =
    | Get(t: int)            // the ConnGuard constructor, up to the first test of the queue
    | Again(t: int)          // a woken thread re-tests the queue
    | Timeout(t: int)        // 500 ms are over: one last test, then null
    | Return(t: int, pick: int)
    | Spurious(t: int)

  predicate Can(p: Pool, op: Op) {
    match op
    case Get(t) => t !in p.held && t !in p.asleep && t !in p.woken
    case Again(t) => t in p.woken
    case Timeout(t) => t in p.asleep || t in p.woken
    case Return(t, pick) => t in p.held && (p.asleep == {} || pick in p.asleep)
    case Spurious(t) => t in p.asleep
  }

  /** `conn_queue_.front()` and `pop()`. */
  function Take(p: Pool, t: int): Pool
    requires p.idle != []
  {
    p.(idle := p.idle[1..], held := p.held[t := p.idle[0]], asleep := p.asleep - {t}, woken := p.woken - {t})
  }

  function Sleep(p: Pool, t: int): Pool {
    p.(asleep := p.asleep - {t} + {t}, woken := p.woken - {t})
  }

  function Wake(p: Pool, t: int): Pool {
    if t in p.asleep then p.(asleep := p.asleep - {t}, woken := p.woken + {t}) else p
  }

  function Do(p: Pool, op: Op): Pool
    requires Can(p, op)
  {
    match op
    case Get(t) => if p.idle != [] then Take(p, t) else Sleep(p, t)
    case Again(t) => if p.idle != [] then Take(p, t) else Sleep(p, t)
    case Timeout(t) =>
      if p.idle != [] then Take(p, t) else p.(asleep := p.asleep - {t}, woken := p.woken - {t})
    case Return(t, pick) => Wake(p.(idle := p.idle + [p.held[t]], held := p.held - {t}), pick)
    case Spurious(t) => Wake(p, t)
  }

  // ---------------------------------------------------------------- the invariant

  ghost predicate IsHeld(held: map<int, Conn>, c: Conn) {
    exists t :: t in held && held[t] == c
  }

  /** Every created connection is idle once or held by one guard, and there are no others. */
  ghost predicate Conserved(p: Pool) {
    && (forall c :: c in p.created <==> c in p.idle || IsHeld(p.held, c))
    && (forall i, j :: 0 <= i < j < |p.idle| ==> p.idle[i] != p.idle[j])
    && (forall t :: t in p.held ==> p.held[t] !in p.idle)
    && (forall t, u :: t in p.held && u in p.held && t != u ==> p.held[t] != p.held[u])
    && |p.idle| + |p.held| == |p.created|
  }

  ghost predicate Waiting(p: Pool) {
    && p.asleep !! p.woken && p.held.Keys !! p.asleep && p.held.Keys !! p.woken
    && (p.asleep != {} ==> |p.idle| <= |p.woken|)
  }

  ghost predicate Inv(p: Pool) {
    Conserved(p) && Waiting(p)
  }

  lemma HeldAdd(held: map<int, Conn>, t: int, c: Conn)
    requires t !in held
    ensures forall d :: IsHeld(held[t := c], d) <==> IsHeld(held, d) || d == c
    ensures |held[t := c]| == |held| + 1
  {
    var h := held[t := c];
    assert h.Keys == held.Keys + {t} && h[t] == c;
    forall d | IsHeld(held, d) ensures IsHeld(h, d) {
      var u :| u in held && held[u] == d;
      assert h[u] == d;
    }
  }

  lemma HeldRemove(held: map<int, Conn>, t: int)
    requires t in held
    requires forall u :: u in held && u != t ==> held[u] != held[t]
    ensures forall d :: IsHeld(held - {t}, d) <==> IsHeld(held, d) && d != held[t]
    ensures |held - {t}| == |held| - 1
  {
    var h := held - {t};
    assert h.Keys == held.Keys - {t};
    forall d | IsHeld(held, d) && d != held[t] ensures IsHeld(h, d) {
      var u :| u in held && held[u] == d;
      assert h[u] == d;
    }
  }

  lemma TakeConserves(p: Pool, t: int)
    requires Conserved(p) && p.idle != [] && t !in p.held
    ensures Conserved(Take(p, t))
  {
    assert p.idle == [p.idle[0]] + p.idle[1..];
    HeldAdd(p.held, t, p.idle[0]);
  }

  lemma GiveConserves(p: Pool, t: int)
    requires Conserved(p) && t in p.held
    ensures Conserved(p.(idle := p.idle + [p.held[t]], held := p.held - {t}))
  {
    HeldRemove(p.held, t);
  }

  lemma TakeKeepsInv(p: Pool, t: int)
    requires Inv(p) && p.idle != [] && t !in p.held
    ensures Inv(Take(p, t))
  {
    TakeConserves(p, t);
  }

  lemma ReturnKeepsInv(p: Pool, t: int, pick: int)
    requires Inv(p) && Can(p, Return(t, pick))
    ensures Inv(Do(p, Return(t, pick)))
  {
    GiveConserves(p, t);
  }

  lemma WaitKeepsInv(p: Pool, op: Op)
    requires Inv(p) && Can(p, op) && !op.Return? && (p.idle == [] || op.Spurious?)
    ensures Inv(Do(p, op))
  {
    assert Conserved(Do(p, op));
  }

  lemma StepKeepsInv(p: Pool, op: Op)
    requires Inv(p) && Can(p, op)
    ensures Inv(Do(p, op))
  {
    if op.Return? {
      ReturnKeepsInv(p, op.t, op.pick);
    } else if op.Spurious? || p.idle == [] {
      WaitKeepsInv(p, op);
    } else {
      TakeKeepsInv(p, op.t);
    }
  }

  lemma {:induction false} SetOfDistinct(s: seq<Conn>)
    requires forall i, j :: 0 <= i < j < |s| ==> s[i] != s[j]
    ensures |ToSet(s)| == |s|
  {
    if s != [] {
      var k := |s| - 1;
      SetOfDistinct(s[..k]);
      assert s == s[..k] + [s[k]] && s[k] !in s[..k];
      assert ToSet(s) == ToSet(s[..k]) + {s[k]};
    }
  }

  lemma InitialInv(attempts: seq<bool>)
    ensures Inv(Initial(attempts))
  {
    SetOfDistinct(Opened(attempts));
  }

  // ---------------------------------------------------------------- runs

  function Run(p: Pool, ops: seq<Op>): Option<Pool>
    decreases |ops|
  {
    if ops == [] then Some(p)
    else if Can(p, ops[0]) then Run(Do(p, ops[0]), ops[1..])
    else None
  }

  lemma HeldIsNotIdle(p: Pool)
    requires Inv(p)
    ensures forall c :: c in p.created ==> (c in p.idle <==> !IsHeld(p.held, c))
  {
  }

  /** Only threads of `ts` use the pool. */
  predicate Uses(ops: seq<Op>, ts: set<int>) {
    forall i :: 0 <= i < |ops| ==> ops[i].t in ts
  }

  /** Conservation over every run, whatever waits, times out or wakes for no reason: no connection
      is lost, invented or held by two guards. */
  lemma {:induction false} RunConserves(p: Pool, ops: seq<Op>)
    requires Inv(p)
    ensures Run(p, ops).Some? ==> Inv(Run(p, ops).value) && Run(p, ops).value.created == p.created
    decreases |ops|
  {
    if ops != [] && Can(p, ops[0]) {
      StepKeepsInv(p, ops[0]);
      RunConserves(Do(p, ops[0]), ops[1..]);
    }
  }

  lemma {:induction false} EnoughConnections(p: Pool, ops: seq<Op>, ts: set<int>)
    requires Inv(p) && p.asleep == {} && p.woken == {}
    requires p.held.Keys <= ts && |ts| <= |p.created| && Uses(ops, ts)
    ensures Run(p, ops).Some? ==> Run(p, ops).value.asleep == {} && Run(p, ops).value.woken == {}
    decreases |ops|
  {
    if ops != [] && Can(p, ops[0]) {
      var op := ops[0];
      assert op.t in ts;
      if op.Get? {
        SubsetSize(p.held.Keys, ts - {op.t});
        assert p.idle != [];
      }
      StepKeepsInv(p, op);
      var q := Do(p, op);
      assert q.held.Keys <= p.held.Keys + {op.t};
      EnoughConnections(q, ops[1..], ts);
    }
  }

  lemma SubsetSize(a: set<int>, b: set<int>)
    requires a <= b
    ensures |a| <= |b|
  {
    assert b == a + (b - a);
  }

  lemma FreeThread(p: Pool, ts: set<int>)
    requires |ts| > |p.held|
    ensures exists t :: t in ts && t !in p.held
  {
    if forall t :: t in ts ==> t in p.held {
      assert ts <= p.held.Keys;
      SubsetSize(ts, p.held.Keys);
    }
  }

  /** More threads than connections: all connections taken, and one thread too many. */
  lemma {:induction false} OneTooMany(p: Pool, ts: set<int>) returns (ops: seq<Op>)
    requires Inv(p) && p.held.Keys <= ts && |ts| > |p.created| && p.asleep == {} && p.woken == {}
    ensures Uses(ops, ts) && Run(p, ops).Some? && Run(p, ops).value.asleep != {}
    decreases |p.idle|
  {
    FreeThread(p, ts);
    var t :| t in ts && t !in p.held;
    var q := Do(p, Get(t));
    StepKeepsInv(p, Get(t));
    var rest: seq<Op> := [];
    if p.idle != [] {
      rest := OneTooMany(q, ts);
    } else {
      assert t in q.asleep;
    }
    ops := [Get(t)] + rest;
    assert ops[1..] == rest;
  }

  /** The attempts that succeeded. */
  function Successes(attempts: seq<bool>): set<nat> {
    set c: nat | c < |attempts| && attempts[c]
  }

  ghost predicate SomebodyWaits(p: Pool, ops: seq<Op>, ts: set<int>) {
    Uses(ops, ts) && Run(p, ops).Some? && Run(p, ops).value.asleep != {}
  }

  /** `get_conn` can find the queue empty if and only if there are more threads than connections. */
  lemma SufficientExactly(attempts: seq<bool>, ts: set<int>)
    ensures (exists ops :: SomebodyWaits(Initial(attempts), ops, ts)) <==> |ts| > |Successes(attempts)|
  {
    var p := Initial(attempts);
    OpenedAre(attempts);
    assert ToSet(Opened(attempts)) == Successes(attempts);
    InitialInv(attempts);
    SetOfDistinct(Opened(attempts));
    if |ts| > |Opened(attempts)| {
      var ops := OneTooMany(p, ts);
      assert SomebodyWaits(p, ops, ts);
    } else {
      forall ops | Uses(ops, ts) && Run(p, ops).Some? ensures Run(p, ops).value.asleep == {} {
        EnoughConnections(p, ops, ts);
      }
    }
  }

  /** With eight connections and at most eight workers nobody ever waits, so `get_conn` never answers
      null. */
  lemma EightAreEnough(attempts: seq<bool>, ts: set<int>, ops: seq<Op>)
    requires |attempts| == 8 && (forall i :: 0 <= i < 8 ==> attempts[i]) && |ts| <= 8
    requires Uses(ops, ts) && Run(Initial(attempts), ops).Some?
    ensures Run(Initial(attempts), ops).value.asleep == {}
    ensures |Initial(attempts).idle| == 8
  {
    AllOpened(attempts);
    SufficientExactly(attempts, ts);
    OpenedAre(attempts);
    SetOfDistinct(Opened(attempts));
    assert ToSet(Opened(attempts)) == Successes(attempts);
    assert SomebodyWaits(Initial(attempts), ops, ts) || Run(Initial(attempts), ops).value.asleep == {};
  }

  // ---------------------------------------------------------------- in order of return

  /** The connections handed out in a run, in order: what a thread holds after a step and not before. */
  function Taken(p: Pool, ops: seq<Op>): seq<Conn>
    requires Run(p, ops).Some?
    decreases |ops|
  {
    if ops == [] then []
    else
      var q := Do(p, ops[0]);
      (if ops[0].t in q.held && ops[0].t !in p.held then [q.held[ops[0].t]] else []) + Taken(q, ops[1..])
  }

  /** The connections given back in a run, in order: what the thread held. */
  function Returned(p: Pool, ops: seq<Op>): seq<Conn>
    requires Run(p, ops).Some?
    decreases |ops|
  {
    if ops == [] then []
    else (if ops[0].Return? then [p.held[ops[0].t]] else []) + Returned(Do(p, ops[0]), ops[1..])
  }

  lemma StepOrder(p: Pool, op: Op)
    requires Inv(p) && Can(p, op)
    ensures var q := Do(p, op);
            p.idle + (if op.Return? then [p.held[op.t]] else [])
            == (if op.t in q.held && op.t !in p.held then [q.held[op.t]] else []) + q.idle
  {
  }

  lemma SeqAssoc(a: seq<Conn>, b: seq<Conn>, c: seq<Conn>)
    ensures a + b + c == a + (b + c)
  {
  }

  /** Over every run connections are handed out in the order in which they were created and given
      back: the longest idle first. */
  lemma {:induction false} LongestIdleFirst(p: Pool, ops: seq<Op>)
    requires Inv(p) && Run(p, ops).Some?
    ensures p.idle + Returned(p, ops) == Taken(p, ops) + Run(p, ops).value.idle
    decreases |ops|
  {
    if ops == [] {
      assert p.idle + [] == [] + p.idle;
    } else {
      var op, q := ops[0], Do(p, ops[0]);
      StepOrder(p, op);
      StepKeepsInv(p, op);
      LongestIdleFirst(q, ops[1..]);
      var back := if op.Return? then [p.held[op.t]] else [];
      var out := if op.t in q.held && op.t !in p.held then [q.held[op.t]] else [];
      SeqAssoc(p.idle, back, Returned(q, ops[1..]));
      SeqAssoc(out, q.idle, Returned(q, ops[1..]));
      SeqAssoc(out, Taken(q, ops[1..]), Run(q, ops[1..]).value.idle);
    }
  }

  // ---------------------------------------------------------------- the class

  class MySQLPool {
    ghost var created: set<Conn>
    var idle: seq<Conn>
    var currentSize: nat
    var held: map<int, Conn>
    var asleep: set<int>
    var woken: set<int>

    ghost function Abs(): Pool
      reads this
    {
      Pool(created, idle, held, asleep, woken)
    }

    ghost predicate Valid()
      reads this
    {
      Inv(Abs()) && currentSize == |created|
    }

    /** `init_pool_`: POOL_SIZE attempts, of which some may fail. */
    constructor (attempts: seq<bool>)
      requires |attempts| == POOL_SIZE
      ensures Valid() && Abs() == Initial(attempts) && currentSize == |idle|
      ensures forall c: nat :: c in idle <==> c < |attempts| && attempts[c]
    {
      var queue: seq<Conn> := [];
      var size := 0;
      for i := 0 to |attempts|
        invariant queue == Opened(attempts[..i]) && size == |queue|
      {
        assert attempts[..i + 1][..i] == attempts[..i];
        if attempts[i] {
          queue := queue + [i];
          size := size + 1;
        }
      }
      assert attempts[..|attempts|] == attempts;
      idle, currentSize, held, asleep, woken := queue, size, map[], {}, {};
      created := ToSet(queue);
      InitialInv(attempts);
      SetOfDistinct(queue);
      OpenedAre(attempts);
    }

    /** `get_conn` for a thread that is not waiting; None means it went to sleep. */
    method GetConn(t: int) returns (conn: Option<Conn>)
      requires Valid() && Can(Abs(), Get(t))
      modifies this
      ensures Valid() && Abs() == Do(old(Abs()), Get(t))
      ensures conn.Some? <==> old(idle) != []
      ensures conn.Some? ==> conn.value == old(idle)[0]
    {
      StepKeepsInv(Abs(), Get(t));
      conn := TakeOrSleep(t);
    }

    method TakeOrSleep(t: int) returns (conn: Option<Conn>)
      requires Can(Abs(), Get(t))
      modifies this`idle, this`held, this`asleep, this`woken
      ensures Abs() == Do(old(Abs()), Get(t))
      ensures conn == if old(idle) == [] then None else Some(old(idle)[0])
    {
      conn := TryTake(t);
      if conn.None? {
        asleep := asleep + {t};
      }
    }

    /** With the mutex held and not asleep: the oldest idle connection, if there is one. */
    method TryTake(t: int) returns (conn: Option<Conn>)
      modifies this`idle, this`held, this`asleep, this`woken
      ensures conn == if old(idle) == [] then None else Some(old(idle)[0])
      ensures asleep == old(asleep) - {t} && woken == old(woken) - {t}
      ensures old(idle) == [] ==> idle == old(idle) && held == old(held)
      ensures old(idle) != [] ==> Abs() == Take(old(Abs()), t)
    {
      asleep, woken := asleep - {t}, woken - {t};
      if idle == [] {
        return None;
      }
      conn := Some(idle[0]);
      idle, held := idle[1..], held[t := idle[0]];
    }

    /** The wait of `get_conn` ends by timeout; None is the null it then returns. */
    method WaitTimedOut(t: int) returns (conn: Option<Conn>)
      requires Valid() && Can(Abs(), Timeout(t))
      modifies this
      ensures Valid() && Abs() == Do(old(Abs()), Timeout(t))
      ensures conn.Some? <==> old(idle) != []
    {
      StepKeepsInv(Abs(), Timeout(t));
      conn := TryTake(t);
    }

    /** The ConnGuard destructor: `return_conn`, which notifies while it holds the mutex. */
    method ReturnConn(t: int, pick: int)
      requires Valid() && Can(Abs(), Return(t, pick))
      modifies this
      ensures Valid() && Abs() == Do(old(Abs()), Return(t, pick))
      ensures idle == old(idle) + [old(held)[t]] && held == old(held) - {t}
    {
      StepKeepsInv(Abs(), Return(t, pick));
      idle, held := idle + [held[t]], held - {t};
      if pick in asleep {
        asleep, woken := asleep - {pick}, woken + {pick};
      }
    }

    /** The destructor closes exactly the connections no guard holds, each once. */
    method Destroy() returns (closed: seq<Conn>)
      requires Valid()
      modifies this
      ensures idle == [] && currentSize == 0 && held == old(held)
      ensures forall c :: c in old(created) ==> (c in closed <==> !IsHeld(old(held), c))
      ensures forall i, j :: 0 <= i < j < |closed| ==> closed[i] != closed[j]
    {
      closed := [];
      while idle != []
        invariant closed + idle == old(idle) && held == old(held)
        decreases |idle|
      {
        closed := closed + [idle[0]];
        idle := idle[1..];
      }
      currentSize := 0;
      assert closed == old(idle);
      HeldIsNotIdle(old(Abs()));
    }
  }
}
