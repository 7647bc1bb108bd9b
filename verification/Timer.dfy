/** The timer list: sorted by expiry, so that `tick` may stop at the first live entry. */
module Timer {

  datatype TimerNode = TimerNode(fd: int, expire: int, addr: int)

  const TIMESLOT := 5

  /** Three ticks of inactivity. */
  const IDLE_LIMIT := 3 * TIMESLOT

  type Nodes = seq<TimerNode>

  ghost predicate Sorted(l: Nodes) {
    forall i, j :: 0 <= i < j < |l| ==> l[i].expire <= l[j].expire
  }

  // ---------------------------------------------------------------- specification

  /** How many nodes of a sorted list expire no later than `e`. */
  function Rank(l: Nodes, e: int): (k: nat)
    ensures k <= |l|
    ensures k < |l| ==> l[k].expire > e
    ensures forall i :: 0 <= i < k ==> l[i].expire <= e
  {
    if l == [] || l[0].expire > e then 0 else 1 + Rank(l[1..], e)
  }

  /** Stable insertion: behind every node that expires no later, before every later one. */
  function Insert(l: Nodes, n: TimerNode): Nodes {
    var k := Rank(l, n.expire);
    l[..k] + [n] + l[k..]
  }

  function IndexOf(l: Nodes, fd: int): (k: nat)
    ensures k <= |l|
    ensures k < |l| ==> l[k].fd == fd
    ensures forall i :: 0 <= i < k ==> l[i].fd != fd
  {
    if l == [] || l[0].fd == fd then 0 else 1 + IndexOf(l[1..], fd)
  }

  /** The list without the first node of `fd`. */
  function Remove(l: Nodes, fd: int): Nodes {
    var k := IndexOf(l, fd);
    if k == |l| then l else l[..k] + l[k + 1..]
  }

  lemma RemoveAt(l: Nodes, fd: int, i: nat)
    requires i < |l| && l[i].fd == fd && forall j :: 0 <= j < i ==> l[j].fd != fd
    ensures IndexOf(l, fd) == i && Remove(l, fd) == l[..i] + l[i + 1..]
  {
  }

  /** `adjust_timer` at time `now`: the node moves to the place of its new expiry. */
  function Adjust(l: Nodes, fd: int, now: int): Nodes {
    var k := IndexOf(l, fd);
    if k == |l| then l else Insert(Remove(l, fd), TimerNode(fd, now + IDLE_LIMIT, l[k].addr))
  }

  /** The full scan of the prototype: every expired node goes, in list order. */
  function Expired(l: Nodes, now: int): seq<int> {
    if l == [] then []
    else (if l[0].expire <= now then [l[0].fd] else []) + Expired(l[1..], now)
  }

  function Kept(l: Nodes, now: int): Nodes {
    if l == [] then []
    else (if l[0].expire <= now then [] else [l[0]]) + Kept(l[1..], now)
  }

  function Fds(l: Nodes): seq<int> {
    if l == [] then [] else [l[0].fd] + Fds(l[1..])
  }

  // ---------------------------------------------------------------- sortedness

  lemma InsertSorted(l: Nodes, n: TimerNode)
    requires Sorted(l)
    ensures Sorted(Insert(l, n))
  {
    var k := Rank(l, n.expire);
    assert forall i :: k <= i < |l| ==> l[i].expire > n.expire by {
      assert k < |l| ==> l[k].expire > n.expire;
    }
  }

  lemma RemoveSorted(l: Nodes, fd: int)
    requires Sorted(l)
    ensures Sorted(Remove(l, fd))
  {
  }

  lemma {:induction false} KeptSorted(l: Nodes, now: int)
    requires Sorted(l)
    ensures Sorted(Kept(l, now))
    ensures forall n :: n in Kept(l, now) <==> n in l && n.expire > now
  {
    if l != [] {
      KeptSorted(l[1..], now);
      assert l == [l[0]] + l[1..];
      assert forall n :: n in l[1..] ==> l[0].expire <= n.expire;
    }
  }

  // ---------------------------------------------------------------- which descriptors are timed

  ghost predicate DistinctFds(l: Nodes) {
    forall i, j :: 0 <= i < j < |l| ==> l[i].fd != l[j].fd
  }

  ghost function FdsOf(l: Nodes): set<int> {
    set n | n in l :: n.fd
  }

  lemma InsertMember(l: Nodes, n: TimerNode, m: TimerNode)
    ensures m in Insert(l, n) <==> m in l || m == n
  {
    var k := Rank(l, n.expire);
    assert l == l[..k] + l[k..];
  }

  lemma InsertDistinct(l: Nodes, n: TimerNode)
    requires DistinctFds(l) && n.fd !in FdsOf(l)
    ensures DistinctFds(Insert(l, n))
  {
    assert forall i :: 0 <= i < |l| ==> l[i] in l && l[i].fd != n.fd;
  }

  lemma InsertNodes(l: Nodes, n: TimerNode)
    ensures forall m :: m in Insert(l, n) <==> m in l || m == n
    ensures FdsOf(Insert(l, n)) == FdsOf(l) + {n.fd}
    ensures DistinctFds(l) && n.fd !in FdsOf(l) ==> DistinctFds(Insert(l, n))
  {
    forall m ensures m in Insert(l, n) <==> m in l || m == n {
      InsertMember(l, n, m);
    }
    if DistinctFds(l) && n.fd !in FdsOf(l) {
      InsertDistinct(l, n);
    }
  }

  lemma RemoveMember(l: Nodes, fd: int, m: TimerNode)
    requires DistinctFds(l)
    ensures m in Remove(l, fd) <==> m in l && m.fd != fd
  {
    var k := IndexOf(l, fd);
    if k < |l| {
      assert l == l[..k] + [l[k]] + l[k + 1..];
      assert forall i :: k < i < |l| ==> l[i].fd != fd;
    }
  }

  lemma RemoveNodes(l: Nodes, fd: int)
    requires DistinctFds(l)
    ensures forall m :: m in Remove(l, fd) <==> m in l && m.fd != fd
    ensures FdsOf(Remove(l, fd)) == FdsOf(l) - {fd}
    ensures DistinctFds(Remove(l, fd))
    ensures fd !in FdsOf(l) ==> Remove(l, fd) == l
  {
    forall m ensures m in Remove(l, fd) <==> m in l && m.fd != fd {
      RemoveMember(l, fd, m);
    }
    var k := IndexOf(l, fd);
    if k < |l| {
      assert l[k] in l;
    }
  }

  /** Refreshing a descriptor changes its expiry and nothing else: same address, same neighbours. */
  lemma AdjustNodes(l: Nodes, fd: int, now: int)
    requires DistinctFds(l) && fd in FdsOf(l)
    ensures IndexOf(l, fd) < |l|
    ensures forall m :: m in Adjust(l, fd, now) <==>
              (m in l && m.fd != fd) || m == TimerNode(fd, now + IDLE_LIMIT, l[IndexOf(l, fd)].addr)
    ensures FdsOf(Adjust(l, fd, now)) == FdsOf(l)
  {
    var k := IndexOf(l, fd);
    assert k < |l| && l[k] in l;
    var node := TimerNode(fd, now + IDLE_LIMIT, l[k].addr);
    RemoveNodes(l, fd);
    InsertNodes(Remove(l, fd), node);
    assert forall m :: m in Adjust(l, fd, now) <==> (m in l && m.fd != fd) || m == node;
  }

  lemma {:induction false} ExpiredNodes(l: Nodes, now: int)
    requires DistinctFds(l)
    ensures forall m :: m in Kept(l, now) <==> m in l && m.expire > now
    ensures forall fd :: fd in Expired(l, now) <==> exists m :: m in l && m.fd == fd && m.expire <= now
    ensures DistinctFds(Kept(l, now))
  {
    if l != [] {
      ExpiredNodes(l[1..], now);
      assert l == [l[0]] + l[1..];
      assert forall m :: m in l[1..] ==> m.fd != l[0].fd;
    }
  }

  ghost predicate NoRepeat(fds: seq<int>) {
    forall i, j :: 0 <= i < j < |fds| ==> fds[i] != fds[j]
  }

  lemma NoRepeatCons(fd: int, rest: seq<int>)
    requires NoRepeat(rest) && fd !in rest
    ensures NoRepeat([fd] + rest)
  {
    assert forall i :: 0 <= i < |rest| ==> rest[i] in rest;
  }

  lemma {:induction false} ExpiredOnce(l: Nodes, now: int)
    requires DistinctFds(l)
    ensures NoRepeat(Expired(l, now))
  {
    if l != [] {
      ExpiredOnce(l[1..], now);
      ExpiredNodes(l[1..], now);
      assert forall m :: m in l[1..] ==> m.fd != l[0].fd;
      if l[0].expire <= now {
        NoRepeatCons(l[0].fd, Expired(l[1..], now));
      } else {
        assert [] + Expired(l[1..], now) == Expired(l[1..], now);
      }
    }
  }

  /** A refresh of a timed descriptor is a deletion and an insertion. */
  lemma AdjustIs(l: Nodes, fd: int, now: int) returns (n: TimerNode)
    requires fd in FdsOf(l)
    ensures Adjust(l, fd, now) == Insert(Remove(l, fd), n) && n.fd == fd && n.expire == now + IDLE_LIMIT
  {
    var m :| m in l && m.fd == fd;
    assert IndexOf(l, fd) < |l|;
    n := TimerNode(fd, now + IDLE_LIMIT, l[IndexOf(l, fd)].addr);
  }

  // ---------------------------------------------------------------- the early stop

  /** In a sorted list the expired nodes are a prefix: stopping at the first live node finds the
      same descriptors and leaves the same list as scanning everything. */
  lemma {:induction false} PrefixIsScan(l: Nodes, now: int, k: nat)
    requires Sorted(l) && k <= |l|
    requires forall i :: 0 <= i < k ==> l[i].expire <= now
    requires k < |l| ==> l[k].expire > now
    ensures Expired(l, now) == Fds(l[..k]) && Kept(l, now) == l[k..]
  {
    if l == [] {
    } else if k == 0 {
      NothingExpired(l, now);
    } else {
      PrefixIsScan(l[1..], now, k - 1);
      assert l[..k][1..] == l[1..][..k - 1];
      assert l[k..] == l[1..][k - 1..];
    }
  }

  lemma {:induction false} NothingExpired(l: Nodes, now: int)
    requires forall i :: 0 <= i < |l| ==> l[i].expire > now
    ensures Expired(l, now) == [] && Kept(l, now) == l
  {
    if l != [] {
      NothingExpired(l[1..], now);
      assert [l[0]] + l[1..] == l;
    }
  }

  lemma {:induction false} FdsAppend(a: Nodes, b: Nodes)
    ensures Fds(a + b) == Fds(a) + Fds(b)
  {
    if a == [] {
      assert a + b == b;
    } else {
      assert (a + b)[1..] == a[1..] + b;
      FdsAppend(a[1..], b);
    }
  }

  // ---------------------------------------------------------------- the timer

  class Timer {
    var list: Nodes

    ghost predicate Valid()
      reads this
    {
      Sorted(list)
    }

    constructor ()
      ensures Valid() && list == []
    {
      list := [];
    }

    method AddTimer(fd: int, addr: int, now: int)
      requires Valid()
      modifies this
      ensures Valid() && list == Insert(old(list), TimerNode(fd, now + IDLE_LIMIT, addr))
    {
      var node := TimerNode(fd, now + IDLE_LIMIT, addr);
      InsertSorted(list, node);
      var i := 0;
      while i < |list|
        invariant 0 <= i <= |list|
        invariant forall j :: 0 <= j < i ==> list[j].expire <= node.expire
      {
        if node.expire < list[i].expire {
          break;
        }
        i := i + 1;
      }
      assert i == Rank(list, node.expire);
      list := list[..i] + [node] + list[i..];
    }

    method AdjustTimer(fd: int, now: int)
      requires Valid()
      modifies this
      ensures Valid() && list == Adjust(old(list), fd, now)
    {
      var i := 0;
      while i < |list|
        invariant 0 <= i <= |list| && list == old(list)
        invariant forall j :: 0 <= j < i ==> list[j].fd != fd
      {
        if list[i].fd == fd {
          RemoveAt(list, fd, i);
          RemoveSorted(list, fd);
          var addr := list[i].addr;
          list := list[..i] + list[i + 1..];
          AddTimer(fd, addr, now);
          return;
        }
        i := i + 1;
      }
    }

    method DelTimer(fd: int)
      requires Valid()
      modifies this
      ensures Valid() && list == Remove(old(list), fd)
    {
      RemoveSorted(list, fd);
      var i := 0;
      while i < |list|
        invariant 0 <= i <= |list| && list == old(list)
        invariant forall j :: 0 <= j < i ==> list[j].fd != fd
      {
        if list[i].fd == fd {
          RemoveAt(list, fd, i);
          list := list[..i] + list[i + 1..];
          return;
        }
        i := i + 1;
      }
    }

    /** Pops expired nodes off the front and stops at the first live one, with the outcome of the
        prototype's full scan. */
    method Tick(now: int) returns (expired: seq<int>)
      requires Valid()
      modifies this
      ensures Valid()
      ensures expired == Expired(old(list), now) && list == Kept(old(list), now)
    {
      expired := [];
      ghost var k := 0;
      while list != [] && list[0].expire <= now
        invariant 0 <= k <= |old(list)| && list == old(list)[k..]
        invariant expired == Fds(old(list)[..k])
        invariant forall i :: 0 <= i < k ==> old(list)[i].expire <= now
        decreases |list|
      {
        assert old(list)[..k + 1] == old(list)[..k] + [old(list)[k]];
        FdsAppend(old(list)[..k], [old(list)[k]]);
        assert Fds([old(list)[k]]) == [list[0].fd] + Fds([old(list)[k]][1..]);
        expired := expired + [list[0].fd];
        list := list[1..];
        k := k + 1;
      }
      PrefixIsScan(old(list), now, k);
      KeptSorted(old(list), now);
    }
  }

  /** The prototype, which looks at every node. */
  class TimerTest {
    var list: Nodes

    method Tick(now: int) returns (expired: seq<int>)
      modifies this
      ensures expired == Expired(old(list), now) && list == Kept(old(list), now)
    {
      expired := [];
      var i := 0;
      while i < |list|
        invariant 0 <= i <= |list|
        invariant Expired(old(list), now) == expired + Expired(list[i..], now)
        invariant Kept(old(list), now) == list[..i] + Kept(list[i..], now)
        decreases |list| - i
      {
        if list[i].expire <= now {
          assert list[i..][1..] == (list[..i] + list[i + 1..])[i..];
          assert (list[..i] + list[i + 1..])[..i] == list[..i];
          expired := expired + [list[i].fd];
          list := list[..i] + list[i + 1..];
        } else {
          assert list[i..][1..] == list[i + 1..];
          assert list[..i + 1] == list[..i] + [list[i]];
          i := i + 1;
        }
      }
      assert list[..i] == list;
    }
  }

  // ---------------------------------------------------------------- runs

  /** What the server may do to the timer, with the clock reading it does it at. */
  datatype Event =
    | Add(fd: int, addr: int, now: int)
    | Touch(fd: int, now: int)
    | Del(fd: int)
    | TickAt(now: int)

  function After(l: Nodes, e: Event): Nodes {
    match e
    case Add(fd, addr, now) => Insert(l, TimerNode(fd, now + IDLE_LIMIT, addr))
    case Touch(fd, now) => Adjust(l, fd, now)
    case Del(fd) => Remove(l, fd)
    case TickAt(now) => Kept(l, now)
  }

  /** The list with an early-stopping tick, and the descriptors each tick reported. */
  function FastRun(l: Nodes, events: seq<Event>): (Nodes, seq<seq<int>>)
    decreases |events|
  {
    if events == [] then (l, [])
    else if events[0].TickAt? then
      var k := Rank(l, events[0].now);
      var (m, reports) := FastRun(l[k..], events[1..]);
      (m, [Fds(l[..k])] + reports)
    else FastRun(After(l, events[0]), events[1..])
  }

  function ScanRun(l: Nodes, events: seq<Event>): (Nodes, seq<seq<int>>)
    decreases |events|
  {
    if events == [] then (l, [])
    else
      var (m, reports) := ScanRun(After(l, events[0]), events[1..]);
      (m, if events[0].TickAt? then [Expired(l, events[0].now)] + reports else reports)
  }

  lemma AdjustSorted(l: Nodes, fd: int, now: int)
    requires Sorted(l)
    ensures Sorted(Adjust(l, fd, now))
  {
    var k := IndexOf(l, fd);
    if k < |l| {
      RemoveSorted(l, fd);
      InsertSorted(Remove(l, fd), TimerNode(fd, now + IDLE_LIMIT, l[k].addr));
    }
  }

  lemma StaysSorted(l: Nodes, e: Event)
    requires Sorted(l)
    ensures Sorted(After(l, e))
  {
    match e
    case Add(fd, addr, now) => InsertSorted(l, TimerNode(fd, now + IDLE_LIMIT, addr));
    case Touch(fd, now) => AdjustSorted(l, fd, now);
    case Del(fd) => RemoveSorted(l, fd);
    case TickAt(now) => KeptSorted(l, now);
  }

  /** Refinement over whole runs, for any clock readings, even backwards: every tick reports the
      same descriptors and leaves the same list as the full scan. */
  lemma {:induction false} FastRunIsScanRun(l: Nodes, events: seq<Event>)
    requires Sorted(l)
    ensures FastRun(l, events) == ScanRun(l, events)
    decreases |events|
  {
    if events != [] {
      StaysSorted(l, events[0]);
      FastRunIsScanRun(After(l, events[0]), events[1..]);
      if events[0].TickAt? {
        PrefixIsScan(l, events[0].now, Rank(l, events[0].now));
      }
    }
  }

  // ---------------------------------------------------------------- the idle window

  /** A run with a clock: `last` remembers when each timed descriptor was last active. */
  datatype Clocked = Clocked(l: Nodes, last: map<int, int>, clock: int, lastTick: int)

  predicate Timed(l: Nodes, fd: int) {
    IndexOf(l, fd) < |l|
  }

  function Act(s: Clocked, e: Event): Clocked {
    var l := After(s.l, e);
    match e
    case Add(fd, _, now) => Clocked(l, s.last[fd := now], now, s.lastTick)
    case Touch(fd, now) => Clocked(l, if Timed(s.l, fd) then s.last[fd := now] else s.last, now, s.lastTick)
    case Del(fd) => s.(l := l)
    case TickAt(now) => Clocked(l, s.last, now, now)
  }

  /** The clock does not run backwards, and a descriptor is added only while it is not timed. */
  predicate Forward(s: Clocked, e: Event) {
    match e
    case Add(fd, _, now) => now >= s.clock && !Timed(s.l, fd)
    case Touch(_, now) => now >= s.clock
    case Del(_) => true
    case TickAt(now) => s.clock <= now
  }

  ghost predicate ClockInv(s: Clocked) {
    s.lastTick <= s.clock && DistinctFds(s.l) && Sorted(s.l) && InStep(s.l, s.last, s.clock, s.lastTick)
  }

  /** Every expiry is the last activity plus IDLE_LIMIT, and lies ahead of the last tick. */
  ghost predicate InStep(l: Nodes, last: map<int, int>, clock: int, lastTick: int) {
    forall i :: 0 <= i < |l| ==>
      && l[i].fd in last && l[i].expire == last[l[i].fd] + IDLE_LIMIT
      && lastTick < l[i].expire <= clock + IDLE_LIMIT
  }

  /** With a clock that does not run backwards every insertion is at the end, so the list is in
      order of last activity. */
  lemma InsertsAtEnd(l: Nodes, n: TimerNode)
    requires forall i :: 0 <= i < |l| ==> l[i].expire <= n.expire
    ensures Insert(l, n) == l + [n]
  {
    assert Rank(l, n.expire) == |l|;
  }

  /** Activity on a descriptor that is not in the list `l`. */
  lemma ActiveStep(l: Nodes, last: map<int, int>, clock: int, lastTick: int, n: TimerNode, now: int)
    requires DistinctFds(l) && Sorted(l) && InStep(l, last, clock, lastTick)
    requires lastTick <= clock <= now && n.expire == now + IDLE_LIMIT
    requires forall i :: 0 <= i < |l| ==> l[i].fd != n.fd
    ensures Insert(l, n) == l + [n]
    ensures DistinctFds(l + [n]) && Sorted(l + [n]) && InStep(l + [n], last[n.fd := now], now, lastTick)
  {
    InsertsAtEnd(l, n);
  }

  lemma RemoveStep(l: Nodes, last: map<int, int>, clock: int, lastTick: int, fd: int)
    requires DistinctFds(l) && Sorted(l) && InStep(l, last, clock, lastTick)
    ensures var m := Remove(l, fd);
            && DistinctFds(m) && Sorted(m) && InStep(m, last, clock, lastTick)
            && forall i :: 0 <= i < |m| ==> m[i].fd != fd
  {
    var k := IndexOf(l, fd);
    var m := Remove(l, fd);
    RemoveSorted(l, fd);
    if k < |l| {
      assert forall i :: 0 <= i < |m| ==> m[i] == l[if i < k then i else i + 1];
    }
  }

  lemma TouchStep(l: Nodes, last: map<int, int>, clock: int, lastTick: int, fd: int, now: int)
    requires DistinctFds(l) && Sorted(l) && InStep(l, last, clock, lastTick)
    requires lastTick <= clock <= now && Timed(l, fd)
    ensures var m := Adjust(l, fd, now);
            DistinctFds(m) && Sorted(m) && InStep(m, last[fd := now], now, lastTick)
  {
    RemoveStep(l, last, clock, lastTick, fd);
    var node := TimerNode(fd, now + IDLE_LIMIT, l[IndexOf(l, fd)].addr);
    ActiveStep(Remove(l, fd), last, clock, lastTick, node, now);
  }

  lemma TickStep(l: Nodes, last: map<int, int>, clock: int, lastTick: int, now: int)
    requires DistinctFds(l) && Sorted(l) && InStep(l, last, clock, lastTick)
    requires clock <= now
    ensures var m := Kept(l, now);
            DistinctFds(m) && Sorted(m) && InStep(m, last, now, now)
  {
    var k := Rank(l, now);
    PrefixIsScan(l, now, k);
    assert forall i :: k <= i < |l| ==> l[i].expire >= l[k].expire;
  }

  lemma ClockStep(s: Clocked, e: Event)
    requires ClockInv(s) && Forward(s, e)
    ensures ClockInv(Act(s, e))
  {
    match e
    case Add(fd, addr, now) =>
      ActiveStep(s.l, s.last, s.clock, s.lastTick, TimerNode(fd, now + IDLE_LIMIT, addr), now);
    case Touch(fd, now) =>
      if Timed(s.l, fd) {
        TouchStep(s.l, s.last, s.clock, s.lastTick, fd, now);
      }
    case Del(fd) =>
      RemoveStep(s.l, s.last, s.clock, s.lastTick, fd);
    case TickAt(now) =>
      TickStep(s.l, s.last, s.clock, s.lastTick, now);
  }

  function Reach(s: Clocked, events: seq<Event>): Clocked
    decreases |events|
  {
    if events == [] then s else Reach(Act(s, events[0]), events[1..])
  }

  predicate AllForward(s: Clocked, events: seq<Event>)
    decreases |events|
  {
    events == [] || (Forward(s, events[0]) && AllForward(Act(s, events[0]), events[1..]))
  }

  lemma {:induction false} ClockRun(s: Clocked, events: seq<Event>)
    requires ClockInv(s) && AllForward(s, events)
    ensures ClockInv(Reach(s, events))
    decreases |events|
  {
    if events != [] {
      ClockStep(s, events[0]);
      ClockRun(Act(s, events[0]), events[1..]);
    }
  }

  /** The list in order of last activity. */
  ghost predicate ByActivity(s: Clocked) {
    forall i, j :: 0 <= i < j < |s.l| ==>
      s.l[i].fd in s.last && s.l[j].fd in s.last && s.last[s.l[i].fd] <= s.last[s.l[j].fd]
  }

  lemma OrderedByActivity(s: Clocked)
    requires ClockInv(s)
    ensures ByActivity(s)
  {
  }

  /** Where the node of an activity goes. */
  function Appended(s: Clocked, e: Event): Nodes {
    match e
    case Add(fd, addr, now) => s.l + [TimerNode(fd, now + IDLE_LIMIT, addr)]
    case Touch(fd, now) =>
      if Timed(s.l, fd) then Remove(s.l, fd) + [TimerNode(fd, now + IDLE_LIMIT, s.l[IndexOf(s.l, fd)].addr)] else s.l
    case _ => After(s.l, e)
  }

  lemma TouchAppends(s: Clocked, fd: int, now: int)
    requires ClockInv(s) && Forward(s, Touch(fd, now))
    ensures After(s.l, Touch(fd, now)) == Appended(s, Touch(fd, now))
  {
    if Timed(s.l, fd) {
      RemoveStep(s.l, s.last, s.clock, s.lastTick, fd);
      InsertsAtEnd(Remove(s.l, fd), TimerNode(fd, now + IDLE_LIMIT, s.l[IndexOf(s.l, fd)].addr));
    }
  }

  /** In every run with a clock that does not run backwards the list is in order of last activity,
      and the next activity, on a new descriptor or a timed one, goes to its end. */
  lemma ActivityOrder(t0: int, events: seq<Event>, e: Event)
    requires AllForward(Clocked([], map[], t0, t0), events)
    requires Forward(Reach(Clocked([], map[], t0, t0), events), e)
    ensures var s := Reach(Clocked([], map[], t0, t0), events); ByActivity(s) && After(s.l, e) == Appended(s, e)
  {
    var s := Reach(Clocked([], map[], t0, t0), events);
    ClockRun(Clocked([], map[], t0, t0), events);
    OrderedByActivity(s);
    match e
    case Add(fd, addr, now) => InsertsAtEnd(s.l, TimerNode(fd, now + IDLE_LIMIT, addr));
    case Touch(fd, now) => TouchAppends(s, fd, now);
    case _ =>
  }

  lemma {:induction false} InExpired(l: Nodes, now: int, fd: int)
    ensures fd in Expired(l, now) <==> exists i :: 0 <= i < |l| && l[i].fd == fd && l[i].expire <= now
  {
    if l != [] {
      InExpired(l[1..], now, fd);
      if i :| 0 <= i < |l| && l[i].fd == fd && l[i].expire <= now {
        if i > 0 {
          assert l[1..][i - 1] == l[i];
        }
      }
    }
  }

  /** Idle window, over every run that starts with an empty list: a tick at `now` reports exactly
      the timed descriptors that have been idle for 15 seconds, and none of them has been idle for
      20. */
  lemma IdleWindow(t0: int, events: seq<Event>, now: int, fd: int)
    requires AllForward(Clocked([], map[], t0, t0), events)
    requires Forward(Reach(Clocked([], map[], t0, t0), events), TickAt(now))
    requires now <= Reach(Clocked([], map[], t0, t0), events).lastTick + 5
    ensures var s := Reach(Clocked([], map[], t0, t0), events);
            && (Timed(s.l, fd) ==> fd in s.last)
            && (fd in Expired(s.l, now) <==> Timed(s.l, fd) && s.last[fd] + 15 <= now)
            && (Timed(s.l, fd) ==> now < s.last[fd] + 20)
  {
    var s := Reach(Clocked([], map[], t0, t0), events);
    ClockRun(Clocked([], map[], t0, t0), events);
    InExpired(s.l, now, fd);
  }
}
