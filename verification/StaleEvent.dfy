/** A run that is not safe: an event outlives the connection it was meant for. */
module StaleEvent {
  import opened Text
  import opened Reactor
  import opened Ownership
  import T = Timer

  /** The server with one client on descriptor 7 that has been silent since time 0; its next
      request and a new connection arrive together with the alarm of time 15. */
  function Quiet(): State {
    State(map[7 := NewConn(0)], map[7 := In], [], None, [], multiset{}, [T.TimerNode(7, T.IDLE_LIMIT, 0)], 1, [])
  }

  function Batch(): seq<Event> {
    [Pipe, Listen, Client(7, Readable)]
  }

  lemma Step(s: State, op: Op, rest: seq<Op>)
    requires Can(s, op)
    ensures Run(s, [op] + rest) == Run(Do(s, op), rest)
  {
    assert ([op] + rest)[1..] == rest;
  }

  lemma ReachQuiet(rest: seq<Op>)
    ensures Run(Start(), [Wait([Listen])] + ([Dispatch] + ([Accept(7, 0, 0)] + ([AcceptDone] + rest))))
            == Run(Quiet(), rest)
  {
    var s1 := Start().(batch := [Listen]);
    assert [Listen][1..] == [];
    assert InBatch([Listen], 7) == 0 + InBatch([Listen][1..], 7);
    assert Do(Start(), Wait([Listen])) == s1;
    Step(Start(), Wait([Listen]), [Dispatch] + ([Accept(7, 0, 0)] + ([AcceptDone] + rest)));
    var s2 := Start().(main := Some(Listen));
    assert Do(s1, Dispatch) == s2;
    Step(s1, Dispatch, [Accept(7, 0, 0)] + ([AcceptDone] + rest));
    var s3 := Quiet().(main := Some(Listen));
    assert Do(s2, Accept(7, 0, 0)) == s3;
    Step(s2, Accept(7, 0, 0), [AcceptDone] + rest);
    Step(s3, AcceptDone, rest);
  }

  /** The alarm is handled first: descriptor 7 is closed, its event is still in the batch. */
  function Alarmed(): State {
    State(map[], map[], [Listen, Client(7, Readable)], None, [], multiset{}, [], 0, [Closed(NewConn(0))])
  }

  lemma HandleAlarm(rest: seq<Op>)
    ensures Run(Quiet(), [Wait(Batch())] + ([Dispatch] + ([Tick(15)] + rest))) == Run(Alarmed(), rest)
  {
    var a := Do(Quiet(), Wait(Batch()));
    assert InBatch(Batch(), 7) == 1 by {
      assert Batch()[1..] == [Listen, Client(7, Readable)];
      assert Batch()[1..][1..] == [Client(7, Readable)];
      assert InBatch([Client(7, Readable)], 7) == 1 + InBatch([Client(7, Readable)][1..], 7);
    }
    assert a.armed == map[];
    Step(Quiet(), Wait(Batch()), [Dispatch] + ([Tick(15)] + rest));
    var b := Do(a, Dispatch);
    Step(a, Dispatch, [Tick(15)] + rest);
    var l := Quiet().timer;
    assert l[1..] == [];
    assert T.Expired(l, 15) == [7] + T.Expired(l[1..], 15) && T.Kept(l, 15) == [] + T.Kept(l[1..], 15);
    var due := T.Expired(l, 15);
    assert due == [7] && due[1..] == [];
    var u := b.(main := None, timer := []);
    assert CloseAll(u, due) == CloseAll(Close(u, 7), due[1..]) == Close(u, 7);
    assert Close(u, 7) == Alarmed();
    Step(b, Tick(15), rest);
  }

  /** The new client is accepted on the same descriptor, and then the old event is dispatched. */
  function Confused(): State {
    State(map[7 := NewConn(15)], map[7 := In], [], Some(Client(7, Readable)), [], multiset{},
          [T.TimerNode(7, 15 + T.IDLE_LIMIT, 1)], 1, [Closed(NewConn(0))])
  }

  lemma Confuse()
    ensures Run(Alarmed(), [Dispatch] + ([Accept(7, 1, 15)] + ([AcceptDone] + ([Dispatch] + [])))) == Some(Confused())
  {
    var s := Alarmed();
    var s1 := s.(main := Some(Listen), batch := [Client(7, Readable)]);
    assert Do(s, Dispatch) == s1;
    Step(s, Dispatch, [Accept(7, 1, 15)] + ([AcceptDone] + ([Dispatch] + [])));
    var s2 := Confused().(main := Some(Listen), batch := [Client(7, Readable)]);
    assert Do(s1, Accept(7, 1, 15)) == s2;
    Step(s1, Accept(7, 1, 15), [AcceptDone] + ([Dispatch] + []));
    var s3 := s2.(main := None);
    Step(s2, AcceptDone, [Dispatch] + []);
    assert Do(s3, Dispatch) == Confused();
    Step(s3, Dispatch, []);
  }

  /** Why a tick must close only armed descriptors: this reachable state has a fresh connection
      that is both armed and in the hands of the main thread, which then reads nothing from it and
      closes it. */
  lemma StaleEventClosesFreshConnection() returns (ops: seq<Op>, s: State)
    ensures Run(Start(), ops) == Some(s)
    ensures 7 in s.conns && s.conns[7] == NewConn(15)
    ensures Owners(s, 7) == 2
    ensures Can(s, ReadNow([], 15)) && 7 !in Do(s, ReadNow([], 15)).conns
  {
    s := Confused();
    var last := [Dispatch] + ([Accept(7, 1, 15)] + ([AcceptDone] + ([Dispatch] + [])));
    var middle := [Wait(Batch())] + ([Dispatch] + ([Tick(15)] + last));
    ops := [Wait([Listen])] + ([Dispatch] + ([Accept(7, 0, 0)] + ([AcceptDone] + middle)));
    ReachQuiet(middle);
    HandleAlarm(last);
    Confuse();
  }
}
