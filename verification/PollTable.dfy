/** The poll server's table: an array compacted by swap-remove while it is being walked. */
module PollTable {

  /** One `pollfd`; `readable` is `revents & POLLIN`. */
  datatype PollFd = PollFd(fd: int, readable: bool)

  const CAPACITY := 1024

  ghost predicate Distinct(t: seq<PollFd>) {
    forall i, j :: 0 <= i < j < |t| ==> t[i].fd != t[j].fd
  }

  ghost function FdSet(t: seq<PollFd>): set<int> {
    set e | e in t :: e.fd
  }

  /** The table after one pass over the entries examined: those that were readable and whose peer
      had hung up are gone. */
  function Survivors(examined: seq<PollFd>, hungUp: set<int>): seq<PollFd> {
    if examined == [] then []
    else
      var e := examined[|examined| - 1];
      Survivors(examined[..|examined| - 1], hungUp) + if e.readable && e.fd in hungUp then [] else [e]
  }

  /** `fds[i] = fds[nfds - 1]; nfds--`. */
  ghost function SwapRemove(t: seq<PollFd>, i: nat): seq<PollFd>
    requires i < |t|
  {
    t[i := t[|t| - 1]][..|t| - 1]
  }

  lemma SwapRemoveBag(t: seq<PollFd>, i: nat)
    requires i < |t|
    ensures multiset(SwapRemove(t, i)[i..]) == multiset(t[i..]) - multiset{t[i]}
  {
    var last := |t| - 1;
    var r := SwapRemove(t, i);
    if i < last {
      assert r[i..] == [t[last]] + t[i + 1..last];
      assert t[i..] == [t[i]] + t[i + 1..last] + [t[last]];
    } else {
      assert r[i..] == [];
      assert t[i..] == [t[i]];
    }
  }

  lemma SwapRemoveFds(t: seq<PollFd>, i: nat)
    requires i < |t| && Distinct(t)
    ensures Distinct(SwapRemove(t, i))
    ensures FdSet(SwapRemove(t, i)) == FdSet(t) - {t[i].fd}
  {
    var r := SwapRemove(t, i);
    var last := |t| - 1;
    assert forall e :: e in r ==> e in t && e.fd != t[i].fd by {
      assert forall k :: 0 <= k < |r| ==> r[k] == if k == i then t[last] else t[k];
    }
    forall e | e in t && e.fd != t[i].fd ensures e in r {
      var k :| 0 <= k < |t| && t[k] == e;
      assert r[if k == last then i else k] == e;
    }
  }

  lemma SameFds(t: seq<PollFd>, u: seq<PollFd>)
    requires |u| == |t| && forall i :: 0 <= i < |t| ==> u[i].fd == t[i].fd
    ensures FdSet(u) == FdSet(t) && (Distinct(t) ==> Distinct(u))
  {
    forall fd ensures fd in FdSet(u) <==> fd in FdSet(t) {
      if fd in FdSet(u) {
        var i :| 0 <= i < |u| && u[i].fd == fd;
        assert t[i] in t;
      }
      if fd in FdSet(t) {
        var i :| 0 <= i < |t| && t[i].fd == fd;
        assert u[i] in u;
      }
    }
  }

  lemma SurvivorsSnoc(examined: seq<PollFd>, hungUp: set<int>, e: PollFd)
    ensures Survivors(examined + [e], hungUp) ==
            Survivors(examined, hungUp) + if e.readable && e.fd in hungUp then [] else [e]
  {
    assert (examined + [e])[..|examined|] == examined;
  }

  /** Whatever the order of examination, an entry survives unless it was readable and hung up. */
  lemma {:induction false} SurvivorsFilter(examined: seq<PollFd>, hungUp: set<int>, e: PollFd)
    ensures multiset(Survivors(examined, hungUp))[e] ==
            if e.readable && e.fd in hungUp then 0 else multiset(examined)[e]
  {
    if examined != [] {
      var k := |examined| - 1;
      assert examined == examined[..k] + [examined[k]];
      SurvivorsFilter(examined[..k], hungUp, e);
    }
  }

  // ---------------------------------------------------------------- what a slot remembers

  /** What `poll` writes: `revents` of every entry in use. */
  function Polled(t: seq<PollFd>, ready: set<int>): (r: seq<PollFd>)
    ensures |r| == |t|
    ensures forall i :: 0 <= i < |t| ==> r[i] == PollFd(t[i].fd, t[i].fd in ready)
  {
    seq(|t|, i requires 0 <= i < |t| => PollFd(t[i].fd, t[i].fd in ready))
  }

  /** Of the tables a server had, in order: was the entry that was last at index `k` readable? A slot
      that was never used is zeroed. */
  ghost function LastFlag(past: seq<seq<PollFd>>, k: nat): bool
    decreases |past|
  {
    if past == [] then false
    else
      var t := past[|past| - 1];
      if k < |t| then t[k].readable else LastFlag(past[..|past| - 1], k)
  }

  lemma LastFlagStep(past: seq<seq<PollFd>>, t: seq<PollFd>, k: nat)
    ensures LastFlag(past + [t], k) == if k < |t| then t[k].readable else LastFlag(past, k)
  {
    assert (past + [t])[..|past|] == past;
  }

  class PollServer {
    const listenfd: int
    const fds: array<PollFd>
    var nfds: nat
    var clients: set<int> // client sockets this process holds open
    ghost var past: seq<seq<PollFd>> // every table there was, the current one last

    ghost function Table(): seq<PollFd>
      reads this, fds
      requires nfds <= fds.Length
    {
      fds[..nfds]
    }

    /** The listening socket stays at index 0, no descriptor occurs twice, and the table is the
        listening socket plus the open clients. */
    ghost predicate Valid()
      reads this, fds
    {
      && fds.Length == CAPACITY && 1 <= nfds <= CAPACITY
      && fds[0].fd == listenfd && listenfd !in clients
      && Distinct(Table()) && FdSet(Table()) == clients + {listenfd}
      && Remembered()
    }

    /** A slot that is not in use still has the flag of the entry that was last there. */
    ghost predicate Remembered()
      reads this, fds
      requires nfds <= fds.Length
    {
      && past != [] && past[|past| - 1] == Table()
      && forall k :: nfds <= k < fds.Length ==> fds[k].readable == LastFlag(past, k)
    }

    constructor (listenfd: int)
      ensures Valid() && clients == {} && fresh(fds) && this.listenfd == listenfd
      ensures Table() == [PollFd(listenfd, false)]
    {
      this.listenfd := listenfd;
      fds := new PollFd[CAPACITY](_ => PollFd(0, false));
      nfds := 1;
      clients := {};
      past := [[PollFd(listenfd, false)]];
      new;
      fds[0] := PollFd(listenfd, false);
      assert Table() == [fds[0]];
      assert past[..0] == [];
    }

    /** `poll`: the kernel says which entries in use are readable, and touches no other slot. */
    method Poll(ready: set<int>)
      requires Valid()
      modifies this`past, fds
      ensures Valid() && Table() == Polled(old(Table()), ready)
      ensures past == old(past) + [Table()]
    {
      ghost var t, was := Table(), fds[..];
      assert forall k :: nfds <= k < fds.Length ==> was[k].readable == LastFlag(past, k) by {
        assert forall k :: nfds <= k < fds.Length ==> was[k] == fds[k];
      }
      var i: nat := 0;
      while i < nfds
        invariant i <= nfds && past == old(past)
        invariant forall k :: 0 <= k < i ==> fds[k] == Polled(t, ready)[k]
        invariant forall k :: i <= k < fds.Length ==> fds[k] == was[k]
      {
        fds[i] := PollFd(fds[i].fd, fds[i].fd in ready);
        i := i + 1;
      }
      ghost var u := Polled(t, ready);
      assert Table() == u;
      past := past + [u];
      SameFds(t, u);
      forall k | nfds <= k < fds.Length ensures fds[k].readable == LastFlag(past, k) {
        LastFlagStep(old(past), u, k);
      }
    }

    /** Appends an accepted client. Only `fd` and `events` of the slot are written: `revents` is
        what the previous user of the slot left there. */
    method Append(client: int)
      requires Valid() && client !in clients && client != listenfd && nfds < CAPACITY
      modifies this`nfds, this`clients, this`past, fds
      ensures Valid() && clients == old(clients) + {client}
      ensures Table() == old(Table()) + [PollFd(client, LastFlag(old(past), old(nfds)))]
      ensures past == old(past) + [Table()]
    {
      ghost var t := Table();
      fds[nfds] := fds[nfds].(fd := client);
      nfds := nfds + 1;
      clients := clients + {client};
      var e := fds[nfds - 1];
      assert Table() == t + [e];
      assert forall k :: 0 <= k < |t| ==> t[k] in t && t[k].fd in FdSet(t);
      past := past + [t + [e]];
      forall k | nfds <= k < fds.Length ensures fds[k].readable == LastFlag(past, k) {
        LastFlagStep(old(past), t + [e], k);
      }
    }

    method Drop(i: nat)
      requires Valid() && 1 <= i < nfds
      modifies this`nfds, this`clients, this`past, fds
      ensures Valid() && clients == old(clients) - {old(fds[i]).fd}
      ensures Table() == SwapRemove(old(Table()), i)
      ensures past == old(past) + [Table()]
      ensures LastFlag(past, nfds) == old(fds[nfds - 1].readable) // the freed slot keeps its revents
    {
      ghost var t := Table();
      SwapRemoveFds(t, i);
      assert t[0].fd != t[i].fd;
      clients := clients - {fds[i].fd};
      fds[i] := fds[nfds - 1];
      nfds := nfds - 1;
      ghost var r := SwapRemove(t, i);
      assert Table() == r;
      past := past + [r];
      forall k | nfds <= k < fds.Length ensures fds[k].readable == LastFlag(past, k) {
        LastFlagStep(old(past), r, k);
      }
    }

    /** The body of the loop for index `i`; `next` is where the loop goes on. */
    method Examine(i: nat, accepted: int, hungUp: set<int>) returns (e: PollFd, next: nat)
      requires Valid() && i < nfds && listenfd !in hungUp
      requires i == 0 && fds[i].readable ==> accepted !in clients && accepted != listenfd
      modifies this`nfds, this`clients, this`past, fds
      ensures Valid() && e == old(fds[i])
      ensures i == 0 ==> next == 1 && Table() == Grown(old(Table()), accepted, old(Stale()))
      ensures i > 0 ==> (next, Table()) == Compacted(old(Table()), i, hungUp)
      ensures past == if Table() == old(Table()) then old(past) else old(past) + [Table()]
    {
      e := fds[i];
      next := i + 1;
      if e.readable {
        if e.fd == listenfd {
          assert i == 0;
          if accepted > 0 && nfds < CAPACITY {
            Append(accepted);
          }
        } else if e.fd in hungUp {
          Drop(i);
          next := i;
        }
      }
    }

    /** What an accepted client will find in `revents`: the flag of the entry that was last in the
        slot it gets. */
    ghost function Stale(): bool
      reads this
    {
      LastFlag(past, nfds)
    }

    /** One pass over the table. `accepted` is what `accept` returns if the listening socket is
        readable, `hungUp` the clients whose `recv` returns 0 or less. `examined` lists the entries
        the loop looked at, in order: every entry present or appended exactly once, despite
        swap-remove; and exactly the readable ones that hung up leave the table. */
    method Pass(accepted: int, hungUp: set<int>) returns (examined: seq<PollFd>)
      requires Valid() && accepted !in clients && accepted != listenfd && listenfd !in hungUp
      modifies this`nfds, this`clients, this`past, fds
      ensures Valid()
      ensures var t := old(Table());
              // a positive descriptor is accepted as long as there is a slot
              var grown := if old(fds[0]).readable && accepted > 0 && |t| < 1024
                           then t + [PollFd(accepted, old(Stale()))] else t;
              && multiset(examined) == multiset(grown)
              && forall e :: multiset(Table())[e] == if e.readable && e.fd in hungUp then 0 else multiset(grown)[e]
    {
      examined := [];
      ghost var table := Grown(Table(), accepted, Stale());
      var i: nat := 0;
      while i < nfds
        invariant Valid() && i <= nfds
        invariant i == 0 ==> examined == [] && clients == old(clients) && Grown(Table(), accepted, Stale()) == table
        invariant i > 0 ==> Walked(Table(), i, examined, table, hungUp)
        decreases i == 0, nfds - i
      {
        var e, next := OneTurn(i, accepted, hungUp, examined, table);
        examined := examined + [e];
        i := next;
      }
      assert Table()[..i] == Table() && Table()[i..] == [];
      forall e {
        SurvivorsFilter(examined, hungUp, e);
      }
    }

    /** One turn of the pass; `table` is what the table looks like once `accept` has been tried. */
    method OneTurn(i: nat, accepted: int, hungUp: set<int>, ghost examined: seq<PollFd>, ghost table: seq<PollFd>)
      returns (e: PollFd, next: nat)
      requires Valid() && i < nfds && listenfd !in hungUp
      requires i == 0 ==> accepted !in clients && accepted != listenfd
      requires i == 0 ==> examined == [] && Grown(Table(), accepted, Stale()) == table
      requires i > 0 ==> Walked(Table(), i, examined, table, hungUp)
      modifies this`nfds, this`clients, this`past, fds
      ensures Valid() && 0 < next <= nfds && (i > 0 ==> nfds - next < old(nfds) - i)
      ensures Walked(Table(), next, examined + [e], table, hungUp)
    {
      ghost var t := Table();
      e, next := Examine(i, accepted, hungUp);
      if i == 0 {
        WalkFirst(t, hungUp, table);
      } else {
        WalkOn(t, i, examined, table, hungUp);
      }
    }
  }

  /** A pass in which the listening socket is the only entry and hands out `a`. */
  method AcceptAlone(s: PollServer, a: int) returns (e: PollFd)
    requires s.Valid() && |s.Table()| == 1 && a > 0 && a != s.listenfd
    modifies s`nfds, s`clients, s`past, s.fds
    ensures s.Valid() && s.Table() == [PollFd(s.listenfd, true), e]
    ensures e == PollFd(a, old(LastFlag(s.past, 1)))
  {
    assert s.Table()[0].fd == s.listenfd;
    NoClients(s);
    s.Poll({s.listenfd});
    LastFlagStep(old(s.past), s.Table(), 1);
    var next: nat;
    e, next := s.Examine(0, a, {});
    e, next := s.Examine(next, a, {});
  }

  lemma NoClients(s: PollServer)
    requires s.Valid() && |s.Table()| == 1
    ensures s.clients == {} && s.Table()[0].fd == s.listenfd
  {
    assert s.Table() == [s.Table()[0]];
    assert FdSet(s.Table()) == {s.listenfd};
    assert s.clients == FdSet(s.Table()) - {s.listenfd};
  }

  /** A pass in which the only client hangs up. */
  method HangUpAlone(s: PollServer, a: int)
    requires s.Valid() && |s.Table()| == 2 && s.Table()[1].fd == a && a != s.listenfd
    modifies s`nfds, s`clients, s`past, s.fds
    ensures s.Valid() && |s.Table()| == 1 && LastFlag(s.past, 1)
  {
    assert s.Table()[0].fd == s.listenfd;
    s.Poll({a});
    var e, next := s.Examine(0, a, {a});
    e, next := s.Examine(next, a, {a});
  }

  /** Three passes: `a` is accepted; it hangs up and leaves; `b` is accepted, and the same pass takes
      it for readable although `poll` reported the listening socket alone. */
  method StaleRun(listenfd: int, a: int, b: int) returns (e: PollFd)
    requires a > 0 && b > 0 && a != listenfd && b != listenfd
    ensures e == PollFd(b, true)
  {
    var s := new PollServer(listenfd);
    e := AcceptAlone(s, a);
    HangUpAlone(s, a);
    e := AcceptAlone(s, b);
  }

  /** The table after the listening entry was examined. */
  ghost function Grown(t: seq<PollFd>, accepted: int, stale: bool): seq<PollFd>
    requires t != []
  {
    if t[0].readable && accepted > 0 && |t| < CAPACITY then t + [PollFd(accepted, stale)] else t
  }

  /** The next index and the table after a client entry was examined. */
  ghost function Compacted(t: seq<PollFd>, i: nat, hungUp: set<int>): (nat, seq<PollFd>)
    requires i < |t|
  {
    if t[i].readable && t[i].fd in hungUp then (i, SwapRemove(t, i)) else (i + 1, t)
  }

  /** Entries examined and entries still ahead make up the whole table; the entries behind are the
      survivors. */
  ghost predicate Walked(t: seq<PollFd>, i: nat, examined: seq<PollFd>, table: seq<PollFd>, hungUp: set<int>)
    requires i <= |t|
  {
    && multiset(examined) + multiset(t[i..]) == multiset(table)
    && multiset(t[..i]) == multiset(Survivors(examined, hungUp))
  }

  lemma WalkFirst(t: seq<PollFd>, hungUp: set<int>, grown: seq<PollFd>)
    requires t != [] && t[0].fd !in hungUp && t <= grown
    ensures Walked(grown, 1, [] + [t[0]], grown, hungUp)
  {
    assert grown == [t[0]] + grown[1..] && grown[..1] == [t[0]];
    SurvivorsSnoc([], hungUp, t[0]);
  }

  lemma WalkOn(t: seq<PollFd>, i: nat, examined: seq<PollFd>, table: seq<PollFd>, hungUp: set<int>)
    requires i < |t| && Walked(t, i, examined, table, hungUp)
    ensures var (next, r) := Compacted(t, i, hungUp);
            next <= |r| && Walked(r, next, examined + [t[i]], table, hungUp)
  {
    SurvivorsSnoc(examined, hungUp, t[i]);
    if t[i].readable && t[i].fd in hungUp {
      WalkDrop(t, i, examined);
      assert SwapRemove(t, i)[..i] == t[..i];
    } else {
      WalkKeep(t, i, examined);
    }
  }

  lemma WalkDrop(t: seq<PollFd>, i: nat, examined: seq<PollFd>)
    requires i < |t|
    ensures multiset(examined + [t[i]]) + multiset(SwapRemove(t, i)[i..]) == multiset(examined) + multiset(t[i..])
  {
    SwapRemoveBag(t, i);
    assert t[i] in t[i..];
    assert multiset{t[i]} <= multiset(t[i..]);
  }

  lemma WalkKeep(t: seq<PollFd>, i: nat, examined: seq<PollFd>)
    requires i < |t|
    ensures multiset(examined + [t[i]]) + multiset(t[i + 1..]) == multiset(examined) + multiset(t[i..])
    ensures t[..i + 1] == t[..i] + [t[i]]
  {
    assert t[i..] == [t[i]] + t[i + 1..];
  }
}
