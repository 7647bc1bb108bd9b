/** The response being sent: the two-segment iovec, `writev`, and what `write()` does to them. */
module Outgoing {
  import opened Text

  /** What an iovec entry points into. */
  datatype Region = Nowhere | WriteBuf | Mapping

  datatype IoVec = IoVec(region: Region, off: nat, len: nat)

  /** The sending half of `HttpConn`. `mapped` is the file behind `m_mmap_addr`, None when that
      is null; `statSize` is `m_file_stat.st_size`, the length `munmap` is called with. */
  datatype Out = Out(
    writeBuf: string, mapped: Option<string>, statSize: nat,
    iv0: IoVec, iv1: IoVec, ivCount: nat, toSend: nat, haveSend: nat)

  const NO_IOVEC := IoVec(Nowhere, 0, 0)

  function Memory(o: Out, region: Region): string {
    match region
    case Nowhere => ""
    case WriteBuf => o.writeBuf
    case Mapping => if o.mapped.Some? then o.mapped.value else ""
  }

  /** The entry points into memory that is there. */
  predicate Readable(o: Out, v: IoVec) {
    v.off + v.len <= |Memory(o, v.region)|
  }

  function Segment(o: Out, v: IoVec): string {
    if Readable(o, v) then Memory(o, v.region)[v.off..v.off + v.len] else ""
  }

  /** The bytes `writev(m_sockfd, m_iv, m_iv_count)` is offered. */
  function Pending(o: Out): string {
    if o.ivCount == 0 then ""
    else if o.ivCount == 1 then Segment(o, o.iv0)
    else Segment(o, o.iv0) + Segment(o, o.iv1)
  }

  /** `m_iv[1]` counts only while two entries are left, and every entry that counts is readable. */
  predicate ValidIov(o: Out) {
    && o.ivCount <= 2
    && (o.ivCount >= 1 ==> Readable(o, o.iv0))
    && (o.ivCount == 2 ==> Readable(o, o.iv1))
  }

  /** The counters agree with the iovec. */
  predicate Valid(o: Out) {
    ValidIov(o) && o.haveSend + |Pending(o)| == o.toSend
  }

  // ---------------------------------------------------------------- after one writev

  /** `m_iv_count--`, and `m_iv[1]` moves up if it still counts. */
  function Shifted(o: Out): Out
    requires o.ivCount > 0
  {
    o.(ivCount := o.ivCount - 1, iv0 := if o.ivCount > 1 then o.iv1 else o.iv0)
  }

  /** The inner loop and the trimming of the last entry, for `n` bytes written. */
  function Advance(o: Out, n: nat): Out
    decreases o.ivCount
  {
    if o.ivCount > 0 && n >= o.iv0.len then
      Advance(Shifted(o), n - o.iv0.len)
    else if o.ivCount > 0 && n > 0 then
      o.(iv0 := o.iv0.(off := o.iv0.off + n, len := o.iv0.len - n))
    else o
  }

  lemma SegmentSize(o: Out, v: IoVec)
    requires Readable(o, v)
    ensures |Segment(o, v)| == v.len
  {
  }

  lemma ShiftDrops(o: Out)
    requires ValidIov(o) && o.ivCount > 0
    ensures ValidIov(Shifted(o)) && o.iv0.len <= |Pending(o)|
    ensures Pending(Shifted(o)) == Pending(o)[o.iv0.len..]
  {
    SegmentSize(o, o.iv0);
  }

  lemma TrimDrops(o: Out, n: nat)
    requires ValidIov(o) && o.ivCount > 0 && n < o.iv0.len
    ensures var a := Advance(o, n);
            ValidIov(a) && Pending(a) == Pending(o)[n..] && a == o.(iv0 := a.iv0) && n < |Pending(o)|
  {
    SegmentSize(o, o.iv0);
    if n > 0 {
      var a := Advance(o, n);
      SegmentTail(o, o.iv0, n);
      SegmentSame(o, a, a.iv0);
      SegmentSame(o, a, o.iv1);
      DropFront(Segment(o, o.iv0), Segment(o, o.iv1), n);
    }
  }

  /** A segment depends only on the two memory regions. */
  lemma SegmentSame(o: Out, a: Out, v: IoVec)
    requires a.writeBuf == o.writeBuf && a.mapped == o.mapped
    ensures Readable(a, v) == Readable(o, v) && Segment(a, v) == Segment(o, v)
  {
  }

  lemma DropFront(a: string, b: string, n: nat)
    requires n <= |a|
    ensures (a + b)[n..] == a[n..] + b
  {
  }

  lemma SegmentTail(o: Out, v: IoVec, n: nat)
    requires Readable(o, v) && n <= v.len
    ensures var w := v.(off := v.off + n, len := v.len - n); Readable(o, w) && Segment(o, w) == Segment(o, v)[n..]
  {
  }

  /** Advancing drops exactly the written bytes from what is pending, zero-length bodies included. */
  lemma {:induction false} AdvanceDrops(o: Out, n: nat)
    requires ValidIov(o) && n <= |Pending(o)|
    ensures var a := Advance(o, n);
            && Pending(a) == Pending(o)[n..]
            && ValidIov(a)
            && (n == |Pending(o)| ==> a.ivCount == 0)
            && a == o.(iv0 := a.iv0, ivCount := a.ivCount)
    decreases o.ivCount
  {
    if o.ivCount > 0 && n >= o.iv0.len {
      ShiftDrops(o);
      AdvanceDrops(Shifted(o), n - o.iv0.len);
      DropDrop(Pending(o), o.iv0.len, n);
    } else if o.ivCount > 0 {
      TrimDrops(o, n);
    }
  }

  lemma DropDrop(s: string, a: nat, n: nat)
    requires a <= n <= |s|
    ensures s[a..][n - a..] == s[n..]
  {
  }

  // ---------------------------------------------------------------- write()

  /** One answer of `writev`: it takes as many bytes as the socket buffer has room for, or fails
      with EAGAIN, or fails for good. */
  datatype Offer = Room(bytes: nat) | WouldBlock | Broken

  datatype WriteResult = WriteResult(done: bool, o: Out, sent: string)

  function Unmap(o: Out): Out {
    o.(mapped := None)
  }

  function Min(a: nat, b: nat): nat {
    if a <= b then a else b
  }

  /** `write()`, given the answers of the kernel; when they run out the socket is full. */
  function Write(o: Out, offers: seq<Offer>): WriteResult {
    if o.toSend == 0 then WriteResult(true, o, "") else WriteLoop(o, offers)
  }

  /** The bookkeeping for one `writev` that took `n` bytes. */
  function Written(o: Out, n: nat): WriteResult
    requires n <= |Pending(o)|
  {
    var o1 := Advance(o.(haveSend := o.haveSend + n), n);
    if o1.haveSend >= o1.toSend then WriteResult(true, Unmap(o1).(toSend := 0, haveSend := 0), Pending(o)[..n])
    else WriteResult(false, o1, Pending(o)[..n])
  }

  function Prepend(sent: string, r: WriteResult): WriteResult {
    r.(sent := sent + r.sent)
  }

  function WriteLoop(o: Out, offers: seq<Offer>): WriteResult
    decreases |offers|
  {
    if offers == [] then WriteResult(false, o, "")
    else
      match offers[0]
      case WouldBlock => WriteResult(false, o, "")
      case Broken => WriteResult(false, Unmap(o), "")
      case Room(bytes) =>
        var n := Min(bytes, |Pending(o)|);
        if n == 0 then WriteLoop(o, offers[1..])
        else
          var w := Written(o, n);
          if w.done then w else Prepend(w.sent, WriteLoop(w.o, offers[1..]))
  }

  predicate NotBroken(offers: seq<Offer>) {
    forall i :: 0 <= i < |offers| ==> !offers[i].Broken?
  }

  /** Nothing is lost or repeated: the bytes sent and the bytes left are the bytes that were
      pending; the call says true exactly when nothing is left, and then the mapping is gone and
      the counters are zero. */
  predicate Conserves(o: Out, r: WriteResult) {
    && r.sent + Pending(r.o) == Pending(o)
    && Valid(r.o)
    && (r.done <==> Pending(r.o) == "")
    && (r.done ==> r.o.toSend == 0 && r.o.ivCount == 0 && r.o.mapped.None?)
    && (!r.done ==>
          && r.o.mapped == o.mapped && r.o.toSend == o.toSend && r.o.haveSend < r.o.toSend
          && r.o.haveSend == o.haveSend + |r.sent|)
    && r.o.writeBuf == o.writeBuf && r.o.statSize == o.statSize
  }

  /** Conservation over a call of `write`, whatever the kernel takes at each `writev` and whenever
      it answers EAGAIN. */
  lemma {:induction false} WriteConserves(o: Out, offers: seq<Offer>)
    requires Valid(o) && o.haveSend < o.toSend && NotBroken(offers)
    ensures Conserves(o, WriteLoop(o, offers))
    decreases |offers|
  {
    Blocked(o);
    if offers != [] && offers[0].Room? {
      var n := Min(offers[0].bytes, |Pending(o)|);
      assert NotBroken(offers[1..]);
      if n == 0 {
        WriteConserves(o, offers[1..]);
      } else {
        var w := Written(o, n);
        WrittenConserves(o, n);
        if !w.done {
          WriteConserves(w.o, offers[1..]);
          Compose(o, w, WriteLoop(w.o, offers[1..]));
        }
      }
    }
  }

  lemma Blocked(o: Out)
    requires Valid(o) && o.haveSend < o.toSend
    ensures Conserves(o, WriteResult(false, o, ""))
  {
    assert "" + Pending(o) == Pending(o);
  }

  lemma Compose(o: Out, w: WriteResult, r: WriteResult)
    requires Conserves(o, w) && !w.done && Conserves(w.o, r)
    ensures Conserves(o, Prepend(w.sent, r))
  {
    assert w.sent + r.sent + Pending(r.o) == w.sent + (r.sent + Pending(r.o));
  }

  lemma WrittenConserves(o: Out, n: nat)
    requires Valid(o) && o.haveSend < o.toSend && 0 < n <= |Pending(o)|
    ensures Conserves(o, Written(o, n))
  {
    var o1 := Advance(o.(haveSend := o.haveSend + n), n);
    AdvanceCounts(o, n);
    if o1.haveSend >= o1.toSend {
      NothingLeft(Unmap(o1).(toSend := 0, haveSend := 0));
    } else {
      assert |Pending(o1)| > 0;
    }
  }

  lemma NothingLeft(o: Out)
    requires o.ivCount == 0 && o.toSend == 0 && o.haveSend == 0
    ensures Pending(o) == "" && Valid(o)
  {
  }

  lemma AdvanceCounts(o: Out, n: nat)
    requires Valid(o) && n <= |Pending(o)|
    ensures var o1 := Advance(o.(haveSend := o.haveSend + n), n);
            && Pending(o)[..n] + Pending(o1) == Pending(o) && Valid(o1)
            && (n == |Pending(o)| ==> o1.ivCount == 0)
            && o1 == o.(haveSend := o.haveSend + n, iv0 := o1.iv0, ivCount := o1.ivCount)
  {
    var counted := o.(haveSend := o.haveSend + n);
    SegmentSame(o, counted, o.iv0);
    SegmentSame(o, counted, o.iv1);
    assert Pending(counted) == Pending(o);
    AdvanceDrops(counted, n);
    TakeDrop(Pending(o), n);
  }

  lemma TakeDrop(s: string, n: nat)
    requires n <= |s|
    ensures s[..n] + s[n..] == s
  {
  }

  /** With nothing to send the call is done, and touches nothing. */
  lemma NothingToSend(o: Out, offers: seq<Offer>)
    requires o.toSend == 0
    ensures Write(o, offers) == WriteResult(true, o, "")
  {
  }

  /** What the kernel has room for before it answers EAGAIN or fails. */
  function SpaceIn(offers: seq<Offer>): nat {
    if offers == [] || !offers[0].Room? then 0 else offers[0].bytes + SpaceIn(offers[1..])
  }

  /** A call hands over as much as the kernel has room for: all that is pending, or all of the room. */
  lemma {:induction false} WriteFillsRoom(o: Out, offers: seq<Offer>)
    requires Valid(o) && o.haveSend < o.toSend && NotBroken(offers)
    ensures var r := WriteLoop(o, offers);
            && r.sent == Pending(o)[..Min(SpaceIn(offers), |Pending(o)|)]
            && (r.done <==> SpaceIn(offers) >= |Pending(o)|)
    decreases |offers|
  {
    WriteConserves(o, offers);
    SentIsPrefix(o, WriteLoop(o, offers));
    if offers != [] && offers[0].Room? {
      var n := Min(offers[0].bytes, |Pending(o)|);
      assert NotBroken(offers[1..]);
      if n == 0 {
        WriteFillsRoom(o, offers[1..]);
      } else {
        WrittenConserves(o, n);
        var w := Written(o, n);
        if !w.done {
          WriteFillsRoom(w.o, offers[1..]);
        }
      }
    }
  }

  lemma SentIsPrefix(o: Out, r: WriteResult)
    requires Conserves(o, r)
    ensures |r.sent| <= |Pending(o)| && r.sent == Pending(o)[..|r.sent|]
  {
    assert (r.sent + Pending(r.o))[..|r.sent|] == r.sent;
  }

  // ---------------------------------------------------------------- the hard-error branch

  /** The iovec of a file response that is not sent completely: the rest of the header and the whole
      file, or the rest of the file. */
  predicate FileLeft(o: Out, content: string) {
    && o.mapped == Some(content)
    && (|| (o.ivCount == 2 && o.iv0.region.WriteBuf? && o.iv1 == IoVec(Mapping, 0, |content|))
        || (o.ivCount == 1 && o.iv0.region.Mapping? && o.iv0.off + o.iv0.len == |content|))
  }

  lemma AdvanceKeepsFile(o: Out, content: string, n: nat)
    requires FileLeft(o, content) && ValidIov(o) && n < |Pending(o)|
    ensures FileLeft(Advance(o, n), content)
  {
    SegmentSize(o, o.iv0);
    if o.ivCount == 2 && n >= o.iv0.len {
      ShiftDrops(o);
      var t := Shifted(o);
      SegmentSize(t, t.iv0);
      assert Advance(o, n) == Advance(t, n - o.iv0.len);
    }
  }

  lemma WrittenKeepsFile(o: Out, content: string, n: nat)
    requires FileLeft(o, content) && Valid(o) && o.haveSend < o.toSend && 0 < n <= |Pending(o)|
    requires !Written(o, n).done
    ensures FileLeft(Written(o, n).o, content)
  {
    var counted := o.(haveSend := o.haveSend + n);
    SegmentSame(o, counted, o.iv0);
    SegmentSame(o, counted, o.iv1);
    AdvanceCounts(o, n);
    AdvanceKeepsFile(counted, content, n);
  }

  /** Short writes and EAGAIN leave a file response in this shape. */
  lemma {:induction false} WriteKeepsFile(o: Out, content: string, offers: seq<Offer>)
    requires FileLeft(o, content) && Valid(o) && o.haveSend < o.toSend && NotBroken(offers)
    requires !WriteLoop(o, offers).done
    ensures FileLeft(WriteLoop(o, offers).o, content)
    decreases |offers|
  {
    if offers != [] && offers[0].Room? {
      var n := Min(offers[0].bytes, |Pending(o)|);
      assert NotBroken(offers[1..]);
      if n == 0 {
        WriteKeepsFile(o, content, offers[1..]);
      } else {
        var w := Written(o, n);
        WrittenConserves(o, n);
        WrittenKeepsFile(o, content, n);
        WriteKeepsFile(w.o, content, offers[1..]);
      }
    }
  }

  predicate AllRoom(offers: seq<Offer>) {
    forall i :: 0 <= i < |offers| ==> offers[i].Room?
  }

  /** A call that fails for good after some short writes: what it leaves is what the short writes
      left, without the mapping. */
  lemma {:induction false} ThenBroken(o: Out, offers: seq<Offer>)
    requires AllRoom(offers) && !WriteLoop(o, offers).done
    ensures var b := WriteLoop(o, offers + [Broken]); !b.done && b.o == Unmap(WriteLoop(o, offers).o)
    decreases |offers|
  {
    if offers == [] {
      assert offers + [Broken] == [Broken];
    } else {
      assert (offers + [Broken])[1..] == offers[1..] + [Broken];
      var n := Min(offers[0].bytes, |Pending(o)|);
      ThenBroken(if n == 0 then o else Written(o, n).o, offers[1..]);
    }
  }

  /** Without its mapping a file response can be sent on only if the file is empty. */
  lemma UnmappedFile(o: Out, content: string)
    requires FileLeft(o, content) && Valid(o)
    ensures Valid(Unmap(o)) <==> content == ""
  {
    var u := Unmap(o);
    if content == "" {
      assert forall v :: v == o.iv0 || v == o.iv1 ==> Memory(u, v.region) == Memory(o, v.region);
      assert Pending(u) == Pending(o);
    }
  }
}
