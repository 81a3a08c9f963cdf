/** The byte ring of patches/0001-v8-sink.patch: many producers append records under a
    spin lock, one drainer removes them and writes them to a file. Every critical section
    is one atomic step. An overflow tail behind the ring keeps each record contiguous. */
module SinkRing {
  import opened Bytes
  import opened Wire

  const RING: nat := 0x80_0000      // kRingBytes
  const MAX_RECORD: nat := 0x10_0000 // kMaxRecord
  const SPAN_CAP: nat := 0x1_0000   // kSpanCap
  const SINK_DROP: nat := 39
  const BYTECODE_TRACE: nat := 40

  function Next(pos: nat, n: nat): (r: nat) {
    if pos + n >= RING then pos + n - RING else pos + n
  }

  ghost function Total(q: seq<seq<byte>>): (r: nat) {
    if q == [] then 0 else |q[0]| + Total(q[1..])
  }

  ghost function Concat(q: seq<seq<byte>>): (r: seq<byte>) {
    if q == [] then [] else Concat(q[..|q| - 1]) + q[|q| - 1]
  }

  ghost predicate RecordBytes(r: seq<byte>) {
    HDR <= |r| <= MAX_RECORD && FromLe(r[..4]) == |r|
  }

  lemma RecordSize(r: seq<byte>)
    requires RecordBytes(r)
    ensures HDR <= |r| <= MAX_RECORD
  {
  }

  /** Starting at `pos`, the storage `d` holds the records `q` one after the other, each
      contiguous, and the next free position is `head`. */
  ghost predicate Laid(d: seq<byte>, pos: nat, q: seq<seq<byte>>, head: nat)
    decreases |q|
  {
    && |d| == RING + MAX_RECORD
    && pos < RING
    && if q == [] then pos == head else
         && RecordBytes(q[0])
         && d[pos..pos + |q[0]|] == q[0]
         && Laid(d, Next(pos, |q[0]|), q[1..], head)
  }

  lemma {:induction false} LaidHead(d: seq<byte>, pos: nat, q: seq<seq<byte>>, head: nat)
    requires Laid(d, pos, q, head) && Total(q) < RING
    ensures head == Next(pos, Total(q)) && head < RING
    decreases |q|
  {
    if q == [] {
    } else {
      LaidHead(d, Next(pos, |q[0]|), q[1..], head);
    }
  }

  /** Writing `n` free bytes at the head disturbs no queued record, not even one that
      lies across the end of the ring. */
  lemma {:induction false} LaidFrame(d: seq<byte>, d': seq<byte>, pos: nat, q: seq<seq<byte>>, head: nat, n: nat)
    requires Laid(d, pos, q, head) && Total(q) + n <= RING - 8 && |d'| == |d| && head + n <= |d|
    requires forall i :: 0 <= i < |d| && !(head <= i < head + n) ==> d'[i] == d[i]
    ensures Laid(d', pos, q, head)
    decreases |q|
  {
    if q == [] {
    } else {
      LaidHead(d, pos, q, head);
      assert d'[pos..pos + |q[0]|] == d[pos..pos + |q[0]|];
      LaidFrame(d, d', Next(pos, |q[0]|), q[1..], head, n);
    }
  }

  lemma {:induction false} LaidAppend(d: seq<byte>, pos: nat, q: seq<seq<byte>>, head: nat, r: seq<byte>)
    requires Laid(d, pos, q, head) && head < RING && RecordBytes(r) && d[head..head + |r|] == r
    ensures Laid(d, pos, q + [r], Next(head, |r|))
    decreases |q|
  {
    if q == [] {
      assert (q + [r])[1..] == [];
    } else {
      assert (q + [r])[1..] == q[1..] + [r];
      LaidAppend(d, Next(pos, |q[0]|), q[1..], head, r);
    }
  }

  lemma {:induction false} TotalAppend(q: seq<seq<byte>>, r: seq<byte>)
    ensures Total(q + [r]) == Total(q) + |r|
  {
    if q == [] {
      assert (q + [r])[1..] == [];
    } else {
      assert (q + [r])[1..] == q[1..] + [r];
      TotalAppend(q[1..], r);
    }
  }

  /** One accepted record: it joins the queue's tail and the rest is untouched. */
  lemma LaidWrite(d: seq<byte>, d': seq<byte>, pos: nat, q: seq<seq<byte>>, head: nat, r: seq<byte>)
    requires Laid(d, pos, q, head) && head < RING && RecordBytes(r) && |r| + 8 <= RING - Total(q)
    requires d' == d[..head] + r + d[head + |r|..]
    ensures Laid(d', pos, q + [r], Next(head, |r|)) && Total(q + [r]) == Total(q) + |r|
  {
    LaidFrame(d, d', pos, q, head, |r|);
    assert d'[head..head + |r|] == r;
    LaidAppend(d', pos, q, head, r);
    TotalAppend(q, r);
  }

  lemma LaidFirst(d: seq<byte>, pos: nat, q: seq<seq<byte>>, head: nat)
    requires q != [] && Laid(d, pos, q, head)
    ensures HDR <= |q[0]| <= MAX_RECORD && pos + |q[0]| <= |d| && d[pos..pos + |q[0]|] == q[0]
    ensures FromLe(d[pos..pos + 4]) == |q[0]|
    ensures Laid(d, Next(pos, |q[0]|), q[1..], head) && Total(q[1..]) <= Total(q)
    ensures pos + |q[0]| < 2 * RING && pos < RING
  {
    assert d[pos..pos + 4] == q[0][..4];
  }

  // ---------------------------------------------------------------------
  // Record construction.
  // ---------------------------------------------------------------------

  /** What a producer passes to `EmitFlags`, with the script and task ids the engine
      supplies at that moment. A null pointer is None. */
  datatype Emission = Emission(kind: byte, ts: nat, flags: byte, data: Option<seq<byte>>, sid: nat, tid: nat)

  ghost predicate EmissionFits(e: Emission) {
    e.sid < 0x1_0000_0000 && e.tid < 0x1_0000 && Fits(e.ts, 8)
  }

  /** The guards in front of the lock. */
  predicate PastGuards(e: Emission) {
    e.data.Some? && e.data.value != []
  }

  /** The record an accepted emission leaves in the ring: oversized data is cut and
      flagged; drop and trace records carry no attribution. */
  function RecordOf(e: Emission): (r: Rec)
    requires PastGuards(e)
  {
    var d := e.data.value;
    var cut := |d| > MAX_RECORD - HDR;
    var bare := e.kind == SINK_DROP || e.kind == BYTECODE_TRACE;
    Rec(e.kind, if cut && e.flags % 2 == 0 then e.flags + 1 else e.flags,
        if bare then 0 else e.sid, if bare then 0 else e.tid, e.ts,
        if cut then d[..MAX_RECORD - HDR] else d)
  }

  /** Bytes of an emission's payload that go into the record. */
  function Kept(e: Emission): (n: nat)
    requires PastGuards(e)
  {
    if |e.data.value| > MAX_RECORD - HDR then MAX_RECORD - HDR else |e.data.value|
  }

  /** Field by field: kind and time are the emission's, the payload is its data or the first bytes of it, the low
      flag says that data was cut here or by the caller, the other flags are the caller's, and script and task id are
      the emission's unless the kind is 39 or 40. */
  ghost predicate Bears(r: Rec, e: Emission) {
    && e.data.Some? && e.data.value != []
    && r.kind == e.kind && r.ts == e.ts
    && r.payload == (if |e.data.value| <= MAX_RECORD - HDR then e.data.value else e.data.value[..MAX_RECORD - HDR])
    && (r.flags % 2 == 1 <==> e.flags % 2 == 1 || |e.data.value| > MAX_RECORD - HDR) && r.flags / 2 == e.flags / 2
    && r.sid == (if e.kind == 39 || e.kind == 40 then 0 else e.sid)
    && r.tid == (if e.kind == 39 || e.kind == 40 then 0 else e.tid)
  }

  /** The bytes of a record, each field at its place. */
  ghost predicate LaidOut(b: seq<byte>, r: Rec) {
    && |b| >= 24 && FromLe(b[0..4]) == |b| && b[4] == r.kind && b[5] == r.flags && FromLe(b[6..10]) == r.sid
    && FromLe(b[10..12]) == r.tid && FromLe(b[16..24]) == r.ts && b[24..] == r.payload
  }

  /** What a producer does: nothing without data; else, if its record and eight bytes fit, the record joins the
      queue behind all others; else one more is counted as dropped. */
  ghost predicate Emits(s: Fifo, e: Emission, s': Fifo) {
    if e.data.None? || e.data.value == [] then s' == s
    else if HDR + Kept(e) + 8 <= RING - Total(s.queue) then
      && |s'.queue| == |s.queue| + 1 && s' == s.(queue := s.queue + [s'.queue[|s.queue|]])
      && exists r :: Bears(r, e) && LaidOut(s'.queue[|s.queue|], r)
    else s' == s.(dropped := s.dropped + 1)
  }

  lemma RecordBears(e: Emission)
    requires PastGuards(e)
    ensures Bears(RecordOf(e), e) && |Frame(RecordOf(e))| == HDR + Kept(e)
  {
  }

  lemma FrameLaidOut(r: Rec)
    requires RecFits(r)
    ensures LaidOut(Frame(r), r)
  {
    DecodeFrame(r);
    hide FromLe, Frame, RecFits;
  }

  lemma StepEmits(s: Fifo, e: Emission)
    requires EmissionFits(e)
    ensures Emits(s, e, FifoStep(s, Emit(e)))
  {
    if PastGuards(e) {
      RecordOfBytes(e);
      RecordBears(e);
      FrameLaidOut(RecordOf(e));
      hide Bears, LaidOut, RecordOf, Frame, Total, Fits;
      var s' := FifoStep(s, Emit(e));
      if Accepts(s, e) {
        assert s'.queue[|s.queue|] == Frame(RecordOf(e));
      }
    }
  }

  lemma RecordOfBytes(e: Emission)
    requires PastGuards(e) && EmissionFits(e)
    ensures RecordBytes(Frame(RecordOf(e))) && RecFits(RecordOf(e))
    ensures Decode(Frame(RecordOf(e))) == RecordOf(e)
  {
    DecodeFrame(RecordOf(e));
  }

  /** `EmitTwoStr`: two strings joined by a NUL, cut to fit one record. */
  function TwoStr(a: seq<byte>, b: seq<byte>): (r: (seq<byte>, bool))
    requires 0 !in a && 0 !in b
    ensures |r.0| <= MAX_RECORD - HDR
    ensures !r.1 ==> r.0 == a + [0] + b
    ensures r.1 <==> |a| + 1 + |b| > MAX_RECORD - HDR
    ensures NameOf(r.0).0 <= a && NameOf(r.0).1 <= b
    ensures !r.1 ==> NameOf(r.0) == (a, b)
  {
    var cap := MAX_RECORD - 25;
    var la := if |a| > cap then cap else |a|;
    var lb := if |b| > cap - la then cap - la else |b|;
    var joined := a[..la] + [0] + b[..lb];
    NameOfJoined(a[..la], b[..lb]);
    assert a[..|a|] == a && b[..|b|] == b;
    (joined, |a| > cap || |b| > cap - la)
  }

  lemma NameOfJoined(a: seq<byte>, b: seq<byte>)
    requires 0 !in a
    ensures NameOf(a + [0] + b) == (a, b)
  {
    var p := a + [0] + b;
    var r := NameOf(p);
    assert p[|a|] == 0;
    assert p == r.0 + [0] + r.1;
    assert forall i :: 0 <= i < |a| ==> p[i] == a[i] && a[i] in a;
    assert forall i :: 0 <= i < |r.0| ==> p[i] == r.0[i] && r.0[i] in r.0;
    assert p[..|a|] == a && p[|a| + 1..] == b;
    assert p[..|r.0|] == r.0 && p[|r.0| + 1..] == r.1;
  }

  /** `EmitSpan`: a short tag, a NUL and raw bytes. A span of exactly the cap is flagged
      as truncated although it is whole. */
  function Span(tag: seq<byte>, bytes: seq<byte>): (r: (seq<byte>, bool))
    requires 0 !in tag
    ensures |r.0| <= MAX_RECORD - HDR
    ensures r.1 <==> |bytes| >= SPAN_CAP
    ensures NameOf(r.0) == (if |tag| > 64 then tag[..64] else tag,
                            if |bytes| > SPAN_CAP then bytes[..SPAN_CAP] else bytes)
  {
    var t := if |tag| > 64 then tag[..64] else tag;
    var n := if |bytes| >= SPAN_CAP then SPAN_CAP else |bytes|;
    NameOfJoined(t, bytes[..n]);
    assert bytes[..|bytes|] == bytes;
    (t + [0] + bytes[..n], |bytes| >= SPAN_CAP)
  }

  /** A span of exactly the cap is there whole, and flagged as cut all the same. */
  lemma SpanAtCap(tag: seq<byte>, bytes: seq<byte>)
    requires 0 !in tag && |bytes| == SPAN_CAP
    ensures Span(tag, bytes).1 && NameOf(Span(tag, bytes).0).1 == bytes
  {
  }

  // ---------------------------------------------------------------------
  // Reference: a bounded FIFO of byte records.
  // ---------------------------------------------------------------------

  /** One atomic step: some producer's emission, or a step of the drainer. With bytes in hand the
      drainer makes one `write`, of which the kernel takes `n` bytes (none when it was interrupted);
      otherwise it looks for a record in the ring. */
  datatype Step = Emit(e: Emission) | Drain(n: nat)

  /** `buf` is what the drainer has in hand and not yet written. */
  datatype Fifo = Fifo(queue: seq<seq<byte>>, buf: Option<seq<byte>>, file: seq<byte>, dropped: nat)

  ghost predicate Accepts(s: Fifo, e: Emission) {
    PastGuards(e) && HDR + Kept(e) + 8 <= RING - Total(s.queue)
  }

  /** How much of the bytes in hand one `write` takes. */
  function Taken(rest: seq<byte>, n: nat): (k: nat)
    ensures k <= |rest|
  {
    if n < |rest| then n else |rest|
  }

  function Rest(rest: seq<byte>, k: nat): (r: Option<seq<byte>>)
    requires k <= |rest|
  {
    if k == |rest| then None else Some(rest[k..])
  }

  ghost function FifoStep(s: Fifo, st: Step): (r: Fifo) {
    match st
    case Emit(e) =>
      if !PastGuards(e) then s
      else if Accepts(s, e) then s.(queue := s.queue + [Frame(RecordOf(e))])
      else s.(dropped := s.dropped + 1)
    case Drain(n) =>
      if s.buf.Some? then
        var k := Taken(s.buf.value, n);
        s.(file := s.file + s.buf.value[..k], buf := Rest(s.buf.value, k))
      else if s.queue != [] then s.(queue := s.queue[1..], buf := Some(s.queue[0]))
      else s
  }

  ghost function FifoRun(s: Fifo, sched: seq<Step>): (r: Fifo) {
    if sched == [] then s else FifoStep(FifoRun(s, sched[..|sched| - 1]), sched[|sched| - 1])
  }

  /** The records accepted during a run, in lock order. */
  ghost function Accepted(s: Fifo, sched: seq<Step>): (r: seq<Rec>) {
    if sched == [] then [] else
      var n := |sched| - 1;
      var last := sched[n];
      Accepted(s, sched[..n]) +
      if last.Emit? && Accepts(FifoRun(s, sched[..n]), last.e) then [RecordOf(last.e)] else []
  }

  /** The emissions accepted during a run, in lock order. */
  ghost function TakenIn(s: Fifo, sched: seq<Step>): (r: seq<Emission>) {
    if sched == [] then [] else
      var n := |sched| - 1;
      var last := sched[n];
      TakenIn(s, sched[..n]) + if last.Emit? && Accepts(FifoRun(s, sched[..n]), last.e) then [last.e] else []
  }

  /** Every accepted record is its emission's. */
  ghost predicate AllBear(recs: seq<Rec>, es: seq<Emission>) {
    |recs| == |es| && forall i :: 0 <= i < |recs| ==> Bears(recs[i], es[i])
  }

  lemma {:induction false} AcceptedBear(s: Fifo, sched: seq<Step>)
    ensures AllBear(Accepted(s, sched), TakenIn(s, sched))
  {
    hide Bears, RecordOf, Accepts, FifoRun;
    if sched == [] {
    } else {
      var n := |sched| - 1;
      AcceptedBear(s, sched[..n]);
      if sched[n].Emit? && Accepts(FifoRun(s, sched[..n]), sched[n].e) {
        AcceptsGuards(FifoRun(s, sched[..n]), sched[n].e);
        RecordBears(sched[n].e);
      }
    }
  }

  lemma AcceptsGuards(s: Fifo, e: Emission)
    ensures Accepts(s, e) ==> PastGuards(e)
  {
  }

  ghost function Attempts(sched: seq<Step>): (r: nat) {
    if sched == [] then 0 else
      var last := sched[|sched| - 1];
      Attempts(sched[..|sched| - 1]) + if last.Emit? && PastGuards(last.e) then 1 else 0
  }

  /** File, drainer buffer and queue together, in order. */
  ghost function Stream(s: Fifo): (r: seq<byte>) {
    s.file + (if s.buf.Some? then s.buf.value else []) + Concat(s.queue)
  }

  lemma {:induction false} ConcatHead(q: seq<seq<byte>>)
    requires q != []
    ensures Concat(q) == q[0] + Concat(q[1..])
  {
    var n := |q| - 1;
    if n == 0 {
      assert q[1..] == [] && q[..0] == [];
    } else {
      ConcatHead(q[..n]);
      assert q[..n][1..] == q[1..n] && q[1..][..n - 1] == q[1..n];
      assert q[0] + (Concat(q[1..n]) + q[n]) == q[0] + Concat(q[1..n]) + q[n];
    }
  }

  /** Nothing is lost, duplicated, reordered or altered: in every interleaving the bytes
      drained, in the drainer's hands and queued are the accepted records in lock order,
      and every attempt past the guards is either accepted or counted as dropped. */
  lemma {:induction false} Conservation(s: Fifo, sched: seq<Step>)
    ensures Stream(FifoRun(s, sched)) == Stream(s) + Frames(Accepted(s, sched))
    ensures |Accepted(s, sched)| + FifoRun(s, sched).dropped == Attempts(sched) + s.dropped
  {
    hide RecordOf, Frame, FifoStep, Stream, Accepts, Frames;
    if sched == [] {
      FramesPush([], Rec(0, 0, 0, 0, 0, []));
      assert Stream(s) + [] == Stream(s);
    } else {
      var n := |sched| - 1;
      var s1, st := FifoRun(s, sched[..n]), sched[n];
      Conservation(s, sched[..n]);
      StepConserves(s1, st);
      var a := Accepted(s, sched[..n]);
      if st.Emit? && Accepts(s1, st.e) {
        FramesPush(a, RecordOf(st.e));
      } else {
        assert a + [] == a;
      }
    }
  }

  lemma StepConserves(s: Fifo, st: Step)
    ensures Stream(FifoStep(s, st)) ==
            Stream(s) + if st.Emit? && Accepts(s, st.e) then Frame(RecordOf(st.e)) else []
    ensures FifoStep(s, st).dropped ==
            s.dropped + if st.Emit? && PastGuards(st.e) && !Accepts(s, st.e) then 1 else 0
    ensures st.Emit? && Accepts(s, st.e) ==> PastGuards(st.e)
  {
    hide RecordOf, Frame;
    match st
    case Emit(e) =>
      if Accepts(s, e) {
        assert (s.queue + [Frame(RecordOf(e))])[..|s.queue|] == s.queue;
      }
    case Drain(n) =>
      if s.buf.None? && s.queue != [] {
        ConcatHead(s.queue);
      }
      if s.buf.Some? {
        var b, k := s.buf.value, Taken(s.buf.value, n);
        assert b == b[..k] + b[k..];
      }
  }

  // ---------------------------------------------------------------------
  // The shared state.
  // ---------------------------------------------------------------------

  class Ring {
    const data: array<byte>
    var head: nat
    var tail: nat
    ghost var queue: seq<seq<byte>>

    ghost predicate Valid()
      reads this, data
    {
      && data.Length == RING + MAX_RECORD
      && head < RING && tail < RING
      && Laid(data[..], tail, queue, head)
      && Total(queue) <= RING - 8
    }

    constructor ()
      ensures Valid() && queue == [] && fresh(data)
    {
      data := new byte[RING + MAX_RECORD](_ => 0);
      head, tail, queue := 0, 0, [];
    }

    /** Head meets tail only when the ring is empty. */
    lemma EmptyIff()
      requires Valid()
      ensures head == tail <==> queue == []
    {
      LaidHead(data[..], tail, queue, head);
    }

    method Copy(at: nat, src: seq<byte>)
      requires at + |src| <= data.Length
      modifies data
      ensures data[..] == old(data[..at]) + src + old(data[at + |src|..])
    {
      var i := 0;
      while i < |src|
        invariant 0 <= i <= |src|
        invariant data[..] == old(data[..at]) + src[..i] + old(data[at + i..])
      {
        data[at + i] := src[i];
        i := i + 1;
      }
      assert src[..i] == src;
    }

    /** The producer's critical section. */
    method Append(frame: seq<byte>) returns (ok: bool)
      requires Valid() && RecordBytes(frame)
      modifies this, data
      ensures Valid()
      ensures ok <==> |frame| + 8 <= RING - Total(old(queue))
      ensures queue == if ok then old(queue) + [frame] else old(queue)
    {
      hide Laid, Total, RecordBytes, FromLe;
      var h, t := head, tail;
      ghost var d := data[..];
      RecordSize(frame);
      LaidHead(d, t, queue, h);
      var used := if h >= t then h - t else RING - t + h;
      assert used == Total(queue);
      if RING - used < |frame| + 8 {
        return false;
      }
      Copy(h, frame);
      LaidWrite(d, data[..], t, queue, h, frame);
      var nh := h + |frame|;
      if nh >= RING {
        nh := nh - RING;
      }
      head := nh;
      queue := queue + [frame];
      return true;
    }

    /** The drainer's critical section. */
    method Remove() returns (r: Option<seq<byte>>)
      requires Valid()
      modifies this
      ensures Valid()
      ensures r == if old(queue) == [] then None else Some(old(queue)[0])
      ensures queue == if old(queue) == [] then [] else old(queue)[1..]
    {
      hide Laid, FromLe, Total, RecordBytes;
      EmptyIff();
      r := None;
      if tail != head {
        ghost var d, q0 := data[..], queue[0];
        LaidFirst(d, tail, queue, head);
        assert d[tail..tail + 4] == data[tail..tail + 4];
        assert d[tail..tail + |q0|] == data[tail..tail + |q0|];
        var len := FromLe(data[tail..tail + 4]);
        assert len == |q0|;
        if len < 24 || len > MAX_RECORD {
          // the drainer (patches/0001-v8-sink.patch:208-209) empties the ring here; no interleaving reaches it
          assert false;
        } else {
          r := Some(data[tail..tail + len]);
          var nt := tail + len;
          if nt >= RING {
            nt := nt - RING;
          }
          tail := nt;
          queue := queue[1..];
        }
      }
    }
  }

  /** The whole sink: ring, drop counter, drainer buffer and output file. */
  class Sink {
    const ring: Ring
    var dropped: nat
    var buf: Option<seq<byte>>
    var file: seq<byte>

    ghost predicate Valid()
      reads this, ring, ring.data
    {
      ring.Valid() && (buf.Some? ==> buf.value != [])
    }

    ghost function View(): (res: Fifo)
      reads this, ring
    {
      Fifo(ring.queue, buf, file, dropped)
    }

    /** The drainer opens the file with its hello record in hand, to be written first. */
    constructor (hello: seq<byte>)
      requires hello != []
      ensures Valid() && View() == Fifo([], Some(hello), [], 0) && fresh(ring) && fresh(ring.data)
    {
      ring := new Ring();
      dropped, buf, file := 0, Some(hello), [];
    }

    method EmitFlags(e: Emission)
      requires Valid() && EmissionFits(e)
      modifies this, ring, ring.data
      ensures Valid() && View() == FifoStep(old(View()), Emit(e))
      ensures Emits(old(View()), e, View())
    {
      StepEmits(View(), e);
      if e.data.None? || e.data.value == [] {
        return;
      }
      RecordOfBytes(e);
      RecordBears(e);
      hide Frame, Laid, Bears, LaidOut, Emits;
      var ok := ring.Append(Frame(RecordOf(e)));
      if !ok {
        dropped := dropped + 1;
      }
    }

    /** One step of the drainer: one turn of the write loop while bytes are in hand, else the
        critical section that takes the next record. */
    method DrainTurn(n: nat)
      requires Valid()
      modifies this, ring
      ensures Valid() && View() == FifoStep(old(View()), Drain(n))
    {
      if buf.Some? {
        var rest := buf.value;
        var k := Taken(rest, n);
        file := file + rest[..k];
        buf := Rest(rest, k);
      } else {
        if ring.queue != [] {
          LaidFirst(ring.data[..], ring.tail, ring.queue, ring.head);
        }
        var r := ring.Remove();
        buf := r;
      }
    }

    /** Any interleaving of producers and the drainer behaves as the bounded FIFO. */
    method Run(sched: seq<Step>)
      requires Valid() && forall i :: 0 <= i < |sched| && sched[i].Emit? ==> EmissionFits(sched[i].e)
      modifies this, ring, ring.data
      ensures Valid() && View() == FifoRun(old(View()), sched)
      ensures Stream(View()) == Stream(old(View())) + Frames(Accepted(old(View()), sched))
    {
      ghost var s := View();
      var n := 0;
      while n < |sched|
        invariant 0 <= n <= |sched| && Valid()
        invariant View() == FifoRun(s, sched[..n])
      {
        assert sched[..n + 1][..n] == sched[..n];
        match sched[n] {
          case Emit(e) => EmitFlags(e);
          case Drain(k) => DrainTurn(k);
        }
        n := n + 1;
      }
      assert sched[..n] == sched;
      Conservation(s, sched);
    }
  }
}
