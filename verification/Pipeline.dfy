/** From the producers' ring to the collector's log: patches/0001-v8-sink.patch feeding src/collect.rs. */
module Pipeline {
  import opened Bytes
  import opened Wire
  import opened Framing
  import S = SinkRing
  import C = Collector

  /** An emission of a defined kind whose flags use bit 0 only. */
  ghost predicate Within(e: S.Emission) {
    S.EmissionFits(e) && e.kind <= MAX_KIND && e.flags <= 1
  }

  ghost predicate AllWithin(sched: seq<S.Step>) {
    forall i :: 0 <= i < |sched| && sched[i].Emit? ==> Within(sched[i].e)
  }

  /** Whatever the ring accepts, the collector's parser accepts. */
  lemma RecordFramable(e: S.Emission)
    requires S.PastGuards(e) && Within(e)
    ensures Framable(S.RecordOf(e))
  {
    S.RecordOfBytes(e);
  }

  lemma {:induction false} AcceptedFramable(s: S.Fifo, sched: seq<S.Step>)
    requires AllWithin(sched)
    ensures AllFramable(S.Accepted(s, sched))
  {
    hide Framable, S.RecordOf, S.FifoRun, Within;
    if sched == [] {
    } else {
      var n := |sched| - 1;
      AcceptedFramable(s, sched[..n]);
      if sched[n].Emit? && S.Accepts(S.FifoRun(s, sched[..n]), sched[n].e) {
        RecordFramable(sched[n].e);
      }
    }
  }

  // ---------------------------------------------------------------------
  // The file at any moment.
  // ---------------------------------------------------------------------

  /** The sink before the first step: the hello record in hand, nothing written. */
  ghost function Start(hello: Rec): (s: S.Fifo) {
    S.Fifo([], Some(Frame(hello)), [], 0)
  }

  /** Every record accepted during a run, behind the hello record, in lock order. */
  ghost function All(hello: Rec, sched: seq<S.Step>): (a: seq<Rec>) {
    [hello] + S.Accepted(Start(hello), sched)
  }

  ghost function FileAfter(hello: Rec, sched: seq<S.Step>): (file: seq<byte>) {
    S.FifoRun(Start(hello), sched).file
  }

  ghost predicate Drained(hello: Rec, sched: seq<S.Step>) {
    S.FifoRun(Start(hello), sched).buf.None? && S.FifoRun(Start(hello), sched).queue == []
  }

  lemma FilePrefix(hello: Rec, sched: seq<S.Step>)
    ensures FileAfter(hello, sched) <= Frames(All(hello, sched))
    ensures Drained(hello, sched) ==> FileAfter(hello, sched) == Frames(All(hello, sched))
  {
    hide S.FifoRun, S.Accepted, Frame;
    var s, a := S.FifoRun(Start(hello), sched), S.Accepted(Start(hello), sched);
    S.Conservation(Start(hello), sched);
    FramesHead([hello] + a);
    assert ([hello] + a)[1..] == a;
    assert S.Stream(Start(hello)) == Frame(hello);
    if Drained(hello, sched) {
      assert S.Concat([]) == [];
      assert S.Stream(s) == s.file;
    }
  }

  /** Whatever the kernel takes of each write, the file is whole records and a proper prefix of the next. */
  lemma FileIsCut(hello: Rec, sched: seq<S.Step>)
    ensures var file, a := FileAfter(hello, sched), All(hello, sched);
            |file| <= |Frames(a)| &&
            var n := Complete(a, |file|);
            && file == Frames(a[..n]) + CutTail(a, |file|)
            && (n < |a| ==> CutTail(a, |file|) < Frame(a[n]))
            && (n == |a| ==> CutTail(a, |file|) == [])
            && (Drained(hello, sched) ==> n == |a|)
  {
    hide Frame, FileAfter, All, Drained, Frames, Complete, CutTail;
    FilePrefix(hello, sched);
    var file, a := FileAfter(hello, sched), All(hello, sched);
    CutSplit(a, |file|);
    CutEnd(a);
    var n := Complete(a, |file|);
    if n < |a| {
      FramesHead(a[n..]);
      ShorterPrefix(CutTail(a, |file|), Frame(a[n]), Frames(a[n..][1..]));
    }
  }

  lemma ShorterPrefix(t: seq<byte>, f: seq<byte>, rest: seq<byte>)
    requires t <= f + rest && |t| < |f|
    ensures t < f
  {
    assert (f + rest)[..|t|] == f[..|t|];
  }

  lemma AllOk(hello: Rec, sched: seq<S.Step>)
    requires Framable(hello) && AllWithin(sched)
    ensures AllFramable(All(hello, sched))
  {
    hide Framable, S.Accepted;
    AcceptedFramable(Start(hello), sched);
  }

  /** Read whole at any moment, the file parses to exactly its complete records, none corrupt, if and
      only if its incomplete last record does not contain a complete plausible one. */
  lemma FileParsesIff(hello: Rec, sched: seq<S.Step>)
    requires Framable(hello) && AllWithin(sched)
    ensures var file, a := FileAfter(hello, sched), All(hello, sched);
            |file| <= |Frames(a)| &&
            (CleanAt(a, |file|) <==> Scan(file) == Scanned(a[..Complete(a, |file|)], 0, CutTail(a, |file|)))
  {
    hide Framable, AllFramable, FileAfter, All, Drained, Scan, Frames, AllWithin, Interior, CleanAt, Complete, CutTail;
    FilePrefix(hello, sched);
    AllOk(hello, sched);
    var file, a := FileAfter(hello, sched), All(hello, sched);
    ScanCut(a, |file|);
    assert Frames(a)[..|file|] == file;
  }

  // ---------------------------------------------------------------------
  // A run with polls.
  // ---------------------------------------------------------------------

  /** A cut falls in the same place when more records follow. */
  lemma {:induction false} CutExtends(a: seq<Rec>, b: seq<Rec>, len: nat)
    requires len <= |Frames(a)|
    ensures len <= |Frames(a + b)| && Complete(a + b, len) == Complete(a, len) && CutTail(a + b, len) == CutTail(a, len)
    decreases |a|
  {
    hide Frame;
    if a == [] {
      assert a + b == b;
      CutNothing(b);
    } else {
      assert (a + b)[1..] == a[1..] + b;
      FramesJoin(a, b);
      if len < |Frame(a[0])| {
        assert Frames(a + b)[..len] == Frames(a)[..len];
      } else {
        CutExtends(a[1..], b, len - |Frame(a[0])|);
      }
    }
  }

  lemma {:induction false} FramesJoin(a: seq<Rec>, b: seq<Rec>)
    ensures Frames(a + b) == Frames(a) + Frames(b)
  {
    hide Frame;
    if a == [] {
      assert a + b == b;
    } else {
      assert (a + b)[1..] == a[1..] + b;
      FramesJoin(a[1..], b);
    }
  }

  lemma {:induction false} RunAppend(s: S.Fifo, x: seq<S.Step>, y: seq<S.Step>)
    ensures S.FifoRun(s, x + y) == S.FifoRun(S.FifoRun(s, x), y)
    ensures S.Accepted(s, x + y) == S.Accepted(s, x) + S.Accepted(S.FifoRun(s, x), y)
    decreases |y|
  {
    hide S.FifoStep, S.RecordOf, Frame;
    if y == [] {
      assert x + y == x;
      assert S.Accepted(s, x) + [] == S.Accepted(s, x);
    } else {
      var n := |y| - 1;
      assert (x + y)[..|x + y| - 1] == x + y[..n];
      RunAppend(s, x, y[..n]);
      var took := if y[n].Emit? && S.Accepts(S.FifoRun(s, x + y[..n]), y[n].e) then [S.RecordOf(y[n].e)] else [];
      assert S.Accepted(s, x) + (S.Accepted(S.FifoRun(s, x), y[..n]) + took)
          == S.Accepted(s, x) + S.Accepted(S.FifoRun(s, x), y[..n]) + took;
    }
  }

  lemma {:induction false} FileGrows(s: S.Fifo, sched: seq<S.Step>)
    ensures s.file <= S.FifoRun(s, sched).file
  {
    hide S.Accepts, S.RecordOf, Frame;
    if sched == [] {
    } else {
      FileGrows(s, sched[..|sched| - 1]);
    }
  }

  /** The schedules between the polls, end to end. */
  ghost function Joined(scheds: seq<seq<S.Step>>): (sched: seq<S.Step>) {
    if scheds == [] then [] else Joined(scheds[..|scheds| - 1]) + scheds[|scheds| - 1]
  }

  /** The schedule up to poll `i`. */
  ghost function UpTo(scheds: seq<seq<S.Step>>, i: nat): (sched: seq<S.Step>)
    requires i < |scheds|
  {
    Joined(scheds[..i + 1])
  }

  /** Poll `i` sees the file cut where no interior position of the cut record is plausible. */
  ghost predicate PollClean(hello: Rec, scheds: seq<seq<S.Step>>, i: nat)
    requires i < |scheds|
  {
    CleanAt(All(hello, UpTo(scheds, i)), |FileAfter(hello, UpTo(scheds, i))|)
  }

  ghost predicate PollsClean(hello: Rec, scheds: seq<seq<S.Step>>, n: nat)
    requires n <= |scheds|
  {
    forall i :: 0 <= i < n ==> PollClean(hello, scheds, i)
  }

  lemma JoinedMore(scheds: seq<seq<S.Step>>, i: nat)
    requires i < |scheds|
    ensures UpTo(scheds, i) == Joined(scheds[..i]) + scheds[i] == Joined(scheds[..i + 1])
  {
    assert scheds[..i + 1][..i] == scheds[..i];
  }

  lemma WithinBoth(x: seq<S.Step>, y: seq<S.Step>)
    requires AllWithin(x) && AllWithin(y)
    ensures AllWithin(x + y)
  {
    hide Within;
  }

  lemma RunFits(sched: seq<S.Step>)
    requires AllWithin(sched)
    ensures forall i :: 0 <= i < |sched| && sched[i].Emit? ==> S.EmissionFits(sched[i].e)
  {
  }

  /** The collector stands where the file was cut, with every complete record in the log. */
  ghost predicate CaughtUp(t: C.FileTail, a: seq<Rec>, len: nat) {
    len <= |Frames(a)| && t == C.FileTail(len, CutTail(a, len))
  }

  /** One poll: exactly the records completed since the last one, if and only if this cut is clean. */
  lemma PollExact(tails: map<C.RawFile, C.FileTail>, f: C.RawFile, a: seq<Rec>, len: nat, file: seq<byte>)
    requires AllFramable(a) && CaughtUp(C.TailOf(tails, f), a, len) && file <= Frames(a) && len <= |file|
    ensures Complete(a, len) <= Complete(a, |file|)
    ensures CleanAt(a, |file|) ==>
              && C.ScanOf(tails, f, file) == Scanned(a[Complete(a, len)..Complete(a, |file|)], 0, CutTail(a, |file|))
              && CaughtUp(C.TailAfter(tails, f, file), a, |file|)
    ensures !CleanAt(a, |file|) ==> C.ScanOf(tails, f, file).corrupt > 0
  {
    hide Scan, Frames, AllFramable, CleanAt, CutTail, Complete;
    var seen, chunk := file[..len], file[len..];
    assert seen + chunk == file;
    FeedStep(a, seen, chunk);
  }

  lemma LogGrows(f: C.RawFile, log: seq<C.Event>, a: seq<Rec>, k: nat, n: nat)
    requires k <= n <= |a|
    ensures log + C.From(f, a[..k]) + C.From(f, a[k..n]) == log + C.From(f, a[..n])
  {
  }

  /** The sink and the collector agree on where they are, unless some poll was not clean. */
  ghost predicate InStep(hello: Rec, sched: seq<S.Step>, tail: C.FileTail, log: seq<C.Event>, log0: seq<C.Event>,
                         f: C.RawFile, len: nat, clean: bool) {
    var a := All(hello, sched);
    && len <= |FileAfter(hello, sched)| <= |Frames(a)|
    && (clean ==> CaughtUp(tail, a, len) && log == log0 + C.From(f, a[..Complete(a, len)]))
  }

  /** Producers and drainer run on; the collector's place stays right. */
  lemma RunOn(hello: Rec, x: seq<S.Step>, y: seq<S.Step>, tail: C.FileTail, log: seq<C.Event>, log0: seq<C.Event>,
              f: C.RawFile, len: nat, clean: bool)
    requires InStep(hello, x, tail, log, log0, f, len, clean)
    ensures InStep(hello, x + y, tail, log, log0, f, len, clean)
  {
    hide S.FifoRun, S.Accepted, Frames, Frame, Complete, CutTail, C.From;
    RunAppend(Start(hello), x, y);
    FileGrows(S.FifoRun(Start(hello), x), y);
    FilePrefix(hello, x + y);
    var a, more := All(hello, x), S.Accepted(S.FifoRun(Start(hello), x), y);
    assert All(hello, x + y) == a + more;
    CutExtends(a, more, len);
    assert (a + more)[..Complete(a, len)] == a[..Complete(a, len)];
  }

  lemma PollStep(hello: Rec, sched: seq<S.Step>, tails: map<C.RawFile, C.FileTail>, log: seq<C.Event>,
                 log0: seq<C.Event>, f: C.RawFile, len: nat, clean: bool)
    requires Framable(hello) && AllWithin(sched)
    requires InStep(hello, sched, C.TailOf(tails, f), log, log0, f, len, clean)
    ensures var file, a := FileAfter(hello, sched), All(hello, sched);
            var s := C.ScanOf(tails, f, file);
            && InStep(hello, sched, C.TailAfter(tails, f, file), log + C.From(f, s.recs), log0, f, |file|,
                      clean && CleanAt(a, |file|))
            && (clean ==> (CleanAt(a, |file|) <==> s.corrupt == 0))
  {
    hide Framable, AllFramable, FileAfter, All, Drained, Scan, Frames, AllWithin, Interior, CleanAt, Complete, CutTail,
         C.From, C.ScanOf, C.TailAfter, C.TailOf;
    FilePrefix(hello, sched);
    AllOk(hello, sched);
    if clean {
      var file, a := FileAfter(hello, sched), All(hello, sched);
      PollExact(tails, f, a, len, file);
      LogGrows(f, log0, a, Complete(a, len), Complete(a, |file|));
    }
  }

  lemma StartInStep(hello: Rec, tails: map<C.RawFile, C.FileTail>, log: seq<C.Event>, f: C.RawFile)
    requires f !in tails
    ensures AllWithin([]) && Joined([]) == [] && S.FifoRun(Start(hello), []) == Start(hello) && Frame(hello) != []
    ensures InStep(hello, [], C.TailOf(tails, f), log, log, f, 0, true)
  {
    CutNothing(All(hello, []));
    assert C.From(f, []) == [];
  }

  lemma TailSet(tails: map<C.RawFile, C.FileTail>, f: C.RawFile, content: seq<byte>)
    ensures C.TailOf(tails[f := C.TailAfter(tails, f, content)], f) == C.TailAfter(tails, f, content)
  {
  }

  lemma CleanNext(hello: Rec, scheds: seq<seq<S.Step>>, i: nat)
    requires i < |scheds|
    ensures PollsClean(hello, scheds, i + 1) <==> PollsClean(hello, scheds, i) && PollClean(hello, scheds, i)
  {
    hide PollClean;
  }

  /** Producers, drainer and collector together: the collector polls the file after each stretch of an
      arbitrary interleaving, short writes included. Nothing is declared corrupt, and exactly the
      complete records of the file are logged in lock order, if and only if every poll's cut is clean. */
  method Deliver(hello: Rec, scheds: seq<seq<S.Step>>, collect: C.Collect, f: C.RawFile) returns (sink: S.Sink)
    requires collect.Valid() && f !in collect.tails && Framable(hello)
    requires forall i :: 0 <= i < |scheds| ==> AllWithin(scheds[i])
    modifies collect
    ensures fresh(sink) && sink.Valid() && collect.Valid()
    ensures sink.View() == S.FifoRun(Start(hello), Joined(scheds))
    ensures PollsClean(hello, scheds, |scheds|) <==> collect.corrupt == old(collect.corrupt)
    ensures var a := All(hello, Joined(scheds));
            PollsClean(hello, scheds, |scheds|) && scheds != [] ==>
              collect.log == old(collect.log) + C.From(f, a[..Complete(a, |sink.file|)])
    ensures PollsClean(hello, scheds, |scheds|) && scheds != [] ==>
              LogBears(old(collect.log), collect.log, f, hello, S.TakenIn(Start(hello), Joined(scheds)))
  {
    hide Framable, AllFramable, Frames, Frame, Scan, S.FifoRun, S.Accepted, S.Stream, C.From, C.ScanOf, C.TailAfter,
         AllWithin, Joined, InStep, PollsClean, C.Collect.Valid, S.Sink.Valid, C.TailOf, C.Unread, S.EmissionFits,
         CleanAt, UpTo, All, LogBears;
    sink := new S.Sink(Frame(hello));
    StartInStep(hello, collect.tails, collect.log, f);
    ghost var len, clean := 0, true;
    var i := 0;
    assert scheds[..0] == [];
    assert PollsClean(hello, scheds, 0) by { NoPolls(hello, scheds); }
    while i < |scheds|
      invariant i <= |scheds| && sink.Valid() && collect.Valid() && fresh(sink) && fresh(sink.ring)
                && fresh(sink.ring.data)
      invariant sink.View() == S.FifoRun(Start(hello), Joined(scheds[..i])) && AllWithin(Joined(scheds[..i]))
      invariant clean <==> PollsClean(hello, scheds, i)
      invariant clean <==> collect.corrupt == old(collect.corrupt)
      invariant old(collect.corrupt) <= collect.corrupt
      invariant 0 <= len && (i > 0 ==> len == |sink.file|)
      invariant InStep(hello, Joined(scheds[..i]), C.TailOf(collect.tails, f), collect.log, old(collect.log), f, len,
                       clean)
    {
      ghost var x, sched := Joined(scheds[..i]), Joined(scheds[..i]) + scheds[i];
      RunFits(scheds[i]);
      sink.Run(scheds[i]);
      JoinedMore(scheds, i);
      RunAppend(Start(hello), x, scheds[i]);
      WithinBoth(x, scheds[i]);
      CleanNext(hello, scheds, i);
      RunOn(hello, x, scheds[i], C.TailOf(collect.tails, f), collect.log, old(collect.log), f, len, clean);
      PollStep(hello, sched, collect.tails, collect.log, old(collect.log), f, len, clean);
      TailSet(collect.tails, f, sink.file);
      assert sink.View().file == FileAfter(hello, sched);
      collect.ScanFile(f, sink.file);
      clean := clean && CleanAt(All(hello, sched), |sink.file|);
      len := |sink.file|;
      i := i + 1;
    }
    assert scheds[..i] == scheds;
    LogExact(hello, scheds, C.TailOf(collect.tails, f), collect.log, old(collect.log), f, len, clean);
    if clean {
      FromBears(hello, Joined(scheds), f, old(collect.log), collect.log, Complete(All(hello, Joined(scheds)), len));
    }
  }

  /** The log grew by records of `f`: the hello record, then one for each of the first emissions, field by field
      what was emitted. */
  ghost predicate LogBears(log0: seq<C.Event>, log: seq<C.Event>, f: C.RawFile, hello: Rec, es: seq<S.Emission>) {
    && |log0| <= |log| <= |log0| + 1 + |es| && log[..|log0|] == log0
    && (forall i :: |log0| <= i < |log| ==> log[i].from == f)
    && (|log| > |log0| ==> log[|log0|].r == hello)
    && forall i :: 0 <= i < |log| - |log0| - 1 ==> S.Bears(log[|log0| + 1 + i].r, es[i])
  }

  lemma FromBears(hello: Rec, sched: seq<S.Step>, f: C.RawFile, log0: seq<C.Event>, log: seq<C.Event>, n: nat)
    requires n <= |All(hello, sched)| && log == log0 + C.From(f, All(hello, sched)[..n])
    ensures LogBears(log0, log, f, hello, S.TakenIn(Start(hello), sched))
  {
    S.AcceptedBear(Start(hello), sched);
    hide S.Bears, S.Accepted, S.TakenIn;
    var a, es := All(hello, sched), S.TakenIn(Start(hello), sched);
    forall i | 0 <= i < |log| - |log0| - 1
      ensures S.Bears(log[|log0| + 1 + i].r, es[i])
    {
      assert log[|log0| + 1 + i].r == a[i + 1] == S.Accepted(Start(hello), sched)[i];
    }
  }

  lemma NoPolls(hello: Rec, scheds: seq<seq<S.Step>>)
    ensures PollsClean(hello, scheds, 0)
  {
  }

  lemma LogExact(hello: Rec, scheds: seq<seq<S.Step>>, tail: C.FileTail, log: seq<C.Event>, log0: seq<C.Event>,
                 f: C.RawFile, len: nat, clean: bool)
    requires InStep(hello, Joined(scheds), tail, log, log0, f, len, clean)
    ensures var a := All(hello, Joined(scheds));
            clean ==> log == log0 + C.From(f, a[..Complete(a, len)])
  {
    hide All, Complete, C.From, Frames, CutTail;
  }

  // ---------------------------------------------------------------------
  // When polls are clean, and when not.
  // ---------------------------------------------------------------------

  /** Every write takes whatever the drainer has in hand. */
  ghost predicate WholeWrites(sched: seq<S.Step>) {
    forall i :: 0 <= i < |sched| && sched[i].Drain? ==> sched[i].n >= MAX_RECORD
  }

  /** Of the records `a` the first `n` are in the file, the next may be in hand, whole, the others are queued. */
  ghost predicate Split(s: S.Fifo, a: seq<Rec>, n: nat) {
    var b := if s.buf.Some? then 1 else 0;
    && n + b + |s.queue| == |a|
    && s.file == Frames(a[..n])
    && (s.buf.Some? ==> s.buf.value == Frame(a[n]))
    && forall k :: 0 <= k < |s.queue| ==> s.queue[k] == Frame(a[n + b + k])
  }

  lemma SplitEmit(s: S.Fifo, a: seq<Rec>, n: nat, e: S.Emission)
    requires Split(s, a, n)
    ensures var took := if S.Accepts(s, e) then [S.RecordOf(e)] else [];
            Split(S.FifoStep(s, S.Emit(e)), a + took, n)
  {
    hide Frame, Frames, S.RecordOf, S.Total;
    assert a + [] == a;
    if S.Accepts(s, e) {
      assert (a + [S.RecordOf(e)])[..n] == a[..n];
    }
  }

  lemma SplitDrain(s: S.Fifo, a: seq<Rec>, n: nat, k: nat)
    requires Split(s, a, n) && AllFramable(a) && k >= MAX_RECORD
    ensures Split(S.FifoStep(s, S.Drain(k)), a, n + if s.buf.Some? then 1 else 0)
  {
    hide Frame, Frames, Framable;
    if s.buf.Some? {
      FrameSize(a[n]);
      FramesPush(a[..n], a[n]);
      assert a[..n] + [a[n]] == a[..n + 1];
      assert s.buf.value[..|s.buf.value|] == s.buf.value;
    }
  }

  lemma FrameSize(r: Rec)
    requires Framable(r)
    ensures |Frame(r)| <= MAX_RECORD
  {
  }

  /** One more step of a run. */
  lemma RunPush(s: S.Fifo, front: seq<S.Step>, st: S.Step)
    ensures var s1 := S.FifoRun(s, front);
            var took := if st.Emit? && S.Accepts(s1, st.e) then [S.RecordOf(st.e)] else [];
            && S.FifoRun(s, front + [st]) == S.FifoStep(s1, st)
            && S.Accepted(s, front + [st]) == S.Accepted(s, front) + took
  {
    hide S.FifoStep, S.RecordOf, S.Total, Frame;
    assert (front + [st])[..|front|] == front;
  }

  lemma {:induction false} RunSplit(hello: Rec, sched: seq<S.Step>) returns (n: nat)
    requires Framable(hello) && AllWithin(sched) && WholeWrites(sched)
    ensures Split(S.FifoRun(Start(hello), sched), All(hello, sched), n)
  {
    hide Framable, Frame, Within, S.FifoStep, S.Total, S.RecordOf;
    if sched == [] {
      FramesNone();
      n := 0;
    } else {
      hide Split, S.FifoRun, S.Accepted;
      var front, st := sched[..|sched| - 1], sched[|sched| - 1];
      assert sched == front + [st];
      n := RunSplit(hello, front);
      RunPush(Start(hello), front, st);
      var s, a := S.FifoRun(Start(hello), front), All(hello, front);
      match st {
        case Emit(e) =>
          SplitEmit(s, a, n, e);
          var took := if S.Accepts(s, e) then [S.RecordOf(e)] else [];
          assert [hello] + (S.Accepted(Start(hello), front) + took) == a + took;
        case Drain(k) =>
          AllOk(hello, front);
          SplitDrain(s, a, n, k);
          assert S.Accepted(Start(hello), front) + [] == S.Accepted(Start(hello), front);
          n := n + if s.buf.Some? then 1 else 0;
      }
    }
  }

  /** If the kernel takes every write whole, the file is whole records at every moment and every poll is clean. */
  lemma WholeWritesClean(hello: Rec, sched: seq<S.Step>)
    requires Framable(hello) && AllWithin(sched) && WholeWrites(sched)
    ensures var file, a := FileAfter(hello, sched), All(hello, sched);
            CleanAt(a, |file|) && CutTail(a, |file|) == [] && file == Frames(a[..Complete(a, |file|)])
  {
    hide Framable, S.FifoRun, All, AllWithin, WholeWrites, Frames, Frame, Complete, CutTail;
    FilePrefix(hello, sched);
    var n := RunSplit(hello, sched);
    var file, a := FileAfter(hello, sched), All(hello, sched);
    assert n <= |a| && file == Frames(a[..n]);
    CutEnd(a[..n]);
    assert a == a[..n] + a[n..];
    CutExtends(a[..n], a[n..], |file|);
    ShortCutClean(a, |file|);
    assert a[..n][..n] == a[..n];
  }

  /** A short write can corrupt: the kernel takes 48 of the 49 bytes of a record whose payload starts with
      a record, and the collector polls before the last byte is written. */
  lemma ShortWriteCorrupts(hello: Rec) returns (scheds: seq<seq<S.Step>>)
    requires Framable(hello)
    ensures |scheds| == 1 && AllWithin(scheds[0]) && !PollsClean(hello, scheds, 1)
    ensures Scan(FileAfter(hello, scheds[0])).corrupt > 0
  {
    var inner := Rec(0, 0, 0, 0, 0, []);
    var e := S.Emission(0, 0, 0, Some(Frame(inner) + [0]), 0, 0);
    var outer := S.RecordOf(e);
    assert outer.payload == Frame(inner) + [0] && Fits(0, 8) && Framable(inner);
    var sched := [S.Drain(|Frame(hello)|), S.Emit(e), S.Drain(0), S.Drain(48)];
    assert Within(e) && AllWithin(sched);
    scheds := [sched];
    hide Frame, Framable, AllWithin, Within, S.RecordOf;
    ShortWrite(hello, e, sched);
    CutInside(hello, outer, inner);
    OnePoll(hello, sched);
    AllOk(hello, sched);
    hide All, FileAfter, Frames, Scan, CutTail, Interior, Complete;
    FilePrefix(hello, sched);
    var a := All(hello, sched);
    ScanCut(a, |Frame(hello)| + 48);
    assert Frames(a)[..|FileAfter(hello, sched)|] == FileAfter(hello, sched);
  }

  lemma OnePoll(hello: Rec, sched: seq<S.Step>)
    ensures PollsClean(hello, [sched], 1) <==> CleanAt(All(hello, sched), |FileAfter(hello, sched)|)
  {
    hide All, FileAfter, CleanAt;
    var scheds := [sched];
    assert scheds[..1] == scheds && scheds[..0] == [];
    assert Joined(scheds) == [] + sched == sched;
    assert UpTo(scheds, 0) == sched;
    assert PollClean(hello, scheds, 0) <==> CleanAt(All(hello, sched), |FileAfter(hello, sched)|);
  }

  lemma ShortWrite(hello: Rec, e: S.Emission, sched: seq<S.Step>)
    requires S.PastGuards(e) && |Frame(S.RecordOf(e))| == 49
    requires sched == [S.Drain(|Frame(hello)|), S.Emit(e), S.Drain(0), S.Drain(48)]
    ensures |FileAfter(hello, sched)| == |Frame(hello)| + 48 && All(hello, sched) == [hello, S.RecordOf(e)]
  {
    hide Frame, S.RecordOf, S.FifoRun, S.Accepted;
    var f, g := Frame(hello), Frame(S.RecordOf(e));
    var x1 := [S.Drain(|f|)];
    var x2 := x1 + [S.Emit(e)];
    var x3 := x2 + [S.Drain(0)];
    assert sched == x3 + [S.Drain(48)] && [] + [S.Drain(|f|)] == x1;
    NoSteps(Start(hello));
    RunPush(Start(hello), [], S.Drain(|f|));
    RunPush(Start(hello), x1, S.Emit(e));
    RunPush(Start(hello), x2, S.Drain(0));
    RunPush(Start(hello), x3, S.Drain(48));
    assert f[..|f|] == f && [] + f == f;
    var s1, s2, s3 := S.FifoRun(Start(hello), x1), S.FifoRun(Start(hello), x2), S.FifoRun(Start(hello), x3);
    assert s1 == S.Fifo([], None, f, 0);
    assert S.Total(s1.queue) == 0;
    assert s2 == S.Fifo([g], None, f, 0);
    assert s2.queue[1..] == [];
    assert s3 == S.Fifo([], Some(g), f, 0);
  }

  lemma NoSteps(s: S.Fifo)
    ensures S.FifoRun(s, []) == s && S.Accepted(s, []) == []
  {
  }

  /** Cut before its last byte, the record shows the one its payload starts with. */
  lemma CutInside(hello: Rec, outer: Rec, inner: Rec)
    requires outer.payload == Frame(inner) + [0] && inner.payload == [] && Framable(inner)
    ensures |Frame(hello)| + 48 <= |Frames([hello, outer])| && !CleanAt([hello, outer], |Frame(hello)| + 48)
  {
    hide Header, Framable, Interior;
    CutOne(hello, outer);
    HeaderThenInner(outer, inner);
    EmbeddedPlausible(inner, Header(outer));
  }

  lemma HeaderThenInner(outer: Rec, inner: Rec)
    requires outer.payload == Frame(inner) + [0] && inner.payload == []
    ensures Frame(outer)[..48] == Header(outer) + Frame(inner)
  {
    hide Header;
  }

  lemma CutOne(hello: Rec, outer: Rec)
    requires |outer.payload| == 25
    ensures |Frame(hello)| + 48 <= |Frames([hello, outer])|
    ensures CutTail([hello, outer], |Frame(hello)| + 48) == Frame(outer)[..48]
  {
    hide Frame;
    assert [hello, outer][1..] == [outer] && [outer][1..] == [];
    FramesHead([hello, outer]);
    FramesHead([outer]);
    FramesNone();
    assert Frames([outer]) == Frame(outer);
  }
}
