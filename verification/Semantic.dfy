/** The second pass of src/bctrace.rs: one deferred record per (process, isolate), whose result is the
    accumulator of the record that follows it in the same partition. */
module Semantic {
  import opened Bytes
  import opened Blocks
  import opened Bytecode
  import opened Glue

  datatype ResVal = ResStr(s: seq<byte>) | ResStr16(s: seq<byte>) | ResF64(bits: nat) | ResSmi(v: int)

  /** One line of the semantic stream: the record, its time, and the result paired with it. */
  datatype Line = Line(body: seq<byte>, ts: nat, res: Option<ResVal>)

  type Key = (nat, nat)

  function KeyOf(r: Sunk): (res: Key)
    requires IsInstruction(r)
  {
    (r.pid, FromLe(r.body[12..16]))
  }

  predicate JsCallOp(name: string) {
    name in {"CallProperty", "CallProperty0", "CallProperty1", "CallProperty2", "CallUndefinedReceiver0",
             "CallUndefinedReceiver1", "CallUndefinedReceiver2", "CallWithSpread", "Construct", "ConstructWithSpread"}
  }

  /** `Pv::bytes`. */
  function BytesAt(body: seq<byte>, at: nat, len: nat): (r: seq<byte>) {
    if at + len <= |body| then body[at..at + len] else []
  }

  /** The first accumulator value among the typed values. */
  function FirstAcc(body: seq<byte>, pvs: seq<Pv>): (r: Option<ResVal>) {
    if pvs == [] then None
    else match pvs[0]
      case Str(at, len) => Some(ResStr(BytesAt(body, at, len)))
      case Str16(at, len) => Some(ResStr16(BytesAt(body, at, len)))
      case F64(bits) => Some(ResF64(bits))
      case Smi(v) => Some(ResSmi(v))
      case _ => FirstAcc(body, pvs[1..])
  }

  /** `acc_of`: the accumulator a record carries, when its flag says it carries one. */
  function AccOf(r: Sunk): (res: Option<ResVal>)
    requires IsInstruction(r)
  {
    if r.body[3] / 4 % 2 == 0 then None else FirstAcc(r.body, PvsOf(r.body))
  }

  predicate Known(r: Sunk, meta: seq<OpMeta>)
    requires IsInstruction(r)
  {
    r.body[0] < |meta|
  }

  /** The opcode writes the accumulator and its successor is not a callee. */
  predicate WantsRes(r: Sunk, meta: seq<OpMeta>)
    requires IsInstruction(r)
  {
    Known(r, meta) && meta[r.body[0]].accUse / 2 % 2 == 1 && !JsCallOp(meta[r.body[0]].name)
  }

  // ---------------------------------------------------------------------
  // The two-pass specification, one partition at a time.
  // ---------------------------------------------------------------------

  /** The instruction records of one partition, in input order. */
  function Of(recs: seq<Sunk>, key: Key): (p: seq<Sunk>)
    ensures forall k :: 0 <= k < |p| ==> IsInstruction(p[k]) && KeyOf(p[k]) == key
  {
    if recs == [] then []
    else
      var p, r := Of(recs[..|recs| - 1], key), recs[|recs| - 1];
      if IsInstruction(r) && KeyOf(r) == key then p + [r] else p
  }

  ghost predicate AllInstructions(p: seq<Sunk>) {
    forall k :: 0 <= k < |p| ==> IsInstruction(p[k])
  }

  /** The line for `r`, if its opcode is known, with its immediate successor's accumulator. */
  function LineFor(r: Sunk, next: Option<Sunk>, meta: seq<OpMeta>): (lines: seq<Line>)
    requires IsInstruction(r) && (next.Some? ==> IsInstruction(next.value))
    ensures |lines| <= 1
  {
    if !Known(r, meta) then []
    else [Line(r.body, r.ts, if next.Some? && WantsRes(r, meta) then AccOf(next.value) else None)]
  }

  /** Every record of the partition, each with its successor, the last with none. */
  function TwoPass(p: seq<Sunk>, meta: seq<OpMeta>): (r: seq<Line>)
    requires AllInstructions(p)
  {
    if p == [] then []
    else LineFor(p[0], if |p| > 1 then Some(p[1]) else None, meta) + TwoPass(p[1..], meta)
  }

  /** How many of the first `k` records have a known opcode. */
  function KnownBefore(p: seq<Sunk>, meta: seq<OpMeta>, k: nat): (r: nat)
    requires AllInstructions(p) && k <= |p|
  {
    if k == 0 then 0 else KnownBefore(p, meta, k - 1) + if p[k - 1].body[0] < |meta| then 1 else 0
  }

  lemma {:induction false} KnownShift(p: seq<Sunk>, meta: seq<OpMeta>, k: nat)
    requires AllInstructions(p) && 1 <= k <= |p|
    ensures KnownBefore(p, meta, k) == (if Known(p[0], meta) then 1 else 0) + KnownBefore(p[1..], meta, k - 1)
  {
    hide IsInstruction;
    if k > 1 {
      KnownShift(p, meta, k - 1);
    }
  }

  /** Read by position: a known record's line is where the known records before it put it, and carries
      the accumulator of the very next record of the partition, known or not, or nothing. */
  lemma {:induction false} TwoPassAt(p: seq<Sunk>, meta: seq<OpMeta>, k: nat)
    requires AllInstructions(p) && k < |p| && p[k].body[0] < |meta|
    ensures |TwoPass(p, meta)| == KnownBefore(p, meta, |p|) && KnownBefore(p, meta, k) < |TwoPass(p, meta)|
    ensures var line, op := TwoPass(p, meta)[KnownBefore(p, meta, k)], meta[p[k].body[0]];
            && line.body == p[k].body && line.ts == p[k].ts
            && (line.res.Some? <==>
                  && k + 1 < |p| && AccOf(p[k + 1]).Some? && op.accUse / 2 % 2 == 1
                  && op.name != "CallProperty" && op.name != "CallProperty0" && op.name != "CallProperty1"
                  && op.name != "CallProperty2" && op.name != "CallUndefinedReceiver0"
                  && op.name != "CallUndefinedReceiver1" && op.name != "CallUndefinedReceiver2"
                  && op.name != "CallWithSpread" && op.name != "Construct" && op.name != "ConstructWithSpread")
            && (line.res.Some? ==> line.res == AccOf(p[k + 1]))
  {
    LineAt(p, meta, k);
    hide TwoPass, AccOf;
  }

  lemma {:induction false} LineAt(p: seq<Sunk>, meta: seq<OpMeta>, k: nat)
    requires AllInstructions(p) && k < |p| && Known(p[k], meta)
    ensures |TwoPass(p, meta)| == KnownBefore(p, meta, |p|) && KnownBefore(p, meta, k) < |TwoPass(p, meta)|
    ensures TwoPass(p, meta)[KnownBefore(p, meta, k)]
         == Line(p[k].body, p[k].ts, if k + 1 < |p| && WantsRes(p[k], meta) then AccOf(p[k + 1]) else None)
  {
    TwoPassCount(p, meta);
    hide IsInstruction, WantsRes, AccOf;
    if k == 0 {
    } else {
      KnownShift(p, meta, k);
      LineAt(p[1..], meta, k - 1);
    }
  }

  lemma {:induction false} TwoPassCount(p: seq<Sunk>, meta: seq<OpMeta>)
    requires AllInstructions(p)
    ensures |TwoPass(p, meta)| == KnownBefore(p, meta, |p|)
  {
    if p == [] {
    } else {
      hide IsInstruction, TwoPass, KnownBefore;
      TwoPassCount(p[1..], meta);
      KnownShift(p, meta, |p|);
      TwoPassFirst(p, meta);
    }
  }

  lemma TwoPassFirst(p: seq<Sunk>, meta: seq<OpMeta>)
    requires AllInstructions(p) && p != []
    ensures |TwoPass(p, meta)| == (if Known(p[0], meta) then 1 else 0) + |TwoPass(p[1..], meta)|
  {
    hide IsInstruction, WantsRes, AccOf;
  }

  /** A block that carries an accumulator value. */
  predicate AccBlock(b: Block) {
    b.tag == 0 || b.tag == 11 || (b.tag == 1 && |b.body| == 8) || (b.tag == 2 && |b.body| == 4)
  }

  predicate IsAcc(pv: Pv) {
    pv.Str? || pv.Str16? || pv.F64? || pv.Smi?
  }

  /** The accumulator is what the first accumulator block of the record holds, if there is one and the flag is
      set: a string's bytes, a float's bits, or a signed 32-bit number. */
  lemma AccIsFirst(r: Sunk, bs: seq<Block>, k: nat)
    requires IsInstruction(r) && Payload(r.body, bs) && k <= |bs|
    requires forall j :: 0 <= j < k ==> !AccBlock(bs[j])
    requires k < |bs| ==> AccBlock(bs[k])
    ensures AccOf(r).Some? <==> r.body[3] / 4 % 2 == 1 && k < |bs|
    ensures AccOf(r).Some? ==>
              var b, n := bs[k], FromLe(bs[k].body);
              && (b.tag == 0 ==> AccOf(r).value == ResStr(b.body))
              && (b.tag == 11 ==> AccOf(r).value == ResStr16(b.body))
              && (b.tag == 1 ==> AccOf(r).value == ResF64(n))
              && (b.tag == 2 ==> AccOf(r).value == ResSmi(if n < 0x8000_0000 then n else n - 0x1_0000_0000))
  {
    PayloadCut(r.body, bs);
    var rest := CutSplits(r.body[HDR_LEN..]);
    hide FromLe, Cut, TypedAll, FirstAcc, AccBlock, Payload, RenderAll;
    FirstAccByBlocks(r.body, bs, HDR_LEN, rest, k);
    if k < |bs| {
      AccBlockTag(bs[k]);
    }
  }

  lemma AccBlockTag(b: Block)
    requires AccBlock(b)
    ensures b.tag == 0 || b.tag == 11 || b.tag == 1 || b.tag == 2
  {
  }

  /** What an accumulator block holds. */
  function Shown(b: Block): (v: ResVal) {
    if b.tag == 0 then ResStr(b.body)
    else if b.tag == 11 then ResStr16(b.body)
    else if b.tag == 1 then ResF64(FromLe(b.body))
    else ResSmi(Signed(FromLe(b.body), 0x8000_0000))
  }

  lemma {:induction false} AccBlockRead(body: seq<byte>, b: Block, at: nat, more: seq<byte>)
    requires at <= |body| && body[at..] == Render(b) + more
    ensures AccBlock(b) <==> Typed(b, at + 5).Some? && IsAcc(Typed(b, at + 5).value)
    ensures AccBlock(b) ==> FirstAcc(body, [Typed(b, at + 5).value]) == Some(Shown(b))
  {
    BodyAt(body, at, b, more);
    hide FromLe, Render, Signed;
  }

  lemma FirstAccStep(body: seq<byte>, first: Option<Pv>, pvs: seq<Pv>)
    ensures FirstAcc(body, (if first.Some? then [first.value] else []) + pvs)
         == if first.Some? && IsAcc(first.value) then FirstAcc(body, [first.value]) else FirstAcc(body, pvs)
  {
    if first.Some? {
      assert ([first.value] + pvs)[1..] == pvs;
    } else {
      assert [] + pvs == pvs;
    }
  }

  lemma {:induction false} FirstAccByBlocks(body: seq<byte>, bs: seq<Block>, at: nat, rest: seq<byte>, k: nat)
    requires at <= |body| && body[at..] == RenderAll(bs) + rest && k <= |bs|
    requires (forall j :: 0 <= j < k ==> !AccBlock(bs[j])) && (k < |bs| ==> AccBlock(bs[k]))
    ensures FirstAcc(body, TypedAll(bs, at)) == if k < |bs| then Some(Shown(bs[k])) else None
    decreases |bs|
  {
    hide AccBlock, IsAcc, FirstAcc, Typed, TypedAll, Render, Shown;
    if bs == [] {
      NoAcc(body, at);
    } else {
      var b, more := bs[0], RenderAll(bs[1..]) + rest;
      assert bs == [b] + bs[1..];
      RenderFirst(b, bs[1..], rest);
      BodyAt(body, at, b, more);
      AccBlockRead(body, b, at, more);
      TypedFirst(b, bs[1..], at);
      FirstAccStep(body, Typed(b, at + 5), TypedAll(bs[1..], at + 5 + |b.body|));
      if k > 0 {
        FirstAccByBlocks(body, bs[1..], at + 5 + |b.body|, rest, k - 1);
      }
    }
  }

  lemma NoAcc(body: seq<byte>, at: nat)
    ensures FirstAcc(body, TypedAll([], at)) == None
  {
  }

  /** The partition of a process and an isolate takes exactly the instruction records of that process whose header
      names that isolate. */
  lemma PartitionTakes(recs: seq<Sunk>, r: Sunk, pid: nat, iso: nat)
    ensures Of(recs + [r], (pid, iso)) == Of(recs, (pid, iso))
              + if |r.body| >= 72 && r.body[0] != 0xfe && r.body[0] != 0xff && r.pid == pid
                   && FromLe(r.body[12..16]) == iso then [r] else []
  {
    hide FromLe;
    assert (recs + [r])[..|recs|] == recs;
  }

  /** The same without the last record, whose successor is not known yet. */
  function Settled(p: seq<Sunk>, meta: seq<OpMeta>): (r: seq<Line>)
    requires AllInstructions(p)
  {
    if |p| < 2 then [] else LineFor(p[0], Some(p[1]), meta) + Settled(p[1..], meta)
  }

  lemma {:induction false} SettledGrows(p: seq<Sunk>, r: Sunk, meta: seq<OpMeta>)
    requires AllInstructions(p) && p != [] && IsInstruction(r)
    ensures Settled(p + [r], meta) == Settled(p, meta) + LineFor(p[|p| - 1], Some(r), meta)
  {
    hide LineFor, IsInstruction;
    if |p| == 1 {
      assert (p + [r])[1..] == [r];
      assert Settled([r], meta) == [];
    } else {
      assert (p + [r])[1..] == p[1..] + [r];
      SettledGrows(p[1..], r, meta);
    }
  }

  lemma {:induction false} SettledTail(p: seq<Sunk>, meta: seq<OpMeta>)
    requires AllInstructions(p) && p != []
    ensures TwoPass(p, meta) == Settled(p, meta) + LineFor(p[|p| - 1], None, meta)
  {
    hide LineFor, IsInstruction;
    if |p| == 1 {
      assert p[1..] == [] && TwoPass(p[1..], meta) == [];
    } else {
      SettledTail(p[1..], meta);
    }
  }

  /** The lines a partition got: a line belongs to the partition of the record it was made from. */
  function LinesOf(out: seq<(Key, Line)>, key: Key): (r: seq<Line>) {
    if out == [] then []
    else
      var p, x := LinesOf(out[..|out| - 1], key), out[|out| - 1];
      if x.0 == key then p + [x.1] else p
  }

  lemma LinesPush(out: seq<(Key, Line)>, x: (Key, Line), key: Key)
    ensures LinesOf(out + [x], key) == if x.0 == key then LinesOf(out, key) + [x.1] else LinesOf(out, key)
  {
    assert (out + [x])[..|out|] == out;
  }

  lemma OfPush(recs: seq<Sunk>, n: nat, key: Key)
    requires n < |recs|
    ensures Of(recs[..n + 1], key)
         == if IsInstruction(recs[n]) && KeyOf(recs[n]) == key then Of(recs[..n], key) + [recs[n]]
            else Of(recs[..n], key)
  {
    assert recs[..n + 1][..n] == recs[..n];
  }

  // ---------------------------------------------------------------------
  // The pass.
  // ---------------------------------------------------------------------

  /** The deferred record of a partition is its last one so far; the ones before it are out. */
  ghost predicate InStep(recs: seq<Sunk>, defer: map<Key, Sunk>, out: seq<(Key, Line)>, meta: seq<OpMeta>) {
    forall key :: InStepAt(recs, defer, out, meta, key)
  }

  ghost predicate InStepAt(recs: seq<Sunk>, defer: map<Key, Sunk>, out: seq<(Key, Line)>, meta: seq<OpMeta>, key: Key) {
    var p := Of(recs, key);
    && LinesOf(out, key) == Settled(p, meta)
    && (key in defer <==> p != []) && (p != [] ==> defer[key] == p[|p| - 1])
  }

  /** Deferred records sit under their own partition. */
  ghost predicate Held(defer: map<Key, Sunk>) {
    forall k :: k in defer ==> IsInstruction(defer[k]) && KeyOf(defer[k]) == k
  }

  lemma InStepHeld(recs: seq<Sunk>, defer: map<Key, Sunk>, out: seq<(Key, Line)>, meta: seq<OpMeta>)
    requires InStep(recs, defer, out, meta)
    ensures Held(defer)
  {
    hide IsInstruction, KeyOf, Settled, Of, LinesOf;
    forall k | k in defer
      ensures IsInstruction(defer[k]) && KeyOf(defer[k]) == k
    {
      assert InStepAt(recs, defer, out, meta, k);
    }
  }

  class Sem {
    const meta: seq<OpMeta>
    var defer: map<Key, Sunk>
    /** Every line written, in order, with the partition it came from. */
    var out: seq<(Key, Line)>

    constructor (meta: seq<OpMeta>)
      ensures this.meta == meta && defer == map[] && out == []
    {
      this.meta := meta;
      defer, out := map[], [];
    }

    /** `Sem::emit` on an instruction record; unknown opcodes are dropped. */
    method EmitLine(r: Sunk, res: Option<ResVal>)
      requires IsInstruction(r)
      modifies this`out
      ensures out == old(out) + if Known(r, meta) then [(KeyOf(r), Line(r.body, r.ts, res))] else []
    {
      if r.body[0] < |meta| {
        out := out + [(KeyOf(r), Line(r.body, r.ts, res))];
      }
    }

    method Accumulator(r: Sunk) returns (a: Option<ResVal>)
      requires IsInstruction(r)
      ensures a == AccOf(r)
    {
      hide PvsOf;
      if r.body[3] / 4 % 2 == 0 {
        return None;
      }
      var pvs := ParseBlocks(r.body);
      var k := 0;
      while k < |pvs|
        invariant k <= |pvs| && AccOf(r) == FirstAcc(r.body, pvs[k..])
      {
        assert pvs[k..][1..] == pvs[k + 1..];
        match pvs[k] {
          case Str(at, len) => return Some(ResStr(BytesAt(r.body, at, len)));
          case Str16(at, len) => return Some(ResStr16(BytesAt(r.body, at, len)));
          case F64(bits) => return Some(ResF64(bits));
          case Smi(v) => return Some(ResSmi(v));
          case _ =>
        }
        k := k + 1;
      }
      a := None;
    }

    /** One record: it settles the deferred one of its partition and takes its place. */
    method Take(r: Sunk)
      requires IsInstruction(r) && Held(defer)
      modifies this
      ensures defer == old(defer)[KeyOf(r) := r]
      ensures out == old(out) + if KeyOf(r) in old(defer)
                                then Tagged(KeyOf(r), LineFor(old(defer)[KeyOf(r)], Some(r), meta)) else []
    {
      hide FromLe, JsCallOp, AccOf;
      var key := KeyOf(r);
      if key in defer {
        var d := defer[key];
        var res: Option<ResVal> := None;
        if d.body[0] < |meta| && meta[d.body[0]].accUse / 2 % 2 == 1 && !JsCallOp(meta[d.body[0]].name) {
          res := Accumulator(r);
        }
        EmitLine(d, res);
      }
      defer := defer[key := r];
    }

    /** The whole pass over any records, split or not: every partition gets exactly the two-pass lines of the
        instructions the records stand for, and no other lines are written. */
    method Pass(recs: seq<Sunk>)
      requires defer == map[] && out == []
      modifies this
      ensures forall key :: LinesOf(out, key) == TwoPass(Of(Stream(recs), key), meta)
    {
      hide InStepAt, IsInstruction, LineFor, Settled, TwoPass, Held, Of, LinesOf, Stream, Glued, Pending;
      assert recs[..0] == [] && Stream([]) == [] by { NothingStreams(); }
      forall key ensures InStepAt([], defer, out, meta, key) { StartInStep(meta, key); }
      var gluer := new Gluer();
      var n := 0;
      while n < |recs|
        invariant n <= |recs| && gluer.Valid(recs[..n], false) && fresh(gluer)
        invariant InStep(Stream(recs[..n]), defer, out, meta)
      {
        assert recs[..n + 1] == recs[..n] + [recs[n]];
        StreamPush(recs[..n], recs[n]);
        if IsInstruction(recs[n]) {
          var full := gluer.Feed(recs[..n], recs[n]);
          if full.Some? {
            Settle(Stream(recs[..n]), full.value);
          }
        } else {
          gluer.Skip(recs[..n], recs[n], false);
        }
        n := n + 1;
      }
      assert recs[..n] == recs;
      Tail(Stream(recs));
    }

    /** One more instruction after `seen`. */
    method Settle(ghost seen: seq<Sunk>, r: Sunk)
      requires IsInstruction(r) && InStep(seen, defer, out, meta)
      modifies this
      ensures InStep(seen + [r], defer, out, meta)
    {
      hide InStepAt, IsInstruction, LineFor, Settled, TwoPass, Held, Of, LinesOf;
      ghost var defer0, out0, recs := defer, out, seen + [r];
      InStepHeld(seen, defer, out, meta);
      Take(r);
      assert recs[..|seen|] == seen && recs[..|seen| + 1] == recs;
      forall key ensures InStepAt(recs, defer, out, meta, key) {
        TakeInStep(recs, |seen|, defer0, out0, out, meta, key);
      }
    }

    /** The tail: what is still deferred goes out unpaired, in any order. */
    method Tail(ghost recs: seq<Sunk>)
      requires InStep(recs, defer, out, meta)
      modifies this
      ensures forall key :: LinesOf(out, key) == TwoPass(Of(recs, key), meta)
    {
      hide InStep, Flushed, IsInstruction, LineFor, Settled, TwoPass, Of, LinesOf, FromLe;
      var keys := defer.Keys;
      TailStarts(recs, defer, out, meta);
      while keys != {}
        invariant keys <= defer.Keys && defer == old(defer)
        invariant Held(defer) && forall key :: Flushed(recs, defer, keys, out, meta, key)
        decreases |keys|
      {
        var k :| k in keys;
        ghost var out0, keys0 := out, keys;
        EmitLine(defer[k], None);
        keys := keys - {k};
        forall key
          ensures Flushed(recs, defer, keys, out, meta, key)
        {
          TailTurn(recs, defer, keys0, k, out0, out, meta, key);
        }
      }
      forall key
        ensures LinesOf(out, key) == TwoPass(Of(recs, key), meta)
      {
        TailDone(recs, defer, out, meta, key);
      }
    }
  }

  /** Partitions still in `keys` lack their last line; the others are complete. */
  ghost predicate Flushed(recs: seq<Sunk>, defer: map<Key, Sunk>, keys: set<Key>, out: seq<(Key, Line)>,
                          meta: seq<OpMeta>, key: Key)
  {
    var p := Of(recs, key);
    && (key in defer <==> p != []) && (p != [] ==> defer[key] == p[|p| - 1])
    && LinesOf(out, key) == if key in keys then Settled(p, meta) else TwoPass(p, meta)
  }

  lemma TailStarts(recs: seq<Sunk>, defer: map<Key, Sunk>, out: seq<(Key, Line)>, meta: seq<OpMeta>)
    requires InStep(recs, defer, out, meta)
    ensures Held(defer) && forall key :: Flushed(recs, defer, defer.Keys, out, meta, key)
  {
    InStepHeld(recs, defer, out, meta);
    hide Held, IsInstruction, LineFor, Settled, TwoPass, Of, LinesOf, FromLe;
    NothingSettled(meta);
    forall key
      ensures Flushed(recs, defer, defer.Keys, out, meta, key)
    {
      assert InStepAt(recs, defer, out, meta, key);
    }
  }

  lemma TailTurn(recs: seq<Sunk>, defer: map<Key, Sunk>, keys: set<Key>, k: Key, out: seq<(Key, Line)>,
                 out': seq<(Key, Line)>, meta: seq<OpMeta>, key: Key)
    requires k in keys && keys <= defer.Keys && Held(defer)
    requires Flushed(recs, defer, keys, out, meta, k) && Flushed(recs, defer, keys, out, meta, key)
    requires out' == out + if Known(defer[k], meta)
                           then [(KeyOf(defer[k]), Line(defer[k].body, defer[k].ts, None))] else []
    ensures Flushed(recs, defer, keys - {k}, out', meta, key)
  {
    hide IsInstruction, LineFor, Settled, TwoPass, Of, LinesOf, FromLe, Known, KeyOf;
    EmittedLines(out, out', defer[k], None, meta, key);
    SettledTail(Of(recs, k), meta);
  }

  lemma TailDone(recs: seq<Sunk>, defer: map<Key, Sunk>, out: seq<(Key, Line)>, meta: seq<OpMeta>, key: Key)
    requires Flushed(recs, defer, {}, out, meta, key)
    ensures LinesOf(out, key) == TwoPass(Of(recs, key), meta)
  {
    hide TwoPass, Of, LinesOf;
  }

  lemma NothingSettled(meta: seq<OpMeta>)
    ensures Settled([], meta) == TwoPass([], meta)
  {
  }

  function Tagged(key: Key, lines: seq<Line>): (r: seq<(Key, Line)>)
    requires |lines| <= 1
  {
    if lines == [] then [] else [(key, lines[0])]
  }

  lemma StartInStep(meta: seq<OpMeta>, key: Key)
    ensures InStepAt([], map[], [], meta, key)
  {
  }

  lemma TakeInStep(recs: seq<Sunk>, n: nat, defer: map<Key, Sunk>, out: seq<(Key, Line)>, out': seq<(Key, Line)>,
                   meta: seq<OpMeta>, key: Key)
    requires n < |recs| && IsInstruction(recs[n]) && InStep(recs[..n], defer, out, meta)
    requires Held(defer)
    requires out' == out + if KeyOf(recs[n]) in defer
                           then Tagged(KeyOf(recs[n]), LineFor(defer[KeyOf(recs[n])], Some(recs[n]), meta)) else []
    ensures InStepAt(recs[..n + 1], defer[KeyOf(recs[n]) := recs[n]], out', meta, key)
  {
    hide IsInstruction, LineFor, Settled, Of, LinesOf, FromLe;
    var r, k := recs[n], KeyOf(recs[n]);
    assert InStepAt(recs[..n], defer, out, meta, key);
    assert InStepAt(recs[..n], defer, out, meta, k);
    OfPush(recs, n, key);
    var p := Of(recs[..n], k);
    if k in defer {
      assert IsInstruction(p[|p| - 1]) && KeyOf(p[|p| - 1]) == k;
      TaggedLines(out, k, LineFor(defer[k], Some(r), meta), key);
      SettledGrows(p, r, meta);
    } else {
      assert out + [] == out;
      SettledOne(r, meta);
    }
  }

  lemma SettledOne(r: Sunk, meta: seq<OpMeta>)
    requires IsInstruction(r)
    ensures Settled([], meta) == [] && Settled([r], meta) == [] && [] + [r] == [r]
  {
  }

  lemma TaggedLines(out: seq<(Key, Line)>, k: Key, lines: seq<Line>, key: Key)
    requires |lines| <= 1
    ensures LinesOf(out + Tagged(k, lines), key) == LinesOf(out, key) + if key == k then lines else []
  {
    if lines == [] {
      assert out + [] == out;
    } else {
      LinesPush(out, (k, lines[0]), key);
    }
  }

  lemma EmittedLines(out: seq<(Key, Line)>, out': seq<(Key, Line)>, r: Sunk, res: Option<ResVal>, meta: seq<OpMeta>,
                     key: Key)
    requires IsInstruction(r) && res.None?
    requires out' == out + if Known(r, meta) then [(KeyOf(r), Line(r.body, r.ts, res))] else []
    ensures LinesOf(out', key) == LinesOf(out, key) + if key == KeyOf(r) then LineFor(r, None, meta) else []
  {
    TaggedLines(out, KeyOf(r), LineFor(r, None, meta), key);
  }
}
