/** The static walk of src/bctrace.rs: instruction boundaries, blocks, and which of them ran. */
module Bytecode {
  import opened Bytes

  /** One opcode's metadata; `sizes` are its total sizes at scale 1, 2 and 4. */
  datatype OpMeta = OpMeta(name: string, flags: byte, accUse: byte, sizes: seq<nat>)

  datatype Instr = Instr(offset: nat, opcode: byte)

  /** The scale an opcode announces for the instruction behind it. */
  function ScaleOf(m: OpMeta): (r: nat) {
    if m.name == "Wide" || m.name == "DebugBreakWide" then 1
    else if m.name == "ExtraWide" || m.name == "DebugBreakExtraWide" then 2
    else 0
  }

  /** The prefix that doubles operands, and the one that quadruples them, each with its breakpoint form. */
  ghost predicate Doubles(name: string) {
    name == "Wide" || name == "DebugBreakWide"
  }

  ghost predicate Quadruples(name: string) {
    name == "ExtraWide" || name == "DebugBreakExtraWide"
  }

  ghost predicate Shaped(meta: seq<OpMeta>) {
    forall k :: 0 <= k < |meta| ==> |meta[k].sizes| == 3
  }

  /** Every opcode that stands without a prefix takes up some space. */
  ghost predicate Advancing(meta: seq<OpMeta>) {
    && Shaped(meta)
    && forall k :: 0 <= k < |meta| && !Doubles(meta[k].name) && !Quadruples(meta[k].name) ==> 1 <= meta[k].sizes[0]
  }

  /** Every instruction takes up some space, at every scale. */
  ghost predicate MetaOk(meta: seq<OpMeta>) {
    Advancing(meta) && forall k, j :: 0 <= k < |meta| && 0 <= j < 3 ==> 1 <= meta[k].sizes[j]
  }

  // ---------------------------------------------------------------------
  // What a compiler emits.
  // ---------------------------------------------------------------------

  /** One assembled instruction: an optional scaling prefix, the opcode, its operand bytes. */
  datatype Op = Op(wide: Option<byte>, opcode: byte, operands: seq<byte>)

  /** An instruction whose size is that of its opcode at the scale of its prefix. */
  ghost predicate OpOk(op: Op, meta: seq<OpMeta>)
    requires Shaped(meta)
  {
    && op.opcode < |meta|
    && match op.wide
       case None =>
         && !Doubles(meta[op.opcode].name) && !Quadruples(meta[op.opcode].name)
         && 1 + |op.operands| == meta[op.opcode].sizes[0]
       case Some(w) =>
         && w < |meta| && (Doubles(meta[w].name) || Quadruples(meta[w].name))
         && 1 + |op.operands| == meta[op.opcode].sizes[if Doubles(meta[w].name) then 1 else 2]
  }

  function Emit(op: Op): (r: seq<byte>)
    ensures |r| == (if op.wide.Some? then 2 else 1) + |op.operands|
  {
    (if op.wide.Some? then [op.wide.value] else []) + [op.opcode] + op.operands
  }

  function Assemble(ops: seq<Op>): (r: seq<byte>) {
    if ops == [] then [] else Emit(ops[0]) + Assemble(ops[1..])
  }

  /** Where each instruction's opcode byte lands. */
  function Placed(ops: seq<Op>, off: nat): (r: seq<Instr>) {
    if ops == [] then []
    else [Instr(if ops[0].wide.Some? then off + 1 else off, ops[0].opcode)] + Placed(ops[1..], off + |Emit(ops[0])|)
  }

  // ---------------------------------------------------------------------
  // The walk.
  // ---------------------------------------------------------------------

  /** One turn of the walk at `off`: the instruction found and where the next one starts. */
  function Turn(bc: seq<byte>, meta: seq<OpMeta>, off: nat): (r: Option<(Instr, nat)>)
    requires off < |bc| && Shaped(meta)
    ensures r.Some? ==> off <= r.value.0.offset < |bc| && r.value.0.opcode < |meta| && r.value.0.offset <= r.value.1
    ensures r.Some? && Advancing(meta) ==> off < r.value.1
  {
    if bc[off] >= |meta| then None
    else
      var k := ScaleOf(meta[bc[off]]);
      var base := if k > 0 then off + 1 else off;
      if base >= |bc| || bc[base] >= |meta| then None
      else Some((Instr(base, bc[base]), base + meta[bc[base]].sizes[k]))
  }

  /** The walk cannot go on at `off`: the opcode there is unknown, or it is a prefix with no known opcode behind it. */
  ghost predicate Fails(bc: seq<byte>, meta: seq<OpMeta>, off: nat) {
    && off < |bc|
    && (bc[off] >= |meta|
        || ((Doubles(meta[bc[off]].name) || Quadruples(meta[bc[off]].name))
            && (off + 1 >= |bc| || bc[off + 1] >= |meta|)))
  }

  /** One turn, by the names of the opcodes: a prefix scales the opcode behind it, and that opcode's size at the
      scale says where the next turn starts. */
  lemma TurnIs(bc: seq<byte>, meta: seq<OpMeta>, off: nat)
    requires off < |bc| && Shaped(meta)
    ensures Turn(bc, meta, off).None? <==> Fails(bc, meta, off)
    ensures Turn(bc, meta, off).Some? ==>
              var op := meta[bc[off]];
              if Doubles(op.name) then
                Turn(bc, meta, off).value == (Instr(off + 1, bc[off + 1]), off + 1 + meta[bc[off + 1]].sizes[1])
              else if Quadruples(op.name) then
                Turn(bc, meta, off).value == (Instr(off + 1, bc[off + 1]), off + 1 + meta[bc[off + 1]].sizes[2])
              else Turn(bc, meta, off).value == (Instr(off, bc[off]), off + op.sizes[0])
  {
  }

  /** The loop gets ahead on every bytecode exactly if the metadata is `Advancing`: an unprefixed opcode of
      size 0 holds it at one offset for ever. */
  lemma AdvancesIff(meta: seq<OpMeta>)
    requires Shaped(meta) && |meta| <= 256
    ensures Advancing(meta) <==>
            forall bc: seq<byte>, off: nat :: off < |bc| && Turn(bc, meta, off).Some? ==>
              off < Turn(bc, meta, off).value.1
  {
    if !Advancing(meta) {
      var k :| 0 <= k < |meta| && !Doubles(meta[k].name) && !Quadruples(meta[k].name) && meta[k].sizes[0] == 0;
      var bc: seq<byte> := [k];
      assert Turn(bc, meta, 0) == Some((Instr(0, k), 0));
    }
  }

  /** The walk from `off` comes to an end: every turn it takes gets ahead. */
  ghost predicate Runs(bc: seq<byte>, meta: seq<OpMeta>, off: nat)
    requires Shaped(meta)
    decreases |bc| - off
  {
    || off >= |bc| || Turn(bc, meta, off).None?
    || (off < Turn(bc, meta, off).value.1 && Runs(bc, meta, Turn(bc, meta, off).value.1))
  }

  /** An unprefixed opcode of size 0 stands at `off`. */
  ghost predicate Holds(bc: seq<byte>, meta: seq<OpMeta>, off: nat)
    requires Shaped(meta)
  {
    && off < |bc| && bc[off] < |meta| && meta[bc[off]].sizes[0] == 0
    && !Doubles(meta[bc[off]].name) && !Quadruples(meta[bc[off]].name)
  }

  /** The walk from `off` comes past `to`. */
  ghost predicate Reaches(bc: seq<byte>, meta: seq<OpMeta>, off: nat, to: nat)
    requires Shaped(meta)
    decreases |bc| - off
  {
    || off == to
    || (off < |bc| && Turn(bc, meta, off).Some? && off < Turn(bc, meta, off).value.1
        && Reaches(bc, meta, Turn(bc, meta, off).value.1, to))
  }

  lemma TurnHolds(bc: seq<byte>, meta: seq<OpMeta>, off: nat)
    requires off < |bc| && Shaped(meta)
    ensures Holds(bc, meta, off) <==> Turn(bc, meta, off).Some? && Turn(bc, meta, off).value.1 <= off
  {
  }

  /** The walk ends exactly if it comes past no unprefixed opcode of size 0. */
  lemma {:induction false} RunsIff(bc: seq<byte>, meta: seq<OpMeta>, off: nat)
    requires Shaped(meta)
    ensures Runs(bc, meta, off) <==> forall to :: Reaches(bc, meta, off, to) ==> !Holds(bc, meta, to)
    decreases |bc| - off
  {
    hide Turn, Shaped;
    if off < |bc| {
      TurnHolds(bc, meta, off);
      hide Holds;
      if Holds(bc, meta, off) {
        assert Reaches(bc, meta, off, off);
      } else if Turn(bc, meta, off).Some? {
        var next := Turn(bc, meta, off).value.1;
        RunsIff(bc, meta, next);
        forall to
          ensures Reaches(bc, meta, off, to) <==> off == to || Reaches(bc, meta, next, to)
        {
        }
      }
    }
  }

  /** Metadata on which every unprefixed opcode takes up space lets every bytecode run. */
  lemma {:induction false} AdvancingRuns(bc: seq<byte>, meta: seq<OpMeta>, off: nat)
    requires Advancing(meta)
    ensures Runs(bc, meta, off)
    decreases |bc| - off
  {
    if off < |bc| && Turn(bc, meta, off).Some? {
      AdvancingRuns(bc, meta, Turn(bc, meta, off).value.1);
    }
  }

  function Walk(bc: seq<byte>, meta: seq<OpMeta>, off: nat): (r: Option<seq<Instr>>)
    requires Shaped(meta) && Runs(bc, meta, off)
    decreases |bc| - off
  {
    if off >= |bc| then Some([])
    else match Turn(bc, meta, off)
      case None => None
      case Some(step) =>
        var rest := Walk(bc, meta, step.1);
        if rest.None? then None else Some([step.0] + rest.value)
  }

  /** A walk gives nothing exactly if it comes past an offset where it cannot go on. */
  lemma {:induction false} WalkFails(bc: seq<byte>, meta: seq<OpMeta>, off: nat)
    requires Shaped(meta) && Runs(bc, meta, off)
    ensures Walk(bc, meta, off).None? <==> exists to :: Reaches(bc, meta, off, to) && Fails(bc, meta, to)
    decreases |bc| - off
  {
    hide Shaped, Turn, Fails;
    if off >= |bc| {
      NoFailBehind(bc, meta);
    } else {
      TurnIs(bc, meta, off);
      if Turn(bc, meta, off).Some? {
        var next := Turn(bc, meta, off).value.1;
        WalkFails(bc, meta, next);
        forall to
          ensures Reaches(bc, meta, off, to) <==> off == to || Reaches(bc, meta, next, to)
        {
        }
      } else {
        assert Reaches(bc, meta, off, off);
      }
    }
  }

  lemma NoFailBehind(bc: seq<byte>, meta: seq<OpMeta>)
    ensures forall to :: to >= |bc| ==> !Fails(bc, meta, to)
  {
  }

  /** What is left of a walk that has `out` behind it. */
  function After(out: seq<Instr>, rest: Option<seq<Instr>>): (r: Option<seq<Instr>>) {
    if rest.None? then None else Some(out + rest.value)
  }

  lemma WalkTurn(out: seq<Instr>, bc: seq<byte>, meta: seq<OpMeta>, off: nat)
    requires Shaped(meta) && Runs(bc, meta, off)
    ensures off >= |bc| ==> After(out, Walk(bc, meta, off)) == Some(out)
    ensures off < |bc| && Turn(bc, meta, off).None? ==> Walk(bc, meta, off).None?
    ensures off < |bc| && Turn(bc, meta, off).Some? ==>
              var step := Turn(bc, meta, off).value;
              && off < step.1 && Runs(bc, meta, step.1)
              && After(out, Walk(bc, meta, off)) == After(out + [step.0], Walk(bc, meta, step.1))
  {
    hide Turn, Shaped;
    assert out + [] == out;
    if off < |bc| && Turn(bc, meta, off).Some? {
      var step := Turn(bc, meta, off).value;
      var rest := Walk(bc, meta, step.1);
      if rest.Some? {
        assert out + ([step.0] + rest.value) == out + [step.0] + rest.value;
      }
    }
  }

  /** `decode_func`. */
  method DecodeFunc(bc: seq<byte>, meta: seq<OpMeta>) returns (r: Option<seq<Instr>>)
    requires Shaped(meta) && Runs(bc, meta, 0)
    ensures r == Walk(bc, meta, 0)
  {
    hide Walk, After, Runs;
    var out: seq<Instr> := [];
    var off := 0;
    AfterNothing(Walk(bc, meta, 0));
    while off < |bc|
      invariant Runs(bc, meta, off) && Walk(bc, meta, 0) == After(out, Walk(bc, meta, off))
      decreases |bc| - off
    {
      WalkTurn(out, bc, meta, off);
      AfterNone(out);
      var op := bc[off];
      if op >= |meta| {
        return None;
      }
      var m := meta[op];
      var scale, base := 0, off;
      if m.name == "Wide" || m.name == "DebugBreakWide" {
        if off + 1 >= |bc| {
          return None;
        }
        scale, base := 1, off + 1;
      } else if m.name == "ExtraWide" || m.name == "DebugBreakExtraWide" {
        if off + 1 >= |bc| {
          return None;
        }
        scale, base := 2, off + 1;
      }
      var rop := bc[base];
      if rop >= |meta| {
        return None;
      }
      var total := meta[rop].sizes[scale] + (base - off);
      assert Turn(bc, meta, off) == Some((Instr(base, rop), off + total));
      out := out + [Instr(base, rop)];
      off := off + total;
    }
    WalkTurn(out, bc, meta, off);
    r := Some(out);
  }

  lemma AfterNothing(rest: Option<seq<Instr>>)
    ensures After([], rest) == rest
  {
    assert rest.Some? ==> [] + rest.value == rest.value;
  }

  lemma AfterNone(out: seq<Instr>)
    ensures After(out, None) == None
  {
  }

  /** Decoding inverts assembling: exactly the instructions, at exactly their offsets. */
  lemma {:induction false} WalkAssembled(pre: seq<byte>, ops: seq<Op>, meta: seq<OpMeta>)
    requires Shaped(meta) && forall k :: 0 <= k < |ops| ==> OpOk(ops[k], meta)
    ensures Runs(pre + Assemble(ops), meta, |pre|)
    ensures Walk(pre + Assemble(ops), meta, |pre|) == Some(Placed(ops, |pre|))
    decreases |ops|
  {
    hide Turn, Emit, OpOk, Shaped;
    var bc := pre + Assemble(ops);
    if ops == [] {
    } else {
      var pre' := pre + Emit(ops[0]);
      assert bc == pre' + Assemble(ops[1..]);
      TurnAssembled(pre, ops[0], Assemble(ops[1..]), meta);
      WalkAssembled(pre', ops[1..], meta);
    }
  }

  lemma TurnAssembled(pre: seq<byte>, op: Op, post: seq<byte>, meta: seq<OpMeta>)
    requires Shaped(meta) && OpOk(op, meta)
    ensures Turn(pre + Emit(op) + post, meta, |pre|)
         == Some((Instr(if op.wide.Some? then |pre| + 1 else |pre|, op.opcode), |pre + Emit(op)|))
  {
    var bc := pre + Emit(op) + post;
    if op.wide.Some? {
      assert bc[|pre|] == op.wide.value && bc[|pre| + 1] == op.opcode;
    } else {
      assert bc[|pre|] == op.opcode;
    }
  }

  predicate Increasing(s: seq<nat>) {
    forall i, j :: 0 <= i < j < |s| ==> s[i] < s[j]
  }

  /** A decoded function: opcodes in range, offsets never going back and inside the bytecode. */
  ghost predicate Decoded(instrs: seq<Instr>, meta: seq<OpMeta>, lo: nat, n: nat) {
    && (forall i :: 0 <= i < |instrs| ==> instrs[i].opcode < |meta| && lo <= instrs[i].offset < n)
    && (forall i, j :: 0 <= i < j < |instrs| ==> instrs[i].offset <= instrs[j].offset)
  }

  ghost predicate Spread(instrs: seq<Instr>) {
    forall i, j :: 0 <= i < j < |instrs| ==> instrs[i].offset < instrs[j].offset
  }

  lemma {:induction false} WalkIncreasing(bc: seq<byte>, meta: seq<OpMeta>, off: nat)
    requires Shaped(meta) && Runs(bc, meta, off) && Walk(bc, meta, off).Some?
    ensures Decoded(Walk(bc, meta, off).value, meta, off, |bc|)
    ensures MetaOk(meta) ==> Spread(Walk(bc, meta, off).value)
    ensures off < |bc| ==> Walk(bc, meta, off).value != []
    ensures off >= |bc| ==> Walk(bc, meta, off).value == []
    decreases |bc| - off
  {
    hide Shaped, Turn, MetaOk;
    if off < |bc| {
      TurnPast(bc, meta, off);
      WalkIncreasing(bc, meta, Turn(bc, meta, off).value.1);
    }
  }

  lemma TurnPast(bc: seq<byte>, meta: seq<OpMeta>, off: nat)
    requires off < |bc| && Shaped(meta)
    ensures MetaOk(meta) && Turn(bc, meta, off).Some? ==>
              Turn(bc, meta, off).value.0.offset < Turn(bc, meta, off).value.1
  {
  }

  // ---------------------------------------------------------------------
  // Blocks.
  // ---------------------------------------------------------------------

  /** Bit 0 (jump) or bit 1 (return) of the flags. */
  predicate Leaves(d: Instr, meta: seq<OpMeta>) {
    d.opcode < |meta| && meta[d.opcode].flags % 4 != 0
  }

  /** `o` starts a block: it is the first instruction, or follows a jump or return. */
  ghost predicate Starts(o: nat, instrs: seq<Instr>, meta: seq<OpMeta>) {
    || o == (if instrs == [] then 0 else instrs[0].offset)
    || exists i :: StartsAfter(o, instrs, meta, i)
  }

  ghost predicate StartsAfter(o: nat, instrs: seq<Instr>, meta: seq<OpMeta>, i: nat) {
    i + 1 < |instrs| && JumpsOrReturns(instrs[i], meta) && o == instrs[i + 1].offset
  }

  /** Flag bit 0 marks a jump, bit 1 a return. */
  ghost predicate JumpsOrReturns(d: Instr, meta: seq<OpMeta>) {
    d.opcode < |meta| && (meta[d.opcode].flags % 2 == 1 || meta[d.opcode].flags / 2 % 2 == 1)
  }

  lemma LeavesIff(d: Instr, meta: seq<OpMeta>)
    ensures Leaves(d, meta) <==> JumpsOrReturns(d, meta)
  {
  }

  lemma Least(s: set<nat>) returns (m: nat)
    requires s != {}
    ensures m in s && forall x :: x in s ==> m <= x
    decreases |s|
  {
    m :| m in s;
    if !(forall x :: x in s ==> m <= x) {
      var x :| x in s && x < m;
      var t := s - {m};
      assert x in t;
      var m' := Least(t);
      assert forall y :: y in s ==> y in t || y == m;
      m := m';
    }
  }

  /** `sort_unstable` of a set's elements. */
  method Sorted(s: set<nat>) returns (v: seq<nat>)
    ensures Increasing(v) && forall x :: x in v <==> x in s
  {
    v := [];
    var rest := s;
    while rest != {}
      invariant Increasing(v) && (forall x :: x in s <==> x in v || x in rest)
      invariant forall i, x :: 0 <= i < |v| && x in rest ==> v[i] < x
      decreases |rest|
    {
      ghost var least := Least(rest);
      var m :| m in rest && forall x :: x in rest ==> m <= x;
      v := v + [m];
      rest := rest - {m};
    }
  }

  /** `block_starts_of`. */
  method BlockStarts(instrs: seq<Instr>, meta: seq<OpMeta>) returns (sv: seq<nat>)
    ensures Increasing(sv) && forall o :: o in sv <==> Starts(o, instrs, meta)
  {
    hide Leaves, JumpsOrReturns;
    var starts: set<nat> := {if instrs == [] then 0 else instrs[0].offset};
    var i := 0;
    while i < |instrs|
      invariant i <= |instrs|
      invariant forall o :: o in starts <==>
        o == (if instrs == [] then 0 else instrs[0].offset) || exists j :: 0 <= j < i && StartsAfter(o, instrs, meta, j)
    {
      LeavesIff(instrs[i], meta);
      if Leaves(instrs[i], meta) {
        if i + 1 < |instrs| {
          assert StartsAfter(instrs[i + 1].offset, instrs, meta, i);
          starts := starts + {instrs[i + 1].offset};
        }
      }
      i := i + 1;
    }
    sv := Sorted(starts);
  }

  /** Where block `b` ends. */
  function BlockEnd(sv: seq<nat>, b: nat, n: nat): (r: nat)
    requires b < |sv|
  {
    if b + 1 < |sv| then sv[b + 1] else n
  }

  ghost predicate Layout(instrs: seq<Instr>, meta: seq<OpMeta>, sv: seq<nat>, n: nat) {
    && Decoded(instrs, meta, 0, n) && (instrs == [] ==> n == 0)
    && Increasing(sv) && (forall o :: o in sv <==> Starts(o, instrs, meta))
  }

  lemma LayoutFirst(instrs: seq<Instr>, meta: seq<OpMeta>, sv: seq<nat>, n: nat)
    requires Layout(instrs, meta, sv, n)
    ensures sv != [] && sv[0] == (if instrs == [] then 0 else instrs[0].offset)
    ensures forall b :: 0 <= b < |sv| ==> sv[b] <= n
    ensures instrs == [] ==> sv == [0]
    ensures forall b :: 0 <= b < |sv| && instrs != [] ==> sv[b] < BlockEnd(sv, b, n)
  {
    hide JumpsOrReturns;
    var f := if instrs == [] then 0 else instrs[0].offset;
    assert Starts(f, instrs, meta);
    assert f in sv;
    forall b | 0 <= b < |sv|
      ensures f <= sv[b] <= n && (instrs != [] ==> sv[b] < n) && (instrs == [] ==> sv[b] == 0)
    {
      assert sv[b] in sv;
      assert Starts(sv[b], instrs, meta);
    }
    assert instrs == [] ==> forall b :: 0 <= b < |sv| ==> sv[b] == 0;
    assert |sv| > 1 ==> sv[0] < sv[1];
  }

  /** Only the last instruction of a block can jump or return. */
  lemma LeavesLast(instrs: seq<Instr>, meta: seq<OpMeta>, sv: seq<nat>, n: nat, b: nat, i: nat)
    requires Layout(instrs, meta, sv, n) && b < |sv|
    requires i + 1 < |instrs| && sv[b] <= instrs[i].offset < instrs[i + 1].offset < BlockEnd(sv, b, n)
    ensures !JumpsOrReturns(instrs[i], meta)
  {
    hide JumpsOrReturns, Starts;
    var o := instrs[i + 1].offset;
    forall c | 0 <= c < |sv|
      ensures sv[c] != o
    {
      assert c < b ==> sv[c] < sv[b];
      assert c > b + 1 ==> sv[b + 1] < sv[c];
    }
    assert !Starts(o, instrs, meta);
    NoStart(instrs, meta, o, i);
  }

  lemma NoStart(instrs: seq<Instr>, meta: seq<OpMeta>, o: nat, i: nat)
    requires i + 1 < |instrs| && o == instrs[i + 1].offset && !Starts(o, instrs, meta)
    ensures !JumpsOrReturns(instrs[i], meta)
  {
    assert !StartsAfter(o, instrs, meta, i);
  }

  // ---------------------------------------------------------------------
  // Executed offsets.
  // ---------------------------------------------------------------------

  /** An executed offset with the opcode first recorded there. */
  datatype Hit = Hit(offset: nat, opcode: byte)

  ghost predicate HitsSorted(ex: seq<Hit>) {
    forall i, j :: 0 <= i < j < |ex| ==> ex[i].offset < ex[j].offset
  }

  ghost predicate Ran(ex: seq<Hit>, o: nat) {
    exists k :: 0 <= k < |ex| && ex[k].offset == o
  }

  /** `partition_point(|x| x.0 < offset)`. */
  method HitPoint(ex: seq<Hit>, offset: nat) returns (p: nat)
    requires HitsSorted(ex)
    ensures p <= |ex| && (forall k :: 0 <= k < p ==> ex[k].offset < offset)
    ensures forall k :: p <= k < |ex| ==> offset <= ex[k].offset
    ensures (p < |ex| && ex[p].offset == offset) <==> Ran(ex, offset)
  {
    var lo, hi := 0, |ex|;
    while lo < hi
      invariant lo <= hi <= |ex|
      invariant forall k :: 0 <= k < lo ==> ex[k].offset < offset
      invariant forall k :: hi <= k < |ex| ==> offset <= ex[k].offset
    {
      var mid := (lo + hi) / 2;
      if ex[mid].offset < offset { lo := mid + 1; } else { hi := mid; }
    }
    p := lo;
  }

  /** `x` is the first record at its offset. */
  ghost predicate IsFirst(recs: seq<Hit>, x: Hit) {
    exists i :: FirstAt(recs, x, i)
  }

  ghost predicate FirstAt(recs: seq<Hit>, x: Hit, i: nat) {
    i < |recs| && recs[i] == x && forall j :: 0 <= j < i ==> recs[j].offset != x.offset
  }

  lemma FirstGrows(recs: seq<Hit>, n: nat, x: Hit)
    requires n < |recs|
    ensures IsFirst(recs[..n + 1], x) <==> IsFirst(recs[..n], x) || (x == recs[n] && !Ran(recs[..n], x.offset))
  {
    var a, b := recs[..n], recs[..n + 1];
    if IsFirst(a, x) {
      var i: nat :| FirstAt(a, x, i);
      assert FirstAt(b, x, i);
    }
    if IsFirst(b, x) {
      var i: nat :| FirstAt(b, x, i);
      assert i < n ==> FirstAt(a, x, i);
    }
    if x == recs[n] && !Ran(a, x.offset) {
      assert forall j :: 0 <= j < n ==> a[j].offset == recs[j].offset;
      assert FirstAt(b, x, n);
    }
  }

  /** Somebody is first at every offset that occurs. */
  lemma {:induction false} SomeFirst(recs: seq<Hit>, o: nat)
    ensures Ran(recs, o) <==> exists x :: IsFirst(recs, x) && x.offset == o
  {
    if Ran(recs, o) {
      var k :| 0 <= k < |recs| && recs[k].offset == o;
      k := FirstIndex(recs, o, k);
      assert FirstAt(recs, recs[k], k);
      assert IsFirst(recs, recs[k]);
    }
    if x :| IsFirst(recs, x) && x.offset == o {
      var i: nat :| FirstAt(recs, x, i);
    }
  }

  lemma {:induction false} FirstIndex(recs: seq<Hit>, o: nat, k: nat) returns (i: nat)
    requires k < |recs| && recs[k].offset == o
    ensures i <= k && recs[i].offset == o && forall j :: 0 <= j < i ==> recs[j].offset != o
  {
    if j :| 0 <= j < k && recs[j].offset == o {
      i := FirstIndex(recs, o, j);
    } else {
      i := k;
    }
  }

  /** The sorted insertion of one function's records, one by one. */
  method Executed(recs: seq<Hit>) returns (ex: seq<Hit>)
    ensures HitsSorted(ex)
    ensures forall x :: x in ex <==> IsFirst(recs, x)
    ensures forall o :: Ran(ex, o) <==> Ran(recs, o)
  {
    hide IsFirst;
    ex := [];
    var n := 0;
    assert forall x :: !IsFirst(recs[..0], x) by { NothingFirst(recs[..0]); }
    while n < |recs|
      invariant n <= |recs| && HitsSorted(ex)
      invariant forall x :: x in ex <==> IsFirst(recs[..n], x)
    {
      var p := HitPoint(ex, recs[n].offset);
      RanSame(ex, recs[..n]);
      forall x
        ensures IsFirst(recs[..n + 1], x) <==> IsFirst(recs[..n], x) || (x == recs[n] && !Ran(recs[..n], x.offset))
      {
        FirstGrows(recs, n, x);
      }
      if p == |ex| || ex[p].offset != recs[n].offset {
        Inserted(ex, p, recs[n]);
        ex := ex[..p] + [recs[n]] + ex[p..];
      }
      n := n + 1;
    }
    assert recs[..n] == recs;
    RanSame(ex, recs);
  }

  lemma NothingFirst(recs: seq<Hit>)
    requires recs == []
    ensures forall x :: !IsFirst(recs, x)
  {
  }

  lemma Inserted(ex: seq<Hit>, p: nat, h: Hit)
    requires p <= |ex|
    ensures forall x :: x in ex[..p] + [h] + ex[p..] <==> x in ex || x == h
  {
    assert ex == ex[..p] + ex[p..];
  }

  lemma RanSame(ex: seq<Hit>, recs: seq<Hit>)
    requires forall x :: x in ex <==> IsFirst(recs, x)
    ensures forall o :: Ran(ex, o) <==> Ran(recs, o)
  {
    hide IsFirst;
    forall o
      ensures Ran(ex, o) <==> Ran(recs, o)
    {
      SomeFirst(recs, o);
      if Ran(ex, o) {
        var k :| 0 <= k < |ex| && ex[k].offset == o;
        assert ex[k] in ex;
      }
      if x :| IsFirst(recs, x) && x.offset == o {
        assert x in ex;
      }
    }
  }

  // ---------------------------------------------------------------------
  // Live and dead blocks.
  // ---------------------------------------------------------------------

  ghost predicate BlockRan(instrs: seq<Instr>, ex: seq<Hit>, lo: nat, hi: nat) {
    exists i :: 0 <= i < |instrs| && lo <= instrs[i].offset < hi && Ran(ex, instrs[i].offset)
  }

  /** `instrs.partition_point(|d| d.offset < bs)`. */
  method InstrPoint(instrs: seq<Instr>, lo: nat) returns (p: nat)
    requires forall i, j :: 0 <= i < j < |instrs| ==> instrs[i].offset <= instrs[j].offset
    ensures p <= |instrs| && (forall k :: 0 <= k < p ==> instrs[k].offset < lo)
    ensures forall k :: p <= k < |instrs| ==> lo <= instrs[k].offset
  {
    var l, h := 0, |instrs|;
    while l < h
      invariant l <= h <= |instrs|
      invariant forall k :: 0 <= k < l ==> instrs[k].offset < lo
      invariant forall k :: h <= k < |instrs| ==> lo <= instrs[k].offset
    {
      var mid := (l + h) / 2;
      if instrs[mid].offset < lo { l := mid + 1; } else { h := mid; }
    }
    p := l;
  }

  /** Whether any instruction between `lo` and `hi` was executed. */
  method BlockHit(instrs: seq<Instr>, ex: seq<Hit>, lo: nat, hi: nat) returns (hit: bool)
    requires HitsSorted(ex) && forall i, j :: 0 <= i < j < |instrs| ==> instrs[i].offset <= instrs[j].offset
    ensures hit <==> BlockRan(instrs, ex, lo, hi)
  {
    hide Ran;
    var from := InstrPoint(instrs, lo);
    var k := from;
    while k < |instrs| && instrs[k].offset < hi
      invariant from <= k <= |instrs|
      invariant forall i :: from <= i < k ==> !Ran(ex, instrs[i].offset)
    {
      var p := HitPoint(ex, instrs[k].offset);
      if p < |ex| && ex[p].offset == instrs[k].offset {
        return true;
      }
      k := k + 1;
    }
    hit := false;
  }

  datatype Liveness = Liveness(live: nat, dead: nat, liveBytes: nat, deadBytes: nat, ranges: seq<(nat, nat)>)

  /** The dead ranges are exactly the blocks nothing in which was executed, in order. */
  ghost predicate Reported(r: Liveness, instrs: seq<Instr>, ex: seq<Hit>, sv: seq<nat>, n: nat, upTo: nat)
    requires upTo <= |sv|
  {
    && r.live + r.dead == upTo && r.dead == |r.ranges|
    && (forall i, j :: 0 <= i < j < |r.ranges| ==> r.ranges[i].0 < r.ranges[j].0)
    && (forall i :: 0 <= i < |r.ranges| ==> upTo > 0 && r.ranges[i].0 <= sv[upTo - 1])
    && (forall x :: x in r.ranges <==> exists b :: DeadBlock(x, instrs, ex, sv, n, upTo, b))
  }

  ghost predicate DeadBlock(x: (nat, nat), instrs: seq<Instr>, ex: seq<Hit>, sv: seq<nat>, n: nat, upTo: nat, b: nat)
    requires upTo <= |sv|
  {
    b < upTo && x == (sv[b], BlockEnd(sv, b, n)) && !BlockRan(instrs, ex, sv[b], BlockEnd(sv, b, n))
  }

  /** The live/dead loop over the blocks of a function of `n` bytes. */
  method Classify(instrs: seq<Instr>, meta: seq<OpMeta>, sv: seq<nat>, n: nat, ex: seq<Hit>) returns (r: Liveness)
    requires Layout(instrs, meta, sv, n) && HitsSorted(ex)
    ensures Reported(r, instrs, ex, sv, n, |sv|)
    ensures sv != [] && r.liveBytes + r.deadBytes == n - sv[0]
  {
    LayoutFirst(instrs, meta, sv, n);
    hide Starts, BlockRan, JumpsOrReturns;
    r := Liveness(0, 0, 0, 0, []);
    var b := 0;
    while b < |sv|
      invariant b <= |sv| && Reported(r, instrs, ex, sv, n, b)
      invariant r.liveBytes + r.deadBytes == (if b < |sv| then sv[b] else n) - sv[0]
    {
      var lo, hi := sv[b], BlockEnd(sv, b, n);
      assert lo <= hi;
      var hit := BlockHit(instrs, ex, lo, hi);
      ghost var was := r;
      if hit {
        r := r.(live := r.live + 1, liveBytes := r.liveBytes + (hi - lo));
      } else {
        r := r.(dead := r.dead + 1, deadBytes := r.deadBytes + (hi - lo), ranges := r.ranges + [(lo, hi)]);
      }
      ReportGrows(was, r, instrs, ex, sv, n, b, hit);
      b := b + 1;
    }
  }

  lemma ReportGrows(r: Liveness, r': Liveness, instrs: seq<Instr>, ex: seq<Hit>, sv: seq<nat>, n: nat, b: nat,
                    hit: bool)
    requires Increasing(sv) && b < |sv| && Reported(r, instrs, ex, sv, n, b)
    requires hit <==> BlockRan(instrs, ex, sv[b], BlockEnd(sv, b, n))
    requires r'.ranges == if hit then r.ranges else r.ranges + [(sv[b], BlockEnd(sv, b, n))]
    requires r'.live == (if hit then r.live + 1 else r.live) && r'.dead == (if hit then r.dead else r.dead + 1)
    ensures Reported(r', instrs, ex, sv, n, b + 1)
  {
    hide BlockRan;
    var m := b + 1;
    forall x
      ensures x in r'.ranges <==> exists c :: DeadBlock(x, instrs, ex, sv, n, m, c)
    {
      DeadGrows(x, instrs, ex, sv, n, b, m);
    }
    hide DeadBlock;
    assert b > 0 ==> sv[b - 1] < sv[b];
  }

  lemma DeadGrows(x: (nat, nat), instrs: seq<Instr>, ex: seq<Hit>, sv: seq<nat>, n: nat, b: nat, m: nat)
    requires b < |sv| && m == b + 1
    ensures (exists c :: DeadBlock(x, instrs, ex, sv, n, m, c))
       <==> (exists c :: DeadBlock(x, instrs, ex, sv, n, b, c))
            || (x == (sv[b], BlockEnd(sv, b, n)) && !BlockRan(instrs, ex, sv[b], BlockEnd(sv, b, n)))
  {
    hide BlockRan;
    if c: nat :| DeadBlock(x, instrs, ex, sv, n, b, c) {
      assert DeadBlock(x, instrs, ex, sv, n, m, c);
    }
    if c: nat :| DeadBlock(x, instrs, ex, sv, n, m, c) {
      assert c < b ==> DeadBlock(x, instrs, ex, sv, n, b, c);
    }
    if x == (sv[b], BlockEnd(sv, b, n)) && !BlockRan(instrs, ex, sv[b], BlockEnd(sv, b, n)) {
      assert DeadBlock(x, instrs, ex, sv, n, m, b);
    }
  }

  /** One function's report: `recs` are its instruction records in trace order. */
  method Report(bc: seq<byte>, meta: seq<OpMeta>, recs: seq<Hit>)
    returns (instrs: Option<seq<Instr>>, sv: seq<nat>, r: Liveness)
    requires Shaped(meta) && Runs(bc, meta, 0)
    ensures instrs == Walk(bc, meta, 0)
    ensures instrs.Some? ==> Layout(instrs.value, meta, sv, |bc|) && sv != []
    ensures instrs.Some? ==> Reported(r, instrs.value, recs, sv, |bc|, |sv|)
    ensures instrs.Some? ==> r.liveBytes + r.deadBytes == |bc| - sv[0]
  {
    hide Shaped, Runs, JumpsOrReturns, Starts, Walk, BlockRan, DeadBlock;
    sv, r := [], Liveness(0, 0, 0, 0, []);
    instrs := DecodeFunc(bc, meta);
    if instrs.None? {
      return;
    }
    WalkIncreasing(bc, meta, 0);
    var ex := Executed(recs);
    sv := BlockStarts(instrs.value, meta);
    r := Classify(instrs.value, meta, sv, |bc|, ex);
    ReportedSame(r, instrs.value, ex, recs, sv, |bc|);
  }

  lemma ReportedSame(r: Liveness, instrs: seq<Instr>, ex: seq<Hit>, recs: seq<Hit>, sv: seq<nat>, n: nat)
    requires Reported(r, instrs, ex, sv, n, |sv|) && forall o :: Ran(ex, o) <==> Ran(recs, o)
    ensures Reported(r, instrs, recs, sv, n, |sv|)
  {
    hide Ran;
    assert forall lo, hi :: BlockRan(instrs, ex, lo, hi) <==> BlockRan(instrs, recs, lo, hi);
    assert forall x, b: nat :: DeadBlock(x, instrs, ex, sv, n, |sv|, b) <==> DeadBlock(x, instrs, recs, sv, n, |sv|, b);
  }

  /** No executed instruction lies in a dead range, and every instruction lies in a block. */
  lemma NothingExecutedIsDead(r: Liveness, instrs: seq<Instr>, meta: seq<OpMeta>, recs: seq<Hit>, sv: seq<nat>, n: nat,
                              i: nat, x: (nat, nat))
    requires Layout(instrs, meta, sv, n) && Reported(r, instrs, recs, sv, n, |sv|)
    requires i < |instrs| && Ran(recs, instrs[i].offset)
    ensures x in r.ranges ==> !(x.0 <= instrs[i].offset < x.1)
    ensures exists b ::
              && 0 <= b < |sv| && sv[b] <= instrs[i].offset < BlockEnd(sv, b, n)
              && BlockRan(instrs, recs, sv[b], BlockEnd(sv, b, n))
  {
    LayoutFirst(instrs, meta, sv, n);
    hide JumpsOrReturns, Starts, Ran;
    if x in r.ranges {
      var b :| DeadBlock(x, instrs, recs, sv, n, |sv|, b);
      assert !BlockRan(instrs, recs, x.0, x.1);
    }
    var b := BlockOf(sv, n, instrs[i].offset);
  }

  lemma BlockOf(sv: seq<nat>, n: nat, o: nat) returns (b: nat)
    requires Increasing(sv) && sv != [] && sv[0] <= o < n
    ensures b < |sv| && sv[b] <= o < BlockEnd(sv, b, n)
  {
    b := 0;
    while b + 1 < |sv| && sv[b + 1] <= o
      invariant b < |sv| && sv[b] <= o
    {
      b := b + 1;
    }
  }
}
