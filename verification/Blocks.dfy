/** The payload blocks of a bytecode record and the function-definition blob of src/bctrace.rs:
    [u8 tag][u32 len][len bytes], read until the part ends. */
module Blocks {
  import opened Bytes

  const HDR_LEN: nat := 72

  datatype Block = Block(tag: byte, body: seq<byte>)

  function Render(b: Block): (r: seq<byte>)
    ensures |r| == 5 + |b.body|
  {
    [b.tag] + ToLe(|b.body|, 4) + b.body
  }

  function RenderAll(bs: seq<Block>): (r: seq<byte>) {
    if bs == [] then [] else Render(bs[0]) + RenderAll(bs[1..])
  }

  ghost predicate Renderable(bs: seq<Block>) {
    forall k :: 0 <= k < |bs| ==> |bs[k].body| < 0x1_0000_0000
  }

  /** The bytes `s` start no complete block. */
  predicate NoBlock(s: seq<byte>) {
    |s| < 5 || 5 + FromLe(s[1..5]) > |s|
  }

  /** The blocks of `s`, cut from the front for as long as a whole one is there. */
  function Cut(s: seq<byte>): (bs: seq<Block>)
    decreases |s|
  {
    if NoBlock(s) then []
    else [Block(s[0], s[5..5 + FromLe(s[1..5])])] + Cut(s[5 + FromLe(s[1..5])..])
  }

  /** A block's bytes are among those cut. */
  lemma {:induction false} CutInside(s: seq<byte>, k: nat)
    requires k < |Cut(s)|
    ensures |Cut(s)[k].body| <= |s|
    decreases |s|
  {
    hide FromLe;
    if k > 0 {
      CutInside(s[5 + FromLe(s[1..5])..], k - 1);
    }
  }

  lemma CutFirst(b: Block, s: seq<byte>)
    requires |b.body| < 0x1_0000_0000
    ensures Cut(Render(b) + s) == [b] + Cut(s)
  {
    var r := Render(b) + s;
    Fits4(|b.body|);
    LeRoundTrip(|b.body|, 4);
    assert r[1..5] == ToLe(|b.body|, 4);
    assert r[5..5 + |b.body|] == b.body;
    assert r[5 + |b.body|..] == s;
  }

  /** Cutting inverts rendering, whatever incomplete bytes follow. */
  lemma {:induction false} CutRendered(bs: seq<Block>, rest: seq<byte>)
    requires Renderable(bs) && NoBlock(rest)
    ensures Cut(RenderAll(bs) + rest) == bs
  {
    if bs == [] {
      assert RenderAll(bs) + rest == rest;
    } else {
      assert RenderAll(bs) + rest == Render(bs[0]) + (RenderAll(bs[1..]) + rest);
      CutFirst(bs[0], RenderAll(bs[1..]) + rest);
      CutRendered(bs[1..], rest);
      assert bs == [bs[0]] + bs[1..];
    }
  }

  /** What is cut, put together again, is what it was cut from, short of the incomplete rest. */
  lemma {:induction false} CutSplits(s: seq<byte>) returns (rest: seq<byte>)
    ensures s == RenderAll(Cut(s)) + rest && NoBlock(rest) && Renderable(Cut(s))
    decreases |s|
  {
    if NoBlock(s) {
      rest := s;
      assert RenderAll([]) + s == s;
    } else {
      var n := FromLe(s[1..5]);
      var b, more := Block(s[0], s[5..5 + n]), s[5 + n..];
      FirstBack(s);
      assert Cut(s) == [b] + Cut(more);
      rest := CutSplits(more);
      RenderFirst(b, Cut(more), rest);
      assert |b.body| < 0x1_0000_0000;
      hide *;
    }
  }

  lemma FirstBack(s: seq<byte>)
    requires !NoBlock(s)
    ensures var n := FromLe(s[1..5]);
            s == Render(Block(s[0], s[5..5 + n])) + s[5 + n..] && n < 0x1_0000_0000
  {
    LeBack4(s[1..5]);
    hide FromLe, ToLe;
    var n := FromLe(s[1..5]);
    assert Render(Block(s[0], s[5..5 + n])) == [s[0]] + s[1..5] + s[5..5 + n];
  }

  lemma RenderFirst(b: Block, bs: seq<Block>, rest: seq<byte>)
    ensures RenderAll([b] + bs) + rest == Render(b) + (RenderAll(bs) + rest)
  {
    hide Render;
    assert ([b] + bs)[1..] == bs;
  }

  /** The payload of `body` is `bs`, and bytes that make no block. */
  ghost predicate Payload(body: seq<byte>, bs: seq<Block>) {
    && |body| >= HDR_LEN && Renderable(bs)
    && exists rest :: NoBlock(rest) && body[HDR_LEN..] == RenderAll(bs) + rest
  }

  /** The blocks of a payload are what is cut from it. */
  lemma PayloadCut(body: seq<byte>, bs: seq<Block>)
    requires |body| >= HDR_LEN
    ensures Payload(body, bs) <==> bs == Cut(body[HDR_LEN..])
  {
    hide Cut, NoBlock, RenderAll;
    if Payload(body, bs) {
      var rest :| NoBlock(rest) && body[HDR_LEN..] == RenderAll(bs) + rest;
      CutRendered(bs, rest);
    }
    var rest := CutSplits(body[HDR_LEN..]);
    assert Payload(body, Cut(body[HDR_LEN..]));
  }

  lemma BodyAt(rec: seq<byte>, at: nat, b: Block, more: seq<byte>)
    requires at <= |rec| && rec[at..] == Render(b) + more
    ensures at + 5 + |b.body| <= |rec| && rec[at + 5..at + 5 + |b.body|] == b.body
    ensures rec[at + 5 + |b.body|..] == more
  {
    hide ToLe;
    var n := 5 + |b.body|;
    assert rec[at..][5..n] == rec[at + 5..at + n];
    assert (Render(b) + more)[5..n] == b.body;
    assert rec[at..][n..] == rec[at + n..] && (Render(b) + more)[n..] == more;
  }

  /** One turn of a block loop standing at `i`. */
  lemma CutStep(s: seq<byte>, i: nat)
    requires i <= |s|
    ensures i + 5 > |s| ==> Cut(s[i..]) == []
    ensures i + 5 <= |s| ==>
              var n := FromLe(s[i + 1..i + 5]);
              if i + 5 + n > |s| then Cut(s[i..]) == []
              else Cut(s[i..]) == [Block(s[i], s[i + 5..i + 5 + n])] + Cut(s[i + 5 + n..])
  {
    if i + 5 <= |s| {
      var n := FromLe(s[i + 1..i + 5]);
      assert s[i..][1..5] == s[i + 1..i + 5];
      if i + 5 + n <= |s| {
        assert s[i..][5..5 + n] == s[i + 5..i + 5 + n];
        assert s[i..][5 + n..] == s[i + 5 + n..];
      }
    }
  }

  // ---------------------------------------------------------------------
  // Typed payload values.
  // ---------------------------------------------------------------------

  /** 64-bit floats are carried as their bits; strings as (start, length) in the record. */
  datatype Pv =
    | Str(at: nat, len: nat)
    | Str16(at: nat, len: nat)
    | F64(bits: nat)
    | Smi(v: int)
    | RegWord(reg: nat, word: nat)
    | RegStr(reg: nat, at: nat, len: nat)
    | RegStr16(reg: nat, at: nat, len: nat)
    | RegF64(reg: nat, bits: nat)
    | RegSmi(reg: nat, v: int)
    | Operand(index: nat, v: int)
    | Vclock(ticks: nat)

  function Signed(n: nat, half: nat): (r: int) {
    if n < half then n else n - 2 * half
  }

  /** What the tag says the bytes are; a wrong length makes the block invisible. */
  function Typed(b: Block, at: nat): (r: Option<Pv>) {
    var n := |b.body|;
    if b.tag == 0 then Some(Str(at, n))
    else if b.tag == 11 then Some(Str16(at, n))
    else if b.tag == 1 && n == 8 then Some(F64(FromLe(b.body)))
    else if b.tag == 2 && n == 4 then Some(Smi(Signed(FromLe(b.body), 0x8000_0000)))
    else if b.tag == 3 && n == 10 then Some(RegWord(FromLe(b.body[..2]), FromLe(b.body[2..])))
    else if b.tag == 4 && n >= 2 then Some(RegStr(FromLe(b.body[..2]), at + 2, n - 2))
    else if b.tag == 12 && n >= 2 then Some(RegStr16(FromLe(b.body[..2]), at + 2, n - 2))
    else if b.tag == 5 && n == 10 then Some(RegF64(FromLe(b.body[..2]), FromLe(b.body[2..])))
    else if b.tag == 6 && n == 6 then Some(RegSmi(FromLe(b.body[..2]), Signed(FromLe(b.body[2..]), 0x8000_0000)))
    else if b.tag == 7 && n == 9 then Some(Operand(b.body[0], Signed(FromLe(b.body[1..]), 0x8000_0000_0000_0000)))
    else if b.tag == 14 && n == 8 then Some(Vclock(FromLe(b.body)))
    else None
  }

  /** The typed values of consecutive blocks, the first of which starts at `at`. */
  function TypedAll(bs: seq<Block>, at: nat): (r: seq<Pv>) {
    if bs == [] then []
    else
      var rest := TypedAll(bs[1..], at + 5 + |bs[0].body|);
      var v := Typed(bs[0], at + 5);
      if v.Some? then [v.value] + rest else rest
  }

  lemma TypedFirst(b: Block, bs: seq<Block>, at: nat)
    ensures TypedAll([b] + bs, at)
         == (if Typed(b, at + 5).Some? then [Typed(b, at + 5).value] else []) + TypedAll(bs, at + 5 + |b.body|)
  {
    hide Typed;
    assert ([b] + bs)[1..] == bs;
  }

  /** A loop that has `out` behind it and `[b] + bs` before it. */
  lemma TypedTurn(out: seq<Pv>, b: Block, bs: seq<Block>, at: nat)
    ensures out + TypedAll([b] + bs, at)
         == (if Typed(b, at + 5).Some? then out + [Typed(b, at + 5).value] else out) + TypedAll(bs, at + 5 + |b.body|)
  {
    hide Typed, TypedAll;
    TypedFirst(b, bs, at);
  }

  lemma TypedNone(at: nat)
    ensures TypedAll([], at) == []
  {
  }

  /** The typed values of a record. */
  function PvsOf(rec: seq<byte>): (r: seq<Pv>) {
    if |rec| < HDR_LEN then [] else TypedAll(Cut(rec[HDR_LEN..]), HDR_LEN)
  }

  /** A record carrying blocks yields exactly their typed values, at their places. */
  lemma PvsRoundTrip(hdr: seq<byte>, bs: seq<Block>, rest: seq<byte>)
    requires |hdr| == HDR_LEN && Renderable(bs) && NoBlock(rest)
    ensures PvsOf(hdr + RenderAll(bs) + rest) == TypedAll(bs, HDR_LEN)
  {
    hide RenderAll, Cut, TypedAll, NoBlock;
    var rec := hdr + RenderAll(bs) + rest;
    CutRendered(bs, rest);
    assert rec[HDR_LEN..] == RenderAll(bs) + rest;
  }

  predicate Inside(pv: Pv, n: nat) {
    match pv
    case Str(at, len) => at + len <= n
    case Str16(at, len) => at + len <= n
    case RegStr(_, at, len) => at + len <= n
    case RegStr16(_, at, len) => at + len <= n
    case _ => true
  }

  /** The string values of any record, well-formed or not, lie inside it. */
  lemma {:induction false} ValuesInside(rec: seq<byte>, i: nat)
    requires i <= |rec|
    ensures forall k :: 0 <= k < |TypedAll(Cut(rec[i..]), i)| ==> Inside(TypedAll(Cut(rec[i..]), i)[k], |rec|)
    decreases |rec| - i
  {
    hide FromLe, Cut, Typed;
    CutStep(rec, i);
    if i + 5 <= |rec| {
      var n := FromLe(rec[i + 1..i + 5]);
      if i + 5 + n <= |rec| {
        var b := Block(rec[i], rec[i + 5..i + 5 + n]);
        ValuesInside(rec, i + 5 + n);
        TypedFirst(b, Cut(rec[i + 5 + n..]), i);
        TypedInside(b, i + 5);
      }
    }
  }

  lemma TypedInside(b: Block, at: nat)
    ensures Typed(b, at).Some? ==> Inside(Typed(b, at).value, at + |b.body|)
    ensures forall n: nat, m: nat, pv :: n <= m && Inside(pv, n) ==> Inside(pv, m)
  {
  }

  /** `parse_blocks`. */
  method ParseBlocks(rec: seq<byte>) returns (out: seq<Pv>)
    ensures out == PvsOf(rec)
  {
    hide Typed, TypedAll, FromLe, Cut;
    var i := HDR_LEN;
    out := [];
    if |rec| < HDR_LEN {
      return;
    }
    CutStep(rec, i);
    ghost var todo := Cut(rec[i..]);
    while i + 5 <= |rec|
      invariant HDR_LEN <= i <= |rec| && todo == Cut(rec[i..])
      invariant out + TypedAll(todo, i) == PvsOf(rec)
      invariant i + 5 > |rec| ==> todo == []
      decreases |rec| - i
    {
      CutStep(rec, i);
      var tag := rec[i];
      var len := FromLe(rec[i + 1..i + 5]);
      if i + 5 + len > |rec| {
        break;
      }
      CutStep(rec, i + 5 + len);
      var b := Block(tag, rec[i + 5..i + 5 + len]);
      var pv := Typed(b, i + 5);
      todo := Cut(rec[i + 5 + len..]);
      TypedTurn(out, b, todo, i);
      if pv.Some? {
        out := out + [pv.value];
      }
      i := i + 5 + len;
    }
    TypedNone(i);
    assert todo == [];
  }

  // ---------------------------------------------------------------------
  // The function-definition blob.
  // ---------------------------------------------------------------------

  datatype CpEntry = Raw(bits: nat) | CpStr(s: seq<byte>) | CpStr16(s: seq<byte>) | CpF64(bits: nat)

  datatype FuncDef = FuncDef(funcId: nat, line: nat, frameSize: int, paramCount: nat, scriptId: int,
                             scriptName: seq<byte>, fnName: seq<byte>, bytecode: seq<byte>, cp: seq<CpEntry>)

  function CpOf(b: Block): (r: CpEntry) {
    if b.tag == 8 then CpStr(b.body)
    else if b.tag == 13 then CpStr16(b.body)
    else if b.tag == 9 && |b.body| == 8 then CpF64(FromLe(b.body))
    else if |b.body| == 8 then Raw(FromLe(b.body))
    else Raw(0)
  }

  function CpAll(bs: seq<Block>): (cp: seq<CpEntry>)
    ensures |cp| == |bs| && forall k :: 0 <= k < |bs| ==> cp[k] == CpOf(bs[k])
  {
    if bs == [] then [] else [CpOf(bs[0])] + CpAll(bs[1..])
  }

  /** The `k`-th 32-bit word of the blob's head. */
  function Word(blob: seq<byte>, k: nat): (r: nat)
    requires 4 * k + 4 <= |blob|
  {
    FromLe(blob[4 * k..4 * k + 4])
  }

  /** The sections announced by the head fit in the blob. */
  predicate Sized(blob: seq<byte>) {
    |blob| >= 32 && 32 + Word(blob, 0) + Word(blob, 1) + Word(blob, 2) + Word(blob, 3) <= |blob|
  }

  /** `def` is what `blob` says: every field where the head puts it. */
  ghost predicate Describes(blob: seq<byte>, funcId: nat, line: nat, def: FuncDef)
    requires Sized(blob)
  {
    var a := 32 + Word(blob, 0);
    var b := a + Word(blob, 1);
    var c := b + Word(blob, 2);
    && def.funcId == funcId && def.line == line
    && def.frameSize == Signed(Word(blob, 4), 0x8000_0000) && def.paramCount == Word(blob, 5)
    && def.scriptId == Signed(Word(blob, 6), 0x8000_0000)
    && def.bytecode == blob[32..a] && def.scriptName == blob[a..b] && def.fnName == blob[b..c]
    && def.cp == CpAll(Cut(blob[c..c + Word(blob, 3)]))
  }

  /** The definition a blob stands for, if its sections fit. */
  function DefOf(funcId: nat, line: nat, blob: seq<byte>): (def: Option<FuncDef>) {
    if !Sized(blob) then None
    else
      var a := 32 + Word(blob, 0);
      var b := a + Word(blob, 1);
      var c := b + Word(blob, 2);
      Some(FuncDef(funcId, line, Signed(Word(blob, 4), 0x8000_0000), Word(blob, 5), Signed(Word(blob, 6), 0x8000_0000),
                   blob[a..b], blob[b..c], blob[32..a], CpAll(Cut(blob[c..c + Word(blob, 3)]))))
  }

  /** There is one description of a blob, and it is this definition. */
  lemma DescribedOnce(funcId: nat, line: nat, blob: seq<byte>, def: FuncDef)
    ensures DefOf(funcId, line, blob) == Some(def) <==> Sized(blob) && Describes(blob, funcId, line, def)
  {
    hide Cut, CpAll, Word, Signed;
  }

  lemma UndefinedIff(funcId: nat, line: nat, blob: seq<byte>)
    ensures DefOf(funcId, line, blob).None? <==> !Sized(blob)
  {
    hide Cut, CpAll, Word, Signed;
  }

  method ReadCp(s: seq<byte>) returns (cp: seq<CpEntry>)
    ensures cp == CpAll(Cut(s))
  {
    hide CpOf, CpAll, FromLe, Cut;
    var i := 0;
    cp := [];
    CutStep(s, 0);
    assert s[0..] == s;
    ghost var todo := Cut(s);
    while i + 5 <= |s|
      invariant i <= |s| && todo == Cut(s[i..]) && CpAll(Cut(s)) == cp + CpAll(todo)
      invariant i + 5 > |s| ==> todo == []
      decreases |s| - i
    {
      CutStep(s, i);
      var len := FromLe(s[i + 1..i + 5]);
      if i + 5 + len > |s| {
        break;
      }
      CutStep(s, i + 5 + len);
      var b := Block(s[i], s[i + 5..i + 5 + len]);
      todo := Cut(s[i + 5 + len..]);
      CpTurn(cp, b, todo);
      cp := cp + [CpOf(b)];
      i := i + 5 + len;
    }
    assert todo == [];
  }

  lemma CpTurn(cp: seq<CpEntry>, b: Block, bs: seq<Block>)
    ensures cp + CpAll([b] + bs) == cp + [CpOf(b)] + CpAll(bs)
  {
    hide CpOf;
    assert ([b] + bs)[1..] == bs;
    assert CpAll([b] + bs) == [CpOf(b)] + CpAll(bs);
  }

  /** `parse_func_def_blob`: nothing exactly when the sections do not fit. */
  method ParseFuncDef(funcId: nat, line: nat, blob: seq<byte>) returns (r: Option<FuncDef>)
    ensures r.Some? <==> Sized(blob)
    ensures r.Some? ==> Describes(blob, funcId, line, r.value)
  {
    hide Cut, CpAll, Signed;
    if |blob| < 32 {
      return None;
    }
    var bcLen, scriptLen, fnLen, cpBytes := Word(blob, 0), Word(blob, 1), Word(blob, 2), Word(blob, 3);
    var i: nat := 32;
    if i + bcLen + scriptLen + fnLen + cpBytes > |blob| {
      return None;
    }
    var bytecode := blob[i..i + bcLen];
    i := i + bcLen;
    var scriptName := blob[i..i + scriptLen];
    i := i + scriptLen;
    var fnName := blob[i..i + fnLen];
    i := i + fnLen;
    var cp := ReadCp(blob[i..i + cpBytes]);
    r := Some(FuncDef(funcId, line, Signed(Word(blob, 4), 0x8000_0000), Word(blob, 5),
                      Signed(Word(blob, 6), 0x8000_0000), scriptName, fnName, bytecode, cp));
  }

  // ---------------------------------------------------------------------
  // The encoder's side.
  // ---------------------------------------------------------------------

  function Unsigned(v: int, half: nat): (r: int) {
    if v >= 0 then v else v + 2 * half
  }

  ghost predicate In32(n: int) {
    0 <= n < 0x1_0000_0000
  }

  /** `k` consecutive 32-bit words. */
  function Head(w: seq<nat>): (r: seq<byte>)
    ensures |r| == 4 * |w|
  {
    if w == [] then [] else ToLe(w[0], 4) + Head(w[1..])
  }

  /** The blob of a function whose constant pool is written as `bs`. */
  function EncodeFuncDef(def: FuncDef, bs: seq<Block>, reserved: nat): (r: seq<byte>)
    requires Unsigned(def.frameSize, 0x8000_0000) >= 0 && Unsigned(def.scriptId, 0x8000_0000) >= 0
  {
    Head([|def.bytecode|, |def.scriptName|, |def.fnName|, |RenderAll(bs)|,
          Unsigned(def.frameSize, 0x8000_0000), def.paramCount, Unsigned(def.scriptId, 0x8000_0000), reserved])
    + (def.bytecode + def.scriptName + def.fnName + RenderAll(bs))
  }

  ghost predicate Encodable(def: FuncDef, bs: seq<Block>) {
    && In32(|def.bytecode|) && In32(|def.scriptName|) && In32(|def.fnName|) && In32(|RenderAll(bs)|)
    && -0x8000_0000 <= def.frameSize < 0x8000_0000 && In32(def.paramCount)
    && -0x8000_0000 <= def.scriptId < 0x8000_0000
    && Renderable(bs) && def.cp == CpAll(bs)
  }

  lemma WordAt(pre: seq<byte>, n: nat, post: seq<byte>, k: nat)
    requires |pre| == 4 * k && n < 0x1_0000_0000
    ensures Word(pre + ToLe(n, 4) + post, k) == n
  {
    Fits4(n);
    LeRoundTrip(n, 4);
    assert (pre + ToLe(n, 4) + post)[4 * k..4 * k + 4] == ToLe(n, 4);
  }

  /** The words of a head of eight. */
  lemma HeadWords(w: seq<nat>, tail: seq<byte>, k: nat)
    requires |w| == 8 && k < 7 && w[k] < 0x1_0000_0000
    ensures Word(Head(w) + tail, k) == w[k]
  {
    var pre := Head(w[..k]);
    HeadSplit(w, k);
    assert Head(w) + tail == pre + ToLe(w[k], 4) + (Head(w[k + 1..]) + tail);
    WordAt(pre, w[k], Head(w[k + 1..]) + tail, k);
  }

  lemma {:induction false} HeadSplit(w: seq<nat>, k: nat)
    requires k < |w|
    ensures Head(w) == Head(w[..k]) + ToLe(w[k], 4) + Head(w[k + 1..])
  {
    hide ToLe;
    if k == 0 {
    } else {
      HeadSplit(w[1..], k - 1);
      assert w[1..][..k - 1] == w[..k][1..];
    }
  }

  /** Parsing inverts encoding: a function definition comes back whole. */
  lemma FuncDefRoundTrip(def: FuncDef, bs: seq<Block>, reserved: nat, out: FuncDef)
    requires Encodable(def, bs)
    requires Sized(EncodeFuncDef(def, bs, reserved)) ==>
               Describes(EncodeFuncDef(def, bs, reserved), def.funcId, def.line, out)
    ensures Sized(EncodeFuncDef(def, bs, reserved)) && out == def
  {
    hide ToLe, FromLe, RenderAll, Cut, CpAll, Renderable;
    var blob := EncodeFuncDef(def, bs, reserved);
    var w := [|def.bytecode|, |def.scriptName|, |def.fnName|, |RenderAll(bs)|,
              Unsigned(def.frameSize, 0x8000_0000), def.paramCount, Unsigned(def.scriptId, 0x8000_0000), reserved];
    var tail := def.bytecode + def.scriptName + def.fnName + RenderAll(bs);
    assert blob == Head(w) + tail;
    forall k: nat | k < 7
      ensures Word(blob, k) == w[k]
    {
      HeadWords(w, tail, k);
    }
    hide Head, Word;
    assert Word(blob, 0) == w[0] && Word(blob, 1) == w[1] && Word(blob, 2) == w[2] && Word(blob, 3) == w[3];
    assert Word(blob, 4) == w[4] && Word(blob, 5) == w[5] && Word(blob, 6) == w[6];
    Sections(Head(w), def.bytecode, def.scriptName, def.fnName, RenderAll(bs));
    CutWhole(bs);
    hide EncodeFuncDef;
  }

  lemma CutWhole(bs: seq<Block>)
    requires Renderable(bs)
    ensures Cut(RenderAll(bs)) == bs
  {
    hide RenderAll, Cut;
    assert RenderAll(bs) + [] == RenderAll(bs);
    CutRendered(bs, []);
  }

  lemma Sections(h: seq<byte>, a: seq<byte>, b: seq<byte>, c: seq<byte>, d: seq<byte>)
    ensures var r := h + (a + b + c + d);
            var i, j, k := |h| + |a|, |h| + |a| + |b|, |h| + |a| + |b| + |c|;
            r[|h|..i] == a && r[i..j] == b && r[j..k] == c && r[k..k + |d|] == d && k + |d| == |r|
  {
  }
}
