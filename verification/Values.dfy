/** What the engine writes into a record and into a constant pool
    (patches/0033-v8-ignition-bytecode-trace.patch), read back by the decoders of src/bctrace.rs. */
module Values {
  import opened Bytes
  import opened Blocks

  const TWO_31: int := 0x8000_0000
  const TWO_63: int := 0x8000_0000_0000_0000

  /** A value of an instruction record. Floats are their bits; strings are bytes or UTF-16LE bytes. */
  datatype Value =
    | AccText(text: seq<byte>)
    | AccText16(text: seq<byte>)
    | AccFloat(bits: nat)
    | AccInt(v: int)
    | RegisterWord(reg: nat, word: nat)
    | RegisterText(reg: nat, text: seq<byte>)
    | RegisterText16(reg: nat, text: seq<byte>)
    | RegisterFloat(reg: nat, bits: nat)
    | RegisterInt(reg: nat, v: int)
    | OperandValue(index: nat, v: int)
    | Clock(ticks: nat)

  predicate Bits16(n: int) {
    0 <= n < 0x1_0000
  }

  predicate Bits64(n: int) {
    0 <= n < 0x1_0000_0000_0000_0000
  }

  predicate Short(text: seq<byte>) {
    |text| < 0x1_0000_0000 - 2
  }

  predicate Encodes(v: Value) {
    match v
    case AccText(s) => Short(s)
    case AccText16(s) => Short(s)
    case AccFloat(bits) => Bits64(bits)
    case AccInt(n) => -TWO_31 <= n < TWO_31
    case RegisterWord(reg, word) => Bits16(reg) && Bits64(word)
    case RegisterText(reg, s) => Bits16(reg) && Short(s)
    case RegisterText16(reg, s) => Bits16(reg) && Short(s)
    case RegisterFloat(reg, bits) => Bits16(reg) && Bits64(bits)
    case RegisterInt(reg, n) => Bits16(reg) && -TWO_31 <= n < TWO_31
    case OperandValue(index, n) => 0 <= index < 256 && -TWO_63 <= n < TWO_63
    case Clock(ticks) => Bits64(ticks)
  }

  /** Two's complement in `k` bytes, of which `half` is half the range. */
  function SignedLe(n: int, k: nat, half: int): (b: seq<byte>)
    requires -half <= n
  {
    ToLe(if n < 0 then n + 2 * half else n, k)
  }

  /** `InstrBuilder`. */
  function Encode(v: Value): (b: Block)
    requires Encodes(v)
  {
    match v
    case AccText(s) => Block(0, s)
    case AccText16(s) => Block(11, s)
    case AccFloat(bits) => Block(1, ToLe(bits, 8))
    case AccInt(n) => Block(2, SignedLe(n, 4, TWO_31))
    case RegisterWord(reg, word) => Block(3, ToLe(reg, 2) + ToLe(word, 8))
    case RegisterText(reg, s) => Block(4, ToLe(reg, 2) + s)
    case RegisterText16(reg, s) => Block(12, ToLe(reg, 2) + s)
    case RegisterFloat(reg, bits) => Block(5, ToLe(reg, 2) + ToLe(bits, 8))
    case RegisterInt(reg, n) => Block(6, ToLe(reg, 2) + SignedLe(n, 4, TWO_31))
    case OperandValue(index, n) => Block(7, [index] + SignedLe(n, 8, TWO_63))
    case Clock(ticks) => Block(14, ToLe(ticks, 8))
  }

  predicate AllEncode(vs: seq<Value>) {
    forall k :: 0 <= k < |vs| ==> Encodes(vs[k])
  }

  function EncodeAll(vs: seq<Value>): (bs: seq<Block>)
    requires AllEncode(vs)
  {
    if vs == [] then [] else [Encode(vs[0])] + EncodeAll(vs[1..])
  }

  /** The bytes `rec` has from `at` on are `text`. */
  predicate Cuts(rec: seq<byte>, at: nat, len: nat, text: seq<byte>) {
    at + len <= |rec| && rec[at..at + len] == text
  }

  /** What was read is what was written: numbers as numbers, signed ones as signed, strings as the bytes they cut
      out of the record. */
  predicate ReadsAs(rec: seq<byte>, pv: Pv, v: Value) {
    match v
    case AccText(s) => pv.Str? && Cuts(rec, pv.at, pv.len, s)
    case AccText16(s) => pv.Str16? && Cuts(rec, pv.at, pv.len, s)
    case AccFloat(bits) => pv == F64(bits)
    case AccInt(n) => pv == Smi(n)
    case RegisterWord(reg, word) => pv == RegWord(reg, word)
    case RegisterText(reg, s) => pv.RegStr? && pv.reg == reg && Cuts(rec, pv.at, pv.len, s)
    case RegisterText16(reg, s) => pv.RegStr16? && pv.reg == reg && Cuts(rec, pv.at, pv.len, s)
    case RegisterFloat(reg, bits) => pv == RegF64(reg, bits)
    case RegisterInt(reg, n) => pv == RegSmi(reg, n)
    case OperandValue(index, n) => pv == Operand(index, n)
    case Clock(ticks) => pv == Vclock(ticks)
  }

  /** All values were read, each as what it was. */
  predicate AllReadAs(rec: seq<byte>, pvs: seq<Pv>, vs: seq<Value>) {
    |pvs| == |vs| && forall k :: 0 <= k < |vs| ==> ReadsAs(rec, pvs[k], vs[k])
  }

  lemma SignedReads(n: int, k: nat, half: int)
    requires -half <= n < half && 2 * half == Span(k)
    ensures Signed(FromLe(SignedLe(n, k, half)), half) == n
  {
    LeReads(if n < 0 then n + 2 * half else n, k);
  }

  lemma Behind(a: seq<byte>, b: seq<byte>)
    ensures (a + b)[..|a|] == a && (a + b)[|a|..] == b
  {
  }

  /** The numbers of one value. */
  lemma NumberReads(v: Value, at: nat)
    requires Encodes(v) && !v.AccText? && !v.AccText16? && !v.RegisterText? && !v.RegisterText16?
    ensures Typed(Encode(v), at).Some? && ReadsAs([], Typed(Encode(v), at).value, v)
  {
    Spans();
    hide FromLe, ToLe, Span, Signed, SignedLe;
    match v
    case AccFloat(bits) => LeReads(bits, 8);
    case AccInt(n) =>
      SignedReads(n, 4, TWO_31);
      SignedSize(n, 4, TWO_31);
    case RegisterWord(reg, word) =>
      LeReads(reg, 2);
      LeReads(word, 8);
      Behind(ToLe(reg, 2), ToLe(word, 8));
    case RegisterFloat(reg, bits) =>
      LeReads(reg, 2);
      LeReads(bits, 8);
      Behind(ToLe(reg, 2), ToLe(bits, 8));
    case RegisterInt(reg, n) =>
      LeReads(reg, 2);
      SignedReads(n, 4, TWO_31);
      SignedSize(n, 4, TWO_31);
      Behind(ToLe(reg, 2), SignedLe(n, 4, TWO_31));
    case OperandValue(index, n) =>
      SignedReads(n, 8, TWO_63);
      SignedSize(n, 8, TWO_63);
      Behind([index], SignedLe(n, 8, TWO_63));
    case Clock(ticks) => LeReads(ticks, 8);
  }

  lemma SignedSize(n: int, k: nat, half: int)
    requires -half <= n
    ensures |SignedLe(n, k, half)| == k
  {
  }

  /** One value, wherever its block stands in a record. */
  lemma ValueReads(rec: seq<byte>, at: nat, v: Value, more: seq<byte>)
    requires Encodes(v) && at <= |rec| && rec[at..] == Render(Encode(v)) + more
    ensures Typed(Encode(v), at + 5).Some? && ReadsAs(rec, Typed(Encode(v), at + 5).value, v)
  {
    var b := Encode(v);
    BodyAt(rec, at, b, more);
    if v.AccText? || v.AccText16? {
    } else if v.RegisterText? || v.RegisterText16? {
      Spans();
      LeReads(v.reg, 2);
      Behind(ToLe(v.reg, 2), v.text);
      hide FromLe, ToLe, Span;
      assert rec[at + 5..at + 5 + |b.body|][2..] == rec[at + 7..at + 5 + |b.body|];
    } else {
      NumberReads(v, at + 5);
    }
  }

  lemma {:induction false} AllRead(rec: seq<byte>, at: nat, vs: seq<Value>, rest: seq<byte>)
    requires AllEncode(vs) && at <= |rec|
    requires rec[at..] == RenderAll(EncodeAll(vs)) + rest
    ensures AllReadAs(rec, TypedAll(EncodeAll(vs), at), vs)
    decreases |vs|
  {
    hide Encodes, Encode, Typed, ReadsAs, Render, TypedAll;
    if vs == [] {
      TypedNone(at);
    } else {
      var b, more := Encode(vs[0]), RenderAll(EncodeAll(vs[1..])) + rest;
      RenderFirst(b, EncodeAll(vs[1..]), rest);
      ValueReads(rec, at, vs[0], more);
      BodyAt(rec, at, b, more);
      AllRead(rec, at + 5 + |b.body|, vs[1..], rest);
      TypedFirst(b, EncodeAll(vs[1..]), at);
    }
  }

  lemma {:induction false} AllRenderable(vs: seq<Value>)
    requires AllEncode(vs)
    ensures Renderable(EncodeAll(vs))
  {
    if vs == [] {
    } else {
      AllRenderable(vs[1..]);
      assert |Encode(vs[0]).body| < 0x1_0000_0000;
    }
  }

  /** A record carrying any list of values gives back exactly those values, in order, whatever incomplete bytes
      follow. */
  lemma {:induction false} ValuesReadBack(hdr: seq<byte>, vs: seq<Value>, rest: seq<byte>)
    requires |hdr| == HDR_LEN && AllEncode(vs) && NoBlock(rest)
    ensures var rec := hdr + RenderAll(EncodeAll(vs)) + rest;
            AllReadAs(rec, PvsOf(rec), vs)
  {
    hide *;
    var bs := EncodeAll(vs);
    AllRenderable(vs);
    PvsRoundTrip(hdr, bs, rest);
    BehindHeader(hdr, RenderAll(bs), rest);
    AllRead(hdr + RenderAll(bs) + rest, HDR_LEN, vs, rest);
  }

  lemma BehindHeader(hdr: seq<byte>, payload: seq<byte>, rest: seq<byte>)
    requires |hdr| == HDR_LEN
    ensures |hdr + payload + rest| >= HDR_LEN && (hdr + payload + rest)[HDR_LEN..] == payload + rest
  {
  }

  // ---------------------------------------------------------------------
  // Constant pools.
  // ---------------------------------------------------------------------

  predicate CpEncodes(c: CpEntry) {
    match c
    case Raw(bits) => Bits64(bits)
    case CpStr(s) => |s| < 0x1_0000_0000
    case CpStr16(s) => |s| < 0x1_0000_0000
    case CpF64(bits) => Bits64(bits)
  }

  /** `FuncDefBuilder`'s entries. */
  function EncodeCp(c: CpEntry): (b: Block) {
    match c
    case CpStr(s) => Block(8, s)
    case CpF64(bits) => Block(9, ToLe(bits, 8))
    case Raw(bits) => Block(10, ToLe(bits, 8))
    case CpStr16(s) => Block(13, s)
  }

  function EncodePool(cp: seq<CpEntry>): (bs: seq<Block>) {
    if cp == [] then [] else [EncodeCp(cp[0])] + EncodePool(cp[1..])
  }

  lemma CpReads(c: CpEntry)
    requires CpEncodes(c)
    ensures CpOf(EncodeCp(c)) == c && |EncodeCp(c).body| < 0x1_0000_0000
  {
    Spans();
    hide FromLe, ToLe, Span;
    match c
    case Raw(bits) => LeReads(bits, 8);
    case CpF64(bits) => LeReads(bits, 8);
    case CpStr(_) =>
    case CpStr16(_) =>
  }

  /** A constant pool reads back entry by entry. */
  lemma {:induction false} PoolReadsBack(cp: seq<CpEntry>)
    requires forall k :: 0 <= k < |cp| ==> CpEncodes(cp[k])
    ensures Renderable(EncodePool(cp)) && CpAll(EncodePool(cp)) == cp
  {
    hide CpOf, EncodeCp, CpEncodes;
    if cp == [] {
    } else {
      CpReads(cp[0]);
      PoolReadsBack(cp[1..]);
      assert EncodePool(cp)[1..] == EncodePool(cp[1..]);
    }
  }

  /** Every part of the definition fits its field. */
  ghost predicate Writable(def: FuncDef) {
    && (forall k :: 0 <= k < |def.cp| ==> CpEncodes(def.cp[k]))
    && In32(|def.bytecode|) && In32(|def.scriptName|) && In32(|def.fnName|) && In32(|RenderAll(EncodePool(def.cp))|)
    && -TWO_31 <= def.frameSize < TWO_31 && In32(def.paramCount) && -TWO_31 <= def.scriptId < TWO_31
  }

  /** A definition whose pool is written entry by entry parses back whole, pool included. */
  lemma DefinitionReadsBack(def: FuncDef, reserved: nat)
    requires Writable(def)
    ensures DefOf(def.funcId, def.line, EncodeFuncDef(def, EncodePool(def.cp), reserved)) == Some(def)
  {
    hide EncodeFuncDef, DefOf, Describes, Sized, RenderAll, EncodePool, CpAll, CpEncodes;
    PoolReadsBack(def.cp);
    var blob := EncodeFuncDef(def, EncodePool(def.cp), reserved);
    if DefOf(def.funcId, def.line, blob).Some? {
      var d := DefOf(def.funcId, def.line, blob).value;
      DescribedOnce(def.funcId, def.line, blob, d);
      FuncDefRoundTrip(def, EncodePool(def.cp), reserved, d);
    } else {
      UndefinedIff(def.funcId, def.line, blob);
      FuncDefRoundTrip(def, EncodePool(def.cp), reserved, def);
    }
  }
}
