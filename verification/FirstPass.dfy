/** The first pass of src/bctrace.rs over the instruction records, joined to the value book: what a record
    carried in its accumulator and registers is what the scanner later finds in a sink body. */
module FirstPass {
  import opened Bytes
  import opened Blocks
  import opened ValueBook
  import opened Glue
  import opened Semantic
  import Values
  import Bytecode
  import Matcher

  const SRC_ACC: byte := 0
  const SRC_REG: byte := 1

  /** A string value among a record's typed values: its bytes and where it rode. Accumulator values count
      only when the record's flag announces them. */
  function Carried(body: seq<byte>, pv: Pv): (r: Option<(seq<byte>, byte)>)
    requires |body| >= HDR_LEN
  {
    var acc := body[3] / 4 % 2 == 1;
    match pv
    case Str(at, len) => if acc then Some((BytesAt(body, at, len), SRC_ACC)) else None
    case Str16(at, len) => if acc then Some((BytesAt(body, at, len), SRC_ACC)) else None
    case RegStr(_, at, len) => Some((BytesAt(body, at, len), SRC_REG))
    case RegStr16(_, at, len) => Some((BytesAt(body, at, len), SRC_REG))
    case _ => None
  }

  /** The put a carried value leads to: at this function and offset, under this opcode if it is known. */
  function PutFor(r: Sunk, known: nat, c: (seq<byte>, byte)): (res: Entry)
    requires IsInstruction(r)
  {
    Entry(c.0, FromLe(r.body[8..12]), FromLe(r.body[4..8]), if r.body[0] < known then r.body[0] else OP_ID_NONE, c.1)
  }

  /** The put of one typed value; values under four bytes are passed over. */
  function PutOf(r: Sunk, known: nat, pv: Pv): (res: seq<Entry>)
    requires IsInstruction(r)
  {
    var c := Carried(r.body, pv);
    if c.Some? && |c.value.0| >= MIN_VALUE_LEN then [PutFor(r, known, c.value)] else []
  }

  function PutsOf(r: Sunk, known: nat, pvs: seq<Pv>): (res: seq<Entry>)
    requires IsInstruction(r)
  {
    if pvs == [] then [] else PutsOf(r, known, pvs[..|pvs| - 1]) + PutOf(r, known, pvs[|pvs| - 1])
  }

  /** The puts of all instructions; `known[k]` opcodes are known when instruction `k` is complete. */
  function RunPuts(recs: seq<Sunk>, known: seq<nat>): (r: seq<Entry>)
    requires |known| == |recs|
  {
    if recs == [] then []
    else
      var n := |recs| - 1;
      RunPuts(recs[..n], known[..n])
      + if IsInstruction(recs[n]) then PutsOf(recs[n], known[n], PvsOf(recs[n].body)) else []
  }

  lemma {:induction false} PutsOfIff(r: Sunk, known: nat, pvs: seq<Pv>, e: Entry)
    requires IsInstruction(r)
    ensures e in PutsOf(r, known, pvs) <==> exists j :: 0 <= j < |pvs| && e in PutOf(r, known, pvs[j])
  {
    hide PutOf, IsInstruction;
    if pvs == [] {
    } else {
      var n := |pvs| - 1;
      PutsOfIff(r, known, pvs[..n], e);
      assert forall j :: 0 <= j < n ==> pvs[..n][j] == pvs[j];
      if j :| 0 <= j < |pvs| && e in PutOf(r, known, pvs[j]) {
        assert j < n ==> e in PutOf(r, known, pvs[..n][j]);
      }
    }
  }

  // ---------------------------------------------------------------------
  // In terms of the bytes of the records.
  // ---------------------------------------------------------------------

  /** A block that carries the string `text`: an accumulator string, which counts under the flag, or a register
      string behind its two-byte register number. */
  ghost predicate TextBlock(b: Block, flag: bool, text: seq<byte>, src: byte) {
    || (flag && src == 0 && (b.tag == 0 || b.tag == 11) && text == b.body)
    || (src == 1 && (b.tag == 4 || b.tag == 12) && |b.body| >= 2 && text == b.body[2..])
  }

  ghost predicate HasText(bs: seq<Block>, flag: bool, text: seq<byte>, src: byte) {
    exists j :: 0 <= j < |bs| && TextBlock(bs[j], flag, text, src)
  }

  /** The record carries `text`, in its accumulator (`src` 0) or a register (1). */
  ghost predicate Carries(body: seq<byte>, text: seq<byte>, src: byte) {
    exists bs :: Payload(body, bs) && HasText(bs, body[3] / 4 % 2 == 1, text, src)
  }

  /** `e` is put for the instruction `r`: at its function and offset, under its opcode if that is known. */
  ghost predicate PutAt(r: Sunk, known: nat, e: Entry) {
    && |r.body| >= HDR_LEN && |e.value| >= 4
    && e.funcId == FromLe(r.body[8..12]) && e.off == FromLe(r.body[4..8])
    && e.opId == if r.body[0] < known then r.body[0] else 0xFFFF
  }

  /** The string read from one block. */
  lemma BlockText(body: seq<byte>, b: Block, at: nat, more: seq<byte>)
    requires |body| >= HDR_LEN && at <= |body| && body[at..] == Render(b) + more
    ensures var flag, pv := body[3] / 4 % 2 == 1, Typed(b, at + 5);
            if flag && (b.tag == 0 || b.tag == 11) then pv.Some? && Carried(body, pv.value) == Some((b.body, 0))
            else if (b.tag == 4 || b.tag == 12) && |b.body| >= 2 then
              pv.Some? && Carried(body, pv.value) == Some((b.body[2..], 1))
            else pv.Some? ==> Carried(body, pv.value) == None
  {
    BodyAt(body, at, b, more);
    hide FromLe, Render, Signed;
    var n := |b.body|;
    assert n >= 2 ==> body[at + 5..at + 5 + n][2..] == body[at + 7..at + 5 + n];
  }

  /** One block's put. */
  lemma BlockPut(r: Sunk, known: nat, b: Block, at: nat, more: seq<byte>, e: Entry)
    requires IsInstruction(r) && at <= |r.body| && r.body[at..] == Render(b) + more
    ensures Typed(b, at + 5).Some? && e in PutOf(r, known, Typed(b, at + 5).value) <==>
              PutAt(r, known, e) && TextBlock(b, r.body[3] / 4 % 2 == 1, e.value, e.src)
  {
    BlockText(r.body, b, at, more);
    hide FromLe, Render, Typed, Carried;
  }

  /** `e` is put for one of the typed values. */
  ghost predicate PutAmong(r: Sunk, known: nat, pvs: seq<Pv>, e: Entry)
    requires IsInstruction(r)
  {
    exists k :: 0 <= k < |pvs| && e in PutOf(r, known, pvs[k])
  }

  lemma AmongFirst(r: Sunk, known: nat, first: Option<Pv>, pvs: seq<Pv>, e: Entry)
    requires IsInstruction(r)
    ensures PutAmong(r, known, (if first.Some? then [first.value] else []) + pvs, e) <==>
              (first.Some? && e in PutOf(r, known, first.value)) || PutAmong(r, known, pvs, e)
  {
    hide PutOf, IsInstruction;
    var all := (if first.Some? then [first.value] else []) + pvs;
    var n := |all| - |pvs|;
    assert forall k :: 0 <= k < |pvs| ==> all[k + n] == pvs[k];
    if PutAmong(r, known, all, e) {
      var k :| 0 <= k < |all| && e in PutOf(r, known, all[k]);
      assert k >= n ==> e in PutOf(r, known, pvs[k - n]);
    }
    if PutAmong(r, known, pvs, e) {
      var k :| 0 <= k < |pvs| && e in PutOf(r, known, pvs[k]);
      assert e in PutOf(r, known, all[k + n]);
    }
    assert first.Some? ==> all[0] == first.value;
  }

  lemma TextFirst(b: Block, bs: seq<Block>, flag: bool, text: seq<byte>, src: byte)
    ensures HasText([b] + bs, flag, text, src) <==> TextBlock(b, flag, text, src) || HasText(bs, flag, text, src)
  {
    hide TextBlock;
    var all := [b] + bs;
    assert all[0] == b && forall j :: 0 <= j < |bs| ==> all[j + 1] == bs[j];
    if HasText(bs, flag, text, src) {
      var j :| 0 <= j < |bs| && TextBlock(bs[j], flag, text, src);
      assert TextBlock(all[j + 1], flag, text, src);
    }
    if HasText(all, flag, text, src) {
      var j :| 0 <= j < |all| && TextBlock(all[j], flag, text, src);
      assert j > 0 ==> TextBlock(bs[j - 1], flag, text, src);
    }
  }

  lemma {:induction false} BlockPuts(r: Sunk, known: nat, bs: seq<Block>, at: nat, rest: seq<byte>, e: Entry)
    requires IsInstruction(r) && at <= |r.body| && r.body[at..] == RenderAll(bs) + rest
    ensures PutAmong(r, known, TypedAll(bs, at), e) <==>
              PutAt(r, known, e) && HasText(bs, r.body[3] / 4 % 2 == 1, e.value, e.src)
    decreases |bs|
  {
    hide IsInstruction, PutAmong, PutAt, PutOf, HasText, TextBlock, Typed, Render, TypedAll;
    if bs == [] {
      NoPut(r, known, at, e);
    } else {
      var b, more, flag := bs[0], RenderAll(bs[1..]) + rest, r.body[3] / 4 % 2 == 1;
      assert bs == [b] + bs[1..];
      RenderFirst(b, bs[1..], rest);
      BlockPut(r, known, b, at, more, e);
      BodyAt(r.body, at, b, more);
      BlockPuts(r, known, bs[1..], at + 5 + |b.body|, rest, e);
      TypedFirst(b, bs[1..], at);
      AmongFirst(r, known, Typed(b, at + 5), TypedAll(bs[1..], at + 5 + |b.body|), e);
      TextFirst(b, bs[1..], flag, e.value, e.src);
    }
  }

  lemma NoPut(r: Sunk, known: nat, at: nat, e: Entry)
    requires IsInstruction(r)
    ensures !PutAmong(r, known, TypedAll([], at), e)
    ensures !HasText([], r.body[3] / 4 % 2 == 1, e.value, e.src)
  {
  }

  lemma CarriesCut(body: seq<byte>, text: seq<byte>, src: byte)
    requires |body| >= HDR_LEN
    ensures Carries(body, text, src) <==> HasText(Cut(body[HDR_LEN..]), body[3] / 4 % 2 == 1, text, src)
  {
    hide Payload, HasText, Cut;
    PayloadCut(body, Cut(body[HDR_LEN..]));
    if Carries(body, text, src) {
      var bs :| Payload(body, bs) && HasText(bs, body[3] / 4 % 2 == 1, text, src);
      PayloadCut(body, bs);
    }
  }

  /** What one instruction puts are exactly the strings it carries. */
  lemma {:induction false} PutsCarried(r: Sunk, known: nat, e: Entry)
    requires IsInstruction(r)
    ensures e in PutsOf(r, known, PvsOf(r.body)) <==> PutAt(r, known, e) && Carries(r.body, e.value, e.src)
  {
    hide Carries, HasText, PutAt, PutOf, TypedAll, Cut, Renderable, RenderAll, NoBlock;
    var rest := CutSplits(r.body[HDR_LEN..]);
    BlockPuts(r, known, Cut(r.body[HDR_LEN..]), HDR_LEN, rest, e);
    PutsOfIff(r, known, PvsOf(r.body), e);
    CarriesCut(r.body, e.value, e.src);
  }

  /** The same for all instructions: exactly the carried strings of at least four bytes are put, each at the
      function and offset of its instruction. */
  lemma {:induction false} RunPutsCarried(recs: seq<Sunk>, known: seq<nat>, e: Entry)
    requires |known| == |recs| && forall k :: 0 <= k < |recs| ==> IsInstruction(recs[k])
    ensures e in RunPuts(recs, known) <==>
              exists k :: 0 <= k < |recs| && PutAt(recs[k], known[k], e) && Carries(recs[k].body, e.value, e.src)
  {
    hide PutsOf, PvsOf, PutAt, Carries, IsInstruction;
    if recs == [] {
    } else {
      var n := |recs| - 1;
      RunPutsCarried(recs[..n], known[..n], e);
      PutsCarried(recs[n], known[n], e);
      forall k | 0 <= k < n
        ensures recs[..n][k] == recs[k] && known[..n][k] == known[k]
      {
      }
      if k :| 0 <= k < |recs| && PutAt(recs[k], known[k], e) && Carries(recs[k].body, e.value, e.src) {
        assert k < n ==> PutAt(recs[..n][k], known[..n][k], e) && Carries(recs[..n][k].body, e.value, e.src);
      }
    }
  }

  /** A string among the values an engine wrote into a record is carried by it. */
  lemma EncodedCarried(hdr: seq<byte>, vs: seq<Values.Value>, rest: seq<byte>, j: nat)
    requires |hdr| == HDR_LEN && Values.AllEncode(vs) && NoBlock(rest) && j < |vs|
    ensures var body := hdr + RenderAll(Values.EncodeAll(vs)) + rest;
            && (vs[j].AccText? || vs[j].AccText16? ==> (hdr[3] / 4 % 2 == 1 ==> Carries(body, vs[j].text, 0)))
            && (vs[j].RegisterText? || vs[j].RegisterText16? ==> Carries(body, vs[j].text, 1))
  {
    var bs := Values.EncodeAll(vs);
    var body := hdr + RenderAll(bs) + rest;
    Values.AllRenderable(vs);
    Values.BehindHeader(hdr, RenderAll(bs), rest);
    assert Payload(body, bs);
    EncodedAt(vs, j);
    assert body[3] == hdr[3];
    hide Payload, RenderAll, Values.EncodeAll, Values.AllEncode;
    var v := vs[j];
    if v.AccText? || v.AccText16? {
      assert hdr[3] / 4 % 2 == 1 ==> TextBlock(bs[j], true, v.text, 0);
    } else if v.RegisterText? || v.RegisterText16? {
      assert bs[j].body[2..] == v.text;
      assert TextBlock(bs[j], body[3] / 4 % 2 == 1, v.text, 1);
    }
  }

  lemma {:induction false} EncodedAt(vs: seq<Values.Value>, j: nat)
    requires Values.AllEncode(vs) && j < |vs|
    ensures j < |Values.EncodeAll(vs)| && Values.Encodes(vs[j]) && Values.EncodeAll(vs)[j] == Values.Encode(vs[j])
  {
    hide Values.Encodes, Values.Encode;
    assert Values.Encodes(vs[j]);
    if j > 0 {
      EncodedAt(vs[1..], j - 1);
    }
  }

  lemma FromLeBound(b: seq<byte>)
    ensures |b| == 2 ==> FromLe(b) < 0x1_0000
    ensures |b| == 4 ==> FromLe(b) < 0x1_0000_0000
  {
    if |b| == 2 || |b| == 4 {
      assert FromLe(b) == b[0] + 256 * FromLe(b[1..]);
      assert FromLe(b[1..]) == b[1] + 256 * FromLe(b[1..][1..]);
      if |b| == 4 {
        var c := b[2..];
        assert b[1..][1..] == c;
        assert FromLe(c) == c[0] + 256 * FromLe(c[1..]);
        assert FromLe(c[1..]) == c[1] + 256 * FromLe(c[1..][1..]);
        assert c[1..][1..] == [];
      } else {
        assert b[1..][1..] == [];
      }
    }
  }

  lemma PutFits(r: Sunk, known: nat, e: Entry)
    requires PutAt(r, known, e) && Carries(r.body, e.value, e.src) && |r.body| < 0x1_0000_0000
    ensures EntryFits(e) && |e.value| >= MIN_VALUE_LEN && e.src != SRC_CP
  {
    FromLeBound(r.body[8..12]);
    FromLeBound(r.body[4..8]);
    CarriesCut(r.body, e.value, e.src);
    hide FromLe, Cut, Carries;
    var bs, flag := Cut(r.body[HDR_LEN..]), r.body[3] / 4 % 2 == 1;
    var j :| 0 <= j < |bs| && TextBlock(bs[j], flag, e.value, e.src);
    CutInside(r.body[HDR_LEN..], j);
  }

  ghost predicate Small(recs: seq<Sunk>) {
    forall k :: 0 <= k < |recs| ==> |recs[k].body| < 0x1_0000_0000
  }

  lemma RunPutsFit(recs: seq<Sunk>, known: seq<nat>)
    requires |known| == |recs| && Small(recs) && forall k :: 0 <= k < |recs| ==> IsInstruction(recs[k])
    ensures var run := RunPuts(recs, known);
            AllFit(run) && RunOnly(run, |run|)
  {
    hide RunPuts, IsInstruction, PutAt, Carries;
    var run := RunPuts(recs, known);
    forall i | 0 <= i < |run|
      ensures EntryFits(run[i]) && |run[i].value| >= MIN_VALUE_LEN && run[i].src != SRC_CP
    {
      assert run[i] in run;
      RunPutsCarried(recs, known, run[i]);
      var k :| 0 <= k < |recs| && PutAt(recs[k], known[k], run[i]) && Carries(recs[k].body, run[i].value, run[i].src);
      PutFits(recs[k], known[k], run[i]);
    }
  }

  /** How many opcodes are known when each instruction is complete, if `known[k]` are at record `k`. */
  ghost function KnownOf(recs: seq<Sunk>, known: seq<nat>): (k: seq<nat>)
    requires |known| == |recs|
    ensures |k| == |Stream(recs)|
  {
    if recs == [] then []
    else
      var n := |recs| - 1;
      KnownOf(recs[..n], known[..n]) + if IsInstruction(recs[n]) && !More(recs[n].body) then [known[n]] else []
  }

  lemma KnownPush(recs: seq<Sunk>, known: seq<nat>, n: nat)
    requires |known| == |recs| && n < |recs|
    ensures KnownOf(recs[..n + 1], known[..n + 1])
         == if IsInstruction(recs[n]) && !More(recs[n].body) then KnownOf(recs[..n], known[..n]) + [known[n]]
            else KnownOf(recs[..n], known[..n])
  {
    hide IsInstruction, More, Stream;
    assert recs[..n + 1][..n] == recs[..n] && known[..n + 1][..n] == known[..n];
  }

  lemma PutsPush(s: seq<Sunk>, ks: seq<nat>, r: Sunk, k: nat)
    requires |ks| == |s| && IsInstruction(r)
    ensures RunPuts(s + [r], ks + [k]) == RunPuts(s, ks) + PutsOf(r, k, PvsOf(r.body))
  {
    hide PutsOf, PvsOf;
    assert (s + [r])[..|s|] == s && (ks + [k])[..|ks|] == ks;
  }

  /** The loop of the first pass over any records, split or not: the puts of all instructions they stand for, the
      functions these belong to, and the metadata and function definitions the records stand for. */
  method CollectPuts(recs: seq<Sunk>, known: seq<nat>)
    returns (run: seq<Entry>, blobs: seq<Sunk>, ran: set<nat>)
    requires |known| == |recs|
    ensures run == RunPuts(Stream(recs), KnownOf(recs, known))
    ensures blobs == Blobs(recs)
    ensures forall fid :: fid in ran <==> Ran(Stream(recs), fid)
  {
    hide PutsOf, PvsOf, FromLe, Stream, Blobs, Pending, Glued, GluedBlob, KnownOf, RunPuts, Ran;
    run, blobs, ran := [], [], {};
    NothingRan(recs);
    NothingStreams();
    NothingPut(recs, known);
    var gluer := new Gluer();
    var n := 0;
    while n < |recs|
      invariant n <= |recs| && fresh(gluer) && gluer.Valid(recs[..n], false) && gluer.Valid(recs[..n], true)
      invariant run == RunPuts(Stream(recs[..n]), KnownOf(recs[..n], known[..n])) && blobs == Blobs(recs[..n])
      invariant forall fid :: fid in ran <==> Ran(Stream(recs[..n]), fid)
    {
      var r := recs[n];
      assert recs[..n + 1] == recs[..n] + [r];
      StreamPush(recs[..n], r);
      KnownPush(recs, known, n);
      if IsInstruction(r) {
        var full := gluer.Feed(recs[..n], r);
        if full.Some? {
          PutsPush(Stream(recs[..n]), KnownOf(recs[..n], known[..n]), full.value, known[n]);
          var puts := RecordPuts(full.value, known[n], r.body[0], FromLe(r.body[8..12]));
          run := run + puts;
          forall fid
            ensures Ran(Stream(recs[..n + 1]), fid) <==> Ran(Stream(recs[..n]), fid) || fid == FromLe(r.body[8..12])
          {
            RanPush(Stream(recs[..n]), full.value, fid);
          }
          ran := ran + {FromLe(r.body[8..12])};
        }
      } else if |r.body| >= HDR_LEN {
        var full := gluer.FeedBlob(recs[..n], r);
        if full.Some? {
          blobs := blobs + [full.value];
        }
      } else {
        gluer.Skip(recs[..n], r, false);
        gluer.Skip(recs[..n], r, true);
      }
      n := n + 1;
    }
    assert recs[..n] == recs && known[..n] == known;
  }

  lemma NothingRan(recs: seq<Sunk>)
    ensures forall fid :: !Ran(Stream(recs[..0]), fid)
  {
  }

  lemma NothingPut(recs: seq<Sunk>, known: seq<nat>)
    requires |known| == |recs|
    ensures KnownOf(recs[..0], known[..0]) == [] && RunPuts([], []) == [] && Stream(recs[..0]) == []
            && Blobs(recs[..0]) == []
  {
  }

  lemma NoPuts(r: Sunk, known: nat)
    requires IsInstruction(r)
    ensures PutsOf(r, known, []) == []
  {
  }

  lemma PutsNext(r: Sunk, known: nat, pvs: seq<Pv>, j: nat)
    requires IsInstruction(r) && j < |pvs|
    ensures PutsOf(r, known, pvs[..j + 1]) == PutsOf(r, known, pvs[..j]) + PutOf(r, known, pvs[j])
  {
    hide PutOf;
    assert pvs[..j + 1][..j] == pvs[..j];
  }

  /** The values of one instruction, put under the opcode and function of the record that completed it. */
  method RecordPuts(r: Sunk, known: nat, opcode: byte, funcId: nat) returns (puts: seq<Entry>)
    requires IsInstruction(r) && PartKeyOf(r.body) == (opcode, funcId)
    ensures puts == PutsOf(r, known, PvsOf(r.body))
  {
    hide PvsOf, FromLe, PutsOf;
    assert PutsOf(r, known, []) == [] by { NoPuts(r, known); }
    var pvs := ParseBlocks(r.body);
    var op := if opcode < known then opcode else OP_ID_NONE;
    var off := FromLe(r.body[4..8]);
    puts := [];
    var j := 0;
    while j < |pvs|
      invariant j <= |pvs| && puts == PutsOf(r, known, pvs[..j])
    {
      PutsNext(r, known, pvs, j);
      var c := Carried(r.body, pvs[j]);
      if c.Some? && |c.value.0| >= MIN_VALUE_LEN {
        puts := puts + [Entry(c.value.0, funcId, off, op, c.value.1)];
      }
      j := j + 1;
    }
    assert pvs[..j] == pvs;
  }

  // ---------------------------------------------------------------------
  // Definitions and their literals.
  // ---------------------------------------------------------------------

  /** The function definition in a blob record. */
  function DefAt(b: Sunk): (def: Option<FuncDef>)
    ensures def.Some? ==> |b.body| >= HDR_LEN && def.value.funcId == FromLe(b.body[8..12])
  {
    if |b.body| < HDR_LEN || b.body[0] != OP_FUNC_DEF then None
    else DefOf(FromLe(b.body[8..12]), FromLe(b.body[12..16]), b.body[HDR_LEN..])
  }

  /** A definition written by the engine is found in its blob. */
  lemma DefinitionFound(b: Sunk, hdr: seq<byte>, def: FuncDef, reserved: nat)
    requires Values.Writable(def) && |hdr| == HDR_LEN && hdr[0] == 0xff
    requires def.funcId == FromLe(hdr[8..12]) && def.line == FromLe(hdr[12..16])
    requires b.body == hdr + EncodeFuncDef(def, Values.EncodePool(def.cp), reserved)
    ensures DefAt(b) == Some(def)
  {
    Values.DefinitionReadsBack(def, reserved);
    hide FromLe, EncodeFuncDef, DefOf, Values.Writable, Values.EncodePool;
    assert b.body[8..12] == hdr[8..12] && b.body[12..16] == hdr[12..16];
    assert b.body[HDR_LEN..] == EncodeFuncDef(def, Values.EncodePool(def.cp), reserved);
  }

  /** The definitions by function id, later ones in place of earlier ones. */
  function DefsOf(blobs: seq<Sunk>): (funcs: map<nat, FuncDef>) {
    if blobs == [] then map[]
    else
      var before, def := DefsOf(blobs[..|blobs| - 1]), DefAt(blobs[|blobs| - 1]);
      if def.Some? then before[def.value.funcId := def.value] else before
  }

  /** `def` is in blob number `i`, and no later blob defines its function again. */
  ghost predicate Current(blobs: seq<Sunk>, def: FuncDef, i: nat) {
    && i < |blobs| && DefAt(blobs[i]) == Some(def)
    && forall j :: i < j < |blobs| ==> !Redefines(blobs[j], def.funcId)
  }

  ghost predicate Redefines(b: Sunk, fid: nat) {
    DefAt(b).Some? && DefAt(b).value.funcId == fid
  }

  lemma {:induction false} DefsIff(blobs: seq<Sunk>, fid: nat, def: FuncDef)
    ensures fid in DefsOf(blobs) && DefsOf(blobs)[fid] == def <==>
              def.funcId == fid && exists i :: Current(blobs, def, i)
  {
    hide DefAt;
    if blobs == [] {
    } else {
      var n := |blobs| - 1;
      DefsIff(blobs[..n], fid, def);
      forall i: nat
        ensures Current(blobs, def, i) <==>
                  if i == n then DefAt(blobs[n]) == Some(def)
                  else Current(blobs[..n], def, i) && !Redefines(blobs[n], def.funcId)
      {
        CurrentGrows(blobs, def, i, n);
      }
      hide Current;
      if DefAt(blobs[n]) == Some(def) {
        assert Current(blobs, def, n);
      }
    }
  }

  lemma CurrentGrows(blobs: seq<Sunk>, def: FuncDef, i: nat, n: nat)
    requires |blobs| == n + 1
    ensures Current(blobs, def, i) <==>
              if i == n then DefAt(blobs[n]) == Some(def)
              else Current(blobs[..n], def, i) && !Redefines(blobs[n], def.funcId)
  {
    hide DefAt;
  }

  /** The loop over the blobs. */
  method CollectDefs(blobs: seq<Sunk>) returns (funcs: map<nat, FuncDef>)
    ensures funcs == DefsOf(blobs)
  {
    hide FromLe, Sized, Describes, DefOf;
    funcs := map[];
    var n := 0;
    while n < |blobs|
      invariant n <= |blobs| && funcs == DefsOf(blobs[..n])
    {
      assert blobs[..n + 1][..n] == blobs[..n];
      var b := blobs[n].body;
      if |b| >= HDR_LEN && b[0] == OP_FUNC_DEF {
        var def := ParseFuncDef(FromLe(b[8..12]), FromLe(b[12..16]), b[HDR_LEN..]);
        if def.Some? {
          DescribedOnce(FromLe(b[8..12]), FromLe(b[12..16]), b[HDR_LEN..], def.value);
          funcs := funcs[FromLe(b[8..12]) := def.value];
        } else {
          UndefinedIff(FromLe(b[8..12]), FromLe(b[12..16]), b[HDR_LEN..]);
        }
      }
      n := n + 1;
    }
    assert blobs[..n] == blobs;
  }

  /** The put of one constant-pool entry. */
  function LiteralOf(fid: nat, c: CpEntry): (puts: seq<Entry>) {
    if (c.CpStr? || c.CpStr16?) && |c.s| >= MIN_VALUE_LEN then [Entry(c.s, fid, 0, OP_ID_NONE, SRC_CP)] else []
  }

  function PoolPuts(fid: nat, cp: seq<CpEntry>): (puts: seq<Entry>) {
    if cp == [] then [] else PoolPuts(fid, cp[..|cp| - 1]) + LiteralOf(fid, cp[|cp| - 1])
  }

  function LiteralPuts(funcs: map<nat, FuncDef>, fids: seq<nat>): (puts: seq<Entry>)
    requires forall k :: 0 <= k < |fids| ==> fids[k] in funcs
  {
    if fids == [] then []
    else
      var n := |fids| - 1;
      LiteralPuts(funcs, fids[..n]) + PoolPuts(fids[n], funcs[fids[n]].cp)
  }

  /** The elements of a set in ascending order. */
  ghost function InOrderOf(s: set<nat>): (v: seq<nat>) {
    if s == {} then [] else [Lowest(s)] + InOrderOf(s - {Lowest(s)})
  }

  lemma {:induction false} InOrderMembers(s: set<nat>)
    ensures forall x :: x in InOrderOf(s) <==> x in s
  {
    hide Lowest;
    if s != {} {
      InOrderMembers(s - {Lowest(s)});
    }
  }

  /** There is only one ascending list of a set's elements. */
  lemma {:induction false} OneOrder(v: seq<nat>, s: set<nat>)
    requires Bytecode.Increasing(v) && forall x :: x in v <==> x in s
    ensures v == InOrderOf(s)
    decreases |v|
  {
    hide Lowest;
    if v == [] {
      assert s == {};
    } else {
      assert v[0] in s;
      var low := Lowest(s);
      assert low in v;
      var k :| 0 <= k < |v| && v[k] == low;
      assert v[0] <= low;
      forall x
        ensures x in v[1..] <==> x in s - {low}
      {
        assert v == [v[0]] + v[1..];
        assert x == v[0] ==> x !in v[1..];
      }
      OneOrder(v[1..], s - {low});
    }
  }

  /** The literals of every function the records define, in ascending order of function id. */
  ghost function Literals(recs: seq<Sunk>): (puts: seq<Entry>) {
    var funcs := DefsOf(Blobs(recs));
    InOrderMembers(funcs.Keys);
    LiteralPuts(funcs, InOrderOf(funcs.Keys))
  }

  /** The literal loop. */
  method CollectLiterals(funcs: map<nat, FuncDef>) returns (puts: seq<Entry>)
    ensures (forall x :: x in InOrderOf(funcs.Keys) ==> x in funcs) && puts == LiteralPuts(funcs, InOrderOf(funcs.Keys))
  {
    hide InOrderOf, PoolPuts, LiteralOf;
    InOrderMembers(funcs.Keys);
    var fids := Bytecode.Sorted(funcs.Keys);
    OneOrder(fids, funcs.Keys);
    puts := [];
    var n := 0;
    while n < |fids|
      invariant n <= |fids| && puts == LiteralPuts(funcs, fids[..n])
    {
      assert fids[..n + 1][..n] == fids[..n] && fids[n] in funcs;
      var pool := CollectPool(fids[n], funcs[fids[n]].cp);
      puts := puts + pool;
      n := n + 1;
    }
    assert fids[..n] == fids;
  }

  method CollectPool(fid: nat, cp: seq<CpEntry>) returns (puts: seq<Entry>)
    ensures puts == PoolPuts(fid, cp)
  {
    puts := [];
    var k := 0;
    while k < |cp|
      invariant k <= |cp| && puts == PoolPuts(fid, cp[..k])
    {
      assert cp[..k + 1][..k] == cp[..k];
      if (cp[k].CpStr? || cp[k].CpStr16?) && |cp[k].s| >= MIN_VALUE_LEN {
        puts := puts + [Entry(cp[k].s, fid, 0, OP_ID_NONE, SRC_CP)];
      }
      k := k + 1;
    }
    assert cp[..k] == cp;
  }

  /** What a literal's put looks like. */
  ghost predicate LiteralForm(e: Entry) {
    |e.value| >= MIN_VALUE_LEN && e.off == 0 && e.opId == OP_ID_NONE && e.src == SRC_CP
  }

  ghost predicate Pooled(v: seq<byte>, cp: seq<CpEntry>) {
    CpStr(v) in cp || CpStr16(v) in cp
  }

  lemma {:induction false} PoolIff(fid: nat, cp: seq<CpEntry>, e: Entry)
    ensures e in PoolPuts(fid, cp) <==> e.funcId == fid && LiteralForm(e) && Pooled(e.value, cp)
  {
    if cp == [] {
    } else {
      var n := |cp| - 1;
      PoolIff(fid, cp[..n], e);
      assert cp == cp[..n] + [cp[n]];
    }
  }

  lemma {:induction false} LiteralPutsIff(funcs: map<nat, FuncDef>, fids: seq<nat>, e: Entry)
    requires forall k :: 0 <= k < |fids| ==> fids[k] in funcs
    ensures e in LiteralPuts(funcs, fids) <==>
              e.funcId in fids && LiteralForm(e) && Pooled(e.value, funcs[e.funcId].cp)
  {
    hide LiteralForm, Pooled, PoolPuts;
    if fids == [] {
    } else {
      var n := |fids| - 1;
      LiteralPutsIff(funcs, fids[..n], e);
      PoolIff(fids[n], funcs[fids[n]].cp, e);
      assert fids == fids[..n] + [fids[n]];
    }
  }

  /** Function `fid`, as the records define it last, holds `v` in its constant pool. */
  ghost predicate Literal(recs: seq<Sunk>, fid: nat, def: FuncDef, v: seq<byte>) {
    def.funcId == fid && (exists i :: Current(Blobs(recs), def, i)) && Pooled(v, def.cp)
  }

  /** The literals are exactly the strings of at least four bytes in the pools of the definitions. */
  lemma LiteralsIff(recs: seq<Sunk>, e: Entry)
    ensures e in Literals(recs) <==> LiteralForm(e) && exists def :: Literal(recs, e.funcId, def, e.value)
  {
    hide Blobs, DefsOf, InOrderOf, LiteralPuts, Current, LiteralForm, Pooled;
    var funcs := DefsOf(Blobs(recs));
    InOrderMembers(funcs.Keys);
    LiteralPutsIff(funcs, InOrderOf(funcs.Keys), e);
    if e in Literals(recs) {
      DefsIff(Blobs(recs), e.funcId, funcs[e.funcId]);
      assert Literal(recs, e.funcId, funcs[e.funcId], e.value);
    }
    if def :| Literal(recs, e.funcId, def, e.value) {
      DefsIff(Blobs(recs), e.funcId, def);
    }
  }

  lemma {:induction false} PoolSmall(b: Sunk, v: seq<byte>)
    requires DefAt(b).Some? && Pooled(v, DefAt(b).value.cp)
    ensures |v| <= |b.body| && DefAt(b).value.funcId < 0x1_0000_0000
  {
    hide *;
    var pool := PoolAt(b);
    PieceSmall(pool, v);
  }

  lemma PoolAt(b: Sunk) returns (pool: seq<byte>)
    requires DefAt(b).Some?
    ensures |pool| <= |b.body| && DefAt(b).value.cp == CpAll(Cut(pool)) && DefAt(b).value.funcId < 0x1_0000_0000
  {
    FromLeBound(b.body[8..12]);
    hide FromLe, Cut, CpAll, Signed, Word;
    var blob := b.body[HDR_LEN..];
    var at := 32 + Word(blob, 0) + Word(blob, 1) + Word(blob, 2);
    pool := blob[at..at + Word(blob, 3)];
  }

  lemma {:induction false} PieceSmall(pool: seq<byte>, v: seq<byte>)
    requires Pooled(v, CpAll(Cut(pool)))
    ensures |v| <= |pool|
  {
    hide *;
    var bs := Cut(pool);
    var k := PooledAt(v, CpAll(bs));
    CpBody(bs[k]);
    CutInside(pool, k);
  }

  lemma PooledAt(v: seq<byte>, cp: seq<CpEntry>) returns (k: nat)
    requires Pooled(v, cp)
    ensures k < |cp| && (cp[k] == CpStr(v) || cp[k] == CpStr16(v))
  {
    k :| k < |cp| && (cp[k] == CpStr(v) || cp[k] == CpStr16(v));
  }

  lemma CpBody(b: Block)
    ensures CpOf(b).CpStr? || CpOf(b).CpStr16? ==> CpOf(b).s == b.body
  {
    hide FromLe;
  }

  lemma LiteralsFit(recs: seq<Sunk>)
    requires Small(Blobs(recs))
    ensures AllFit(Literals(recs))
  {
    hide Blobs, Literals, Pooled, DefAt;
    var puts := Literals(recs);
    forall i | 0 <= i < |puts|
      ensures EntryFits(puts[i]) && |puts[i].value| >= MIN_VALUE_LEN
    {
      assert puts[i] in puts;
      LiteralsIff(recs, puts[i]);
      var def :| Literal(recs, puts[i].funcId, def, puts[i].value);
      var k: nat :| Current(Blobs(recs), def, k);
      PoolSmall(Blobs(recs)[k], puts[i].value);
    }
  }

  // ---------------------------------------------------------------------
  // What ran.
  // ---------------------------------------------------------------------

  /** Some instruction of function `fid` is in the stream. */
  ghost predicate Ran(stream: seq<Sunk>, fid: nat) {
    exists k :: 0 <= k < |stream| && |stream[k].body| >= HDR_LEN && FromLe(stream[k].body[8..12]) == fid
  }

  lemma RanPush(stream: seq<Sunk>, r: Sunk, fid: nat)
    requires |r.body| >= HDR_LEN
    ensures Ran(stream + [r], fid) <==> Ran(stream, fid) || FromLe(r.body[8..12]) == fid
  {
    hide FromLe;
    var s := stream + [r];
    if Ran(stream, fid) {
      var k :| 0 <= k < |stream| && |stream[k].body| >= HDR_LEN && FromLe(stream[k].body[8..12]) == fid;
      assert s[k] == stream[k];
    }
    assert s[|stream|] == r;
  }

  /** `exec_funcs.bin`: the functions that ran, ascending. */
  ghost predicate IsExec(exec: seq<nat>, stream: seq<Sunk>) {
    Bytecode.Increasing(exec) && forall fid :: fid in exec <==> Ran(stream, fid)
  }

  // ---------------------------------------------------------------------
  // From records to hits.
  // ---------------------------------------------------------------------

  /** Everything the first pass puts, in order. */
  ghost function AllPuts(recs: seq<Sunk>, known: seq<nat>): (puts: seq<Entry>)
    requires |known| == |recs|
  {
    RunPuts(Stream(recs), KnownOf(recs, known)) + Literals(recs)
  }

  /** An instruction in the stream carried exactly these bytes at this origin. */
  ghost predicate FromRun(recs: seq<Sunk>, known: seq<nat>, v: seq<byte>, origin: Origin)
    requires |known| == |recs|
  {
    exists k :: 0 <= k < |Stream(recs)| && Carries(Stream(recs)[k].body, v, origin.src)
                && PutAt(Stream(recs)[k], KnownOf(recs, known)[k],
                         Entry(v, origin.funcId, origin.off, origin.opId, origin.src))
  }

  /** A function in the stream has a current definition that holds exactly these bytes. */
  ghost predicate FromPool(recs: seq<Sunk>, v: seq<byte>, origin: Origin) {
    && origin.off == 0 && origin.opId == OP_ID_NONE && origin.src == SRC_CP && Ran(Stream(recs), origin.funcId)
    && exists def :: Literal(recs, origin.funcId, def, v)
  }

  /** The whole way from records to hits. A string carried by an instruction in the stream lies in the body at `o`
      exactly if a hit at `o` is reported for it. A value is searched for exactly if some put of it is written and
      wanted. Every hit is explained by an instruction in the stream that carried exactly those bytes, or by a
      definition in the records that holds them and whose function is in the stream. */
  method Provenance(hash: seq<byte> -> nat, recs: seq<Sunk>, known: seq<nat>, body: seq<byte>)
    returns (hits: seq<Matcher.Hit>, origins: seq<Origin>, patterns: seq<seq<byte>>, exec: seq<nat>)
    requires |known| == |recs| && Small(Stream(recs)) && Small(Blobs(recs))
    requires FileBound(RunPuts(Stream(recs), KnownOf(recs, known))) + FileBound(Literals(recs)) < Matcher.NO_OUT
    ensures |origins| == |patterns| && IsExec(exec, Stream(recs))
    ensures forall k, text, src, o {:trigger Carries(Stream(recs)[k].body, text, src), OccursIn(text, body, o)} ::
              0 <= k < |Stream(recs)| && Carries(Stream(recs)[k].body, text, src) && 4 <= |text| <= MAX_LEN ==>
                (OccursIn(text, body, o) <==>
                 exists id: nat :: id < |patterns| && patterns[id] == text && Matcher.Hit(id, o) in hits)
    ensures forall v :: 0 < |v| <= MAX_LEN ==>
              (IsPattern(patterns, v) <==> exists i :: Decides(hash, AllPuts(recs, known), exec, v, i))
    ensures forall h :: h in hits ==>
              && h.id < |patterns| && OccursIn(patterns[h.id], body, h.off)
              && (FromRun(recs, known, patterns[h.id], origins[h.id]) || FromPool(recs, patterns[h.id], origins[h.id]))
  {
    hide Carries, PutAt, RunPuts, AllFit, FileBound, OccursIn, Stream, KnownOf, Blobs, Literals, Justified, FromRun,
         FromPool, Ran, Decides, DefsOf, LiteralPuts, IsPattern, InOrderOf;
    ghost var stream, ks := Stream(recs), KnownOf(recs, known);
    StreamInstructions(recs);
    RunPutsFit(stream, ks);
    LiteralsFit(recs);
    var run, blobs, ran := CollectPuts(recs, known);
    var funcs := CollectDefs(blobs);
    var literals := CollectLiterals(funcs);
    assert literals == Literals(recs) by { LiteralsAre(recs, funcs, literals); }
    exec := Bytecode.Sorted(ran);
    assert run + literals == AllPuts(recs, known);
    hits, origins, patterns := Trace(hash, run, literals, exec, body);
    forall k, text, src, o | 0 <= k < |stream| && Carries(stream[k].body, text, src) && 4 <= |text| <= MAX_LEN
      ensures OccursIn(text, body, o) <==>
              exists id: nat :: id < |patterns| && patterns[id] == text && Matcher.Hit(id, o) in hits
    {
      var i := CarriedPut(recs, known, run, k, text, src);
      assert OccursIn(run[i].value, body, o) <==> OccursIn(text, body, o);
    }
    forall h | h in hits
      ensures FromRun(recs, known, patterns[h.id], origins[h.id]) || FromPool(recs, patterns[h.id], origins[h.id])
    {
      Explain(recs, known, exec, patterns[h.id], origins[h.id]);
    }
  }

  lemma CarriedPut(recs: seq<Sunk>, known: seq<nat>, run: seq<Entry>, k: nat, text: seq<byte>, src: byte)
    returns (i: nat)
    requires |known| == |recs| && run == RunPuts(Stream(recs), KnownOf(recs, known))
    requires k < |Stream(recs)| && Carries(Stream(recs)[k].body, text, src) && 4 <= |text|
    ensures i < |run| && run[i].value == text
  {
    hide Carries, RunPuts, Stream, KnownOf, FromLe;
    StreamInstructions(recs);
    var r, known' := Stream(recs)[k], KnownOf(recs, known)[k];
    var op := if r.body[0] < known' then r.body[0] else 0xFFFF;
    var e := Entry(text, FromLe(r.body[8..12]), FromLe(r.body[4..8]), op, src);
    assert PutAt(r, known', e);
    hide PutAt;
    RunPutsCarried(Stream(recs), KnownOf(recs, known), e);
    i :| i < |run| && run[i] == e;
  }

  lemma LiteralsAre(recs: seq<Sunk>, funcs: map<nat, FuncDef>, puts: seq<Entry>)
    requires funcs == DefsOf(Blobs(recs)) && forall x :: x in InOrderOf(funcs.Keys) ==> x in funcs
    requires puts == LiteralPuts(funcs, InOrderOf(funcs.Keys))
    ensures puts == Literals(recs)
  {
    hide DefsOf, Blobs, InOrderOf, LiteralPuts;
  }

  lemma Explain(recs: seq<Sunk>, known: seq<nat>, exec: seq<nat>, v: seq<byte>, origin: Origin)
    requires |known| == |recs| && IsExec(exec, Stream(recs)) && Justified(AllPuts(recs, known), exec, v, origin)
    ensures FromRun(recs, known, v, origin) || FromPool(recs, v, origin)
  {
    hide PutAt, Carries, RunPuts, Stream, KnownOf, Literals, Literal, Ran;
    var stream, ks := Stream(recs), KnownOf(recs, known);
    var e :| e in AllPuts(recs, known) && e.value == v && origin == Origin(e.funcId, e.off, e.opId, e.src)
             && Wanted(e, exec);
    if e in RunPuts(stream, ks) {
      StreamInstructions(recs);
      RunPutsCarried(stream, ks, e);
    } else {
      LiteralsIff(recs, e);
    }
  }
}
