/** The gluing of split records: the engine cuts a payload too large for one sink record into parts, and both
    passes of src/bctrace.rs put the parts together again, one map of parts for each opcode and function. */
module Glue {
  import opened Bytes
  import opened Blocks

  const OP_META: byte := 0xfe
  const OP_FUNC_DEF: byte := 0xff

  /** A trace record as the collector stored it. */
  datatype Sunk = Sunk(pid: nat, ts: nat, body: seq<byte>)

  /** What parts of one record have in common: opcode and function. */
  type PartKey = (byte, nat)

  /** Parts by their position word. */
  type Parts = map<nat, seq<byte>>

  /** Neither too short nor metadata: an executed instruction. */
  predicate IsInstruction(r: Sunk) {
    |r.body| >= HDR_LEN && r.body[0] != OP_META && r.body[0] != OP_FUNC_DEF
  }

  predicate IsBlob(r: Sunk) {
    |r.body| >= HDR_LEN && (r.body[0] == OP_META || r.body[0] == OP_FUNC_DEF)
  }

  /** More parts follow: flag bit 1. */
  predicate More(body: seq<byte>)
    requires |body| >= HDR_LEN
  {
    body[3] / 2 % 2 == 1
  }

  function PartKeyOf(body: seq<byte>): (key: PartKey)
    requires |body| >= HDR_LEN
  {
    (body[0], FromLe(body[8..12]))
  }

  function Position(body: seq<byte>): (at: nat)
    requires |body| >= HDR_LEN
  {
    FromLe(body[4..8])
  }

  // ---------------------------------------------------------------------
  // Parts in ascending order of position.
  // ---------------------------------------------------------------------

  ghost predicate IsLowest(k: nat, s: set<nat>) {
    k in s && forall x :: x in s ==> k <= x
  }

  lemma {:induction false} LowestExists(s: set<nat>)
    requires s != {}
    ensures exists k: nat :: IsLowest(k, s)
    decreases |s|
  {
    var k: nat :| k in s;
    if s == {k} {
      assert IsLowest(k, s);
    } else {
      LowestExists(s - {k});
      var low: nat :| IsLowest(low, s - {k});
      var least := if k < low then k else low;
      forall x | x in s
        ensures least <= x
      {
        assert x != k ==> x in s - {k};
      }
      assert IsLowest(least, s);
    }
  }

  ghost function Lowest(s: set<nat>): (k: nat)
    requires s != {}
    ensures IsLowest(k, s)
  {
    LowestExists(s);
    var k: nat :| IsLowest(k, s);
    k
  }

  /** The parts joined, lowest position first. */
  ghost function InOrder(m: Parts): (full: seq<byte>)
    decreases |m|
  {
    if m == map[] then []
    else
      var k := Lowest(m.Keys);
      ShrinkParts(m, k);
      m[k] + InOrder(m - {k})
  }

  lemma ShrinkParts(m: Parts, k: nat)
    requires k in m
    ensures |m - {k}| < |m| && (m - {k}).Keys == m.Keys - {k}
  {
    assert (m - {k}).Keys == m.Keys - {k};
    assert |m.Keys| == |m| && |(m - {k}).Keys| == |m - {k}|;
  }

  lemma NothingInOrder()
    ensures InOrder(map[]) == []
  {
  }

  lemma OnePart(k: nat, v: seq<byte>)
    ensures InOrder(map[k := v]) == v
  {
    var m := map[k := v];
    assert m - {k} == map[];
  }

  lemma PeelLowest(m: Parts, k: nat)
    requires IsLowest(k, m.Keys)
    ensures InOrder(m) == m[k] + InOrder(m - {k}) && |m - {k}| < |m|
  {
    assert Lowest(m.Keys) == k;
    ShrinkParts(m, k);
  }

  lemma KeepLowest(m: Parts, low: nat, k: nat, v: seq<byte>)
    requires IsLowest(low, m.Keys) && forall x :: x in m ==> x < k
    ensures IsLowest(low, m[k := v].Keys) && m[k := v] - {low} == (m - {low})[k := v] && m[k := v][low] == m[low]
  {
    assert m[k := v].Keys == m.Keys + {k};
  }

  /** A part behind all others joins last. */
  lemma {:induction false} HighestLast(m: Parts, k: nat, v: seq<byte>)
    requires forall x :: x in m ==> x < k
    ensures InOrder(m[k := v]) == InOrder(m) + v
    decreases |m|
  {
    if m == map[] {
      assert m[k := v] == map[k := v];
      OnePart(k, v);
    } else {
      var low: nat := Lowest(m.Keys);
      var m' := m[k := v];
      KeepLowest(m, low, k, v);
      hide *;
      PeelLowest(m, low);
      PeelLowest(m', low);
      HighestLast(m - {low}, k, v);
    }
  }

  /** The joining loop: an ordered map gives its parts in ascending order. */
  method Join(m: Parts) returns (full: seq<byte>)
    ensures full == InOrder(m)
  {
    hide Lowest, InOrder;
    full := [];
    NothingInOrder();
    var rest := m;
    while rest != map[]
      invariant full + InOrder(rest) == InOrder(m)
      decreases |rest|
    {
      LowestExists(rest.Keys);
      ghost var low: nat :| IsLowest(low, rest.Keys);
      var k: nat :| k in rest.Keys && forall x: nat :: x in rest.Keys ==> k <= x;
      PeelLowest(rest, k);
      full := full + rest[k];
      rest := rest - {k};
    }
  }

  // ---------------------------------------------------------------------
  // What waits, and what comes out.
  // ---------------------------------------------------------------------

  predicate BlobKey(key: PartKey) {
    key.0 == OP_META || key.0 == OP_FUNC_DEF
  }

  /** One part: an instruction's first part at a position brings its header along, a blob's never does. */
  function AddPart(m: Parts, body: seq<byte>): (m': Parts)
    requires |body| >= HDR_LEN
  {
    var at := Position(body);
    var e := if BlobKey(PartKeyOf(body)) then if at in m then m[at] else []
             else if at in m && m[at] != [] then m[at] else body[..HDR_LEN];
    m[at := e + body[HDR_LEN..]]
  }

  /** A record of one opcode, byte 0, and one function, the word at 8. */
  predicate Under(r: Sunk, key: PartKey) {
    |r.body| >= HDR_LEN && r.body[0] == key.0 && FromLe(r.body[8..12]) == key.1
  }

  /** The parts of `key` waiting after `recs`. */
  ghost function Pending(recs: seq<Sunk>, key: PartKey): (m: Parts) {
    if recs == [] then map[]
    else
      var m, r := Pending(recs[..|recs| - 1], key), recs[|recs| - 1];
      if !Under(r, key) then m else if More(r.body) then AddPart(m, r.body) else map[]
  }

  /** What an instruction record without followers stands for: itself, or the parts waiting for it in its place. */
  ghost function Glued(m: Parts, r: Sunk): (full: Sunk) {
    if m == map[] then r else r.(body := InOrder(m))
  }

  /** What a blob record without followers stands for: all its parts, its own included. */
  ghost function GluedBlob(m: Parts, r: Sunk): (full: Sunk)
    requires |r.body| >= HDR_LEN
  {
    r.(body := r.body[..HDR_LEN] + InOrder(AddPart(m, r.body)))
  }

  /** The instructions that `recs` stand for, in the order in which they are complete. */
  ghost function Stream(recs: seq<Sunk>): (full: seq<Sunk>) {
    if recs == [] then []
    else
      var before, r := recs[..|recs| - 1], recs[|recs| - 1];
      if IsInstruction(r) && !More(r.body) then Stream(before) + [Glued(Pending(before, PartKeyOf(r.body)), r)]
      else Stream(before)
  }

  /** The metadata and function definitions that `recs` stand for. */
  ghost function Blobs(recs: seq<Sunk>): (full: seq<Sunk>) {
    if recs == [] then []
    else
      var before, r := recs[..|recs| - 1], recs[|recs| - 1];
      if IsBlob(r) && !More(r.body) then Blobs(before) + [GluedBlob(Pending(before, PartKeyOf(r.body)), r)]
      else Blobs(before)
  }

  lemma NothingStreams()
    ensures Stream([]) == [] && Blobs([]) == []
  {
  }

  lemma PendingPush(recs: seq<Sunk>, r: Sunk, key: PartKey)
    ensures Pending(recs + [r], key)
         == if !Under(r, key) then Pending(recs, key)
            else if More(r.body) then AddPart(Pending(recs, key), r.body) else map[]
  {
    assert (recs + [r])[..|recs|] == recs;
  }

  lemma StreamPush(recs: seq<Sunk>, r: Sunk)
    ensures Stream(recs + [r])
         == if IsInstruction(r) && !More(r.body) then Stream(recs) + [Glued(Pending(recs, PartKeyOf(r.body)), r)]
            else Stream(recs)
    ensures Blobs(recs + [r])
         == if IsBlob(r) && !More(r.body) then Blobs(recs) + [GluedBlob(Pending(recs, PartKeyOf(r.body)), r)]
            else Blobs(recs)
  {
    assert (recs + [r])[..|recs|] == recs;
  }

  /** Every waiting part starts with a header of its own opcode and function. */
  ghost predicate Headed(m: Parts, key: PartKey) {
    forall at :: at in m ==> |m[at]| >= HDR_LEN && PartKeyOf(m[at]) == key
  }

  lemma AddHeaded(m: Parts, key: PartKey, body: seq<byte>)
    requires !BlobKey(key) && Headed(m, key) && |body| >= HDR_LEN && PartKeyOf(body) == key
    ensures Headed(AddPart(m, body), key)
  {
    hide FromLe;
    var at, m' := Position(body), AddPart(m, body);
    assert m'[at][0] == if at in m then m[at][0] else body[0];
    assert m'[at][8..12] == if at in m then m[at][8..12] else body[8..12];
  }

  lemma {:induction false} PendingHeaded(recs: seq<Sunk>, key: PartKey)
    requires !BlobKey(key)
    ensures Headed(Pending(recs, key), key)
  {
    if recs == [] {
    } else {
      var before, r := recs[..|recs| - 1], recs[|recs| - 1];
      PendingHeaded(before, key);
      hide AddPart, Headed;
      if Under(r, key) && More(r.body) {
        AddHeaded(Pending(before, key), key, r.body);
      } else {
        NoneHeaded(key);
      }
    }
  }

  lemma NoneHeaded(key: PartKey)
    ensures Headed(map[], key)
  {
  }

  /** A glued record is an instruction of the same opcode and function as the record that completed it. */
  lemma GluedKey(m: Parts, r: Sunk)
    requires IsInstruction(r) && Headed(m, PartKeyOf(r.body))
    ensures var g := Glued(m, r);
            IsInstruction(g) && PartKeyOf(g.body) == PartKeyOf(r.body) && g.pid == r.pid && g.ts == r.ts
  {
    hide FromLe;
    if m != map[] {
      var k := Lowest(m.Keys);
      ShrinkParts(m, k);
      var g := m[k] + InOrder(m - {k});
      assert InOrder(m) == g && g[8..12] == m[k][8..12];
    }
  }

  lemma {:induction false} StreamInstructions(recs: seq<Sunk>)
    ensures forall k :: 0 <= k < |Stream(recs)| ==> IsInstruction(Stream(recs)[k])
  {
    if recs == [] {
    } else {
      var before, r := recs[..|recs| - 1], recs[|recs| - 1];
      StreamInstructions(before);
      if IsInstruction(r) && !More(r.body) {
        PendingHeaded(before, PartKeyOf(r.body));
        hide IsInstruction, Glued, Pending, More;
        GluedKey(Pending(before, PartKeyOf(r.body)), r);
      }
    }
  }

  /** No instruction record is split over several parts. */
  ghost predicate Unsplit(recs: seq<Sunk>) {
    forall k :: 0 <= k < |recs| && IsInstruction(recs[k]) ==> !More(recs[k].body)
  }

  /** Opcodes 0xfe and 0xff are metadata and function definitions; shorter records are nothing at all. */
  function Instructions(recs: seq<Sunk>): (full: seq<Sunk>) {
    if recs == [] then []
    else
      var r := recs[|recs| - 1];
      Instructions(recs[..|recs| - 1]) + if |r.body| >= 72 && r.body[0] < 0xfe then [r] else []
  }

  function BlobRecords(recs: seq<Sunk>): (full: seq<Sunk>) {
    if recs == [] then []
    else
      var r := recs[|recs| - 1];
      BlobRecords(recs[..|recs| - 1]) + if |r.body| >= 72 && r.body[0] >= 0xfe then [r] else []
  }

  /** Without split records the stream is the instruction records as they are. */
  lemma {:induction false} UnsplitStream(recs: seq<Sunk>)
    requires Unsplit(recs)
    ensures Stream(recs) == Instructions(recs) && forall key :: !BlobKey(key) ==> Pending(recs, key) == map[]
  {
    if recs == [] {
    } else {
      UnsplitStream(recs[..|recs| - 1]);
      assert Unsplit(recs[..|recs| - 1]);
      hide FromLe, AddPart, More;
    }
  }

  lemma AloneWhole(r: Sunk)
    requires IsBlob(r)
    ensures GluedBlob(map[], r) == r
  {
    hide FromLe, InOrder;
    assert [] + r.body[HDR_LEN..] == r.body[HDR_LEN..];
    assert AddPart(map[], r.body) == map[Position(r.body) := r.body[HDR_LEN..]];
    OnePart(Position(r.body), r.body[HDR_LEN..]);
    assert r.body[..HDR_LEN] + r.body[HDR_LEN..] == r.body;
  }

  /** Without split records the blobs are the blob records as they are. */
  lemma {:induction false} UnsplitBlobs(recs: seq<Sunk>)
    requires forall k :: 0 <= k < |recs| && |recs[k].body| >= HDR_LEN ==> !More(recs[k].body)
    ensures Blobs(recs) == BlobRecords(recs) && forall key :: Pending(recs, key) == map[]
  {
    if recs == [] {
    } else {
      var before, r := recs[..|recs| - 1], recs[|recs| - 1];
      UnsplitBlobs(before);
      if IsBlob(r) {
        AloneWhole(r);
      }
      hide FromLe, AddPart, More, GluedBlob;
    }
  }

  // ---------------------------------------------------------------------
  // The gluing state of a pass.
  // ---------------------------------------------------------------------

  /** A key is there exactly while parts of it wait. */
  ghost predicate Waits(parts: map<PartKey, Parts>, recs: seq<Sunk>, key: PartKey) {
    if key in parts then parts[key] != map[] && Pending(recs, key) == parts[key] else Pending(recs, key) == map[]
  }

  class Gluer {
    var parts: map<PartKey, Parts>

    /** In step with `recs`, as far as instructions or blobs go. */
    ghost predicate Valid(recs: seq<Sunk>, blobs: bool)
      reads this
    {
      forall key :: BlobKey(key) == blobs ==> Waits(parts, recs, key)
    }

    constructor ()
      ensures Valid([], false) && Valid([], true)
    {
      parts := map[];
    }

    /** One instruction record: a part waits; a record without followers comes out, in the words of the parts
        that waited for it, if any did. */
    method Feed(ghost recs: seq<Sunk>, r: Sunk) returns (full: Option<Sunk>)
      requires Valid(recs, false) && IsInstruction(r)
      modifies this
      ensures Valid(recs + [r], false) && (old(Valid(recs, true)) ==> Valid(recs + [r], true))
      ensures full == if More(r.body) then None else Some(Glued(Pending(recs, PartKeyOf(r.body)), r))
      ensures full.Some? ==> IsInstruction(full.value) && PartKeyOf(full.value.body) == PartKeyOf(r.body)
    {
      var key := PartKeyOf(r.body);
      hide IsInstruction, InOrder, FromLe, Pending, AddPart;
      assert Waits(parts, recs, key);
      ghost var parts0 := parts;
      PendingHeaded(recs, key);
      if More(r.body) {
        var m := if key in parts then parts[key] else map[];
        parts := parts[key := AddPart(m, r.body)];
        full := None;
        AddedPart(m, r.body);
      } else if key in parts {
        var body := Join(parts[key]);
        full := Some(r.(body := body));
        parts := parts - {key};
        GluedKey(Pending(recs, key), r);
      } else {
        full := Some(r);
      }
      forall k | Waits(parts0, recs, k)
        ensures Waits(parts, recs + [r], k)
      {
        PendingPush(recs, r, k);
      }
    }

    /** A record of the other kind, or one too short to be of any, leaves the waiting parts alone. */
    ghost method Skip(recs: seq<Sunk>, r: Sunk, blobs: bool)
      requires Valid(recs, blobs) && if blobs then !IsBlob(r) else !IsInstruction(r)
      ensures Valid(recs + [r], blobs)
    {
      hide Pending, AddPart;
      forall key | BlobKey(key) == blobs
        ensures Waits(parts, recs + [r], key)
      {
        PendingPush(recs, r, key);
      }
    }

    /** One metadata or function-definition record. */
    method FeedBlob(ghost recs: seq<Sunk>, r: Sunk) returns (full: Option<Sunk>)
      requires Valid(recs, true) && IsBlob(r)
      modifies this
      ensures Valid(recs + [r], true) && (old(Valid(recs, false)) ==> Valid(recs + [r], false))
      ensures full == if More(r.body) then None else Some(GluedBlob(Pending(recs, PartKeyOf(r.body)), r))
    {
      var key := PartKeyOf(r.body);
      hide IsBlob, InOrder, FromLe, Pending, AddPart;
      assert Waits(parts, recs, key);
      ghost var parts0 := parts;
      var m := AddPart(if key in parts then parts[key] else map[], r.body);
      AddedPart(if key in parts then parts[key] else map[], r.body);
      full := None;
      if More(r.body) {
        parts := parts[key := m];
      } else {
        var body := Join(m);
        full := Some(r.(body := r.body[..HDR_LEN] + body));
        parts := parts - {key};
      }
      forall k | Waits(parts0, recs, k)
        ensures Waits(parts, recs + [r], k)
      {
        PendingPush(recs, r, k);
      }
    }
  }

  lemma AddedPart(m: Parts, body: seq<byte>)
    requires |body| >= HDR_LEN
    ensures AddPart(m, body) != map[]
  {
    assert Position(body) in AddPart(m, body);
  }

  // ---------------------------------------------------------------------
  // The engine's side: what gluing makes of a split record.
  // ---------------------------------------------------------------------

  /** The header with the flag that more parts follow set or cleared. */
  function Flagged(hdr: seq<byte>, more: bool): (h: seq<byte>)
    requires |hdr| == HDR_LEN
    ensures |h| == HDR_LEN
  {
    var was := hdr[3] / 2 % 2 == 1;
    hdr[3 := if was == more then hdr[3] else if more then hdr[3] + 2 else hdr[3] - 2]
  }

  /** A blob's parts carry their place in the blob, cut to 32 bits, where an instruction's carry its offset. */
  function Placed(hdr: seq<byte>, blob: bool, at: nat): (h: seq<byte>)
    requires |hdr| == HDR_LEN
    ensures |h| == HDR_LEN
  {
    if blob then hdr[..4] + ToLe(at % 0x1_0000_0000, 4) + hdr[8..] else hdr
  }

  /** The parts still to send when `at` bytes are out. */
  function SplitFrom(hdr: seq<byte>, payload: seq<byte>, cap: nat, blob: bool, at: nat): (ps: seq<seq<byte>>)
    requires |hdr| == HDR_LEN && cap > 0
    ensures ps != []
    decreases |payload|
  {
    var h := Placed(hdr, blob, at);
    if |payload| <= cap then [Flagged(h, false) + payload]
    else [Flagged(h, true) + payload[..cap]] + SplitFrom(hdr, payload[cap..], cap, blob, at + cap)
  }

  /** `EmitSplit`: the sink records of one header and payload. */
  function Split(hdr: seq<byte>, payload: seq<byte>, cap: nat, blob: bool): (ps: seq<seq<byte>>)
    requires |hdr| == HDR_LEN && cap > 0
    ensures ps != []
  {
    if |payload| <= cap then [Flagged(hdr, false) + payload] else SplitFrom(hdr, payload, cap, blob, 0)
  }

  /** The bytes that all parts but the last carry together. */
  function Ahead(n: nat, cap: nat): (k: nat)
    requires cap > 0
    ensures k <= n && (n > 0 ==> k < n <= k + cap)
    decreases n
  {
    if n <= cap then 0 else cap + Ahead(n - cap, cap)
  }

  /** The records of `key` alone. */
  function Mine(recs: seq<Sunk>, key: PartKey): (r: seq<Sunk>) {
    if recs == [] then []
    else Mine(recs[..|recs| - 1], key) + if Under(recs[|recs| - 1], key) then [recs[|recs| - 1]] else []
  }

  /** Records of other opcodes and functions may come between the parts. */
  lemma {:induction false} PendingMine(recs: seq<Sunk>, key: PartKey)
    ensures Pending(recs, key) == Pending(Mine(recs, key), key)
  {
    hide Under, AddPart;
    if recs == [] {
    } else {
      var before, r := recs[..|recs| - 1], recs[|recs| - 1];
      PendingMine(before, key);
      PendingPush(Mine(before, key), r, key);
      assert Under(r, key) || Mine(recs, key) == Mine(before, key);
    }
  }

  /** Somebody under `key` is still waiting for more: its last record announced followers. */
  predicate Waiting(recs: seq<Sunk>, key: PartKey) {
    var mine := Mine(recs, key);
    mine != [] && Ongoing(mine[|mine| - 1])
  }

  predicate Ongoing(r: Sunk) {
    |r.body| >= HDR_LEN && More(r.body)
  }

  lemma {:induction false} MineUnder(recs: seq<Sunk>, key: PartKey)
    ensures AllUnder(Mine(recs, key), key)
  {
    hide Under;
    if recs == [] {
    } else {
      MineUnder(recs[..|recs| - 1], key);
    }
  }

  ghost predicate AllUnder(recs: seq<Sunk>, key: PartKey) {
    forall k :: 0 <= k < |recs| ==> Under(recs[k], key)
  }

  lemma PendingLast(mine: seq<Sunk>, key: PartKey)
    requires AllUnder(mine, key)
    ensures Pending(mine, key) != map[] <==> mine != [] && Ongoing(mine[|mine| - 1])
  {
    if mine != [] {
      var before, r := mine[..|mine| - 1], mine[|mine| - 1];
      assert Under(r, key);
      AddedPart(Pending(before, key), r.body);
      hide AddPart;
    }
  }

  /** Parts wait exactly while the last record of their opcode and function announces more. */
  lemma PendingIff(recs: seq<Sunk>, key: PartKey)
    ensures Pending(recs, key) != map[] <==> Waiting(recs, key)
  {
    PendingMine(recs, key);
    MineUnder(recs, key);
    PendingLast(Mine(recs, key), key);
  }

  /** Every waiting instruction part carries the flag that more parts follow. */
  ghost predicate Announcing(m: Parts) {
    forall at :: at in m ==> |m[at]| >= HDR_LEN && More(m[at])
  }

  lemma AddAnnouncing(m: Parts, body: seq<byte>)
    requires Announcing(m) && |body| >= HDR_LEN && More(body) && !BlobKey(PartKeyOf(body))
    ensures Announcing(AddPart(m, body))
  {
    hide FromLe;
    var at, m' := Position(body), AddPart(m, body);
    assert m'[at][3] == if at in m then m[at][3] else body[3];
  }

  lemma NoneAnnouncing()
    ensures Announcing(map[])
  {
  }

  lemma {:induction false} PendingAnnouncing(recs: seq<Sunk>, key: PartKey)
    requires !BlobKey(key)
    ensures Announcing(Pending(recs, key))
  {
    if recs == [] {
    } else {
      var before, r := recs[..|recs| - 1], recs[|recs| - 1];
      PendingAnnouncing(before, key);
      hide AddPart, Announcing;
      if Under(r, key) && More(r.body) {
        AddAnnouncing(Pending(before, key), r.body);
      } else {
        NoneAnnouncing();
      }
    }
  }

  lemma JoinedAnnounces(m: Parts)
    requires Announcing(m) && m != map[]
    ensures Ongoing(Sunk(0, 0, InOrder(m)))
  {
    var k: nat := Lowest(m.Keys);
    PeelLowest(m, k);
    assert (m[k] + InOrder(m - {k}))[3] == m[k][3];
  }

  /** An instruction record without followers stands for itself exactly if nothing of its opcode and function
      waits: parts that do wait, whoever sent them, take its place. */
  lemma ItselfIff(recs: seq<Sunk>, r: Sunk)
    requires IsInstruction(r) && !More(r.body)
    ensures Glued(Pending(recs, PartKeyOf(r.body)), r) == r <==> !Waiting(recs, PartKeyOf(r.body))
  {
    var key := PartKeyOf(r.body);
    PendingIff(recs, key);
    PendingAnnouncing(recs, key);
    hide Pending, Waiting, Announcing, InOrder;
    if Pending(recs, key) != map[] {
      JoinedAnnounces(Pending(recs, key));
    }
  }

  lemma {:induction false} JoinedSize(m: Parts, k: nat, v: seq<byte>)
    ensures |InOrder(m[k := v])| == |InOrder(m)| - (if k in m then |m[k]| else 0) + |v|
    decreases |m|
  {
    var m' := m[k := v];
    assert k in m' && m'.Keys == m.Keys + {k};
    var low: nat := Lowest(m'.Keys);
    PeelLowest(m', low);
    if low == k {
      if k in m {
        assert IsLowest(k, m.Keys) && m' - {k} == m - {k};
        PeelLowest(m, k);
      } else {
        assert m' - {k} == m;
      }
    } else {
      assert IsLowest(low, m.Keys) && m' - {low} == (m - {low})[k := v];
      hide IsLowest, Lowest, InOrder;
      PeelLowest(m, low);
      JoinedSize(m - {low}, k, v);
    }
  }

  /** Every record of `key` that announces more carries some bytes, as all parts the engine sends do. */
  ghost predicate Carrying(recs: seq<Sunk>, key: PartKey) {
    forall k :: 0 <= k < |recs| && Under(recs[k], key) && More(recs[k].body) ==> |recs[k].body| > HDR_LEN
  }

  lemma {:induction false} PendingCarries(recs: seq<Sunk>, key: PartKey)
    requires BlobKey(key) && Carrying(recs, key)
    ensures Pending(recs, key) != map[] ==> InOrder(Pending(recs, key)) != []
  {
    if recs == [] {
    } else {
      var before, r := recs[..|recs| - 1], recs[|recs| - 1];
      assert Carrying(before, key);
      PendingCarries(before, key);
      if Under(r, key) && More(r.body) {
        BlobAdds(Pending(before, key), r.body);
      }
      hide InOrder, AddPart;
    }
  }

  lemma BlobAdds(m: Parts, body: seq<byte>)
    requires |body| >= HDR_LEN && BlobKey(PartKeyOf(body))
    ensures |InOrder(AddPart(m, body))| == |InOrder(m)| + |body| - HDR_LEN
  {
    hide FromLe, InOrder;
    var at := Position(body);
    JoinedSize(m, at, (if at in m then m[at] else []) + body[HDR_LEN..]);
  }

  /** A blob record without followers stands for itself exactly if nothing of its key waits. */
  lemma BlobItselfIff(recs: seq<Sunk>, r: Sunk)
    requires IsBlob(r) && !More(r.body) && Carrying(recs, PartKeyOf(r.body))
    ensures GluedBlob(Pending(recs, PartKeyOf(r.body)), r) == r <==> !Waiting(recs, PartKeyOf(r.body))
  {
    var key := PartKeyOf(r.body);
    PendingIff(recs, key);
    PendingCarries(recs, key);
    BlobAdds(Pending(recs, key), r.body);
    hide Pending, Waiting, InOrder, FromLe;
    AloneWhole(r);
  }

  ghost predicate Bodies(ps: seq<Sunk>, bodies: seq<seq<byte>>) {
    |ps| == |bodies| && forall k :: 0 <= k < |ps| ==> ps[k].body == bodies[k]
  }

  /** `ps` are the last records of `key`, and the one before them, if there is one, announced nothing. */
  ghost predicate Unbroken(recs: seq<Sunk>, ps: seq<Sunk>, key: PartKey) {
    var mine := Mine(recs, key);
    && |ps| <= |mine| && mine[|mine| - |ps|..] == ps
    && (|ps| < |mine| ==> !Ongoing(mine[|mine| - |ps| - 1]))
  }

  lemma PlacedWord(hdr: seq<byte>, at: nat, more: bool, data: seq<byte>)
    requires |hdr| == HDR_LEN
    ensures (Flagged(Placed(hdr, true, at), more) + data)[4..8] == ToLe(at % 0x1_0000_0000, 4)
  {
    var w := ToLe(at % 0x1_0000_0000, 4);
    hide ToLe;
    var body := Flagged(Placed(hdr, true, at), more) + data;
    assert forall k :: 4 <= k < 8 ==> body[k] == w[k - 4];
  }

  lemma PartHead(hdr: seq<byte>, blob: bool, at: nat, more: bool, data: seq<byte>)
    requires |hdr| == HDR_LEN
    ensures var body := Flagged(Placed(hdr, blob, at), more) + data;
            && PartKeyOf(body) == PartKeyOf(hdr) && More(body) == more
            && body[..HDR_LEN] == Flagged(Placed(hdr, blob, at), more) && body[HDR_LEN..] == data
            && Position(body) == if blob then at % 0x1_0000_0000 else Position(hdr)
  {
    var body := Flagged(Placed(hdr, blob, at), more) + data;
    assert body[8..12] == hdr[8..12];
    if blob {
      Fits4(at % 0x1_0000_0000);
      LeRoundTrip(at % 0x1_0000_0000, 4);
      PlacedWord(hdr, at, more, data);
    } else {
      assert body[4..8] == hdr[4..8];
    }
  }

  /** All parts of an instruction have one place: they pile up behind the first one's header. */
  ghost function Gathered(hdr: seq<byte>, got: seq<byte>): (m: Parts)
    requires |hdr| == HDR_LEN
  {
    if got == [] then map[] else map[Position(hdr) := Flagged(hdr, true) + got]
  }

  lemma GatherOne(before: seq<Sunk>, p: Sunk, hdr: seq<byte>, at: nat, got: seq<byte>, data: seq<byte>)
    requires |hdr| == HDR_LEN && !BlobKey(PartKeyOf(hdr)) && data != []
    requires p.body == Flagged(Placed(hdr, false, at), true) + data
    requires Pending(before, PartKeyOf(hdr)) == Gathered(hdr, got)
    ensures Pending(before + [p], PartKeyOf(hdr)) == Gathered(hdr, got + data)
  {
    PartHead(hdr, false, at, true, data);
    PendingPush(before, p, PartKeyOf(hdr));
    hide Flagged, FromLe, Pending;
    if got == [] {
      assert got + data == data;
    } else {
      assert Flagged(hdr, true) + got + data == Flagged(hdr, true) + (got + data);
    }
  }

  /** All parts but the last. */
  ghost predicate Leading(ps: seq<Sunk>, hdr: seq<byte>, payload: seq<byte>, cap: nat, blob: bool, at: nat)
    requires |hdr| == HDR_LEN && cap > 0
  {
    var all := SplitFrom(hdr, payload, cap, blob, at);
    Bodies(ps, all[..|all| - 1])
  }

  lemma NoneLeading(ps: seq<Sunk>, hdr: seq<byte>, payload: seq<byte>, cap: nat, blob: bool, at: nat)
    requires |hdr| == HDR_LEN && 0 < cap && |payload| <= cap && Leading(ps, hdr, payload, cap, blob, at)
    ensures ps == [] && Ahead(|payload|, cap) == 0
  {
  }

  lemma FirstLeading(ps: seq<Sunk>, hdr: seq<byte>, payload: seq<byte>, cap: nat, blob: bool, at: nat)
    requires |hdr| == HDR_LEN && 0 < cap < |payload| && Leading(ps, hdr, payload, cap, blob, at)
    ensures |ps| > 0 && ps[0].body == Flagged(Placed(hdr, blob, at), true) + payload[..cap]
    ensures Leading(ps[1..], hdr, payload[cap..], cap, blob, at + cap)
  {
    hide Flagged, Placed;
    var all := SplitFrom(hdr, payload, cap, blob, at);
    var more := SplitFrom(hdr, payload[cap..], cap, blob, at + cap);
    assert ps[0].body == all[..|all| - 1][0];
    forall k | 0 <= k < |ps[1..]|
      ensures ps[1..][k].body == more[..|more| - 1][k]
    {
      assert ps[k + 1].body == all[..|all| - 1][k + 1];
    }
  }

  lemma AppendTurn(before: seq<Sunk>, ps: seq<Sunk>)
    requires ps != []
    ensures before + [ps[0]] + ps[1..] == before + ps
  {
  }

  lemma AheadTurn(got: seq<byte>, payload: seq<byte>, cap: nat)
    requires 0 < cap < |payload|
    ensures Ahead(|payload|, cap) == cap + Ahead(|payload[cap..]|, cap)
    ensures got + payload[..cap] + payload[cap..][..Ahead(|payload[cap..]|, cap)]
            == got + payload[..Ahead(|payload|, cap)]
  {
  }

  lemma {:induction false} GatherAll(before: seq<Sunk>, ps: seq<Sunk>, hdr: seq<byte>, payload: seq<byte>, cap: nat,
                                     at: nat, got: seq<byte>)
    requires |hdr| == HDR_LEN && cap > 0 && !BlobKey(PartKeyOf(hdr))
    requires Leading(ps, hdr, payload, cap, false, at)
    requires Pending(before, PartKeyOf(hdr)) == Gathered(hdr, got)
    ensures Pending(before + ps, PartKeyOf(hdr)) == Gathered(hdr, got + payload[..Ahead(|payload|, cap)])
    decreases |payload|
  {
    hide *;
    if |payload| <= cap {
      NoneLeading(ps, hdr, payload, cap, false, at);
      assert before + ps == before && got + payload[..0] == got;
    } else {
      FirstLeading(ps, hdr, payload, cap, false, at);
      GatherOne(before, ps[0], hdr, at, got, payload[..cap]);
      GatherAll(before + [ps[0]], ps[1..], hdr, payload[cap..], cap, at + cap, got + payload[..cap]);
      AppendTurn(before, ps);
      AheadTurn(got, payload, cap);
    }
  }

  lemma LastBody(ps: seq<Sunk>, r: Sunk, bodies: seq<seq<byte>>)
    requires Bodies(ps + [r], bodies)
    ensures |bodies| == |ps| + 1 && r.body == bodies[|ps|] && Bodies(ps, bodies[..|ps|])
  {
    assert (ps + [r])[|ps|] == r;
    forall k | 0 <= k < |ps|
      ensures ps[k].body == bodies[..|ps|][k]
    {
      assert (ps + [r])[k] == ps[k];
    }
  }

  /** The waiting parts when the last one comes are what the parts before it left. */
  lemma UnbrokenPending(recs: seq<Sunk>, ps: seq<Sunk>, key: PartKey) returns (before: seq<Sunk>)
    requires Unbroken(recs, ps, key)
    ensures Pending(before, key) == map[] && Pending(recs, key) == Pending(before + ps, key)
  {
    hide Pending, FromLe, Under, Ongoing;
    var mine := Mine(recs, key);
    before := mine[..|mine| - |ps|];
    assert mine == before + ps;
    PendingMine(recs, key);
    MineUnder(recs, key);
    PendingLast(before, key);
  }

  /** The parts by themselves: all but the last wait, the last carries the rest. */
  lemma SentParts(ps: seq<Sunk>, r: Sunk, hdr: seq<byte>, payload: seq<byte>, cap: nat, blob: bool)
    requires |hdr| == HDR_LEN && cap > 0 && Bodies(ps + [r], Split(hdr, payload, cap, blob))
    ensures |payload| <= cap ==> ps == [] && r.body == Flagged(hdr, false) + payload
    ensures |payload| > cap ==>
              var k := Ahead(|payload|, cap);
              Leading(ps, hdr, payload, cap, blob, 0) && r.body == Flagged(Placed(hdr, blob, k), false) + payload[k..]
  {
    hide Flagged, Placed;
    LastBody(ps, r, Split(hdr, payload, cap, blob));
    LastPart(hdr, payload, cap, blob, 0);
  }

  /** Whatever came before, an instruction comes out as it was sent exactly if it was not split and nothing of
      its opcode and function waits when it comes. */
  lemma SentWholeIff(recs: seq<Sunk>, r: Sunk, hdr: seq<byte>, payload: seq<byte>, cap: nat)
    requires |hdr| == HDR_LEN && cap > 0 && !BlobKey(PartKeyOf(hdr))
    requires var all := Split(hdr, payload, cap, false);
             r.body == all[|all| - 1]
    ensures Glued(Pending(recs, PartKeyOf(hdr)), r).body == Flagged(hdr, false) + payload <==>
              |payload| <= cap && !Waiting(recs, PartKeyOf(hdr))
  {
    var key := PartKeyOf(hdr);
    var k := if |payload| <= cap then 0 else Ahead(|payload|, cap);
    LastPart(hdr, payload, cap, false, 0);
    assert payload[0..] == payload;
    assert r.body == Flagged(hdr, false) + payload[k..];
    PartHead(hdr, false, 0, false, payload[k..]);
    PartHead(hdr, false, 0, false, payload);
    PendingIff(recs, key);
    PendingAnnouncing(recs, key);
    assert k > 0 <==> |payload| > cap;
    assert k > 0 ==> |r.body| < |Flagged(hdr, false) + payload|;
    hide Pending, Waiting, Announcing, InOrder, Flagged, FromLe, Split, Ahead;
    if Pending(recs, key) != map[] {
      JoinedAnnounces(Pending(recs, key));
    }
  }

  /** Unbroken, a split instruction loses exactly its last part's payload, and the flag of its first part stays
      set. */
  lemma InstructionGlued(recs: seq<Sunk>, ps: seq<Sunk>, r: Sunk, hdr: seq<byte>, payload: seq<byte>, cap: nat)
    requires |hdr| == HDR_LEN && cap > 0 && !BlobKey(PartKeyOf(hdr))
    requires Bodies(ps + [r], Split(hdr, payload, cap, false)) && Unbroken(recs, ps, PartKeyOf(hdr))
    ensures Glued(Pending(recs, PartKeyOf(hdr)), r).body
         == if |payload| <= cap then Flagged(hdr, false) + payload
            else Flagged(hdr, true) + payload[..Ahead(|payload|, cap)]
  {
    var key := PartKeyOf(hdr);
    var before := UnbrokenPending(recs, ps, key);
    SentParts(ps, r, hdr, payload, cap, false);
    hide Pending, FromLe, Mine, Unbroken, Bodies, Leading;
    if |payload| <= cap {
      assert before + ps == before;
    } else {
      hide Flagged;
      GatherAll(before, ps, hdr, payload, cap, 0, []);
      var got := payload[..Ahead(|payload|, cap)];
      assert [] + got == got && got != [] && |got| < |payload|;
      OnePart(Position(hdr), Flagged(hdr, true) + got);
    }
  }

  /** The first `at` bytes of a blob, `got`, in their places. */
  ghost predicate SoFar(m: Parts, at: nat, got: seq<byte>) {
    InOrder(m) == got && forall x :: x in m ==> x < at
  }

  lemma BlobOne(before: seq<Sunk>, p: Sunk, hdr: seq<byte>, at: nat, got: seq<byte>, data: seq<byte>)
    requires |hdr| == HDR_LEN && BlobKey(PartKeyOf(hdr)) && at < 0x1_0000_0000 && data != []
    requires p.body == Flagged(Placed(hdr, true, at), true) + data
    requires SoFar(Pending(before, PartKeyOf(hdr)), at, got)
    ensures SoFar(Pending(before + [p], PartKeyOf(hdr)), at + |data|, got + data)
  {
    PartHead(hdr, true, at, true, data);
    PendingPush(before, p, PartKeyOf(hdr));
    JoinLast(Pending(before, PartKeyOf(hdr)), hdr, at, data, p.body);
    hide Flagged, Placed, FromLe, Pending, InOrder, AddPart, More;
  }

  lemma {:induction false} GatherBlob(before: seq<Sunk>, ps: seq<Sunk>, hdr: seq<byte>, payload: seq<byte>, cap: nat,
                                      at: nat, got: seq<byte>)
    requires |hdr| == HDR_LEN && cap > 0 && BlobKey(PartKeyOf(hdr)) && at + |payload| <= 0x1_0000_0000
    requires Leading(ps, hdr, payload, cap, true, at)
    requires SoFar(Pending(before, PartKeyOf(hdr)), at, got)
    ensures var k := Ahead(|payload|, cap);
            SoFar(Pending(before + ps, PartKeyOf(hdr)), at + k, got + payload[..k])
    decreases |payload|
  {
    hide *;
    if |payload| <= cap {
      NoneLeading(ps, hdr, payload, cap, true, at);
      assert before + ps == before && got + payload[..0] == got;
    } else {
      FirstLeading(ps, hdr, payload, cap, true, at);
      BlobOne(before, ps[0], hdr, at, got, payload[..cap]);
      GatherBlob(before + [ps[0]], ps[1..], hdr, payload[cap..], cap, at + cap, got + payload[..cap]);
      AppendTurn(before, ps);
      AheadTurn(got, payload, cap);
    }
  }

  lemma {:induction false} LastPart(hdr: seq<byte>, payload: seq<byte>, cap: nat, blob: bool, at: nat)
    requires |hdr| == HDR_LEN && cap > 0
    ensures var all, k := SplitFrom(hdr, payload, cap, blob, at), Ahead(|payload|, cap);
            all[|all| - 1] == Flagged(Placed(hdr, blob, at + k), false) + payload[k..]
    decreases |payload|
  {
    hide Flagged, Placed;
    if |payload| <= cap {
      assert payload[0..] == payload;
    } else {
      LastPart(hdr, payload[cap..], cap, blob, at + cap);
      var all, more := SplitFrom(hdr, payload, cap, blob, at), SplitFrom(hdr, payload[cap..], cap, blob, at + cap);
      var k := Ahead(|payload| - cap, cap);
      assert Ahead(|payload|, cap) == cap + k && all[|all| - 1] == more[|more| - 1];
      hide SplitFrom, Ahead;
      assert payload[cap..][k..] == payload[cap + k..];
    }
  }

  /** The last part lands behind the ones that wait. */
  lemma JoinLast(m: Parts, hdr: seq<byte>, at: nat, data: seq<byte>, body: seq<byte>)
    requires |hdr| == HDR_LEN && BlobKey(PartKeyOf(hdr)) && |body| >= HDR_LEN && PartKeyOf(body) == PartKeyOf(hdr)
    requires Position(body) == at && body[HDR_LEN..] == data && forall x :: x in m ==> x < at
    ensures InOrder(AddPart(m, body)) == InOrder(m) + data && forall x :: x in AddPart(m, body) ==> x <= at
  {
    hide FromLe, InOrder;
    assert [] + data == data;
    HighestLast(m, at, data);
  }

  /** Unbroken metadata and function definitions come back whole, split or not. */
  lemma BlobGlued(recs: seq<Sunk>, ps: seq<Sunk>, r: Sunk, hdr: seq<byte>, payload: seq<byte>, cap: nat)
    requires |hdr| == HDR_LEN && cap > 0 && BlobKey(PartKeyOf(hdr)) && |payload| <= 0x1_0000_0000
    requires |r.body| >= HDR_LEN && Bodies(ps + [r], Split(hdr, payload, cap, true))
    requires Unbroken(recs, ps, PartKeyOf(hdr))
    ensures GluedBlob(Pending(recs, PartKeyOf(hdr)), r).body[HDR_LEN..] == payload
    ensures PartKeyOf(GluedBlob(Pending(recs, PartKeyOf(hdr)), r).body) == PartKeyOf(hdr)
  {
    var key := PartKeyOf(hdr);
    var before := UnbrokenPending(recs, ps, key);
    SentParts(ps, r, hdr, payload, cap, true);
    hide *;
    NothingSoFar();
    if |payload| <= cap {
      assert before + ps == before;
      LastUnsplit(hdr, payload, r);
    } else {
      GatherBlob(before, ps, hdr, payload, cap, 0, []);
      var k := Ahead(|payload|, cap);
      LastSplit(Pending(recs, key), hdr, payload, k, r);
    }
  }

  lemma NothingSoFar()
    ensures SoFar(map[], 0, [])
  {
  }

  lemma LastUnsplit(hdr: seq<byte>, payload: seq<byte>, r: Sunk)
    requires |hdr| == HDR_LEN && BlobKey(PartKeyOf(hdr)) && r.body == Flagged(hdr, false) + payload
    ensures GluedBlob(map[], r).body[HDR_LEN..] == payload && PartKeyOf(GluedBlob(map[], r).body) == PartKeyOf(hdr)
  {
    PartHead(hdr, false, 0, false, payload);
    NotPlaced(hdr);
    JoinLast(map[], hdr, Position(r.body), payload, r.body);
    NothingInOrder();
    GluedBlobHead(map[], r);
    hide FromLe, Flagged, Placed, InOrder, AddPart, GluedBlob;
    assert [] + payload == payload;
  }

  lemma LastSplit(m: Parts, hdr: seq<byte>, payload: seq<byte>, k: nat, r: Sunk)
    requires |hdr| == HDR_LEN && BlobKey(PartKeyOf(hdr)) && k <= |payload| && k < 0x1_0000_0000
    requires r.body == Flagged(Placed(hdr, true, k), false) + payload[k..]
    requires SoFar(m, k, [] + payload[..k])
    ensures GluedBlob(m, r).body[HDR_LEN..] == payload && PartKeyOf(GluedBlob(m, r).body) == PartKeyOf(hdr)
  {
    PartHead(hdr, true, k, false, payload[k..]);
    JoinLast(m, hdr, k, payload[k..], r.body);
    GluedBlobHead(m, r);
    hide FromLe, Flagged, Placed, InOrder, AddPart, GluedBlob;
    assert [] + payload[..k] + payload[k..] == payload;
  }

  lemma NotPlaced(hdr: seq<byte>)
    requires |hdr| == HDR_LEN
    ensures Placed(hdr, false, 0) == hdr
  {
  }

  lemma GluedBlobHead(m: Parts, r: Sunk)
    requires |r.body| >= HDR_LEN
    ensures var full := GluedBlob(m, r).body;
            full[HDR_LEN..] == InOrder(AddPart(m, r.body)) && PartKeyOf(full) == PartKeyOf(r.body)
  {
    hide FromLe, InOrder, AddPart;
    assert GluedBlob(m, r).body[8..12] == r.body[8..12];
  }

  /** The payload bytes of one part: a sink record less its length, its time and the header. */
  const MAX_PART: nat := 0x10_0000 - 24 - HDR_LEN

  /** One byte too many for one part, and everything behind the first part is gone. */
  lemma TailLost(hdr: seq<byte>, first: seq<byte>, tail: seq<byte>, pid: nat, ts: nat)
    requires |hdr| == HDR_LEN && !BlobKey(PartKeyOf(hdr)) && |first| == MAX_PART && 0 < |tail| <= MAX_PART
    ensures var p, r := Sunk(pid, ts, Flagged(hdr, true) + first), Sunk(pid, ts, Flagged(hdr, false) + tail);
            Split(hdr, first + tail, MAX_PART, false) == [p.body, r.body] && Stream([p, r]) == [p]
  {
    var p, r := Sunk(pid, ts, Flagged(hdr, true) + first), Sunk(pid, ts, Flagged(hdr, false) + tail);
    var key := PartKeyOf(hdr);
    PartHead(hdr, false, 0, true, first);
    PartHead(hdr, false, 0, false, tail);
    assert (first + tail)[..MAX_PART] == first && (first + tail)[MAX_PART..] == tail;
    hide FromLe, Flagged, More, InOrder;
    assert SplitFrom(hdr, tail, MAX_PART, false, MAX_PART) == [r.body];
    assert SplitFrom(hdr, first + tail, MAX_PART, false, 0) == [p.body, r.body];
    hide Split, SplitFrom;
    assert Pending([], key) == Gathered(hdr, []);
    GatherOne([], p, hdr, 0, [], first);
    StreamPush([], p);
    StreamPush([p], r);
    assert [] + [p] == [p] && [p] + [r] == [p, r] && [] + first == first;
    OnePart(Position(hdr), Flagged(hdr, true) + first);
  }

  /** A part whose last one was dropped waits on, and an unsplit instruction of the same opcode and function
      comes out with that part's words in place of its own, under its own process and time. */
  lemma StalePartTakesOver(hdr: seq<byte>, a: seq<byte>, b: seq<byte>, pid: nat, ts: nat, pid': nat, ts': nat)
    requires |hdr| == HDR_LEN && !BlobKey(PartKeyOf(hdr)) && a != []
    ensures var p, r := Sunk(pid, ts, Flagged(hdr, true) + a), Sunk(pid', ts', Flagged(hdr, false) + b);
            Stream([p, r]) == [r.(body := p.body)] && p.body != r.body
  {
    var p, r := Sunk(pid, ts, Flagged(hdr, true) + a), Sunk(pid', ts', Flagged(hdr, false) + b);
    PartHead(hdr, false, 0, true, a);
    PartHead(hdr, false, 0, false, b);
    hide FromLe, Flagged, InOrder;
    assert Pending([], PartKeyOf(hdr)) == Gathered(hdr, []);
    GatherOne([], p, hdr, 0, [], a);
    StreamPush([], p);
    StreamPush([p], r);
    assert [] + [p] == [p] && [p] + [r] == [p, r] && [] + a == a;
    OnePart(Position(hdr), Flagged(hdr, true) + a);
  }

  /** Two senders of one function's definition, a part of the second between the parts of the first: what
      comes out is neither's. */
  lemma {:induction false} BlobsMix(hdr: seq<byte>, a0: seq<byte>, a1: seq<byte>, b0: seq<byte>, pid: nat,
                                    pid': nat, ts: nat)
    requires |hdr| == HDR_LEN && BlobKey(PartKeyOf(hdr)) && 0 < |a0| < 0x1_0000_0000 && b0 != []
    ensures var first, other := Flagged(Placed(hdr, true, 0), true) + a0, Flagged(Placed(hdr, true, 0), true) + b0;
            var last := Flagged(Placed(hdr, true, |a0|), false) + a1;
            var blobs := Blobs([Sunk(pid, ts, first), Sunk(pid', ts, other), Sunk(pid, ts, last)]);
            |blobs| == 1 && |blobs[0].body| >= HDR_LEN && blobs[0].body[HDR_LEN..] == a0 + b0 + a1 != a0 + a1
  {
    var p := Sunk(pid, ts, Flagged(Placed(hdr, true, 0), true) + a0);
    var q := Sunk(pid', ts, Flagged(Placed(hdr, true, 0), true) + b0);
    var r := Sunk(pid, ts, Flagged(Placed(hdr, true, |a0|), false) + a1);
    var key, m := PartKeyOf(hdr), map[0 := a0 + b0];
    PartHead(hdr, true, 0, true, a0);
    PartHead(hdr, true, 0, true, b0);
    PartHead(hdr, true, |a0|, false, a1);
    hide FromLe, Flagged, Placed, InOrder, More, AddPart;
    BothWait(p, q, hdr, a0, b0);
    LastCompletes(p, q, r, key);
    hide *;
    OnePart(0, a0 + b0);
    JoinLast(m, hdr, |a0|, a1, r.body);
    GluedBlobHead(m, r);
    assert |a0 + b0 + a1| > |a0 + a1|;
  }

  lemma LastCompletes(p: Sunk, q: Sunk, r: Sunk, key: PartKey)
    requires BlobKey(key) && Under(p, key) && Under(q, key) && Under(r, key)
    requires More(p.body) && More(q.body) && !More(r.body)
    ensures Blobs([p, q, r]) == [GluedBlob(Pending([p, q], key), r)]
  {
    hide FromLe, More, Pending, GluedBlob;
    NothingStreams();
    StreamPush([], p);
    StreamPush([p], q);
    StreamPush([p, q], r);
    assert [] + [p] == [p] && [p] + [q] == [p, q] && [p, q] + [r] == [p, q, r];
  }

  /** Two parts for one place. */
  lemma BothWait(p: Sunk, q: Sunk, hdr: seq<byte>, a: seq<byte>, b: seq<byte>)
    requires |hdr| == HDR_LEN && BlobKey(PartKeyOf(hdr))
    requires p.body == Flagged(Placed(hdr, true, 0), true) + a && q.body == Flagged(Placed(hdr, true, 0), true) + b
    ensures Pending([p, q], PartKeyOf(hdr)) == map[0 := a + b]
  {
    var key := PartKeyOf(hdr);
    PartHead(hdr, true, 0, true, a);
    PartHead(hdr, true, 0, true, b);
    hide FromLe, Flagged, Placed, More, Position;
    PendingPush([], p, key);
    PendingPush([p], q, key);
    assert [] + [p] == [p] && [p] + [q] == [p, q] && [] + a == a;
    assert Pending([p], key) == map[0 := a];
  }

  // ---------------------------------------------------------------------
  // Which values a split loses.
  // ---------------------------------------------------------------------

  /** How many leading blocks lie wholly in the first `n` bytes. */
  function Whole(bs: seq<Block>, n: nat): (w: nat)
    ensures w <= |bs|
  {
    if bs == [] || |Render(bs[0])| > n then 0 else 1 + Whole(bs[1..], n - |Render(bs[0])|)
  }

  lemma WholeFirst(bs: seq<Block>, n: nat)
    requires bs != [] && Renderable(bs)
    ensures |bs[0].body| < 0x1_0000_0000 && Renderable(bs[1..])
    ensures RenderAll(bs) == Render(bs[0]) + RenderAll(bs[1..])
    ensures Whole(bs, n) == if |Render(bs[0])| <= n then 1 + Whole(bs[1..], n - |Render(bs[0])|) else 0
  {
    hide Render;
  }

  /** Cutting a rendered payload short leaves exactly the blocks wholly in it. */
  lemma {:induction false} CutShort(bs: seq<Block>, n: nat)
    requires Renderable(bs) && n <= |RenderAll(bs)|
    ensures Cut(RenderAll(bs)[..n]) == bs[..Whole(bs, n)]
    ensures n < |RenderAll(bs)| ==> Whole(bs, n) < |bs|
  {
    if bs == [] {
      NoCut(RenderAll(bs)[..n]);
    } else {
      var first, more, b := Render(bs[0]), RenderAll(bs[1..]), bs[0];
      hide *;
      WholeFirst(bs, n);
      if |first| <= n {
        var w := Whole(bs[1..], n - |first|);
        TakeBehind(first, more, n);
        CutFirst(b, more[..n - |first|]);
        CutShort(bs[1..], n - |first|);
        assert [b] + bs[1..][..w] == bs[..1 + w];
      } else {
        assert (first + more)[..n] == first[..n];
        FirstUnfinished(b, n);
        NoCut(first[..n]);
      }
    }
  }

  lemma TakeBehind(a: seq<byte>, b: seq<byte>, n: nat)
    requires |a| <= n <= |a| + |b|
    ensures (a + b)[..n] == a + b[..n - |a|]
  {
  }

  lemma NoCut(s: seq<byte>)
    requires NoBlock(s)
    ensures Cut(s) == []
  {
  }

  lemma FirstUnfinished(b: Block, n: nat)
    requires |b.body| < 0x1_0000_0000 && n < |Render(b)|
    ensures NoBlock(Render(b)[..n])
  {
    Fits4(|b.body|);
    LeRoundTrip(|b.body|, 4);
    hide ToLe, FromLe;
    if n >= 5 {
      assert Render(b)[1..5] == ToLe(|b.body|, 4);
      assert Render(b)[..n][1..5] == ToLe(|b.body|, 4);
    }
  }

  /** Unbroken, the values read from a sent record are those of its leading blocks: of all of them if the record was not
      split, and otherwise of those wholly inside the parts before the last, which are never all. */
  lemma SplitValues(recs: seq<Sunk>, ps: seq<Sunk>, r: Sunk, hdr: seq<byte>, bs: seq<Block>, cap: nat)
    requires |hdr| == HDR_LEN && cap > 0 && !BlobKey(PartKeyOf(hdr)) && Renderable(bs)
    requires Bodies(ps + [r], Split(hdr, RenderAll(bs), cap, false)) && Unbroken(recs, ps, PartKeyOf(hdr))
    ensures var n := |RenderAll(bs)|;
            var kept := if n <= cap then |bs| else Whole(bs, Ahead(n, cap));
            && PvsOf(Glued(Pending(recs, PartKeyOf(hdr)), r).body) == TypedAll(bs[..kept], HDR_LEN)
            && (kept == |bs| <==> n <= cap)
  {
    var n := |RenderAll(bs)|;
    InstructionGlued(recs, ps, r, hdr, RenderAll(bs), cap);
    hide Bodies, Unbroken, Pending, Glued, FromLe, Cut, TypedAll, RenderAll, Flagged;
    if n <= cap {
      CutWhole(bs);
      assert (Flagged(hdr, false) + RenderAll(bs))[HDR_LEN..] == RenderAll(bs) && bs[..|bs|] == bs;
    } else {
      var k := Ahead(n, cap);
      CutShort(bs, k);
      assert (Flagged(hdr, true) + RenderAll(bs)[..k])[HDR_LEN..] == RenderAll(bs)[..k];
    }
  }
}
