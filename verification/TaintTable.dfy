/** The taint table of patches/0027-v8-taint-core-factory.patch: an open-addressed slot
    array whose heap entries are all invalidated at once by bumping an epoch. */
module TaintTable {

  type Tag = bv32

  const SLOTS: nat := 0x10_0000
  const MAX_PROBE: nat := 0x4000 // kTaintSlots >> 6
  const DROP_CAP: nat := 100000
  const KEY_SPAN: nat := 0x2000_0000_0000_0000
  const KEY_WASM: nat := 1

  datatype Slot = Slot(key: nat, tag: Tag, epoch: nat)

  /** Key space in the top three bits, the low 61 bits of the address below; never 0. */
  function CompositeKey(space: nat, key: nat): (ck: nat)
    requires space < 4
    ensures ck != 0
  {
    (space + 1) * KEY_SPAN + key % KEY_SPAN
  }

  /** Composite keys collide only for addresses that agree below bit 61. */
  lemma CompositeKeyInjective(s1: nat, k1: nat, s2: nat, k2: nat)
    requires s1 < 4 && s2 < 4
    ensures CompositeKey(s1, k1) == CompositeKey(s2, k2) <==> s1 == s2 && k1 % KEY_SPAN == k2 % KEY_SPAN
    ensures IsWasm(CompositeKey(s1, k1)) <==> s1 == KEY_WASM
  {
    assert CompositeKey(s1, k1) / KEY_SPAN == s1 + 1;
    assert CompositeKey(s2, k2) / KEY_SPAN == s2 + 1;
  }

  predicate IsWasm(ck: nat) {
    ck / KEY_SPAN == KEY_WASM + 1
  }

  /** A heap-keyed slot written before the last compacting GC. */
  predicate Stale(ck: nat, slotEpoch: nat, epoch: nat) {
    !IsWasm(ck) && slotEpoch != epoch
  }

  function Pos(hash: nat -> nat, ck: nat, p: nat): (i: nat)
    ensures i < SLOTS
  {
    (hash(ck) % SLOTS + p) % SLOTS
  }

  lemma PosInjective(hash: nat -> nat, ck: nat, p: nat, q: nat)
    requires p < MAX_PROBE && q < MAX_PROBE && Pos(hash, ck, p) == Pos(hash, ck, q)
    ensures p == q
  {
    var h := hash(ck) % SLOTS;
    assert (h + p) % SLOTS == if h + p < SLOTS then h + p else h + p - SLOTS;
    assert (h + q) % SLOTS == if h + q < SLOTS then h + q else h + q - SLOTS;
  }

  // ---------------------------------------------------------------------
  // The abstract table: a finite map from composite keys to tag sets.
  // ---------------------------------------------------------------------

  type TagMap = map<nat, Tag>

  ghost function Lookup(m: TagMap, ck: nat): (r: Tag) {
    if ck in m then m[ck] else 0
  }

  ghost function AfterSet(m: TagMap, ck: nat, tag: Tag): (r: TagMap) {
    m[ck := Or(Lookup(m, ck), tag)]
  }

  ghost function AfterClear(m: TagMap, ck: nat): (r: TagMap) {
    if ck in m then m[ck := 0] else m
  }

  /** A compacting GC forgets everything except wasm buffers. */
  ghost function AfterGC(m: TagMap): (r: TagMap) {
    map ck | ck in m && IsWasm(ck) :: m[ck]
  }

  function Or(u: Tag, t: Tag): (r: Tag) {
    u | t
  }

  ghost predicate Covers(u: Tag, t: Tag) {
    Or(u, t) == u
  }

  ghost predicate CoversHeap(x: Tag, m: TagMap) {
    forall ck :: ck in m && !IsWasm(ck) ==> Covers(x, m[ck])
  }

  /** `u` is the union of all tags kept for non-wasm keys: it covers each of them, and any
      set that covers each of them covers `u`. */
  ghost predicate IsHeapUnion(u: Tag, m: TagMap) {
    && CoversHeap(u, m)
    && forall x :: CoversHeap(x, m) ==> Covers(x, u)
  }

  /** Some tag of the mask is in the set. */
  predicate AnyOf(u: Tag, b: Tag) {
    (u & b) != 0
  }

  /** The two sets hold some tag of the mask `b` together exactly if one of them does. */
  lemma OrBits(u: Tag, t: Tag, b: Tag)
    ensures (Or(u, t) & b) != 0 <==> (u & b) != 0 || (t & b) != 0
  {
    assert (u | t) & b == (u & b) | (t & b);
  }

  lemma CoverBits(u: Tag, t: Tag, b: Tag)
    requires Covers(u, t) && AnyOf(t, b)
    ensures AnyOf(u, b)
  {
    OrBits(u, t, b);
  }

  lemma CoverWithout(u: Tag, t: Tag, b: Tag, rest: Tag)
    requires Covers(u, t) && !AnyOf(t, b) && rest == u & !b
    ensures Covers(rest, t)
  {
    WithoutBits(u, t, b);
  }

  lemma WithoutBits(u: bv32, t: bv32, b: bv32)
    requires u | t == u && t & b == 0
    ensures (u & !b) | t == u & !b
  {
  }

  /** The union in terms of tags: one of the mask `b` is in it exactly if some live non-wasm entry has one. */
  lemma UnionBits(u: Tag, m: TagMap, b: Tag)
    requires IsHeapUnion(u, m)
    ensures (u & b) != 0 <==> exists ck :: ck in m && !IsWasm(ck) && (m[ck] & b) != 0
  {
    UnionHas(u, m, b, u & !b);
  }

  lemma UnionHas(u: Tag, m: TagMap, b: Tag, rest: Tag)
    requires IsHeapUnion(u, m) && rest == u & !b
    ensures AnyOf(u, b) <==> exists ck :: ck in m && !IsWasm(ck) && AnyOf(m[ck], b)
  {
    hide Covers, IsWasm, AnyOf;
    if ck :| ck in m && !IsWasm(ck) && AnyOf(m[ck], b) {
      CoverBits(u, m[ck], b);
    } else {
      forall ck | ck in m && !IsWasm(ck)
        ensures Covers(rest, m[ck])
      {
        CoverWithout(u, m[ck], b, rest);
      }
      assert CoversHeap(rest, m);
      NoBits(u, b, rest);
    }
  }

  lemma NoBits(u: Tag, b: Tag, rest: Tag)
    requires rest == u & !b && Covers(rest, u)
    ensures !AnyOf(u, b)
  {
    NoBitsLeft(u, b);
  }

  lemma NoBitsLeft(u: bv32, b: bv32)
    requires (u & !b) | u == u & !b
    ensures u & b == 0
  {
  }

  lemma OrIsCover(u: Tag, t: Tag)
    ensures Covers(Or(u, t), u) && Covers(Or(u, t), t)
  {
  }

  lemma OrIsLeast(x: Tag, u: Tag, t: Tag)
    requires Covers(x, u) && Covers(x, t)
    ensures Covers(x, Or(u, t))
  {
    assert x | (u | t) == (x | u) | t;
  }

  lemma OrGrows(u: Tag, t: Tag, x: Tag)
    requires Covers(u, x)
    ensures Covers(Or(u, t), x)
  {
    assert (u | t) | x == (u | x) | t;
  }

  lemma HeapUnionUnique(u: Tag, v: Tag, m: TagMap)
    requires IsHeapUnion(u, m) && IsHeapUnion(v, m)
    ensures u == v
  {
    assert Covers(u, v) && Covers(v, u);
    assert u | v == v | u;
  }

  // ---------------------------------------------------------------------
  // Representation invariant.
  // ---------------------------------------------------------------------

  ghost predicate UniqueKeys(a: seq<Slot>) {
    forall i, j :: 0 <= i < j < |a| && a[i].key != 0 ==> a[i].key != a[j].key
  }

  /** The slot at probe distance `p` holds `ck`, and no empty slot precedes it. */
  ghost predicate FoundAt(a: seq<Slot>, hash: nat -> nat, ck: nat, p: nat)
    requires |a| == SLOTS
  {
    p < MAX_PROBE && a[Pos(hash, ck, p)].key == ck && forall q :: 0 <= q < p ==> a[Pos(hash, ck, q)].key != 0
  }

  ghost predicate Reachable(a: seq<Slot>, hash: nat -> nat, i: nat)
    requires |a| == SLOTS && i < SLOTS
  {
    exists p: nat :: FoundAt(a, hash, a[i].key, p) && Pos(hash, a[i].key, p) == i
  }

  ghost predicate AllReachable(a: seq<Slot>, hash: nat -> nat)
    requires |a| == SLOTS
  {
    forall i :: 0 <= i < SLOTS && a[i].key != 0 ==> Reachable(a, hash, i)
  }

  ghost predicate LiveSlot(s: Slot, epoch: nat) {
    s.key != 0 && !Stale(s.key, s.epoch, epoch)
  }

  /** The live slots are exactly the map `m`. */
  ghost predicate Represents(a: seq<Slot>, epoch: nat, m: TagMap) {
    && (forall i :: 0 <= i < |a| && LiveSlot(a[i], epoch) ==> a[i].key in m && m[a[i].key] == a[i].tag)
    && (forall ck :: ck in m ==> Holds(a, epoch, ck))
  }

  ghost predicate Holds(a: seq<Slot>, epoch: nat, ck: nat) {
    exists i :: 0 <= i < |a| && a[i].key == ck && LiveSlot(a[i], epoch)
  }

  ghost predicate TableOk(a: seq<Slot>, hash: nat -> nat, epoch: nat, m: TagMap) {
    && |a| == SLOTS
    && UniqueKeys(a)
    && AllReachable(a, hash)
    && (forall i :: 0 <= i < SLOTS ==> a[i].epoch <= epoch)
    && Represents(a, epoch, m)
  }

  /** Every slot of the probe window of `ck` holds another live key. */
  ghost predicate WindowFull(a: seq<Slot>, hash: nat -> nat, ck: nat, m: TagMap)
    requires |a| == SLOTS
  {
    forall p :: 0 <= p < MAX_PROBE ==> a[Pos(hash, ck, p)].key in m && a[Pos(hash, ck, p)].key != ck
  }

  /** Where an insert of `ck` may land: its own slot, or the first empty or stale slot of
      its window when no slot holds it. */
  ghost predicate InsertTarget(a: seq<Slot>, hash: nat -> nat, epoch: nat, ck: nat, i: nat)
    requires |a| == SLOTS && i < SLOTS
  {
    a[i].key == ck ||
    ((forall j :: 0 <= j < SLOTS ==> a[j].key != ck) && !LiveSlot(a[i], epoch) &&
     exists p: nat :: p < MAX_PROBE && Pos(hash, ck, p) == i && forall q :: 0 <= q < p ==> a[Pos(hash, ck, q)].key != 0)
  }

  lemma WhereIs(a: seq<Slot>, hash: nat -> nat, j: nat) returns (p: nat)
    requires |a| == SLOTS && AllReachable(a, hash) && j < SLOTS && a[j].key != 0
    ensures FoundAt(a, hash, a[j].key, p) && Pos(hash, a[j].key, p) == j
  {
    assert Reachable(a, hash, j);
    p :| FoundAt(a, hash, a[j].key, p) && Pos(hash, a[j].key, p) == j;
  }

  lemma NotInWindow(a: seq<Slot>, hash: nat -> nat, ck: nat)
    requires |a| == SLOTS && AllReachable(a, hash) && ck != 0
    requires forall p :: 0 <= p < MAX_PROBE ==> a[Pos(hash, ck, p)].key != ck
    ensures forall j :: 0 <= j < SLOTS ==> a[j].key != ck
  {
    forall j | 0 <= j < SLOTS
      ensures a[j].key != ck
    {
      if a[j].key != 0 {
        var p := WhereIs(a, hash, j);
      }
    }
  }

  /** An empty slot ends the search: nothing stored lies beyond it. */
  lemma EmptyEndsProbe(a: seq<Slot>, hash: nat -> nat, ck: nat, p: nat)
    requires |a| == SLOTS && AllReachable(a, hash) && ck != 0 && p < MAX_PROBE
    requires forall q :: 0 <= q < p ==> a[Pos(hash, ck, q)].key != ck
    requires a[Pos(hash, ck, p)].key == 0
    ensures forall j :: 0 <= j < SLOTS ==> a[j].key != ck
  {
    forall j | 0 <= j < SLOTS
      ensures a[j].key != ck
    {
      if a[j].key != 0 {
        var q := WhereIs(a, hash, j);
        assert q < p || q == p || p < q;
      }
    }
  }

  lemma NotHeld(a: seq<Slot>, hash: nat -> nat, epoch: nat, m: TagMap, ck: nat)
    requires TableOk(a, hash, epoch, m) && ck != 0
    requires forall j :: 0 <= j < SLOTS ==> a[j].key == ck ==> !LiveSlot(a[j], epoch)
    ensures ck !in m
  {
  }

  /** Writing key, tag and the current epoch into an insert target keeps the table sound. */
  lemma WriteKeeps(a: seq<Slot>, hash: nat -> nat, epoch: nat, m: TagMap, ck: nat, i: nat, tag: Tag)
    requires TableOk(a, hash, epoch, m) && ck != 0 && i < SLOTS && InsertTarget(a, hash, epoch, ck, i)
    ensures TableOk(a[i := Slot(ck, tag, epoch)], hash, epoch, m[ck := tag])
  {
    var b := a[i := Slot(ck, tag, epoch)];
    WriteReachable(a, hash, epoch, m, ck, i, tag);
    forall k | k in m[ck := tag]
      ensures Holds(b, epoch, k)
    {
      if k == ck {
        assert b[i].key == k && LiveSlot(b[i], epoch);
      } else {
        assert Holds(a, epoch, k);
        var j :| 0 <= j < |a| && a[j].key == k && LiveSlot(a[j], epoch);
        assert j != i;
        assert b[j] == a[j];
      }
    }
  }

  lemma WriteReachable(a: seq<Slot>, hash: nat -> nat, epoch: nat, m: TagMap, ck: nat, i: nat, tag: Tag)
    requires TableOk(a, hash, epoch, m) && ck != 0 && i < SLOTS && InsertTarget(a, hash, epoch, ck, i)
    ensures AllReachable(a[i := Slot(ck, tag, epoch)], hash)
  {
    var b := a[i := Slot(ck, tag, epoch)];
    forall j | 0 <= j < SLOTS && b[j].key != 0
      ensures Reachable(b, hash, j)
    {
      if j != i || a[i].key == ck {
        var p := WhereIs(a, hash, j);
        assert FoundAt(b, hash, b[j].key, p);
      } else {
        var p: nat :| p < MAX_PROBE && Pos(hash, ck, p) == i && forall q :: 0 <= q < p ==> a[Pos(hash, ck, q)].key != 0;
        assert FoundAt(b, hash, ck, p);
      }
    }
  }

  /** The only slot of a stale key: the key is dead. */
  lemma StaleKeyDead(a: seq<Slot>, hash: nat -> nat, epoch: nat, m: TagMap, ck: nat, i: nat)
    requires TableOk(a, hash, epoch, m) && ck != 0 && i < SLOTS && a[i].key == ck && !LiveSlot(a[i], epoch)
    ensures ck !in m
  {
  }

  lemma DeadNotLive(a: seq<Slot>, hash: nat -> nat, epoch: nat, m: TagMap, i: nat)
    requires TableOk(a, hash, epoch, m) && i < SLOTS && !LiveSlot(a[i], epoch)
    ensures a[i].key !in m
  {
  }

  lemma OwnSlot(a: seq<Slot>, hash: nat -> nat, epoch: nat, m: TagMap, ck: nat, p: nat)
    requires |a| == SLOTS && p < MAX_PROBE && a[Pos(hash, ck, p)].key == ck
    ensures InsertTarget(a, hash, epoch, ck, Pos(hash, ck, p)) && !WindowFull(a, hash, ck, m)
  {
  }

  lemma LiveAt(a: seq<Slot>, hash: nat -> nat, epoch: nat, m: TagMap, i: nat)
    requires TableOk(a, hash, epoch, m) && i < SLOTS && LiveSlot(a[i], epoch)
    ensures a[i].key in m && m[a[i].key] == a[i].tag
  {
  }

  /** Changing only the tag of a live slot changes only that key's set. */
  lemma TagKeeps(a: seq<Slot>, hash: nat -> nat, epoch: nat, m: TagMap, i: nat, tag: Tag)
    requires TableOk(a, hash, epoch, m) && i < SLOTS && LiveSlot(a[i], epoch)
    ensures TableOk(a[i := a[i].(tag := tag)], hash, epoch, m[a[i].key := tag])
  {
    var ck := a[i].key;
    var b := a[i := a[i].(tag := tag)];
    forall j | 0 <= j < SLOTS && b[j].key != 0
      ensures Reachable(b, hash, j)
    {
      var p := WhereIs(a, hash, j);
      assert FoundAt(b, hash, b[j].key, p);
    }
    forall k | k in m[ck := tag]
      ensures Holds(b, epoch, k)
    {
      assert k == ck || k in m;
      if k != ck {
        assert Holds(a, epoch, k);
        var j :| 0 <= j < |a| && a[j].key == k && LiveSlot(a[j], epoch);
        assert b[j] == a[j];
      } else {
        assert b[i].key == k && LiveSlot(b[i], epoch);
      }
    }
  }

  /** Bumping the epoch leaves exactly the wasm entries live. */
  lemma EpochBump(a: seq<Slot>, hash: nat -> nat, epoch: nat, m: TagMap)
    requires TableOk(a, hash, epoch, m)
    ensures TableOk(a, hash, epoch + 1, AfterGC(m))
  {
    forall i | 0 <= i < |a|
      ensures LiveSlot(a[i], epoch + 1) <==> LiveSlot(a[i], epoch) && IsWasm(a[i].key)
    {
    }
    forall k | k in AfterGC(m)
      ensures Holds(a, epoch + 1, k)
    {
      assert Holds(a, epoch, k);
    }
  }

  lemma EmptyOk(a: seq<Slot>, hash: nat -> nat, epoch: nat)
    requires |a| == SLOTS && forall i :: 0 <= i < SLOTS ==> a[i] == Slot(0, 0, 0)
    ensures TableOk(a, hash, epoch, map[])
  {
  }

  datatype Op =
    | OpSet(space: nat, key: nat, tag: Tag)
    | OpGet(space: nat, key: nat)
    | OpPropagate(dstSpace: nat, dstKey: nat, srcSpace: nat, srcKey: nat)
    | OpClear(space: nat, key: nat)
    | OpGC(compacting: bool)

  predicate OpOk(op: Op) {
    match op
    case OpSet(s, _, _) => s < 4
    case OpGet(s, _) => s < 4
    case OpPropagate(d, _, s, _) => d < 4 && s < 4
    case OpClear(s, _) => s < 4
    case OpGC(_) => true
  }

  /** The tag an operation stores, 0 when it stores none. */
  ghost function StoredTag(m: TagMap, op: Op): (r: Tag)
    requires OpOk(op)
  {
    match op
    case OpSet(_, _, t) => t
    case OpPropagate(_, _, s, k) => Lookup(m, CompositeKey(s, k))
    case _ => 0
  }

  /** The map after one operation; `accepted` says whether a store found a slot. */
  ghost function Step(m: TagMap, op: Op, accepted: bool): (r: TagMap)
    requires OpOk(op)
  {
    var t := StoredTag(m, op);
    match op
    case OpSet(s, k, _) => if t != 0 && accepted then AfterSet(m, CompositeKey(s, k), t) else m
    case OpGet(_, _) => m
    case OpPropagate(d, k, _, _) => if t != 0 && accepted then AfterSet(m, CompositeKey(d, k), t) else m
    case OpClear(s, k) => AfterClear(m, CompositeKey(s, k))
    case OpGC(c) => if c then AfterGC(m) else m
  }

  /** The map after a whole run. */
  ghost function RunMap(m: TagMap, ops: seq<Op>, accepted: seq<bool>): (r: TagMap)
    requires |ops| == |accepted| && forall i :: 0 <= i < |ops| ==> OpOk(ops[i])
  {
    if ops == [] then m else
      var n := |ops| - 1;
      Step(RunMap(m, ops[..n], accepted[..n]), ops[n], accepted[n])
  }

  /** What the reads of a run return. */
  ghost function RunReads(m: TagMap, ops: seq<Op>, accepted: seq<bool>): (r: seq<Tag>)
    requires |ops| == |accepted| && forall i :: 0 <= i < |ops| ==> OpOk(ops[i])
  {
    if ops == [] then [] else
      var n := |ops| - 1;
      RunReads(m, ops[..n], accepted[..n]) +
      assert OpOk(ops[n]);
      (if ops[n].OpGet? then
         [Lookup(RunMap(m, ops[..n], accepted[..n]), CompositeKey(ops[n].space, ops[n].key))]
       else [])
  }

  ghost function Rejections(accepted: seq<bool>): (r: nat) {
    if accepted == [] then 0 else
      Rejections(accepted[..|accepted| - 1]) + if accepted[|accepted| - 1] then 0 else 1
  }

  // ---------------------------------------------------------------------
  // When a store is rejected.
  // ---------------------------------------------------------------------

  /** The keys in the first `n` slots of a probe window. */
  ghost function WindowKeys(a: seq<Slot>, hash: nat -> nat, ck: nat, n: nat): (keys: set<nat>)
    requires |a| == SLOTS
  {
    if n == 0 then {} else WindowKeys(a, hash, ck, n - 1) + {a[Pos(hash, ck, n - 1)].key}
  }

  lemma {:induction false} WindowKeysIff(a: seq<Slot>, hash: nat -> nat, ck: nat, n: nat, k: nat)
    requires |a| == SLOTS
    ensures k in WindowKeys(a, hash, ck, n) <==> exists p: nat :: p < n && a[Pos(hash, ck, p)].key == k
  {
    hide Pos;
    if n == 0 {
    } else {
      WindowKeysIff(a, hash, ck, n - 1, k);
    }
  }

  lemma WindowNew(a: seq<Slot>, hash: nat -> nat, ck: nat, m: TagMap, n: nat)
    requires |a| == SLOTS && UniqueKeys(a) && n < MAX_PROBE && WindowFull(a, hash, ck, m) && 0 !in m
    ensures a[Pos(hash, ck, n)].key in m && a[Pos(hash, ck, n)].key !in WindowKeys(a, hash, ck, n)
  {
    hide UniqueKeys, Pos, WindowKeys;
    var k := a[Pos(hash, ck, n)].key;
    WindowKeysIff(a, hash, ck, n, k);
    forall p: nat | p < n
      ensures a[Pos(hash, ck, p)].key != k
    {
      WindowDistinct(a, hash, ck, m, p, n);
    }
  }

  /** The slots of a full window hold as many different keys. */
  lemma {:induction false} WindowKeysCount(a: seq<Slot>, hash: nat -> nat, ck: nat, m: TagMap, n: nat)
    requires |a| == SLOTS && UniqueKeys(a) && n <= MAX_PROBE && WindowFull(a, hash, ck, m) && 0 !in m
    ensures |WindowKeys(a, hash, ck, n)| == n && WindowKeys(a, hash, ck, n) <= m.Keys
  {
    hide UniqueKeys, Pos, WindowFull;
    if n == 0 {
    } else {
      WindowKeysCount(a, hash, ck, m, n - 1);
      WindowNew(a, hash, ck, m, n - 1);
    }
  }

  lemma WindowDistinct(a: seq<Slot>, hash: nat -> nat, ck: nat, m: TagMap, p: nat, q: nat)
    requires |a| == SLOTS && UniqueKeys(a) && p < q < MAX_PROBE && WindowFull(a, hash, ck, m) && 0 !in m
    ensures a[Pos(hash, ck, p)].key != a[Pos(hash, ck, q)].key
  {
    hide Pos;
    if Pos(hash, ck, p) == Pos(hash, ck, q) {
      PosInjective(hash, ck, p, q);
    }
  }

  lemma ZeroNotLive(a: seq<Slot>, hash: nat -> nat, epoch: nat, m: TagMap)
    requires TableOk(a, hash, epoch, m)
    ensures 0 !in m
  {
    hide UniqueKeys, AllReachable;
    assert 0 in m ==> Holds(a, epoch, 0);
  }

  /** A full window means that many other keys are live. */
  lemma FullMeansMany(a: seq<Slot>, hash: nat -> nat, epoch: nat, m: TagMap, ck: nat)
    requires TableOk(a, hash, epoch, m) && WindowFull(a, hash, ck, m)
    ensures |m| >= MAX_PROBE
  {
    ZeroNotLive(a, hash, epoch, m);
    hide AllReachable, Represents;
    WindowKeysCount(a, hash, ck, m, MAX_PROBE);
    Subset(WindowKeys(a, hash, ck, MAX_PROBE), m.Keys);
  }

  lemma {:induction false} Subset(x: set<nat>, y: set<nat>)
    requires x <= y
    ensures |x| <= |y|
  {
    if x == {} {
    } else {
      var e :| e in x;
      Subset(x - {e}, y - {e});
    }
  }

  /** The composite key an operation stores under, if it stores. */
  ghost function StoreKey(op: Op): (ck: nat)
    requires OpOk(op) && (op.OpSet? || op.OpPropagate?)
  {
    if op.OpSet? then CompositeKey(op.space, op.key) else CompositeKey(op.dstSpace, op.dstKey)
  }

  /** Only a store of a non-empty set under a new key, with a window's worth of keys live, may be dropped. */
  ghost predicate MayReject(m: TagMap, op: Op)
    requires OpOk(op)
  {
    (op.OpSet? || op.OpPropagate?) && StoredTag(m, op) != 0 && StoreKey(op) !in m && |m| >= MAX_PROBE
  }

  ghost predicate Explained(m: TagMap, ops: seq<Op>, accepted: seq<bool>)
    requires |ops| == |accepted| && forall i :: 0 <= i < |ops| ==> OpOk(ops[i])
  {
    forall i :: 0 <= i < |ops| && !accepted[i] ==> MayReject(RunMap(m, ops[..i], accepted[..i]), ops[i])
  }

  lemma ExplainedPush(m: TagMap, ops: seq<Op>, accepted: seq<bool>, n: nat, ok: bool)
    requires n < |ops| && |accepted| == n && forall i :: 0 <= i < |ops| ==> OpOk(ops[i])
    requires Explained(m, ops[..n], accepted) && (!ok ==> MayReject(RunMap(m, ops[..n], accepted), ops[n]))
    ensures Explained(m, ops[..n + 1], accepted + [ok])
  {
    hide MayReject, RunMap;
    var ops', acc' := ops[..n + 1], accepted + [ok];
    forall i | 0 <= i < n + 1 && !acc'[i]
      ensures MayReject(RunMap(m, ops'[..i], acc'[..i]), ops'[i])
    {
      assert ops'[..i] == ops[..i] && acc'[..i] == accepted[..i];
      if i < n {
        assert ops[..n][..i] == ops[..i] && ops[..n][i] == ops[i];
      } else {
        assert accepted[..n] == accepted;
      }
    }
  }

  /** The keys a run stores under. */
  ghost function StoredKeys(ops: seq<Op>): (keys: set<nat>)
    requires forall i :: 0 <= i < |ops| ==> OpOk(ops[i])
  {
    if ops == [] then {}
    else
      var n := |ops| - 1;
      StoredKeys(ops[..n]) + if ops[n].OpSet? || ops[n].OpPropagate? then {StoreKey(ops[n])} else {}
  }

  lemma {:induction false} RunKeys(m: TagMap, ops: seq<Op>, accepted: seq<bool>)
    requires |ops| == |accepted| && forall i :: 0 <= i < |ops| ==> OpOk(ops[i])
    ensures RunMap(m, ops, accepted).Keys <= m.Keys + StoredKeys(ops)
  {
    hide Or, CompositeKey, IsWasm, Lookup;
    if ops == [] {
    } else {
      var n := |ops| - 1;
      RunKeys(m, ops[..n], accepted[..n]);
      assert OpOk(ops[n]);
    }
  }

  lemma {:induction false} StoredKeysPrefix(ops: seq<Op>, i: nat)
    requires i <= |ops| && forall k :: 0 <= k < |ops| ==> OpOk(ops[k])
    ensures StoredKeys(ops[..i]) <= StoredKeys(ops)
  {
    hide StoreKey;
    if i == |ops| {
      assert ops[..i] == ops;
    } else {
      var n := |ops| - 1;
      StoredKeysPrefix(ops[..n], i);
      assert ops[..n][..i] == ops[..i];
    }
  }

  /** A run that stores under fewer keys than a window has slots drops nothing. */
  lemma FewKeysAccepted(m: TagMap, ops: seq<Op>, accepted: seq<bool>)
    requires |ops| == |accepted| && forall i :: 0 <= i < |ops| ==> OpOk(ops[i])
    requires Explained(m, ops, accepted) && |m.Keys + StoredKeys(ops)| < MAX_PROBE
    ensures forall i :: 0 <= i < |ops| ==> accepted[i]
  {
    hide RunMap, StoredKeys, StoredTag, StoreKey;
    forall i | 0 <= i < |ops|
      ensures accepted[i]
    {
      var before := RunMap(m, ops[..i], accepted[..i]);
      RunKeys(m, ops[..i], accepted[..i]);
      StoredKeysPrefix(ops, i);
      Subset(before.Keys, m.Keys + StoredKeys(ops));
      assert |before| == |before.Keys|;
      assert !MayReject(before, ops[i]);
    }
  }

  // ---------------------------------------------------------------------
  // The same in terms of key spaces and addresses.
  // ---------------------------------------------------------------------

  type Place = (nat, nat)
  type PlaceMap = map<Place, Tag>

  ghost function LookupAt(m: PlaceMap, x: Place): (t: Tag) {
    if x in m then m[x] else 0
  }

  ghost predicate SmallKeys(op: Op) {
    match op
    case OpSet(s, k, _) => s < 4 && k < KEY_SPAN
    case OpGet(s, k) => s < 4 && k < KEY_SPAN
    case OpPropagate(d, dk, s, sk) => d < 4 && dk < KEY_SPAN && s < 4 && sk < KEY_SPAN
    case OpClear(s, k) => s < 4 && k < KEY_SPAN
    case OpGC(_) => true
  }

  ghost function PlaceStored(m: PlaceMap, op: Op): (t: Tag) {
    match op
    case OpSet(_, _, t) => t
    case OpPropagate(_, _, s, k) => LookupAt(m, (s, k))
    case _ => 0
  }

  /** The reference: a map from (space, address) to tag sets, wiped of all but wasm buffers by a compacting GC. */
  ghost function PlaceStep(m: PlaceMap, op: Op, accepted: bool): (r: PlaceMap) {
    var t := PlaceStored(m, op);
    match op
    case OpSet(s, k, _) => if t != 0 && accepted then m[(s, k) := Or(LookupAt(m, (s, k)), t)] else m
    case OpGet(_, _) => m
    case OpPropagate(d, k, _, _) => if t != 0 && accepted then m[(d, k) := Or(LookupAt(m, (d, k)), t)] else m
    case OpClear(s, k) => if (s, k) in m then m[(s, k) := 0] else m
    case OpGC(c) => if c then map x | x in m && x.0 == KEY_WASM :: m[x] else m
  }

  ghost function PlaceRun(m: PlaceMap, ops: seq<Op>, accepted: seq<bool>): (r: PlaceMap)
    requires |ops| == |accepted|
  {
    if ops == [] then m
    else
      var n := |ops| - 1;
      PlaceStep(PlaceRun(m, ops[..n], accepted[..n]), ops[n], accepted[n])
  }

  ghost function PlaceReads(m: PlaceMap, ops: seq<Op>, accepted: seq<bool>): (r: seq<Tag>)
    requires |ops| == |accepted|
  {
    if ops == [] then []
    else
      var n := |ops| - 1;
      PlaceReads(m, ops[..n], accepted[..n])
      + if ops[n].OpGet? then [LookupAt(PlaceRun(m, ops[..n], accepted[..n]), (ops[n].space, ops[n].key))] else []
  }

  /** `pm` is `m` with its composite keys taken apart. */
  ghost predicate SamePlaces(m: TagMap, pm: PlaceMap) {
    && (forall x :: x in pm ==>
          x.0 < 4 && x.1 < KEY_SPAN && CompositeKey(x.0, x.1) in m && m[CompositeKey(x.0, x.1)] == pm[x])
    && (forall ck :: ck in m ==> exists x :: Locates(pm, x, ck))
  }

  ghost predicate Locates(pm: PlaceMap, x: Place, ck: nat) {
    x in pm && x.0 < 4 && x.1 < KEY_SPAN && CompositeKey(x.0, x.1) == ck
  }

  lemma KeyOnce(x: Place, y: Place)
    requires x.0 < 4 && y.0 < 4 && x.1 < KEY_SPAN && y.1 < KEY_SPAN
    ensures CompositeKey(x.0, x.1) == CompositeKey(y.0, y.1) <==> x == y
    ensures IsWasm(CompositeKey(x.0, x.1)) <==> x.0 == KEY_WASM
  {
    CompositeKeyInjective(x.0, x.1, y.0, y.1);
  }

  lemma SameLookup(m: TagMap, pm: PlaceMap, x: Place)
    requires SamePlaces(m, pm) && x.0 < 4 && x.1 < KEY_SPAN
    ensures Lookup(m, CompositeKey(x.0, x.1)) == LookupAt(pm, x)
    ensures CompositeKey(x.0, x.1) in m <==> x in pm
  {
    hide CompositeKey;
    if CompositeKey(x.0, x.1) in m {
      var y :| Locates(pm, y, CompositeKey(x.0, x.1));
      KeyOnce(x, y);
    }
  }

  lemma SameUpdate(m: TagMap, pm: PlaceMap, x: Place, t: Tag)
    requires SamePlaces(m, pm) && x.0 < 4 && x.1 < KEY_SPAN
    ensures SamePlaces(m[CompositeKey(x.0, x.1) := t], pm[x := t])
  {
    hide CompositeKey;
    var ck := CompositeKey(x.0, x.1);
    var m', pm' := m[ck := t], pm[x := t];
    forall y | y in pm'
      ensures y.0 < 4 && y.1 < KEY_SPAN && CompositeKey(y.0, y.1) in m' && m'[CompositeKey(y.0, y.1)] == pm'[y]
    {
      KeyOnce(x, y);
    }
    forall k | k in m'
      ensures exists y :: Locates(pm', y, k)
    {
      if k == ck {
        assert Locates(pm', x, k);
      } else {
        var y :| Locates(pm, y, k);
        assert Locates(pm', y, k);
      }
    }
  }

  lemma SameAfterGC(m: TagMap, pm: PlaceMap)
    requires SamePlaces(m, pm)
    ensures SamePlaces(AfterGC(m), map x | x in pm && x.0 == KEY_WASM :: pm[x])
  {
    hide CompositeKey, IsWasm;
    var m', pm' := AfterGC(m), map x | x in pm && x.0 == KEY_WASM :: pm[x];
    forall y | y in pm'
      ensures y.0 < 4 && y.1 < KEY_SPAN && CompositeKey(y.0, y.1) in m' && m'[CompositeKey(y.0, y.1)] == pm'[y]
    {
      KeyOnce(y, y);
    }
    forall k | k in m'
      ensures exists y :: Locates(pm', y, k)
    {
      var y :| Locates(pm, y, k);
      KeyOnce(y, y);
      assert Locates(pm', y, k);
    }
  }

  lemma SameStep(m: TagMap, pm: PlaceMap, op: Op, accepted: bool)
    requires SamePlaces(m, pm) && SmallKeys(op)
    ensures OpOk(op) && SamePlaces(Step(m, op, accepted), PlaceStep(pm, op, accepted))
  {
    hide SamePlaces, CompositeKey, AfterGC, Or;
    match op
    case OpSet(s, k, t) =>
      SameLookup(m, pm, (s, k));
      SameUpdate(m, pm, (s, k), Or(LookupAt(pm, (s, k)), t));
    case OpGet(_, _) =>
    case OpPropagate(d, dk, s, sk) =>
      SameLookup(m, pm, (s, sk));
      SameLookup(m, pm, (d, dk));
      SameUpdate(m, pm, (d, dk), Or(LookupAt(pm, (d, dk)), LookupAt(pm, (s, sk))));
    case OpClear(s, k) =>
      SameLookup(m, pm, (s, k));
      SameUpdate(m, pm, (s, k), 0);
    case OpGC(c) =>
      SameAfterGC(m, pm);
  }

  /** With addresses below 2^61, a run of the table is a run of the reference over (space, address). */
  lemma {:induction false} RunByPlace(m: TagMap, pm: PlaceMap, ops: seq<Op>, accepted: seq<bool>)
    requires |ops| == |accepted| && SamePlaces(m, pm)
             && forall i :: 0 <= i < |ops| ==> SmallKeys(ops[i]) && OpOk(ops[i])
    ensures SamePlaces(RunMap(m, ops, accepted), PlaceRun(pm, ops, accepted))
    ensures RunReads(m, ops, accepted) == PlaceReads(pm, ops, accepted)
  {
    hide SamePlaces, Step, PlaceStep, CompositeKey, Lookup, LookupAt;
    if ops == [] {
    } else {
      var n := |ops| - 1;
      RunByPlace(m, pm, ops[..n], accepted[..n]);
      assert SmallKeys(ops[n]);
      var m1, pm1 := RunMap(m, ops[..n], accepted[..n]), PlaceRun(pm, ops[..n], accepted[..n]);
      SameStep(m1, pm1, ops[n], accepted[n]);
      if ops[n].OpGet? {
        SameLookup(m1, pm1, (ops[n].space, ops[n].key));
      }
    }
  }

  // ---------------------------------------------------------------------
  // The history of a tag.
  // ---------------------------------------------------------------------

  /** The operation takes everything away from place `x`. */
  predicate Wipes(op: Op, x: Place) {
    (op.OpClear? && op.space == x.0 && op.key == x.1) || (op == OpGC(true) && x.0 != 1)
  }

  /** The operation stores tags of the mask `b` at place `x`. */
  predicate Puts(op: Op, x: Place, b: Tag) {
    op.OpSet? && (op.space, op.key) == x && AnyOf(op.tag, b)
  }

  /** The operation adds what some place has to place `x`. */
  predicate Copies(op: Op, x: Place) {
    op.OpPropagate? && (op.dstSpace, op.dstKey) == x
  }

  function Source(op: Op): (x: Place)
    requires op.OpPropagate?
  {
    (op.srcSpace, op.srcKey)
  }

  ghost predicate Untouched(ops: seq<Op>, i: nat, n: nat, x: Place)
    requires n <= |ops|
  {
    forall j :: i < j < n ==> !Wipes(ops[j], x)
  }

  /** After the first `n` operations place `x` has tags of the mask `b`: some accepted operation stored them, or
      copied them from a place that had them then, and none behind it took them away. */
  ghost predicate Tainted(ops: seq<Op>, accepted: seq<bool>, n: nat, x: Place, b: Tag)
    requires n <= |ops| == |accepted|
    decreases n
  {
    exists i :: 0 <= i < n && Untouched(ops, i, n, x) && accepted[i]
                && (Puts(ops[i], x, b) || (Copies(ops[i], x) && Tainted(ops, accepted, i, Source(ops[i]), b)))
  }

  /** Operation `i` brings tags of the mask to `x`. */
  ghost predicate Brings(ops: seq<Op>, accepted: seq<bool>, i: nat, x: Place, b: Tag)
    requires i < |ops| == |accepted|
  {
    accepted[i] && (Puts(ops[i], x, b) || (Copies(ops[i], x) && Tainted(ops, accepted, i, Source(ops[i]), b)))
  }

  lemma TaintedSome(ops: seq<Op>, accepted: seq<bool>, n: nat, x: Place, b: Tag)
    requires n <= |ops| == |accepted|
    ensures Tainted(ops, accepted, n, x, b) <==>
              exists i :: 0 <= i < n && Untouched(ops, i, n, x) && Brings(ops, accepted, i, x, b)
  {
    hide Untouched, Puts, Copies;
  }

  lemma TaintedNext(ops: seq<Op>, accepted: seq<bool>, n: nat, x: Place, b: Tag)
    requires n < |ops| == |accepted|
    ensures Tainted(ops, accepted, n + 1, x, b) <==>
              Brings(ops, accepted, n, x, b) || (Tainted(ops, accepted, n, x, b) && !Wipes(ops[n], x))
  {
    TaintedSome(ops, accepted, n, x, b);
    TaintedSome(ops, accepted, n + 1, x, b);
    forall i: nat | i < n
      ensures Untouched(ops, i, n + 1, x) <==> Untouched(ops, i, n, x) && !Wipes(ops[n], x)
    {
    }
    assert Untouched(ops, n, n + 1, x);
    hide Tainted, Brings, Wipes, Untouched;
  }

  lemma StepBits(m: PlaceMap, op: Op, ok: bool, x: Place, b: Tag)
    ensures AnyOf(LookupAt(PlaceStep(m, op, ok), x), b) <==>
              || (ok && (Puts(op, x, b) || (Copies(op, x) && AnyOf(LookupAt(m, Source(op)), b))))
              || (AnyOf(LookupAt(m, x), b) && !Wipes(op, x))
  {
    OrHas(LookupAt(m, x), PlaceStored(m, op), b);
    NothingIn(b);
    hide Or, AnyOf, OpOk, Covers;
    match op
    case OpSet(_, _, _) =>
    case OpGet(_, _) =>
    case OpPropagate(_, _, _, _) =>
    case OpClear(_, _) =>
    case OpGC(_) =>
  }

  lemma OrHas(u: Tag, t: Tag, b: Tag)
    ensures AnyOf(Or(u, t), b) <==> AnyOf(u, b) || AnyOf(t, b)
  {
    OrBits(u, t, b);
  }

  lemma NothingIn(b: Tag)
    ensures !AnyOf(0, b)
  {
  }

  /** The reference map holds exactly what the history says. */
  lemma {:induction false} TaintedIff(ops: seq<Op>, accepted: seq<bool>, n: nat, x: Place, b: Tag)
    requires n <= |ops| == |accepted|
    ensures AnyOf(LookupAt(PlaceRun(map[], ops[..n], accepted[..n]), x), b) <==> Tainted(ops, accepted, n, x, b)
    decreases n
  {
    hide PlaceStep, Wipes, AnyOf, Untouched, Puts;
    if n == 0 {
      NothingIn(b);
    } else {
      var m := PlaceRun(map[], ops[..n - 1], accepted[..n - 1]);
      assert ops[..n][..n - 1] == ops[..n - 1] && accepted[..n][..n - 1] == accepted[..n - 1];
      assert PlaceRun(map[], ops[..n], accepted[..n]) == PlaceStep(m, ops[n - 1], accepted[n - 1]);
      TaintedIff(ops, accepted, n - 1, x, b);
      TaintedNext(ops, accepted, n - 1, x, b);
      StepBits(m, ops[n - 1], accepted[n - 1], x, b);
      if ops[n - 1].OpPropagate? {
        TaintedIff(ops, accepted, n - 1, Source(ops[n - 1]), b);
      }
      hide Tainted, PlaceRun, LookupAt;
    }
  }

  /** How many reads are among the first `n` operations. */
  function GetsIn(ops: seq<Op>, n: nat): (k: nat)
    requires n <= |ops|
  {
    if n == 0 then 0 else GetsIn(ops, n - 1) + if ops[n - 1].OpGet? then 1 else 0
  }

  /** Operation `n`'s read is in its place, and has tags of the mask `b` exactly if its place is tainted with some. */
  ghost predicate ReadsHistory(ops: seq<Op>, accepted: seq<bool>, got: seq<Tag>, n: nat, b: Tag)
    requires n < |ops| == |accepted| && ops[n].OpGet?
  {
    && GetsIn(ops, n) < |got|
    && (AnyOf(got[GetsIn(ops, n)], b) <==> Tainted(ops, accepted, n, (ops[n].space, ops[n].key), b))
  }

  lemma {:induction false} ReadPlaced(ops: seq<Op>, accepted: seq<bool>, len: nat, n: nat)
    requires n < len <= |ops| == |accepted| && ops[n].OpGet?
    ensures var got := PlaceReads(map[], ops[..len], accepted[..len]);
            && |got| == GetsIn(ops, len) && GetsIn(ops, n) < |got|
            && got[GetsIn(ops, n)] == LookupAt(PlaceRun(map[], ops[..n], accepted[..n]), (ops[n].space, ops[n].key))
    decreases len
  {
    hide PlaceRun, LookupAt;
    ReadsCounted(ops, accepted, len);
    assert ops[..len][..len - 1] == ops[..len - 1] && accepted[..len][..len - 1] == accepted[..len - 1];
    if n < len - 1 {
      ReadPlaced(ops, accepted, len - 1, n);
    } else {
      ReadsCounted(ops, accepted, n);
    }
  }

  lemma {:induction false} ReadsCounted(ops: seq<Op>, accepted: seq<bool>, len: nat)
    requires len <= |ops| == |accepted|
    ensures |PlaceReads(map[], ops[..len], accepted[..len])| == GetsIn(ops, len)
    decreases len
  {
    hide PlaceRun, LookupAt;
    if len == 0 {
    } else {
      ReadsCounted(ops, accepted, len - 1);
      assert ops[..len][..len - 1] == ops[..len - 1] && accepted[..len][..len - 1] == accepted[..len - 1];
    }
  }

  /** Every read of a run returns what the history says. */
  lemma ReadsAreHistory(ops: seq<Op>, accepted: seq<bool>, got: seq<Tag>, n: nat, b: Tag)
    requires n < |ops| == |accepted| && ops[n].OpGet? && got == PlaceReads(map[], ops, accepted)
    ensures ReadsHistory(ops, accepted, got, n, b)
  {
    hide PlaceRun, LookupAt, PlaceReads, Tainted, GetsIn, AnyOf;
    assert ops[..|ops|] == ops && accepted[..|ops|] == accepted;
    ReadPlaced(ops, accepted, |ops|, n);
    TaintedIff(ops, accepted, n, (ops[n].space, ops[n].key), b);
  }

  /** The union over live non-wasm entries, in the same terms. */
  lemma UnionByPlace(m: TagMap, pm: PlaceMap, u: Tag)
    requires SamePlaces(m, pm)
    ensures CoversHeap(u, m) <==> forall x :: x in pm && x.0 != KEY_WASM ==> Covers(u, pm[x])
  {
    hide CompositeKey, IsWasm, Covers;
    if CoversHeap(u, m) {
      forall x | x in pm && x.0 != KEY_WASM
        ensures Covers(u, pm[x])
      {
        KeyOnce(x, x);
      }
    }
    if forall x :: x in pm && x.0 != KEY_WASM ==> Covers(u, pm[x]) {
      forall ck | ck in m && !IsWasm(ck)
        ensures Covers(u, m[ck])
      {
        var x :| Locates(pm, x, ck);
        KeyOnce(x, x);
      }
    }
  }

  lemma NothingTainted()
    ensures SamePlaces(map[], map[])
  {
  }

  ghost predicate HeapLive(s: Slot, epoch: nat) {
    s.key != 0 && !IsWasm(s.key) && s.epoch == epoch
  }

  ghost predicate CoversUpTo(x: Tag, a: seq<Slot>, epoch: nat, n: nat)
    requires n <= |a|
  {
    forall i :: 0 <= i < n && HeapLive(a[i], epoch) ==> Covers(x, a[i].tag)
  }

  /** `u` is the least set covering the current-epoch non-wasm tags among the first `n` slots. */
  ghost predicate UnionUpTo(a: seq<Slot>, epoch: nat, n: nat, u: Tag)
    requires n <= |a|
  {
    CoversUpTo(u, a, epoch, n) && forall x :: CoversUpTo(x, a, epoch, n) ==> Covers(x, u)
  }

  lemma UnionStart(a: seq<Slot>, epoch: nat)
    ensures UnionUpTo(a, epoch, 0, 0)
  {
  }

  lemma UnionStep(a: seq<Slot>, epoch: nat, n: nat, u: Tag)
    requires n < |a| && UnionUpTo(a, epoch, n, u)
    ensures UnionUpTo(a, epoch, n + 1, if HeapLive(a[n], epoch) then Or(u, a[n].tag) else u)
  {
    hide Or, Covers;
    var n' := n + 1;
    forall x | CoversUpTo(x, a, epoch, n')
      ensures Covers(x, if HeapLive(a[n], epoch) then Or(u, a[n].tag) else u)
    {
      assert CoversUpTo(x, a, epoch, n);
      if HeapLive(a[n], epoch) {
        OrIsLeast(x, u, a[n].tag);
      }
    }
    if HeapLive(a[n], epoch) {
      OrIsCover(u, a[n].tag);
      forall i | 0 <= i < n && HeapLive(a[i], epoch)
        ensures Covers(Or(u, a[n].tag), a[i].tag)
      {
        OrGrows(u, a[n].tag, a[i].tag);
      }
    }
  }

  lemma UnionDone(a: seq<Slot>, hash: nat -> nat, epoch: nat, m: TagMap, u: Tag)
    requires TableOk(a, hash, epoch, m) && UnionUpTo(a, epoch, SLOTS, u)
    ensures IsHeapUnion(u, m)
  {
    hide UniqueKeys, AllReachable, Covers;
    forall ck | ck in m && !IsWasm(ck)
      ensures exists i :: 0 <= i < SLOTS && HeapLive(a[i], epoch) && a[i].key == ck && a[i].tag == m[ck]
    {
      assert Holds(a, epoch, ck);
    }
    assert forall i :: 0 <= i < SLOTS && HeapLive(a[i], epoch) ==>
        LiveSlot(a[i], epoch) && a[i].key in m && m[a[i].key] == a[i].tag;
    assert forall x :: CoversHeap(x, m) ==> CoversUpTo(x, a, epoch, SLOTS);
  }

  class Table {
    const hash: nat -> nat
    const slots: array<Slot>
    var epoch: nat
    var dropped: nat
    var capWitnesses: nat
    ghost var live: TagMap

    ghost predicate Valid()
      reads this, slots
    {
      && slots.Length == SLOTS
      && TableOk(slots[..], hash, epoch, live)
      && capWitnesses == (if dropped > DROP_CAP then 1 else 0)
    }

    constructor (hash: nat -> nat)
      ensures Valid() && live == map[] && fresh(slots) && dropped == 0
    {
      this.hash := hash;
      slots := new Slot[SLOTS](_ => Slot(0, 0, 0));
      epoch, dropped, capWitnesses, live := 1, 0, 0, map[];
      new;
      EmptyOk(slots[..], hash, epoch);
    }

    /** The probe of a lookup. */
    method FindSlot(ck: nat) returns (r: int)
      requires Valid() && ck != 0
      ensures r == -1 ==> ck !in live
      ensures r != -1 ==> 0 <= r < SLOTS && slots[r].key == ck && LiveSlot(slots[r], epoch)
      ensures r != -1 ==> ck in live && slots[r].tag == live[ck]
    {
      ghost var a := slots[..];
      hide UniqueKeys, AllReachable;
      var p := 0;
      while p < MAX_PROBE
        invariant 0 <= p <= MAX_PROBE && a == slots[..]
        invariant forall q :: 0 <= q < p ==> a[Pos(hash, ck, q)].key != ck
      {
        var i := Pos(hash, ck, p);
        var s := slots[i];
        assert a[i] == s;
        if s.key == ck {
          if !Stale(ck, s.epoch, epoch) {
            return i;
          }
          StaleKeyDead(a, hash, epoch, live, ck, i);
          return -1;
        }
        if s.key == 0 {
          EmptyEndsProbe(a, hash, ck, p);
          NotHeld(a, hash, epoch, live, ck);
          return -1;
        }
        p := p + 1;
      }
      NotInWindow(a, hash, ck);
      NotHeld(a, hash, epoch, live, ck);
      return -1;
    }

    /** The probe of an insert: scans the whole window for `ck` before reusing a slot. */
    method FindInsertSlot(ck: nat) returns (r: int)
      requires Valid() && ck != 0
      ensures r == -1 ==> ck !in live && WindowFull(slots[..], hash, ck, live)
      ensures r != -1 ==> 0 <= r < SLOTS && InsertTarget(slots[..], hash, epoch, ck, r)
      ensures r != -1 ==> ck in live || !WindowFull(slots[..], hash, ck, live)
    {
      ghost var a := slots[..];
      var reusable := -1;
      ghost var at: nat := 0;
      var p := 0;
      hide UniqueKeys, AllReachable;
      while p < MAX_PROBE
        invariant 0 <= p <= MAX_PROBE && a == slots[..]
        invariant forall q :: 0 <= q < p ==> a[Pos(hash, ck, q)].key != ck
        invariant reusable == -1 ==> forall q :: 0 <= q < p ==> LiveSlot(a[Pos(hash, ck, q)], epoch)
        invariant reusable != -1 ==> at < p && reusable == Pos(hash, ck, at) && !LiveSlot(a[reusable], epoch)
        invariant reusable != -1 ==> forall q :: 0 <= q < at ==> a[Pos(hash, ck, q)].key != 0
      {
        var i := Pos(hash, ck, p);
        var s := slots[i];
        assert a[i] == s;
        if s.key == ck {
          OwnSlot(a, hash, epoch, live, ck, p);
          return i;
        }
        if s.key == 0 {
          if reusable == -1 {
            reusable, at := i, p;
          }
        } else if reusable == -1 && Stale(s.key, s.epoch, epoch) {
          reusable, at := i, p;
        }
        p := p + 1;
      }
      NotInWindow(a, hash, ck);
      NotHeld(a, hash, epoch, live, ck);
      r := reusable;
      if r != -1 {
        DeadNotLive(a, hash, epoch, live, r);
      }
    }

    /** Claims the slot of `ck` for writing; a reclaimed slot starts with a clean tag. */
    method AcquireSlot(ck: nat) returns (r: int)
      requires Valid() && ck != 0
      modifies slots, this`live
      ensures Valid() && dropped == old(dropped) && epoch == old(epoch)
      ensures r == -1 <==> (ck !in old(live) && WindowFull(old(slots[..]), hash, ck, old(live)))
      ensures r == -1 ==> slots[..] == old(slots[..]) && live == old(live)
      ensures r != -1 ==> 0 <= r < SLOTS && slots[r].key == ck && LiveSlot(slots[r], epoch)
      ensures r != -1 ==> live == old(live)[ck := Lookup(old(live), ck)]
    {
      r := FindInsertSlot(ck);
      if r == -1 {
        return;
      }
      ghost var a := slots[..];
      if slots[r].key == ck {
        if !Stale(ck, slots[r].epoch, epoch) {
          LiveAt(a, hash, epoch, live, r);
          assert live == live[ck := Lookup(live, ck)];
          return;
        }
        StaleKeyDead(a, hash, epoch, live, ck, r);
        slots[r] := slots[r].(tag := 0);
      } else {
        NotHeld(a, hash, epoch, live, ck);
        slots[r] := slots[r].(key := ck);
        slots[r] := slots[r].(tag := 0);
      }
      slots[r] := slots[r].(epoch := epoch);
      WriteKeeps(a, hash, epoch, live, ck, r, 0);
      assert slots[..] == a[r := Slot(ck, 0, epoch)];
      live := live[ck := 0];
    }

    /** Adds `tag` to the set of `(space, key)`; the set is dropped only when the whole
        probe window holds other live keys. */
    method Set(space: nat, key: nat, tag: Tag) returns (ghost accepted: bool)
      requires Valid() && space < 4
      modifies this, slots
      ensures Valid() && epoch == old(epoch)
      ensures live == Step(old(live), OpSet(space, key, tag), accepted)
      ensures tag != 0 ==> (!accepted <==> (CompositeKey(space, key) !in old(live) &&
                              WindowFull(old(slots[..]), hash, CompositeKey(space, key), old(live))))
      ensures tag == 0 ==> accepted
      ensures !accepted ==> |old(live)| >= MAX_PROBE
      ensures dropped == old(dropped) + if !accepted then 1 else 0
    {
      hide TableOk, WindowFull, CompositeKey, Or;
      accepted := true;
      if tag == 0 {
        return;
      }
      var ck := CompositeKey(space, key);
      var r := AcquireSlot(ck);
      if r == -1 {
        if dropped == DROP_CAP {
          capWitnesses := capWitnesses + 1;
        }
        dropped := dropped + 1;
        accepted := false;
        FullMeansMany(slots[..], hash, epoch, live, ck);
        return;
      }
      ghost var a := slots[..];
      LiveAt(a, hash, epoch, live, r);
      ghost var t := Or(slots[r].tag, tag);
      slots[r] := slots[r].(tag := Or(slots[r].tag, tag));
      TagKeeps(a, hash, epoch, live, r, t);
      assert slots[..] == a[r := a[r].(tag := t)];
      live := live[ck := t];
    }

    method Get(space: nat, key: nat) returns (tag: Tag)
      requires Valid() && space < 4
      ensures tag == Lookup(live, CompositeKey(space, key))
    {
      var r := FindSlot(CompositeKey(space, key));
      tag := if r == -1 then 0 else slots[r].tag;
    }

    /** The destination collects whatever the source carries. */
    method Propagate(dstSpace: nat, dstKey: nat, srcSpace: nat, srcKey: nat) returns (ghost accepted: bool)
      requires Valid() && dstSpace < 4 && srcSpace < 4
      modifies this, slots
      ensures Valid() && epoch == old(epoch)
      ensures live == Step(old(live), OpPropagate(dstSpace, dstKey, srcSpace, srcKey), accepted)
      ensures !accepted <==> Lookup(old(live), CompositeKey(srcSpace, srcKey)) != 0
                             && CompositeKey(dstSpace, dstKey) !in old(live)
                             && WindowFull(old(slots[..]), hash, CompositeKey(dstSpace, dstKey), old(live))
      ensures !accepted ==> |old(live)| >= MAX_PROBE
      ensures dropped == old(dropped) + if !accepted then 1 else 0
    {
      accepted := true;
      var t := Get(srcSpace, srcKey);
      if t == 0 {
        return;
      }
      accepted := Set(dstSpace, dstKey, t);
    }

    method Clear(space: nat, key: nat)
      requires Valid() && space < 4
      modifies slots, this`live
      ensures Valid()
      ensures live == AfterClear(old(live), CompositeKey(space, key))
    {
      hide TableOk, CompositeKey;
      var ck := CompositeKey(space, key);
      var r := FindSlot(ck);
      if r != -1 {
        ghost var a := slots[..];
        TagKeeps(a, hash, epoch, live, r, 0);
        slots[r] := slots[r].(tag := 0);
        assert slots[..] == a[r := a[r].(tag := 0)];
        live := live[ck := 0];
      }
    }

    /** A compacting GC invalidates every heap entry without touching the slots. */
    method OnGCEpilogue(compacting: bool)
      requires Valid()
      modifies this`epoch, this`live
      ensures Valid() && slots[..] == old(slots[..])
      ensures live == if compacting then AfterGC(old(live)) else old(live)
    {
      if !compacting {
        return;
      }
      EpochBump(slots[..], hash, epoch, live);
      epoch := epoch + 1;
      live := AfterGC(live);
    }

    /** The union of all tags set since the last compacting GC. */
    method LiveHeapTagUnion() returns (u: Tag)
      requires Valid()
      ensures IsHeapUnion(u, live)
    {
      hide TableOk, Or, Covers, UnionUpTo, IsHeapUnion;
      u := 0;
      ghost var a := slots[..];
      UnionStart(a, epoch);
      var i := 0;
      while i < SLOTS
        invariant 0 <= i <= SLOTS && a == slots[..]
        invariant UnionUpTo(a, epoch, i, u)
      {
        var s := slots[i];
        assert a[i] == s;
        UnionStep(a, epoch, i, u);
        if s.key != 0 && !IsWasm(s.key) && s.epoch == epoch {
          u := Or(u, s.tag);
        }
        i := i + 1;
      }
      UnionDone(a, hash, epoch, live, u);
    }

    /** Any sequential run behaves as the map that each compacting GC wipes: it ends in
        the map's state, every read returns the map's answer, and a store is dropped only when its key is
        new and a probe window's worth of keys is live. */
    method Replay(ops: seq<Op>) returns (got: seq<Tag>, ghost accepted: seq<bool>)
      requires Valid() && forall i :: 0 <= i < |ops| ==> OpOk(ops[i])
      modifies this, slots
      ensures Valid() && |accepted| == |ops|
      ensures live == RunMap(old(live), ops, accepted)
      ensures got == RunReads(old(live), ops, accepted)
      ensures dropped == old(dropped) + Rejections(accepted)
      ensures Explained(old(live), ops, accepted)
      ensures |old(live).Keys + StoredKeys(ops)| < MAX_PROBE ==> forall i :: 0 <= i < |ops| ==> accepted[i]
    {
      hide TableOk, Explained, WindowFull, CompositeKey, RunMap, RunReads, Rejections, StoredKeys, Lookup;
      got, accepted := [], [];
      NothingRun(live);
      var n := 0;
      while n < |ops|
        invariant 0 <= n <= |ops| && Valid() && |accepted| == n
        invariant live == RunMap(old(live), ops[..n], accepted)
        invariant got == RunReads(old(live), ops[..n], accepted)
        invariant dropped == old(dropped) + Rejections(accepted)
        invariant Explained(old(live), ops[..n], accepted)
      {
        ghost var ok := true;
        ghost var before := live;
        assert OpOk(ops[n]);
        match ops[n] {
          case OpSet(s, k, t) => ok := Set(s, k, t);
          case OpGet(s, k) => var t := Get(s, k); got := got + [t];
          case OpPropagate(d, dk, s, sk) => ok := Propagate(d, dk, s, sk);
          case OpClear(s, k) => Clear(s, k);
          case OpGC(c) => OnGCEpilogue(c);
        }
        RunPush(old(live), ops, accepted, n, ok);
        ExplainedPush(old(live), ops, accepted, n, ok);
        accepted := accepted + [ok];
        n := n + 1;
      }
      assert ops[..n] == ops;
      if |old(live).Keys + StoredKeys(ops)| < MAX_PROBE {
        FewKeysAccepted(old(live), ops, accepted);
      }
    }
  }

  lemma NothingRun(m: TagMap)
    ensures RunMap(m, [], []) == m && RunReads(m, [], []) == [] && Rejections([]) == 0 && Explained(m, [], [])
  {
  }

  lemma RunPush(m: TagMap, ops: seq<Op>, accepted: seq<bool>, n: nat, ok: bool)
    requires n < |ops| && |accepted| == n && forall i :: 0 <= i < |ops| ==> OpOk(ops[i])
    ensures var before := RunMap(m, ops[..n], accepted);
            && RunMap(m, ops[..n + 1], accepted + [ok]) == Step(before, ops[n], ok)
            && RunReads(m, ops[..n + 1], accepted + [ok])
               == RunReads(m, ops[..n], accepted)
                  + (if ops[n].OpGet? then [Lookup(before, CompositeKey(ops[n].space, ops[n].key))] else [])
    ensures Rejections(accepted + [ok]) == Rejections(accepted) + if ok then 0 else 1
  {
    hide Step, Lookup, CompositeKey;
    assert ops[..n + 1][..n] == ops[..n] && (accepted + [ok])[..n] == accepted;
  }

  lemma SmallKeysOk(ops: seq<Op>)
    requires forall i :: 0 <= i < |ops| ==> SmallKeys(ops[i])
    ensures forall i :: 0 <= i < |ops| ==> OpOk(ops[i])
  {
    forall i | 0 <= i < |ops|
      ensures OpOk(ops[i])
    {
      assert SmallKeys(ops[i]);
    }
  }

  /** A fresh table under any operations on addresses below 2^61: every read returns what the map over
      (space, address) holds, tag by tag what was brought to the place and not taken away since, and with few places
      stored under no store is dropped. */
  method Session(hash: nat -> nat, ops: seq<Op>) returns (table: Table, got: seq<Tag>, ghost accepted: seq<bool>)
    requires forall i :: 0 <= i < |ops| ==> SmallKeys(ops[i])
    ensures fresh(table) && table.Valid() && |accepted| == |ops|
    ensures got == PlaceReads(map[], ops, accepted)
    ensures SamePlaces(table.live, PlaceRun(map[], ops, accepted))
    ensures forall n, b :: 0 <= n < |ops| && ops[n].OpGet? ==> ReadsHistory(ops, accepted, got, n, b)
    ensures (forall i :: 0 <= i < |ops| ==> OpOk(ops[i])) &&
            (|StoredKeys(ops)| < MAX_PROBE ==> forall i :: 0 <= i < |ops| ==> accepted[i])
  {
    hide SmallKeys, OpOk, SamePlaces, PlaceRun, PlaceReads, RunMap, RunReads, Explained, StoredKeys;
    SmallKeysOk(ops);
    table := new Table(hash);
    assert table.live.Keys + StoredKeys(ops) == StoredKeys(ops);
    got, accepted := table.Replay(ops);
    NothingTainted();
    RunByPlace(map[], map[], ops, accepted);
    forall n, b | 0 <= n < |ops| && ops[n].OpGet?
      ensures ReadsHistory(ops, accepted, got, n, b)
    {
      ReadsAreHistory(ops, accepted, got, n, b);
    }
  }
}
