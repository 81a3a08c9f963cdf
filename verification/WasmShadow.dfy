/** The wasm shadow memory of patches/0028-v8-wasm-shadow-memory.patch: one marker byte per
    byte of linear memory, kept in a 64-slot table keyed by base address. Slots are freed
    with a tombstone when a memory moves, and their marker regions are used again. */
module WasmShadow {
  import opened Bytes

  const SLOTS: nat := 64            // kMaxTracked
  const MAX_SHADOW: nat := 0x1000_0000 // kMaxShadowBytes
  const MAX_BULK: nat := 0x80_0000   // kMaxBulkBytes
  const MIGRATE_CAP: nat := 0x200_0000 // kMigrateCapBytes
  const NULL: nat := 0
  const TOMBSTONE: nat := 1

  /** A table slot as a value. `region` is None until the slot is first mapped; then it stays. */
  datatype Slot = Slot(region: Option<seq<byte>>, len: nat, id: nat, dirty: bool)

  type Mems = map<nat, seq<byte>>

  function Min(a: nat, b: nat): (r: nat) {
    if a < b then a else b
  }

  function Fill(n: nat, v: byte): (s: seq<byte>)
    ensures |s| == n
  {
    seq(n, _ => v)
  }

  /** `s` with `piece` written at `off` (memset, memmove). */
  function Overlay(s: seq<byte>, off: nat, piece: seq<byte>): (r: seq<byte>)
    requires off + |piece| <= |s|
    ensures |r| == |s|
    ensures forall k :: 0 <= k < |s| ==> r[k] == if off <= k < off + |piece| then piece[k - off] else s[k]
  {
    s[..off] + piece + s[off + |piece|..]
  }

  // ---------------------------------------------------------------------
  // Reference model: markers per memory.
  // ---------------------------------------------------------------------

  /** The marked range an access of `n` bytes at `off` really covers, 0 if none. */
  function Reach(m: Mems, id: nat, off: nat, n: nat): (r: nat) {
    if id in m && off < |m[id]| then Min(n, |m[id]| - off) else 0
  }

  ghost function AfterWrite(m: Mems, id: nat, off: nat, n: nat): (r: Mems) {
    var k := Reach(m, id, off, n);
    if k == 0 then m else m[id := Overlay(m[id], off, Fill(k, 1))]
  }

  /** Copied bytes bring their markers along; ranges may overlap. */
  ghost function AfterCopy(m: Mems, dst: nat, dOff: nat, src: nat, sOff: nat, n: nat): (r: Mems) {
    var k := Min(Reach(m, dst, dOff, n), Reach(m, src, sOff, n));
    if k == 0 then m else m[dst := Overlay(m[dst], dOff, m[src][sOff..sOff + k])]
  }

  /** Grown bytes start unmarked; a memory never shrinks. */
  ghost function Grown(s: seq<byte>, n: nat): (r: seq<byte>) {
    if n > |s| && Min(n, MAX_SHADOW) >= |s| then s + Fill(Min(n, MAX_SHADOW) - |s|, 0) else s
  }

  ghost function AfterAlloc(m: Mems, id: nat, n: nat): (r: Mems) {
    if id == NULL then m
    else if id in m then m[id := Grown(m[id], n)]
    else if |m| == SLOTS then m
    else m[id := Fill(Min(n, MAX_SHADOW), 0)]
  }

  ghost function AfterGrow(m: Mems, id: nat, n: nat): (r: Mems) {
    if id in m then m[id := Grown(m[id], n)] else m
  }

  /** A memory moves to a new base: its markers, up to the migration cap, overlay those the
      new base already has, and the old base is forgotten. */
  ghost function AfterReKey(m: Mems, old_: nat, new_: nat, n: nat): (r: Mems) {
    if new_ == NULL || (new_ !in m && |m| == SLOTS) then m else
      var base := if new_ in m then Grown(m[new_], n) else Fill(Min(n, MAX_SHADOW), 0);
      if old_ !in m then m[new_ := base] else
        var k := Min(Min(|m[old_]|, |base|), MIGRATE_CAP);
        (m - {old_})[new_ := Overlay(base, 0, m[old_][..k])]
  }

  datatype Staged = Nothing | Copy(dst: nat, dOff: nat, src: nat, sOff: nat, len: nat)
                  | FillOp(dst: nat, dOff: nat, len: nat) | Init(dst: nat, dOff: nat, len: nat)

  ghost function AfterCommit(m: Mems, s: Staged): (r: Mems) {
    match s
    case Nothing => m
    case Copy(d, dOff, src, sOff, n) => AfterCopy(m, d, dOff, src, sOff, n)
    case FillOp(d, off, n) => AfterWrite(m, d, off, n)
    case Init(d, off, n) => AfterWrite(m, d, off, n)
  }

  /** Some byte of the range was marked. */
  ghost predicate Marked(s: seq<byte>, off: nat, n: nat)
    requires off + n <= |s|
  {
    exists k :: off <= k < off + n && s[k] != 0
  }

  // ---------------------------------------------------------------------
  // Table invariant.
  // ---------------------------------------------------------------------

  function Pos(hash: nat -> nat, id: nat, p: nat): (i: nat)
    ensures i < SLOTS
  {
    (hash(id) % SLOTS + p) % SLOTS
  }

  lemma PosCovers(hash: nat -> nat, id: nat, i: nat) returns (p: nat)
    requires i < SLOTS
    ensures p < SLOTS && Pos(hash, id, p) == i
  {
    var h := hash(id) % SLOTS;
    p := if i >= h then i - h else i + SLOTS - h;
    assert (h + p) % SLOTS == i;
  }

  ghost predicate FoundAt(a: seq<Slot>, hash: nat -> nat, id: nat, p: nat)
    requires |a| == SLOTS
  {
    p < SLOTS && a[Pos(hash, id, p)].id == id && forall q :: 0 <= q < p ==> a[Pos(hash, id, q)].id != NULL
  }

  ghost predicate Reachable(a: seq<Slot>, hash: nat -> nat, i: nat)
    requires |a| == SLOTS && i < SLOTS
  {
    exists p: nat :: FoundAt(a, hash, a[i].id, p) && Pos(hash, a[i].id, p) == i
  }

  ghost predicate Taken(s: Slot) {
    s.id > TOMBSTONE
  }

  /** Markers beyond `len` are zero; a free slot is all zero; an unmapped slot was never used. */
  ghost predicate SlotOk(s: Slot) {
    && (s.region.None? ==> s.id == NULL && s.len == 0 && !s.dirty)
    && (s.region.Some? ==> |s.region.value| == MAX_SHADOW && s.len <= MAX_SHADOW && s.id != NULL
                           && forall k :: s.len <= k < MAX_SHADOW ==> s.region.value[k] == 0)
    && (!Taken(s) ==> s.len == 0)
  }

  ghost predicate UniqueIds(a: seq<Slot>) {
    forall i, j :: 0 <= i < j < |a| && Taken(a[i]) ==> a[i].id != a[j].id
  }

  ghost predicate AllReachable(a: seq<Slot>, hash: nat -> nat)
    requires |a| == SLOTS
  {
    forall i :: 0 <= i < SLOTS && Taken(a[i]) ==> Reachable(a, hash, i)
  }

  ghost function MarkersOf(s: Slot): (r: seq<byte>)
    requires SlotOk(s) && Taken(s)
  {
    s.region.value[..s.len]
  }

  ghost predicate HoldsId(a: seq<Slot>, id: nat) {
    exists i :: 0 <= i < |a| && a[i].id == id
  }

  ghost predicate Represents(a: seq<Slot>, m: Mems)
    requires forall i :: 0 <= i < |a| ==> SlotOk(a[i])
  {
    && (forall i :: 0 <= i < |a| && Taken(a[i]) ==> a[i].id in m && m[a[i].id] == MarkersOf(a[i]))
    && (forall id :: id in m ==> id > TOMBSTONE && HoldsId(a, id))
  }

  ghost predicate TableOk(a: seq<Slot>, hash: nat -> nat, m: Mems) {
    && |a| == SLOTS
    && (forall i :: 0 <= i < |a| ==> SlotOk(a[i]))
    && UniqueIds(a)
    && AllReachable(a, hash)
    && Represents(a, m)
  }

  // ---------------------------------------------------------------------
  // Occupancy.
  // ---------------------------------------------------------------------

  ghost function Occupied(a: seq<Slot>): (r: nat) {
    if a == [] then 0 else Occupied(a[..|a| - 1]) + if Taken(a[|a| - 1]) then 1 else 0
  }

  ghost function IdsOf(a: seq<Slot>): (r: set<nat>) {
    if a == [] then {} else IdsOf(a[..|a| - 1]) + if Taken(a[|a| - 1]) then {a[|a| - 1].id} else {}
  }

  lemma {:induction false} IdsOfIff(a: seq<Slot>, id: nat)
    ensures id in IdsOf(a) <==> id > TOMBSTONE && HoldsId(a, id)
  {
    if a == [] {
    } else {
      var n := |a| - 1;
      IdsOfIff(a[..n], id);
      if HoldsId(a[..n], id) {
        var i :| 0 <= i < n && a[..n][i].id == id;
        assert a[i].id == id;
      }
      if HoldsId(a, id) {
        var i :| 0 <= i < |a| && a[i].id == id;
        if i < n {
          assert a[..n][i].id == id;
        }
      }
    }
  }

  lemma LastIsNew(a: seq<Slot>)
    requires UniqueIds(a) && a != []
    ensures UniqueIds(a[..|a| - 1])
    ensures Taken(a[|a| - 1]) ==> a[|a| - 1].id !in IdsOf(a[..|a| - 1])
  {
    hide IdsOf;
    var b := a[..|a| - 1];
    assert forall i :: 0 <= i < |b| ==> b[i] == a[i];
    IdsOfIff(b, a[|a| - 1].id);
  }

  ghost predicate AllTaken(a: seq<Slot>) {
    forall i :: 0 <= i < |a| ==> Taken(a[i])
  }

  lemma AllTakenPush(a: seq<Slot>)
    requires a != []
    ensures AllTaken(a) <==> AllTaken(a[..|a| - 1]) && Taken(a[|a| - 1])
  {
    hide Taken;
    var b := a[..|a| - 1];
    assert forall i :: 0 <= i < |b| ==> b[i] == a[i];
  }

  lemma {:induction false} IdsCount(a: seq<Slot>)
    requires UniqueIds(a)
    ensures |IdsOf(a)| == Occupied(a) <= |a|
    ensures Occupied(a) == |a| <==> AllTaken(a)
  {
    if a == [] {
    } else {
      hide UniqueIds, AllTaken, Taken;
      LastIsNew(a);
      AllTakenPush(a);
      IdsCount(a[..|a| - 1]);
    }
  }

  /** The table is full exactly when 64 memories are live. */
  lemma FullIff(a: seq<Slot>, hash: nat -> nat, m: Mems)
    requires TableOk(a, hash, m)
    ensures |m| <= SLOTS
    ensures |m| == SLOTS <==> forall i :: 0 <= i < SLOTS ==> Taken(a[i])
  {
    hide AllReachable, SlotOk;
    IdsCount(a);
    forall id
      ensures id in m.Keys <==> id in IdsOf(a)
    {
      IdsOfIff(a, id);
    }
    assert m.Keys == IdsOf(a);
  }

  lemma WhereIs(a: seq<Slot>, hash: nat -> nat, j: nat) returns (p: nat)
    requires |a| == SLOTS && AllReachable(a, hash) && j < SLOTS && Taken(a[j])
    ensures FoundAt(a, hash, a[j].id, p) && Pos(hash, a[j].id, p) == j
  {
    assert Reachable(a, hash, j);
    p :| FoundAt(a, hash, a[j].id, p) && Pos(hash, a[j].id, p) == j;
  }

  /** A null slot ends the search. */
  lemma NullEndsProbe(a: seq<Slot>, hash: nat -> nat, m: Mems, id: nat, p: nat)
    requires TableOk(a, hash, m) && p < SLOTS && id > TOMBSTONE
    requires forall q :: 0 <= q < p ==> a[Pos(hash, id, q)].id != id
    requires a[Pos(hash, id, p)].id == NULL
    ensures id !in m
  {
    forall j | 0 <= j < SLOTS
      ensures a[j].id != id
    {
      if Taken(a[j]) {
        var q := WhereIs(a, hash, j);
        assert q < p || q == p || p < q;
      }
    }
  }

  lemma AbsentAfterAll(a: seq<Slot>, hash: nat -> nat, m: Mems, id: nat)
    requires TableOk(a, hash, m) && id > TOMBSTONE
    requires forall q :: 0 <= q < SLOTS ==> a[Pos(hash, id, q)].id != id
    ensures id !in m
  {
    forall j | 0 <= j < SLOTS
      ensures a[j].id != id
    {
      var q := PosCovers(hash, id, j);
    }
  }

  /** Where a new memory may be put: a first null slot of the probe path, or a tombstone
      when the table has no null slot. */
  ghost predicate ClaimTarget(a: seq<Slot>, hash: nat -> nat, id: nat, i: nat)
    requires |a| == SLOTS && i < SLOTS
  {
    !Taken(a[i]) &&
    exists p: nat :: p < SLOTS && Pos(hash, id, p) == i && forall q :: 0 <= q < p ==> a[Pos(hash, id, q)].id != NULL
  }

  lemma ClaimedReachable(a: seq<Slot>, hash: nat -> nat, id: nat, i: nat, s: Slot)
    requires |a| == SLOTS && AllReachable(a, hash) && id > TOMBSTONE && i < SLOTS && ClaimTarget(a, hash, id, i)
    requires s.id == id
    ensures AllReachable(a[i := s], hash)
  {
    var b := a[i := s];
    forall j | 0 <= j < SLOTS && Taken(b[j])
      ensures Reachable(b, hash, j)
    {
      if j != i {
        var p := WhereIs(a, hash, j);
        assert FoundAt(b, hash, b[j].id, p);
      } else {
        var p: nat :| p < SLOTS && Pos(hash, id, p) == i && forall q :: 0 <= q < p ==> a[Pos(hash, id, q)].id != NULL;
        assert FoundAt(b, hash, id, p);
      }
    }
  }

  /** Changing a taken slot, keeping its id or leaving a tombstone, breaks no probe path. */
  lemma ChangedReachable(a: seq<Slot>, hash: nat -> nat, i: nat, s: Slot)
    requires |a| == SLOTS && AllReachable(a, hash) && i < SLOTS && Taken(a[i])
    requires s.id == a[i].id || s.id == TOMBSTONE
    ensures AllReachable(a[i := s], hash)
  {
    var b := a[i := s];
    forall j | 0 <= j < SLOTS && Taken(b[j])
      ensures Reachable(b, hash, j)
    {
      var p := WhereIs(a, hash, j);
      assert FoundAt(b, hash, b[j].id, p);
    }
  }

  lemma Claimed(a: seq<Slot>, hash: nat -> nat, m: Mems, id: nat, i: nat, s: Slot)
    requires TableOk(a, hash, m) && id > TOMBSTONE && id !in m && i < SLOTS && ClaimTarget(a, hash, id, i)
    requires SlotOk(s) && s.id == id
    ensures TableOk(a[i := s], hash, m[id := MarkersOf(s)])
  {
    ClaimedReachable(a, hash, id, i, s);
    ReplaceHolds(a, m, i, s);
    hide AllReachable, HoldsId, ClaimTarget, SlotOk;
  }

  /** Changing a taken slot without changing its id. */
  lemma Updated(a: seq<Slot>, hash: nat -> nat, m: Mems, i: nat, s: Slot)
    requires TableOk(a, hash, m) && i < SLOTS && Taken(a[i]) && SlotOk(s) && s.id == a[i].id
    ensures TableOk(a[i := s], hash, m[s.id := MarkersOf(s)])
  {
    hide AllReachable, HoldsId, SlotOk;
    ChangedReachable(a, hash, i, s);
    ReplaceHolds(a, m, i, s);
  }

  lemma ReplaceHolds(a: seq<Slot>, m: Mems, i: nat, s: Slot)
    requires i < |a| && (!Taken(a[i]) || a[i].id == s.id) && forall id :: id in m ==> id > TOMBSTONE && HoldsId(a, id)
    requires Taken(s)
    ensures forall id :: id in m || id == s.id ==> HoldsId(a[i := s], id)
  {
    var b := a[i := s];
    forall id | id in m || id == s.id
      ensures HoldsId(b, id)
    {
      if id == s.id {
        assert b[i].id == id;
      } else {
        var j :| 0 <= j < |a| && a[j].id == id;
        assert b[j].id == id;
      }
    }
  }

  /** Freeing a slot with a tombstone. */
  lemma Freed(a: seq<Slot>, hash: nat -> nat, m: Mems, i: nat, s: Slot)
    requires TableOk(a, hash, m) && i < SLOTS && Taken(a[i]) && SlotOk(s) && s.id == TOMBSTONE
    ensures TableOk(a[i := s], hash, m - {a[i].id})
  {
    ChangedReachable(a, hash, i, s);
    forall id | id in m - {a[i].id}
      ensures HoldsId(a[i := s], id)
    {
      StillHeld(a, i, s, id);
    }
    hide AllReachable, HoldsId, SlotOk;
  }

  lemma StillHeld(a: seq<Slot>, i: nat, s: Slot, id: nat)
    requires i < |a| && HoldsId(a, id) && id != a[i].id
    ensures HoldsId(a[i := s], id)
  {
    var j :| 0 <= j < |a| && a[j].id == id;
    assert a[i := s][j].id == id;
  }

  lemma SlotAt(a: seq<Slot>, hash: nat -> nat, m: Mems, i: nat)
    requires TableOk(a, hash, m) && i < SLOTS
    ensures SlotOk(a[i])
    ensures Taken(a[i]) ==> a[i].id in m && m[a[i].id] == MarkersOf(a[i]) && |m[a[i].id]| == a[i].len
  {
  }

  /** `Publish`: sets the tracked length, clearing it first when the slot is dirty. */
  function Published(s: Slot, n: nat, mustZero: bool): (r: Slot)
    requires s.region.Some? && |s.region.value| == MAX_SHADOW
  {
    var len := Min(n, MAX_SHADOW);
    if mustZero && len > 0 then
      s.(region := Some(Overlay(s.region.value, 0, Fill(len, 0))), dirty := false, len := len)
    else s.(len := len)
  }

  /** `SlotMapping`: the region, mapped zero-filled on first use and kept ever after. */
  function Mapped(s: Slot): (r: Slot)
    ensures r.region.Some?
            && (s.region.None? ==> r == s.(region := Some(Fill(MAX_SHADOW, 0)), len := 0, dirty := false))
  {
    if s.region.Some? then s else s.(region := Some(Fill(MAX_SHADOW, 0)), len := 0, dirty := false)
  }

  lemma FreshSlot(s: Slot, id: nat, n: nat)
    requires SlotOk(s) && !Taken(s) && id > TOMBSTONE
    ensures |Mapped(s).region.value| == MAX_SHADOW
    ensures var r := Published(Mapped(s.(id := id)), n, s.dirty);
            SlotOk(r) && r.id == id && MarkersOf(r) == Fill(Min(n, MAX_SHADOW), 0)
  {
  }

  lemma GrownSlot(s: Slot, n: nat)
    requires SlotOk(s) && Taken(s) && n > s.len
    ensures SlotOk(Published(s, n, false)) && MarkersOf(Published(s, n, false)) == Grown(MarkersOf(s), n)
  {
  }

  lemma OverlaidSlot(s: Slot, off: nat, piece: seq<byte>, dirty: bool)
    requires SlotOk(s) && Taken(s) && off + |piece| <= s.len
    ensures var r := s.(region := Some(Overlay(s.region.value, off, piece)), dirty := dirty);
            SlotOk(r) && MarkersOf(r) == Overlay(MarkersOf(s), off, piece)
  {
  }

  lemma ClearedSlot(s: Slot, dirty: bool)
    requires SlotOk(s) && Taken(s)
    ensures SlotOk(Slot(Some(Overlay(s.region.value, 0, Fill(s.len, 0))), 0, TOMBSTONE, dirty))
  {
  }

  // ---------------------------------------------------------------------
  // The machine's memory: slot words, and one store in which every slot has its region.
  // ---------------------------------------------------------------------

  /** The words of a slot; its markers lie in the store, at a fixed place. */
  datatype Cell = Cell(mapped: bool, len: nat, id: nat, dirty: bool)

  const STORE: nat := SLOTS * MAX_SHADOW

  function RegionAt(store: seq<byte>, i: nat): (r: seq<byte>)
    requires |store| == STORE && i < SLOTS
    ensures |r| == MAX_SHADOW
  {
    store[i * MAX_SHADOW..(i + 1) * MAX_SHADOW]
  }

  ghost predicate MirrorsAt(cells: seq<Cell>, store: seq<byte>, table: seq<Slot>, i: nat)
    requires |cells| == |table| == SLOTS && |store| == STORE && i < SLOTS
  {
    var c := cells[i];
    && table[i] == Slot(if c.mapped then Some(RegionAt(store, i)) else None, c.len, c.id, c.dirty)
    && (!c.mapped ==> RegionAt(store, i) == Fill(MAX_SHADOW, 0))
  }

  /** The memory holds the table; a region not mapped yet reads as zeros, as fresh pages do. */
  ghost predicate Mirrors(cells: seq<Cell>, store: seq<byte>, table: seq<Slot>) {
    && |cells| == |table| == SLOTS && |store| == STORE
    && forall i :: 0 <= i < SLOTS ==> MirrorsAt(cells, store, table, i)
  }

  lemma Mirrored(cells: seq<Cell>, store: seq<byte>, table: seq<Slot>, i: nat)
    requires Mirrors(cells, store, table) && i < SLOTS
    ensures table[i].id == cells[i].id && table[i].len == cells[i].len && table[i].dirty == cells[i].dirty
    ensures table[i].region == if cells[i].mapped then Some(RegionAt(store, i)) else None
    ensures !cells[i].mapped ==> RegionAt(store, i) == Fill(MAX_SHADOW, 0)
  {
    hide RegionAt;
    assert MirrorsAt(cells, store, table, i);
  }

  lemma PieceOf(store: seq<byte>, r: nat, off: nat, n: nat)
    requires r < SLOTS && |store| == STORE && off + n <= MAX_SHADOW
    ensures r * MAX_SHADOW + off + n <= |store|
    ensures RegionAt(store, r)[off..off + n] == store[r * MAX_SHADOW + off..r * MAX_SHADOW + off + n]
  {
    SliceOfSlice(store, r * MAX_SHADOW, r * MAX_SHADOW + MAX_SHADOW, off, n);
  }

  lemma SliceOfSlice(s: seq<byte>, lo: nat, hi: nat, off: nat, n: nat)
    requires lo + off + n <= hi <= |s|
    ensures s[lo..hi][off..off + n] == s[lo + off..lo + off + n]
  {
    var a, b := s[lo..hi], s[lo + off..lo + off + n];
    forall k | 0 <= k < n
      ensures a[off..off + n][k] == b[k]
    {
      assert a[off..off + n][k] == a[off + k] && a[off + k] == s[lo + off + k];
    }
    assert a[off..off + n] == b;
  }

  /** Writing a slot's words; a slot mapped now finds its region zeroed. */
  lemma CellSet(cells: seq<Cell>, store: seq<byte>, table: seq<Slot>, r: nat, c: Cell)
    requires Mirrors(cells, store, table) && r < SLOTS && (cells[r].mapped ==> c.mapped)
    ensures Mirrors(cells[r := c], store, table[r := SlotOf(c, RegionAt(store, r))])
  {
    hide RegionAt;
    var cells', table' := cells[r := c], table[r := SlotOf(c, RegionAt(store, r))];
    forall i | 0 <= i < SLOTS
      ensures MirrorsAt(cells', store, table', i)
    {
      assert MirrorsAt(cells, store, table, i);
    }
  }

  function SlotOf(c: Cell, region: seq<byte>): (r: Slot) {
    Slot(if c.mapped then Some(region) else None, c.len, c.id, c.dirty)
  }

  /** Writing into one region changes that region only. */
  lemma StoreSet(cells: seq<Cell>, store: seq<byte>, table: seq<Slot>, r: nat, off: nat, piece: seq<byte>)
    requires Mirrors(cells, store, table) && r < SLOTS && cells[r].mapped && off + |piece| <= MAX_SHADOW
    ensures table[r].region.Some? && |table[r].region.value| == MAX_SHADOW
    ensures Mirrors(cells, Overlay(store, r * MAX_SHADOW + off, piece),
                    table[r := table[r].(region := Some(Overlay(table[r].region.value, off, piece)))])
  {
    Mirrored(cells, store, table, r);
    var store' := Overlay(store, r * MAX_SHADOW + off, piece);
    forall i | 0 <= i < SLOTS
      ensures RegionAt(store', i) == if i == r then Overlay(RegionAt(store, r), off, piece) else RegionAt(store, i)
    {
      RegionOverlay(store, r, off, piece, i);
    }
    hide RegionAt, Overlay;
    var table' := table[r := table[r].(region := Some(Overlay(table[r].region.value, off, piece)))];
    forall i | 0 <= i < SLOTS
      ensures MirrorsAt(cells, store', table', i)
    {
      assert MirrorsAt(cells, store, table, i);
    }
  }

  lemma RegionOverlay(store: seq<byte>, r: nat, off: nat, piece: seq<byte>, i: nat)
    requires |store| == STORE && r < SLOTS && i < SLOTS && off + |piece| <= MAX_SHADOW
    ensures RegionAt(Overlay(store, r * MAX_SHADOW + off, piece), i)
         == if i == r then Overlay(RegionAt(store, r), off, piece) else RegionAt(store, i)
  {
    var a, b := RegionAt(Overlay(store, r * MAX_SHADOW + off, piece), i), RegionAt(store, i);
    if i == r {
      var o := Overlay(RegionAt(store, r), off, piece);
      assert forall k :: 0 <= k < MAX_SHADOW ==> a[k] == o[k];
    } else {
      assert forall k :: 0 <= k < MAX_SHADOW ==> a[k] == b[k];
    }
  }

  /** `memset`. */
  method Memset(a: array<byte>, at: nat, n: nat, v: byte)
    requires at + n <= a.Length
    modifies a
    ensures a[..] == Overlay(old(a[..]), at, Fill(n, v))
  {
    var i := 0;
    while i < n
      invariant i <= n
      invariant forall k :: 0 <= k < a.Length ==> a[k] == if at <= k < at + i then v else old(a[k])
    {
      a[at + i] := v;
      i := i + 1;
    }
  }

  /** `memmove`: the ranges may overlap, so the direction of the copy depends on their order. */
  method Memmove(a: array<byte>, dst: nat, src: nat, n: nat)
    requires dst + n <= a.Length && src + n <= a.Length
    modifies a
    ensures a[..] == Overlay(old(a[..]), dst, old(a[src..src + n]))
  {
    if dst <= src {
      MoveUp(a, dst, src, n);
    } else {
      MoveDown(a, dst, src, n);
    }
  }

  method MoveUp(a: array<byte>, dst: nat, src: nat, n: nat)
    requires dst <= src && src + n <= a.Length
    modifies a
    ensures a[..] == Overlay(old(a[..]), dst, old(a[src..src + n]))
  {
    var i := 0;
    while i < n
      invariant i <= n
      invariant forall k :: dst <= k < dst + i ==> a[k] == old(a[k - dst + src])
      invariant forall k :: 0 <= k < a.Length && !(dst <= k < dst + i) ==> a[k] == old(a[k])
    {
      a[dst + i] := a[src + i];
      i := i + 1;
    }
  }

  method MoveDown(a: array<byte>, dst: nat, src: nat, n: nat)
    requires src <= dst && dst + n <= a.Length
    modifies a
    ensures a[..] == Overlay(old(a[..]), dst, old(a[src..src + n]))
  {
    var i: nat := n;
    while i > 0
      invariant i <= n
      invariant forall k :: dst + i <= k < dst + n ==> a[k] == old(a[k - dst + src])
      invariant forall k :: 0 <= k < a.Length && !(dst + i <= k < dst + n) ==> a[k] == old(a[k])
    {
      i := i - 1;
      a[dst + i] := a[src + i];
    }
  }

  // ---------------------------------------------------------------------
  // Motion facts.
  // ---------------------------------------------------------------------

  /** Offset, length and whether any byte of the range had been written before. */
  datatype Range = Range(off: nat, len: nat, was: bool)

  /** What the module records. A copy's `was` speaks of everything tracked in the source range, even where the
      destination is shorter. */
  datatype Motion =
    | Stored(r: Range) | Loaded(r: Range) | Filled(r: Range) | Inited(r: Range)
    | Copied(dOff: nat, sOff: nat, len: nat, was: bool)
    | ReKeyed(oldId: nat, id: nat, newLen: nat, migrated: nat, truncated: bool)

  /** The range a store, fill or init really touches. */
  ghost function Touched(m: Mems, id: nat, off: nat, n: nat): (r: Option<Range>) {
    var k := Reach(m, id, off, n);
    if k == 0 then None else Some(Range(off, k, Marked(m[id], off, k)))
  }

  ghost function CommitFact(m: Mems, s: Staged): (f: Option<Motion>) {
    match s
    case Nothing => None
    case Init(d, off, n) => if Touched(m, d, off, n).None? then None else Some(Inited(Touched(m, d, off, n).value))
    case FillOp(d, off, n) => if Touched(m, d, off, n).None? then None else Some(Filled(Touched(m, d, off, n).value))
    case Copy(d, dOff, src, sOff, n) =>
      var dk, sk := Reach(m, d, dOff, n), Reach(m, src, sOff, n);
      if dk == 0 || sk == 0 then None else Some(Copied(dOff, sOff, Min(dk, sk), Marked(m[src], sOff, sk)))
  }

  ghost function ReKeyFact(m: Mems, oldId: nat, newId: nat, n: nat): (f: Option<Motion>) {
    if newId == NULL || (newId !in m && |m| == SLOTS) then None
    else
      var k := if oldId in m then Min(|m[oldId]|, |Base(m, newId, n)|) else 0;
      Some(ReKeyed(oldId, newId, n, Min(k, MIGRATE_CAP), k > MIGRATE_CAP))
  }

  ghost function FactOf(m: Mems, staged: map<nat, Staged>, op: Op): (f: Option<Motion>) {
    match op
    case OpAlloc(_, _) => None
    case OpGrow(_, _) => None
    case OpReKey(o, id, n) => ReKeyFact(m, o, id, n)
    case OpStore(id, off, n) =>
      if Touched(m, id, off, n).None? then None else Some(Stored(Touched(m, id, off, n).value))
    case OpLoad(id, off, n) =>
      if Touched(m, id, off, n).Some? && Touched(m, id, off, n).value.was
      then Some(Loaded(Touched(m, id, off, n).value)) else None
    case OpStage(_, _) => None
    case OpCommit(t) => CommitFact(m, StagedOf(staged, t))
  }

  function Listed(f: Option<Motion>): (facts: seq<Motion>) {
    if f.None? then [] else [f.value]
  }

  /** The facts of a whole run, in order. */
  ghost function FactsOf(s: State, ops: seq<Op>): (facts: seq<Motion>) {
    if ops == [] then []
    else
      var n := |ops| - 1;
      var before := RunState(s, ops[..n]);
      FactsOf(s, ops[..n]) + Listed(FactOf(before.mems, before.staged, ops[n]))
  }


  class Shadow {
    const hash: nat -> nat
    const cells: array<Cell>
    const store: array<byte>
    var dropped: nat
    var live: nat
    var staged: map<nat, Staged>
    /** The table the memory holds, and the markers of each live memory. */
    ghost var table: seq<Slot>
    ghost var mems: Mems

    ghost predicate Wired()
      reads this`table, cells, store
    {
      cells.Length == SLOTS && store.Length == STORE && |table| == SLOTS && Mirrors(cells[..], store[..], table)
    }

    ghost predicate Valid()
      reads this, cells, store
    {
      Wired() && TableOk(table, hash, mems) && live == |mems|
    }

    constructor (hash: nat -> nat)
      ensures Valid() && mems == map[] && staged == map[] && fresh(cells) && fresh(store)
    {
      this.hash := hash;
      cells := new Cell[SLOTS](_ => Cell(false, 0, NULL, false));
      store := new byte[STORE](_ => 0);
      dropped, live, staged, mems := 0, 0, map[], map[];
      table := seq(SLOTS, _ => Slot(None, 0, NULL, false));
      new;
      forall i: nat | i < SLOTS
        ensures MirrorsAt(cells[..], store[..], table, i)
      {
        assert forall k :: 0 <= k < MAX_SHADOW ==> RegionAt(store[..], i)[k] == 0;
      }
    }

    // -- Words and markers of one slot.

    method SetCell(r: nat, c: Cell)
      requires Wired() && r < SLOTS && (cells[r].mapped ==> c.mapped)
      modifies cells, this`table
      ensures Wired() && cells[..] == old(cells[..])[r := c]
      ensures c.mapped ==>
                table == old(table)[r := Slot(Some(Mapped(old(table)[r]).region.value), c.len, c.id, c.dirty)]
      ensures !c.mapped ==> table == old(table)[r := Slot(None, c.len, c.id, c.dirty)]
    {
      hide Mirrors, RegionAt;
      Mirrored(cells[..], store[..], table, r);
      CellSet(cells[..], store[..], table, r, c);
      table := table[r := SlotOf(c, RegionAt(store[..], r))];
      cells[r] := c;
      assert cells[..] == old(cells[..])[r := c];
    }

    /** `memset` on a slot's region. */
    method SetMarkers(r: nat, off: nat, n: nat, v: byte)
      requires Wired() && r < SLOTS && cells[r].mapped && off + n <= MAX_SHADOW
      modifies store, this`table
      ensures Wired() && old(table)[r].region.Some? && |old(table)[r].region.value| == MAX_SHADOW
      ensures var was := old(table)[r];
              table == old(table)[r := was.(region := Some(Overlay(was.region.value, off, Fill(n, v))))]
    {
      hide Mirrors, RegionAt, Overlay;
      StoreSet(cells[..], store[..], table, r, off, Fill(n, v));
      table := table[r := table[r].(region := Some(Overlay(table[r].region.value, off, Fill(n, v))))];
      Memset(store, r * MAX_SHADOW + off, n, v);
    }

    /** `memmove` between regions, or within one. */
    method MoveMarkers(dr: nat, dOff: nat, sr: nat, sOff: nat, n: nat)
      requires Wired() && dr < SLOTS && sr < SLOTS && cells[dr].mapped && cells[sr].mapped
      requires dOff + n <= MAX_SHADOW && sOff + n <= MAX_SHADOW
      modifies store, this`table
      ensures Wired() && old(table)[dr].region.Some? && |old(table)[dr].region.value| == MAX_SHADOW
      ensures old(table)[sr].region.Some? && |old(table)[sr].region.value| == MAX_SHADOW
      ensures table == old(table)[dr := old(table)[dr].(region :=
                Some(Overlay(old(table)[dr].region.value, dOff, old(table)[sr].region.value[sOff..sOff + n])))]
    {
      hide Mirrors, Overlay;
      Mirrored(cells[..], store[..], table, sr);
      ghost var piece := table[sr].region.value[sOff..sOff + n];
      PieceOf(store[..], sr, sOff, n);
      StoreSet(cells[..], store[..], table, dr, dOff, piece);
      table := table[dr := table[dr].(region := Some(Overlay(table[dr].region.value, dOff, piece)))];
      Memmove(store, dr * MAX_SHADOW + dOff, sr * MAX_SHADOW + sOff, n);
    }

    /** `Publish`. */
    method Publish(r: nat, n: nat, mustZero: bool)
      requires Wired() && r < SLOTS && cells[r].mapped
      modifies cells, store, this`table, this`dropped
      ensures Wired() && old(table)[r].region.Some? && |old(table)[r].region.value| == MAX_SHADOW
      ensures table == old(table)[r := Published(old(table)[r], n, mustZero)]
    {
      hide Mirrors, RegionAt, Overlay;
      Mirrored(cells[..], store[..], table, r);
      var len := Min(n, MAX_SHADOW);
      if n > MAX_SHADOW {
        dropped := dropped + 1;
      }
      if mustZero && len > 0 {
        SetMarkers(r, 0, len, 0);
        Mirrored(cells[..], store[..], table, r);
        SetCell(r, cells[r].(dirty := false));
        Mirrored(cells[..], store[..], table, r);
      }
      SetCell(r, cells[r].(len := len));
    }

    // -- The operations.

    method FindEntry(id: nat) returns (r: int)
      requires Valid() && id != TOMBSTONE
      ensures r != -1 ==> 0 <= r < SLOTS && table[r].id == id
      ensures id != NULL ==> (r != -1 <==> id in mems)
    {
      hide Mirrors, AllReachable, UniqueIds, SlotOk, Represents;
      var p := 0;
      while p < SLOTS
        invariant 0 <= p <= SLOTS
        invariant forall q :: 0 <= q < p ==> table[Pos(hash, id, q)].id != id
      {
        var i := Pos(hash, id, p);
        var k := cells[i].id;
        Mirrored(cells[..], store[..], table, i);
        if k == id {
          if id != NULL {
            SlotAt(table, hash, mems, i);
          }
          return i;
        }
        if k == NULL {
          NullEndsProbe(table, hash, mems, id, p);
          return -1;
        }
        p := p + 1;
      }
      if id != NULL {
        AbsentAfterAll(table, hash, mems, id);
      }
      return -1;
    }

    /** The search of `ClaimSlot` for a memory that has no slot yet. */
    method PickSlot(id: nat) returns (r: int)
      requires Valid() && id > TOMBSTONE && id !in mems
      ensures r == -1 <==> |mems| == SLOTS
      ensures r != -1 ==> 0 <= r < SLOTS && ClaimTarget(table, hash, id, r)
    {
      hide Mirrors, AllReachable, UniqueIds, SlotOk;
      FullIff(table, hash, mems);
      var reuse := -1;
      ghost var at: nat := 0;
      var p := 0;
      while p < SLOTS
        invariant 0 <= p <= SLOTS
        invariant forall q :: 0 <= q < p ==> table[Pos(hash, id, q)].id != NULL
        invariant reuse == -1 ==> forall q :: 0 <= q < p ==> Taken(table[Pos(hash, id, q)])
        invariant reuse != -1 ==> at < p && reuse == Pos(hash, id, at) && table[reuse].id == TOMBSTONE
      {
        var i := Pos(hash, id, p);
        var k := cells[i].id;
        Mirrored(cells[..], store[..], table, i);
        if k == NULL {
          return i;
        }
        if k == TOMBSTONE && reuse == -1 {
          reuse, at := i, p;
        }
        p := p + 1;
      }
      if reuse == -1 {
        forall j | 0 <= j < SLOTS
          ensures Taken(table[j])
        {
          var q := PosCovers(hash, id, j);
        }
      }
      return reuse;
    }

    /** Claims, maps and publishes a slot for a new memory. */
    method Open(id: nat, n: nat) returns (r: int)
      requires Valid() && id > TOMBSTONE && id !in mems
      modifies cells, store, this`table, this`mems, this`live, this`dropped
      ensures Valid()
      ensures r == -1 <==> |old(mems)| == SLOTS
      ensures r == -1 ==> mems == old(mems) && table == old(table)
      ensures r != -1 ==> 0 <= r < SLOTS && table[r].id == id && mems == old(mems)[id := Fill(Min(n, MAX_SHADOW), 0)]
      ensures r != -1 ==> !Taken(old(table)[r]) && table == old(table)[r := table[r]]
    {
      hide Mirrors, TableOk, ClaimTarget, SlotOk, MarkersOf, Mapped, Published;
      r := PickSlot(id);
      if r == -1 {
        dropped := dropped + 1;
        return;
      }
      ghost var a := table;
      SlotAt(a, hash, mems, r);
      TargetFree(a, hash, id, r);
      FreshSlot(a[r], id, n);
      Mirrored(cells[..], store[..], table, r);
      UnmappedIff(a[r]);
      var mustZero := cells[r].dirty;
      MapCell(r, id);
      Publish(r, n, mustZero);
      live := live + 1;
      ghost var s := Published(Mapped(a[r].(id := id)), n, mustZero);
      assert table == a[r := s];
      Claimed(a, hash, mems, id, r, s);
      mems := mems[id := Fill(Min(n, MAX_SHADOW), 0)];
    }

    /** Claiming a free slot and `SlotMapping`. */
    method MapCell(r: nat, id: nat)
      requires Wired() && r < SLOTS && SlotOk(table[r])
      modifies cells, this`table
      ensures Wired() && table == old(table)[r := Mapped(old(table)[r].(id := id))] && cells[r].mapped
    {
      hide Mirrors, SlotOk;
      Mirrored(cells[..], store[..], table, r);
      SetCell(r, cells[r].(id := id));
      Mirrored(cells[..], store[..], table, r);
      if !cells[r].mapped {
        SetCell(r, Cell(true, 0, cells[r].id, false));
      }
    }

    /** Publishes a larger length for a live slot. */
    method Extend(r: nat, n: nat)
      requires Valid() && r < SLOTS && Taken(table[r]) && table[r].id in mems
      modifies cells, store, this`table, this`mems, this`dropped
      ensures Valid() && table[r].id == old(table)[r].id
      ensures mems == old(mems)[table[r].id := Grown(old(mems)[table[r].id], n)]
      ensures table == old(table)[r := table[r]]
    {
      hide Mirrors, TableOk, SlotOk;
      ghost var a, id := table, table[r].id;
      SlotAt(a, hash, mems, r);
      Mirrored(cells[..], store[..], table, r);
      if n > cells[r].len {
        RegionSize(a[r]);
        GrownSlot(a[r], n);
        Publish(r, n, false);
        Updated(a, hash, mems, r, Published(a[r], n, false));
        mems := mems[id := Grown(mems[id], n)];
      } else {
        assert Grown(mems[id], n) == mems[id];
        assert mems[id := mems[id]] == mems;
      }
    }

    method ShadowAlloc(id: nat, n: nat) returns (ok: bool)
      requires Valid() && id != TOMBSTONE
      modifies cells, store, this`table, this`mems, this`live, this`dropped
      ensures Valid() && mems == AfterAlloc(old(mems), id, n)
      ensures ok <==> id in mems
    {
      hide Wired, TableOk;
      if id == NULL {
        NullAbsent(table, hash, mems);
        return false;
      }
      var e := FindEntry(id);
      if e != -1 {
        Sized();
        Extend(e, n);
        return true;
      }
      var r := Open(id, n);
      ok := r != -1;
    }

    lemma Sized()
      requires Valid()
      ensures |table| == SLOTS
    {
    }

    method ShadowGrow(id: nat, n: nat)
      requires Valid() && id != TOMBSTONE
      modifies cells, store, this`table, this`mems, this`dropped
      ensures Valid() && mems == AfterGrow(old(mems), id, n)
    {
      hide TableOk, Mirrors;
      if id == NULL {
        NullAbsent(table, hash, mems);
        return;
      }
      var e := FindEntry(id);
      if e != -1 {
        Extend(e, n);
      }
    }

    /** The table after slot `r` got the markers `piece` at `off`, and is dirty. */
    lemma OverlaidKeeps(a: seq<Slot>, r: nat, off: nat, piece: seq<byte>)
      requires |a| == SLOTS && TableOk(a, hash, mems) && r < SLOTS && Taken(a[r]) && off + |piece| <= a[r].len
      ensures a[r].region.Some? && |a[r].region.value| == MAX_SHADOW && a[r].len <= MAX_SHADOW
      ensures a[r].id in mems && |mems[a[r].id]| == a[r].len
      ensures TableOk(a[r := a[r].(region := Some(Overlay(a[r].region.value, off, piece)), dirty := true)], hash,
                      mems[a[r].id := Overlay(mems[a[r].id], off, piece)])
    {
      hide TableOk, SlotOk, MarkersOf, Overlay;
      SlotAt(a, hash, mems, r);
      RegionSize(a[r]);
      OverlaidSlot(a[r], off, piece, true);
      Updated(a, hash, mems, r, a[r].(region := Some(Overlay(a[r].region.value, off, piece)), dirty := true));
    }

    /** `memset` to 1 and `MarkDirty`. */
    method MarkRange(r: nat, off: nat, n: nat)
      requires Valid() && r < SLOTS && Taken(table[r]) && off + n <= table[r].len
      modifies cells, store, this`table, this`mems
      ensures Valid() && table[r].id in old(mems) && table[r].id == old(table)[r].id
      ensures |old(mems)[table[r].id]| == old(table)[r].len
      ensures mems == old(mems)[table[r].id := Overlay(old(mems)[table[r].id], off, Fill(n, 1))]
    {
      hide Mirrors, TableOk, Overlay;
      ghost var a, id := table, table[r].id;
      OverlaidKeeps(a, r, off, Fill(n, 1));
      Mirrored(cells[..], store[..], table, r);
      SetMarkers(r, off, n, 1);
      Mirrored(cells[..], store[..], table, r);
      SetCell(r, cells[r].(dirty := true));
      assert table == a[r := a[r].(region := Some(Overlay(a[r].region.value, off, Fill(n, 1))), dirty := true)];
      mems := mems[id := Overlay(mems[id], off, Fill(n, 1))];
      assert Wired();
      assert TableOk(table, hash, mems);
    }

    /** `memmove` of markers and `MarkDirty`. */
    method CopyRange(dr: nat, dOff: nat, sr: nat, sOff: nat, n: nat)
      requires Valid() && dr < SLOTS && sr < SLOTS && Taken(table[dr]) && Taken(table[sr])
      requires dOff + n <= table[dr].len && sOff + n <= table[sr].len
      modifies cells, store, this`table, this`mems
      ensures Valid() && table == old(table)[dr := table[dr]]
      ensures table[dr].id == old(table)[dr].id && table[dr].len == old(table)[dr].len
      ensures mems == Carried(old(mems), old(table)[dr].id, dOff, old(table)[sr].id, sOff, n)
    {
      hide Mirrors, TableOk, Overlay, SlotOk;
      ghost var a, id := table, table[dr].id;
      SlotAt(a, hash, mems, sr);
      MarkersAre(a[sr]);
      RegionSize(a[sr]);
      ghost var piece := a[sr].region.value[sOff..sOff + n];
      assert mems[a[sr].id] == a[sr].region.value[..a[sr].len];
      assert a[sr].region.value[..a[sr].len][sOff..sOff + n] == piece;
      OverlaidKeeps(a, dr, dOff, piece);
      Mirrored(cells[..], store[..], table, sr);
      Mirrored(cells[..], store[..], table, dr);
      MoveMarkers(dr, dOff, sr, sOff, n);
      Mirrored(cells[..], store[..], table, dr);
      SetCell(dr, cells[dr].(dirty := true));
      assert table == a[dr := a[dr].(region := Some(Overlay(a[dr].region.value, dOff, piece)), dirty := true)];
      mems := mems[id := Overlay(mems[id], dOff, piece)];
      assert Wired();
      assert TableOk(table, hash, mems);
    }

    method MarkClean(r: nat)
      requires Valid() && r < SLOTS && Taken(table[r])
      modifies cells, this`table
      ensures Valid() && table == old(table)[r := table[r]]
      ensures table[r].id == old(table)[r].id && table[r].len == old(table)[r].len
    {
      hide Mirrors, TableOk, SlotOk, MarkersOf;
      ghost var a := table;
      SlotAt(a, hash, mems, r);
      CleanSlot(a[r]);
      RegionSize(a[r]);
      Mirrored(cells[..], store[..], table, r);
      SetCell(r, cells[r].(dirty := false));
      Updated(a, hash, mems, r, table[r]);
      assert mems[table[r].id := MarkersOf(table[r])] == mems;
    }

    /** Clears a slot's markers and leaves a tombstone. */
    method FreeSlot(r: nat)
      requires Valid() && r < SLOTS && Taken(table[r])
      modifies cells, store, this`table, this`mems, this`live
      ensures Valid() && old(table)[r].id in old(mems) && mems == old(mems) - {old(table)[r].id}
    {
      hide Mirrors, TableOk, SlotOk, MarkersOf, Overlay;
      ghost var a, id := table, table[r].id;
      SlotAt(a, hash, mems, r);
      RegionSize(a[r]);
      ClearedSlot(a[r], a[r].dirty);
      OverlayNothing(a[r].region.value);
      Mirrored(cells[..], store[..], table, r);
      if cells[r].len > 0 {
        SetMarkers(r, 0, cells[r].len, 0);
      }
      Mirrored(cells[..], store[..], table, r);
      SetCell(r, cells[r].(len := 0));
      Mirrored(cells[..], store[..], table, r);
      SetCell(r, cells[r].(id := TOMBSTONE));
      Freed(a, hash, mems, r, table[r]);
      assert table == a[r := table[r]];
      mems := mems - {id};
      live := live - 1;
    }

    /** Finds or opens the slot of `newId` and makes it at least `n` long. */
    method OpenOrExtend(newId: nat, n: nat) returns (r: int)
      requires Valid() && newId > TOMBSTONE
      modifies cells, store, this`table, this`mems, this`live, this`dropped
      ensures Valid()
      ensures r == -1 <==> newId !in old(mems) && |old(mems)| == SLOTS
      ensures r == -1 ==> mems == old(mems)
      ensures r != -1 ==> 0 <= r < SLOTS && table[r].id == newId
      ensures r != -1 ==> mems == old(mems)[newId := Base(old(mems), newId, n)]
      ensures r != -1 ==> table == old(table)[r := table[r]] && (Taken(old(table)[r]) ==> old(table)[r].id == newId)
    {
      hide Mirrors, TableOk, SlotOk, MarkersOf;
      r := FindEntry(newId);
      if r == -1 {
        r := Open(newId, n);
      } else {
        Extend(r, n);
      }
    }

    /** Lays the first `oldLen` markers of slot `oldE` over those of `newE`, then frees `oldE`. */
    method Migrate(oldE: nat, newE: nat, oldLen: nat) returns (migrated: nat, truncated: bool)
      requires Valid() && oldE < SLOTS && newE < SLOTS && Taken(table[oldE]) && Taken(table[newE])
      requires oldLen <= table[oldE].len && table[oldE].id in mems && table[newE].id in mems
      requires oldLen <= |mems[table[oldE].id]|
      modifies cells, store, this`table, this`mems, this`live, this`dropped
      ensures Valid()
      ensures mems == Moved(old(mems), old(table)[oldE].id, old(table)[newE].id,
                            old(mems)[old(table)[oldE].id][..oldLen], oldE == newE)
      ensures var k := Min(oldLen, |old(mems)[old(table)[newE].id]|);
              migrated == Min(k, MIGRATE_CAP) && (truncated <==> k > MIGRATE_CAP)
    {
      hide Mirrors, TableOk, SlotOk, MarkersOf, Overlay;
      SlotAt(table, hash, mems, newE);
      Mirrored(cells[..], store[..], table, newE);
      ghost var was := mems[table[oldE].id];
      var k := Min(oldLen, cells[newE].len);
      truncated := k > MIGRATE_CAP;
      if truncated {
        k := MIGRATE_CAP;
        dropped := dropped + 1;
      }
      migrated := k;
      assert was[..k] == was[..oldLen][..k] == was[0..k];
      if oldLen > 0 {
        CopyRange(newE, 0, oldE, 0, k);
        MarkClean(oldE);
      } else {
        OverlayNothing(mems[table[newE].id]);
        assert was[..k] == [];
        assert mems == mems[table[newE].id := mems[table[newE].id]];
      }
      if oldE != newE {
        FreeSlot(oldE);
      }
    }

    /** Moves a memory to a new base address. */
    method ShadowReKey(oldId: nat, newId: nat, n: nat) returns (fact: Option<Motion>)
      requires Valid() && oldId != TOMBSTONE && newId != TOMBSTONE
      modifies cells, store, this`table, this`mems, this`live, this`dropped
      ensures Valid() && mems == AfterReKey(old(mems), oldId, newId, n)
      ensures fact == ReKeyFact(old(mems), oldId, newId, n)
    {
      hide Mirrors, TableOk, SlotOk, MarkersOf, Overlay;
      NullAbsent(table, hash, mems);
      fact := None;
      if newId == NULL {
        return;
      }
      var oldE := -1;
      var oldLen := 0;
      if oldId != NULL {
        oldE := FindEntry(oldId);
      }
      if oldE != -1 {
        SlotAt(table, hash, mems, oldE);
        Mirrored(cells[..], store[..], table, oldE);
        oldLen := cells[oldE].len;
      }
      var newE := OpenOrExtend(newId, n);
      if newE == -1 {
        return;
      }
      ReKeyResult(old(mems), oldId, newId, n);
      if oldE != -1 {
        SameSlotIff(table, hash, mems, oldE, newE);
        SlotAt(table, hash, mems, oldE);
        OldMarkers(old(mems), oldId, newId, n);
        var migrated, truncated := Migrate(oldE, newE, oldLen);
        fact := Some(ReKeyed(oldId, newId, n, migrated, truncated));
      } else {
        fact := Some(ReKeyed(oldId, newId, n, 0, false));
      }
    }

    /** `Resolve`: the slot behind an address and how much of the range it tracks. */
    method Resolve(id: nat, off: nat, n: nat) returns (r: int, k: nat)
      requires Valid() && id != TOMBSTONE
      ensures k == Reach(mems, id, off, n)
      ensures r == -1 <==> k == 0
      ensures r != -1 ==> 0 <= r < SLOTS && Taken(table[r]) && table[r].id == id && off + k <= table[r].len
      ensures r != -1 ==> id in mems && table[r].region.Some? && table[r].len <= |table[r].region.value| == MAX_SHADOW
                          && mems[id] == table[r].region.value[..table[r].len]
    {
      hide Mirrors, TableOk, SlotOk, MarkersOf;
      NullAbsent(table, hash, mems);
      r, k := -1, 0;
      var e := FindEntry(id);
      if e != -1 {
        SlotAt(table, hash, mems, e);
        UnmappedIff(table[e]);
        Mirrored(cells[..], store[..], table, e);
        if cells[e].mapped {
          var len := cells[e].len;
          MarkersWhenTaken(table[e]);
          if len != 0 && n != 0 && off < len {
            RegionSize(table[e]);
            r := e;
            k := if n > len - off then len - off else n;
          }
        }
      }
    }

    /** `ReduceRange`: whether any byte of the range is marked. */
    method AnyMarked(r: nat, off: nat, n: nat) returns (was: bool)
      requires Wired() && r < SLOTS && cells[r].mapped && off + n <= MAX_SHADOW
      ensures table[r].region.Some? && |table[r].region.value| == MAX_SHADOW
      ensures was <==> Marked(table[r].region.value, off, n)
    {
      hide Mirrors;
      Mirrored(cells[..], store[..], table, r);
      was := false;
      var i := 0;
      while i < n
        invariant 0 <= i <= n
        invariant was <==> Marked(table[r].region.value, off, i)
      {
        assert table[r].region.value[off + i] == store[r * MAX_SHADOW + off + i];
        was := was || store[r * MAX_SHADOW + off + i] != 0;
        i := i + 1;
      }
    }

    /** A store, and fill and init at commit: the tracked part becomes written. */
    method Write(id: nat, off: nat, n: nat) returns (fact: Option<Range>)
      requires Valid() && id != TOMBSTONE
      modifies cells, store, this`table, this`mems
      ensures Valid() && mems == AfterWrite(old(mems), id, off, n)
      ensures fact == Touched(old(mems), id, off, n)
    {
      hide Mirrors, TableOk, SlotOk, MarkersOf, Marked;
      var r, k := Resolve(id, off, n);
      if r == -1 {
        return None;
      }
      Mirrored(cells[..], store[..], table, r);
      var was := AnyMarked(r, off, k);
      MarkedPrefix(table[r].region.value, table[r].len, off, k);
      MarkRange(r, off, k);
      fact := Some(Range(off, k, was));
    }

    /** A load changes nothing and is reported only when it reads written bytes. */
    method OnLoad(id: nat, off: nat, n: nat) returns (fact: Option<Range>)
      requires Valid() && id != TOMBSTONE
      ensures fact == if Touched(mems, id, off, n).Some? && Touched(mems, id, off, n).value.was
                      then Touched(mems, id, off, n) else None
    {
      hide Mirrors, TableOk, SlotOk, MarkersOf, Marked;
      fact := None;
      var r, k := Resolve(id, off, n);
      if r != -1 {
        Mirrored(cells[..], store[..], table, r);
        var was := AnyMarked(r, off, k);
        MarkedPrefix(table[r].region.value, table[r].len, off, k);
        if was {
          fact := Some(Range(off, k, true));
        }
      }
    }

    /** The three stage functions: bulk lengths are capped, an empty one stages nothing. */
    method Stage(thread: nat, s: Staged)
      modifies this`staged, this`dropped
      ensures staged == old(staged)[thread := Capped(s)]
    {
      if s.Nothing? || s.len == 0 {
        staged := staged[thread := Nothing];
      } else {
        if s.len > MAX_BULK {
          dropped := dropped + 1;
        }
        staged := staged[thread := s.(len := Min(s.len, MAX_BULK))];
      }
    }

    /** Applies what the thread has staged, once. */
    method Commit(thread: nat) returns (fact: Option<Motion>)
      requires Valid() && StagedOk(StagedOf(staged, thread))
      modifies cells, store, this`table, this`mems, this`staged
      ensures Valid() && mems == AfterCommit(old(mems), StagedOf(old(staged), thread))
      ensures fact == CommitFact(old(mems), StagedOf(old(staged), thread))
      ensures staged == old(staged)[thread := Nothing]
    {
      hide Wired, TableOk, SlotOk, MarkersOf, Overlay, Mirrors, Touched;
      var s := StagedOf(staged, thread);
      staged := staged[thread := Nothing];
      fact := None;
      match s {
        case Nothing =>
        case Init(d, off, n) =>
          var r := Write(d, off, n);
          if r.Some? { fact := Some(Inited(r.value)); }
        case FillOp(d, off, n) =>
          var r := Write(d, off, n);
          if r.Some? { fact := Some(Filled(r.value)); }
        case Copy(d, dOff, src, sOff, n) => fact := CommitCopy(d, dOff, src, sOff, n);
      }
    }

    method CommitCopy(d: nat, dOff: nat, src: nat, sOff: nat, n: nat) returns (fact: Option<Motion>)
      requires Valid() && d != TOMBSTONE && src != TOMBSTONE
      modifies cells, store, this`table, this`mems
      ensures Valid() && mems == AfterCopy(old(mems), d, dOff, src, sOff, n)
      ensures fact == CommitFact(old(mems), Copy(d, dOff, src, sOff, n))
    {
      hide TableOk, SlotOk, MarkersOf, Overlay, Mirrors, Marked;
      fact := None;
      var dr, dk := Resolve(d, dOff, n);
      if dr != -1 {
        var sr, sk := Resolve(src, sOff, n);
        if sr != -1 {
          Mirrored(cells[..], store[..], table, sr);
          var was := AnyMarked(sr, sOff, sk);
          MarkedPrefix(table[sr].region.value, table[sr].len, sOff, sk);
          var k := if dk < sk then dk else sk;
          CopyRange(dr, dOff, sr, sOff, k);
          fact := Some(Copied(dOff, sOff, k, was));
        }
      }
    }

    /** Any run over any threads behaves as the reference model, and records exactly its facts. */
    method Replay(ops: seq<Op>) returns (facts: seq<Motion>)
      requires Valid() && (forall i :: 0 <= i < |ops| ==> OpOk(ops[i]))
      requires forall t :: t in staged ==> StagedOk(staged[t])
      modifies this, cells, store
      ensures Valid() && State(mems, staged) == RunState(State(old(mems), old(staged)), ops)
      ensures facts == FactsOf(State(old(mems), old(staged)), ops)
      ensures RunDoes(State(old(mems), old(staged)), ops)
    {
      RunIs(State(mems, staged), ops);
      hide RunDoes;
      hide Wired, TableOk, AfterAlloc, AfterGrow, AfterReKey, AfterWrite, AfterCommit, Touched, CommitFact, ReKeyFact,
           FactsOf, RunState, Valid;
      ghost var s0 := State(mems, staged);
      facts := [];
      NothingRun(s0);
      var n := 0;
      while n < |ops|
        invariant 0 <= n <= |ops| && Valid()
        invariant forall t :: t in staged ==> StagedOk(staged[t])
        invariant State(mems, staged) == RunState(s0, ops[..n]) && facts == FactsOf(s0, ops[..n])
      {
        RunPush(s0, ops, n);
        assert OpOk(ops[n]);
        var fact := Perform(ops[n]);
        if fact.Some? {
          facts := facts + [fact.value];
        } else {
          assert facts + [] == facts;
        }
        n := n + 1;
      }
      assert ops[..n] == ops;
    }

    /** One operation. */
    method Perform(op: Op) returns (fact: Option<Motion>)
      requires Valid() && OpOk(op) && forall t :: t in staged ==> StagedOk(staged[t])
      modifies this, cells, store
      ensures Valid() && State(mems, staged) == StepState(State(old(mems), old(staged)), op)
      ensures fact == FactOf(old(mems), old(staged), op)
      ensures forall t :: t in staged ==> StagedOk(staged[t])
    {
      hide Wired, TableOk, AfterAlloc, AfterGrow, AfterReKey, AfterWrite, AfterCommit, Touched, CommitFact, ReKeyFact;
      fact := None;
      match op {
        case OpAlloc(id, len) => var ok := ShadowAlloc(id, len);
        case OpGrow(id, len) => ShadowGrow(id, len);
        case OpReKey(o, id, len) => fact := ShadowReKey(o, id, len);
        case OpStore(id, off, k) =>
          var r := Write(id, off, k);
          if r.Some? { fact := Some(Stored(r.value)); }
        case OpLoad(id, off, k) =>
          var r := OnLoad(id, off, k);
          if r.Some? { fact := Some(Loaded(r.value)); }
        case OpStage(t, s) => Stage(t, s);
        case OpCommit(t) => fact := Commit(t);
      }
    }
  }

  lemma NothingRun(s: State)
    ensures RunState(s, []) == s && FactsOf(s, []) == []
  {
  }

  lemma RunPush(s: State, ops: seq<Op>, n: nat)
    requires n < |ops|
    ensures var before := RunState(s, ops[..n]);
            && RunState(s, ops[..n + 1]) == StepState(before, ops[n])
            && FactsOf(s, ops[..n + 1]) == FactsOf(s, ops[..n]) + Listed(FactOf(before.mems, before.staged, ops[n]))
  {
    hide StepState, FactOf, Listed;
    assert ops[..n + 1][..n] == ops[..n];
  }

  /** Markers of `src` laid over those of `dst`. */
  ghost function Carried(m: Mems, dst: nat, dOff: nat, src: nat, sOff: nat, n: nat): (r: Mems) {
    if dst in m && src in m && dOff + n <= |m[dst]| && sOff + n <= |m[src]|
    then m[dst := Overlay(m[dst], dOff, m[src][sOff..sOff + n])] else m
  }

  lemma MarkedPrefix(s: seq<byte>, len: nat, off: nat, n: nat)
    requires off + n <= len <= |s|
    ensures Marked(s[..len], off, n) <==> Marked(s, off, n)
  {
  }

  /** Opening the new base leaves at least the old markers in front. */
  lemma OldMarkers(m: Mems, oldId: nat, newId: nat, n: nat)
    requires oldId in m
    ensures var m1 := m[newId := Base(m, newId, n)];
            oldId in m1 && |m[oldId]| <= |m1[oldId]| && m1[oldId][..|m[oldId]|] == m[oldId]
  {
  }

  function StagedOf(staged: map<nat, Staged>, thread: nat): (r: Staged) {
    if thread in staged then staged[thread] else Nothing
  }

  predicate StagedOk(s: Staged) {
    (s.Nothing? || s.dst != TOMBSTONE) && (s.Copy? ==> s.src != TOMBSTONE)
  }

  /** What staging really records. */
  function Capped(s: Staged): (r: Staged) {
    if s.Nothing? || s.len == 0 then Nothing else s.(len := Min(s.len, MAX_BULK))
  }

  datatype Op =
    | OpAlloc(id: nat, len: nat) | OpGrow(id: nat, len: nat) | OpReKey(oldId: nat, id: nat, len: nat)
    | OpStore(id: nat, off: nat, n: nat) | OpLoad(id: nat, off: nat, n: nat)
    | OpStage(thread: nat, s: Staged) | OpCommit(thread: nat)

  /** Base addresses are page starts, so 1 is never one. */
  predicate OpOk(op: Op) {
    match op
    case OpReKey(o, id, _) => o != TOMBSTONE && id != TOMBSTONE
    case OpStage(_, s) => StagedOk(s)
    case OpCommit(_) => true
    case OpAlloc(id, _) => id != TOMBSTONE
    case OpGrow(id, _) => id != TOMBSTONE
    case OpStore(id, _, _) => id != TOMBSTONE
    case OpLoad(id, _, _) => id != TOMBSTONE
  }

  datatype State = State(mems: Mems, staged: map<nat, Staged>)

  ghost function StepState(s: State, op: Op): (r: State) {
    match op
    case OpAlloc(id, n) => s.(mems := AfterAlloc(s.mems, id, n))
    case OpGrow(id, n) => s.(mems := AfterGrow(s.mems, id, n))
    case OpReKey(o, id, n) => s.(mems := AfterReKey(s.mems, o, id, n))
    case OpStore(id, off, n) => s.(mems := AfterWrite(s.mems, id, off, n))
    case OpLoad(_, _, _) => s
    case OpStage(t, st) => s.(staged := s.staged[t := Capped(st)])
    case OpCommit(t) => State(AfterCommit(s.mems, StagedOf(s.staged, t)), s.staged[t := Nothing])
  }

  ghost function RunState(s: State, ops: seq<Op>): (r: State) {
    if ops == [] then s else StepState(RunState(s, ops[..|ops| - 1]), ops[|ops| - 1])
  }

  /** Staging without commit never changes a marker. */
  lemma {:induction false} UncommittedIsInert(s: State, ops: seq<Op>)
    requires forall i :: 0 <= i < |ops| ==> ops[i].OpStage? || ops[i].OpLoad?
    ensures RunState(s, ops).mems == s.mems
  {
    if ops == [] {
    } else {
      UncommittedIsInert(s, ops[..|ops| - 1]);
      assert ops[|ops| - 1].OpStage? || ops[|ops| - 1].OpLoad?;
    }
  }

  // ---------------------------------------------------------------------
  // Byte by byte.
  // ---------------------------------------------------------------------

  /** The same memories, of the same sizes. */
  ghost predicate SameShape(m: Mems, m': Mems) {
    m'.Keys == m.Keys && forall x :: x in m ==> |m'[x]| == |m[x]|
  }

  /** Every tracked byte from `off` to `off + n` of `id` becomes written; every other byte of every memory is as it
      was. */
  ghost predicate Writes(m: Mems, m': Mems, id: nat, off: nat, n: nat) {
    && SameShape(m, m')
    && forall x, k :: x in m && 0 <= k < |m[x]| ==>
         m'[x][k] == if x == id && off <= k < off + n then 1 else m[x][k]
  }

  /** Every tracked byte of the destination range, as far as the source range is tracked too, gets the marker its
      source byte had before, overlap and one memory included; every other byte of every memory is as it was. */
  ghost predicate Copies(m: Mems, m': Mems, dst: nat, dOff: nat, src: nat, sOff: nat, n: nat) {
    && SameShape(m, m')
    && forall x, k :: x in m && 0 <= k < |m[x]| ==>
         m'[x][k] == if x == dst && dOff <= k < dOff + n && src in m && sOff + (k - dOff) < |m[src]|
                     then m[src][sOff + (k - dOff)] else m[x][k]
  }

  /** All memories but `id` are as they were. */
  ghost predicate OthersKept(m: Mems, m': Mems, id: nat) {
    forall x :: x != id ==> (x in m' <==> x in m) && (x in m ==> m'[x] == m[x])
  }

  /** Memory `id` is tracked up to `n` bytes and no shorter than before: what it had stays, the rest is unmarked. */
  ghost predicate Extends(m: Mems, m': Mems, id: nat, n: nat) {
    && OthersKept(m, m', id) && id in m'
    && var was := if id in m then m[id] else [];
       var len := if n < 0x1000_0000 then n else 0x1000_0000;
       && |m'[id]| == (if len < |was| then |was| else len)
       && forall k :: 0 <= k < |m'[id]| ==> m'[id][k] == if k < |was| then was[k] else 0
  }

  /** The first bytes of the old memory, at most the cap, lie over those of the new one, extended to `n`; the old
      one is gone. */
  ghost predicate Moves(m: Mems, m': Mems, old_: nat, id: nat, n: nat) {
    && (forall x :: x != id && x != old_ ==> (x in m' <==> x in m) && (x in m ==> m'[x] == m[x]))
    && (old_ != id ==> old_ !in m') && id in m'
    && var was := if id in m then m[id] else [];
       var from := if old_ in m then m[old_] else [];
       var len := if n < 0x1000_0000 then n else 0x1000_0000;
       && |m'[id]| == (if len < |was| then |was| else len)
       && forall k :: 0 <= k < |m'[id]| ==>
            m'[id][k] == if k < |from| && k < 0x200_0000 then from[k] else if k < |was| then was[k] else 0
  }

  /** What every operation does to every byte of every memory, and to what is staged. */
  ghost predicate StepDoes(s: State, op: Op, s': State) {
    var m, m' := s.mems, s'.mems;
    match op
    case OpAlloc(id, n) =>
      && s'.staged == s.staged
      && if id == 0 || (id !in m && |m| == 64) then m' == m else Extends(m, m', id, n)
    case OpGrow(id, n) => s'.staged == s.staged && if id in m then Extends(m, m', id, n) else m' == m
    case OpReKey(o, id, n) =>
      && s'.staged == s.staged
      && if id == 0 || (id !in m && |m| == 64) then m' == m else Moves(m, m', o, id, n)
    case OpStore(id, off, n) => s'.staged == s.staged && Writes(m, m', id, off, n)
    case OpLoad(_, _, _) => s' == s
    case OpStage(t, st) =>
      && m' == m && (forall u :: u != t ==> StagedOf(s'.staged, u) == StagedOf(s.staged, u))
      && StagedOf(s'.staged, t) == (if st.Nothing? || st.len == 0 then Nothing
                                    else if st.len > 0x80_0000 then st.(len := 0x80_0000) else st)
    case OpCommit(t) =>
      && StagedOf(s'.staged, t) == Nothing
      && (forall u :: u != t ==> StagedOf(s'.staged, u) == StagedOf(s.staged, u))
      && match StagedOf(s.staged, t)
         case Nothing => m' == m
         case FillOp(d, off, n) => Writes(m, m', d, off, n)
         case Init(d, off, n) => Writes(m, m', d, off, n)
         case Copy(d, dOff, src, sOff, n) => Copies(m, m', d, dOff, src, sOff, n)
  }

  lemma WriteWrites(m: Mems, id: nat, off: nat, n: nat)
    ensures Writes(m, AfterWrite(m, id, off, n), id, off, n)
  {
  }

  lemma CopyCopies(m: Mems, dst: nat, dOff: nat, src: nat, sOff: nat, n: nat)
    ensures Copies(m, AfterCopy(m, dst, dOff, src, sOff, n), dst, dOff, src, sOff, n)
  {
    hide AfterCopy, Copies;
    if Min(Reach(m, dst, dOff, n), Reach(m, src, sOff, n)) > 0 {
      CopiedBytes(m, dst, dOff, src, sOff, n);
      OneCopied(m, AfterCopy(m, dst, dOff, src, sOff, n)[dst], dst, dOff, src, sOff, n);
    } else {
      NoneCopied(m, dst, dOff, src, sOff, n);
    }
  }

  lemma NoneCopied(m: Mems, dst: nat, dOff: nat, src: nat, sOff: nat, n: nat)
    requires Min(Reach(m, dst, dOff, n), Reach(m, src, sOff, n)) == 0
    ensures AfterCopy(m, dst, dOff, src, sOff, n) == m && Copies(m, m, dst, dOff, src, sOff, n)
  {
  }

  lemma CopiedBytes(m: Mems, dst: nat, dOff: nat, src: nat, sOff: nat, n: nat)
    requires Min(Reach(m, dst, dOff, n), Reach(m, src, sOff, n)) > 0
    ensures var m' := AfterCopy(m, dst, dOff, src, sOff, n);
            && dst in m && src in m && dOff < |m[dst]| && sOff < |m[src]|
            && dst in m' && m' == m[dst := m'[dst]] && |m'[dst]| == |m[dst]|
            && forall k :: 0 <= k < |m[dst]| ==>
                 m'[dst][k] == if dOff <= k < dOff + n && sOff + (k - dOff) < |m[src]| then m[src][sOff + (k - dOff)]
                               else m[dst][k]
  {
    OverlaidAt(m[dst], dOff, m[src], sOff, Min(Reach(m, dst, dOff, n), Reach(m, src, sOff, n)));
    hide Overlay;
  }

  lemma OneCopied(m: Mems, d: seq<byte>, dst: nat, dOff: nat, src: nat, sOff: nat, n: nat)
    requires dst in m && src in m && |d| == |m[dst]| && dOff < |d| && sOff < |m[src]|
    requires forall k :: 0 <= k < |d| ==>
               d[k] == if dOff <= k < dOff + n && sOff + (k - dOff) < |m[src]| then m[src][sOff + (k - dOff)]
                       else m[dst][k]
    ensures Copies(m, m[dst := d], dst, dOff, src, sOff, n)
  {
  }

  lemma OverlaidAt(d: seq<byte>, dOff: nat, s: seq<byte>, sOff: nat, n: nat)
    requires dOff + n <= |d| && sOff + n <= |s|
    ensures forall k :: 0 <= k < |d| ==>
              Overlay(d, dOff, s[sOff..sOff + n])[k] == if dOff <= k < dOff + n then s[sOff + (k - dOff)] else d[k]
  {
    var piece := s[sOff..sOff + n];
    var r := Overlay(d, dOff, piece);
    forall k | 0 <= k < |d|
      ensures r[k] == if dOff <= k < dOff + n then s[sOff + (k - dOff)] else d[k]
    {
      if dOff <= k < dOff + n {
        assert piece[k - dOff] == s[sOff + (k - dOff)];
      }
    }
  }

  lemma GrownExtends(s: seq<byte>, n: nat)
    ensures var len := if n < 0x1000_0000 then n else 0x1000_0000;
            && |Grown(s, n)| == (if len < |s| then |s| else len)
            && forall k :: 0 <= k < |Grown(s, n)| ==> Grown(s, n)[k] == if k < |s| then s[k] else 0
  {
  }

  lemma ReKeyMoves(m: Mems, o: nat, id: nat, n: nat)
    requires id != 0 && (id in m || |m| != 64)
    ensures Moves(m, AfterReKey(m, o, id, n), o, id, n)
  {
    if id in m {
      GrownExtends(m[id], n);
    }
    hide Grown;
  }

  /** Every step does that. */
  lemma StepIs(s: State, op: Op)
    ensures StepDoes(s, op, StepState(s, op))
  {
    var m := s.mems;
    match op
    case OpAlloc(id, n) =>
      if id in m {
        GrownExtends(m[id], n);
      }
      hide Grown;
    case OpGrow(id, n) =>
      if id in m {
        GrownExtends(m[id], n);
      }
      hide Grown;
    case OpReKey(o, id, n) =>
      hide Moves, AfterReKey;
      if id != 0 && (id in m || |m| != 64) {
        ReKeyMoves(m, o, id, n);
      } else {
        NotReKeyed(m, o, id, n);
      }
    case OpStore(id, off, n) =>
      WriteWrites(m, id, off, n);
      hide Writes, AfterWrite;
    case OpLoad(_, _, _) =>
    case OpStage(t, st) =>
    case OpCommit(t) =>
      hide Writes, AfterWrite, Copies, AfterCopy;
      match StagedOf(s.staged, t)
      case Nothing =>
      case FillOp(d, off, n) => WriteWrites(m, d, off, n);
      case Init(d, off, n) => WriteWrites(m, d, off, n);
      case Copy(d, dOff, src, sOff, n) => CopyCopies(m, d, dOff, src, sOff, n);
  }

  lemma NotReKeyed(m: Mems, o: nat, id: nat, n: nat)
    requires id == 0 || (id !in m && |m| == 64)
    ensures AfterReKey(m, o, id, n) == m
  {
  }

  /** A tracked byte of the range had been written. */
  ghost predicate WrittenIn(m: Mems, id: nat, off: nat, n: nat) {
    id in m && exists k :: off <= k < off + n && k < |m[id]| && m[id][k] != 0
  }

  /** The part of the range that is tracked. */
  ghost predicate Tracks(m: Mems, id: nat, off: nat, n: nat, len: nat) {
    if id in m && off < |m[id]| then len == (if n < |m[id]| - off then n else |m[id]| - off) else len == 0
  }

  /** `r` says of the range what is so: where it starts, how much of it is tracked, and whether any of that had
      been written. */
  ghost predicate Tells(m: Mems, id: nat, off: nat, n: nat, r: Range) {
    r.off == off && r.len > 0 && Tracks(m, id, off, n, r.len) && (r.was <==> WrittenIn(m, id, off, n))
  }

  /** What every operation records. */
  ghost predicate StepTells(s: State, op: Op, f: Option<Motion>) {
    var m := s.mems;
    match op
    case OpAlloc(_, _) => f == None
    case OpGrow(_, _) => f == None
    case OpStage(_, _) => f == None
    case OpStore(id, off, n) =>
      if Tracks(m, id, off, n, 0) then f == None else f.Some? && f.value.Stored? && Tells(m, id, off, n, f.value.r)
    case OpLoad(id, off, n) =>
      if WrittenIn(m, id, off, n) then f.Some? && f.value.Loaded? && Tells(m, id, off, n, f.value.r) else f == None
    case OpReKey(o, id, n) =>
      if id == 0 || (id !in m && |m| == 64) then f == None
      else
        && f.Some? && f.value.ReKeyed? && f.value.oldId == o && f.value.id == id && f.value.newLen == n
        && var was := if id in m then |m[id]| else 0;
           var cap := if n < 0x1000_0000 then n else 0x1000_0000;
           var len := if cap < was then was else cap;
           var both := if o !in m then 0 else if |m[o]| < len then |m[o]| else len;
           && f.value.migrated == (if both < 0x200_0000 then both else 0x200_0000)
           && (f.value.truncated <==> both > 0x200_0000)
    case OpCommit(t) =>
      match StagedOf(s.staged, t)
      case Nothing => f == None
      case FillOp(d, off, n) =>
        if Tracks(m, d, off, n, 0) then f == None else f.Some? && f.value.Filled? && Tells(m, d, off, n, f.value.r)
      case Init(d, off, n) =>
        if Tracks(m, d, off, n, 0) then f == None else f.Some? && f.value.Inited? && Tells(m, d, off, n, f.value.r)
      case Copy(d, dOff, src, sOff, n) =>
        if Tracks(m, d, dOff, n, 0) || Tracks(m, src, sOff, n, 0) then f == None
        else
          && f.Some? && f.value.Copied? && f.value.dOff == dOff && f.value.sOff == sOff
          && (f.value.was <==> WrittenIn(m, src, sOff, n))
          && exists dk: nat, sk: nat ::
               Tracks(m, d, dOff, n, dk) && Tracks(m, src, sOff, n, sk) && f.value.len == if dk < sk then dk else sk
  }

  lemma TouchedTells(m: Mems, id: nat, off: nat, n: nat)
    ensures Touched(m, id, off, n).None? <==> Tracks(m, id, off, n, 0)
    ensures Touched(m, id, off, n).Some? ==> Tells(m, id, off, n, Touched(m, id, off, n).value)
    ensures WrittenIn(m, id, off, n) ==> Touched(m, id, off, n).Some?
  {
    var k := Reach(m, id, off, n);
    if k > 0 && Marked(m[id], off, k) {
      var j :| off <= j < off + k && m[id][j] != 0;
      assert j < off + n && j < |m[id]|;
    }
    if WrittenIn(m, id, off, n) {
      var j :| off <= j < off + n && j < |m[id]| && m[id][j] != 0;
      assert j < off + k;
    }
  }

  lemma ReKeyTells(m: Mems, o: nat, id: nat, n: nat)
    ensures StepTells(State(m, map[]), OpReKey(o, id, n), ReKeyFact(m, o, id, n))
  {
    if id in m {
      GrownExtends(m[id], n);
    }
    hide Grown;
  }

  lemma CopyTells(m: Mems, d: nat, dOff: nat, src: nat, sOff: nat, n: nat)
    ensures var op := Copy(d, dOff, src, sOff, n);
            StepTells(State(m, map[0 := op]), OpCommit(0), CommitFact(m, op))
  {
    TouchedTells(m, src, sOff, n);
    var dk, sk := Reach(m, d, dOff, n), Reach(m, src, sOff, n);
    assert Tracks(m, d, dOff, n, dk) && Tracks(m, src, sOff, n, sk);
    hide WrittenIn, Marked;
  }

  /** Every operation records exactly that. */
  lemma FactIs(s: State, op: Op)
    ensures StepTells(s, op, FactOf(s.mems, s.staged, op))
  {
    var m := s.mems;
    match op
    case OpAlloc(_, _) =>
    case OpGrow(_, _) =>
    case OpStage(_, _) =>
    case OpReKey(o, id, n) =>
      ReKeyTells(m, o, id, n);
      hide ReKeyFact;
    case OpStore(id, off, n) =>
      TouchedTells(m, id, off, n);
      hide Touched, Tracks, Tells, WrittenIn;
    case OpLoad(id, off, n) =>
      TouchedTells(m, id, off, n);
      TellsWas(m, id, off, n);
      hide Touched, Tracks, Tells, WrittenIn;
    case OpCommit(t) =>
      match StagedOf(s.staged, t)
      case Nothing =>
      case FillOp(d, off, n) =>
        TouchedTells(m, d, off, n);
        hide Touched, Tracks, Tells, WrittenIn;
      case Init(d, off, n) =>
        TouchedTells(m, d, off, n);
        hide Touched, Tracks, Tells, WrittenIn;
      case Copy(d, dOff, src, sOff, n) =>
        CopyTells(m, d, dOff, src, sOff, n);
        hide CommitFact, Tracks, WrittenIn;
  }

  lemma TellsWas(m: Mems, id: nat, off: nat, n: nat)
    ensures forall r :: Tells(m, id, off, n, r) ==> (r.was <==> WrittenIn(m, id, off, n))
  {
  }

  /** What a whole run does and records, step by step. */
  ghost predicate RunDoes(s: State, ops: seq<Op>) {
    forall n :: 0 <= n < |ops| ==> RunDoesAt(s, ops, n)
  }

  ghost predicate RunDoesAt(s: State, ops: seq<Op>, n: nat)
    requires n < |ops|
  {
    var before, after := RunState(s, ops[..n]), RunState(s, ops[..n + 1]);
    && StepDoes(before, ops[n], after)
    && exists f :: StepTells(before, ops[n], f)
                   && FactsOf(s, ops[..n + 1]) == FactsOf(s, ops[..n]) + if f.None? then [] else [f.value]
  }

  lemma RunIs(s: State, ops: seq<Op>)
    ensures RunDoes(s, ops)
  {
    hide StepDoes, StepTells, FactOf, StepState, RunState, FactsOf;
    forall n | 0 <= n < |ops|
      ensures RunDoesAt(s, ops, n)
    {
      var before := RunState(s, ops[..n]);
      RunPush(s, ops, n);
      StepIs(before, ops[n]);
      FactIs(before, ops[n]);
      assert StepTells(before, ops[n], FactOf(before.mems, before.staged, ops[n]));
    }
  }

  /** A written byte that a committed copy brings along is seen by the next load of the destination, in one memory
      as in two. */
  lemma CopiedIsLoaded(s: State, t: nat, dst: nat, dOff: nat, src: nat, sOff: nat, n: nat, i: nat)
    requires StagedOf(s.staged, t) == Copy(dst, dOff, src, sOff, n) && i < n
    requires dst in s.mems && dOff + i < |s.mems[dst]|
    requires src in s.mems && sOff + i < |s.mems[src]| && s.mems[src][sOff + i] != 0
    ensures var s' := StepState(s, OpCommit(t));
            FactOf(s'.mems, s'.staged, OpLoad(dst, dOff, n)).Some?
  {
    var s' := StepState(s, OpCommit(t));
    StepIs(s, OpCommit(t));
    FactIs(s', OpLoad(dst, dOff, n));
    hide StepState, FactOf;
    assert s'.mems[dst][dOff + i] == s.mems[src][sOff + i];
  }

  lemma UnmappedIff(s: Slot)
    requires SlotOk(s)
    ensures s.region.None? ==> s.id == NULL && s.len == 0
    ensures s.region.Some? ==> s.id != NULL && s.len <= |s.region.value|
  {
  }

  lemma MarkersWhenTaken(s: Slot)
    requires SlotOk(s) && s.region.Some?
    ensures s.len <= |s.region.value| && (Taken(s) ==> MarkersOf(s) == s.region.value[..s.len])
  {
  }

  lemma SameSlotIff(a: seq<Slot>, hash: nat -> nat, m: Mems, i: nat, j: nat)
    requires TableOk(a, hash, m) && i < SLOTS && j < SLOTS && Taken(a[i]) && Taken(a[j])
    ensures i == j <==> a[i].id == a[j].id
  {
  }

  ghost function Base(m: Mems, newId: nat, n: nat): (r: seq<byte>) {
    if newId in m then Grown(m[newId], n) else Fill(Min(n, MAX_SHADOW), 0)
  }

  ghost function Moved(m: Mems, oldId: nat, newId: nat, was: seq<byte>, same: bool): (r: Mems)
    requires newId in m
  {
    var k := Min(Min(|was|, |m[newId]|), MIGRATE_CAP);
    var laid := m[newId := Overlay(m[newId], 0, was[..k])];
    if same then laid else laid - {oldId}
  }

  /** Opening the new base and moving the old markers there is the reference re-key. */
  lemma ReKeyResult(m: Mems, oldId: nat, newId: nat, n: nat)
    requires newId != NULL && !(newId !in m && |m| == SLOTS)
    ensures var m1 := m[newId := Base(m, newId, n)];
            AfterReKey(m, oldId, newId, n)
            == if oldId in m then Moved(m1, oldId, newId, m[oldId], oldId == newId) else m1
  {
    if oldId in m {
      var m1 := m[newId := Base(m, newId, n)];
      var k := Min(Min(|m[oldId]|, |m1[newId]|), MIGRATE_CAP);
      hide Overlay, Grown, Fill;
      var laid := Overlay(m1[newId], 0, m[oldId][..k]);
      assert AfterReKey(m, oldId, newId, n) == (m - {oldId})[newId := laid];
      assert m1[newId := laid] == m[newId := laid];
      if oldId != newId {
        assert m[newId := laid] - {oldId} == (m - {oldId})[newId := laid];
      } else {
        assert m[newId := laid] == (m - {oldId})[newId := laid];
      }
    }
  }

  lemma OverlayNothing(s: seq<byte>)
    ensures Overlay(s, 0, []) == s && Fill(0, 0) == []
  {
  }

  lemma MarkersAre(s: Slot)
    requires SlotOk(s) && Taken(s)
    ensures s.region.Some? && s.len <= |s.region.value| && MarkersOf(s) == s.region.value[..s.len]
  {
  }

  lemma CleanSlot(s: Slot)
    requires SlotOk(s) && Taken(s)
    ensures SlotOk(s.(dirty := false)) && MarkersOf(s.(dirty := false)) == MarkersOf(s)
  {
  }

  lemma TargetFree(a: seq<Slot>, hash: nat -> nat, id: nat, i: nat)
    requires |a| == SLOTS && i < SLOTS && ClaimTarget(a, hash, id, i)
    ensures !Taken(a[i])
  {
  }

  lemma RegionSize(s: Slot)
    requires SlotOk(s) && Taken(s)
    ensures s.region.Some? && |s.region.value| == MAX_SHADOW && s.len <= MAX_SHADOW
  {
  }

  lemma NullAbsent(a: seq<Slot>, hash: nat -> nat, m: Mems)
    requires TableOk(a, hash, m)
    ensures NULL !in m && TOMBSTONE !in m
  {
  }
}
