/** The concurrent string interner of src/arena.rs as a step system: every atomic access of
    `intern` is one step of one thread, and threads interleave freely. */
module Interner {
  import opened Bytes
  import opened Sums

  const SLAB: nat := 0x300_0000
  const ENTS: nat := 0x20_0000
  const MAX_STR: nat := 0xFFFF

  datatype Ent = Ent(off: nat, len: nat)

  /** Where a thread stands in `intern(s)`, with its locals. */
  datatype Pc =
    | Idle
    | LookingUp(s: seq<byte>)
    | CheckingEnts(s: seq<byte>)
    | CheckingSlab(s: seq<byte>)
    | FallingBack(s: seq<byte>)
    | Allocating(s: seq<byte>)
    | Copying(s: seq<byte>, off: nat)
    | Numbering(s: seq<byte>, off: nat)
    | Recording(s: seq<byte>, off: nat, id: nat)
    | Publishing(s: seq<byte>, off: nat, id: nat)

  /** A finished call; `full` marks the capacity fallback. */
  datatype Ret = Ret(s: seq<byte>, id: nat, full: bool)

  /** The shared memory and the threads; `ranges`, `recorded` and `log` are history. */
  datatype State = State(slab: seq<byte>, ents: seq<Ent>, slabCur: nat, entCur: nat, idx: map<nat, seq<nat>>,
                         threads: map<nat, Pc>, ranges: set<(nat, nat)>, recorded: set<nat>, log: seq<Ret>)

  function PcOf(threads: map<nat, Pc>, t: nat): (r: Pc) {
    if t in threads then threads[t] else Idle
  }

  function Bucket(idx: map<nat, seq<nat>>, h: nat): (r: seq<nat>) {
    if h in idx then idx[h] else []
  }

  /** `resolve`, for an id whose entry lies inside the slab. */
  function Text(slab: seq<byte>, ents: seq<Ent>, id: nat): (r: seq<byte>) {
    if id == 0 || id >= |ents| || ents[id].off + ents[id].len > |slab| then []
    else slab[ents[id].off..ents[id].off + ents[id].len]
  }

  /** The scan of one bucket: the first id other than `own` that resolves to `s`. */
  function FindIn(slab: seq<byte>, ents: seq<Ent>, v: seq<nat>, s: seq<byte>, own: nat): (r: Option<nat>)
    ensures r.Some? ==> r.value in v && r.value != own && Text(slab, ents, r.value) == s
    ensures r.None? ==> forall k :: 0 <= k < |v| ==> v[k] == own || Text(slab, ents, v[k]) != s
  {
    if v == [] then None
    else if v[0] != own && Text(slab, ents, v[0]) == s then Some(v[0])
    else FindIn(slab, ents, v[1..], s, own)
  }

  function Overwrite(slab: seq<byte>, off: nat, s: seq<byte>): (r: seq<byte>)
    requires off + |s| <= |slab|
    ensures |r| == |slab|
  {
    slab[..off] + s + slab[off + |s|..]
  }

  ghost function Finish(st: State, t: nat, r: Ret): (res: State) {
    st.(threads := st.threads[t := Idle], log := st.log + [r])
  }

  ghost function Goto(st: State, t: nat, pc: Pc): (r: State) {
    st.(threads := st.threads[t := pc])
  }

  /** A call begins. */
  ghost function Begin(st: State, t: nat, s: seq<byte>): (r: State) {
    if s == [] then Finish(st, t, Ret(s, 0, false)) else Goto(st, t, LookingUp(s))
  }

  /** The next step of thread `t` touches only memory that is there. */
  ghost predicate InBounds(st: State, t: nat) {
    match PcOf(st.threads, t)
    case Copying(s, off) => off + |s| <= SLAB
    case Recording(_, _, id) => id < ENTS
    case _ => true
  }

  ghost predicate Steppable(st: State, t: nat) {
    |st.slab| == SLAB && |st.ents| == ENTS && InBounds(st, t)
  }

  /** The next atomic step of thread `t`. */
  ghost function Next(st: State, hash: seq<byte> -> nat, t: nat): (res: State)
    requires Steppable(st, t)
  {
    match PcOf(st.threads, t)
    case Idle => st
    case LookingUp(s) =>
      var r := FindIn(st.slab, st.ents, Bucket(st.idx, hash(s)), s, 0);
      if r.Some? then Finish(st, t, Ret(s, r.value, false)) else Goto(st, t, CheckingEnts(s))
    case CheckingEnts(s) =>
      Goto(st, t, if |s| <= MAX_STR && st.entCur < ENTS then CheckingSlab(s) else FallingBack(s))
    case CheckingSlab(s) =>
      Goto(st, t, if st.slabCur + |s| < SLAB then Allocating(s) else FallingBack(s))
    case FallingBack(s) =>
      var v := Bucket(st.idx, hash(s));
      Finish(st, t, Ret(s, if v == [] then 0 else v[0], true))
    case Allocating(s) =>
      Goto(st, t, Copying(s, st.slabCur)).(slabCur := st.slabCur + |s| + 1, ranges := st.ranges + {(st.slabCur, |s|)})
    case Copying(s, off) =>
      Goto(st, t, Numbering(s, off)).(slab := Overwrite(st.slab, off, s))
    case Numbering(s, off) =>
      Goto(st, t, Recording(s, off, st.entCur)).(entCur := st.entCur + 1)
    case Recording(s, off, id) =>
      Goto(st, t, Publishing(s, off, id)).(ents := st.ents[id := Ent(off, |s|)], recorded := st.recorded + {id})
    case Publishing(s, off, id) =>
      var v := Bucket(st.idx, hash(s));
      var r := FindIn(st.slab, st.ents, v, s, id);
      if r.Some? then Finish(st, t, Ret(s, r.value, false))
      else Finish(st, t, Ret(s, id, false)).(idx := st.idx[hash(s) := v + [id]])
  }

  // ---------------------------------------------------------------------
  // Invariant.
  // ---------------------------------------------------------------------

  function OffOf(pc: Pc): (r: Option<nat>) {
    match pc
    case Copying(_, off) => Some(off)
    case Numbering(_, off) => Some(off)
    case Recording(_, off, _) => Some(off)
    case Publishing(_, off, _) => Some(off)
    case _ => None
  }

  function IdOf(pc: Pc): (r: Option<nat>) {
    match pc
    case Recording(_, _, id) => Some(id)
    case Publishing(_, _, id) => Some(id)
    case _ => None
  }

  ghost predicate Apart(r: (nat, nat), q: (nat, nat)) {
    r.0 + r.1 < q.0 || q.0 + q.1 < r.0
  }

  ghost predicate Published(idx: map<nat, seq<nat>>, id: nat) {
    exists h :: h in idx && id in idx[h]
  }

  ghost predicate RangesOk(st: State) {
    && |st.slab| == SLAB && |st.ents| == ENTS && 1 <= st.slabCur && 1 <= st.entCur
    && (forall r :: r in st.ranges ==> 1 <= r.0 && r.0 + r.1 < st.slabCur)
    && (forall r, q :: r in st.ranges && q in st.ranges && r != q ==> Apart(r, q))
  }

  ghost predicate Holds(st: State, s: seq<byte>, off: nat) {
    off + |s| <= |st.slab| && st.slab[off..off + |s|] == s
  }

  ghost predicate PcOk(st: State, pc: Pc) {
    match pc
    case Idle => true
    case Copying(s, off) => s != [] && (off, |s|) in st.ranges
    case Numbering(s, off) => s != [] && (off, |s|) in st.ranges && Holds(st, s, off)
    case Recording(s, off, id) => s != [] && (off, |s|) in st.ranges && Holds(st, s, off)
                                  && 1 <= id < st.entCur && id !in st.recorded
    case Publishing(s, off, id) => s != [] && (off, |s|) in st.ranges && Holds(st, s, off)
                                   && id in st.recorded && id < |st.ents| && st.ents[id] == Ent(off, |s|)
                                   && !Published(st.idx, id)
    case _ => pc.s != []
  }

  ghost predicate ThreadsOk(st: State) {
    && (forall t :: t in st.threads ==> PcOk(st, st.threads[t]))
    && (forall t, u :: t in st.threads && u in st.threads && t != u ==>
          Different(OffOf(st.threads[t]), OffOf(st.threads[u])) && Different(IdOf(st.threads[t]), IdOf(st.threads[u])))
  }

  ghost predicate Different(a: Option<nat>, b: Option<nat>) {
    a.None? || b.None? || a.value != b.value
  }

  /** Recorded entries lie in claimed ranges, all different, and none belongs to a thread
      that is still building another entry. */
  ghost predicate RecordedOk(st: State)
    requires |st.ents| == ENTS
  {
    && (forall id :: id in st.recorded ==>
          1 <= id < st.entCur && id < ENTS && (st.ents[id].off, st.ents[id].len) in st.ranges)
    && (forall i, j :: i in st.recorded && j in st.recorded && i != j && i < ENTS && j < ENTS ==>
          st.ents[i].off != st.ents[j].off)
    && (forall t, id :: t in st.threads && id in st.recorded && id < ENTS ==>
          (OffOf(st.threads[t]) == Some(st.ents[id].off) ==> IdOf(st.threads[t]) == Some(id)))
  }

  ghost predicate IndexOk(st: State, hash: seq<byte> -> nat) {
    && (forall h, id :: h in st.idx && id in st.idx[h] ==>
          id in st.recorded && Text(st.slab, st.ents, id) != [] && hash(Text(st.slab, st.ents, id)) == h)
    && (forall i, j :: Published(st.idx, i) && Published(st.idx, j) ==>
          (Text(st.slab, st.ents, i) == Text(st.slab, st.ents, j) ==> i == j))
  }

  ghost predicate LogOk(st: State) {
    forall k :: 0 <= k < |st.log| && !st.log[k].full ==>
      if st.log[k].s == [] then st.log[k].id == 0
      else Published(st.idx, st.log[k].id) && Text(st.slab, st.ents, st.log[k].id) == st.log[k].s
  }

  ghost predicate Inv(st: State, hash: seq<byte> -> nat) {
    RangesOk(st) && ThreadsOk(st) && RecordedOk(st) && IndexOk(st, hash) && LogOk(st)
  }

  // ---------------------------------------------------------------------
  // What the invariant means.
  // ---------------------------------------------------------------------

  /** Calls that did not hit the capacity: the same string gets the same id, different
      strings different ids, and the id resolves to the string. */
  lemma IdsIdentifyStrings(st: State, hash: seq<byte> -> nat, i: nat, j: nat)
    requires Inv(st, hash) && i < |st.log| && j < |st.log| && !st.log[i].full && !st.log[j].full
    ensures st.log[i].id == st.log[j].id <==> st.log[i].s == st.log[j].s
    ensures Text(st.slab, st.ents, st.log[i].id) == st.log[i].s
  {
    hide RangesOk, ThreadsOk, RecordedOk;
    PublishedPositive(st, hash);
  }

  lemma PublishedPositive(st: State, hash: seq<byte> -> nat)
    requires Inv(st, hash)
    ensures !Published(st.idx, 0)
  {
    hide RangesOk, ThreadsOk, LogOk;
    forall h | h in st.idx
      ensures 0 !in st.idx[h]
    {
      assert 0 in st.idx[h] ==> Text(st.slab, st.ents, 0) != [];
    }
  }

  /** Entries, orphans included, occupy disjoint parts of the slab. */
  lemma EntriesDisjoint(st: State, hash: seq<byte> -> nat, i: nat, j: nat)
    requires Inv(st, hash) && i in st.recorded && j in st.recorded && i != j
    ensures i < |st.ents| && j < |st.ents|
    ensures st.ents[i].off + st.ents[i].len < st.ents[j].off || st.ents[j].off + st.ents[j].len < st.ents[i].off
  {
    hide ThreadsOk, IndexOk, LogOk;
    assert Apart((st.ents[i].off, st.ents[i].len), (st.ents[j].off, st.ents[j].len));
  }

  /** Nothing published is ever withdrawn or altered. */
  ghost predicate Keeps(a: State, b: State) {
    && (forall id :: Published(a.idx, id) ==>
          Published(b.idx, id) && Text(b.slab, b.ents, id) == Text(a.slab, a.ents, id))
    && a.log <= b.log
  }

  // ---------------------------------------------------------------------
  // Every step keeps it.
  // ---------------------------------------------------------------------

  /** A step that changes nothing but a thread's program counter, to one without claims. */
  lemma GotoKeeps(st: State, hash: seq<byte> -> nat, t: nat, pc: Pc)
    requires Inv(st, hash) && PcOk(st, pc) && OffOf(pc).None? && IdOf(pc).None?
    ensures Inv(Goto(st, t, pc), hash) && Keeps(st, Goto(st, t, pc))
  {
    var st' := Goto(st, t, pc);
    forall u | u in st'.threads
      ensures PcOk(st', st'.threads[u])
    {
      assert u != t ==> PcOk(st, st.threads[u]);
    }
  }

  lemma FinishKeeps(st: State, hash: seq<byte> -> nat, t: nat, r: Ret)
    requires Inv(st, hash)
    requires r.full || (if r.s == [] then r.id == 0 else Published(st.idx, r.id) && Text(st.slab, st.ents, r.id) == r.s)
    ensures Inv(Finish(st, t, r), hash) && Keeps(st, Finish(st, t, r))
  {
    GotoKeeps(st, hash, t, Idle);
    hide Text, Published;
    var st1, st' := Goto(st, t, Idle), Finish(st, t, r);
    forall u | u in st'.threads
      ensures PcOk(st', st'.threads[u])
    {
      assert PcOk(st1, st1.threads[u]);
    }
  }

  /** What a program counter relies on is the same in `a` and `b`. */
  ghost predicate Undisturbed(a: State, b: State, pc: Pc) {
    && a.ranges <= b.ranges && a.entCur <= b.entCur && |a.slab| == |b.slab| && |a.ents| == |b.ents|
    && (OffOf(pc).Some? && Holds(a, pc.s, OffOf(pc).value) ==> Holds(b, pc.s, OffOf(pc).value))
    && (IdOf(pc).Some? ==>
          && (IdOf(pc).value in a.recorded <==> IdOf(pc).value in b.recorded)
          && (IdOf(pc).value < |a.ents| ==> a.ents[IdOf(pc).value] == b.ents[IdOf(pc).value])
          && (Published(b.idx, IdOf(pc).value) ==> Published(a.idx, IdOf(pc).value)))
  }

  lemma PcOkMoves(a: State, b: State, pc: Pc)
    requires PcOk(a, pc) && Undisturbed(a, b, pc)
    ensures PcOk(b, pc)
  {
    hide Holds, Published;
  }

  lemma HoldsSame(a: State, b: State, s: seq<byte>, off: nat)
    requires a.slab == b.slab
    ensures Holds(a, s, off) <==> Holds(b, s, off)
  {
  }

  /** Thread `t` moves to `pc`, claims nothing another thread holds and disturbs none of them. */
  lemma ThreadsMove(a: State, b: State, t: nat, pc: Pc)
    requires ThreadsOk(a) && b.threads == a.threads[t := pc] && PcOk(b, pc)
    requires forall u :: u in a.threads && u != t ==>
               && Undisturbed(a, b, a.threads[u])
               && Different(OffOf(pc), OffOf(a.threads[u])) && Different(IdOf(pc), IdOf(a.threads[u]))
    ensures ThreadsOk(b)
  {
    forall u | u in b.threads
      ensures PcOk(b, b.threads[u])
    {
      hide PcOk, Undisturbed;
      if u != t {
        PcOkMoves(a, b, a.threads[u]);
      }
    }
    hide PcOk, Undisturbed;
  }

  /** Steps that leave the index and the log alone and every recorded text as it was. */
  lemma TextsKept(a: State, b: State, hash: seq<byte> -> nat)
    requires PublishedRecorded(a) && IndexOk(a, hash) && LogOk(a)
    requires b.idx == a.idx && b.log == a.log && a.recorded <= b.recorded
    requires forall id :: id in a.recorded ==> Text(b.slab, b.ents, id) == Text(a.slab, a.ents, id)
    ensures IndexOk(b, hash) && LogOk(b) && Keeps(a, b)
  {
    hide Text;
    assert forall id :: Published(a.idx, id) ==> id in a.recorded;
  }

  ghost predicate PublishedRecorded(st: State) {
    forall id :: Published(st.idx, id) ==> id in st.recorded
  }

  /** The fetch-and-add on the slab cursor hands out a fresh range. */
  lemma AllocatingKeeps(st: State, hash: seq<byte> -> nat, t: nat)
    requires Inv(st, hash) && PcOf(st.threads, t).Allocating?
    ensures Inv(Next(st, hash, t), hash) && Keeps(st, Next(st, hash, t))
  {
    var st' := Next(st, hash, t);
    TextsKept(st, st', hash);
    hide Published, Text, Holds, IndexOk, LogOk, Keeps;
    var r := (st.slabCur, |st.threads[t].s|);
    assert PcOk(st, st.threads[t]);
    assert RangesOk(st') by {
      hide ThreadsOk, RecordedOk;
      assert forall q :: q in st.ranges ==> Apart(r, q) && Apart(q, r);
    }
    forall u | u in st.threads && u != t
      ensures Undisturbed(st, st', st.threads[u])
      ensures Different(OffOf(st'.threads[t]), OffOf(st.threads[u]))
              && Different(IdOf(st'.threads[t]), IdOf(st.threads[u]))
    {
      assert PcOk(st, st.threads[u]);
      if OffOf(st.threads[u]).Some? {
        HoldsSame(st, st', st.threads[u].s, OffOf(st.threads[u]).value);
      }
    }
    ThreadsMove(st, st', t, st'.threads[t]);
    hide PcOk, ThreadsOk, Undisturbed;
    assert forall id :: id in st.recorded ==> st.ents[id].off < st.slabCur;
  }

  /** The number fetched from the entry cursor belongs to this thread alone. */
  lemma NumberingKeeps(st: State, hash: seq<byte> -> nat, t: nat)
    requires Inv(st, hash) && PcOf(st.threads, t).Numbering?
    ensures Inv(Next(st, hash, t), hash) && Keeps(st, Next(st, hash, t))
  {
    var st' := Next(st, hash, t);
    TextsKept(st, st', hash);
    hide Published, Text, Holds, IndexOk, LogOk, Keeps;
    var pc := st.threads[t];
    assert PcOk(st, pc);
    HoldsSame(st, st', pc.s, pc.off);
    forall u | u in st.threads && u != t
      ensures Undisturbed(st, st', st.threads[u])
      ensures Different(OffOf(st'.threads[t]), OffOf(st.threads[u]))
              && Different(IdOf(st'.threads[t]), IdOf(st.threads[u]))
    {
      assert PcOk(st, st.threads[u]) && Different(OffOf(pc), OffOf(st.threads[u]));
      if OffOf(st.threads[u]).Some? {
        HoldsSame(st, st', st.threads[u].s, OffOf(st.threads[u]).value);
      }
    }
    ThreadsMove(st, st', t, st'.threads[t]);
    hide PcOk, ThreadsOk, Undisturbed;
  }

  lemma OverwriteHolds(slab: seq<byte>, off: nat, s: seq<byte>, lo: nat, hi: nat)
    requires off + |s| <= |slab| && lo <= hi <= |slab|
    ensures Overwrite(slab, off, s)[off..off + |s|] == s
    ensures hi < off || off + |s| < lo ==> Overwrite(slab, off, s)[lo..hi] == slab[lo..hi]
  {
    var r := Overwrite(slab, off, s);
    assert r[off..off + |s|] == s;
    if hi < off || off + |s| < lo {
      assert r[lo..hi] == slab[lo..hi];
    }
  }

  /** Writing into the claimed range disturbs no other range and no recorded entry. */
  lemma CopyingElsewhere(st: State, hash: seq<byte> -> nat, t: nat)
    requires Inv(st, hash) && PcOf(st.threads, t).Copying? && InBounds(st, t)
    ensures var st' := Next(st, hash, t);
            && (forall u :: u in st.threads && u != t ==> Undisturbed(st, st', st.threads[u]))
            && (forall id :: id in st.recorded ==> Text(st'.slab, st'.ents, id) == Text(st.slab, st.ents, id))
  {
    hide IndexOk, LogOk;
    var st' := Next(st, hash, t);
    var pc := st.threads[t];
    assert PcOk(st, pc);
    forall u | u in st.threads && u != t
      ensures Undisturbed(st, st', st.threads[u])
    {
      var qc := st.threads[u];
      assert PcOk(st, qc);
      if OffOf(qc).Some? && Holds(st, qc.s, OffOf(qc).value) {
        assert Different(OffOf(pc), OffOf(qc));
        assert Apart((pc.off, |pc.s|), (OffOf(qc).value, |qc.s|));
        OverwriteHolds(st.slab, pc.off, pc.s, OffOf(qc).value, OffOf(qc).value + |qc.s|);
      }
    }
    forall id | id in st.recorded
      ensures Text(st'.slab, st'.ents, id) == Text(st.slab, st.ents, id)
    {
      var e := st.ents[id];
      assert OffOf(pc) == Some(e.off) ==> IdOf(pc) == Some(id);
      assert Apart((pc.off, |pc.s|), (e.off, e.len));
      if e.off + e.len <= SLAB {
        OverwriteHolds(st.slab, pc.off, pc.s, e.off, e.off + e.len);
      }
    }
  }

  lemma CopyingKeeps(st: State, hash: seq<byte> -> nat, t: nat)
    requires Inv(st, hash) && PcOf(st.threads, t).Copying? && InBounds(st, t)
    ensures Inv(Next(st, hash, t), hash) && Keeps(st, Next(st, hash, t))
  {
    assert PublishedRecorded(st);
    hide Text, Published, LogOk, Keeps, Undisturbed, Overwrite, Apart;
    CopyingElsewhere(st, hash, t);
    var st' := Next(st, hash, t);
    TextsKept(st, st', hash);
    hide IndexOk;
    var pc := st.threads[t];
    assert PcOk(st, pc);
    OverwriteHolds(st.slab, pc.off, pc.s, 0, 0);
    assert PcOk(st', st'.threads[t]);
    hide PcOk;
    assert forall u :: u in st.threads && u != t ==>
      Different(OffOf(pc), OffOf(st.threads[u])) && Different(IdOf(Numbering(pc.s, pc.off)), IdOf(st.threads[u]));
    ThreadsMove(st, st', t, st'.threads[t]);
    hide ThreadsOk;
  }

  lemma RecordingThreads(st: State, hash: seq<byte> -> nat, t: nat)
    requires Inv(st, hash) && PcOf(st.threads, t).Recording?
    requires PcOf(st.threads, t).id < ENTS && PublishedRecorded(st)
    ensures ThreadsOk(Next(st, hash, t))
  {
    hide Text, RecordedOk, LogOk, IndexOk, Published, Holds;
    var st' := Next(st, hash, t);
    var pc := st.threads[t];
    assert PcOk(st, pc);
    assert !Published(st.idx, pc.id);
    HoldsSame(st, st', pc.s, pc.off);
    forall u | u in st.threads && u != t
      ensures Undisturbed(st, st', st.threads[u])
    {
      assert Different(IdOf(pc), IdOf(st.threads[u]));
      RecordingUndisturbed(st, hash, t, st.threads[u]);
    }
    assert PcOk(st', st'.threads[t]);
    hide RangesOk, PcOk, Undisturbed;
    assert forall u :: u in st.threads && u != t ==>
      Different(OffOf(pc), OffOf(st.threads[u])) && Different(IdOf(pc), IdOf(st.threads[u]));
    ThreadsMove(st, st', t, st'.threads[t]);
  }

  lemma RecordingUndisturbed(st: State, hash: seq<byte> -> nat, t: nat, qc: Pc)
    requires RangesOk(st) && PcOf(st.threads, t).Recording?
    requires PcOf(st.threads, t).id < ENTS && Different(IdOf(PcOf(st.threads, t)), IdOf(qc))
    ensures Undisturbed(st, Next(st, hash, t), qc)
  {
    hide Published, Holds;
    if OffOf(qc).Some? {
      HoldsSame(st, Next(st, hash, t), qc.s, OffOf(qc).value);
    }
  }

  lemma RecordingRecorded(st: State, hash: seq<byte> -> nat, t: nat)
    requires Inv(st, hash) && PcOf(st.threads, t).Recording?
    requires PcOf(st.threads, t).id < ENTS
    ensures RecordedOk(Next(st, hash, t))
  {
    hide Text, Published, Holds, IndexOk, LogOk;
    var st' := Next(st, hash, t);
    var pc := st.threads[t];
    assert PcOk(st, pc);
    forall id | id in st.recorded
      ensures st.ents[id].off != pc.off
    {
      assert OffOf(pc) == Some(st.ents[id].off) ==> IdOf(pc) == Some(id);
    }
  }

  lemma RecordingKeeps(st: State, hash: seq<byte> -> nat, t: nat)
    requires Inv(st, hash) && PcOf(st.threads, t).Recording?
    requires PcOf(st.threads, t).id < ENTS
    ensures Inv(Next(st, hash, t), hash) && Keeps(st, Next(st, hash, t))
  {
    var st' := Next(st, hash, t);
    var pc := st.threads[t];
    assert PcOk(st, pc);
    RecordingThreads(st, hash, t);
    RecordingRecorded(st, hash, t);
    hide ThreadsOk;
    TextsKept(st, st', hash);
  }

  // ---------------------------------------------------------------------
  // Publishing under the bucket's lock.
  // ---------------------------------------------------------------------

  /** The thread's own entry resolves to its string. */
  lemma OwnText(st: State, hash: seq<byte> -> nat, pc: Pc)
    requires Inv(st, hash) && pc.Publishing? && PcOk(st, pc)
    ensures Text(st.slab, st.ents, pc.id) == pc.s && pc.s != []
  {
    hide ThreadsOk, IndexOk, LogOk, Published;
  }

  /** Whatever is published under `s` is in the bucket of its hash. */
  lemma InItsBucket(st: State, hash: seq<byte> -> nat, id: nat)
    requires IndexOk(st, hash) && Published(st.idx, id)
    ensures id in Bucket(st.idx, hash(Text(st.slab, st.ents, id)))
  {
    var h :| h in st.idx && id in st.idx[h];
  }

  lemma PushPublishes(idx: map<nat, seq<nat>>, h: nat, id: nat, i: nat)
    ensures Published(idx[h := Bucket(idx, h) + [id]], i) <==> Published(idx, i) || i == id
  {
    var idx' := idx[h := Bucket(idx, h) + [id]];
    if Published(idx, i) {
      var g :| g in idx && i in idx[g];
      assert g in idx' && i in idx'[g];
    }
    if i == id {
      assert id in idx'[h];
    }
  }

  lemma PublishIndex(st: State, hash: seq<byte> -> nat, pc: Pc)
    requires Inv(st, hash) && pc.Publishing? && PcOk(st, pc)
    requires FindIn(st.slab, st.ents, Bucket(st.idx, hash(pc.s)), pc.s, pc.id).None?
    ensures IndexOk(st.(idx := st.idx[hash(pc.s) := Bucket(st.idx, hash(pc.s)) + [pc.id]]), hash)
  {
    OwnText(st, hash, pc);
    hide RangesOk, ThreadsOk, RecordedOk, LogOk, Text, Published;
    var v := Bucket(st.idx, hash(pc.s));
    var st' := st.(idx := st.idx[hash(pc.s) := v + [pc.id]]);
    forall i | Published(st.idx, i)
      ensures Text(st.slab, st.ents, i) != pc.s
    {
      InItsBucket(st, hash, i);
    }
    forall i
      ensures Published(st'.idx, i) <==> Published(st.idx, i) || i == pc.id
    {
      PushPublishes(st.idx, hash(pc.s), pc.id, i);
    }
  }

  /** Publishing `pc.id` is no business of the other threads. */
  lemma PublishThreads(st: State, st1: State, t: nat)
    requires ThreadsOk(st) && t in st.threads && IdOf(st.threads[t]).Some?
    requires st1 == st.(idx := st1.idx, threads := st.threads[t := Idle])
    requires forall i :: Published(st1.idx, i) <==> Published(st.idx, i) || i == IdOf(st.threads[t]).value
    ensures ThreadsOk(st1)
  {
    hide Published, Holds;
    forall u | u in st.threads && u != t
      ensures Undisturbed(st, st1, st.threads[u])
    {
      assert Different(IdOf(st.threads[t]), IdOf(st.threads[u]));
      if OffOf(st.threads[u]).Some? {
        HoldsSame(st, st1, st.threads[u].s, OffOf(st.threads[u]).value);
      }
    }
    ThreadsMove(st, st1, t, Idle);
  }

  lemma PublishKeeps(st: State, hash: seq<byte> -> nat, t: nat)
    requires Inv(st, hash) && PcOf(st.threads, t).Publishing?
    requires FindIn(st.slab, st.ents, Bucket(st.idx, hash(PcOf(st.threads, t).s)), PcOf(st.threads, t).s,
                    PcOf(st.threads, t).id).None?
    ensures Inv(Next(st, hash, t), hash) && Keeps(st, Next(st, hash, t))
  {
    var pc := st.threads[t];
    assert PcOk(st, pc);
    var h := hash(pc.s);
    var idx' := st.idx[h := Bucket(st.idx, h) + [pc.id]];
    var st1 := st.(idx := idx', threads := st.threads[t := Idle]);
    PublishIndex(st, hash, pc);
    OwnText(st, hash, pc);
    forall i
      ensures Published(idx', i) <==> Published(st.idx, i) || i == pc.id
    {
      PushPublishes(st.idx, h, pc.id, i);
    }
    PublishThreads(st, st1, t);
    PublishRest(st, st1, hash, t);
    FinishKeeps(st1, hash, t, Ret(pc.s, pc.id, false));
    hide Inv, Text, Published, FindIn, Bucket, PcOk;
    assert Next(st, hash, t) == Finish(st1, t, Ret(pc.s, pc.id, false));
  }

  lemma PublishRest(st: State, st1: State, hash: seq<byte> -> nat, t: nat)
    requires Inv(st, hash) && st1 == st.(idx := st1.idx, threads := st.threads[t := Idle])
    requires ThreadsOk(st1) && IndexOk(st.(idx := st1.idx), hash)
    requires forall i :: Published(st.idx, i) ==> Published(st1.idx, i)
    ensures Inv(st1, hash) && Keeps(st, st1)
  {
    hide ThreadsOk, Published, Text;
  }

  lemma LookUpKeeps(st: State, hash: seq<byte> -> nat, t: nat)
    requires Inv(st, hash) && PcOf(st.threads, t).LookingUp?
    ensures Inv(Next(st, hash, t), hash) && Keeps(st, Next(st, hash, t))
  {
    var pc := st.threads[t];
    assert PcOk(st, pc);
    var v := Bucket(st.idx, hash(pc.s));
    var r := FindIn(st.slab, st.ents, v, pc.s, 0);
    hide Text, FindIn;
    if r.Some? {
      assert hash(pc.s) in st.idx && r.value in st.idx[hash(pc.s)];
      hide Inv, Published;
      FinishKeeps(st, hash, t, Ret(pc.s, r.value, false));
    } else {
      hide Inv, Published, Bucket;
      GotoKeeps(st, hash, t, CheckingEnts(pc.s));
    }
  }

  lemma PublishingKeeps(st: State, hash: seq<byte> -> nat, t: nat)
    requires Inv(st, hash) && PcOf(st.threads, t).Publishing?
    ensures Inv(Next(st, hash, t), hash) && Keeps(st, Next(st, hash, t))
  {
    var pc := st.threads[t];
    var v := Bucket(st.idx, hash(pc.s));
    var r := FindIn(st.slab, st.ents, v, pc.s, pc.id);
    if r.Some? {
      hide Text, FindIn;
      assert PcOk(st, pc);
      assert hash(pc.s) in st.idx && r.value in st.idx[hash(pc.s)];
      hide Inv, Published;
      FinishKeeps(st, hash, t, Ret(pc.s, r.value, false));
    } else {
      hide Inv;
      PublishKeeps(st, hash, t);
    }
  }

  /** Every atomic step of every thread that touches only memory that is there keeps the invariant and withdraws
      nothing. */
  lemma StepKeeps(st: State, hash: seq<byte> -> nat, t: nat)
    requires Inv(st, hash) && InBounds(st, t)
    ensures Steppable(st, t) && Inv(Next(st, hash, t), hash) && Keeps(st, Next(st, hash, t))
  {
    hide IndexOk, LogOk, Published, FindIn;
    var pc := PcOf(st.threads, t);
    assert PcOk(st, pc);
    hide Inv;
    match pc
    case Idle =>
    case LookingUp(s) => LookUpKeeps(st, hash, t);
    case CheckingEnts(s) =>
      GotoKeeps(st, hash, t, CheckingSlab(s));
      GotoKeeps(st, hash, t, FallingBack(s));
    case CheckingSlab(s) =>
      GotoKeeps(st, hash, t, Allocating(s));
      GotoKeeps(st, hash, t, FallingBack(s));
    case FallingBack(s) =>
      var v := Bucket(st.idx, hash(s));
      FinishKeeps(st, hash, t, Ret(s, if v == [] then 0 else v[0], true));
    case Allocating(s) => AllocatingKeeps(st, hash, t);
    case Copying(_, _) => CopyingKeeps(st, hash, t);
    case Numbering(_, _) => NumberingKeeps(st, hash, t);
    case Recording(_, _, _) => RecordingKeeps(st, hash, t);
    case Publishing(_, _, _) => PublishingKeeps(st, hash, t);
  }

  // ---------------------------------------------------------------------
  // Whole runs.
  // ---------------------------------------------------------------------

  /** One line of a schedule: a call starts on an idle thread, or a thread takes a step. */
  datatype Act = Call(t: nat, s: seq<byte>) | Step(t: nat)

  /** A call on a busy thread is passed over. A thread about to touch memory that is not there, on which the
      original's behaviour is undefined, stands still. */
  ghost function Do(st: State, hash: seq<byte> -> nat, a: Act): (r: State)
    requires Inv(st, hash)
    ensures Inv(r, hash) && Keeps(st, r)
  {
    match a
    case Call(t, s) =>
      if !PcOf(st.threads, t).Idle? then st
      else if s == [] then FinishKeeps(st, hash, t, Ret(s, 0, false)); Begin(st, t, s)
      else GotoKeeps(st, hash, t, LookingUp(s)); Begin(st, t, s)
    case Step(t) =>
      if !InBounds(st, t) then st
      else StepKeeps(st, hash, t); Next(st, hash, t)
  }

  /** Every interleaving: the invariant holds at the end, and whatever was published or
      returned at any earlier point still stands unchanged. */
  ghost function Play(st: State, hash: seq<byte> -> nat, acts: seq<Act>): (r: State)
    requires Inv(st, hash)
    ensures Inv(r, hash) && Keeps(st, r)
    decreases |acts|
  {
    if acts == [] then st
    else
      var mid := Do(st, hash, acts[0]);
      var end := Play(mid, hash, acts[1..]);
      KeepsTransitive(st, mid, end);
      end
  }

  lemma KeepsTransitive(a: State, b: State, c: State)
    requires Keeps(a, b) && Keeps(b, c)
    ensures Keeps(a, c)
  {
    hide Published, Text;
  }

  // ---------------------------------------------------------------------
  // Over-long strings.
  // ---------------------------------------------------------------------

  /** An over-long call was turned away: it got 0, or the id of a published string that is not its own. */
  ghost predicate TurnedAway(st: State, r: Ret) {
    r.full && (r.id == 0 || (Published(st.idx, r.id) && Text(st.slab, st.ents, r.id) != r.s))
  }

  /** Past the size test the string is short. */
  predicate PcShort(pc: Pc) {
    pc.Idle? || pc.LookingUp? || pc.CheckingEnts? || pc.FallingBack? || |pc.s| <= MAX_STR
  }

  /** Everything recorded is short, so is every string past the size test, and every over-long call that has
      returned was turned away. */
  ghost predicate ShortOk(st: State) {
    SizesOk(st) && LongAway(st)
  }

  ghost predicate SizesOk(st: State) {
    && (forall id :: id in st.recorded && id < |st.ents| ==> st.ents[id].len <= MAX_STR)
    && (forall t :: t in st.threads ==> PcShort(st.threads[t]))
  }

  ghost predicate LongAway(st: State) {
    forall k :: 0 <= k < |st.log| && |st.log[k].s| > MAX_STR ==> TurnedAway(st, st.log[k])
  }

  /** What is published is short. */
  lemma PublishedShort(st: State, hash: seq<byte> -> nat, id: nat)
    requires Inv(st, hash) && ShortOk(st) && Published(st.idx, id)
    ensures |Text(st.slab, st.ents, id)| <= MAX_STR
  {
    hide RangesOk, ThreadsOk, LogOk;
    var h :| h in st.idx && id in st.idx[h];
    assert id in st.recorded;
  }

  lemma LongFull(st: State)
    requires forall k :: 0 <= k < |st.log| && |st.log[k].s| > MAX_STR ==> TurnedAway(st, st.log[k])
    ensures forall k :: 0 <= k < |st.log| && |st.log[k].s| > MAX_STR ==> st.log[k].full
  {
  }

  /** What was turned away before stays so. */
  lemma AwayKept(a: State, b: State)
    requires LongAway(a) && Keeps(a, b) && |b.log| <= |a.log| + 1
    requires |b.log| == |a.log| + 1 && |b.log[|a.log|].s| > MAX_STR ==> TurnedAway(b, b.log[|a.log|])
    ensures LongAway(b)
  {
    hide Published, Text;
    forall k | 0 <= k < |b.log| && |b.log[k].s| > MAX_STR
      ensures TurnedAway(b, b.log[k])
    {
      assert k < |a.log| ==> b.log[k] == a.log[k];
    }
  }

  /** What a step logs about an over-long string. */
  lemma StepAway(st: State, hash: seq<byte> -> nat, t: nat)
    requires Inv(st, hash) && ShortOk(st) && Steppable(st, t) && Keeps(st, Next(st, hash, t))
    ensures var st' := Next(st, hash, t);
            && |st.log| <= |st'.log| <= |st.log| + 1
            && (|st'.log| == |st.log| + 1 && |st'.log[|st.log|].s| > MAX_STR ==> TurnedAway(st', st'.log[|st.log|]))
  {
    hide RangesOk, ThreadsOk, RecordedOk, LogOk, Text, LongAway, FindIn;
    assert PcShort(PcOf(st.threads, t));
    match PcOf(st.threads, t)
    case LookingUp(s) =>
      var r := FindIn(st.slab, st.ents, Bucket(st.idx, hash(s)), s, 0);
      if r.Some? {
        assert hash(s) in st.idx && r.value in st.idx[hash(s)];
        PublishedShort(st, hash, r.value);
      }
    case FallingBack(s) =>
      var v := Bucket(st.idx, hash(s));
      if v != [] && |s| > MAX_STR {
        assert hash(s) in st.idx && v[0] in st.idx[hash(s)];
        PublishedShort(st, hash, v[0]);
      }
    case _ =>
  }

  lemma StepShort(st: State, hash: seq<byte> -> nat, t: nat)
    requires Inv(st, hash) && ShortOk(st) && InBounds(st, t)
    ensures Steppable(st, t) && ShortOk(Next(st, hash, t))
  {
    hide Inv, Keeps, Next, LongAway, SizesOk, TurnedAway;
    StepKeeps(st, hash, t);
    StepAway(st, hash, t);
    AwayKept(st, Next(st, hash, t));
    StepSizes(st, hash, t);
  }

  lemma StepSizes(st: State, hash: seq<byte> -> nat, t: nat)
    requires SizesOk(st) && Steppable(st, t)
    ensures SizesOk(Next(st, hash, t))
  {
    hide Text, FindIn, Overwrite;
    assert PcShort(PcOf(st.threads, t));
  }

  lemma DoShort(st: State, hash: seq<byte> -> nat, a: Act)
    requires Inv(st, hash) && ShortOk(st)
    ensures ShortOk(Do(st, hash, a))
  {
    hide Inv;
    match a
    case Call(t, s) =>
      hide Published, Text;
      AwayKept(st, Do(st, hash, a));
      hide LongAway, Keeps;
    case Step(t) =>
      hide ShortOk, Next;
      if InBounds(st, t) {
        StepShort(st, hash, t);
      }
  }

  /** In every run, from any state a run can reach, every over-long call that returns is turned away. */
  lemma {:induction false} LongTurnedAway(st: State, hash: seq<byte> -> nat, acts: seq<Act>)
    requires Inv(st, hash) && ShortOk(st)
    ensures ShortOk(Play(st, hash, acts))
    ensures var end := Play(st, hash, acts);
            forall k :: 0 <= k < |end.log| && |end.log[k].s| > MAX_STR ==> TurnedAway(end, end.log[k])
    decreases |acts|
  {
    hide Inv, Keeps, Do, TurnedAway;
    if acts == [] {
    } else {
      hide ShortOk;
      DoShort(st, hash, acts[0]);
      LongTurnedAway(Do(st, hash, acts[0]), hash, acts[1..]);
    }
  }

  // ---------------------------------------------------------------------
  // What fits.
  // ---------------------------------------------------------------------

  /** Over-long strings are turned away before they claim anything. */
  function Cost(s: seq<byte>): (n: nat) {
    if |s| > MAX_STR then 0 else |s| + 1
  }

  /** Slab bytes a thread may still claim in its call. */
  function Owed(pc: Pc): (n: nat) {
    match pc
    case LookingUp(s) => Cost(s)
    case CheckingEnts(s) => Cost(s)
    case CheckingSlab(s) => |s| + 1
    case Allocating(s) => |s| + 1
    case _ => 0
  }

  /** Entry numbers a thread may still claim in its call. */
  function OwedIds(pc: Pc): (n: nat) {
    if Owed(pc) > 0 || pc.Copying? || pc.Numbering? then 1 else 0
  }

  ghost function Owes(threads: map<nat, Pc>): (m: map<nat, nat>) {
    map t | t in threads :: Owed(threads[t])
  }

  ghost function OwesIds(threads: map<nat, Pc>): (m: map<nat, nat>) {
    map t | t in threads :: OwedIds(threads[t])
  }

  predicate Claims(a: Act) {
    a.Call? && 0 < |a.s| <= MAX_STR
  }

  /** What the calls of a schedule ask for: a slab range and an entry each, the empty string and over-long ones
      nothing. */
  function BytesOf(acts: seq<Act>): (n: nat) {
    if acts == [] then 0
    else (if Claims(acts[0]) then |acts[0].s| + 1 else 0) + BytesOf(acts[1..])
  }

  function CallsOf(acts: seq<Act>): (n: nat) {
    if acts == [] then 0 else (if Claims(acts[0]) then 1 else 0) + CallsOf(acts[1..])
  }

  /** The condition a caller can check beforehand: the short strings fit together. */
  predicate Affordable(acts: seq<Act>) {
    BytesOf(acts) < SLAB && CallsOf(acts) < ENTS
  }

  /** Nobody has given up on a short string. */
  predicate Proceeding(pc: Pc) {
    pc.FallingBack? ==> |pc.s| > MAX_STR
  }

  ghost predicate OnlyLongFull(log: seq<Ret>) {
    forall k :: 0 <= k < |log| && log[k].full ==> |log[k].s| > MAX_STR
  }

  /** Whatever has been claimed, is still owed and is yet to be called fits. */
  ghost predicate Affords(st: State, acts: seq<Act>) {
    && st.slabCur + SumMap(Owes(st.threads)) + BytesOf(acts) <= SLAB
    && st.entCur + SumMap(OwesIds(st.threads)) + CallsOf(acts) <= ENTS
    && (forall t :: t in st.threads ==> Proceeding(st.threads[t]))
    && OnlyLongFull(st.log)
  }

  lemma OwesUpdate(threads: map<nat, Pc>, t: nat, pc: Pc)
    ensures SumMap(Owes(threads[t := pc])) == SumMap(Owes(threads)) - Owed(PcOf(threads, t)) + Owed(pc)
    ensures SumMap(OwesIds(threads[t := pc])) == SumMap(OwesIds(threads)) - OwedIds(PcOf(threads, t)) + OwedIds(pc)
    ensures SumMap(Owes(threads)) >= Owed(PcOf(threads, t)) && SumMap(OwesIds(threads)) >= OwedIds(PcOf(threads, t))
  {
    hide Owed, OwedIds, SumMap;
    assert Owed(Idle) == 0 && OwedIds(Idle) == 0 by { IdleOwesNothing(); }
    SumMapUpdate(Owes(threads), t, Owed(pc));
    SumMapUpdate(OwesIds(threads), t, OwedIds(pc));
    assert Owes(threads[t := pc]) == Owes(threads)[t := Owed(pc)];
    assert OwesIds(threads[t := pc]) == OwesIds(threads)[t := OwedIds(pc)];
    if t in threads {
      SumMapRemove(Owes(threads), t);
      SumMapRemove(OwesIds(threads), t);
    }
  }

  lemma IdleOwesNothing()
    ensures Owed(Idle) == 0 && OwedIds(Idle) == 0
  {
  }

  /** One step pays for its claim out of what the thread owed. */
  lemma StepPays(st: State, hash: seq<byte> -> nat, t: nat)
    requires Steppable(st, t) && Proceeding(PcOf(st.threads, t)) && OnlyLongFull(st.log)
    requires st.slabCur + Owed(PcOf(st.threads, t)) <= SLAB && st.entCur + OwedIds(PcOf(st.threads, t)) <= ENTS
    ensures var st' := Next(st, hash, t);
            var pc, pc' := PcOf(st.threads, t), PcOf(st'.threads, t);
            && Proceeding(pc') && OnlyLongFull(st'.log)
            && st'.slabCur + Owed(pc') <= st.slabCur + Owed(pc) && st'.entCur + OwedIds(pc') <= st.entCur + OwedIds(pc)
            && st'.threads == if pc.Idle? then st.threads else st.threads[t := pc']
  {
    hide FindIn, Overwrite;
    match PcOf(st.threads, t)
    case LookingUp(s) =>
    case CheckingEnts(s) =>
    case CheckingSlab(s) =>
    case Allocating(s) =>
    case Publishing(s, off, id) =>
    case _ =>
  }

  /** The step's claim fits, and what remains still does. */
  lemma AffordStep(st: State, hash: seq<byte> -> nat, t: nat, acts: seq<Act>)
    requires Inv(st, hash) && Affords(st, acts)
    ensures InBounds(st, t) && Steppable(st, t) && Affords(Next(st, hash, t), acts)
  {
    hide SumMap, Owes, OwesIds, Owed, OwedIds, BytesOf, CallsOf, Next, InBounds, Inv, Keeps, OnlyLongFull,
         Proceeding;
    var pc := PcOf(st.threads, t);
    OwesUpdate(st.threads, t, Idle);
    IdleProceeds();
    assert Proceeding(pc);
    CanStep(st, hash, t);
    StepPays(st, hash, t);
    var st' := Next(st, hash, t);
    OwesUpdate(st.threads, t, PcOf(st'.threads, t));
  }

  lemma IdleProceeds()
    ensures Proceeding(Idle)
  {
  }

  lemma CanStep(st: State, hash: seq<byte> -> nat, t: nat)
    requires Inv(st, hash) && st.slabCur <= SLAB && st.entCur <= ENTS
    ensures Steppable(st, t)
  {
    hide RecordedOk, IndexOk, LogOk, Published;
    assert PcOk(st, PcOf(st.threads, t));
  }

  lemma AffordCall(st: State, t: nat, s: seq<byte>, acts: seq<Act>)
    requires Affords(st, acts) && acts != [] && acts[0] == Call(t, s)
    ensures Affords(st, acts[1..])
    ensures PcOf(st.threads, t).Idle? ==> Affords(Begin(st, t, s), acts[1..])
  {
    hide SumMap, Owes, OwesIds;
    OwesUpdate(st.threads, t, Idle);
    OwesUpdate(st.threads, t, LookingUp(s));
  }

  lemma AffordDo(st: State, hash: seq<byte> -> nat, acts: seq<Act>)
    requires Inv(st, hash) && Affords(st, acts) && acts != []
    ensures (acts[0].Step? ==> InBounds(st, acts[0].t)) && Affords(Do(st, hash, acts[0]), acts[1..])
  {
    hide Inv, Affords, Next, Keeps;
    match acts[0]
    case Call(t, s) =>
      AffordCall(st, t, s, acts);
    case Step(t) =>
      AffordRest(st, acts);
      AffordStep(st, hash, t, acts[1..]);
  }

  lemma AffordRest(st: State, acts: seq<Act>)
    requires Affords(st, acts) && acts != [] && acts[0].Step?
    ensures Affords(st, acts[1..])
  {
    hide SumMap, Owes, OwesIds;
  }

  /** If the short strings the schedule calls for fit together, none of them is turned away, and every step touches
      only memory that is there. */
  lemma {:induction false} AffordPlay(st: State, hash: seq<byte> -> nat, acts: seq<Act>)
    requires Inv(st, hash) && Affords(st, acts)
    ensures OnlyLongFull(Play(st, hash, acts).log)
    ensures forall k :: 0 <= k < |acts| && acts[k].Step? ==> InBounds(Play(st, hash, acts[..k]), acts[k].t)
    decreases |acts|
  {
    hide Inv, Do, InBounds, Keeps;
    if acts == [] {
      hide SumMap, Owes, OwesIds;
    } else {
      hide Affords;
      AffordDo(st, hash, acts);
      var mid := Do(st, hash, acts[0]);
      AffordPlay(mid, hash, acts[1..]);
      forall k | 0 <= k < |acts| && acts[k].Step?
        ensures InBounds(Play(st, hash, acts[..k]), acts[k].t)
      {
        if k > 0 {
          assert acts[..k][0] == acts[0] && acts[..k][1..] == acts[1..][..k - 1];
          assert acts[1..][k - 1] == acts[k];
        }
      }
    }
  }

  lemma StartAffords(st: State, acts: seq<Act>)
    requires st.slabCur == 1 && st.entCur == 1 && st.threads == map[] && st.log == []
    ensures Affords(st, acts) <==> Affordable(acts)
  {
    hide BytesOf, CallsOf;
    assert Owes(st.threads) == map[] && OwesIds(st.threads) == map[];
    SumMapNothing<nat>();
  }

  // ---------------------------------------------------------------------
  // Calls return.
  // ---------------------------------------------------------------------

  /** How many more steps a busy thread takes at most, after the next one, until its call returns. */
  function Left(pc: Pc): (n: nat) {
    match pc
    case LookingUp(_) => 7
    case CheckingEnts(_) => 6
    case CheckingSlab(_) => 5
    case Allocating(_) => 4
    case Copying(_, _) => 3
    case Numbering(_, _) => 2
    case Recording(_, _, _) => 1
    case _ => 0
  }

  /** A busy thread's step concerns no other thread. It brings the call nearer to its return, or the call returns:
      then exactly one result comes to the log, under the call's own string. */
  lemma StepProgress(st: State, hash: seq<byte> -> nat, t: nat)
    requires Steppable(st, t) && !PcOf(st.threads, t).Idle?
    ensures var st1 := Next(st, hash, t);
            var pc, pc1 := PcOf(st.threads, t), PcOf(st1.threads, t);
            && st1.threads == st.threads[t := pc1]
            && if pc1.Idle? then
                 |st1.log| == |st.log| + 1 && st1.log[..|st.log|] == st.log && st1.log[|st.log|].s == pc.s
               else
                 pc1.s == pc.s && Left(pc1) < Left(pc) && st1.log == st.log
  {
    hide FindIn, Bucket, Overwrite;
    var st1, pc := Next(st, hash, t), PcOf(st.threads, t);
    match pc
    case LookingUp(s) => assert st1.threads == st.threads[t := PcOf(st1.threads, t)];
    case Publishing(s, off, id) => assert st1.threads == st.threads[t := Idle];
    case _ =>
  }

  /** A string published before is found at once, and nothing is claimed for it. */
  lemma KnownAtOnce(st: State, hash: seq<byte> -> nat, t: nat, id: nat)
    requires Inv(st, hash) && PcOf(st.threads, t).LookingUp? && Published(st.idx, id)
    requires Text(st.slab, st.ents, id) == PcOf(st.threads, t).s
    ensures Next(st, hash, t)
         == st.(threads := st.threads[t := Idle], log := st.log + [Ret(PcOf(st.threads, t).s, id, false)])
  {
    hide Text;
    var s := PcOf(st.threads, t).s;
    InItsBucket(st, hash, id);
    PublishedPositive(st, hash);
    var r := FindIn(st.slab, st.ents, Bucket(st.idx, hash(s)), s, 0);
    assert r.Some? && Published(st.idx, r.value);
  }

  /** How often a schedule lets thread `t` step. */
  function Turns(acts: seq<Act>, t: nat): (n: nat) {
    if acts == [] then 0 else (if acts[0] == Step(t) then 1 else 0) + Turns(acts[1..], t)
  }

  ghost predicate Returned(log: seq<Ret>, lo: nat, s: seq<byte>) {
    exists k :: lo <= k < |log| && log[k].s == s
  }

  /** What others do leaves a busy thread where it is. */
  lemma OthersAct(st: State, hash: seq<byte> -> nat, a: Act, t: nat)
    requires Inv(st, hash) && a != Step(t) && !PcOf(st.threads, t).Idle?
    ensures PcOf(Do(st, hash, a).threads, t) == PcOf(st.threads, t) && st.log <= Do(st, hash, a).log
  {
    hide Inv, Keeps, Next, InBounds;
    if a.Step? && InBounds(st, a.t) {
      StepKeeps(st, hash, a.t);
      if PcOf(st.threads, a.t).Idle? {
        IdleStays(st, hash, a.t);
      } else {
        StepProgress(st, hash, a.t);
      }
    }
  }

  lemma IdleStays(st: State, hash: seq<byte> -> nat, t: nat)
    requires Steppable(st, t) && PcOf(st.threads, t).Idle?
    ensures Next(st, hash, t) == st
  {
  }

  /** Whatever the other threads do in between: a call that gets eight steps has returned, if the short strings
      of the schedule fit. */
  lemma {:induction false} CallReturns(st: State, hash: seq<byte> -> nat, acts: seq<Act>, t: nat)
    requires Inv(st, hash) && Affords(st, acts)
    requires !PcOf(st.threads, t).Idle? && Turns(acts, t) > Left(PcOf(st.threads, t))
    ensures Returned(Play(st, hash, acts).log, |st.log|, PcOf(st.threads, t).s)
    decreases |acts|
  {
    hide Inv, Affords, Left;
    var mid := Do(st, hash, acts[0]);
    AffordDo(st, hash, acts);
    if acts[0] == Step(t) {
      StepKeeps(st, hash, t);
      StepProgress(st, hash, t);
    } else {
      OthersAct(st, hash, acts[0], t);
    }
    if !PcOf(mid.threads, t).Idle? {
      CallReturns(mid, hash, acts[1..], t);
    }
  }

  // ---------------------------------------------------------------------
  // What goes wrong beyond that.
  // ---------------------------------------------------------------------

  ghost predicate Untouched(st: State) {
    && |st.slab| == SLAB && |st.ents| == ENTS && st.entCur == 1 && st.idx == map[] && st.recorded == {} && st.log == []
  }

  /** A call on a fresh thread while nothing is published: it gets as far as the capacity tests. */
  lemma CallToTests(st: State, hash: seq<byte> -> nat, t: nat, s: seq<byte>)
    requires Inv(st, hash) && s != [] && st.idx == map[] && PcOf(st.threads, t).Idle?
    ensures Play(st, hash, [Call(t, s), Step(t), Step(t)])
         == Goto(st, t, if |s| <= MAX_STR && st.entCur < ENTS then CheckingSlab(s) else FallingBack(s))
  {
    hide Inv, Keeps, Do;
    var acts := [Call(t, s), Step(t), Step(t)];
    assert acts[1..] == [Step(t), Step(t)] && acts[1..][1..] == [Step(t)];
    FirstDos(st, hash, t, s);
    PlayMore(st, hash, acts);
    PlayMore(Goto(st, t, LookingUp(s)), hash, acts[1..]);
    PlayOne(Goto(st, t, CheckingEnts(s)), hash, Step(t));
  }

  lemma FirstDos(st: State, hash: seq<byte> -> nat, t: nat, s: seq<byte>)
    requires Inv(st, hash) && s != [] && st.idx == map[] && PcOf(st.threads, t).Idle?
    ensures Do(st, hash, Call(t, s)) == Goto(st, t, LookingUp(s))
    ensures Inv(Goto(st, t, LookingUp(s)), hash) && Inv(Goto(st, t, CheckingEnts(s)), hash)
    ensures Do(Goto(st, t, LookingUp(s)), hash, Step(t)) == Goto(st, t, CheckingEnts(s))
    ensures Do(Goto(st, t, CheckingEnts(s)), hash, Step(t))
         == Goto(st, t, if |s| <= MAX_STR && st.entCur < ENTS then CheckingSlab(s) else FallingBack(s))
  {
    hide Inv, Keeps;
    var st1, st2 := Goto(st, t, LookingUp(s)), Goto(st, t, CheckingEnts(s));
    assert Do(st, hash, Call(t, s)) == st1;
    assert Bucket(st1.idx, hash(s)) == [];
    assert Goto(st1, t, CheckingEnts(s)) == st2;
    assert Do(st1, hash, Step(t)) == st2;
    var pc := if |s| <= MAX_STR && st.entCur < ENTS then CheckingSlab(s) else FallingBack(s);
    assert Goto(st2, t, pc) == Goto(st, t, pc);
  }

  lemma PlayOne(st: State, hash: seq<byte> -> nat, a: Act)
    requires Inv(st, hash)
    ensures Play(st, hash, [a]) == Do(st, hash, a)
  {
    hide Inv, Keeps, Do;
    assert [a][1..] == [];
  }

  lemma PlayMore(st: State, hash: seq<byte> -> nat, acts: seq<Act>)
    requires Inv(st, hash) && acts != []
    ensures Play(st, hash, acts) == Play(Do(st, hash, acts[0]), hash, acts[1..])
  {
    hide Inv, Keeps, Do;
  }

  lemma {:induction false} PlayJoin(st: State, hash: seq<byte> -> nat, x: seq<Act>, y: seq<Act>)
    requires Inv(st, hash)
    ensures Play(st, hash, x + y) == Play(Play(st, hash, x), hash, y)
    decreases |x|
  {
    hide Inv, Keeps, Do;
    if x == [] {
      assert x + y == y;
    } else {
      assert (x + y)[1..] == x[1..] + y;
      PlayJoin(Do(st, hash, x[0]), hash, x[1..], y);
    }
  }

  /** Two over-long strings, however different, are both turned away with id 0. */
  lemma OverlongShareId(st: State, hash: seq<byte> -> nat, s1: seq<byte>, s2: seq<byte>) returns (acts: seq<Act>)
    requires Inv(st, hash) && Untouched(st) && st.threads == map[] && |s1| > MAX_STR && |s2| > MAX_STR
    ensures Play(st, hash, acts).log == [Ret(s1, 0, true), Ret(s2, 0, true)]
  {
    var a1, a2 := [Call(0, s1), Step(0), Step(0)], [Call(0, s2), Step(0), Step(0)];
    hide Inv, Keeps;
    NoIdYet(st, hash, s1);
    var st1 := Play(st, hash, a1 + [Step(0)]);
    NoIdYet(st1, hash, s2);
    acts := (a1 + [Step(0)]) + (a2 + [Step(0)]);
    PlayJoin(st, hash, a1 + [Step(0)], a2 + [Step(0)]);
  }

  lemma NoIdYet(st: State, hash: seq<byte> -> nat, s: seq<byte>)
    requires Inv(st, hash) && st.idx == map[] && PcOf(st.threads, 0).Idle? && |s| > MAX_STR
    ensures Play(st, hash, [Call(0, s), Step(0), Step(0)] + [Step(0)])
         == Finish(Goto(st, 0, FallingBack(s)), 0, Ret(s, 0, true))
  {
    hide Inv, Keeps;
    CallToTests(st, hash, 0, s);
    PlayJoin(st, hash, [Call(0, s), Step(0), Step(0)], [Step(0)]);
    PlayOne(Goto(st, 0, FallingBack(s)), hash, Step(0));
  }

  /** One thread claims `s` and stops there. */
  function Claim(t: nat, s: seq<byte>): (acts: seq<Act>) {
    [Call(t, s), Step(t), Step(t)] + [Step(t)] + [Step(t)]
  }

  lemma ClaimPlays(st: State, hash: seq<byte> -> nat, t: nat, s: seq<byte>)
    requires Inv(st, hash) && st.idx == map[] && PcOf(st.threads, t).Idle? && st.entCur < ENTS
    requires 0 < |s| <= MAX_STR && st.slabCur + |s| < SLAB
    ensures var st' := Play(st, hash, Claim(t, s));
            && st'.slabCur == st.slabCur + |s| + 1 && st'.threads == st.threads[t := Copying(s, st.slabCur)]
            && st'.idx == st.idx && st'.entCur == st.entCur && st'.log == st.log
  {
    hide Inv, Keeps;
    var acts := [Call(t, s), Step(t), Step(t)];
    CallToTests(st, hash, t, s);
    var st1 := Goto(st, t, CheckingSlab(s));
    PlayJoin(st, hash, acts, [Step(t)]);
    PlayOne(st1, hash, Step(t));
    PlayJoin(st, hash, acts + [Step(t)], [Step(t)]);
    PlayOne(Goto(st1, t, Allocating(s)), hash, Step(t));
  }

  /** Threads `0` to `n - 1` claim 65535 bytes each. */
  function Fill(n: nat): (acts: seq<Act>) {
    if n == 0 then [] else Fill(n - 1) + Claim(n - 1, seq(MAX_STR, _ => 0))
  }

  lemma {:induction false} FillPlays(st: State, hash: seq<byte> -> nat, n: nat)
    requires Inv(st, hash) && Untouched(st) && st.threads == map[] && st.slabCur == 1 && n * 0x1_0000 + 1 <= SLAB
    ensures var st' := Play(st, hash, Fill(n));
            && st'.slabCur == n * 0x1_0000 + 1 && st'.idx == map[] && st'.entCur == 1
            && forall t :: t >= n ==> t !in st'.threads
  {
    hide Inv, Keeps, Claim;
    if n == 0 {
    } else {
      FillPlays(st, hash, n - 1);
      var st1 := Play(st, hash, Fill(n - 1));
      PlayJoin(st, hash, Fill(n - 1), Claim(n - 1, seq(MAX_STR, _ => 0)));
      ClaimPlays(st1, hash, n - 1, seq(MAX_STR, _ => 0));
    }
  }

  /** Passing the capacity test is no guarantee: with the slab almost full, two threads pass it one after the
      other, and what the second one then claims reaches past the end of the slab. */
  lemma RaceOvershoots(st: State, hash: seq<byte> -> nat, s: seq<byte>) returns (acts: seq<Act>, b: nat)
    requires Inv(st, hash) && Untouched(st) && st.threads == map[] && st.slabCur == 1 && |s| == 40000
    ensures var end := Play(st, hash, acts);
            PcOf(end.threads, b).Copying? && PcOf(end.threads, b).off + |s| > SLAB && !InBounds(end, b)
  {
    hide Inv, Keeps, Fill, Play;
    FillPlays(st, hash, 767);
    var race := TwoRace(Play(st, hash, Fill(767)), hash, 767, 768, s);
    acts, b := Fill(767) + race, 768;
    PlayJoin(st, hash, Fill(767), race);
  }

  lemma TwoRace(st: State, hash: seq<byte> -> nat, a: nat, b: nat, s: seq<byte>) returns (acts: seq<Act>)
    requires Inv(st, hash) && st.idx == map[] && st.entCur < ENTS && a != b
    requires PcOf(st.threads, a).Idle? && PcOf(st.threads, b).Idle?
    requires 0 < |s| <= MAX_STR && st.slabCur + |s| < SLAB
    ensures PcOf(Play(st, hash, acts).threads, b) == Copying(s, st.slabCur + |s| + 1)
  {
    hide Inv, Keeps, Play;
    var ca, cb := [Call(a, s), Step(a), Step(a)] + [Step(a)], [Call(b, s), Step(b), Step(b)] + [Step(b)];
    PassesTest(st, hash, a, s);
    var st1 := Goto(st, a, Allocating(s));
    PassesTest(st1, hash, b, s);
    var st2 := Goto(st1, b, Allocating(s));
    PlayOne(st2, hash, Step(a));
    var st3 := Do(st2, hash, Step(a));
    PlayOne(st3, hash, Step(b));
    PlayJoin(st2, hash, [Step(a)], [Step(b)]);
    acts := ca + (cb + ([Step(a)] + [Step(b)]));
    PlayJoin(st, hash, ca, cb + ([Step(a)] + [Step(b)]));
    PlayJoin(st1, hash, cb, [Step(a)] + [Step(b)]);
  }

  lemma PassesTest(st: State, hash: seq<byte> -> nat, t: nat, s: seq<byte>)
    requires Inv(st, hash) && st.idx == map[] && PcOf(st.threads, t).Idle? && st.entCur < ENTS
    requires 0 < |s| <= MAX_STR && st.slabCur + |s| < SLAB
    ensures Play(st, hash, [Call(t, s), Step(t), Step(t)] + [Step(t)]) == Goto(st, t, Allocating(s))
  {
    hide Inv, Keeps;
    var acts := [Call(t, s), Step(t), Step(t)];
    CallToTests(st, hash, t, s);
    PlayJoin(st, hash, acts, [Step(t)]);
    PlayOne(Goto(st, t, CheckingSlab(s)), hash, Step(t));
    assert Goto(Goto(st, t, CheckingSlab(s)), t, Allocating(s)) == Goto(st, t, Allocating(s));
  }

  lemma StartOk(st: State, hash: seq<byte> -> nat)
    requires |st.slab| == SLAB && |st.ents| == ENTS && st.slabCur == 1 && st.entCur == 1
    requires st.idx == map[] && st.threads == map[] && st.ranges == {} && st.recorded == {} && st.log == []
    ensures Inv(st, hash) && ShortOk(st)
  {
  }

  lemma FindInFrom(slab: seq<byte>, ents: seq<Ent>, v: seq<nat>, s: seq<byte>, own: nat, k: nat)
    requires k < |v|
    ensures FindIn(slab, ents, v[k..], s, own)
         == (if v[k] != own && Text(slab, ents, v[k]) == s then Some(v[k]) else FindIn(slab, ents, v[k + 1..], s, own))
  {
    assert v[k..][1..] == v[k + 1..];
  }

  /** The interner's memory, with its threads made explicit. */
  class Arena {
    const hash: seq<byte> -> nat
    const slab: array<byte>
    const ents: array<Ent>
    var slabCur: nat
    var entCur: nat
    var idx: map<nat, seq<nat>>
    var threads: map<nat, Pc>
    ghost var ranges: set<(nat, nat)>
    ghost var recorded: set<nat>
    ghost var log: seq<Ret>

    ghost function View(): (res: State)
      reads this, slab, ents
    {
      State(slab[..], ents[..], slabCur, entCur, idx, threads, ranges, recorded, log)
    }

    ghost predicate Valid()
      reads this, slab, ents
    {
      Inv(View(), hash) && ShortOk(View())
    }

    constructor (hash: seq<byte> -> nat)
      ensures Valid() && fresh(slab) && fresh(ents) && this.hash == hash && log == []
      ensures slabCur == 1 && entCur == 1 && threads == map[] && idx == map[] && Untouched(View())
    {
      this.hash := hash;
      slab := new byte[SLAB](_ => 0);
      ents := new Ent[ENTS](_ => Ent(0, 0));
      slabCur, entCur, idx, threads := 1, 1, map[], map[];
      ranges, recorded, log := {}, {}, [];
      new;
      StartOk(View(), hash);
    }

    /** `resolve`; ids the interner never handed out resolve to nothing. */
    method Resolve(id: nat) returns (r: seq<byte>)
      ensures r == Text(slab[..], ents[..], id)
    {
      if id == 0 || id >= ents.Length || ents[id].off + ents[id].len > slab.Length {
        return [];
      }
      r := slab[ents[id].off..ents[id].off + ents[id].len];
      assert slab[..][ents[id].off..ents[id].off + ents[id].len] == r;
    }

    /** The scan of a bucket. */
    method Scan(v: seq<nat>, s: seq<byte>, own: nat) returns (r: Option<nat>)
      ensures r == FindIn(slab[..], ents[..], v, s, own)
    {
      hide Text;
      var k := 0;
      while k < |v|
        invariant k <= |v|
        invariant FindIn(slab[..], ents[..], v, s, own) == FindIn(slab[..], ents[..], v[k..], s, own)
      {
        FindInFrom(slab[..], ents[..], v, s, own, k);
        var text := Resolve(v[k]);
        if v[k] != own && text == s {
          return Some(v[k]);
        }
        k := k + 1;
      }
      r := None;
    }

    /** The copy into the slab. */
    method Copy(off: nat, s: seq<byte>)
      requires off + |s| <= slab.Length
      modifies slab
      ensures slab[..] == Overwrite(old(slab[..]), off, s)
    {
      var k := 0;
      while k < |s|
        invariant k <= |s|
        invariant slab[..] == old(slab[..off]) + s[..k] + old(slab[off + k..])
      {
        slab[off + k] := s[k];
        k := k + 1;
      }
    }

    method End(t: nat, r: Ret)
      modifies this`threads, this`log
      ensures View() == Finish(old(View()), t, r)
    {
      threads := threads[t := Idle];
      log := log + [r];
    }

    /** One atomic step of thread `t`. */
    method Step(t: nat)
      requires Steppable(View(), t)
      modifies this`slabCur, this`entCur, this`idx, this`threads, this`ranges, this`recorded, this`log, slab, ents
      ensures View() == Next(old(View()), hash, t)
    {
      hide Text, FindIn, Overwrite;
      match if t in threads then threads[t] else Idle
      case Idle =>
      case LookingUp(s) =>
        var r := Scan(Bucket(idx, hash(s)), s, 0);
        if r.Some? {
          End(t, Ret(s, r.value, false));
        } else {
          threads := threads[t := CheckingEnts(s)];
        }
      case CheckingEnts(s) =>
        threads := threads[t := if |s| <= MAX_STR && entCur < ENTS then CheckingSlab(s) else FallingBack(s)];
      case CheckingSlab(s) =>
        threads := threads[t := if slabCur + |s| < SLAB then Allocating(s) else FallingBack(s)];
      case FallingBack(s) =>
        var v := Bucket(idx, hash(s));
        End(t, Ret(s, if v == [] then 0 else v[0], true));
      case Allocating(s) =>
        ranges := ranges + {(slabCur, |s|)};
        threads := threads[t := Copying(s, slabCur)];
        slabCur := slabCur + |s| + 1;
      case Copying(s, off) =>
        Copy(off, s);
        threads := threads[t := Numbering(s, off)];
      case Numbering(s, off) =>
        threads := threads[t := Recording(s, off, entCur)];
        entCur := entCur + 1;
      case Recording(s, off, id) =>
        ents[id] := Ent(off, |s|);
        recorded := recorded + {id};
        threads := threads[t := Publishing(s, off, id)];
        assert ents[..] == old(ents[..])[id := Ent(off, |s|)];
      case Publishing(s, off, id) =>
        var v := Bucket(idx, hash(s));
        var r := Scan(v, s, id);
        if r.Some? {
          End(t, Ret(s, r.value, false));
        } else {
          idx := idx[hash(s) := v + [id]];
          End(t, Ret(s, id, false));
        }
    }

    method Fits(t: nat) returns (ok: bool)
      ensures ok == InBounds(View(), t)
    {
      match if t in threads then threads[t] else Idle
      case Copying(s, off) => ok := off + |s| <= SLAB;
      case Recording(_, _, id) => ok := id < ENTS;
      case _ => ok := true;
    }

    method Perform(a: Act)
      requires Valid()
      modifies this`slabCur, this`entCur, this`idx, this`threads, this`ranges, this`recorded, this`log, slab, ents
      ensures Valid() && View() == Do(old(View()), hash, a)
    {
      hide Inv, Keeps, Next, InBounds, ShortOk;
      DoShort(View(), hash, a);
      match a
      case Call(t, s) =>
        if (if t in threads then threads[t] else Idle) == Idle {
          if s == [] {
            End(t, Ret(s, 0, false));
          } else {
            threads := threads[t := LookingUp(s)];
            assert View() == Begin(old(View()), t, s);
          }
        }
        assert View() == Do(old(View()), hash, a);
      case Step(t) =>
        var ok := Fits(t);
        if ok {
          StepKeeps(View(), hash, t);
          Step(t);
        }
    }

    /** Any number of threads, any interleaving: ids identify strings, resolve for good,
        and what was returned earlier is never taken back. */
    method Run(acts: seq<Act>)
      requires Valid()
      modifies this`slabCur, this`entCur, this`idx, this`threads, this`ranges, this`recorded, this`log, slab, ents
      ensures Valid() && View() == Play(old(View()), hash, acts)
      ensures Keeps(old(View()), View())
      ensures forall i, j :: 0 <= i < |log| && 0 <= j < |log| && !log[i].full && !log[j].full ==>
                (log[i].id == log[j].id <==> log[i].s == log[j].s)
      ensures forall i :: 0 <= i < |log| && !log[i].full ==> Text(slab[..], ents[..], log[i].id) == log[i].s
      ensures forall i :: 0 <= i < |log| && |log[i].s| > MAX_STR ==> TurnedAway(View(), log[i])
      ensures Affords(old(View()), acts) ==> forall i :: 0 <= i < |log| ==> (log[i].full <==> |log[i].s| > MAX_STR)
    {
      hide Affords, Inv, Keeps, ShortOk, TurnedAway;
      var k := 0;
      ghost var st0 := View();
      while k < |acts|
        invariant k <= |acts| && Valid()
        invariant Play(st0, hash, acts) == Play(View(), hash, acts[k..])
      {
        assert acts[k..][0] == acts[k] && acts[k..][1..] == acts[k + 1..];
        Perform(acts[k]);
        k := k + 1;
      }
      forall i, j | 0 <= i < |log| && 0 <= j < |log| && !log[i].full && !log[j].full
        ensures (log[i].id == log[j].id <==> log[i].s == log[j].s) && Text(slab[..], ents[..], log[i].id) == log[i].s
      {
        IdsIdentifyStrings(View(), hash, i, j);
      }
      LongTurnedAway(st0, hash, acts);
      LongFull(View());
      if Affords(st0, acts) {
        AffordPlay(st0, hash, acts);
      }
    }
  }

  /** A whole session on a fresh interner whose short strings fit together. In any interleaving exactly the
      over-long calls are turned away; among the others ids identify strings and resolve to them. */
  method Session(hash: seq<byte> -> nat, acts: seq<Act>) returns (a: Arena)
    requires Affordable(acts)
    ensures fresh(a) && a.Valid() && a.hash == hash
    ensures forall i :: 0 <= i < |a.log| ==> (a.log[i].full <==> |a.log[i].s| > MAX_STR)
    ensures forall i :: 0 <= i < |a.log| && |a.log[i].s| > MAX_STR ==> TurnedAway(a.View(), a.log[i])
    ensures forall i, j ::
              0 <= i < |a.log| && 0 <= j < |a.log| && |a.log[i].s| <= MAX_STR && |a.log[j].s| <= MAX_STR ==>
              (a.log[i].id == a.log[j].id <==> a.log[i].s == a.log[j].s)
    ensures forall i :: 0 <= i < |a.log| && |a.log[i].s| <= MAX_STR ==>
              Text(a.slab[..], a.ents[..], a.log[i].id) == a.log[i].s
  {
    hide Inv, Affords, Affordable, Text, TurnedAway, ShortOk;
    a := new Arena(hash);
    StartAffords(a.View(), acts);
    a.Run(acts);
  }
}
