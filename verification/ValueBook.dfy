/** The value book: values carried by executed instructions, stored by src/bctrace.rs unless the latest
    value under the same hash is the same, and read back by src/sinkfilter.rs as the matcher's patterns. */
module ValueBook {
  import opened Bytes
  import opened Matcher

  const MIN_VALUE_LEN: nat := 4
  const MAX_LEN: nat := 0x10_0000 // VALUEBOOK_MAX_LEN
  const SRC_CP: byte := 2
  const HEAD: nat := 15

  /** A value with the place it was seen at. */
  datatype Entry = Entry(value: seq<byte>, funcId: nat, off: nat, opId: nat, src: byte)

  ghost predicate EntryFits(e: Entry) {
    |e.value| < 0x1_0000_0000 && e.funcId < 0x1_0000_0000 && e.off < 0x1_0000_0000 && e.opId < 0x1_0000
  }

  function EncodeHead(e: Entry): (h: seq<byte>)
    ensures |h| == HEAD
  {
    ToLe(|e.value|, 4) + ToLe(e.funcId, 4) + ToLe(e.off, 4) + ToLe(e.opId, 2) + [e.src]
  }

  function Encode(e: Entry): (b: seq<byte>)
    ensures |b| == HEAD + |e.value|
  {
    EncodeHead(e) + e.value
  }

  ghost function EncodeAll(es: seq<Entry>): (r: seq<byte>) {
    if es == [] then [] else EncodeAll(es[..|es| - 1]) + Encode(es[|es| - 1])
  }

  lemma EncodeHeadFields(e: Entry)
    ensures var h := EncodeHead(e);
            h[0..4] == ToLe(|e.value|, 4) && h[4..8] == ToLe(e.funcId, 4) && h[8..12] == ToLe(e.off, 4)
            && h[12..14] == ToLe(e.opId, 2) && h[14] == e.src
  {
    hide ToLe;
  }

  function DecodeHead(b: seq<byte>, value: seq<byte>): (r: Entry)
    requires |b| >= HEAD
  {
    Entry(value, FromLe(b[4..8]), FromLe(b[8..12]), FromLe(b[12..14]), b[14])
  }

  lemma DecodeHeadValue(b: seq<byte>, value: seq<byte>)
    requires |b| >= HEAD
    ensures DecodeHead(b, value).value == value
  {
  }

  lemma DecodeEncode(e: Entry, rest: seq<byte>)
    requires EntryFits(e)
    ensures var b := Encode(e) + rest;
            FromLe(b[0..4]) == |e.value| && b[HEAD..HEAD + |e.value|] == e.value &&
            b[HEAD + |e.value|..] == rest && DecodeHead(b, e.value) == e
  {
    EncodeHeadFields(e);
    hide EncodeHead, ToLe, FromLe, Fits;
    var h, b := EncodeHead(e), Encode(e) + rest;
    assert b[0..4] == h[0..4] && b[4..8] == h[4..8] && b[8..12] == h[8..12] && b[12..14] == h[12..14] && b[14] == h[14];
    Fits4(|e.value|); LeRoundTrip(|e.value|, 4);
    Fits4(e.funcId); LeRoundTrip(e.funcId, 4);
    Fits4(e.off); LeRoundTrip(e.off, 4);
    Fits2(e.opId); LeRoundTrip(e.opId, 2);
  }

  lemma {:induction false} EncodeAllAt(es: seq<Entry>, k: nat)
    requires k < |es|
    ensures EncodeAll(es[..k]) + Encode(es[k]) <= EncodeAll(es)
    decreases |es|
  {
    hide Encode;
    var n := |es| - 1;
    if k < n {
      assert es[..n][..k] == es[..k];
      EncodeAllAt(es[..n], k);
    }
  }

  // ---------------------------------------------------------------------
  // Writing.
  // ---------------------------------------------------------------------

  /** Entry number `k` of `stored` starts at file offset `off`. */
  ghost predicate StartsAt(stored: seq<Entry>, k: nat, off: nat) {
    k < |stored| && off == |EncodeAll(stored[..k])|
  }

  /** The latest value put under hash `h`. */
  ghost function LatestUnder(hash: seq<byte> -> nat, log: seq<Entry>, h: nat): (v: Option<seq<byte>>)
    ensures v.Some? ==> hash(v.value) == h
  {
    if log == [] then None
    else if hash(log[|log| - 1].value) == h then Some(log[|log| - 1].value)
    else LatestUnder(hash, log[..|log| - 1], h)
  }

  /** The index points, for every hash put under, at an entry with the latest value put under it. */
  ghost predicate OffsOk(stored: seq<Entry>, hash: seq<byte> -> nat, offs: map<nat, nat>, log: seq<Entry>) {
    && (forall h :: h in offs ==> exists k: nat :: PointsAt(stored, hash, offs, log, h, k))
    && (forall h :: LatestUnder(hash, log, h).Some? ==> h in offs)
  }

  ghost predicate PointsAt(stored: seq<Entry>, hash: seq<byte> -> nat, offs: map<nat, nat>, log: seq<Entry>, h: nat,
                           k: nat)
    requires h in offs
  {
    StartsAt(stored, k, offs[h]) && LatestUnder(hash, log, h) == Some(stored[k].value)
  }

  ghost predicate HasValue(stored: seq<Entry>, v: seq<byte>) {
    exists j :: 0 <= j < |stored| && stored[j].value == v
  }

  ghost predicate HasRunValue(stored: seq<Entry>, v: seq<byte>) {
    exists j :: 0 <= j < |stored| && stored[j].value == v && stored[j].src != SRC_CP
  }

  /** None of the first `n` puts is a constant-pool literal. */
  ghost predicate RunOnly(log: seq<Entry>, n: nat)
    requires n <= |log|
  {
    forall i :: 0 <= i < n ==> log[i].src != SRC_CP
  }

  /** What is stored, given all puts so far: every value put is there, every stored entry
      was put exactly so, and values put before any literal are stored as run values. */
  ghost predicate BookOf(stored: seq<Entry>, log: seq<Entry>) {
    && (forall k :: 0 <= k < |log| ==> HasValue(stored, log[k].value))
    && (forall j :: 0 <= j < |stored| ==>
          stored[j] in log && EntryFits(stored[j]) && |stored[j].value| >= MIN_VALUE_LEN)
    && (forall k :: 0 <= k < |log| && RunOnly(log, k + 1) ==> HasRunValue(stored, log[k].value))
  }

  ghost predicate Collides(hash: seq<byte> -> nat, log: seq<Entry>) {
    exists i, j :: 0 <= i < |log| && 0 <= j < |log| && log[i].value != log[j].value
        && hash(log[i].value) == hash(log[j].value)
  }

  /** Put number `i` is written: the latest put before it under its hash, if any, carries other bytes. */
  ghost predicate Fresh(hash: seq<byte> -> nat, log: seq<Entry>, i: nat) {
    i < |log| && LatestUnder(hash, log[..i], hash(log[i].value)) != Some(log[i].value)
  }

  /** The entries the puts leave in the file. */
  ghost function Written(hash: seq<byte> -> nat, log: seq<Entry>): (stored: seq<Entry>) {
    if log == [] then []
    else
      var n := |log| - 1;
      Written(hash, log[..n]) + if Fresh(hash, log, n) then [log[n]] else []
  }

  lemma LatestPush(hash: seq<byte> -> nat, log: seq<Entry>, e: Entry, h: nat)
    ensures LatestUnder(hash, log + [e], h) == if hash(e.value) == h then Some(e.value) else LatestUnder(hash, log, h)
  {
    assert (log + [e])[..|log|] == log;
  }

  lemma WrittenPush(hash: seq<byte> -> nat, log: seq<Entry>, e: Entry)
    ensures Written(hash, log + [e])
         == Written(hash, log) + if LatestUnder(hash, log, hash(e.value)) != Some(e.value) then [e] else []
  {
    hide LatestUnder;
    assert (log + [e])[..|log|] == log;
  }

  lemma BookSkip(stored: seq<Entry>, log: seq<Entry>, e: Entry, k: nat)
    requires BookOf(stored, log) && k < |stored| && stored[k].value == e.value
    ensures BookOf(stored, log + [e])
  {
    var log' := log + [e];
    forall i | 0 <= i < |log'| && RunOnly(log', i + 1)
      ensures HasRunValue(stored, log'[i].value)
    {
      if i < |log| {
        assert forall j :: 0 <= j <= i ==> log'[j] == log[j];
        assert RunOnly(log, i + 1);
      } else {
        var j :| 0 <= j < |log| && log[j] == stored[k];
        assert log'[j] == log[j];
        assert stored[k].src != SRC_CP;
      }
    }
  }

  lemma BookAdd(stored: seq<Entry>, log: seq<Entry>, e: Entry)
    requires BookOf(stored, log) && EntryFits(e) && |e.value| >= MIN_VALUE_LEN
    ensures BookOf(stored + [e], log + [e])
  {
    var stored', log' := stored + [e], log + [e];
    assert stored'[|stored|] == e && log'[|log|] == e;
    forall k | 0 <= k < |log'|
      ensures HasValue(stored', log'[k].value)
    {
      if k < |log| {
        var j :| 0 <= j < |stored| && stored[j].value == log[k].value;
        assert stored'[j] == stored[j];
      }
    }
    forall k | 0 <= k < |log'| && RunOnly(log', k + 1)
      ensures HasRunValue(stored', log'[k].value)
    {
      if k < |log| {
        assert forall i :: 0 <= i <= k ==> log'[i] == log[i];
        assert RunOnly(log, k + 1);
        var j :| 0 <= j < |stored| && stored[j].value == log[k].value && stored[j].src != SRC_CP;
        assert stored'[j] == stored[j];
      } else {
        assert log'[k].src != SRC_CP;
      }
    }
  }

  lemma OffsAdd(stored: seq<Entry>, hash: seq<byte> -> nat, offs: map<nat, nat>, log: seq<Entry>, e: Entry)
    requires OffsOk(stored, hash, offs, log)
    ensures OffsOk(stored + [e], hash, offs[hash(e.value) := |EncodeAll(stored)|], log + [e])
  {
    hide EncodeAll, LatestUnder;
    var stored', offs', log' := stored + [e], offs[hash(e.value) := |EncodeAll(stored)|], log + [e];
    assert stored'[..|stored|] == stored;
    forall h
      ensures LatestUnder(hash, log', h) == if hash(e.value) == h then Some(e.value) else LatestUnder(hash, log, h)
    {
      LatestPush(hash, log, e, h);
    }
    forall h | h in offs'
      ensures exists k: nat :: PointsAt(stored', hash, offs', log', h, k)
    {
      if h == hash(e.value) {
        assert PointsAt(stored', hash, offs', log', h, |stored|);
      } else {
        var k := OffsAt(stored, hash, offs, log, h);
        assert stored'[..k] == stored[..k];
        assert PointsAt(stored', hash, offs', log', h, k);
      }
    }
  }

  /** A put whose value is the latest under its hash changes nothing the index says. */
  lemma OffsSkip(stored: seq<Entry>, hash: seq<byte> -> nat, offs: map<nat, nat>, log: seq<Entry>, e: Entry)
    requires OffsOk(stored, hash, offs, log) && LatestUnder(hash, log, hash(e.value)) == Some(e.value)
    ensures OffsOk(stored, hash, offs, log + [e])
  {
    hide EncodeAll, LatestUnder, StartsAt;
    var log' := log + [e];
    forall h
      ensures LatestUnder(hash, log', h) == LatestUnder(hash, log, h)
    {
      LatestPush(hash, log, e, h);
    }
    forall h | h in offs
      ensures exists k: nat :: PointsAt(stored, hash, offs, log', h, k)
    {
      var k := OffsAt(stored, hash, offs, log, h);
      assert PointsAt(stored, hash, offs, log', h, k);
    }
  }

  class Book {
    const hash: seq<byte> -> nat
    var w: seq<byte>
    var pos: nat
    var flushed: nat
    var dedup: set<nat>
    var offs: map<nat, nat>
    var entries: nat
    ghost var stored: seq<Entry>
    ghost var log: seq<Entry>

    ghost predicate Valid()
      reads this
    {
      && w == EncodeAll(stored) && pos == |w| && flushed <= pos && entries == |stored|
      && dedup == offs.Keys
      && OffsOk(stored, hash, offs, log)
      && BookOf(stored, log)
      && stored == Written(hash, log)
    }

    constructor (hash: seq<byte> -> nat)
      ensures Valid() && log == [] && w == [] && this.hash == hash
    {
      this.hash := hash;
      w, pos, flushed, dedup, offs, entries := [], 0, 0, {}, map[], 0;
      stored, log := [], [];
    }

    /** Compares the entry at file offset `off` with `v`, flushing first when the value
        may still be buffered. */
    method EntryEq(off: nat, v: seq<byte>, ghost k: nat) returns (eq: bool)
      requires Valid() && StartsAt(stored, k, off)
      modifies this`flushed
      ensures Valid() && (eq <==> stored[k].value == v)
    {
      hide Encode, EncodeAll, BookOf, OffsOk, Written, FromLe, StartsAt;
      StoredSlice(stored, log, k, off, w);
      var valOff := off + HEAD;
      var valEnd := valOff + |v|;
      if valEnd > flushed {
        flushed := pos;
        if valEnd > flushed {
          return false;
        }
      }
      var len := FromLe(w[off..off + 4]);
      if len != |v| {
        return false;
      }
      eq := w[valOff..valOff + len] == v;
    }

    /** Streams one value; it is skipped exactly if the latest value put under its hash is the same. */
    method Put(e: Entry)
      requires Valid() && EntryFits(e)
      modifies this
      ensures Valid()
      ensures log == if |e.value| < MIN_VALUE_LEN then old(log) else old(log) + [e]
      ensures stored == Written(hash, log)
      ensures stored == old(stored) + if |e.value| < MIN_VALUE_LEN
                || LatestUnder(hash, old(log), hash(e.value)) == Some(e.value) then [] else [e]
      ensures |w| <= |old(w)| + HEAD + |e.value|
    {
      hide Encode, EncodeAll, BookOf, OffsOk, Written, HasValue, LatestUnder;
      assert stored + [] == stored;
      if |e.value| < MIN_VALUE_LEN {
        return;
      }
      var h := hash(e.value);
      WrittenPush(hash, log, e);
      if h in dedup {
        ghost var k := OffsAt(stored, hash, offs, log, h);
        var same := EntryEq(offs[h], e.value, k);
        if same {
          BookSkip(stored, log, e, k);
          OffsSkip(stored, hash, offs, log, e);
          log := log + [e];
          return;
        }
      } else {
        NotIndexed(stored, hash, offs, log, h);
      }
      dedup := dedup + {h};
      w := w + Encode(e);
      EncodeAllPush(stored, e);
      OffsAdd(stored, hash, offs, log, e);
      BookAdd(stored, log, e);
      offs := offs[h := pos];
      pos := pos + HEAD + |e.value|;
      entries := entries + 1;
      stored, log := stored + [e], log + [e];
    }
  }

  lemma StoredSlice(stored: seq<Entry>, log: seq<Entry>, k: nat, off: nat, w: seq<byte>)
    requires BookOf(stored, log) && StartsAt(stored, k, off) && w == EncodeAll(stored)
    ensures k < |stored| && off + HEAD + |stored[k].value| <= |w|
    ensures FromLe(w[off..off + 4]) == |stored[k].value|
    ensures w[off + HEAD..off + HEAD + |stored[k].value|] == stored[k].value
  {
    hide Encode, EncodeAll, FromLe, BookOf, EntryFits;
    StoredFits(stored, log, k);
    EncodeAllAt(stored, k);
    EntryIn(w, EncodeAll(stored[..k]), stored[k]);
  }

  /** A record inside a file, read in place. */
  lemma EntryIn(w: seq<byte>, head: seq<byte>, e: Entry)
    requires EntryFits(e) && head + Encode(e) <= w
    ensures |head| + HEAD + |e.value| <= |w|
    ensures FromLe(w[|head|..|head| + 4]) == |e.value|
    ensures w[|head| + HEAD..|head| + HEAD + |e.value|] == e.value
  {
    hide Encode, FromLe, EntryFits, DecodeHead;
    var rest := SplitOff(w, head + Encode(e));
    DecodeEncode(e, rest);
    var b := Encode(e) + rest;
    assert w == head + b;
    SliceAfter(head, b, 0, 4);
    SliceAfter(head, b, HEAD, HEAD + |e.value|);
  }

  lemma SliceAfter(head: seq<byte>, b: seq<byte>, i: nat, j: nat)
    requires i <= j <= |b|
    ensures (head + b)[|head| + i..|head| + j] == b[i..j]
  {
  }

  lemma SplitOff(w: seq<byte>, head: seq<byte>) returns (rest: seq<byte>)
    requires head <= w
    ensures w == head + rest
  {
    rest := w[|head|..];
  }

  lemma StoredFits(stored: seq<Entry>, log: seq<Entry>, k: nat)
    requires BookOf(stored, log) && k < |stored|
    ensures EntryFits(stored[k])
  {
  }

  lemma OffsAt(stored: seq<Entry>, hash: seq<byte> -> nat, offs: map<nat, nat>, log: seq<Entry>, h: nat)
    returns (k: nat)
    requires OffsOk(stored, hash, offs, log) && h in offs
    ensures StartsAt(stored, k, offs[h]) && LatestUnder(hash, log, h) == Some(stored[k].value)
  {
    hide LatestUnder, StartsAt;
    k :| PointsAt(stored, hash, offs, log, h, k);
  }

  lemma NotIndexed(stored: seq<Entry>, hash: seq<byte> -> nat, offs: map<nat, nat>, log: seq<Entry>, h: nat)
    requires OffsOk(stored, hash, offs, log) && h !in offs
    ensures LatestUnder(hash, log, h).None?
  {
    hide LatestUnder, PointsAt;
  }

  lemma EncodeAllPush(es: seq<Entry>, e: Entry)
    ensures EncodeAll(es + [e]) == EncodeAll(es) + Encode(e)
  {
    assert (es + [e])[..|es|] == es;
  }

  // ---------------------------------------------------------------------
  // Reading back.
  // ---------------------------------------------------------------------

  /** Whether the loader turns an entry into a pattern: literals count only for functions
      that ran. */
  predicate Wanted(e: Entry, exec: seq<nat>) {
    e.src != SRC_CP || e.funcId in exec
  }

  ghost function Kept(es: seq<Entry>, exec: seq<nat>): (r: seq<Entry>) {
    if es == [] then [] else
      var e := es[0];
      (if 0 < |e.value| <= MAX_LEN && Wanted(e, exec) then [e] else []) + Kept(es[1..], exec)
  }

  /** The entries the loader takes from arbitrary file bytes. */
  ghost function Loaded(b: seq<byte>, exec: seq<nat>): (r: seq<Entry>)
    decreases |b|
  {
    if |b| < HEAD then [] else
      var len := FromLe(b[0..4]);
      if len == 0 then Loaded(b[HEAD..], exec)
      else if len > MAX_LEN then Loaded(b[HEAD..][Least(len, |b| - HEAD)..], exec)
      else if HEAD + len > |b| then []
      else
        var e := DecodeHead(b, b[HEAD..HEAD + len]);
        (if Wanted(e, exec) then [e] else []) + Loaded(b[HEAD + len..], exec)
  }

  function Least(a: nat, b: nat): (r: nat) {
    if a < b then a else b
  }

  ghost function Values(es: seq<Entry>): (r: seq<seq<byte>>) {
    seq(|es|, i requires 0 <= i < |es| => es[i].value)
  }

  ghost function TotalLen(es: seq<Entry>): (r: nat) {
    if es == [] then 0 else TotalLen(es[..|es| - 1]) + |es[|es| - 1].value|
  }

  ghost function EncodeFront(es: seq<Entry>): (r: seq<byte>) {
    if es == [] then [] else Encode(es[0]) + EncodeFront(es[1..])
  }

  lemma {:induction false} EncodeFrontSame(es: seq<Entry>)
    ensures EncodeFront(es) == EncodeAll(es)
  {
    hide Encode;
    if es == [] {
    } else {
      var n, first, last := |es| - 1, Encode(es[0]), Encode(es[|es| - 1]);
      EncodeFrontSame(es[1..]);
      if n > 0 {
        var middle := EncodeFront(es[1..n]);
        EncodeFrontSame(es[..n]);
        EncodeFrontSame(es[1..n]);
        assert es[..n][1..] == es[1..n] && es[1..][..n - 1] == es[1..n];
        hide EncodeAll, EncodeFront;
        assert first + (middle + last) == first + middle + last;
      }
    }
  }

  /** Reading a written book gives back exactly the entries the loader wants. */
  lemma {:induction false} LoadEncoded(es: seq<Entry>, exec: seq<nat>)
    requires forall j :: 0 <= j < |es| ==> EntryFits(es[j])
    ensures Loaded(EncodeFront(es), exec) == Kept(es, exec)
  {
    if es == [] {
    } else {
      var e, rest := es[0], EncodeFront(es[1..]);
      LoadEncoded(es[1..], exec);
      DecodeEncode(e, rest);
      hide Encode, DecodeHead, EncodeHead, FromLe, EntryFits;
      var b := Encode(e) + rest;
      assert b[HEAD..][|e.value|..] == b[HEAD + |e.value|..];
      assert Least(|e.value|, |b| - HEAD) == |e.value|;
    }
  }

  datatype Origin = Origin(funcId: nat, off: nat, opId: nat, src: byte)

  ghost function Origins(es: seq<Entry>): (r: seq<Origin>) {
    seq(|es|, i requires 0 <= i < |es| => Origin(es[i].funcId, es[i].off, es[i].opId, es[i].src))
  }

  const OP_ID_NONE: nat := 0xFFFF

  ghost predicate Ascending(exec: seq<nat>) {
    forall i, j :: 0 <= i < j < |exec| ==> exec[i] <= exec[j]
  }

  /** `exec_funcs.binary_search`. */
  method HasFunc(exec: seq<nat>, f: nat) returns (found: bool)
    requires Ascending(exec)
    ensures found <==> f in exec
  {
    var lo, hi := 0, |exec|;
    while lo < hi
      invariant lo <= hi <= |exec|
      invariant forall k :: 0 <= k < lo ==> exec[k] < f
      invariant forall k :: hi <= k < |exec| ==> f < exec[k]
    {
      var mid := (lo + hi) / 2;
      if exec[mid] == f {
        return true;
      }
      if exec[mid] < f { lo := mid + 1; } else { hi := mid; }
    }
    found := false;
  }

  /** Reads a value book and builds the matcher. */
  method Load(b: seq<byte>, exec: seq<nat>) returns (ac: AhoCorasick, origins: seq<Origin>, entries: nat)
    requires |b| < NO_OUT && Ascending(exec)
    ensures fresh(ac) && ac.Built() && ac.patterns == Values(Loaded(b, exec))
    ensures origins == Origins(Loaded(b, exec)) && entries == |Loaded(b, exec)|
  {
    hide DecodeHead, FromLe, Loaded, Shape, Words, OutOk, RootClean, Linked, Values, Origins, Wanted;
    NoEntries();
    ac := new AhoCorasick();
    origins, entries := [], 0;
    ghost var got: seq<Entry> := [];
    var p := 0;
    assert b[0..] == b;
    while p + HEAD <= |b|
      invariant 0 <= p <= |b| && fresh(ac) && ac.Valid()
      invariant Loaded(b, exec) == got + Loaded(b[p..], exec)
      invariant ac.patterns == Values(got) && origins == Origins(got) && entries == |got|
      invariant |ac.nodes| <= 1 + p
      decreases |b| - p
    {
      LoadedStep(b, p, exec);
      var len := FromLe(b[p..p + 4]);
      if len == 0 {
        p := p + HEAD;
      } else if len > MAX_LEN {
        p := p + HEAD + Least(len, |b| - p - HEAD);
      } else if p + HEAD + len > |b| {
        break;
      } else {
        var scratch := b[p + HEAD..p + HEAD + len];
        var e := DecodeHead(b[p..], scratch);
        assert e.value == scratch by { DecodeHeadValue(b[p..], scratch); }
        var wanted := true;
        if e.src == SRC_CP {
          wanted := HasFunc(exec, e.funcId);
        }
        assert wanted <==> Wanted(e, exec) by { WantedIff(e, exec); }
        if wanted {
          origins := AddPattern(ac, origins, e, got);
          entries := entries + 1;
          got := got + [e];
        }
        p := p + HEAD + len;
      }
    }
    if p + HEAD > |b| {
      LoadedStep(b, p, exec);
    }
    assert got + [] == got;
    ac.Build();
  }

  lemma NoEntries()
    ensures Values([]) == [] && Origins([]) == []
  {
  }

  lemma WantedIff(e: Entry, exec: seq<nat>)
    ensures Wanted(e, exec) <==> e.src != SRC_CP || e.funcId in exec
  {
  }

  /** One accepted entry: a pattern, and its origin at the pattern's id. */
  method AddPattern(ac: AhoCorasick, origins0: seq<Origin>, e: Entry, ghost got: seq<Entry>)
    returns (origins: seq<Origin>)
    requires ac.Valid() && |ac.nodes| + |e.value| <= NO_OUT
    requires ac.patterns == Values(got) && origins0 == Origins(got)
    modifies ac
    ensures ac.Valid() && ac.patterns == Values(got + [e]) && origins == Origins(got + [e])
    ensures |ac.nodes| <= |old(ac.nodes)| + |e.value|
  {
    hide Shape, Words, OutOk, RootClean;
    var id := ac.Insert(e.value);
    origins := origins0;
    if |origins| <= id {
      origins := origins + seq(id + 1 - |origins|, _ => Origin(0, 0, OP_ID_NONE, SRC_CP));
    }
    origins := origins[id := Origin(e.funcId, e.off, e.opId, e.src)];
  }

  lemma LoadedStep(b: seq<byte>, p: nat, exec: seq<nat>)
    requires p <= |b|
    ensures p + HEAD > |b| ==> Loaded(b[p..], exec) == []
    ensures p + HEAD <= |b| ==>
              var len := FromLe(b[p..p + 4]);
              if len == 0 then Loaded(b[p..], exec) == Loaded(b[p + HEAD..], exec)
              else if len > MAX_LEN then
                Loaded(b[p..], exec) == Loaded(b[p + HEAD + Least(len, |b| - p - HEAD)..], exec)
              else if p + HEAD + len > |b| then Loaded(b[p..], exec) == []
              else
                var e := DecodeHead(b[p..], b[p + HEAD..p + HEAD + len]);
                Loaded(b[p..], exec) == (if Wanted(e, exec) then [e] else []) + Loaded(b[p + HEAD + len..], exec)
  {
    hide DecodeHead, FromLe, Wanted;
    var c := b[p..];
    if p + HEAD <= |b| {
      assert c[0..4] == b[p..p + 4];
      var len := FromLe(b[p..p + 4]);
      assert c[HEAD..] == b[p + HEAD..];
      if 0 < len <= MAX_LEN && p + HEAD + len <= |b| {
        assert c[HEAD..HEAD + len] == b[p + HEAD..p + HEAD + len];
        assert c[HEAD + len..] == b[p + HEAD + len..];
      } else if len > MAX_LEN {
        assert c[HEAD..][Least(len, |c| - HEAD)..] == b[p + HEAD + Least(len, |b| - p - HEAD)..];
      }
    }
  }

  // ---------------------------------------------------------------------
  // End to end.
  // ---------------------------------------------------------------------

  lemma {:induction false} KeptIff(es: seq<Entry>, exec: seq<nat>, e: Entry)
    ensures e in Kept(es, exec) <==> e in es && 0 < |e.value| <= MAX_LEN && Wanted(e, exec)
  {
    if es == [] {
    } else {
      KeptIff(es[1..], exec, e);
      assert es == [es[0]] + es[1..];
    }
  }

  /** Value `v` is one of the loaded patterns. */
  ghost predicate IsPattern(patterns: seq<seq<byte>>, v: seq<byte>) {
    exists id :: 0 <= id < |patterns| && patterns[id] == v
  }

  /** Value `v` is loaded iff some stored entry with exactly these bytes is wanted. */
  lemma PatternIff(stored: seq<Entry>, exec: seq<nat>, v: seq<byte>)
    requires 0 < |v| <= MAX_LEN
    ensures IsPattern(Values(Kept(stored, exec)), v) <==>
            exists e :: e in stored && e.value == v && Wanted(e, exec)
  {
    var kept := Kept(stored, exec);
    hide Wanted, Kept;
    if IsPattern(Values(kept), v) {
      var id :| 0 <= id < |kept| && kept[id].value == v;
      KeptIff(stored, exec, kept[id]);
      assert kept[id] in kept;
    }
    if exists e :: e in stored && e.value == v && Wanted(e, exec) {
      var e :| e in stored && e.value == v && Wanted(e, exec);
      KeptIff(stored, exec, e);
      var id :| 0 <= id < |kept| && kept[id] == e;
      assert Values(kept)[id] == v;
    }
  }

  /** For any hash, a value carried by an executed instruction is in the loaded book. */
  lemma RunValueLoaded(stored: seq<Entry>, log: seq<Entry>, exec: seq<nat>, k: nat)
    requires BookOf(stored, log) && k < |log| && RunOnly(log, k + 1)
    requires MIN_VALUE_LEN <= |log[k].value| <= MAX_LEN
    ensures IsPattern(Values(Kept(stored, exec)), log[k].value)
  {
    PatternIff(stored, exec, log[k].value);
    assert HasRunValue(stored, log[k].value);
    var j :| 0 <= j < |stored| && stored[j].value == log[k].value && stored[j].src != SRC_CP;
    assert stored[j] in stored && Wanted(stored[j], exec);
  }

  /** The origin kept for a pattern is one under which exactly its bytes were put. */
  lemma OriginTrue(stored: seq<Entry>, log: seq<Entry>, exec: seq<nat>, id: nat)
    requires BookOf(stored, log) && id < |Kept(stored, exec)|
    ensures var e := Kept(stored, exec)[id];
            && e in log && Values(Kept(stored, exec))[id] == e.value
            && Origins(Kept(stored, exec))[id] == Origin(e.funcId, e.off, e.opId, e.src)
            && Wanted(e, exec)
  {
    var e := Kept(stored, exec)[id];
    KeptIff(stored, exec, e);
    assert e in Kept(stored, exec);
  }

  ghost predicate OccursIn(v: seq<byte>, body: seq<byte>, o: int) {
    0 <= o <= |body| - |v| && body[o..o + |v|] == v
  }

  /** A loaded value lies in a sink body at `o` iff a hit at `o` is reported for it. */
  lemma HitIffOccurs(patterns: seq<seq<byte>>, v: seq<byte>, body: seq<byte>, o: int)
    requires v != [] && IsPattern(patterns, v)
    ensures OccursIn(v, body, o) <==>
            exists id: nat :: id < |patterns| && patterns[id] == v && Hit(id, o) in Reports(patterns, body)
  {
    hide Reports;
    forall id: nat | id < |patterns| && patterns[id] == v
      ensures Hit(id, o) in Reports(patterns, body) <==> OccursIn(v, body, o)
    {
      ReportsExact(patterns, body, id, o);
      assert Hit(id, o) in multiset(Reports(patterns, body)) <==> Hit(id, o) in Reports(patterns, body);
    }
    var id :| 0 <= id < |patterns| && patterns[id] == v;
  }

  // ---------------------------------------------------------------------
  // Which put decides.
  // ---------------------------------------------------------------------

  /** In words: a put is passed over exactly if some earlier put carries its bytes and no put in between
      falls under its hash. */
  lemma FreshIff(hash: seq<byte> -> nat, log: seq<Entry>, i: nat)
    requires i < |log|
    ensures Fresh(hash, log, i) <==> !exists j :: Repeats(hash, log, i, j)
  {
    LatestIff(hash, log, i, i);
  }

  ghost predicate Repeats(hash: seq<byte> -> nat, log: seq<Entry>, i: nat, j: nat) {
    && j < i < |log| && log[j].value == log[i].value
    && forall k :: j < k < i ==> hash(log[k].value) != hash(log[i].value)
  }

  lemma {:induction false} LatestIff(hash: seq<byte> -> nat, log: seq<Entry>, i: nat, n: nat)
    requires n <= i < |log| && forall k :: n <= k < i ==> hash(log[k].value) != hash(log[i].value)
    ensures LatestUnder(hash, log[..n], hash(log[i].value)) == Some(log[i].value) <==>
              exists j :: Repeats(hash, log, i, j)
  {
    if n == 0 {
    } else {
      assert log[..n][..n - 1] == log[..n - 1];
      if hash(log[n - 1].value) == hash(log[i].value) {
        if log[n - 1].value == log[i].value {
          assert Repeats(hash, log, i, n - 1);
        } else {
          forall j: nat
            ensures !Repeats(hash, log, i, j)
          {
            assert j < n - 1 || j == n - 1 || n <= j;
          }
        }
      } else {
        LatestIff(hash, log, i, n - 1);
      }
    }
  }

  ghost predicate FreshAs(hash: seq<byte> -> nat, log: seq<Entry>, e: Entry, i: nat) {
    Fresh(hash, log, i) && log[i] == e
  }

  lemma {:induction false} WrittenIff(hash: seq<byte> -> nat, log: seq<Entry>, e: Entry)
    ensures e in Written(hash, log) <==> exists i :: FreshAs(hash, log, e, i)
  {
    hide LatestUnder;
    if log == [] {
    } else {
      var n := |log| - 1;
      var front := log[..n];
      WrittenIff(hash, front, e);
      forall i: nat
        ensures FreshAs(hash, front, e, i) <==> FreshAs(hash, log, e, i) && i < n
      {
        assert i < n ==> front[..i] == log[..i];
      }
      if i: nat :| FreshAs(hash, log, e, i) {
        assert i < n ==> FreshAs(hash, front, e, i);
      }
      if i: nat :| FreshAs(hash, front, e, i) {
        assert FreshAs(hash, log, e, i);
      }
      assert Fresh(hash, log, n) ==> FreshAs(hash, log, log[n], n);
    }
  }

  /** Put number `i` writes `v`, and the loader wants it. */
  ghost predicate Decides(hash: seq<byte> -> nat, log: seq<Entry>, exec: seq<nat>, v: seq<byte>, i: nat) {
    i < |log| && Fresh(hash, log, i) && log[i].value == v && Wanted(log[i], exec)
  }

  /** For any hash: a value is searched for if and only if some wanted put of it is written. */
  lemma WantedPutDecides(hash: seq<byte> -> nat, log: seq<Entry>, exec: seq<nat>, v: seq<byte>)
    requires 0 < |v| <= MAX_LEN
    ensures IsPattern(Values(Kept(Written(hash, log), exec)), v) <==> exists i :: Decides(hash, log, exec, v, i)
  {
    hide Written, Kept, Values, IsPattern, Wanted, LatestUnder;
    PatternIff(Written(hash, log), exec, v);
    if e :| e in Written(hash, log) && e.value == v && Wanted(e, exec) {
      WrittenIff(hash, log, e);
      var i: nat :| FreshAs(hash, log, e, i);
      assert Decides(hash, log, exec, v, i);
    }
    if i: nat :| Decides(hash, log, exec, v, i) {
      assert FreshAs(hash, log, log[i], i);
      WrittenIff(hash, log, log[i]);
    }
  }

  /** Put number `i` is the first one with its value. */
  ghost predicate FirstOfValue(log: seq<Entry>, i: nat) {
    i < |log| && forall j :: 0 <= j < i ==> log[j].value != log[i].value
  }

  /** Without collisions the written puts are the first ones of their values. */
  lemma FreshIsFirst(hash: seq<byte> -> nat, log: seq<Entry>, i: nat)
    requires !Collides(hash, log) && i < |log|
    ensures Fresh(hash, log, i) <==> FirstOfValue(log, i)
  {
    hide Fresh;
    FreshIff(hash, log, i);
    if !FirstOfValue(log, i) {
      var j: nat :| j < i && log[j].value == log[i].value;
      var m := LastWith(log, i, j);
      forall k | m < k < i
        ensures hash(log[k].value) != hash(log[i].value)
      {
        assert log[k].value != log[i].value;
      }
      assert Repeats(hash, log, i, m);
    }
  }

  /** The last put before `i` with the value of put `i`. */
  lemma {:induction false} LastWith(log: seq<Entry>, i: nat, j: nat) returns (m: nat)
    requires j < i < |log| && log[j].value == log[i].value
    ensures j <= m < i && log[m].value == log[i].value && forall k :: m < k < i ==> log[k].value != log[i].value
    decreases i - j
  {
    if k :| j < k < i && log[k].value == log[i].value {
      m := LastWith(log, i, k);
    } else {
      m := j;
    }
  }

  /** So without collisions the first put of a value decides for all later ones, whatever function they come from. */
  lemma FirstPutDecides(hash: seq<byte> -> nat, log: seq<Entry>, exec: seq<nat>, i: nat)
    requires !Collides(hash, log) && FirstOfValue(log, i) && 0 < |log[i].value| <= MAX_LEN
    ensures IsPattern(Values(Kept(Written(hash, log), exec)), log[i].value) <==> Wanted(log[i], exec)
  {
    hide Written, Kept, Values, IsPattern, Wanted, Fresh, Collides;
    WantedPutDecides(hash, log, exec, log[i].value);
    FreshIsFirst(hash, log, i);
    assert Wanted(log[i], exec) ==> Decides(hash, log, exec, log[i].value, i);
    if j: nat :| Decides(hash, log, exec, log[i].value, j) {
      FreshIsFirst(hash, log, j);
      assert j < i || j == i || i < j;
    }
  }

  /** A literal shared by two functions is lost when the one that did not run put it first, although the
      other ran; this under any hash. */
  lemma LiteralLost(hash: seq<byte> -> nat, v: seq<byte>) returns (log: seq<Entry>, exec: seq<nat>)
    requires MIN_VALUE_LEN <= |v| <= MAX_LEN
    ensures |log| == 2 && log[1].value == v && log[1].funcId in exec
    ensures !IsPattern(Values(Kept(Written(hash, log), exec)), v)
  {
    log := [Entry(v, 1, 0, OP_ID_NONE, SRC_CP), Entry(v, 2, 0, OP_ID_NONE, SRC_CP)];
    exec := [2];
    WantedPutDecides(hash, log, exec, v);
    hide Written, Kept, Values, IsPattern, LatestUnder;
    assert Repeats(hash, log, 1, 0);
    FreshIff(hash, log, 1);
    assert !Wanted(log[0], exec);
    forall i: nat
      ensures !Decides(hash, log, exec, v, i)
    {
      assert i < 2 ==> i == 0 || i == 1;
    }
  }

  /** A collision in between brings it back: the second put of `v` is written again, so the first put does
      not decide. */
  lemma CollisionRevives(hash: seq<byte> -> nat, v: seq<byte>, w: seq<byte>) returns (log: seq<Entry>, exec: seq<nat>)
    requires v != w && hash(v) == hash(w) && MIN_VALUE_LEN <= |v| <= MAX_LEN && |w| >= MIN_VALUE_LEN
    ensures FirstOfValue(log, 0) && log[0].value == v && !Wanted(log[0], exec)
    ensures IsPattern(Values(Kept(Written(hash, log), exec)), v)
  {
    log := [Entry(v, 1, 0, OP_ID_NONE, SRC_CP), Entry(w, 1, 0, OP_ID_NONE, SRC_CP), Entry(v, 2, 0, OP_ID_NONE, SRC_CP)];
    exec := [2];
    WantedPutDecides(hash, log, exec, v);
    forall j: nat
      ensures !Repeats(hash, log, 2, j)
    {
      assert hash(log[1].value) == hash(log[2].value);
    }
    FreshIff(hash, log, 2);
    assert Decides(hash, log, exec, v, 2);
  }

  // ---------------------------------------------------------------------
  // The whole path.
  // ---------------------------------------------------------------------

  /** Room the puts can take in the file. */
  ghost function FileBound(puts: seq<Entry>): (r: nat) {
    if puts == [] then 0 else FileBound(puts[..|puts| - 1]) + HEAD + |puts[|puts| - 1].value|
  }

  ghost predicate AllFit(puts: seq<Entry>) {
    forall i :: 0 <= i < |puts| ==> EntryFits(puts[i]) && |puts[i].value| >= MIN_VALUE_LEN
  }

  /** Some wanted put carries exactly these bytes at this origin. */
  ghost predicate Justified(log: seq<Entry>, exec: seq<nat>, v: seq<byte>, origin: Origin) {
    exists e :: e in log && e.value == v && origin == Origin(e.funcId, e.off, e.opId, e.src) && Wanted(e, exec)
  }

  method PutAll(b: Book, puts: seq<Entry>)
    requires b.Valid() && AllFit(puts)
    modifies b
    ensures b.Valid() && b.log == old(b.log) + puts && |b.w| <= |old(b.w)| + FileBound(puts)
  {
    hide BookOf, OffsOk, EncodeAll, Written;
    var i := 0;
    while i < |puts|
      invariant 0 <= i <= |puts| && b.Valid()
      invariant b.log == old(b.log) + puts[..i] && |b.w| <= |old(b.w)| + FileBound(puts[..i])
    {
      assert puts[..i + 1][..i] == puts[..i];
      b.Put(puts[i]);
      i := i + 1;
    }
    assert puts[..i] == puts;
  }

  /** The whole path: run values first, then literals, written, read back and searched in a
      sink body. Every run value of 4 bytes to 1 MiB is found in the body exactly where it
      occurs, and every hit names an origin under which exactly the bytes found were put. */
  method Trace(hash: seq<byte> -> nat, run: seq<Entry>, literals: seq<Entry>, exec: seq<nat>, body: seq<byte>)
    returns (hits: seq<Hit>, origins: seq<Origin>, patterns: seq<seq<byte>>)
    requires AllFit(run) && AllFit(literals) && RunOnly(run, |run|) && Ascending(exec)
    requires FileBound(run) + FileBound(literals) < NO_OUT
    ensures |origins| == |patterns|
    ensures forall k, o {:trigger OccursIn(run[k].value, body, o)} ::
              0 <= k < |run| && |run[k].value| <= MAX_LEN ==>
                (OccursIn(run[k].value, body, o) <==>
                 exists id: nat :: id < |patterns| && patterns[id] == run[k].value && Hit(id, o) in hits)
    ensures forall h :: h in hits ==> h.id < |patterns| && OccursIn(patterns[h.id], body, h.off)
    ensures forall h :: h in hits ==> Justified(run + literals, exec, patterns[h.id], origins[h.id])
    ensures forall v :: 0 < |v| <= MAX_LEN ==>
              (IsPattern(patterns, v) <==> exists i :: Decides(hash, run + literals, exec, v, i))
  {
    hide BookOf, OffsOk, EncodeAll, Written, Loaded, Reports, Values, Origins, Kept, OccursIn, IsPattern, Decides;
    var b := new Book(hash);
    PutAll(b, run);
    PutAll(b, literals);
    ghost var log := run + literals;
    assert b.log == log;
    BookFits(b.stored, log);
    LoadEncoded(b.stored, exec);
    EncodeFrontSame(b.stored);
    ghost var kept := Kept(b.stored, exec);
    forall v | 0 < |v| <= MAX_LEN
      ensures IsPattern(Values(kept), v) <==> exists i :: Decides(hash, log, exec, v, i)
    {
      WantedPutDecides(hash, log, exec, v);
    }
    var ac, os, n := Load(b.w, exec);
    origins, patterns := os, ac.patterns;
    KeptSizes(kept);
    ghost var steps, hops;
    hits, steps, hops := ac.Find(body);
    forall k, o | 0 <= k < |run| && |run[k].value| <= MAX_LEN
      ensures OccursIn(run[k].value, body, o) <==>
              exists id: nat :: id < |patterns| && patterns[id] == run[k].value && Hit(id, o) in hits
    {
      assert log[k] == run[k] && RunOnly(log, k + 1);
      RunValueLoaded(b.stored, log, exec, k);
      HitIffOccurs(patterns, run[k].value, body, o);
    }
    forall h | h in hits
      ensures h.id < |patterns| && OccursIn(patterns[h.id], body, h.off)
      ensures Justified(log, exec, patterns[h.id], origins[h.id])
    {
      HitOccurs(patterns, body, h);
      OriginTrue(b.stored, log, exec, h.id);
    }
  }

  lemma BookFits(stored: seq<Entry>, log: seq<Entry>)
    requires BookOf(stored, log)
    ensures forall j :: 0 <= j < |stored| ==> EntryFits(stored[j])
  {
  }

  lemma KeptSizes(kept: seq<Entry>)
    ensures |Values(kept)| == |Origins(kept)| == |kept|
  {
  }

  lemma HitOccurs(patterns: seq<seq<byte>>, body: seq<byte>, h: Hit)
    requires h in Reports(patterns, body)
    ensures h.id < |patterns| && OccursIn(patterns[h.id], body, h.off)
  {
    ReportsExact(patterns, body, h.id, h.off);
    hide Reports;
    assert h == Hit(h.id, h.off) && h in multiset(Reports(patterns, body));
  }
}
