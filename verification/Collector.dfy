/** The collector of src/collect.rs: tails of the raw record files, counters, rolling part
    files and the index that addresses every payload. Output files are byte strings and
    writes succeed. */
module Collector {
  import opened Bytes
  import opened Wire
  import opened Framing
  import opened Sums

  const PART_ROLL_BYTES: nat := 0x80_0000
  const MAX_PAYLOAD: nat := 0x10_0000
  const KIND_HELLO: nat := 0

  /** Kinds whose payloads share part files. */
  predicate Batched(kind: byte) {
    kind in {8, 12, 23, 24, 29, 30, 33, 40}
  }

  /** A raw record file with the layer and process its name carries. */
  datatype RawFile = RawFile(name: string, layer: nat, pid: nat)

  datatype FileTail = FileTail(off: nat, partial: seq<byte>)

  datatype FileName =
    | Part(layer: nat, kind: byte, seqNo: nat)
    | Single(layer: nat, kind: byte, seqNo: nat)

  datatype PartWriter = PartWriter(seqNo: nat, written: nat)

  /** One line of index.jsonl. */
  datatype Entry = Entry(ts: nat, layer: nat, pid: nat, kind: byte, sid: nat, tid: nat, len: nat, flags: byte,
                         path: FileName, off: Option<nat>)

  /** One accepted record, with the file it came from. */
  datatype Event = Event(from: RawFile, r: Rec)

  // ---------------------------------------------------------------------
  // Totals over all files.
  // ---------------------------------------------------------------------

  ghost function Offsets(tails: map<RawFile, FileTail>): (r: map<RawFile, nat>) {
    map f | f in tails :: tails[f].off
  }

  ghost function Residues(tails: map<RawFile, FileTail>): (r: map<RawFile, nat>) {
    map f | f in tails :: |tails[f].partial|
  }

  /** Every byte read is in a record, counted as corrupt or still waiting, and what waits is
      shorter than one record and yields nothing on its own. */
  ghost predicate TailsOk(tails: map<RawFile, FileTail>, records: nat, bytes: nat, corrupt: nat) {
    && SumMap(Offsets(tails)) == HDR * records + bytes + corrupt + SumMap(Residues(tails))
    && (forall f :: f in tails ==> |tails[f].partial| < MAX_RECORD)
    && (forall f :: f in tails ==> Scan(tails[f].partial) == Scanned([], 0, tails[f].partial))
  }

  function TailOf(tails: map<RawFile, FileTail>, f: RawFile): (r: FileTail) {
    if f in tails then tails[f] else FileTail(0, [])
  }

  /** What a file holds beyond the bytes already read. */
  function Unread(t: FileTail, content: seq<byte>): (r: seq<byte>) {
    if t.off <= |content| then content[t.off..] else []
  }

  ghost function ScanOf(tails: map<RawFile, FileTail>, f: RawFile, content: seq<byte>): (r: Scanned) {
    var t := TailOf(tails, f);
    Scan(t.partial + Unread(t, content))
  }

  ghost function TailAfter(tails: map<RawFile, FileTail>, f: RawFile, content: seq<byte>): (r: FileTail) {
    var t := TailOf(tails, f);
    FileTail(t.off + |Unread(t, content)|, ScanOf(tails, f, content).residue)
  }

  lemma TailsPush(tails: map<RawFile, FileTail>, records: nat, bytes: nat, corrupt: nat, f: RawFile, content: seq<byte>)
    requires TailsOk(tails, records, bytes, corrupt)
    ensures var s := ScanOf(tails, f, content);
            TailsOk(tails[f := TailAfter(tails, f, content)],
                    records + |s.recs|, bytes + PayloadBytes(s.recs), corrupt + s.corrupt)
  {
    var t := TailOf(tails, f);
    var b := t.partial + Unread(t, content);
    ScanConserves(b);
    ResidueStable(b);
    hide Scan, PayloadBytes, SumMap;
    var offs, res := Offsets(tails), Residues(tails);
    var now := TailAfter(tails, f, content);
    SumMapUpdate(offs, f, now.off);
    SumMapUpdate(res, f, |now.partial|);
    assert Offsets(tails[f := now]) == offs[f := now.off];
    assert Residues(tails[f := now]) == res[f := |now.partial|];
  }

  ghost predicate Idle(tails: map<RawFile, FileTail>, f: RawFile, content: seq<byte>) {
    f in tails && tails[f].off >= |content|
  }

  /** Without new bytes a known tail yields nothing. */
  lemma IdleScan(tails: map<RawFile, FileTail>, records: nat, bytes: nat, corrupt: nat, f: RawFile, content: seq<byte>)
    requires TailsOk(tails, records, bytes, corrupt) && Idle(tails, f, content)
    ensures ScanOf(tails, f, content) == Scanned([], 0, tails[f].partial)
    ensures TailAfter(tails, f, content) == tails[f]
  {
    hide Scan;
    assert Unread(tails[f], content) == [];
    assert tails[f].partial + [] == tails[f].partial;
  }

  // ---------------------------------------------------------------------
  // Counters as functions of the accepted records.
  // ---------------------------------------------------------------------

  ghost function Payloads(log: seq<Event>): (res: nat) {
    if log == [] then 0 else Payloads(log[..|log| - 1]) + |log[|log| - 1].r.payload|
  }

  ghost function Flagged(log: seq<Event>): (res: nat) {
    if log == [] then 0 else Flagged(log[..|log| - 1]) + log[|log| - 1].r.flags % 2
  }

  ghost function CountKey(log: seq<Event>, layer: nat, kind: byte): (res: nat) {
    if log == [] then 0 else
      var e := log[|log| - 1];
      CountKey(log[..|log| - 1], layer, kind) + if e.from.layer == layer && e.r.kind == kind then 1 else 0
  }

  /** The truncated counter is the number of records with flag bit 0. */
  lemma {:induction false} FlaggedAre(log: seq<Event>)
    ensures Flagged(log) == |set i | 0 <= i < |log| && log[i].r.flags % 2 == 1|
    decreases |log|
  {
    var b := set i | 0 <= i < |log| && log[i].r.flags % 2 == 1;
    if log == [] {
      assert b == {};
    } else {
      var n := |log| - 1;
      FlaggedAre(log[..n]);
      assert (set i | 0 <= i < n && log[..n][i].r.flags % 2 == 1) == b - {n};
    }
  }

  /** A counter per layer and kind is the number of records of that layer and kind. */
  lemma {:induction false} KeyedAre(log: seq<Event>, layer: nat, kind: byte)
    ensures CountKey(log, layer, kind)
         == |set i | 0 <= i < |log| && log[i].from.layer == layer && log[i].r.kind == kind|
    decreases |log|
  {
    var b := set i | 0 <= i < |log| && log[i].from.layer == layer && log[i].r.kind == kind;
    if log == [] {
      assert b == {};
    } else {
      var n := |log| - 1;
      KeyedAre(log[..n], layer, kind);
      assert (set i | 0 <= i < n && log[..n][i].from.layer == layer && log[..n][i].r.kind == kind) == b - {n};
    }
  }

  ghost predicate PerOk(per: map<(nat, byte), nat>, log: seq<Event>) {
    forall l: nat, k: byte :: GetOr(per, (l, k)) == CountKey(log, l, k)
  }

  ghost predicate HellosOk(hellos: map<nat, nat>, log: seq<Event>) {
    forall l: nat :: GetOr(hellos, l) == if l < 3 then CountKey(log, l, KIND_HELLO) else 0
  }

  lemma CountKeyPush(log: seq<Event>, e: Event, l: nat, k: byte)
    ensures CountKey(log + [e], l, k) == CountKey(log, l, k) + if e.from.layer == l && e.r.kind == k then 1 else 0
  {
    assert (log + [e])[..|log|] == log;
  }

  lemma PerPush(per: map<(nat, byte), nat>, log: seq<Event>, e: Event)
    requires PerOk(per, log)
    ensures var key := (e.from.layer, e.r.kind);
            PerOk(per[key := GetOr(per, key) + 1], log + [e])
            && SumMap(per[key := GetOr(per, key) + 1]) == SumMap(per) + 1
  {
    var key := (e.from.layer, e.r.kind);
    SumMapUpdate(per, key, GetOr(per, key) + 1);
    hide CountKey;
    forall l: nat, k: byte
      ensures GetOr(per[key := GetOr(per, key) + 1], (l, k)) == CountKey(log + [e], l, k)
    {
      CountKeyPush(log, e, l, k);
    }
  }

  lemma CountPush(log: seq<Event>, e: Event)
    ensures Payloads(log + [e]) == Payloads(log) + |e.r.payload|
    ensures Flagged(log + [e]) == Flagged(log) + e.r.flags % 2
    ensures LastTs(log + [e]) == if e.r.ts > LastTs(log) then e.r.ts else LastTs(log)
    ensures FirstTs(log + [e]) == if FirstTs(log) == 0 || e.r.ts < FirstTs(log) then e.r.ts else FirstTs(log)
  {
    assert (log + [e])[..|log|] == log;
  }

  lemma HelloPush(hellos: map<nat, nat>, log: seq<Event>, e: Event)
    requires HellosOk(hellos, log)
    ensures var l := e.from.layer;
            HellosOk(if e.r.kind == KIND_HELLO && l < 3 then hellos[l := GetOr(hellos, l) + 1] else hellos, log + [e])
  {
    hide CountKey;
    var k := e.from.layer;
    var after := if e.r.kind == KIND_HELLO && k < 3 then hellos[k := GetOr(hellos, k) + 1] else hellos;
    forall l: nat
      ensures GetOr(after, l) == if l < 3 then CountKey(log + [e], l, KIND_HELLO) else 0
    {
      CountKeyPush(log, e, l, KIND_HELLO);
    }
  }

  ghost function LastTs(log: seq<Event>): (res: nat) {
    if log == [] then 0 else
      var t := LastTs(log[..|log| - 1]);
      if log[|log| - 1].r.ts > t then log[|log| - 1].r.ts else t
  }

  lemma {:induction false} LastTsMax(log: seq<Event>)
    ensures forall i :: 0 <= i < |log| ==> log[i].r.ts <= LastTs(log)
    ensures LastTs(log) == 0 || exists i :: 0 <= i < |log| && log[i].r.ts == LastTs(log)
  {
    if log == [] {
    } else {
      LastTsMax(log[..|log| - 1]);
    }
  }

  ghost function FirstTs(log: seq<Event>): (res: nat) {
    if log == [] then 0 else
      var t := FirstTs(log[..|log| - 1]);
      if t == 0 || log[|log| - 1].r.ts < t then log[|log| - 1].r.ts else t
  }

  /** 0 stands for "none yet", so the minimum is right when no record carries 0. */
  lemma {:induction false} FirstTsMin(log: seq<Event>)
    requires forall i :: 0 <= i < |log| ==> log[i].r.ts != 0
    ensures forall i :: 0 <= i < |log| ==> FirstTs(log) <= log[i].r.ts
    ensures log != [] ==> FirstTs(log) != 0 && exists i :: 0 <= i < |log| && log[i].r.ts == FirstTs(log)
  {
    if log == [] {
    } else {
      FirstTsMin(log[..|log| - 1]);
      var n := |log| - 1;
      if n > 0 {
        assert log[..n] != [];
      }
    }
  }

  lemma {:induction false} FirstTsZero(log: seq<Event>)
    ensures FirstTs(log) == 0 <==> log == [] || log[|log| - 1].r.ts == 0
  {
    if log == [] {
    } else {
      FirstTsZero(log[..|log| - 1]);
    }
  }

  ghost predicate IsFirstTs(log: seq<Event>, t: nat) {
    (forall i :: 0 <= i < |log| ==> t <= log[i].r.ts) && exists i :: 0 <= i < |log| && log[i].r.ts == t
  }

  /** Because 0 means "none yet", a record at time 0 is forgotten again by the next one: the value is the
      smallest time exactly if no record carries 0 or the last one does. */
  lemma FirstTsIff(log: seq<Event>)
    requires log != []
    ensures IsFirstTs(log, FirstTs(log)) <==>
            ((forall i :: 0 <= i < |log| ==> log[i].r.ts != 0) || log[|log| - 1].r.ts == 0)
  {
    FirstTsZero(log);
    hide FirstTs;
    if forall i :: 0 <= i < |log| ==> log[i].r.ts != 0 {
      FirstTsMin(log);
    }
  }

  /** Two records are enough for a wrong first time: one at time 0 and a later one. */
  lemma FirstTsForgets(a: Event, b: Event)
    requires a.r.ts == 0 < b.r.ts
    ensures FirstTs([a, b]) == b.r.ts && !IsFirstTs([a, b], FirstTs([a, b]))
  {
    var log := [a, b];
    assert log[..1] == [a] && [a][..0] == [];
    assert FirstTs([a]) == 0;
    assert log[0].r.ts < FirstTs(log);
  }

  // ---------------------------------------------------------------------
  // Where payloads are stored.
  // ---------------------------------------------------------------------

  /** `read_payload` of src/sinkfilter.rs. */
  function ReadPayload(files: map<FileName, seq<byte>>, e: Entry): (r: Option<seq<byte>>) {
    if e.path !in files then None else
      var b := files[e.path];
      var start := if e.off.Some? then e.off.value else 0;
      if start == 0 && |b| == e.len then Some(b)
      else if start + e.len <= |b| then Some(b[start..start + e.len])
      else None
  }

  /** What the entries so far have put into file `p`, in order. */
  ghost function Image(index: seq<Entry>, log: seq<Event>, p: FileName): (res: seq<byte>)
    requires |index| == |log|
  {
    if index == [] then [] else
      var n := |index| - 1;
      Image(index[..n], log[..n], p) + if index[n].path == p then log[n].r.payload else []
  }

  lemma {:induction false} ImagePrefix(index: seq<Entry>, log: seq<Event>, p: FileName, i: nat)
    requires i < |index| == |log| && index[i].path == p
    ensures Image(index[..i], log[..i], p) + log[i].r.payload <= Image(index, log, p)
  {
    var n := |index| - 1;
    if i < n {
      assert index[..n][..i] == index[..i] && log[..n][..i] == log[..i];
      ImagePrefix(index[..n], log[..n], p, i);
    }
  }

  lemma {:induction false} ImageNone(index: seq<Entry>, log: seq<Event>, p: FileName)
    requires |index| == |log| && forall i :: 0 <= i < |index| ==> index[i].path != p
    ensures Image(index, log, p) == []
  {
    if index == [] {
    } else {
      ImageNone(index[..|index| - 1], log[..|log| - 1], p);
    }
  }

  /** Each indexed payload starts where the file's previous payloads end: intervals within
      one file are contiguous and disjoint. */
  ghost predicate Contiguous(index: seq<Entry>, log: seq<Event>)
    requires |index| == |log|
  {
    forall i :: 0 <= i < |index| ==>
      index[i].len == |log[i].r.payload| &&
      (if index[i].off.Some? then index[i].off.value else 0) == |Image(index[..i], log[..i], index[i].path)|
  }

  ghost predicate FilesHold(files: map<FileName, seq<byte>>, index: seq<Entry>, log: seq<Event>)
    requires |index| == |log|
  {
    && (forall p :: p in files ==> files[p] == Image(index, log, p))
    && (forall i :: 0 <= i < |index| ==> index[i].path in files)
  }

  /** The index gives every payload back, however many records and rolls came after. */
  lemma ReadBack(files: map<FileName, seq<byte>>, index: seq<Entry>, log: seq<Event>, i: nat)
    requires |index| == |log| && i < |index| && Contiguous(index, log) && FilesHold(files, index, log)
    ensures ReadPayload(files, index[i]) == Some(log[i].r.payload)
  {
    hide Image;
    var p := index[i].path;
    var b, before, v := files[p], Image(index[..i], log[..i], p), log[i].r.payload;
    ImagePrefix(index, log, p, i);
    SliceBack(before, v, b);
  }

  lemma SliceBack(before: seq<byte>, v: seq<byte>, b: seq<byte>)
    requires before + v <= b
    ensures b[|before|..|before| + |v|] == v
    ensures |before| == 0 && |b| == |v| ==> b == v
  {
    assert b[..|before + v|] == before + v;
    assert b[|before|..|before| + |v|] == b[..|before + v|][|before|..];
  }

  ghost predicate PartsOk(files: map<FileName, seq<byte>>, parts: map<(nat, byte), PartWriter>, seqNo: nat) {
    && (forall k :: k in parts ==>
          Part(k.0, k.1, parts[k].seqNo) in files && |files[Part(k.0, k.1, parts[k].seqNo)]| == parts[k].written)
    && (forall p :: p in files && p.Part? ==>
          (p.layer, p.kind) in parts && p.seqNo <= parts[(p.layer, p.kind)].seqNo)
    && (forall p :: p in files && p.Part? ==> |files[p]| < PART_ROLL_BYTES + MAX_PAYLOAD)
    && (forall p :: p in files && p.Single? ==> p.seqNo <= seqNo)
  }

  /** Creating an empty file that no entry refers to. */
  lemma CreateFile(files: map<FileName, seq<byte>>, index: seq<Entry>, log: seq<Event>, p: FileName)
    requires |index| == |log| && FilesHold(files, index, log) && p !in files
    ensures FilesHold(files[p := []], index, log)
  {
    ImageNone(index, log, p);
  }

  lemma ImagePush(index: seq<Entry>, log: seq<Event>, e: Entry, v: Event, p: FileName)
    requires |index| == |log|
    ensures Image(index + [e], log + [v], p) == Image(index, log, p) + if e.path == p then v.r.payload else []
  {
    assert (index + [e])[..|index|] == index && (log + [v])[..|log|] == log;
  }

  /** Appending one payload to file `e.path` and then indexing it. */
  lemma StorePush(mid: map<FileName, seq<byte>>, files: map<FileName, seq<byte>>,
                  index: seq<Entry>, log: seq<Event>, e: Entry, v: Event)
    requires |index| == |log| && Contiguous(index, log) && FilesHold(mid, index, log) && e.path in mid
    requires files == mid[e.path := mid[e.path] + v.r.payload]
    requires e.len == |v.r.payload| && (if e.off.Some? then e.off.value else 0) == |mid[e.path]|
    ensures Contiguous(index + [e], log + [v]) && FilesHold(files, index + [e], log + [v])
  {
    var index', log' := index + [e], log + [v];
    forall p | p in files
      ensures files[p] == Image(index', log', p)
    {
      ImagePush(index, log, e, v, p);
    }
    forall i | 0 <= i < |index'|
      ensures index'[i].len == |log'[i].r.payload| &&
              (if index'[i].off.Some? then index'[i].off.value else 0)
              == |Image(index'[..i], log'[..i], index'[i].path)|
    {
      assert index'[..i] == index[..i] && log'[..i] == log[..i];
      if i == |index| {
        assert index[..i] == index && log[..i] == log;
      }
    }
  }

  // ---------------------------------------------------------------------
  // The collector.
  // ---------------------------------------------------------------------

  class Collect {
    var tails: map<RawFile, FileTail>
    var seqNo: nat
    var parts: map<(nat, byte), PartWriter>
    var hellos: map<nat, nat>
    var records: nat
    var bytes: nat
    var truncated: nat
    var corrupt: nat
    var filesSeen: nat
    var firstTs: nat
    var lastTs: nat
    var per: map<(nat, byte), nat>
    var files: map<FileName, seq<byte>>
    var index: seq<Entry>
    ghost var log: seq<Event>

    ghost predicate Counted()
      reads `log, `records, `seqNo, `bytes, `truncated, `firstTs, `lastTs, `per, `hellos
    {
      CountedAs(log)
    }

    /** The counters are those of the records `log`. */
    ghost predicate CountedAs(log: seq<Event>)
      reads `records, `seqNo, `bytes, `truncated, `firstTs, `lastTs, `per, `hellos
    {
      && records == seqNo == |log|
      && bytes == Payloads(log)
      && truncated == Flagged(log)
      && lastTs == LastTs(log)
      && firstTs == FirstTs(log)
      && SumMap(per) == records && PerOk(per, log)
      && HellosOk(hellos, log)
    }

    ghost predicate Stored()
      reads `log, `index, `files, `parts, `seqNo
    {
      && |index| == |log|
      && Contiguous(index, log)
      && FilesHold(files, index, log)
      && PartsOk(files, parts, seqNo)
      && (forall i :: 0 <= i < |log| ==> Describes(index[i], log[i]))
    }

    ghost predicate Tailed()
      reads `tails, `records, `bytes, `corrupt
    {
      TailsOk(tails, records, bytes, corrupt)
    }

    ghost predicate Valid()
      reads this
    {
      Counted() && Stored() && Tailed()
    }

    constructor ()
      ensures Valid() && log == [] && tails == map[] && corrupt == 0
    {
      tails, seqNo, parts, hellos := map[], 0, map[], map[];
      records, bytes, truncated, corrupt, filesSeen, firstTs, lastTs := 0, 0, 0, 0, 0, 0, 0;
      per, files, index, log := map[], map[], [], [];
    }

    /** `part_writer`: opens part 0 on the first payload of a layer and kind. */
    method OpenPart(layer: nat, kind: byte)
      requires Stored()
      modifies this`parts, this`files
      ensures Stored() && (layer, kind) in parts
    {
      var key := (layer, kind);
      if key !in parts {
        var p := Part(layer, kind, 0);
        CreateFile(files, index, log, p);
        files := files[p := []];
        parts := parts[key := PartWriter(0, 0)];
      }
    }

    /** `PartWriter::push`, rolling to a fresh file when the current one is full. `mid` is
        the directory just before the payload is appended. */
    method Push(layer: nat, kind: byte, payload: seq<byte>)
      returns (p: FileName, off: nat, ghost mid: map<FileName, seq<byte>>)
      requires Stored() && (layer, kind) in parts && |payload| <= MAX_PAYLOAD
      modifies this`parts, this`files
      ensures p.Part? && p.layer == layer && p.kind == kind
      ensures FilesHold(mid, index, log) && p in mid && off == |mid[p]|
      ensures files == mid[p := mid[p] + payload] && PartsOk(files, parts, seqNo)
    {
      hide Contiguous, FilesHold, Describes;
      var key := (layer, kind);
      var w := parts[key];
      if w.written >= PART_ROLL_BYTES {
        w := PartWriter(w.seqNo + 1, 0);
        p := Part(layer, kind, w.seqNo);
        CreateFile(files, index, log, p);
        files := files[p := []];
      }
      p := Part(layer, kind, w.seqNo);
      mid := files;
      off := w.written;
      files := files[p := files[p] + payload];
      parts := parts[key := PartWriter(w.seqNo, w.written + |payload|)];
    }

    /** Counters, storage and index line of one accepted record. */
    method Accept(f: RawFile, r: Rec)
      requires Counted() && Stored()
      requires r.kind <= MAX_KIND && r.flags <= 1 && |r.payload| <= MAX_PAYLOAD
      modifies this`seqNo, this`parts, this`files, this`index, this`log, this`per, this`hellos,
               this`records, this`bytes, this`truncated, this`firstTs, this`lastTs
      ensures Counted() && Stored()
      ensures log == old(log) + [Event(f, r)] && records == old(records) + 1 && bytes == old(bytes) + |r.payload|
      ensures old(index) <= index
    {
      Count(f, r);
      Store(f, r);
    }

    /** Payload to a part file or a file of its own, then the index line. */
    method Store(f: RawFile, r: Rec)
      requires |index| == |log| && seqNo == |log| + 1 && |r.payload| <= MAX_PAYLOAD
      requires Contiguous(index, log) && FilesHold(files, index, log) && PartsOk(files, parts, |log|)
      requires forall i :: 0 <= i < |log| ==> Describes(index[i], log[i])
      modifies this`parts, this`files, this`index, this`log
      ensures Stored() && log == old(log) + [Event(f, r)] && old(index) <= index
    {
      hide Contiguous, FilesHold, Image;
      var path, off;
      ghost var mid;
      if Batched(r.kind) && r.payload != [] {
        OpenPart(f.layer, r.kind);
        var o;
        path, o, mid := Push(f.layer, r.kind, r.payload);
        off := Some(o);
      } else {
        path, off := Single(f.layer, r.kind, seqNo), None;
        CreateFile(files, index, log, path);
        mid := files[path := []];
        files := files[path := r.payload];
        assert mid[path] + r.payload == r.payload;
      }
      var e := Entry(r.ts, f.layer, f.pid, r.kind, r.sid, r.tid, |r.payload|, r.flags, path, off);
      StorePush(mid, files, index, log, e, Event(f, r));
      index := index + [e];
      log := log + [Event(f, r)];
    }

    /** The counters of `stats` and the hello counts. */
    method Count(f: RawFile, r: Rec)
      requires Counted() && |index| == |log|
      requires r.flags <= 1
      modifies this`seqNo, this`per, this`hellos, this`records, this`bytes, this`truncated, this`firstTs, this`lastTs
      ensures CountedAs(log + [Event(f, r)])
    {
      ghost var e := Event(f, r);
      CountPush(log, e);
      hide PerOk, HellosOk, Payloads, Flagged, LastTs, FirstTs, SumMap, GetOr;
      PerPush(per, log, e);
      HelloPush(hellos, log, e);
      seqNo := seqNo + 1;
      var key := (f.layer, r.kind);
      per := per[key := GetOr(per, key) + 1];
      records := records + 1;
      bytes := bytes + |r.payload|;
      if r.flags % 2 != 0 {
        truncated := truncated + 1;
      }
      if r.kind == KIND_HELLO && f.layer < 3 {
        hellos := hellos[f.layer := GetOr(hellos, f.layer) + 1];
      }
      if firstTs == 0 || r.ts < firstTs {
        firstTs := r.ts;
      }
      if r.ts > lastTs {
        lastTs := r.ts;
      }
    }

    /** The search for a later plausible record. */
    method HasPlausible(b: seq<byte>, from: nat) returns (found: bool)
      requires 0 < from
      ensures found <==> exists p: nat :: from <= p <= |b| && Plausible(b, p)
    {
      hide HeaderOk, TotalAt;
      var p := from;
      while p + HDR <= |b|
        invariant from <= p
        invariant forall q: nat :: from <= q < p ==> !Plausible(b, q)
      {
        if Plausible(b, p) {
          return true;
        }
        p := p + 1;
      }
      return false;
    }

    /** The parse loop over `b`: `consumed` advances and every complete record is accepted. */
    method ParseLoop(f: RawFile, b: seq<byte>) returns (consumed: nat)
      requires Counted() && Stored()
      modifies this`seqNo, this`parts, this`files, this`index, this`log, this`per, this`hellos,
               this`records, this`bytes, this`truncated, this`firstTs, this`lastTs, this`corrupt
      ensures Counted() && Stored()
      ensures consumed <= |b| && b[consumed..] == Scan(b).residue
      ensures log == old(log) + From(f, Scan(b).recs)
      ensures corrupt == old(corrupt) + Scan(b).corrupt
      ensures records == old(records) + |Scan(b).recs| && bytes == old(bytes) + PayloadBytes(Scan(b).recs)
      ensures old(index) <= index
      ensures Scan(b).recs == [] ==> index == old(index) && files == old(files)
    {
      hide Scan, Counted, Stored, Decode, PayloadBytes, HeaderOk, TotalAt, Plausible;
      consumed := 0;
      ghost var recs: seq<Rec> := [];
      assert b[0..] == b;
      FromNone(f);
      PrependPrepend([], 0, [], 0, Scan(b));
      assert log + [] == log;
      ghost var bad := 0;
      while true
        invariant 0 <= consumed <= |b| && Counted() && Stored()
        invariant log == old(log) + From(f, recs) && corrupt == old(corrupt) + bad
        invariant records == old(records) + |recs| && bytes == old(bytes) + PayloadBytes(recs)
        invariant Scan(b) == Prepend(recs, bad, Scan(b[consumed..]))
        invariant old(index) <= index
        invariant recs == [] ==> index == old(index) && files == old(files)
        decreases |b| - consumed
      {
        ScanStep(b, consumed);
        if |b| - consumed < HDR {
          break;
        }
        var total := TotalAt(b, consumed);
        if !HeaderOk(b, consumed) {
          PrependPrepend(recs, bad, [], 1, Scan(b[consumed + 1..]));
          assert recs + [] == recs;
          corrupt := corrupt + 1;
          bad := bad + 1;
          consumed := consumed + 1;
        } else if consumed + total > |b| {
          var later := HasPlausible(b, consumed + 1);
          if !later {
            break;
          }
          PrependPrepend(recs, bad, [], 1, Scan(b[consumed + 1..]));
          assert recs + [] == recs;
          corrupt := corrupt + 1;
          bad := bad + 1;
          consumed := consumed + 1;
        } else {
          HeaderRange(b, consumed);
          var r := Decode(b[consumed..consumed + total]);
          PrependPrepend(recs, bad, [r], 0, Scan(b[consumed + total..]));
          Accept(f, r);
          FromPush(f, recs, r);
          recs := recs + [r];
          consumed := consumed + total;
        }
      }
      assert recs + [] == recs;
    }

    /** One raw file of one scan: reads what is new, parses, keeps the residue. */
    method ScanFile(f: RawFile, content: seq<byte>)
      requires Valid()
      modifies this`seqNo, this`parts, this`files, this`index, this`log, this`per, this`hellos,
               this`records, this`bytes, this`truncated, this`firstTs, this`lastTs, this`corrupt, this`tails
      ensures Valid()
      ensures log == old(log) + From(f, ScanOf(old(tails), f, content).recs)
      ensures corrupt == old(corrupt) + ScanOf(old(tails), f, content).corrupt
      ensures tails == old(tails)[f := TailAfter(old(tails), f, content)]
      ensures old(index) <= index
      ensures ScanOf(old(tails), f, content).recs == [] ==> index == old(index) && files == old(files)
    {
      hide Counted, Stored, TailsOk, Scan, PayloadBytes;
      TailsPush(tails, records, bytes, corrupt, f, content);
      var t := TailOf(tails, f);
      var b := t.partial + Unread(t, content);
      var consumed := ParseLoop(f, b);
      tails := tails[f := FileTail(t.off + |Unread(t, content)|, b[consumed..])];
    }

    /** One `scan_once` over the raw directory: what it logs, what it leaves of each file, and every
        payload indexed before still read back. */
    method ScanOnce(raw: seq<(RawFile, seq<byte>)>)
      requires Valid()
      modifies this
      ensures Valid()
      ensures log == old(log) + Logged(old(tails), raw) && corrupt == old(corrupt) + Corrupted(old(tails), raw)
      ensures tails == TailsAfter(old(tails), raw)
      ensures old(index) <= index && |old(index)| == |old(log)|
      ensures forall i :: 0 <= i < |old(index)| ==> ReadPayload(files, old(index)[i]) == Some(old(log)[i].r.payload)
      ensures |index| == |log|
      ensures forall i :: 0 <= i < |log| ==>
                && index[i].ts == log[i].r.ts && index[i].kind == log[i].r.kind && index[i].flags == log[i].r.flags
                && index[i].sid == log[i].r.sid && index[i].tid == log[i].r.tid && index[i].len == |log[i].r.payload|
                && index[i].layer == log[i].from.layer && index[i].pid == log[i].from.pid
      ensures AllIdle(old(tails), raw) ==> log == old(log) && corrupt == old(corrupt) && tails == old(tails) &&
                                           index == old(index) && files == old(files)
    {
      hide Counted, Stored, TailsOk, ScanOf, TailAfter, Idle, From, Logged, Corrupted, TailsAfter, AllIdle, ReadPayload;
      filesSeen := |raw|;
      assert raw[..0] == [];
      NoFiles(tails, log);
      IndexLines();
      var i := 0;
      while i < |raw|
        invariant 0 <= i <= |raw| && Valid() && old(index) <= index
        invariant log == old(log) + Logged(old(tails), raw[..i])
        invariant corrupt == old(corrupt) + Corrupted(old(tails), raw[..i])
        invariant tails == TailsAfter(old(tails), raw[..i])
        invariant AllIdle(old(tails), raw) ==> log == old(log) && corrupt == old(corrupt) && tails == old(tails) &&
                                               index == old(index) && files == old(files)
      {
        if AllIdle(old(tails), raw) {
          OneIdle(tails, raw, i);
          IdleScan(tails, records, bytes, corrupt, raw[i].0, raw[i].1);
          FromNone(raw[i].0);
          InIdle(tails, raw[i].0, raw[i].1);
        }
        OneMoreFile(old(tails), raw, i, old(log));
        ScanFile(raw[i].0, raw[i].1);
        i := i + 1;
      }
      assert raw[..i] == raw;
      IndexLines();
      forall k | 0 <= k < |old(index)|
        ensures ReadPayload(files, old(index)[k]) == Some(old(log)[k].r.payload)
      {
        StillRead(k);
        assert log[k] == old(log)[k] && index[k] == old(index)[k];
      }
    }

    /** One line an accepted record, in order; it says all of the record but its payload, and which file holds that. */
    lemma IndexLines()
      requires Valid()
      ensures |index| == |log|
      ensures forall i :: 0 <= i < |log| ==>
                && index[i].ts == log[i].r.ts && index[i].kind == log[i].r.kind && index[i].flags == log[i].r.flags
                && index[i].sid == log[i].r.sid && index[i].tid == log[i].r.tid && index[i].len == |log[i].r.payload|
                && index[i].layer == log[i].from.layer && index[i].pid == log[i].from.pid
      ensures forall i :: 0 <= i < |log| ==>
                && index[i].path.layer == log[i].from.layer && index[i].path.kind == log[i].r.kind
                && (index[i].path.Part? <==> log[i].r.kind in {8, 12, 23, 24, 29, 30, 33, 40} && log[i].r.payload != [])
    {
      hide Contiguous, FilesHold, PartsOk, TailsOk, CountedAs;
      assert forall i :: 0 <= i < |log| ==> Describes(index[i], log[i]);
    }

    /** Every indexed payload reads back now. */
    lemma StillRead(i: nat)
      requires Valid() && i < |index|
      ensures i < |log| && ReadPayload(files, index[i]) == Some(log[i].r.payload)
    {
      hide Contiguous, FilesHold, TailsOk, CountedAs;
      ReadBack(files, index, log, i);
    }

    /** Any number of scans: an entry once written reads back for good. */
    method Watch(scans: seq<seq<(RawFile, seq<byte>)>>)
      requires Valid()
      modifies this
      ensures Valid() && old(index) <= index && old(log) <= log && |old(index)| == |old(log)|
      ensures forall i :: 0 <= i < |old(index)| ==> ReadPayload(files, old(index)[i]) == Some(old(log)[i].r.payload)
    {
      hide Valid, ReadPayload, Logged, Corrupted, TailsAfter, AllIdle;
      IndexLines();
      var n := 0;
      while n < |scans|
        invariant 0 <= n <= |scans| && Valid() && old(index) <= index && old(log) <= log
      {
        ScanOnce(scans[n]);
        n := n + 1;
      }
      forall k | 0 <= k < |old(index)|
        ensures ReadPayload(files, old(index)[k]) == Some(old(log)[k].r.payload)
      {
        StillRead(k);
        assert log[k] == old(log)[k] && index[k] == old(index)[k];
      }
    }
  }

  // ---------------------------------------------------------------------
  // One scan of many files.
  // ---------------------------------------------------------------------

  /** The tails after the files `raw` are scanned one after the other. */
  ghost function TailsAfter(tails: map<RawFile, FileTail>, raw: seq<(RawFile, seq<byte>)>)
    : (r: map<RawFile, FileTail>)
  {
    if raw == [] then tails
    else
      var before, x := TailsAfter(tails, raw[..|raw| - 1]), raw[|raw| - 1];
      before[x.0 := TailAfter(before, x.0, x.1)]
  }

  /** The records of all files, file by file. */
  ghost function Logged(tails: map<RawFile, FileTail>, raw: seq<(RawFile, seq<byte>)>): (log: seq<Event>) {
    if raw == [] then []
    else
      var n := |raw| - 1;
      Logged(tails, raw[..n]) + From(raw[n].0, ScanOf(TailsAfter(tails, raw[..n]), raw[n].0, raw[n].1).recs)
  }

  ghost function Corrupted(tails: map<RawFile, FileTail>, raw: seq<(RawFile, seq<byte>)>): (n: nat) {
    if raw == [] then 0
    else
      var n := |raw| - 1;
      Corrupted(tails, raw[..n]) + ScanOf(TailsAfter(tails, raw[..n]), raw[n].0, raw[n].1).corrupt
  }

  ghost predicate AllIdle(tails: map<RawFile, FileTail>, raw: seq<(RawFile, seq<byte>)>) {
    forall i :: 0 <= i < |raw| ==> Idle(tails, raw[i].0, raw[i].1)
  }

  lemma OneIdle(tails: map<RawFile, FileTail>, raw: seq<(RawFile, seq<byte>)>, i: nat)
    requires AllIdle(tails, raw) && i < |raw|
    ensures Idle(tails, raw[i].0, raw[i].1)
  {
  }

  lemma NoFiles(tails: map<RawFile, FileTail>, log: seq<Event>)
    ensures TailsAfter(tails, []) == tails && Corrupted(tails, []) == 0 && log + Logged(tails, []) == log
  {
  }

  lemma OneMoreFile(tails: map<RawFile, FileTail>, raw: seq<(RawFile, seq<byte>)>, i: nat, log: seq<Event>)
    requires i < |raw|
    ensures var before, x := TailsAfter(tails, raw[..i]), raw[i];
            && TailsAfter(tails, raw[..i + 1]) == before[x.0 := TailAfter(before, x.0, x.1)]
            && log + Logged(tails, raw[..i + 1])
                == log + Logged(tails, raw[..i]) + From(x.0, ScanOf(before, x.0, x.1).recs)
            && Corrupted(tails, raw[..i + 1]) == Corrupted(tails, raw[..i]) + ScanOf(before, x.0, x.1).corrupt
  {
    hide TailAfter, ScanOf, From;
    assert raw[..i + 1][..i] == raw[..i];
  }

  lemma InIdle(tails: map<RawFile, FileTail>, f: RawFile, content: seq<byte>)
    requires Idle(tails, f, content)
    ensures f in tails && tails[f := tails[f]] == tails
  {
  }

  /** The accepted records of one file as log events. */
  ghost function From(f: RawFile, recs: seq<Rec>): (r: seq<Event>) {
    seq(|recs|, i requires 0 <= i < |recs| => Event(f, recs[i]))
  }

  lemma FromNone(f: RawFile)
    ensures From(f, []) == [] && PayloadBytes([]) == 0
  {
  }

  lemma FromPush(f: RawFile, recs: seq<Rec>, r: Rec)
    ensures From(f, recs + [r]) == From(f, recs) + [Event(f, r)]
    ensures PayloadBytes(recs + [r]) == PayloadBytes(recs) + |r.payload|
  {
    PayloadPush(recs, r);
  }

  lemma {:induction false} PayloadPush(recs: seq<Rec>, r: Rec)
    ensures PayloadBytes(recs + [r]) == PayloadBytes(recs) + |r.payload|
  {
    if recs == [] {
      assert (recs + [r])[1..] == [];
    } else {
      assert (recs + [r])[1..] == recs[1..] + [r];
      PayloadPush(recs[1..], r);
    }
  }

  ghost predicate Describes(e: Entry, v: Event) {
    && e.ts == v.r.ts && e.layer == v.from.layer && e.pid == v.from.pid && e.kind == v.r.kind
    && e.sid == v.r.sid && e.tid == v.r.tid && e.flags == v.r.flags && e.len == |v.r.payload|
    && e.path.layer == e.layer && e.path.kind == e.kind
    && (e.path.Part? <==> Batched(e.kind) && e.len > 0)
  }
}
