/** The record parser of `scan_once` in src/collect.rs, as a function of the bytes at hand:
    complete records are taken off the front, one byte is given up whenever the header is
    impossible or a later record is already visible, and the rest waits for more bytes. */
module Framing {
  import opened Bytes
  import opened Wire

  const MAX_RECORD: nat := 24 + 0x10_0000

  datatype Scanned = Scanned(recs: seq<Rec>, corrupt: nat, residue: seq<byte>)

  function TotalAt(b: seq<byte>, p: nat): (r: nat)
    requires p + HDR <= |b|
  {
    FromLe(b[p..p + 4])
  }

  predicate HeaderOk(b: seq<byte>, p: nat)
    requires p + HDR <= |b|
  {
    HDR <= TotalAt(b, p) <= MAX_RECORD && b[p + 4] <= MAX_KIND && b[p + 5] <= 1
  }

  /** A complete, well-formed record starts at `p`. */
  predicate Plausible(b: seq<byte>, p: nat) {
    p + HDR <= |b| && HeaderOk(b, p) && p + TotalAt(b, p) <= |b|
  }

  /** A complete, well-formed record starts at some later position. */
  ghost predicate Interior(b: seq<byte>) {
    exists p: nat :: 0 < p <= |b| && Plausible(b, p)
  }

  ghost function Scan(b: seq<byte>): (r: Scanned)
    decreases |b|
  {
    if |b| < HDR then Scanned([], 0, b)
    else if !HeaderOk(b, 0) || (TotalAt(b, 0) > |b| && Interior(b)) then
      var s := Scan(b[1..]);
      s.(corrupt := s.corrupt + 1)
    else if TotalAt(b, 0) > |b| then Scanned([], 0, b)
    else
      var n := TotalAt(b, 0);
      var s := Scan(b[n..]);
      s.(recs := [Decode(b[..n])] + s.recs)
  }

  ghost function Prepend(recs: seq<Rec>, bad: nat, s: Scanned): (r: Scanned) {
    Scanned(recs + s.recs, bad + s.corrupt, s.residue)
  }

  lemma Shift(b: seq<byte>, p: nat, q: nat)
    requires p <= |b|
    ensures q + HDR <= |b| - p ==>
              TotalAt(b[p..], q) == TotalAt(b, p + q) && (HeaderOk(b[p..], q) <==> HeaderOk(b, p + q))
    ensures Plausible(b[p..], q) <==> Plausible(b, p + q)
  {
    if q + HDR <= |b| - p {
      assert b[p..][q..q + 4] == b[p + q..p + q + 4];
    }
  }

  lemma InteriorShift(b: seq<byte>, p: nat)
    requires p <= |b|
    ensures Interior(b[p..]) <==> exists q: nat :: p + 1 <= q <= |b| && Plausible(b, q)
  {
    hide Plausible;
    if Interior(b[p..]) {
      var q: nat :| 0 < q <= |b| - p && Plausible(b[p..], q);
      Shift(b, p, q);
      assert Plausible(b, p + q);
    }
    if exists q: nat :: p + 1 <= q <= |b| && Plausible(b, q) {
      var q: nat :| p + 1 <= q <= |b| && Plausible(b, q);
      Shift(b, p, q - p);
      assert Plausible(b[p..], q - p);
    }
  }

  /** One turn of the parse loop at position `p`, seen from the bytes still to be read. */
  lemma ScanStep(b: seq<byte>, p: nat)
    requires p <= |b|
    ensures |b| - p < HDR ==> Scan(b[p..]) == Scanned([], 0, b[p..])
    ensures |b| - p >= HDR && (!HeaderOk(b, p) ||
              (p + TotalAt(b, p) > |b| && exists q: nat :: p + 1 <= q <= |b| && Plausible(b, q))) ==>
              Scan(b[p..]) == Prepend([], 1, Scan(b[p + 1..]))
    ensures |b| - p >= HDR && HeaderOk(b, p) && p + TotalAt(b, p) > |b| &&
            !(exists q: nat :: p + 1 <= q <= |b| && Plausible(b, q)) ==>
              Scan(b[p..]) == Scanned([], 0, b[p..])
    ensures |b| - p >= HDR && HeaderOk(b, p) && p + TotalAt(b, p) <= |b| ==>
              Scan(b[p..]) == Prepend([Decode(b[p..p + TotalAt(b, p)])], 0, Scan(b[p + TotalAt(b, p)..]))
  {
    hide Interior, Plausible, Decode, Scan, HeaderOk, TotalAt;
    var c := b[p..];
    InteriorShift(b, p);
    Shift(b, p, 0);
    ScanUnfold(c);
    if |c| >= HDR {
      assert c[1..] == b[p + 1..];
      if HeaderOk(b, p) && p + TotalAt(b, p) <= |b| {
        var n := TotalAt(b, p);
        assert c[n..] == b[p + n..] && c[..n] == b[p..p + n];
      }
    }
  }

  lemma ScanUnfold(c: seq<byte>)
    ensures |c| < HDR ==> Scan(c) == Scanned([], 0, c)
    ensures |c| >= HDR && (!HeaderOk(c, 0) || (TotalAt(c, 0) > |c| && Interior(c))) ==>
              Scan(c) == Prepend([], 1, Scan(c[1..]))
    ensures |c| >= HDR && HeaderOk(c, 0) && TotalAt(c, 0) > |c| && !Interior(c) ==> Scan(c) == Scanned([], 0, c)
    ensures |c| >= HDR && HeaderOk(c, 0) && TotalAt(c, 0) <= |c| ==>
              Scan(c) == Prepend([Decode(c[..TotalAt(c, 0)])], 0, Scan(c[TotalAt(c, 0)..]))
  {
    hide Interior, Decode;
    if |c| >= HDR {
      assert [] + Scan(c[1..]).recs == Scan(c[1..]).recs;
    }
  }

  lemma PrependPrepend(recs: seq<Rec>, bad: nat, more: seq<Rec>, worse: nat, s: Scanned)
    ensures Prepend(recs, bad, Prepend(more, worse, s)) == Prepend(recs + more, bad + worse, s)
    ensures Prepend([], 0, s) == s
  {
    assert recs + (more + s.recs) == recs + more + s.recs;
  }

  lemma HeaderRange(b: seq<byte>, p: nat)
    requires p + HDR <= |b| && HeaderOk(b, p)
    ensures HDR <= TotalAt(b, p) <= MAX_RECORD
    ensures p + TotalAt(b, p) <= |b| ==>
              var r := Decode(b[p..p + TotalAt(b, p)]);
              r.kind <= MAX_KIND && r.flags <= 1 && HDR + |r.payload| == TotalAt(b, p)
  {
    hide FromLe;
  }

  ghost function PayloadBytes(recs: seq<Rec>): (r: nat) {
    if recs == [] then 0 else |recs[0].payload| + PayloadBytes(recs[1..])
  }

  /** Every byte is accounted for, on arbitrary input. */
  lemma {:induction false} ScanConserves(b: seq<byte>)
    ensures |b| == HDR * |Scan(b).recs| + PayloadBytes(Scan(b).recs) + Scan(b).corrupt + |Scan(b).residue|
    ensures |Scan(b).residue| < MAX_RECORD
    decreases |b|
  {
    hide Decode, Interior;
    if |b| < HDR {
    } else if !HeaderOk(b, 0) || (TotalAt(b, 0) > |b| && Interior(b)) {
      ScanConserves(b[1..]);
    } else if TotalAt(b, 0) <= |b| {
      var n := TotalAt(b, 0);
      ScanConserves(b[n..]);
      DecodeSize(b[..n]);
      var s := Scan(b[n..]);
      assert ([Decode(b[..n])] + s.recs)[1..] == s.recs;
    }
  }

  lemma DecodeSize(f: seq<byte>)
    requires |f| >= HDR
    ensures |Decode(f).payload| == |f| - HDR
  {
  }

  /** Scanning the residue again, without new bytes, finds nothing. */
  lemma {:induction false} ResidueStable(b: seq<byte>)
    ensures Scan(Scan(b).residue) == Scanned([], 0, Scan(b).residue)
    decreases |b|
  {
    hide Interior, Decode;
    if |b| < HDR {
    } else if !HeaderOk(b, 0) || (TotalAt(b, 0) > |b| && Interior(b)) {
      ResidueStable(b[1..]);
    } else if TotalAt(b, 0) <= |b| {
      ResidueStable(b[TotalAt(b, 0)..]);
    }
  }

  /** Every accepted record is within the format. */
  lemma {:induction false} ScanValid(b: seq<byte>)
    ensures forall r :: r in Scan(b).recs ==> r.kind <= MAX_KIND && r.flags <= 1 && HDR + |r.payload| <= MAX_RECORD
    decreases |b|
  {
    hide Interior;
    if |b| < HDR {
    } else if !HeaderOk(b, 0) || (TotalAt(b, 0) > |b| && Interior(b)) {
      ScanValid(b[1..]);
    } else if TotalAt(b, 0) <= |b| {
      ScanValid(b[TotalAt(b, 0)..]);
    }
  }

  // ---------------------------------------------------------------------
  // Round trip with the producers.
  // ---------------------------------------------------------------------

  /** A record the parser accepts. */
  ghost predicate Framable(r: Rec) {
    r.kind <= MAX_KIND && r.flags <= 1 && RecFits(r) && HDR + |r.payload| <= MAX_RECORD
  }

  ghost predicate AllFramable(recs: seq<Rec>) {
    forall i :: 0 <= i < |recs| ==> Framable(recs[i])
  }

  lemma FrameHead(r: Rec, rest: seq<byte>)
    requires Framable(r)
    ensures HeaderOk(Frame(r) + rest, 0) && TotalAt(Frame(r) + rest, 0) == |Frame(r)|
    ensures (Frame(r) + rest)[..|Frame(r)|] == Frame(r) && (Frame(r) + rest)[|Frame(r)|..] == rest
    ensures Decode(Frame(r)) == r
  {
    HeaderFields(r);
    DecodeFrame(r);
    var b := Frame(r) + rest;
    hide Header, FromLe;
    assert b[0..4] == Frame(r)[0..4];
    assert b[4] == Decode(Frame(r)).kind && b[5] == Decode(Frame(r)).flags;
  }

  lemma ScanOne(r: Rec, rest: seq<byte>)
    requires Framable(r)
    ensures var s := Scan(rest); Scan(Frame(r) + rest) == s.(recs := [r] + s.recs)
  {
    hide Frame, Decode, HeaderOk, TotalAt, Framable, Interior;
    FrameHead(r, rest);
  }

  /** Leading frames come back exactly, whatever follows them. */
  lemma {:induction false} ScanFrames(recs: seq<Rec>, rest: seq<byte>)
    requires AllFramable(recs)
    ensures var s := Scan(rest); Scan(Frames(recs) + rest) == s.(recs := recs + s.recs)
    decreases |recs|
  {
    hide Frame, Framable, Scan;
    var s := Scan(rest);
    if recs == [] {
      assert Frames(recs) + rest == rest && recs + s.recs == s.recs;
    } else {
      var r, tail := recs[0], Frames(recs[1..]) + rest;
      assert Frames(recs) + rest == Frame(r) + tail;
      ScanOne(r, tail);
      ScanFrames(recs[1..], rest);
      assert [r] + (recs[1..] + s.recs) == recs + s.recs;
    }
  }

  /** A whole framed stream scanned at once: all records, no corruption, nothing left. */
  lemma ScanWhole(recs: seq<Rec>)
    requires AllFramable(recs)
    ensures Scan(Frames(recs)) == Scanned(recs, 0, [])
  {
    ScanFrames(recs, []);
    assert Frames(recs) + [] == Frames(recs);
    assert recs + [] == recs;
  }

  /** Whatever lies in front: if no complete well-formed record starts inside it, every byte of it is counted as
      corrupt and the records behind it all come out. */
  lemma {:induction false} ScanResyncs(junk: seq<byte>, recs: seq<Rec>)
    requires AllFramable(recs) && recs != []
    requires forall p: nat :: p < |junk| ==> !Plausible(junk + Frames(recs), p)
    ensures Scan(junk + Frames(recs)) == Scanned(recs, |junk|, [])
    decreases |junk|
  {
    hide Framable, Plausible, Scan, HeaderOk, TotalAt;
    var s := junk + Frames(recs);
    if junk == [] {
      assert s == Frames(recs);
      ScanWhole(recs);
    } else {
      var more := junk[1..] + Frames(recs);
      assert s[1..] == more && s[0..] == s;
      forall p: nat | p < |junk| - 1
        ensures !Plausible(more, p)
      {
        Shift(s, 1, p);
      }
      ScanResyncs(junk[1..], recs);
      FramesStart(junk, recs);
      NotAtOnce(s);
      ScanStep(s, 0);
      PrependPrepend([], 1, [], 0, Scan(more));
      assert [] + recs == recs;
    }
  }

  lemma NotAtOnce(s: seq<byte>)
    requires |s| >= HDR && !Plausible(s, 0)
    ensures !HeaderOk(s, 0) || TotalAt(s, 0) > |s|
  {
  }

  lemma FramesStart(junk: seq<byte>, recs: seq<Rec>)
    requires AllFramable(recs) && recs != []
    ensures |junk| + HDR <= |junk + Frames(recs)| && Plausible(junk + Frames(recs), |junk|)
  {
    var s, rest := junk + Frames(recs), Frames(recs[1..]);
    FrameHead(recs[0], rest);
    hide Frame, HeaderOk, TotalAt, Framable;
    assert Frames(recs) == Frame(recs[0]) + rest && s[|junk|..] == Frame(recs[0]) + rest;
    assert Plausible(s[|junk|..], 0);
    Shift(s, |junk|, 0);
  }

  // ---------------------------------------------------------------------
  // Cutting the stream into chunks.
  // ---------------------------------------------------------------------

  ghost function Join(chunks: seq<seq<byte>>): (r: seq<byte>) {
    if chunks == [] then [] else Join(chunks[..|chunks| - 1]) + chunks[|chunks| - 1]
  }

  /** Feeding chunks one by one, each appended to the residue of the scan before it. */
  ghost function Feed(chunks: seq<seq<byte>>): (r: Scanned) {
    if chunks == [] then Scanned([], 0, []) else
      var before := Feed(chunks[..|chunks| - 1]);
      var now := Scan(before.residue + chunks[|chunks| - 1]);
      Scanned(before.recs + now.recs, before.corrupt + now.corrupt, now.residue)
  }

  /** How many of `recs` are complete in the first `len` bytes of their stream. */
  ghost function Complete(recs: seq<Rec>, len: nat): (k: nat)
    ensures k <= |recs|
  {
    if recs == [] || len < |Frame(recs[0])| then 0 else 1 + Complete(recs[1..], len - |Frame(recs[0])|)
  }

  /** The bytes of the record that a cut after `len` bytes leaves incomplete. */
  ghost function CutTail(recs: seq<Rec>, len: nat): (r: seq<byte>)
    requires len <= |Frames(recs)|
  {
    if recs == [] || len < |Frame(recs[0])| then Frames(recs)[..len]
    else CutTail(recs[1..], len - |Frame(recs[0])|)
  }

  /** At no cut does an interior position of the cut record look like a record in the
      bytes seen so far. */
  ghost predicate CutsClean(recs: seq<Rec>, chunks: seq<seq<byte>>) {
    chunks == [] || (CutsClean(recs, chunks[..|chunks| - 1]) && CleanAt(recs, |Join(chunks)|))
  }

  ghost predicate CleanAt(recs: seq<Rec>, len: nat) {
    len <= |Frames(recs)| && !Interior(CutTail(recs, len))
  }

  lemma {:induction false} FramesSplit(recs: seq<Rec>, k: nat)
    requires k <= |recs|
    ensures Frames(recs) == Frames(recs[..k]) + Frames(recs[k..])
    decreases k
  {
    hide Frame, Frames;
    FramesNone();
    if k == 0 {
      assert recs[..0] == [] && recs[0..] == recs;
    } else {
      FramesSplit(recs[1..], k - 1);
      FramesHead(recs);
      FramesHead(recs[..k]);
      assert recs[..k][1..] == recs[1..][..k - 1];
      assert recs[k..] == recs[1..][k - 1..];
    }
  }

  lemma {:induction false} CutAt(recs: seq<Rec>, len: nat)
    requires len <= |Frames(recs)|
    ensures Frames(recs)[..len] == Frames(recs[..Complete(recs, len)]) + CutTail(recs, len)
    ensures Complete(recs, len) < |recs| ==> |CutTail(recs, len)| < |Frame(recs[Complete(recs, len)])|
    ensures Complete(recs, len) == |recs| ==> CutTail(recs, len) == []
    decreases |recs|
  {
    hide Frame, Frames;
    FramesNone();
    var k := Complete(recs, len);
    if recs != [] {
      FramesHead(recs);
    }
    if recs == [] || len < |Frame(recs[0])| {
      assert recs[..0] == [];
    } else {
      var f := Frame(recs[0]);
      CutAt(recs[1..], len - |f|);
      FramesHead(recs[..k]);
      assert recs[..k][1..] == recs[1..][..k - 1];
      assert Frames(recs)[..len] == f + Frames(recs[1..])[..len - |f|];
    }
  }

  lemma CutSplit(recs: seq<Rec>, len: nat)
    requires len <= |Frames(recs)|
    ensures Frames(recs)[..len] == Frames(recs[..Complete(recs, len)]) + CutTail(recs, len)
    ensures Frames(recs) == Frames(recs[..Complete(recs, len)]) + Frames(recs[Complete(recs, len)..])
    ensures CutTail(recs, len) <= Frames(recs[Complete(recs, len)..])
    ensures Complete(recs, len) < |recs| ==> |CutTail(recs, len)| < |Frame(recs[Complete(recs, len)])|
    ensures Complete(recs, len) == |recs| ==> CutTail(recs, len) == []
  {
    hide Frame, Frames, Complete, CutTail;
    var k := Complete(recs, len);
    CutAt(recs, len);
    FramesSplit(recs, k);
    var head, t, rest := Frames(recs[..k]), CutTail(recs, len), Frames(recs[k..]);
    assert head + t <= head + rest;
    TakeMiddle(head, t, [], rest);
    assert t + [] == t;
  }

  /** Scanning the bytes of an incomplete record. */
  lemma ScanCutTail(r: Rec, rest: seq<byte>, t: seq<byte>)
    requires Framable(r) && t <= Frame(r) + rest && |t| < |Frame(r)|
    ensures !Interior(t) ==> Scan(t) == Scanned([], 0, t)
    ensures Interior(t) ==> Scan(t).corrupt > 0
  {
    hide Frame, Interior;
    if |t| >= HDR {
      FrameHead(r, rest);
      var b := Frame(r) + rest;
      assert t[0..4] == b[0..4] && t[4] == b[4] && t[5] == b[5];
    } else {
      ShortNoInterior(t);
    }
  }

  lemma ShortNoInterior(t: seq<byte>)
    requires |t| < HDR
    ensures !Interior(t)
  {
  }

  /** Scanning a stream cut after `len` bytes. */
  lemma ScanCut(recs: seq<Rec>, len: nat)
    requires AllFramable(recs) && len <= |Frames(recs)|
    ensures CleanAt(recs, len) ==>
              Scan(Frames(recs)[..len]) == Scanned(recs[..Complete(recs, len)], 0, CutTail(recs, len))
    ensures !CleanAt(recs, len) ==> Scan(Frames(recs)[..len]).corrupt > 0
  {
    hide Frame, Interior, Scan, Complete, CutTail, Frames;
    var k, t := Complete(recs, len), CutTail(recs, len);
    CutSplit(recs, len);
    ScanFrames(recs[..k], t);
    assert recs[..k] + [] == recs[..k];
    if k < |recs| {
      FramesHead(recs[k..]);
      ScanCutTail(recs[k], Frames(recs[k..][1..]), t);
    } else {
      ScanNothing();
    }
  }

  lemma FramesHead(recs: seq<Rec>)
    requires recs != []
    ensures Frames(recs) == Frame(recs[0]) + Frames(recs[1..])
  {
  }

  lemma FramesNone()
    ensures Frames([]) == []
  {
  }

  lemma ScanNothing()
    ensures Scan([]) == Scanned([], 0, []) && !Interior([])
  {
  }

  /** Cutting later records does not depend on the complete ones before them. */
  lemma {:induction false} CutShift(recs: seq<Rec>, k: nat, len: nat)
    requires k <= |recs| && |Frames(recs[..k])| <= len <= |Frames(recs)|
    ensures |Frames(recs)| == |Frames(recs[..k])| + |Frames(recs[k..])|
    ensures Complete(recs, len) == k + Complete(recs[k..], len - |Frames(recs[..k])|)
    ensures CutTail(recs, len) == CutTail(recs[k..], len - |Frames(recs[..k])|)
    decreases k
  {
    hide Frame;
    if k == 0 {
      assert recs[..0] == [] && recs[0..] == recs;
    } else {
      assert recs[..k][1..] == recs[1..][..k - 1];
      assert recs[k..] == recs[1..][k - 1..];
      CutShift(recs[1..], k - 1, len - |Frame(recs[0])|);
    }
  }

  /** One more chunk after clean cuts. */
  lemma FeedStep(recs: seq<Rec>, seen: seq<byte>, chunk: seq<byte>)
    requires AllFramable(recs) && seen + chunk <= Frames(recs)
    ensures Complete(recs, |seen|) <= Complete(recs, |seen + chunk|)
    ensures CleanAt(recs, |seen + chunk|) ==>
              Scan(CutTail(recs, |seen|) + chunk) ==
              Scanned(recs[Complete(recs, |seen|)..Complete(recs, |seen + chunk|)], 0, CutTail(recs, |seen + chunk|))
    ensures !CleanAt(recs, |seen + chunk|) ==> Scan(CutTail(recs, |seen|) + chunk).corrupt > 0
  {
    hide Frame, Frames, Complete, CutTail, Scan, Interior, CleanAt;
    var k, t, len := Complete(recs, |seen|), CutTail(recs, |seen|), |seen + chunk|;
    CutSplit(recs, |seen|);
    var head, rest := Frames(recs[..k]), recs[k..];
    assert seen == head + t;
    TakeMiddle(head, t, chunk, Frames(rest));
    CutShift(recs, k, len);
    CleanShift(recs, k, len);
    ScanCut(rest, len - |head|);
    var n := Complete(rest, len - |head|);
    assert rest[..n] == recs[k..k + n];
  }

  lemma TakeMiddle(head: seq<byte>, t: seq<byte>, chunk: seq<byte>, rest: seq<byte>)
    requires head + t + chunk <= head + rest
    ensures t + chunk == rest[..|t + chunk|]
  {
    assert head + t + chunk == head + (t + chunk);
    assert (head + rest)[..|head + t + chunk|] == head + t + chunk;
    assert (head + (t + chunk))[|head|..] == t + chunk;
    assert (head + rest)[|head|..] == rest;
  }

  lemma CleanShift(recs: seq<Rec>, k: nat, len: nat)
    requires k <= |recs| && |Frames(recs[..k])| <= len <= |Frames(recs)|
    ensures len - |Frames(recs[..k])| <= |Frames(recs[k..])|
    ensures CleanAt(recs, len) <==> CleanAt(recs[k..], len - |Frames(recs[..k])|)
  {
    CutShift(recs, k, len);
  }

  lemma {:induction false} FeedCut(recs: seq<Rec>, chunks: seq<seq<byte>>)
    requires AllFramable(recs) && Join(chunks) <= Frames(recs)
    ensures CutsClean(recs, chunks) ==>
              Feed(chunks) == Scanned(recs[..Complete(recs, |Join(chunks)|)], 0, CutTail(recs, |Join(chunks)|))
    ensures !CutsClean(recs, chunks) ==> Feed(chunks).corrupt > 0
  {
    hide Frame, Frames, Scan, Interior, CleanAt, Complete, CutTail;
    if chunks == [] {
      CutNothing(recs);
    } else {
      var front, c := chunks[..|chunks| - 1], chunks[|chunks| - 1];
      FeedCut(recs, front);
      FeedStep(recs, Join(front), c);
      var k, k' := Complete(recs, |Join(front)|), Complete(recs, |Join(chunks)|);
      assert recs[..k] + recs[k..k'] == recs[..k'];
    }
  }

  lemma CutNothing(recs: seq<Rec>)
    ensures Complete(recs, 0) == 0 && CutTail(recs, 0) == [] && recs[..0] == []
  {
  }

  /** Chunked scanning of a framed stream gives exactly the records, no corruption and no
      residue if and only if no cut is mistaken for a later record. */
  lemma ChunkIndependence(recs: seq<Rec>, chunks: seq<seq<byte>>)
    requires AllFramable(recs) && Join(chunks) == Frames(recs)
    ensures CutsClean(recs, chunks) <==> Feed(chunks) == Scanned(recs, 0, [])
    ensures CutsClean(recs, chunks) <==> Feed(chunks) == Scan(Join(chunks))
  {
    FeedCut(recs, chunks);
    ScanWhole(recs);
    CutEnd(recs);
    assert recs[..|recs|] == recs;
  }

  lemma {:induction false} CutEnd(recs: seq<Rec>)
    ensures Complete(recs, |Frames(recs)|) == |recs| && CutTail(recs, |Frames(recs)|) == []
  {
    hide Frame;
    if recs == [] {
    } else {
      CutEnd(recs[1..]);
    }
  }

  /** A record that fits one chunk cannot be mistaken: cuts at record boundaries, or with
      fewer than a header's bytes of the next record beyond its first, are clean. */
  lemma ShortCutClean(recs: seq<Rec>, len: nat)
    requires len <= |Frames(recs)| && |CutTail(recs, len)| <= HDR
    ensures CleanAt(recs, len)
  {
  }

  /** The proviso is needed: a record whose payload contains a record, cut right after the
      embedded one, is declared corrupt. */
  lemma EmbeddedRecordBreaks() returns (recs: seq<Rec>, chunks: seq<seq<byte>>)
    ensures AllFramable(recs) && Join(chunks) == Frames(recs)
    ensures !CutsClean(recs, chunks) && Feed(chunks).corrupt > 0
  {
    var inner := Rec(0, 0, 0, 0, 0, []);
    var outer := Rec(0, 0, 0, 0, 0, Frame(inner) + [0]);
    recs := [outer];
    var f := Frame(outer);
    chunks := [f[..48], f[48..]];
    assert Frames(recs) == f + Frames([]) == f;
    assert chunks[..1] == [f[..48]] && [f[..48]][..0] == [];
    assert Join([f[..48]]) == [] + f[..48] == f[..48];
    assert Join(chunks) == f[..48] + f[48..] == f;
    assert CutTail(recs, 48) == f[..48];
    EmbeddedPlausible(inner, f[..24]);
    assert f[24..] == outer.payload && outer.payload[..24] == Frame(inner);
    assert f[..48] == f[..24] + f[24..][..24];
    assert !CleanAt(recs, 48);
    assert Fits(0, 8);
    FeedCut(recs, chunks);
  }

  lemma EmbeddedPlausible(inner: Rec, before: seq<byte>)
    requires Framable(inner) && before != []
    ensures Interior(before + Frame(inner))
  {
    FrameHead(inner, []);
    hide Frame, FromLe;
    var f := Frame(inner);
    assert f + [] == f;
    var b := before + f;
    assert b[|before|..|before| + 4] == f[0..4] && b[|before| + 4] == f[4] && b[|before| + 5] == f[5];
    assert Plausible(b, |before|);
  }
}
