/** The record format shared by the producers and the collector: a 24-byte header
    [total u32][kind][flags][sid u32][tid u16][4 reserved][ts u64] followed by the payload. */
module Wire {
  import opened Bytes

  const HDR: nat := 24
  const MAX_KIND: nat := 40

  datatype Rec = Rec(kind: byte, flags: byte, sid: nat, tid: nat, ts: nat, payload: seq<byte>)

  /** The header fields fit their widths. */
  ghost predicate RecFits(r: Rec) {
    r.sid < 0x1_0000_0000 && r.tid < 0x1_0000 && Fits(r.ts, 8) && HDR + |r.payload| < 0x1_0000_0000
  }

  function Header(r: Rec): (h: seq<byte>)
    ensures |h| == HDR
  {
    ToLe(HDR + |r.payload|, 4) + [r.kind, r.flags] + ToLe(r.sid, 4) + ToLe(r.tid, 2) + [0, 0, 0, 0] + ToLe(r.ts, 8)
  }

  function Frame(r: Rec): (f: seq<byte>)
    ensures |f| == HDR + |r.payload|
  {
    Header(r) + r.payload
  }

  /** The collector's reading of one record slice. */
  function Decode(f: seq<byte>): (r: Rec)
    requires |f| >= HDR
  {
    Rec(f[4], f[5], FromLe(f[6..10]), FromLe(f[10..12]), FromLe(f[16..24]), f[24..])
  }

  lemma HeaderFields(r: Rec)
    ensures Header(r)[0..4] == ToLe(HDR + |r.payload|, 4)
    ensures Header(r)[4] == r.kind && Header(r)[5] == r.flags
    ensures Header(r)[6..10] == ToLe(r.sid, 4) && Header(r)[10..12] == ToLe(r.tid, 2)
    ensures Header(r)[16..24] == ToLe(r.ts, 8)
  {
    hide ToLe;
  }

  /** Reading a framed record gives the record back. */
  lemma DecodeFrame(r: Rec)
    requires RecFits(r)
    ensures Decode(Frame(r)) == r && FromLe(Frame(r)[0..4]) == |Frame(r)|
  {
    HeaderFields(r);
    var f := Frame(r);
    assert f[0..4] == Header(r)[0..4] && f[6..10] == Header(r)[6..10] && f[10..12] == Header(r)[10..12]
        && f[16..24] == Header(r)[16..24] && f[24..] == r.payload && f[4] == Header(r)[4] && f[5] == Header(r)[5];
    hide ToLe, FromLe, Fits, Header, Frame;
    Fits4(HDR + |r.payload|);
    Fits4(r.sid);
    Fits2(r.tid);
    LeRoundTrip(HDR + |r.payload|, 4);
    LeRoundTrip(r.sid, 4);
    LeRoundTrip(r.tid, 2);
    LeRoundTrip(r.ts, 8);
  }

  /** Records framed one after the other. */
  ghost function Frames(recs: seq<Rec>): (r: seq<byte>) {
    if recs == [] then [] else Frame(recs[0]) + Frames(recs[1..])
  }

  lemma {:induction false} FramesPush(a: seq<Rec>, r: Rec)
    ensures Frames([]) == []
    ensures Frames(a + [r]) == Frames(a) + Frame(r)
  {
    hide Frame;
    if a != [] {
      assert (a + [r])[1..] == a[1..] + [r];
      FramesPush(a[1..], r);
    } else {
      assert (a + [r])[1..] == [];
    }
  }

  /** Splits a payload at its first NUL byte (`name_of`). */
  function NameOf(payload: seq<byte>): (r: (seq<byte>, seq<byte>))
    ensures 0 in payload ==> payload == r.0 + [0] + r.1 && 0 !in r.0
    ensures 0 !in payload ==> r == ([], payload)
  {
    var i := FirstNul(payload, 0);
    if i < |payload| then (payload[..i], payload[i + 1..]) else ([], payload)
  }

  function FirstNul(b: seq<byte>, from: nat): (i: nat)
    requires from <= |b| && 0 !in b[..from]
    ensures from <= i <= |b| && 0 !in b[..i] && (i < |b| ==> b[i] == 0)
    decreases |b| - from
  {
    if from == |b| || b[from] == 0 then from else
      assert b[..from + 1] == b[..from] + [b[from]];
      FirstNul(b, from + 1)
  }
}
