/** Bytes, little-endian integers and a few sequence facts shared by all modules. */
module Bytes {

  type byte = x: int | 0 <= x < 256

  datatype Option<+T> = None | Some(value: T)

  /** The low `k` bytes of `n`, least significant first (`to_le_bytes`). */
  function ToLe(n: nat, k: nat): (b: seq<byte>)
    ensures |b| == k
  {
    if k == 0 then [] else [n % 256] + ToLe(n / 256, k - 1)
  }

  /** The number a little-endian byte string stands for (`from_le_bytes`). */
  function FromLe(b: seq<byte>): (r: nat) {
    if b == [] then 0 else b[0] + 256 * FromLe(b[1..])
  }

  /** `n` is representable in `k` bytes. */
  predicate Fits(n: nat, k: nat) {
    if k == 0 then n == 0 else Fits(n / 256, k - 1)
  }

  lemma {:induction false} LeRoundTrip(n: nat, k: nat)
    requires Fits(n, k)
    ensures FromLe(ToLe(n, k)) == n
  {
    if k == 0 {
    } else {
      LeRoundTrip(n / 256, k - 1);
      assert ToLe(n, k)[1..] == ToLe(n / 256, k - 1);
    }
  }

  lemma Fits4(n: nat)
    requires n < 0x1_0000_0000
    ensures Fits(n, 4)
  {
    assert n / 256 / 256 / 256 / 256 == 0;
    assert Fits(n / 256 / 256 / 256 / 256, 0);
    assert Fits(n / 256 / 256 / 256, 1);
    assert Fits(n / 256 / 256, 2);
    assert Fits(n / 256, 3);
  }

  lemma Fits2(n: nat)
    requires n < 0x1_0000
    ensures Fits(n, 2)
  {
    assert Fits(n / 256 / 256, 0);
    assert Fits(n / 256, 1);
  }

  /** How many numbers fit in `k` bytes. */
  function Span(k: nat): (n: nat)
    ensures n > 0
  {
    if k == 0 then 1 else 256 * Span(k - 1)
  }

  lemma {:induction false} FitsBelow(n: nat, k: nat)
    requires n < Span(k)
    ensures Fits(n, k)
  {
    if k == 0 {
    } else {
      FitsBelow(n / 256, k - 1);
    }
  }

  lemma Spans()
    ensures Span(1) == 0x100 && Span(2) == 0x1_0000 && Span(4) == 0x1_0000_0000 && Span(8) == 0x1_0000_0000_0000_0000
  {
    assert Span(1) == 256 * Span(0) && Span(2) == 256 * Span(1) && Span(3) == 256 * Span(2);
    assert Span(4) == 256 * Span(3) && Span(5) == 256 * Span(4) && Span(6) == 256 * Span(5);
    assert Span(7) == 256 * Span(6) && Span(8) == 256 * Span(7);
  }

  /** Reading inverts writing for every number the width holds. */
  lemma LeReads(n: nat, k: nat)
    requires n < Span(k)
    ensures FromLe(ToLe(n, k)) == n
  {
    FitsBelow(n, k);
    LeRoundTrip(n, k);
  }

  /** Writing inverts reading at the same width. */
  lemma {:induction false} LeBack(b: seq<byte>)
    ensures ToLe(FromLe(b), |b|) == b && FromLe(b) < Span(|b|)
  {
    if b == [] {
    } else {
      LeBack(b[1..]);
      assert FromLe(b) % 256 == b[0] && FromLe(b) / 256 == FromLe(b[1..]);
      assert [b[0]] + b[1..] == b;
    }
  }

  lemma LeBack4(b: seq<byte>)
    requires |b| == 4
    ensures ToLe(FromLe(b), 4) == b && FromLe(b) < 0x1_0000_0000
  {
    LeBack(b);
    Spans();
  }
}
