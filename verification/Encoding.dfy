/** Little-endian numbers of any width, and memory words as bytes. */
module Encoding {
  import opened Blocks

  /** The lowest `n` bytes of a number, lowest first. */
  function ToBytes(w: nat, n: nat): (r: seq<Byte>)
    ensures |r| == n
  {
    if n == 0 then [] else [w % 256] + ToBytes(w / 256, n - 1)
  }

  function FromBytes(bs: seq<Byte>): nat {
    if bs == [] then 0 else bs[0] + 256 * FromBytes(bs[1..])
  }

  function Pow256(n: nat): nat { if n == 0 then 1 else 256 * Pow256(n - 1) }

  lemma Powers()
    ensures Pow256(2) == 0x1_0000 && Pow256(4) == 0x1_0000_0000 && Pow256(8) == 0x1_0000_0000_0000_0000
  {
    assert Pow256(1) == 256 && Pow256(3) == 0x100_0000 && Pow256(5) == 0x100_0000_0000 &&
           Pow256(6) == 0x1_0000_0000_0000;
  }

  lemma {:induction false} NumberReadsBack(w: nat, n: nat)
    requires w < Pow256(n)
    ensures FromBytes(ToBytes(w, n)) == w
  {
    if n > 0 {
      NumberReadsBack(w / 256, n - 1);
      assert ToBytes(w, n)[1..] == ToBytes(w / 256, n - 1);
    }
  }

  lemma {:induction false} BytesReadBack(bs: seq<Byte>)
    ensures ToBytes(FromBytes(bs), |bs|) == bs
  {
    if bs != [] {
      BytesReadBack(bs[1..]);
      var x := FromBytes(bs[1..]);
      assert (bs[0] + 256 * x) % 256 == bs[0] && (bs[0] + 256 * x) / 256 == x;
    }
  }

  /** 64-bit words as they lie in memory; of a larger number, the lowest 64 bits. */
  function BytesOf(ws: seq<nat>): (r: seq<Byte>)
    ensures |r| == 8 * |ws|
  {
    if ws == [] then [] else ToBytes(ws[0], 8) + BytesOf(ws[1..])
  }

  function WordsOf(bs: seq<Byte>): (r: seq<nat>)
    ensures |r| == |bs| / 8
  {
    if |bs| < 8 then [] else [FromBytes(bs[..8])] + WordsOf(bs[8..])
  }

  /** Whatever bytes are stored are the bytes that are there. */
  lemma {:induction false} WordsReadBack(bs: seq<Byte>)
    requires |bs| % 8 == 0
    ensures BytesOf(WordsOf(bs)) == bs
    decreases |bs|
  {
    if |bs| > 0 {
      WordsReadBack(bs[8..]);
      BytesReadBack(bs[..8]);
      var ws := WordsOf(bs);
      assert ws[1..] == WordsOf(bs[8..]);
      assert bs == bs[..8] + bs[8..];
    }
  }

  // ----- signed numbers -----

  /** A signed number of `n` bytes, in two's complement. */
  function Unsigned(x: int, n: nat): nat {
    if x < 0 && x + Pow256(n) >= 0 then x + Pow256(n) else if x < 0 then 0 else x
  }

  function Signed(w: nat, n: nat): int { if 2 * w < Pow256(n) then w else w - Pow256(n) }

  predicate FitsSigned(x: int, n: nat) { 0 <= 2 * x + Pow256(n) < 2 * Pow256(n) }

  lemma SignedReadsBack(x: int, n: nat)
    requires FitsSigned(x, n)
    ensures Unsigned(x, n) < Pow256(n) && Signed(Unsigned(x, n), n) == x
    ensures Signed(FromBytes(ToBytes(Unsigned(x, n), n)), n) == x
  {
    hide Pow256;
    PowPositive(n);
    NumberReadsBack(Unsigned(x, n), n);
  }

  lemma PowPositive(n: nat)
    ensures Pow256(n) > 0
  {
  }
}
