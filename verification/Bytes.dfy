/** Byte strings shared by the wire protocol and the type recipe. */
module Bytes {

  type byte = x: int | 0 <= x < 256

  type Text = seq<byte>

  datatype Option<+T> = None | Some(value: T)

  const U32_MAX: nat := 0xFFFF_FFFF
  const U64_MAX: nat := 0xFFFF_FFFF_FFFF_FFFF

  /** The bytes are the word's characters. */
  predicate Spells(t: Text, word: string) {
    |t| == |word| && forall j :: 0 <= j < |t| ==> t[j] as char == word[j]
  }

  lemma {:induction false} Assoc(a: Text, b: Text, c: Text)
    ensures (a + b) + c == a + (b + c)
  {
  }

  function Pow256(n: nat): (p: nat)
    ensures p >= 1
  {
    if n == 0 then 1 else 256 * Pow256(n - 1)
  }

  /** The value of a little-endian byte string. */
  function UintLe(bs: seq<byte>): (v: nat)
    ensures v < Pow256(|bs|)
  {
    if bs == [] then 0 else bs[0] + 256 * UintLe(bs[1..])
  }

  /** The `n`-byte little-endian form of `v`, dropping what does not fit. */
  function Le(v: nat, n: nat): (bs: seq<byte>)
    ensures |bs| == n
  {
    if n == 0 then [] else [v % 256] + Le(v / 256, n - 1)
  }

  lemma {:induction false} LeInverts(v: nat, n: nat)
    requires v < Pow256(n)
    ensures UintLe(Le(v, n)) == v
  {
    if n > 0 {
      LeInverts(v / 256, n - 1);
      assert Le(v, n)[1..] == Le(v / 256, n - 1);
    }
  }

  lemma {:induction false} UintLeInverts(bs: seq<byte>)
    ensures Le(UintLe(bs), |bs|) == bs
  {
    if bs != [] {
      UintLeInverts(bs[1..]);
      assert UintLe(bs) % 256 == bs[0] && UintLe(bs) / 256 == UintLe(bs[1..]);
      assert bs == [bs[0]] + bs[1..];
    }
  }

  lemma {:induction false} ScaleAppend(low: nat, v: nat, p: nat, b: nat)
    ensures low + 256 * (v + p * b) == low + 256 * v + 256 * p * b
  {
  }

  /** Appending a byte adds it at the next weight, the step of the reader's loop. */
  lemma {:induction false} UintLeAppend(bs: seq<byte>, b: byte)
    ensures UintLe(bs + [b]) == UintLe(bs) + Pow256(|bs|) * b
  {
    if bs == [] {
      assert bs + [b] == [b];
      assert [b][1..] == [];
    } else {
      UintLeAppend(bs[1..], b);
      assert (bs + [b])[1..] == bs[1..] + [b];
      ScaleAppend(bs[0], UintLe(bs[1..]), Pow256(|bs| - 1), b);
    }
  }
}
