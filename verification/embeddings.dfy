/**
  The deterministic fallback embedding (src/database/embeddings.rs), used
  when no embedding service answers: a 64-bit wrapping sum of the text's
  bytes, spread over the requested number of dimensions. Element values
  are exact reals k/1000; the service call itself is not part of this
  module.
*/
module Embeddings {

  const U64Modulus: nat := 0x1_0000_0000_0000_0000

  /** The plain sum of the text's bytes. */
  function ByteTotal(text: string): nat {
    if text == [] then 0 else ByteTotal(text[..|text| - 1]) + text[|text| - 1] as nat
  }

  /** The `fold` with `wrapping_add` over the bytes, from zero. */
  function WrappingSum(text: string): (h: nat)
    ensures h < U64Modulus
  {
    if text == [] then 0 else (WrappingSum(text[..|text| - 1]) + text[|text| - 1] as nat) % U64Modulus
  }

  /** Element `i`: `(hash.wrapping_add(i) % 1000) / 1000`. */
  function Element(hash: nat, i: nat): real {
    ((hash + i) % U64Modulus % 1000) as real / 1000.0
  }

  /** `generate_fallback_embedding`. */
  function FallbackEmbedding(text: string, dim: nat): (v: seq<real>)
    ensures |v| == dim
    ensures forall i :: 0 <= i < dim ==> 0.0 <= v[i] <= 0.999
  {
    var hash := WrappingSum(text);
    seq(dim, i requires 0 <= i => Element(hash, i))
  }

  /** The wrapping sum is the plain sum reduced modulo 2^64. */
  lemma {:induction false} WrappingSumIsTotalMod(text: string)
    ensures WrappingSum(text) == ByteTotal(text) % U64Modulus
  {
    if text != [] {
      var init := text[..|text| - 1];
      var b := text[|text| - 1] as nat;
      WrappingSumIsTotalMod(init);
      ModAddLeft(ByteTotal(init), b);
    }
  }

  lemma ModAddLeft(a: nat, b: nat)
    ensures (a % U64Modulus + b) % U64Modulus == (a + b) % U64Modulus
  {
  }

  lemma {:induction false} ByteTotalConcat(a: string, b: string)
    ensures ByteTotal(a + b) == ByteTotal(a) + ByteTotal(b)
  {
    if b == [] {
      assert a + b == a;
    } else {
      var init := b[..|b| - 1];
      ByteTotalConcat(a, init);
      assert (a + b)[..|a + b| - 1] == a + init;
    }
  }

  /** Taking one byte out of the text lowers the total by that byte. */
  lemma ByteTotalRemove(b: string, j: nat)
    requires j < |b|
    ensures ByteTotal(b) == ByteTotal(b[..j] + b[j + 1..]) + b[j] as nat
  {
    var x := b[j];
    assert b == (b[..j] + [x]) + b[j + 1..];
    ByteTotalConcat(b[..j] + [x], b[j + 1..]);
    ByteTotalConcat(b[..j], [x]);
    ByteTotalConcat(b[..j], b[j + 1..]);
    assert ByteTotal([x]) == x as nat by {
      assert [x][..0] == [];
    }
  }

  /** Taking out one occurrence of a byte takes it out of the multiset. */
  lemma MultisetRemove(b: string, j: nat)
    requires j < |b|
    ensures multiset(b[..j] + b[j + 1..]) == multiset(b) - multiset{b[j]}
  {
    assert b == b[..j] + [b[j]] + b[j + 1..];
    assert multiset(b) == multiset(b[..j]) + multiset{b[j]} + multiset(b[j + 1..]);
  }

  /** The byte total does not depend on the order of the bytes. */
  lemma {:induction false} ByteTotalPermutation(a: string, b: string)
    requires multiset(a) == multiset(b)
    ensures ByteTotal(a) == ByteTotal(b)
    decreases |a|
  {
    if a == [] {
      assert |b| == |multiset(b)| == 0;
    } else {
      var init := a[..|a| - 1];
      var x := a[|a| - 1];
      assert a == init + [x];
      assert multiset(init) == multiset(a) - multiset{x};
      assert x in multiset(b);
      var j :| 0 <= j < |b| && b[j] == x;
      MultisetRemove(b, j);
      ByteTotalPermutation(init, b[..j] + b[j + 1..]);
      ByteTotalRemove(b, j);
    }
  }

  /** Rearranging the bytes of the text leaves the vector unchanged. */
  lemma FallbackOrderIndependent(a: string, b: string, dim: nat)
    requires multiset(a) == multiset(b)
    ensures FallbackEmbedding(a, dim) == FallbackEmbedding(b, dim)
  {
    WrappingSumIsTotalMod(a);
    WrappingSumIsTotalMod(b);
    ByteTotalPermutation(a, b);
  }

  /** The vector for a dimension is a prefix of the vector for any larger
      dimension. */
  lemma FallbackPrefix(text: string, d: nat, e: nat)
    requires d <= e
    ensures FallbackEmbedding(text, d) == FallbackEmbedding(text, e)[..d]
  {
  }

  /** Element `i` is the byte total plus `i`, reduced modulo 2^64 and then
      modulo 1000, over 1000. */
  lemma FallbackElement(text: string, dim: nat, i: nat)
    requires i < dim
    ensures FallbackEmbedding(text, dim)[i] == ((ByteTotal(text) % U64Modulus + i) % U64Modulus % 1000) as real / 1000.0
  {
    WrappingSumIsTotalMod(text);
  }
}
