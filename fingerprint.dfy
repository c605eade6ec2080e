/**
 * The program fingerprint `get_hash`: the wire encoding of the program is
 * fed byte by byte into a hasher, the 64-bit digest seeds a random
 * generator, and sixteen alphanumeric draws, lower-cased, form the result.
 *
 * The hasher, the protobuf byte encoding and the seeded alphanumeric
 * sampler are library code; they enter as parameters, and only the shaping
 * around them is modelled.
 */
module Fingerprint {
  import Api
  import opened Logical
  import opened Codec

  type u64 = x: int | 0 <= x < 0x1_0000_0000_0000_0000

  /** A streaming hasher: a start state, one step per byte, and the final digest. */
  datatype Hasher<!H> = Hasher(init: H, writeU8: (H, Api.byte) -> H, finish: H -> u64)

  /** The seeded generator's stream: draw number `i` after seeding with `seed`. */
  type Sampler = (u64, nat) -> char

  /** Number of characters in a fingerprint. */
  const HASH_LENGTH: nat := 16

  /** The hasher state after writing `bs` in order, starting from `s`. */
  function Absorb<H>(h: Hasher<H>, s: H, bs: seq<Api.byte>): H
    decreases |bs|
  {
    if bs == [] then s else h.writeU8(Absorb(h, s, bs[..|bs| - 1]), bs[|bs| - 1])
  }

  /** The digest of a byte string: absorb every byte from the start state, then finish. */
  function Digest<H>(h: Hasher<H>, bs: seq<Api.byte>): u64 {
    h.finish(Absorb(h, h.init, bs))
  }

  /** `char::to_ascii_lowercase`: `A`-`Z` move to `a`-`z`, every other character is kept. */
  function ToAsciiLowercase(ch: char): (r: char)
    ensures 'A' <= ch <= 'Z' ==> 'a' <= r <= 'z' && r as int - ch as int == 'a' as int - 'A' as int
    ensures !('A' <= ch <= 'Z') ==> r == ch
    ensures !('A' <= r <= 'Z')
  {
    if 'A' <= ch <= 'Z' then (ch as int - 'A' as int + 'a' as int) as char else ch
  }

  /** Lower-casing twice is lower-casing once. */
  lemma ToAsciiLowercaseIdempotent(ch: char)
    ensures ToAsciiLowercase(ToAsciiLowercase(ch)) == ToAsciiLowercase(ch)
  {
  }

  /** What the `Alphanumeric` distribution draws: `0`-`9`, `A`-`Z`, `a`-`z`. */
  predicate IsAlphanumeric(ch: char) {
    '0' <= ch <= '9' || 'A' <= ch <= 'Z' || 'a' <= ch <= 'z'
  }

  /** What a fingerprint character can be: `0`-`9`, `a`-`z`. */
  predicate IsLowerAlphanumeric(ch: char) {
    '0' <= ch <= '9' || 'a' <= ch <= 'z'
  }

  /** The first sixteen draws of the generator seeded with `seed`, lower-cased. */
  function Shape(seed: u64, sample: Sampler): string {
    seq(HASH_LENGTH, (i: int) requires 0 <= i => ToAsciiLowercase(sample(seed, i)))
  }

  /**
   * A fingerprint has sixteen characters, each the lower-cased draw at its
   * position; when the draws are alphanumeric, it is lower-case alphanumeric.
   */
  lemma ShapeSpec(seed: u64, sample: Sampler)
    ensures |Shape(seed, sample)| == HASH_LENGTH
    ensures forall i :: 0 <= i < HASH_LENGTH ==> Shape(seed, sample)[i] == ToAsciiLowercase(sample(seed, i))
    ensures (forall i :: 0 <= i < HASH_LENGTH ==> IsAlphanumeric(sample(seed, i))) ==>
              forall i :: 0 <= i < HASH_LENGTH ==> IsLowerAlphanumeric(Shape(seed, sample)[i])
    ensures forall i :: 0 <= i < HASH_LENGTH ==> ToAsciiLowercase(Shape(seed, sample)[i]) == Shape(seed, sample)[i]
  {
    var r := Shape(seed, sample);
    forall i | 0 <= i < HASH_LENGTH ensures ToAsciiLowercase(r[i]) == r[i] {
      ToAsciiLowercaseIdempotent(sample(seed, i));
    }
  }

  /**
   * The fingerprint of a program as a value: the shape of the digest of its
   * wire bytes, sixteen characters with no upper-case letter.
   */
  function HashOf<S, T, H>(c: PayloadCodecs<S, T>, p: LogicalProgram<S, T>,
                           encodeToVec: Api.ArrowProgram -> seq<Api.byte>, h: Hasher<H>, sample: Sampler): (r: string)
    requires Encodable(p)
    ensures |r| == HASH_LENGTH
    ensures forall i :: 0 <= i < HASH_LENGTH ==> !('A' <= r[i] <= 'Z')
  {
    ShapeSpec(Digest(h, encodeToVec(Encode(c, p))), sample);
    Shape(Digest(h, encodeToVec(Encode(c, p))), sample)
  }

  /**
   * `get_hash`: encode the program, write its bytes into the hasher one at a
   * time, seed the generator with the digest and keep sixteen lower-cased
   * alphanumeric draws.
   */
  method GetHash<S, T, H>(c: PayloadCodecs<S, T>, p: LogicalProgram<S, T>,
                          encodeToVec: Api.ArrowProgram -> seq<Api.byte>, h: Hasher<H>, sample: Sampler)
    returns (r: string)
    requires Encodable(p)
    ensures r == HashOf(c, p, encodeToVec, h, sample)
    ensures |r| == HASH_LENGTH
    ensures forall i :: 0 <= i < HASH_LENGTH ==> !('A' <= r[i] <= 'Z')
  {
    var bs := encodeToVec(Encode(c, p));
    var state := h.init;
    var i := 0;
    while i < |bs|
      invariant i <= |bs|
      invariant state == Absorb(h, h.init, bs[..i])
    {
      assert bs[..i + 1][..i] == bs[..i];
      state := h.writeU8(state, bs[i]);
      i := i + 1;
    }
    assert bs[..i] == bs;
    r := Shape(h.finish(state), sample);
    ShapeSpec(h.finish(state), sample);
  }

  /**
   * The fingerprint sees the program only through its wire encoding, so a
   * declared empty projection and no projection hash alike.
   */
  lemma HashIgnoresEmptyProjection<S, T, H>(c: PayloadCodecs<S, T>, p: LogicalProgram<S, T>,
                                           encodeToVec: Api.ArrowProgram -> seq<Api.byte>, h: Hasher<H>, sample: Sampler)
    requires Encodable(p)
    ensures Encodable(Normalized(p))
    ensures HashOf(c, Normalized(p), encodeToVec, h, sample) == HashOf(c, p, encodeToVec, h, sample)
  {
    EncodeIgnoresEmptyProjection(c, p);
  }
}
