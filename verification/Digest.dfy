/** An incremental digest, the digest itself left open: a state that absorbs bytes and is rendered as hex.
    SHA-256 (FIPS 180-4) is one such. */
module Digest {
  newtype Byte = b: int | 0 <= b < 256

  datatype Hash<!S> = Hash(init: S, absorb: (S, Byte) -> S, render: S -> string)

  function Feed<S>(h: Hash<S>, state: S, data: seq<Byte>): S {
    if data == [] then state
    else h.absorb(Feed(h, state, data[..|data| - 1]), data[|data| - 1])
  }

  function Sum<S>(h: Hash<S>, data: seq<Byte>): string {
    h.render(Feed(h, h.init, data))
  }

  /** Feeding in pieces is feeding the whole. */
  lemma {:induction false} FeedInPieces<S>(h: Hash<S>, state: S, a: seq<Byte>, b: seq<Byte>)
    ensures Feed(h, Feed(h, state, a), b) == Feed(h, state, a + b)
  {
    if b == [] {
      assert a + b == a;
    } else {
      var init := b[..|b| - 1];
      FeedInPieces(h, state, a, init);
      assert (a + b)[..|a + b| - 1] == a + init;
    }
  }
}
