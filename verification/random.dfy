/**
 * The secure random generator `csrng(length)`, seen from the cache as an
 * oracle: `gen(i, n)` is what the `i`-th call (counting from 0) returns when
 * asked for `n` bytes, and `drawn` is how many calls have been made so far.
 */
module Random {

  newtype byte = x: int | 0 <= x < 256

  datatype Source = Source(gen: (nat, nat) -> seq<byte>, drawn: nat)

  /** The generator keeps its promise of returning exactly `length` bytes. */
  ghost predicate HonoursLength(src: Source) {
    forall i: nat, n: nat :: |src.gen(i, n)| == n
  }

  /** One call `csrng(length)`: the next bytes of the stream, and the
      generator with one more call consumed. */
  function Draw(src: Source, length: nat): (r: (seq<byte>, Source))
    ensures r.1.gen == src.gen && r.1.drawn == src.drawn + 1
    ensures HonoursLength(src) ==> |r.0| == length
  {
    (src.gen(src.drawn, length), src.(drawn := src.drawn + 1))
  }
}
