/** The injected random source, as an oracle: a stream of naturals read one per draw. */
module RandomSource {

  /** The value of the draw at position `at` of the stream, mapped onto the half-open range [low, high). */
  function Draw(source: nat -> nat, at: nat, low: int, high: int): (v: int)
    requires low < high
    ensures low <= v < high
  {
    low + source(at) % (high - low)
  }

  /** Every value of [low, high) is the outcome of some stream value. */
  lemma DrawReachesEveryValue(source: nat -> nat, at: nat, low: int, high: int, v: int)
    requires low <= v < high && source(at) == v - low
    ensures Draw(source, at, low, high) == v
  {
  }

  class Random {
    const source: nat -> nat
    var cursor: nat

    constructor (source: nat -> nat)
      ensures this.source == source && cursor == 0
    {
      this.source := source;
      cursor := 0;
    }

    /** `nextIntBetween(low, high)`: the next draw, within the half-open range [low, high). */
    method NextIntBetween(low: int, high: int) returns (v: int)
      requires low < high
      modifies this
      ensures v == Draw(source, old(cursor), low, high) && low <= v < high
      ensures cursor == old(cursor) + 1
    {
      v := low + source(cursor) % (high - low);
      cursor := cursor + 1;
    }
  }
}
