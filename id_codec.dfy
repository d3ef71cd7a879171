/**
 * The identifier codec of index.js: a record's position in the flattened
 * corpus and its filler category are packed into one integer label,
 * `index * 100 + fillerID`, and the category is recovered as `id % 100`.
 *
 * JavaScript numbers are modelled as mathematical integers: the source is
 * exact only while the label stays below 2^53.
 */
module IdCodec {

  /** The multiplier of createID and the modulus of getFillerID. */
  const FillerSpan: int := 100

  /** createID: the label of the record at `index` with category `fillerId`. */
  function CreateId(index: int, fillerId: int): (id: int)
    ensures 0 <= index && 0 <= fillerId < FillerSpan ==>
              GetFillerId(id) == fillerId && PositionOf(id) == index
  {
    index * FillerSpan + fillerId
  }

  /**
   * getFillerID: the category packed in the low two decimal digits. The
   * source's `%` truncates, so the remainder takes the sign of the label
   * (Dafny's `%` is Euclidean).
   */
  function GetFillerId(id: int): (fillerId: int)
    ensures id >= 0 ==> 0 <= fillerId < FillerSpan
    ensures id < 0 ==> -FillerSpan < fillerId <= 0
    ensures (id - fillerId) % FillerSpan == 0
  {
    if id >= 0 then id % FillerSpan else -((-id) % FillerSpan)
  }

  /**
   * The position packed in a label, `Math.floor(id / 100)`. The source never
   * computes it; it states what createID keeps of its first argument.
   */
  function PositionOf(id: int): int
  {
    id / FillerSpan
  }

  /** Two in-range (position, category) pairs never share a label. */
  lemma CreateIdInjective(p1: nat, f1: int, p2: nat, f2: int)
    requires 0 <= f1 < FillerSpan && 0 <= f2 < FillerSpan
    requires CreateId(p1, f1) == CreateId(p2, f2)
    ensures p1 == p2 && f1 == f2
  {
    assert GetFillerId(CreateId(p1, f1)) == f1;
    assert GetFillerId(CreateId(p2, f2)) == f2;
  }

  /**
   * Nothing checks the category's range: category 105 at position 0 gets
   * the label of category 5 at position 1, and decodes to 5.
   */
  lemma OutOfRangeCategoryCollides()
    ensures CreateId(0, 105) == CreateId(1, 5) == 105
    ensures GetFillerId(CreateId(0, 105)) == 5
  {
  }

  /** A category of 100 or more never survives the round trip. */
  lemma LargeCategoryNeverRoundTrips(p: nat, f: int)
    requires f >= FillerSpan
    ensures GetFillerId(CreateId(p, f)) != f
  {
  }

  /**
   * A negative category does not survive the round trip either, as soon
   * as the label is non-negative.
   */
  lemma NegativeCategoryNeverRoundTrips(p: nat, f: int)
    requires f < 0 && CreateId(p, f) >= 0
    ensures GetFillerId(CreateId(p, f)) != f
  {
  }
}
