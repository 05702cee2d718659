/** Fingerprints computed with the byte buffer of an accumulator. */
module Fingerprints {
  import opened Types
  import opened Accumulators
  import opened Encoding
  import opened SortedItems
  import opened Wire

  /** Hashes the 32 bytes of the sum followed by the count, and keeps 16 bytes of the hash. */
  method GetFingerprint(accum: Accumulator, h: Hash, n: uint64) returns (f: Fingerprint)
    requires accum.Valid()
    ensures LeNum(accum.buf[..]) == accum.Value()
    ensures exists c :: Spells(c, n) && f == h(accum.buf[..] + c)
    ensures f == FingerprintOfSum(h, accum.Value(), n)
  {
    hide Spells;
    var input := accum.buf[..];
    PowOf32();
    LeNumInjective(input, LeBytes(accum.Value(), 32));
    var count := EncodeVarInt(n);
    f := h(input + count);
  }

  /** The accumulator after adding item after item. */
  method Accumulate(items: seq<Item>) returns (accum: Accumulator)
    ensures fresh(accum) && fresh(accum.buf) && accum.Valid() && accum.Value() == IdSum(items)
  {
    accum := new Accumulator();
    var i := 0;
    while i < |items|
      invariant 0 <= i <= |items| && accum.Valid() && fresh(accum) && fresh(accum.buf)
      invariant accum.Value() == IdSum(items[..i])
    {
      accum.Add(items[i].id);
      assert items[..i + 1] == items[..i] + [items[i]];
      IdSumConcat(items[..i], [items[i]]);
      IdSumOne(items[i]);
      i := i + 1;
    }
    assert items[..i] == items;
  }
}
