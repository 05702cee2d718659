/** What the protocol needs of a storage, provided alike by the array and by the tree. */
module Storages {
  import opened Types
  import opened Accumulators
  import opened Encoding
  import opened SortedItems
  import opened Wire
  import opened Vectors
  import opened BTrees

  datatype Storage = ArrayStorage(vector: Vector) | TreeStorage(tree: BTree) {
    ghost function Objects(): set<object> {
      match this
      case ArrayStorage(v) => {v}
      case TreeStorage(t) => {t}
    }

    ghost function Contents(): seq<Item>
      reads Objects()
    {
      match this
      case ArrayStorage(v) => v.items
      case TreeStorage(t) => t.contents
    }

    /** An array must have been sealed without an error. */
    ghost predicate Valid()
      reads Objects()
    {
      match this
      case ArrayStorage(v) => v.isSealed ==> AscendingItems(v.items)
      case TreeStorage(t) => t.Valid()
    }

    ghost predicate IsOpen()
      reads Objects()
    {
      ArrayStorage? ==> vector.isSealed
    }

    lemma OpenAscends()
      requires Valid() && IsOpen()
      ensures AscendingItems(Contents())
    {
    }

    method Size() returns (r: Result<nat>)
      requires Valid()
      ensures r == if IsOpen() then Ok(|Contents()|) else Err("not sealed")
    {
      match this
      case ArrayStorage(v) =>
        r := v.Size();
      case TreeStorage(t) =>
        var n := t.Size();
        r := Ok(n);
    }

    /** All items at `begin..end`, by iterating with a callback that never stops. */
    method Slice(begin: nat, end: nat) returns (r: Result<seq<Item>>)
      requires Valid() && IsOpen()
      ensures r == if begin <= end <= |Contents()| then Ok(Contents()[begin..end]) else Err("bad range")
    {
      match this
      case ArrayStorage(v) =>
        r := v.Iterate(begin, end, (_, _) => true);
      case TreeStorage(t) =>
        r := t.Iterate(begin, end, (_, _) => true);
    }

    method Fingerprint(begin: nat, end: nat, h: Hash) returns (r: Result<Fingerprint>)
      requires Valid() && IsOpen()
      ensures r == if begin <= end <= |Contents()| then Ok(FingerprintOf(h, Contents()[begin..end]))
                   else Err("bad range")
      ensures r.Ok? ==>
        exists s: seq<byte>, c ::
          && |s| == 32 && LeNum(s) == IdSum(Contents()[begin..end])
          && Spells(c, (end - begin) % 0x1_0000_0000_0000_0000) && r.value == h(s + c)
    {
      hide IdSum, Spells;
      match this
      case ArrayStorage(v) =>
        r := v.Fingerprint(begin, end, h);
      case TreeStorage(t) =>
        r := t.Fingerprint(begin, end, h);
    }

    /** The answers of the two storages (see TreeMatchesArray for where they agree). */
    method FindLowerBound(begin: nat, end: nat, value: Bound) returns (r: Result<nat>)
      requires Valid() && IsOpen()
      ensures r == if !(begin <= end <= |Contents()|) then Err("bad range")
                   else Ok(if TreeStorage? then TreeLowerBound(Contents(), begin, end, BoundRank(value))
                           else ClampedLowerBound(Contents(), begin, end, BoundRank(value)))
    {
      hide Rank, BoundRank, LowerBound;
      match this
      case ArrayStorage(v) =>
        r := v.FindLowerBound(begin, end, value);
      case TreeStorage(t) =>
        r := t.FindLowerBound(begin, end, value);
    }
  }
}
