/** Byte buffers that are filled in place. */
module Buffers {
  import opened Bits

  type Bytes = seq<Byte>

  /** TypedArray.prototype.set */
  method Set(target: array<Byte>, source: Bytes, offset: nat)
    requires offset + |source| <= target.Length
    modifies target
    ensures target[..] == old(target[..offset]) + source + old(target[offset + |source|..])
  {
    for i := 0 to |source|
      invariant target[..offset] == old(target[..offset])
      invariant target[offset..offset + i] == source[..i]
      invariant target[offset + |source|..] == old(target[offset + |source|..])
    {
      target[offset + i] := source[i];
      assert target[offset..offset + i + 1] == target[offset..offset + i] + [source[i]];
    }
    assert target[..] == target[..offset] + target[offset..offset + |source|] + target[offset + |source|..];
  }
}
