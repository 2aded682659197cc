/** Pointer low-bit tagging. An address whose bit 0 is set stands for a
    descriptor hidden in a pointer-typed slot; an address with bit 0 clear is
    an ordinary pointer. Addresses are 64-bit machine words; the `transmute`s
    between pointer types do not change the word, so they are the tag and
    untag operations themselves. */
module Tagging {

  type Addr = bv64

  /** Every bit of an address except the tag bit. */
  const HIGH_BITS: Addr := 0xFFFF_FFFF_FFFF_FFFE

  /** `is_descriptor`: the low bit is set. */
  function IsDescriptor(p: Addr): (tagged: bool)
    ensures tagged <==> p % 2 == 1
  {
    p & 1 == 1
  }

  /** `set_descriptor`: tag an untagged address (its `assert!` rejects a tagged one). */
  function SetDescriptor(p: Addr): (r: Addr)
    requires !IsDescriptor(p)
    ensures IsDescriptor(r)
    ensures r & HIGH_BITS == p & HIGH_BITS
  {
    p | 1
  }

  /** `unset_descriptor`: clear the tag of a tagged address (its `assert!`
      rejects an untagged one). Only bit 0 changes. */
  function UnsetDescriptor(p: Addr): (r: Addr)
    requires IsDescriptor(p)
    ensures !IsDescriptor(r)
    ensures r & HIGH_BITS == p & HIGH_BITS
  {
    (p >> 1) << 1
  }

  /** Read as numbers, tagging adds one and untagging subtracts one: the
      address of a descriptor and its tagged form are adjacent words. */
  lemma TagIsIncrement(p: Addr)
    ensures !IsDescriptor(p) ==> SetDescriptor(p) == p + 1
    ensures IsDescriptor(p) ==> UnsetDescriptor(p) == p - 1
  {
  }

  lemma SetThenUnset(p: Addr)
    requires !IsDescriptor(p)
    ensures UnsetDescriptor(SetDescriptor(p)) == p
  {
  }

  lemma UnsetThenSet(p: Addr)
    requires IsDescriptor(p)
    ensures SetDescriptor(UnsetDescriptor(p)) == p
  {
  }

  /** `transmute_desc_to_t`: hide a descriptor's (untagged) address in a
      pointer to `T` by tagging it. */
  function DescToT(desc: Addr): (t: Addr)
    requires !IsDescriptor(desc)
    ensures IsDescriptor(t) && t & HIGH_BITS == desc & HIGH_BITS
  {
    SetDescriptor(desc)
  }

  /** `transmute_t_to_desc`: recover the descriptor's address from a tagged pointer. */
  function TToDesc(t: Addr): (desc: Addr)
    requires IsDescriptor(t)
    ensures !IsDescriptor(desc) && desc & HIGH_BITS == t & HIGH_BITS
  {
    UnsetDescriptor(t)
  }

  /** Hiding a descriptor and recovering it gives back its address, and the
      other way round. */
  lemma TransmuteRoundTrip(desc: Addr, t: Addr)
    ensures !IsDescriptor(desc) ==> TToDesc(DescToT(desc)) == desc
    ensures IsDescriptor(t) ==> DescToT(TToDesc(t)) == t
  {
  }
}
