/** Conditional compare-and-swap (`CondAtomicPtr`) run by one thread at a
    time: install `next` in the cell if it holds `current` and the condition
    word reads 0.

    The operation parks a descriptor in the cell, tagged in its low bit, and
    then "helps" it: it swaps the tagged descriptor for `next` (the `new` operand) or back to
    `current` according to the condition. Descriptors live in memory, modelled
    as a map from their (untagged) address to their contents. */
module Ccas {
  import opened Tagging

  /** `Descriptor<T>`. `next` is the source's `new` operand (a Dafny keyword);
      `cond` is the value the shared condition word holds. */
  datatype Descriptor = Descriptor(current: Addr, next: Addr, cond: nat)

  /** `CondAtomicPtr<T>`: the cell, which holds a pointer or a tagged descriptor. */
  datatype CondAtomicPtr = CondAtomicPtr(inner: Addr)

  /** Descriptor memory, keyed by a descriptor's untagged address read as a number. */
  type Memory = map<nat, Descriptor>

  /** Descriptors whose operands are ordinary (untagged) pointers. */
  ghost predicate WellFormed(descs: Memory)
  {
    forall a :: a in descs ==> !IsDescriptor(descs[a].current) && !IsDescriptor(descs[a].next)
  }

  /** `ccas_help`: decode the descriptor behind the tagged pointer `tagged`,
      choose `next` if its condition reads 0 and `current` otherwise, and
      compare-and-swap the cell from the (re-tagged) descriptor to that
      choice. A cell that no longer holds the descriptor is left alone. */
  function Help(p: CondAtomicPtr, tagged: Addr, descs: Memory): (r: CondAtomicPtr)
    requires IsDescriptor(tagged) && TToDesc(tagged) as nat in descs
    ensures p.inner != tagged ==> r == p
    ensures p.inner == tagged && descs[TToDesc(tagged) as nat].cond == 0 ==> r.inner == descs[TToDesc(tagged) as nat].next
    ensures p.inner == tagged && descs[TToDesc(tagged) as nat].cond != 0 ==> r.inner == descs[TToDesc(tagged) as nat].current
  {
    var at := TToDesc(tagged);
    var desc := descs[at as nat];
    var casVal := if desc.cond == 0 then desc.next else desc.current;
    var expected := DescToT(at);
    TransmuteRoundTrip(at, tagged);
    if p.inner == expected then p.(inner := casVal) else p
  }

  /** `conditional_compare_and_swap` with its descriptor placed at the
      untagged address `at`. If the cell holds `current`, the descriptor is
      installed and helped at once, so the cell ends holding `next` when
      `cond` is 0 and `current` otherwise. If the cell holds some other
      ordinary pointer, nothing changes. (A cell holding another operation's
      descriptor would make the source retry for ever without helping; a
      sequential caller never meets one.) */
  function ConditionalCompareAndSwap(p: CondAtomicPtr, current: Addr, next: Addr, cond: nat, at: Addr)
    : (r: CondAtomicPtr)
    requires !IsDescriptor(at)
    requires p.inner == current || !IsDescriptor(p.inner)
    ensures p.inner == current && cond == 0 ==> r.inner == next
    ensures p.inner == current && cond != 0 ==> r.inner == current
    ensures p.inner != current ==> r == p
  {
    var desc := Descriptor(current, next, cond);
    var tagged := DescToT(at);
    var memory := map[at as nat := desc];
    TransmuteRoundTrip(at, tagged);
    assert TToDesc(tagged) == at;
    if p.inner == current then
      var helped := Help(p.(inner := tagged), tagged, memory);
      helped
    else
      p
  }

  /** Helping the descriptor a cell holds leaves an ordinary pointer there. */
  lemma HelpSettles(p: CondAtomicPtr, descs: Memory)
    requires WellFormed(descs)
    requires IsDescriptor(p.inner) && TToDesc(p.inner) as nat in descs
    ensures !IsDescriptor(Help(p, p.inner, descs).inner)
  {
    var d := descs[TToDesc(p.inner) as nat];
    assert !IsDescriptor(d.current) && !IsDescriptor(d.next);
  }

  /** `load`: read the cell; if it holds a tagged descriptor, help that
      operation to completion first and read again. The value returned is
      never tagged. */
  function Load(p: CondAtomicPtr, descs: Memory): (r: (CondAtomicPtr, Addr))
    requires WellFormed(descs)
    requires IsDescriptor(p.inner) ==> TToDesc(p.inner) as nat in descs
    ensures !IsDescriptor(r.1) && r.1 == r.0.inner
    ensures !IsDescriptor(p.inner) ==> r == (p, p.inner)
    ensures IsDescriptor(p.inner) ==> r.0 == Help(p, p.inner, descs)
    decreases if IsDescriptor(p.inner) then 1 else 0
  {
    if !IsDescriptor(p.inner) then
      (p, p.inner)
    else
      HelpSettles(p, descs);
      Load(Help(p, p.inner, descs), descs)
  }

  /** Between operations the cell holds an ordinary pointer, as long as the
      operands handed to the operations are ordinary pointers. */
  lemma CcasKeepsCellUntagged(p: CondAtomicPtr, current: Addr, next: Addr, cond: nat, at: Addr)
    requires !IsDescriptor(at) && !IsDescriptor(p.inner)
    requires !IsDescriptor(current) && !IsDescriptor(next)
    ensures !IsDescriptor(ConditionalCompareAndSwap(p, current, next, cond, at).inner)
  {
  }

  /** The crate's `test_ccas` and `test_ccas_cond_false`: a CCAS from the
      value the cell holds, then a load, reads `next` when the condition is 0
      and the original value otherwise. */
  lemma CcasThenLoad(v: Addr, next: Addr, cond: nat, at: Addr)
    requires !IsDescriptor(v) && !IsDescriptor(next) && !IsDescriptor(at)
    ensures var p := ConditionalCompareAndSwap(CondAtomicPtr(v), v, next, cond, at);
      Load(p, map[]).1 == if cond == 0 then next else v
  {
  }
}
