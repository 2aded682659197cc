/** The mutex-guarded linked-list queue (`ListInner`), each call taken as one
    atomic step under its lock.

    Nodes live in an arena and a pointer is an arena index (`None` is the null
    pointer). New nodes are appended at `head`; `tail` is the stub node whose
    value has already been taken, and popping advances it. Because every node
    is appended at the end of the arena, the live chain from `tail` to `head`
    occupies the arena's last positions in order; nodes before `tail` have
    been freed and are never read again. */
module LinkedList {
  import opened Outcomes

  datatype Node<T> = Node(value: Option<T>, next: Option<nat>)

  datatype List<T> = List(nodes: seq<Node<T>>, head: nat, tail: nat)

  ghost predicate Valid<T>(l: List<T>)
  {
    && l.tail <= l.head
    && l.head == |l.nodes| - 1
    && l.nodes[l.head].next == None
    && (forall i :: l.tail <= i < l.head ==> l.nodes[i].next == Some(i + 1))
    && l.nodes[l.tail].value.None?
    && (forall i :: l.tail < i <= l.head ==> l.nodes[i].value.Some?)
  }

  /** The values waiting in the list, oldest first. */
  ghost function Contents<T>(l: List<T>): (s: seq<T>)
    requires Valid(l)
    ensures |s| == l.head - l.tail
  {
    seq(l.head - l.tail, k requires 0 <= k < l.head - l.tail => l.nodes[l.tail + 1 + k].value.value)
  }

  /** `ListInner::new`: a single value-less stub that is both head and tail. */
  function New<T>(): (l: List<T>)
    ensures Valid(l) && Contents(l) == []
    ensures |l.nodes| == 1 && l.head == l.tail
  {
    List([Node(None, None)], 0, 0)
  }

  /** `ListInner::push`: a fresh node holding `v` is linked after the current
      head and becomes the head. The list is unbounded, so this never fails. */
  function Push<T>(l: List<T>, v: T): (r: (List<T>, Result<(), T>))
    requires Valid(l)
    ensures r.1 == Ok(())
    ensures Valid(r.0) && Contents(r.0) == Contents(l) + [v]
    ensures r.0.head == |l.nodes| && |r.0.nodes| == |l.nodes| + 1
    ensures r.0.nodes[l.head].next == Some(r.0.head) && r.0.nodes[r.0.head].value == Some(v)
    ensures r.0.tail == l.tail
  {
    var node := |l.nodes|;
    var prev := l.head;
    var linked := l.nodes[prev := l.nodes[prev].(next := Some(node))];
    var l' := List(linked + [Node(Some(v), None)], node, l.tail);
    assert Contents(l') == Contents(l) + [v];
    (l', Ok(()))
  }

  /** On a non-empty list the two `assert!`s of `pop` hold: the stub has no
      value and its successor has one. */
  lemma PopAssertionsHold<T>(l: List<T>)
    requires Valid(l) && l.nodes[l.tail].next.Some?
    ensures l.nodes[l.tail].value.None?
    ensures l.nodes[l.tail].next.value < |l.nodes| && l.nodes[l.nodes[l.tail].next.value].value.Some?
  {
  }

  /** `ListInner::pop`: `None`, with nothing changed, when the stub has no
      successor; otherwise the successor's value is taken out, and the
      successor becomes the new stub. */
  function Pop<T>(l: List<T>): (r: (List<T>, Option<T>))
    requires Valid(l)
    ensures Valid(r.0)
    ensures r.1.None? <==> Contents(l) == []
    ensures r.1.None? ==> r.0 == l
    ensures r.1.Some? ==>
      && r.1.value == Contents(l)[0]
      && Contents(r.0) == Contents(l)[1..]
      && r.0.tail == l.nodes[l.tail].next.value
      && r.0.head == l.head
  {
    var stub := l.tail;
    var next := l.nodes[stub].next;
    if next.Some? then
      PopAssertionsHold(l);
      var ret := l.nodes[next.value].value.value;
      var l' := l.(nodes := l.nodes[next.value := l.nodes[next.value].(value := None)], tail := next.value);
      assert Contents(l') == Contents(l)[1..];
      (l', Some(ret))
    else
      (l, None)
  }

  /** The crate's `test_push_pop`: popping a new list gives `None`; after
      pushing 1 and 2, pops give 1 and then 2. */
  lemma PushPopScenario()
    ensures var l0 := New<int>();
      var (_, o0) := Pop(l0);
      var (l1, r1) := Push(l0, 1);
      var (l2, r2) := Push(l1, 2);
      var (l3, o3) := Pop(l2);
      var (_, o4) := Pop(l3);
      && o0 == None && r1.Ok? && r2.Ok? && o3 == Some(1) && o4 == Some(2)
  {
    var l0 := New<int>();
    var (l1, _) := Push(l0, 1);
    var (l2, _) := Push(l1, 2);
    assert Contents(l2) == [1, 2];
    var (l3, _) := Pop(l2);
    assert Contents(l3) == [2];
  }
}
