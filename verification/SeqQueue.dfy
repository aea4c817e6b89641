/**
 * The priority queue that puts upload chunks back in order: a binary heap on the chunk offset, and
 * the three operations of the queue as they run under its lock.
 */
module SeqQueue {
  import opened Bytes

  datatype UploadData = UploadData(offset: nat, dataBytes: int, isFinal: bool)

  // ---------- the heap ----------

  function Parent(k: nat): (p: nat)
    requires k > 0
    ensures p < k
  {
    (k - 1) / 2
  }

  ghost predicate InOrder(q: seq<UploadData>, k: int) {
    1 <= k < |q| ==> q[Parent(k)].offset <= q[k].offset
  }

  ghost predicate Heap(q: seq<UploadData>) {
    forall k {:trigger InOrder(q, k)} :: InOrder(q, k)
  }

  /** A heap but for node j, whose children are no smaller than its parent. */
  ghost predicate HeapAbove(q: seq<UploadData>, j: nat) {
    && (forall k {:trigger InOrder(q, k)} :: k != j ==> InOrder(q, k))
    && ChildrenOverParent(q, j)
  }

  /** A heap but for the children of node i, which are no smaller than its parent. */
  ghost predicate HeapBelow(q: seq<UploadData>, i: nat) {
    && (forall k {:trigger InOrder(q, k)} :: (k > 0 && Parent(k) == i) || InOrder(q, k))
    && ChildrenOverParent(q, i)
  }

  ghost predicate ChildrenOverParent(q: seq<UploadData>, j: nat) {
    0 < j < |q| ==>
      forall k: nat {:trigger Parent(k)} :: 0 < k < |q| && Parent(k) == j ==> q[Parent(j)].offset <= q[k].offset
  }

  function Swap(q: seq<UploadData>, i: nat, j: nat): (r: seq<UploadData>)
    requires i < |q| && j < |q|
    ensures |r| == |q| && multiset(r) == multiset(q)
  {
    q[i := q[j]][j := q[i]]
  }

  lemma SwapUp(q: seq<UploadData>, j: nat)
    requires 0 < j < |q| && HeapAbove(q, j) && q[j].offset < q[Parent(j)].offset
    ensures HeapAbove(Swap(q, Parent(j), j), Parent(j))
  {
    var i := Parent(j);
    var r := Swap(q, i, j);
    forall k: int | k != i ensures InOrder(r, k) {
      assert InOrder(q, k) || k == j;
    }
    forall k: nat | 0 < i && 0 < k < |r| && Parent(k) == i ensures r[Parent(i)].offset <= r[k].offset {
      assert InOrder(q, i);
      assert k != j ==> InOrder(q, k);
    }
  }

  lemma SwapDown(q: seq<UploadData>, i: nat, j: nat)
    requires 0 < j < |q| && Parent(j) == i && HeapBelow(q, i) && q[j].offset < q[i].offset
    requires forall k :: 0 < k < |q| && Parent(k) == i ==> q[j].offset <= q[k].offset
    ensures HeapBelow(Swap(q, i, j), j)
  {
    var r := Swap(q, i, j);
    forall k: int | !(k > 0 && Parent(k) == j) ensures InOrder(r, k) {
      assert InOrder(q, k) || Parent(k) == i;
    }
    forall k: nat | 0 < k < |r| && Parent(k) == j ensures r[i].offset <= r[k].offset {
      assert InOrder(q, k);
    }
  }

  /** A chunk's length counts bytes that were written. */
  ghost predicate NonNegative(q: seq<UploadData>) {
    forall it :: it in multiset(q) ==> it.dataBytes >= 0
  }

  lemma {:induction false} HeapTopIsLeast(q: seq<UploadData>, k: nat)
    requires Heap(q) && k < |q|
    ensures q[0].offset <= q[k].offset
  {
    if k > 0 {
      assert InOrder(q, k);
      HeapTopIsLeast(q, Parent(k));
    }
  }

  /** heap.Push: append, then move up past larger parents. */
  method HeapPush(q: seq<UploadData>, x: UploadData) returns (r: seq<UploadData>)
    requires Heap(q)
    ensures Heap(r) && multiset(r) == multiset(q) + multiset{x}
  {
    r := q + [x];
    var j: nat := |r| - 1;
    assert HeapAbove(r, j) by {
      forall k: int | k != j ensures InOrder(r, k) { assert InOrder(q, k); }
      assert forall k: nat :: 0 < k < |r| ==> Parent(k) < k <= j;
    }
    while j > 0 && r[j].offset < r[Parent(j)].offset
      invariant j < |r| && multiset(r) == multiset(q) + multiset{x}
      invariant HeapAbove(r, j)
    {
      SwapUp(r, j);
      r, j := Swap(r, Parent(j), j), Parent(j);
    }
    forall k: int ensures InOrder(r, k) { assert k != j ==> InOrder(r, k); }
  }

  /** heap.Pop: swap the first and last, move the new first down past smaller children, cut the last. */
  method HeapPop(q: seq<UploadData>) returns (item: UploadData, r: seq<UploadData>)
    requires Heap(q) && q != []
    ensures item == q[0]
    ensures Heap(r) && multiset(r) + multiset{item} == multiset(q)
  {
    var n := |q| - 1;
    var s := Swap(q, 0, n);
    item := s[n];
    r := s[..n];
    assert s == r + [item];
    var i: nat := 0;
    assert HeapBelow(r, 0) by {
      forall k: int | !(k > 0 && Parent(k) == 0) ensures InOrder(r, k) { assert InOrder(q, k); }
    }
    while 2 * i + 1 < n
      invariant |r| == n && multiset(r) + multiset{item} == multiset(q)
      invariant HeapBelow(r, i)
      decreases n - i
    {
      var j := 2 * i + 1;
      if j + 1 < n && r[j + 1].offset < r[j].offset {
        j := j + 1;
      }
      assert forall k :: 0 < k < n && Parent(k) == i ==> k == 2 * i + 1 || k == 2 * i + 2;
      if r[i].offset <= r[j].offset {
        break;
      }
      SwapDown(r, i, j);
      r, i := Swap(r, i, j), j;
    }
    forall k: int ensures InOrder(r, k) {
      assert (k > 0 && Parent(k) == i) || InOrder(r, k);
    }
  }

  // ---------- what one Popup takes out ----------

  /** Chunks with a first and a next, each starting where the one before ends, lead from a to b. */
  ghost predicate Chain(items: multiset<UploadData>, a: nat, b: nat)
    decreases b - a
  {
    a == b || exists it :: it in items && it.offset == a && it.dataBytes > 0 && a + it.dataBytes <= b
                           && Chain(items, a + it.dataBytes, b)
  }

  lemma {:induction false} ChainPush(items: multiset<UploadData>, a: nat, b: nat, it: UploadData)
    requires a <= b && Chain(items, a, b) && it in items && it.offset == b && it.dataBytes > 0
    ensures Chain(items, a, b + it.dataBytes)
    decreases b - a
  {
    if a == b {
      assert Chain(items, b + it.dataBytes, b + it.dataBytes);
    } else {
      var first :| first in items && first.offset == a && first.dataBytes > 0 && a + first.dataBytes <= b
                   && Chain(items, a + first.dataBytes, b);
      ChainPush(items, a + first.dataBytes, b, it);
      assert a + first.dataBytes <= b + it.dataBytes;
    }
  }

  /**
   * Everything up to `to` has left the queue and nothing else has; the bytes from..to are covered by
   * chunks that follow one another; and no chunk that could still extend them is left out.
   */
  ghost predicate Drained(before: multiset<UploadData>, from: nat, after: multiset<UploadData>, to: nat) {
    && from <= to
    && Chain(before, from, to)
    && (forall it: UploadData :: after[it] == if it.offset > to then before[it] else 0)
    && (forall it :: it in before && it.offset == to ==> it.dataBytes == 0)
  }

  lemma NothingLeftBelow(before: multiset<UploadData>, from: nat, queue: seq<UploadData>, next: nat)
    requires Heap(queue) && (queue == [] || queue[0].offset > next)
    requires from <= next && Chain(before, from, next)
    requires forall it: UploadData :: multiset(queue)[it] <= before[it]
    requires forall it: UploadData ::
               it.offset > next || (it.offset == next && it.dataBytes > 0) ==> multiset(queue)[it] == before[it]
    requires forall it :: it in before ==> it.dataBytes >= 0
    ensures Drained(before, from, multiset(queue), next)
  {
    forall it: UploadData ensures multiset(queue)[it] == if it.offset > next then before[it] else 0 {
      if it in multiset(queue) {
        var k :| 0 <= k < |queue| && queue[k] == it;
        HeapTopIsLeast(queue, k);
      }
    }
  }

  /** The condition under which Popup waits. */
  ghost predicate Blocked(items: multiset<UploadData>, next: nat, done: bool) {
    items == multiset{} || (!done && forall it :: it in items ==> it.offset > next)
  }

  /** One Popup: it would wait and changes nothing, or asks for the rest of the file, or drains the queue. */
  ghost predicate PopupDoes(items: multiset<UploadData>, next: nat, done: bool, dataSize: nat,
                            items': multiset<UploadData>, next': nat, r: Option<UploadData>)
  {
    && (r == None <==> Blocked(items, next, done))
    && (r == None || (done && dataSize > 0) ==> items' == items && next' == next)
    && (r != None && done && dataSize > 0 ==> r == Some(UploadData(next, dataSize - next, true)))
    && (r != None && !(done && dataSize > 0) ==>
          Drained(items, next, items', next') && r == Some(UploadData(next, next' - next, done)))
  }

  /** One Push: a chunk before next is dropped; the consumer is signalled exactly for the chunk at next. */
  ghost predicate PushDoes(items: multiset<UploadData>, next: nat, v: UploadData,
                           items': multiset<UploadData>, signalled: bool)
  {
    && items' == items + (if v.offset >= next then multiset{v} else multiset{})
    && (signalled <==> v.offset == next)
  }

  /** The chunk at next is not lost: the Popup after its Push does not wait, and returns at least its bytes. */
  lemma PushedAtNextIsPopped(items: multiset<UploadData>, next: nat, dataSize: nat, v: UploadData,
                             pushed: multiset<UploadData>, signalled: bool,
                             items': multiset<UploadData>, next': nat, r: Option<UploadData>)
    requires v.offset == next && v.dataBytes > 0 && PushDoes(items, next, v, pushed, signalled)
    requires PopupDoes(pushed, next, false, dataSize, items', next', r)
    ensures signalled && r.Some? && r.value.offset == next && next' == next + r.value.dataBytes > next
    ensures forall it :: it in items && it.offset > next' ==> it in items'
  {
    assert v in pushed;
  }

  /** One Done: the last chunk is queued whatever its offset, and the consumer signalled. */
  ghost predicate DoneDoes(items: multiset<UploadData>, v: UploadData,
                           items': multiset<UploadData>, done': bool, signalled: bool)
  {
    items' == items + multiset{v} && done' && signalled
  }

  class SeqPriorityQueue {
    var queue: seq<UploadData>
    var next: nat
    var done: bool
    var dataSize: nat

    ghost predicate Valid()
      reads this
    {
      Heap(queue) && NonNegative(queue)
    }

    ghost function Items(): multiset<UploadData>
      reads this
    {
      multiset(queue)
    }

    constructor (dataSize: nat)
      ensures Valid() && Items() == multiset{} && next == 0 && !done && this.dataSize == dataSize
    {
      queue, next, done, this.dataSize := [], 0, false, dataSize;
    }

    /** The result says whether the consumer was signalled. */
    method Push(v: UploadData) returns (signalled: bool)
      requires Valid() && v.dataBytes >= 0
      modifies `queue
      ensures Valid() && PushDoes(old(Items()), next, v, Items(), signalled)
      ensures Items() == old(Items()) + if v.offset < next then multiset{} else multiset{v}
    {
      signalled := false;
      if v.offset >= next {
        queue := HeapPush(queue, v);
        if v.offset == next {
          signalled := true;
        }
      }
    }

    method Done(v: UploadData, dataSize: nat) returns (signalled: bool)
      requires Valid() && v.dataBytes >= 0
      modifies `queue, `done, `dataSize
      ensures Valid() && DoneDoes(old(Items()), v, Items(), done, signalled)
      ensures this.dataSize == dataSize
    {
      done := true;
      this.dataSize := dataSize;
      queue := HeapPush(queue, v);
      signalled := true;
    }

    /** Popup up to the point where it would wait (None), or its result. */
    method Popup() returns (r: Option<UploadData>)
      requires Valid()
      modifies `queue, `next
      ensures Valid()
      ensures PopupDoes(old(Items()), old(next), done, dataSize, Items(), next, r)
    {
      if |queue| == 0 || (!done && queue[0].offset > next) {
        forall it | it in Items() && !done ensures it.offset > next {
          var k :| 0 <= k < |queue| && queue[k] == it;
          HeapTopIsLeast(queue, k);
        }
        return None;
      }
      assert queue[0] in Items();
      if done && dataSize > 0 {
        return Some(UploadData(next, dataSize - next, true));
      }
      var offset := next;
      Drain();
      r := Some(UploadData(offset, next - offset, done));
    }

    /** Popup's inner loop. */
    method Drain()
      requires Valid()
      modifies `queue, `next
      ensures Valid() && Drained(old(Items()), old(next), Items(), next)
    {
      ghost var before, from := Items(), next;
      while |queue| > 0 && queue[0].offset <= next
        invariant Valid() && from <= next && Chain(before, from, next)
        invariant forall it: UploadData :: Items()[it] <= before[it]
        invariant forall it: UploadData ::
            it.offset > next || (it.offset == next && it.dataBytes > 0) ==> Items()[it] == before[it]
        decreases |queue|
      {
        var item;
        item, queue := HeapPop(queue);
        assert item in before;
        if item.offset < next {
          continue;
        }
        if item.dataBytes > 0 {
          ChainPush(before, from, next, item);
        }
        next := next + item.dataBytes;
      }
      NothingLeftBelow(before, from, queue, next);
    }
  }
}
