/**
 The circular lists of `kern/list.h`.  Every list header of the scheduler sits inside a thread
 control block, the sixteen queue heads included, so the blocks are the nodes.
 */
module Ring {
  import opened Threads

  class Tcb {
    const id: nat
    const proc: nat
    var next: Tcb
    var prev: Tcb
    var priority: nat
    var ready: bool
    var quantum: nat
    var context: Context

    /** A header initialised by LIST_HEAD_INIT. */
    constructor (id: nat, proc: nat, priority: nat, context: Context)
      ensures this.id == id && this.proc == proc && this.priority == priority && this.context == context
      ensures quantum == 0 && !ready && next == this && prev == this
    {
      this.id, this.proc, this.priority, this.context := id, proc, priority, context;
      quantum, ready := 0, false;
      next, prev := this, this;
    }
  }

  /** Position `i` of the ring: the head, then the elements. */
  function At(h: Tcb, s: seq<Tcb>, i: int): Tcb {
    if 1 <= i <= |s| then s[i - 1] else h
  }

  predicate Distinct(h: Tcb, s: seq<Tcb>) {
    h !in s && forall i, j | 0 <= i < j < |s| :: s[i] != s[j]
  }

  /** From the head, `next` visits exactly the elements of `s` and returns; `prev` undoes it. */
  ghost predicate Linked(h: Tcb, s: seq<Tcb>)
    reads h, s
  {
    && Distinct(h, s)
    && (forall i | 0 <= i <= |s| :: At(h, s, i).next == At(h, s, i + 1))
    && (forall i | 1 <= i <= |s| + 1 :: At(h, s, i).prev == At(h, s, i - 1))
  }

  lemma AtDistinct(h: Tcb, s: seq<Tcb>, i: int, j: int)
    requires Distinct(h, s) && 0 <= i <= |s| && 0 <= j <= |s| && i != j
    ensures At(h, s, i) != At(h, s, j)
  {}

  function Inserted(s: seq<Tcb>, k: nat, n: Tcb): seq<Tcb>
    requires k <= |s|
  {
    s[..k] + [n] + s[k..]
  }

  function Removed(s: seq<Tcb>, k: nat): seq<Tcb>
    requires k < |s|
  {
    s[..k] + s[k + 1..]
  }

  lemma AtInserted(h: Tcb, s: seq<Tcb>, k: nat, n: Tcb, i: int)
    requires k <= |s| && 0 <= i <= |s| + 2
    ensures At(h, Inserted(s, k, n), i) == if i <= k then At(h, s, i) else if i == k + 1 then n else At(h, s, i - 1)
  {}

  lemma AtRemoved(h: Tcb, s: seq<Tcb>, k: nat, i: int)
    requires k < |s| && 0 <= i <= |s|
    ensures At(h, Removed(s, k), i) == if i <= k then At(h, s, i) else At(h, s, i + 1)
  {}

  /** `list_add`: links `n` in behind the node at position `k`. */
  method ListAdd(n: Tcb, head: Tcb, ghost h: Tcb, ghost s: seq<Tcb>, ghost k: nat)
    requires Linked(h, s) && n != h && n !in s && k <= |s| && head == At(h, s, k)
    modifies n`next, n`prev, head`next, head.next`prev
    ensures Linked(h, Inserted(s, k, n))
  {
    var headNext := head.next;
    assert headNext == At(h, s, k + 1);
    headNext.prev := n;
    head.next := n;
    n.next := headNext;
    n.prev := head;
    ghost var t := Inserted(s, k, n);
    forall i | 0 <= i <= |t| ensures At(h, t, i).next == At(h, t, i + 1) {
      AtInserted(h, s, k, n, i);
      AtInserted(h, s, k, n, i + 1);
      var j := if i <= k then i else i - 1;
      if i != k && i != k + 1 { AtDistinct(h, s, j, k); }
    }
    forall i | 1 <= i <= |t| + 1 ensures At(h, t, i).prev == At(h, t, i - 1) {
      AtInserted(h, s, k, n, i);
      AtInserted(h, s, k, n, i - 1);
      if i != k + 1 && i != k + 2 {
        var j := if i <= k then i else i - 1;
        assert At(h, s, j) != headNext by {
          AtDistinct(h, s, if j == |s| + 1 then 0 else j, if k == |s| then 0 else k + 1);
        }
      }
    }
  }

  /** `list_remove`: unlinks the element at position `k + 1`; on an empty ring, nothing. */
  method ListRemove(n: Tcb, ghost h: Tcb, ghost s: seq<Tcb>, ghost k: nat)
    requires Linked(h, s)
    requires (s == [] && n == h) || (k < |s| && n == s[k])
    modifies n.next`prev, n.prev`next
    ensures s == [] ==> Linked(h, s)
    ensures s != [] ==> Linked(h, Removed(s, k))
  {
    assert At(h, s, 0).next == At(h, s, 1) && At(h, s, |s| + 1).prev == At(h, s, |s|);
    assert s != [] ==> n == At(h, s, k + 1) && n.next == At(h, s, k + 2) && n.prev == At(h, s, k);
    n.next.prev := n.prev;
    n.prev.next := n.next;
    if s != [] {
      ghost var t := Removed(s, k);
      forall i | 0 <= i <= |t| ensures At(h, t, i).next == At(h, t, i + 1) { NextRemoved(h, s, k, i); }
      forall i | 1 <= i <= |t| + 1 ensures At(h, t, i).prev == At(h, t, i - 1) { PrevRemoved(h, s, k, i); }
    }
  }

  /** A link of the shorter ring is a link of the longer one whose source stays, or the new link. */
  lemma NextRemoved(h: Tcb, s: seq<Tcb>, k: nat, i: nat)
    requires Distinct(h, s) && k < |s| && i < |s|
    ensures var t, j := Removed(s, k), if i < k then i else i + 1;
            if i == k then At(h, t, i) == At(h, s, k) && At(h, t, i + 1) == At(h, s, k + 2)
            else At(h, t, i) == At(h, s, j) && At(h, t, i + 1) == At(h, s, j + 1) && At(h, s, j) != At(h, s, k)
  {
    AtRemoved(h, s, k, i);
    AtRemoved(h, s, k, i + 1);
    if i != k { AtDistinct(h, s, if i < k then i else i + 1, k); }
  }

  lemma PrevRemoved(h: Tcb, s: seq<Tcb>, k: nat, i: nat)
    requires Distinct(h, s) && k < |s| && 1 <= i <= |s|
    ensures var t, j := Removed(s, k), if i <= k then i else i + 1;
            if i == k + 1 then At(h, t, i) == At(h, s, k + 2) && At(h, t, i - 1) == At(h, s, k)
            else At(h, t, i) == At(h, s, j) && At(h, t, i - 1) == At(h, s, j - 1) && At(h, s, j) != At(h, s, k + 2)
  {
    AtRemoved(h, s, k, i);
    AtRemoved(h, s, k, i - 1);
    if i != k + 1 {
      var j := if i <= k then i else i + 1;
      AtDistinct(h, s, if j == |s| + 1 then 0 else j, if k + 1 == |s| then 0 else k + 2);
    }
  }

  /** `list_is_empty`. */
  method ListIsEmpty(h: Tcb, ghost s: seq<Tcb>) returns (empty: bool)
    requires Linked(h, s)
    ensures empty <==> s == []
  {
    assert At(h, s, 0).next == At(h, s, 1);
    empty := h.next == h && h.prev == h;
  }

  /** `list_next`: pops the first element; on an empty ring it returns the head. */
  method ListNext(h: Tcb, ghost s: seq<Tcb>) returns (n: Tcb)
    requires Linked(h, s)
    modifies h`next, h.next.next`prev
    ensures n == At(h, s, 1)
    ensures s == [] ==> Linked(h, s)
    ensures s != [] ==> Linked(h, s[1..])
  {
    n := h.next;
    assert At(h, s, 0).next == At(h, s, 1);
    assert At(h, s, 1).prev == At(h, s, 0);
    ListRemove(n, h, s, 0);
    assert s != [] ==> Removed(s, 0) == s[1..];
  }
}
