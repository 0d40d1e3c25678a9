/** The LIST_* and TAILQ_* macros (include/queue.h) on linked nodes: each implements an
    operation on sequences. */
module Queue {
  /** The address of a pointer to a node: what le_prev, tqe_prev and tqh_last hold. */
  datatype Slot = ListFirst(list: ListHead) | TailFirst(tail: TailHead) | NextOf(node: Node)

  class Node {
    var next: Node?
    var prev: Slot
    constructor (prev: Slot)
      ensures next == null && this.prev == prev
    {
      next, this.prev := null, prev;
    }
  }

  class ListHead {
    var first: Node?
    constructor ()
      ensures first == null
    {
      first := null;
    }
  }

  class TailHead {
    var first: Node?
    var last: Slot
    constructor (uninitialized: Slot)
      ensures first == null && last == uninitialized
    {
      first, last := null, uninitialized;
    }
  }

  function Owner(slot: Slot): object {
    match slot
    case ListFirst(h) => h
    case TailFirst(h) => h
    case NextOf(n) => n
  }

  /** `*slot`. */
  function Load(slot: Slot): Node?
    reads Owner(slot)
  {
    match slot
    case ListFirst(h) => h.first
    case TailFirst(h) => h.first
    case NextOf(n) => n.next
  }

  /** `*slot = x`. */
  method Store(slot: Slot, x: Node?)
    modifies Owner(slot)
    ensures Load(slot) == x
    ensures slot.NextOf? ==> slot.node.prev == old(slot.node.prev)
    ensures slot.TailFirst? ==> slot.tail.last == old(slot.tail.last)
  {
    match slot
    case ListFirst(h) => h.first := x;
    case TailFirst(h) => h.first := x;
    case NextOf(n) => n.next := x;
  }

  /** The nodes s, in order, are linked behind the pointer at `head`. */
  ghost predicate Chain(head: Slot, s: seq<Node>)
    reads Owner(head), s
  {
    && !head.NextOf?
    && Distinct(s)
    && Load(head) == NodeAt(s, 0)
    && (forall i {:trigger s[i].next} :: 0 <= i < |s| ==> s[i].next == NodeAt(s, i + 1))
    && (forall i {:trigger s[i].prev} :: 0 <= i < |s| ==> s[i].prev == SlotAt(head, s, i))
  }

  function NodeAt(s: seq<Node>, i: nat): Node? {
    if i < |s| then s[i] else null
  }

  /** The pointer that leads to position i. */
  function SlotAt(head: Slot, s: seq<Node>, i: nat): Slot
    requires i <= |s|
  {
    if i == 0 then head else NextOf(s[i - 1])
  }

  ghost predicate IsList(h: ListHead, s: seq<Node>)
    reads h, s
  {
    Chain(ListFirst(h), s)
  }

  ghost predicate IsTail(h: TailHead, s: seq<Node>)
    reads h, s
  {
    Chain(TailFirst(h), s) && h.last == SlotAt(TailFirst(h), s, |s|)
  }

  ghost predicate Distinct(s: seq<Node>) {
    forall i, j :: 0 <= i < j < |s| ==> s[i] != s[j]
  }

  /** Pointers as they are after x went between positions k - 1 and k of s make a chain. */
  lemma Spliced(head: Slot, s: seq<Node>, k: nat, x: Node)
    requires !head.NextOf? && Distinct(s) && x !in s && k <= |s|
    requires Load(head) == if k == 0 then x else NodeAt(s, 0)
    requires x.next == NodeAt(s, k) && x.prev == SlotAt(head, s, k)
    requires forall i {:trigger s[i].next} :: 0 <= i < |s| ==> s[i].next == if i + 1 == k then x else NodeAt(s, i + 1)
    requires forall i {:trigger s[i].prev} :: 0 <= i < |s| ==>
      s[i].prev == if i == k then NextOf(x) else SlotAt(head, s, i)
    ensures Chain(head, s[..k] + [x] + s[k..])
  {
    var r := s[..k] + [x] + s[k..];
    forall i | 0 <= i < |r| ensures r[i].next == NodeAt(r, i + 1) && r[i].prev == SlotAt(head, r, i) {
      if i < k { assert r[i] == s[i]; } else if i > k { assert r[i] == s[i - 1]; }
    }
  }

  /** Pointers as they are after position k of s was bridged make a chain of the others. */
  lemma Bridged(head: Slot, s: seq<Node>, k: nat)
    requires !head.NextOf? && Distinct(s) && k < |s|
    requires Load(head) == if k == 0 then NodeAt(s, 1) else NodeAt(s, 0)
    requires forall i {:trigger s[i].next} :: 0 <= i < |s| && i != k ==>
      s[i].next == if i + 1 == k then NodeAt(s, k + 1) else NodeAt(s, i + 1)
    requires forall i {:trigger s[i].prev} :: 0 <= i < |s| && i != k ==>
      s[i].prev == if i == k + 1 then SlotAt(head, s, k) else SlotAt(head, s, i)
    ensures Chain(head, s[..k] + s[k + 1..])
  {
    var r := s[..k] + s[k + 1..];
    forall i | 0 <= i < |r| ensures r[i].next == NodeAt(r, i + 1) && r[i].prev == SlotAt(head, r, i) {
      if i < k { assert r[i] == s[i]; } else { assert r[i] == s[i + 1]; }
    }
  }

  // ---- LIST_* ---------------------------------------------------------------------------

  method ListInsertHead(h: ListHead, elm: Node, ghost s: seq<Node>)
    requires IsList(h, s) && elm !in s
    modifies h, elm, if s == [] then {} else {s[0]}
    ensures IsList(h, [elm] + s)
  {
    elm.next := h.first;
    if elm.next != null {
      h.first.prev := NextOf(elm);
    }
    h.first := elm;
    elm.prev := ListFirst(h);
  }

  /** The element removed is any one of the list; its own fields are left as they are. */
  method ListRemove(elm: Node, ghost h: ListHead, ghost s: seq<Node>, ghost k: nat)
    requires IsList(h, s) && k < |s| && s[k] == elm
    modifies Owner(elm.prev), if k + 1 < |s| then {s[k + 1]} else {}
    ensures IsList(h, s[..k] + s[k + 1..])
  {
    if elm.next != null {
      elm.next.prev := elm.prev;
    }
    Store(elm.prev, elm.next);
    Bridged(ListFirst(h), s, k);
  }

  method ListInsertAfter(listelm: Node, elm: Node, ghost h: ListHead, ghost s: seq<Node>, ghost k: nat)
    requires IsList(h, s) && k < |s| && s[k] == listelm && elm !in s
    modifies listelm, elm, if k + 1 < |s| then {s[k + 1]} else {}
    ensures IsList(h, s[..k + 1] + [elm] + s[k + 1..])
  {
    elm.next := listelm.next;
    if listelm.next != null {
      listelm.next.prev := NextOf(elm);
    }
    listelm.next := elm;
    elm.prev := NextOf(listelm);
    Spliced(ListFirst(h), s, k + 1, elm);
  }

  method ListInsertBefore(listelm: Node, elm: Node, ghost h: ListHead, ghost s: seq<Node>, ghost k: nat)
    requires IsList(h, s) && k < |s| && s[k] == listelm && elm !in s
    modifies listelm, elm, Owner(listelm.prev)
    ensures IsList(h, s[..k] + [elm] + s[k..])
  {
    elm.prev := listelm.prev;
    elm.next := listelm;
    Store(listelm.prev, elm);
    listelm.prev := NextOf(elm);
    Spliced(ListFirst(h), s, k, elm);
  }

  // ---- TAILQ_* ---------------------------------------------------------------------------

  method TailInit(h: TailHead)
    modifies h
    ensures IsTail(h, [])
  {
    h.first := null;
    h.last := TailFirst(h);
  }

  method TailInsertHead(h: TailHead, elm: Node, ghost s: seq<Node>)
    requires IsTail(h, s) && elm !in s
    modifies h, elm, if s == [] then {} else {s[0]}
    ensures IsTail(h, [elm] + s)
  {
    elm.next := h.first;
    if elm.next != null {
      h.first.prev := NextOf(elm);
    } else {
      h.last := NextOf(elm);
    }
    h.first := elm;
    elm.prev := TailFirst(h);
  }

  method TailInsertTail(h: TailHead, elm: Node, ghost s: seq<Node>)
    requires IsTail(h, s) && elm !in s
    modifies h, elm, Owner(h.last)
    ensures IsTail(h, s + [elm])
  {
    elm.next := null;
    elm.prev := h.last;
    Store(h.last, elm);
    h.last := NextOf(elm);
  }

  method TailInsertAfter(h: TailHead, listelm: Node, elm: Node, ghost s: seq<Node>, ghost k: nat)
    requires IsTail(h, s) && k < |s| && s[k] == listelm && elm !in s
    modifies h, listelm, elm, if k + 1 < |s| then {s[k + 1]} else {}
    ensures IsTail(h, s[..k + 1] + [elm] + s[k + 1..])
  {
    elm.next := listelm.next;
    if elm.next != null {
      elm.next.prev := NextOf(elm);
    } else {
      h.last := NextOf(elm);
    }
    listelm.next := elm;
    elm.prev := NextOf(listelm);
    Spliced(TailFirst(h), s, k + 1, elm);
  }

  method TailInsertBefore(listelm: Node, elm: Node, ghost h: TailHead, ghost s: seq<Node>, ghost k: nat)
    requires IsTail(h, s) && k < |s| && s[k] == listelm && elm !in s
    modifies listelm, elm, Owner(listelm.prev)
    ensures IsTail(h, s[..k] + [elm] + s[k..])
  {
    elm.prev := listelm.prev;
    elm.next := listelm;
    Store(listelm.prev, elm);
    listelm.prev := NextOf(elm);
    Spliced(TailFirst(h), s, k, elm);
  }

  method TailRemove(h: TailHead, elm: Node, ghost s: seq<Node>, ghost k: nat)
    requires IsTail(h, s) && k < |s| && s[k] == elm
    modifies h, Owner(elm.prev), if k + 1 < |s| then {s[k + 1]} else {}
    ensures IsTail(h, s[..k] + s[k + 1..])
  {
    if elm.next != null {
      elm.next.prev := elm.prev;
    } else {
      h.last := elm.prev;
    }
    Store(elm.prev, elm.next);
    Bridged(TailFirst(h), s, k);
  }

  lemma JoinedDistinct(s: seq<Node>, t: seq<Node>)
    requires Distinct(s) && Distinct(t) && forall n :: n in s ==> n !in t
    ensures Distinct(s + t)
  {
    forall i, j | 0 <= i < j < |s + t| ensures (s + t)[i] != (s + t)[j] {
      if i < |s| <= j { assert s[i] in s && t[j - |s|] in t; }
    }
  }

  /** s linked from head, its end led on to t. */
  lemma Joined(head: Slot, s: seq<Node>, t: seq<Node>)
    requires !head.NextOf? && t != [] && (forall n :: n in s ==> n !in t)
    requires Distinct(s) && Distinct(t)
    requires Load(head) == if s == [] then t[0] else s[0]
    requires forall i {:trigger s[i].next} :: 0 <= i < |s| ==> s[i].next == if i + 1 < |s| then s[i + 1] else t[0]
    requires forall i {:trigger s[i].prev} :: 0 <= i < |s| ==> s[i].prev == SlotAt(head, s, i)
    requires forall i {:trigger t[i].next} :: 0 <= i < |t| ==> t[i].next == NodeAt(t, i + 1)
    requires forall i {:trigger t[i].prev} :: 0 <= i < |t| ==>
      t[i].prev == if i == 0 then SlotAt(head, s, |s|) else NextOf(t[i - 1])
    ensures Chain(head, s + t) && SlotAt(head, s + t, |s + t|) == NextOf(t[|t| - 1])
  {
    var u := s + t;
    JoinedDistinct(s, t);
    forall i | 0 <= i < |u| ensures u[i].next == NodeAt(u, i + 1) && u[i].prev == SlotAt(head, u, i) {
      if i < |s| { assert u[i] == s[i]; } else { assert u[i] == t[i - |s|]; }
    }
  }

  /** The second list goes behind the first and is left empty. */
  method TailConcat(h1: TailHead, h2: TailHead, ghost s: seq<Node>, ghost t: seq<Node>)
    requires IsTail(h1, s) && IsTail(h2, t) && h1 != h2 && (forall n :: n in s ==> n !in t)
    modifies h1, h2, Owner(h1.last), if t == [] then {} else {t[0]}
    ensures IsTail(h1, s + t) && IsTail(h2, [])
  {
    assert forall i :: 0 <= i < |s| ==> s[i] in s && s[i] !in t;
    if h2.first != null {
      assert t[0] in t && (s != [] ==> forall j :: 0 <= j < |t| ==> t[j] in t && t[j] != s[|s| - 1]);
      Store(h1.last, h2.first);
      h2.first.prev := h1.last;
      h1.last := h2.last;
      TailInit(h2);
      Joined(TailFirst(h1), s, t);
    } else {
      assert t == [] && s + t == s;
    }
  }

  // ---- What the pointers determine ---------------------------------------------------------

  /** A list head leads to one sequence only. */
  lemma {:induction false} ChainIsUnique(head: Slot, s: seq<Node>, t: seq<Node>, k: nat)
    requires Chain(head, s) && Chain(head, t) && k <= |s| && k <= |t| && s[..k] == t[..k]
    ensures s == t
    decreases |s| - k
  {
    if k < |s| {
      assert NodeAt(s, k) == NodeAt(t, k) by {
        if k > 0 {
          assert s[k - 1] == s[..k][k - 1] == t[..k][k - 1] == t[k - 1];
          assert s[k - 1].next == t[k - 1].next;
        }
      }
      assert s[..k + 1] == s[..k] + [s[k]] && t[..k + 1] == t[..k] + [t[k]];
      ChainIsUnique(head, s, t, k + 1);
    } else {
      assert NodeAt(t, k) == null by {
        if k > 0 {
          assert s[k - 1] == s[..k][k - 1] == t[..k][k - 1] == t[k - 1];
          assert s[k - 1].next == t[k - 1].next;
        }
      }
      assert t == t[..k] && s == s[..k];
    }
  }

  /** Two chains either share no node or are the same. */
  lemma {:induction false} ChainsAreDisjoint(head: Slot, s: seq<Node>, head2: Slot, t: seq<Node>, i: nat, j: nat)
    requires Chain(head, s) && Chain(head2, t) && i < |s| && j < |t| && s[i] == t[j]
    ensures head == head2 && s == t
    decreases i
  {
    assert s[i].prev == SlotAt(head, s, i) == SlotAt(head2, t, j);
    if i == 0 {
      ChainIsUnique(head, s, t, 0);
    } else {
      ChainsAreDisjoint(head, s, head2, t, i - 1, j - 1);
    }
  }

  /** TAILQ_FOREACH and LIST_FOREACH visit exactly the nodes of the list, in order. */
  method Foreach(first: Node?, ghost head: Slot, ghost s: seq<Node>) returns (visited: seq<Node>)
    requires Chain(head, s) && first == Load(head)
    ensures visited == s
  {
    visited := [];
    var node := first;
    while node != null
      invariant visited <= s && node == NodeAt(s, |visited|)
      decreases |s| - |visited|
    {
      visited := visited + [node];
      node := node.next;
    }
  }
}
