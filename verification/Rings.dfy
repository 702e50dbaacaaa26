/**
 Circular lists of queues. As for the priority tree, what the links of a ring must satisfy,
 and that insertion, removal and turning keep it, is stated on snapshots of the link fields.
 */
module Rings {
  import opened Sequences
  import opened WriteQueues

  type Link = map<WriteQueue, WriteQueue?>

  datatype Links = Links(next: Link, prev: Link)

  ghost function Snapshot(all: set<WriteQueue>): (f: Links)
    reads all`next, all`prev
  {
    Links(map q | q in all :: q.next, map q | q in all :: q.prev)
  }

  ghost predicate Total(all: set<WriteQueue>, f: Links) {
    f.next.Keys == all && f.prev.Keys == all
  }

  ghost function Succ(s: seq<WriteQueue>, i: int): (q: WriteQueue)
    requires 0 <= i < |s|
  {
    if i + 1 < |s| then s[i + 1] else s[0]
  }

  ghost function Pred(s: seq<WriteQueue>, i: int): (q: WriteQueue)
    requires 0 <= i < |s|
  {
    if i > 0 then s[i - 1] else s[|s| - 1]
  }

  ghost predicate CellOk(all: set<WriteQueue>, f: Links, s: seq<WriteQueue>, i: int)
    requires Total(all, f) && 0 <= i < |s|
  {
    s[i] in all && f.next[s[i]] == Succ(s, i) && f.prev[s[i]] == Pred(s, i)
  }

  /** The queues from head along next, and back along prev, are exactly s. */
  ghost predicate IsRing(all: set<WriteQueue>, f: Links, head: WriteQueue?, s: seq<WriteQueue>) {
    && Total(all, f) && NoDup(s)
    && head == (if s == [] then null else s[0])
    && forall i | 0 <= i < |s| :: CellOk(all, f, s, i)
  }

  /** Assignments to queues outside a ring leave it as it was. */
  lemma {:induction false} RingFrame(all: set<WriteQueue>, f: Links, g: Links, head: WriteQueue?, s: seq<WriteQueue>)
    requires IsRing(all, f, head, s) && Total(all, g)
    requires forall q <- all :: q in s ==> g.next[q] == f.next[q] && g.prev[q] == f.prev[q]
    ensures IsRing(all, g, head, s)
  {
    forall i | 0 <= i < |s|
      ensures CellOk(all, g, s, i)
    {
      assert CellOk(all, f, s, i);
      assert s[i] in s;
    }
  }

  lemma {:induction false} HeadFacts(all: set<WriteQueue>, f: Links, head: WriteQueue, s: seq<WriteQueue>)
    requires IsRing(all, f, head, s)
    ensures s != [] && head == s[0] && head in all && f.prev[head] == s[|s| - 1] && s[|s| - 1] in all
  {
    assert CellOk(all, f, s, 0);
    assert CellOk(all, f, s, |s| - 1);
  }

  lemma {:induction false} CellFacts(all: set<WriteQueue>, f: Links, head: WriteQueue?, s: seq<WriteQueue>, i: nat)
    requires IsRing(all, f, head, s) && i < |s|
    ensures s[i] in all && f.next[s[i]] == Succ(s, i) && f.prev[s[i]] == Pred(s, i)
    ensures Succ(s, i) in all && Pred(s, i) in all
    ensures Succ(s, i) == s[i] <==> |s| == 1
    ensures Succ(s, i) == head <==> i + 1 == |s|
  {
    assert CellOk(all, f, s, i);
    assert CellOk(all, f, s, if i + 1 < |s| then i + 1 else 0);
    assert CellOk(all, f, s, if i > 0 then i - 1 else |s| - 1);
  }

  //
  // Insertion before the head
  //

  ghost function Inserted(f: Links, head: WriteQueue?, q: WriteQueue): (g: Links)
    requires head != null ==> head in f.prev && f.prev[head] != null
  {
    if head == null then Links(f.next[q := q], f.prev[q := q])
    else
      var last := f.prev[head];
      Links(f.next[q := head][last := q], f.prev[q := last][head := q])
  }

  lemma {:induction false} InsertedIsRing(all: set<WriteQueue>, f: Links, head: WriteQueue?, s: seq<WriteQueue>, q: WriteQueue)
    requires IsRing(all, f, head, s) && q in all && q !in s
    ensures head != null ==> head in all && f.prev[head] != null && f.prev[head] in all
    ensures IsRing(all, Inserted(f, head, q), if head == null then q else head, s + [q])
    ensures forall x <- all :: x != q && x !in s ==>
      Inserted(f, head, q).next[x] == f.next[x] && Inserted(f, head, q).prev[x] == f.prev[x]
  {
    if s != [] {
      HeadFacts(all, f, head, s);
      forall i | 0 <= i <= |s|
        ensures CellOk(all, Inserted(f, head, q), s + [q], i)
      {
        if i < |s| {
          InsertedCell(all, f, head, s, q, i);
        }
      }
    } else {
      assert CellOk(all, Inserted(f, head, q), [q], 0);
    }
  }

  lemma {:induction false} InsertedCell(all: set<WriteQueue>, f: Links, head: WriteQueue, s: seq<WriteQueue>, q: WriteQueue, i: nat)
    requires IsRing(all, f, head, s) && q in all && q !in s && s != [] && i < |s| && head in all && f.prev[head] == s[|s| - 1]
    requires Total(all, Inserted(f, head, q))
    ensures CellOk(all, Inserted(f, head, q), s + [q], i)
  {
    assert CellOk(all, f, s, i);
  }

  //
  // Removal
  //

  ghost function Removed(f: Links, q: WriteQueue): (g: Links)
    requires q in f.next && q in f.prev && f.next[q] != null && f.prev[q] != null
  {
    if f.next[q] == q then f else Links(f.next[f.prev[q] := f.next[q]], f.prev[f.next[q] := f.prev[q]])
  }

  ghost function HeadAfterRemoval(f: Links, head: WriteQueue?, q: WriteQueue): (h: WriteQueue?)
    requires q in f.next
  {
    if f.next[q] == q then null else if head == q then f.next[q] else head
  }

  lemma {:induction false} RemovedIsRing(all: set<WriteQueue>, f: Links, head: WriteQueue?, s: seq<WriteQueue>, i: nat)
    requires IsRing(all, f, head, s) && i < |s|
    ensures s[i] in all && f.next[s[i]] != null && f.prev[s[i]] != null && f.next[s[i]] in all && f.prev[s[i]] in all
    ensures IsRing(all, Removed(f, s[i]), HeadAfterRemoval(f, head, s[i]), s[..i] + s[i + 1..])
    ensures forall x <- all :: x !in s ==> Removed(f, s[i]).next[x] == f.next[x] && Removed(f, s[i]).prev[x] == f.prev[x]
  {
    CellFacts(all, f, head, s, i);
    var t := s[..i] + s[i + 1..];
    RemovedHead(all, f, head, s, i);
    forall j | 0 <= j < |t|
      ensures CellOk(all, Removed(f, s[i]), t, j)
    {
      RemovedCell(all, f, head, s, i, if j < i then j else j + 1);
    }
    hide Removed, HeadAfterRemoval, CellOk;
  }

  lemma {:induction false} RemovedHead(all: set<WriteQueue>, f: Links, head: WriteQueue?, s: seq<WriteQueue>, i: nat)
    requires IsRing(all, f, head, s) && i < |s| && s[i] in all
    requires f.next[s[i]] == Succ(s, i) && f.prev[s[i]] == Pred(s, i) && Succ(s, i) in all && Pred(s, i) in all
    requires Succ(s, i) == s[i] <==> |s| == 1
    ensures var t := s[..i] + s[i + 1..];
            && Total(all, Removed(f, s[i])) && NoDup(t)
            && HeadAfterRemoval(f, head, s[i]) == (if t == [] then null else t[0])
            && forall x <- all :: x !in s ==> Removed(f, s[i]).next[x] == f.next[x] && Removed(f, s[i]).prev[x] == f.prev[x]
  {
    hide CellOk;
    assert Succ(s, i) in s && Pred(s, i) in s;
  }

  lemma {:induction false} RemovedCell(all: set<WriteQueue>, f: Links, head: WriteQueue?, s: seq<WriteQueue>, i: nat, k: nat)
    requires IsRing(all, f, head, s) && i < |s| && k < |s| && k != i && s[i] in all
    requires f.next[s[i]] == Succ(s, i) && f.prev[s[i]] == Pred(s, i) && Total(all, Removed(f, s[i]))
    ensures CellOk(all, Removed(f, s[i]), s[..i] + s[i + 1..], if k < i then k else k - 1)
  {
    assert CellOk(all, f, s, k);
    var t, j := s[..i] + s[i + 1..], if k < i then k else k - 1;
    assert t[j] == s[k];
    NeighboursAfterRemoval(s, i, k);
  }

  lemma {:induction false} NeighboursAfterRemoval(s: seq<WriteQueue>, i: nat, k: nat)
    requires NoDup(s) && i < |s| && k < |s| && k != i
    ensures var t, j := s[..i] + s[i + 1..], if k < i then k else k - 1;
            && Succ(t, j) == (if Succ(s, k) == s[i] then Succ(s, i) else Succ(s, k))
            && Pred(t, j) == (if Pred(s, k) == s[i] then Pred(s, i) else Pred(s, k))
            && (Succ(s, k) == s[i] <==> s[k] == Pred(s, i)) && (Pred(s, k) == s[i] <==> s[k] == Succ(s, i))
  {
  }

  //
  // Turning
  //

  /** Any queue of a ring may be its head. */
  lemma {:induction false} TurnedIsRing(all: set<WriteQueue>, f: Links, head: WriteQueue?, s: seq<WriteQueue>, i: nat)
    requires IsRing(all, f, head, s) && i < |s|
    ensures IsRing(all, f, s[i], s[i..] + s[..i])
  {
    var t := s[i..] + s[..i];
    forall j | 0 <= j < |t|
      ensures CellOk(all, f, t, j)
    {
      assert CellOk(all, f, s, if i + j < |s| then i + j else i + j - |s|);
    }
  }

  //
  // The assignments
  //

  method SetNext(ghost all: set<WriteQueue>, q: WriteQueue, v: WriteQueue?)
    requires q in all
    modifies q`next
    ensures Snapshot(all) == old(Snapshot(all)).(next := old(Snapshot(all)).next[q := v]) && q.next == v
  {
    q.next := v;
    assert Snapshot(all).next == old(Snapshot(all)).next[q := v];
  }

  method SetPrev(ghost all: set<WriteQueue>, q: WriteQueue, v: WriteQueue?)
    requires q in all
    modifies q`prev
    ensures Snapshot(all) == old(Snapshot(all)).(prev := old(Snapshot(all)).prev[q := v]) && q.prev == v
  {
    q.prev := v;
    assert Snapshot(all).prev == old(Snapshot(all)).prev[q := v];
  }

  lemma {:induction false} SnapshotAt(all: set<WriteQueue>, q: WriteQueue)
    requires q in all
    ensures q in Snapshot(all).next && Snapshot(all).next[q] == q.next && q in Snapshot(all).prev && Snapshot(all).prev[q] == q.prev
  {
  }

  /** Puts q last in the ring of head. */
  method InsertLast(ghost all: set<WriteQueue>, head: WriteQueue?, q: WriteQueue, ghost s: seq<WriteQueue>) returns (newHead: WriteQueue)
    requires q in all && q !in s && IsRing(all, Snapshot(all), head, s)
    modifies all`next, all`prev
    ensures IsRing(all, Snapshot(all), newHead, s + [q])
    ensures forall x <- all :: x != q && x !in s ==> x.next == old(x.next) && x.prev == old(x.prev)
  {
    ghost var f := Snapshot(all);
    InsertedIsRing(all, f, head, s, q);
    if head == null {
      newHead := q;
      SetNext(all, q, q);
      SetPrev(all, q, q);
    } else {
      newHead := head;
      SetPrev(all, q, head.prev);
      SetNext(all, q, head);
      SetNext(all, q.prev, q);
      SetPrev(all, q.next, q);
    }
    assert Snapshot(all) == Inserted(f, head, q);
  }

  /** Takes the i-th queue out of the ring of head. */
  method Remove(ghost all: set<WriteQueue>, head: WriteQueue?, q: WriteQueue, ghost s: seq<WriteQueue>, ghost i: nat) returns (newHead: WriteQueue?)
    requires i < |s| && q == s[i] && IsRing(all, Snapshot(all), head, s)
    modifies all`next, all`prev
    ensures IsRing(all, Snapshot(all), newHead, s[..i] + s[i + 1..])
    ensures forall x <- all :: x !in s ==> x.next == old(x.next) && x.prev == old(x.prev)
  {
    ghost var f := Snapshot(all);
    RemovedIsRing(all, f, head, s, i);
    newHead := head;
    if q.next == q {
      newHead := null;
    } else {
      SetNext(all, q.prev, q.next);
      SetPrev(all, q.next, q.prev);
      if head == q {
        newHead := q.next;
      }
    }
    assert Snapshot(all) == Removed(f, q);
  }
}
