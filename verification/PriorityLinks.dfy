/**
 The linked form of the priority tree: parent pointers and doubly linked lists of siblings,
 changed in place by setParent.

 `Fields` is a snapshot of the four link fields of all nodes. What makes the links well
 formed, and that setParent keeps them so, is stated on snapshots; the ghost map K holds
 each node's children in list order.
 */
module PriorityLinks {
  import opened Sequences

  datatype NodeState = Open | Closed | Idle

  class Node {
    const id: nat
    var weight: nat
    var state: NodeState
    var bytes: int
    var subtreeBytes: int
    var parent: Node?
    var kids: Node?
    var prev: Node?
    var next: Node?

    constructor (id: nat, weight: nat, state: NodeState)
      ensures this.id == id && this.weight == weight && this.state == state && bytes == 0
      ensures parent == null && kids == null && prev == null && next == null
    {
      this.id, this.weight, this.state, bytes, subtreeBytes := id, weight, state, 0, 0;
      parent, kids, prev, next := null, null, null, null;
    }
  }

  //
  // Snapshots
  //

  type Link = map<Node, Node?>

  datatype Fields = Fields(parent: Link, kids: Link, prev: Link, next: Link)

  type Kids = map<Node, seq<Node>>

  ghost function Snapshot(all: set<Node>): (f: Fields)
    reads all`parent, all`kids, all`prev, all`next
  {
    Fields(map n | n in all :: n.parent, map n | n in all :: n.kids,
           map n | n in all :: n.prev, map n | n in all :: n.next)
  }

  ghost predicate Total(all: set<Node>, f: Fields) {
    f.parent.Keys == all && f.kids.Keys == all && f.prev.Keys == all && f.next.Keys == all
  }

  ghost function At(s: seq<Node>, i: int): (n: Node?) {
    if 0 <= i < |s| then s[i] else null
  }

  /** The i-th child of p is linked to p and to its neighbours. */
  ghost predicate CellOk(all: set<Node>, f: Fields, p: Node, s: seq<Node>, i: int)
    requires Total(all, f) && 0 <= i < |s|
  {
    s[i] in all && f.parent[s[i]] == p && f.next[s[i]] == At(s, i + 1) && f.prev[s[i]] == At(s, i - 1)
  }

  /** s is the list of children of p: its head, its links both ways, and its parents. */
  ghost predicate ListOk(all: set<Node>, f: Fields, p: Node, s: seq<Node>)
    requires Total(all, f) && p in all
  {
    f.kids[p] == At(s, 0) && NoDup(s) && forall i | 0 <= i < |s| :: CellOk(all, f, p, s, i)
  }

  ghost predicate Linked(all: set<Node>, f: Fields, K: Kids) {
    && Total(all, f) && K.Keys == all
    && (forall p <- all :: ListOk(all, f, p, K[p]))
    && (forall n <- all :: f.parent[n] == null ==> f.prev[n] == null && f.next[n] == null)
    && (forall n <- all :: f.parent[n] != null ==> f.parent[n] in all && n in K[f.parent[n]])
  }

  //
  // setParent on snapshots
  //

  /** The unlinking assignments: n leaves the list of its parent p. */
  ghost function Unlinked(f: Fields, n: Node, p: Node): (r: Fields)
    requires n in f.prev && n in f.next
  {
    var before, after := f.prev[n], f.next[n];
    Fields(f.parent[n := null],
           if before == null then f.kids[p := after] else f.kids,
           (if after == null then f.prev else f.prev[after := before])[n := null],
           (if before == null then f.next else f.next[before := after])[n := null])
  }

  /** The linking assignments: n becomes the first child of p. */
  ghost function LinkedFirst(f: Fields, n: Node, p: Node): (r: Fields)
    requires p in f.kids
  {
    var first := f.kids[p];
    Fields(f.parent[n := p], f.kids[p := n],
           if first == null then f.prev[n := null] else f.prev[n := null][first := n],
           f.next[n := first])
  }

  lemma {:induction false} ParentLinked(f: Fields, n: Node, p: Node)
    requires p in f.kids
    ensures LinkedFirst(f, n, p).parent == f.parent[n := p]
  {
  }

  /** The list n leaves. */
  lemma {:induction false} UnlinkOwnList(all: set<Node>, f: Fields, p: Node, s: seq<Node>, i: nat)
    requires Total(all, f) && p in all && i < |s| && ListOk(all, f, p, s) && s[i] in all
    ensures Total(all, Unlinked(f, s[i], p)) && ListOk(all, Unlinked(f, s[i], p), p, s[..i] + s[i + 1..])
  {
    var g, t := Unlinked(f, s[i], p), s[..i] + s[i + 1..];
    UnlinkHead(all, f, p, s, i);
    hide Unlinked, CellOk;
    forall j | 0 <= j < |t|
      ensures CellOk(all, g, p, t, j)
    {
      UnlinkCell(all, f, p, s, i, if j < i then j else j + 1);
    }
  }

  lemma {:induction false} UnlinkHead(all: set<Node>, f: Fields, p: Node, s: seq<Node>, i: nat)
    requires Total(all, f) && p in all && i < |s| && ListOk(all, f, p, s) && s[i] in all
    ensures var g, t := Unlinked(f, s[i], p), s[..i] + s[i + 1..];
            Total(all, g) && g.kids[p] == At(t, 0) && NoDup(t)
  {
    assert CellOk(all, f, p, s, i);
    assert i > 0 ==> CellOk(all, f, p, s, i - 1);
    assert i + 1 < |s| ==> CellOk(all, f, p, s, i + 1);
  }

  /** A cell other than the i-th, before and after it. */
  lemma {:induction false} UnlinkCell(all: set<Node>, f: Fields, p: Node, s: seq<Node>, i: nat, k: nat)
    requires Total(all, f) && p in all && i < |s| && NoDup(s) && k < |s| && k != i
    requires CellOk(all, f, p, s, i) && CellOk(all, f, p, s, k)
    requires Total(all, Unlinked(f, s[i], p))
    ensures CellOk(all, Unlinked(f, s[i], p), p, s[..i] + s[i + 1..], if k < i then k else k - 1)
  {
    var t, j := s[..i] + s[i + 1..], if k < i then k else k - 1;
    assert t[j] == s[k];
    assert At(t, j + 1) == if k + 1 == i then At(s, k + 2) else At(s, k + 1);
    assert At(t, j - 1) == if k == i + 1 then At(s, k - 2) else At(s, k - 1);
  }

  lemma {:induction false} NeighboursInList(all: set<Node>, f: Fields, K: Kids, n: Node, p: Node) returns (i: nat)
    requires Linked(all, f, K) && n in all && p in all && f.parent[n] == p
    ensures i < |K[p]| && K[p][i] == n
    ensures f.prev[n] != null ==> f.prev[n] in all && f.parent[f.prev[n]] == p
    ensures f.next[n] != null ==> f.next[n] in all && f.parent[f.next[n]] == p
  {
    var s := K[p];
    i :| 0 <= i < |s| && s[i] == n;
    assert ListOk(all, f, p, s);
    assert CellOk(all, f, p, s, i);
    assert i > 0 ==> CellOk(all, f, p, s, i - 1);
    assert i + 1 < |s| ==> CellOk(all, f, p, s, i + 1);
  }

  /** Assignments to nodes of other parents leave a list as it was. */
  lemma {:induction false} ListFrame(all: set<Node>, f: Fields, g: Fields, q: Node, s: seq<Node>)
    requires Total(all, f) && Total(all, g) && q in all && ListOk(all, f, q, s) && g.kids[q] == f.kids[q]
    requires forall m <- all :: f.parent[m] == q ==>
      g.parent[m] == q && g.next[m] == f.next[m] && g.prev[m] == f.prev[m]
    ensures ListOk(all, g, q, s)
  {
    forall i | 0 <= i < |s|
      ensures CellOk(all, g, q, s, i)
    {
      assert CellOk(all, f, q, s, i);
    }
  }

  lemma {:induction false} UnlinkKeepsLists(all: set<Node>, f: Fields, K: Kids, n: Node, p: Node)
    requires Linked(all, f, K) && n in all && p in all && f.parent[n] == p
    ensures Total(all, Unlinked(f, n, p))
    ensures forall q <- all :: ListOk(all, Unlinked(f, n, p), q, K[p := Without(K[p], n)][q])
  {
    var i := NeighboursInList(all, f, K, n, p);
    assert ListOk(all, f, p, K[p]);
    WithoutAt(K[p], i);
    UnlinkOwnList(all, f, p, K[p], i);
    forall q | q in all
      ensures ListOk(all, Unlinked(f, n, p), q, K[p := Without(K[p], n)][q])
    {
      if q != p {
        assert ListOk(all, f, q, K[q]);
        ListFrame(all, f, Unlinked(f, n, p), q, K[q]);
      }
    }
  }

  lemma {:induction false} WithoutKeeps(s: seq<Node>, n: Node, m: Node)
    requires m in s && m != n
    ensures m in Without(s, n)
  {
    if s[0] != m && s[0] != n {
      WithoutKeeps(s[1..], n, m);
    }
  }

  lemma {:induction false} UnlinkKeepsLinked(all: set<Node>, f: Fields, K: Kids, n: Node, p: Node)
    requires Linked(all, f, K) && n in all && p in all && f.parent[n] == p
    ensures Linked(all, Unlinked(f, n, p), K[p := Without(K[p], n)])
  {
    hide ListOk, Without, NoDup;
    var g, L := Unlinked(f, n, p), K[p := Without(K[p], n)];
    var i := NeighboursInList(all, f, K, n, p);
    UnlinkKeepsLists(all, f, K, n, p);
    forall m | m in all && g.parent[m] != null
      ensures g.parent[m] in all && m in L[g.parent[m]]
    {
      if g.parent[m] == p {
        WithoutKeeps(K[p], n, m);
      }
    }
  }

  lemma {:induction false} LinkOwnList(all: set<Node>, f: Fields, p: Node, s: seq<Node>, n: Node)
    requires Total(all, f) && p in all && ListOk(all, f, p, s) && n in all && f.parent[n] != p
    ensures Total(all, LinkedFirst(f, n, p)) && ListOk(all, LinkedFirst(f, n, p), p, [n] + s)
  {
    var g, t := LinkedFirst(f, n, p), [n] + s;
    assert s != [] ==> CellOk(all, f, p, s, 0);
    assert Total(all, g);
    forall j | 0 <= j < |s|
      ensures s[j] != n
    {
      assert CellOk(all, f, p, s, j);
    }
    forall j | 0 <= j < |t|
      ensures CellOk(all, g, p, t, j)
    {
      if j > 0 {
        assert CellOk(all, f, p, s, j - 1);
        assert t[j] == s[j - 1];
      }
    }
  }

  lemma {:induction false} LinkKeepsLists(all: set<Node>, f: Fields, K: Kids, n: Node, p: Node)
    requires Linked(all, f, K) && n in all && p in all && f.parent[n] == null
    ensures Total(all, LinkedFirst(f, n, p))
    ensures forall q <- all :: ListOk(all, LinkedFirst(f, n, p), q, K[p := [n] + K[p]][q])
    ensures K[p] != [] ==> f.kids[p] in all && f.parent[f.kids[p]] == p
    ensures K[p] == [] ==> f.kids[p] == null
  {
    hide ListOk, LinkedFirst;
    var s := K[p];
    assert ListOk(all, f, p, s);
    HeadCell(all, f, p, s);
    LinkOwnList(all, f, p, s, n);
    forall q | q in all
      ensures ListOk(all, LinkedFirst(f, n, p), q, K[p := [n] + K[p]][q])
    {
      if q != p {
        assert ListOk(all, f, q, K[q]);
        LinkOtherList(all, f, p, q, K[q], n);
      }
    }
  }

  lemma {:induction false} HeadCell(all: set<Node>, f: Fields, p: Node, s: seq<Node>)
    requires Total(all, f) && p in all && ListOk(all, f, p, s)
    ensures s != [] ==> f.kids[p] == s[0] && s[0] in all && f.parent[s[0]] == p
    ensures s == [] ==> f.kids[p] == null
  {
    assert s != [] ==> CellOk(all, f, p, s, 0);
  }

  lemma {:induction false} LinkOtherList(all: set<Node>, f: Fields, p: Node, q: Node, s: seq<Node>, n: Node)
    requires Total(all, f) && p in all && q in all && p != q && ListOk(all, f, q, s) && n in all && f.parent[n] == null
    requires f.kids[p] != null ==> f.kids[p] in all && f.parent[f.kids[p]] == p
    requires Total(all, LinkedFirst(f, n, p))
    ensures ListOk(all, LinkedFirst(f, n, p), q, s)
  {
    ListFrame(all, f, LinkedFirst(f, n, p), q, s);
  }

  lemma {:induction false} LinkKeepsLinked(all: set<Node>, f: Fields, K: Kids, n: Node, p: Node)
    requires Linked(all, f, K) && n in all && p in all && f.parent[n] == null
    ensures Linked(all, LinkedFirst(f, n, p), K[p := [n] + K[p]])
  {
    hide ListOk, LinkedFirst;
    LinkKeepsLists(all, f, K, n, p);
    LinkParents(all, f, K, n, p);
  }

  lemma {:induction false} LinkParents(all: set<Node>, f: Fields, K: Kids, n: Node, p: Node)
    requires Linked(all, f, K) && n in all && p in all && f.parent[n] == null && Total(all, LinkedFirst(f, n, p))
    requires K[p] != [] ==> f.kids[p] in all && f.parent[f.kids[p]] == p
    requires K[p] == [] ==> f.kids[p] == null
    ensures var g, L := LinkedFirst(f, n, p), K[p := [n] + K[p]];
            && (forall m <- all :: g.parent[m] == null ==> g.prev[m] == null && g.next[m] == null)
            && (forall m <- all :: g.parent[m] != null ==> g.parent[m] in all && m in L[g.parent[m]])
  {
    hide ListOk;
  }

  ghost predicate Shrunk(f: Fields, g: Fields, n: Node) {
    g.parent == f.parent - {n} && g.kids == f.kids - {n} && g.prev == f.prev - {n} && g.next == f.next - {n}
  }

  lemma {:induction false} ReleaseKeepsList(all: set<Node>, f: Fields, g: Fields, p: Node, s: seq<Node>, n: Node)
    requires Total(all, f) && n in all && Shrunk(f, g, n) && p in all && p != n
    requires ListOk(all, f, p, s) && f.parent[n] == null
    ensures Total(all - {n}, g) && ListOk(all - {n}, g, p, s)
  {
    forall i | 0 <= i < |s|
      ensures CellOk(all - {n}, g, p, s, i)
    {
      assert CellOk(all, f, p, s, i);
    }
  }

  lemma {:induction false} ReleaseKeepsLinked(all: set<Node>, f: Fields, g: Fields, K: Kids, n: Node)
    requires Linked(all, f, K) && n in all && Shrunk(f, g, n) && f.parent[n] == null && K[n] == []
    ensures Linked(all - {n}, g, K - {n})
  {
    forall p | p in all - {n}
      ensures Total(all - {n}, g) && ListOk(all - {n}, g, p, (K - {n})[p])
    {
      ReleaseKeepsList(all, f, g, p, K[p], n);
    }
    assert Total(all - {n}, g);
    hide ListOk;
  }

  /** A list holds exactly the nodes with that parent, from its head on. */
  lemma {:induction false} ListMembers(all: set<Node>, f: Fields, K: Kids, p: Node)
    requires Linked(all, f, K) && p in all
    ensures f.kids[p] == At(K[p], 0) && NoDup(K[p])
    ensures forall k :: k in K[p] <==> k in all && f.parent[k] == p
  {
    assert ListOk(all, f, p, K[p]);
    forall k | k in K[p]
      ensures k in all && f.parent[k] == p
    {
      var i :| 0 <= i < |K[p]| && K[p][i] == k;
      assert CellOk(all, f, p, K[p], i);
    }
  }

  lemma {:induction false} ListNext(all: set<Node>, f: Fields, K: Kids, p: Node, i: nat)
    requires Linked(all, f, K) && p in all && i < |K[p]|
    ensures K[p][i] in all && f.next[K[p][i]] == At(K[p], i + 1)
  {
    assert ListOk(all, f, p, K[p]);
    assert CellOk(all, f, p, K[p], i);
  }

  /** g is f with a node without links. */
  ghost predicate Grown(all: set<Node>, f: Fields, g: Fields, n: Node) {
    && g.parent == f.parent[n := null] && g.kids == f.kids[n := null]
    && g.prev == f.prev[n := null] && g.next == f.next[n := null]
  }

  lemma {:induction false} RegisterKeepsLinked(all: set<Node>, f: Fields, g: Fields, K: Kids, n: Node)
    requires Linked(all, f, K) && n !in all && Grown(all, f, g, n)
    ensures Linked(all + {n}, g, K[n := []])
  {
    hide ListOk;
    RegisterKeepsLists(all, f, g, K, n);
    NoNewParents(all, f, g, K, n);
  }

  lemma {:induction false} RegisterKeepsLists(all: set<Node>, f: Fields, g: Fields, K: Kids, n: Node)
    requires Linked(all, f, K) && n !in all && Grown(all, f, g, n)
    ensures Total(all + {n}, g)
    ensures forall p <- all + {n} :: ListOk(all + {n}, g, p, K[n := []][p])
  {
    forall p | p in all + {n}
      ensures Total(all + {n}, g) && ListOk(all + {n}, g, p, K[n := []][p])
    {
      if p != n {
        RegisterKeepsList(all, f, g, p, K[p], n);
      }
    }
  }

  lemma {:induction false} NoNewParents(all: set<Node>, f: Fields, g: Fields, K: Kids, n: Node)
    requires Linked(all, f, K) && n !in all && Grown(all, f, g, n)
    ensures forall m <- all + {n} :: g.parent[m] == null ==> g.prev[m] == null && g.next[m] == null
    ensures forall m <- all + {n} :: g.parent[m] != null ==> g.parent[m] in all && m in K[n := []][g.parent[m]]
  {
    hide ListOk;
  }

  lemma {:induction false} RegisterKeepsList(all: set<Node>, f: Fields, g: Fields, p: Node, s: seq<Node>, n: Node)
    requires Total(all, f) && n !in all && Grown(all, f, g, n) && p in all && ListOk(all, f, p, s)
    ensures Total(all + {n}, g) && ListOk(all + {n}, g, p, s)
  {
    forall i | 0 <= i < |s|
      ensures CellOk(all + {n}, g, p, s, i)
    {
      assert CellOk(all, f, p, s, i);
    }
  }

  //
  // setParent
  //

  lemma {:induction false} Overwrite(m: Link, n: Node, p: Node?)
    ensures m[n := null][n := p] == m[n := p]
  {
  }

  // Each assignment to a link field changes one entry of the snapshot.

  lemma {:induction false} SnapshotAt(all: set<Node>, n: Node)
    requires n in all
    ensures var f := Snapshot(all);
            && n in f.parent && n in f.kids && n in f.prev && n in f.next
            && f.parent[n] == n.parent && f.kids[n] == n.kids && f.prev[n] == n.prev && f.next[n] == n.next
  {
  }

  lemma {:induction false} SnapshotShrinks(all: set<Node>, n: Node)
    requires n in all
    ensures Shrunk(Snapshot(all), Snapshot(all - {n}), n)
    ensures Snapshot(all - {n}).parent == Snapshot(all).parent - {n}
  {
  }

  lemma {:induction false} SnapshotGrows(all: set<Node>, n: Node)
    requires n !in all && n.parent == null && n.kids == null && n.prev == null && n.next == null
    ensures Grown(all, Snapshot(all), Snapshot(all + {n}), n)
    ensures Snapshot(all + {n}).parent == Snapshot(all).parent[n := null]
  {
  }

  method SetParent(ghost all: set<Node>, n: Node, v: Node?)
    requires n in all
    modifies n`parent
    ensures n.parent == v && Snapshot(all) == old(Snapshot(all)).(parent := old(Snapshot(all)).parent[n := v])
  {
    n.parent := v;
    assert Snapshot(all).parent == old(Snapshot(all)).parent[n := v];
  }

  method SetKids(ghost all: set<Node>, n: Node, v: Node?)
    requires n in all
    modifies n`kids
    ensures n.kids == v && Snapshot(all) == old(Snapshot(all)).(kids := old(Snapshot(all)).kids[n := v])
  {
    n.kids := v;
    assert Snapshot(all).kids == old(Snapshot(all)).kids[n := v];
  }

  method SetPrev(ghost all: set<Node>, n: Node, v: Node?)
    requires n in all
    modifies n`prev
    ensures n.prev == v && Snapshot(all) == old(Snapshot(all)).(prev := old(Snapshot(all)).prev[n := v])
  {
    n.prev := v;
    assert Snapshot(all).prev == old(Snapshot(all)).prev[n := v];
  }

  method SetNext(ghost all: set<Node>, n: Node, v: Node?)
    requires n in all
    modifies n`next
    ensures n.next == v && Snapshot(all) == old(Snapshot(all)).(next := old(Snapshot(all)).next[n := v])
  {
    n.next := v;
    assert Snapshot(all).next == old(Snapshot(all)).next[n := v];
  }

  /** The assignments of setParent that take n out of the list of p. */
  method AssignUnlinked(ghost all: set<Node>, n: Node, p: Node)
    requires n in all && p in all
    requires n.prev != null ==> n.prev in all
    requires n.next != null ==> n.next in all
    modifies all`parent, all`kids, all`prev, all`next
    ensures Snapshot(all) == Unlinked(old(Snapshot(all)), n, p)
  {
    SnapshotAt(all, n);
    hide Snapshot;
    var before, after := n.prev, n.next;
    if before == null {
      SetKids(all, p, after);
    } else {
      SetNext(all, before, after);
    }
    if after != null {
      SetPrev(all, after, before);
    }
    SetParent(all, n, null);
    SetNext(all, n, null);
    SetPrev(all, n, null);
  }

  /** The assignments of setParent that put n at the head of the list of p. */
  method AssignLinkedFirst(ghost all: set<Node>, n: Node, p: Node)
    requires n in all && p in all
    requires p.kids != null ==> p.kids in all
    modifies all`parent, all`kids, all`prev, all`next
    ensures Snapshot(all) == LinkedFirst(old(Snapshot(all)), n, p)
  {
    SnapshotAt(all, p);
    hide Snapshot;
    var first := p.kids;
    SetParent(all, n, p);
    SetNext(all, n, first);
    SetPrev(all, n, null);
    if first != null {
      SetPrev(all, first, n);
    }
    SetKids(all, p, n);
  }

  class Links {
    ghost var all: set<Node>
    ghost var K: Kids

    ghost predicate LinksOk()
      reads this, all`parent, all`kids, all`prev, all`next
    {
      Linked(all, Snapshot(all), K)
    }

    /** Every node's parent. */
    ghost function Par(): (par: Link)
      reads this, all`parent, all`kids, all`prev, all`next
    {
      Snapshot(all).parent
    }

    constructor (root: Node)
      requires root.parent == null && root.kids == null && root.prev == null && root.next == null
      ensures LinksOk() && all == {root} && K == map[root := []] && Par() == map[root := null]
    {
      all, K := {root}, map[root := []];
    }

    /** Takes in a new node without links. */
    ghost method Register(n: Node)
      requires LinksOk() && n !in all
      requires n.parent == null && n.kids == null && n.prev == null && n.next == null
      modifies this
      ensures LinksOk() && all == old(all) + {n} && K == old(K)[n := []] && Par() == old(Par())[n := null]
    {
      hide Snapshot, Linked, Grown;
      SnapshotGrows(all, n);
      RegisterKeepsLinked(all, Snapshot(all), Snapshot(all + {n}), K, n);
      all, K := all + {n}, K[n := []];
    }

    lemma {:induction false} Childless(n: Node)
      requires LinksOk() && n in all && n.kids == null
      ensures n in K && K[n] == []
    {
      ListMembers(all, Snapshot(all), K, n);
    }

    /** Lets go of a node that has neither parent nor children. */
    ghost method Release(n: Node)
      requires LinksOk() && n in all && n.parent == null && n.kids == null
      modifies this
      ensures LinksOk() && all == old(all) - {n} && K == old(K) - {n} && Par() == old(Par()) - {n}
    {
      hide Snapshot, Linked, Shrunk;
      Childless(n);
      SnapshotShrinks(all, n);
      SnapshotAt(all, n);
      ReleaseKeepsLinked(all, Snapshot(all), Snapshot(all - {n}), K, n);
      all, K := all - {n}, K - {n};
    }

    /** What the links say about one node, read off the heap. */
    lemma {:induction false} Members(p: Node)
      requires LinksOk() && p in all
      ensures p in K && p.kids == At(K[p], 0) && NoDup(K[p])
      ensures forall k :: k in K[p] <==> k in all && k.parent == p
    {
      ListMembers(all, Snapshot(all), K, p);
    }

    lemma {:induction false} Head(p: Node)
      requires LinksOk() && p in all
      ensures p in K && p.kids == At(K[p], 0)
    {
      Members(p);
    }

    lemma {:induction false} NextSibling(p: Node, i: nat)
      requires LinksOk() && p in all && p in K && i < |K[p]|
      ensures K[p][i] in all && K[p][i].next == At(K[p], i + 1)
    {
      ListNext(all, Snapshot(all), K, p, i);
    }

    lemma {:induction false} Neighbours(n: Node, p: Node)
      requires LinksOk() && n in all && p in all && n.parent == p
      ensures p in K
      ensures n.prev != null ==> n.prev in all
      ensures n.next != null ==> n.next in all
    {
      var i := NeighboursInList(all, Snapshot(all), K, n, p);
    }

    /** Unlinks n from its current parent. */
    method Unlink(n: Node, p: Node)
      requires LinksOk() && n in all && p in all && n.parent == p
      modifies this`K, all`parent, all`kids, all`prev, all`next
      ensures LinksOk()
      ensures n.parent == null && Par() == old(Par())[n := null] && K == old(K)[p := Without(old(K)[p], n)]
    {
      hide Linked, Without;
      Neighbours(n, p);
      UnlinkKeepsLinked(all, Snapshot(all), K, n, p);
      AssignUnlinked(all, n, p);
      K := K[p := Without(K[p], n)];
      SnapshotAt(all, n);
    }

    lemma {:induction false} FirstChild(n: Node, p: Node)
      requires LinksOk() && n in all && p in all && n.parent == null
      ensures p in K && (p.kids != null ==> p.kids in all)
    {
      LinkKeepsLists(all, Snapshot(all), K, n, p);
    }

    /** Links n, which has no parent, at the head of the children of p. */
    method LinkFirst(n: Node, p: Node)
      requires LinksOk() && n in all && p in all && n.parent == null
      modifies this`K, all`parent, all`kids, all`prev, all`next
      ensures LinksOk()
      ensures Par() == old(Par())[n := p] && K == old(K)[p := [n] + old(K)[p]]
    {
      hide Linked, Snapshot, LinkedFirst;
      FirstChild(n, p);
      SnapshotAt(all, n);
      SnapshotAt(all, p);
      ParentLinked(Snapshot(all), n, p);
      LinkKeepsLinked(all, Snapshot(all), K, n, p);
      AssignLinkedFirst(all, n, p);
      K := K[p := [n] + K[p]];
    }

    /** setParent */
    method SetParent(n: Node, parent: Node?)
      requires LinksOk() && n in all && n != parent && (parent != null ==> parent in all)
      modifies this`K, all`parent, all`kids, all`prev, all`next
      ensures LinksOk() && all == old(all)
      ensures Par() == old(Par())[n := parent] && K == Moved(old(K), n, old(n.parent), parent)
    {
      SnapshotAt(all, n);
      ParentsInside(n);
      hide Snapshot, Linked, Without;
      if n.parent == parent {
        return;
      }
      Overwrite(Par(), n, parent);
      if n.parent != null {
        Unlink(n, n.parent);
      }
      if parent != null {
        LinkFirst(n, parent);
      }
    }

    /** The children of n detached, put in some other order, and linked again. */
    method Resort(n: Node)
      requires LinksOk() && n in all && n.parent != n
      modifies this`K, all`parent, all`kids, all`prev, all`next
      ensures LinksOk() && all == old(all) && Par() == old(Par())
      ensures n in old(K) && n in K && K == old(K)[n := K[n]] && multiset(K[n]) == multiset(old(K)[n])
    {
      hide Linked, Snapshot, Without, Detached;
      Children(n);
      var tmp := Detach(n);
      var r := Swapped(tmp);
      DetachedSame(old(Par()), tmp, r);
      Attach(n, r, old(Par()), old(K));
    }

    /** The first loop: every child leaves the list, and they are kept in order. */
    method Detach(n: Node) returns (tmp: seq<Node>)
      requires LinksOk() && n in all && n.parent != n
      modifies this`K, all`parent, all`kids, all`prev, all`next
      ensures LinksOk() && all == old(all) && n in old(K) && tmp == old(K)[n] && K == old(K)[n := []]
      ensures Par() == Detached(old(Par()), tmp)
    {
      hide Linked, Snapshot, Without, Detached, NoDup, Total;
      Head(n);
      Children(n);
      ghost var s := K[n];
      tmp := [];
      DetachedNone(Par());
      assert K == K[n := s];
      while n.kids != null
        invariant LinksOk() && all == old(all) && n in K && tmp + K[n] == s && K == old(K)[n := K[n]] && n.parent == old(n.parent)
        invariant Par() == Detached(old(Par()), tmp)
        decreases |K[n]|
      {
        ghost var rest := K[n];
        var k := DetachFirst(n);
        DetachedPlus(old(Par()), tmp, k);
        assert tmp + rest == tmp + [k] + rest[1..];
        tmp := tmp + [k];
      }
      Head(n);
    }

    /** One turn of the first loop. */
    method DetachFirst(n: Node) returns (k: Node)
      requires LinksOk() && n in all && n.parent != n && n.kids != null
      modifies this`K, all`parent, all`kids, all`prev, all`next
      ensures LinksOk() && all == old(all) && n in old(K) && old(K)[n] != [] && k == old(K)[n][0] && k in old(Par())
      ensures K == old(K)[n := old(K)[n][1..]] && Par() == old(Par())[k := null] && n.parent == old(n.parent)
    {
      hide Linked, Snapshot, Without, NoDup;
      Head(n);
      k := n.kids;
      ChildOf(n, k);
      FirstOut(K[n]);
      ParentsInside(n);
      ParentsInside(k);
      SetParent(k, null);
      ParentsInside(n);
    }

    lemma {:induction false} Children(n: Node)
      requires LinksOk() && n in all && n.parent != n
      ensures n in K && NoDup(K[n]) && Par().Keys == all
      ensures forall k <- K[n] :: k in all && k != n && k in Par() && Par()[k] == n
    {
      Members(n);
    }

    lemma {:induction false} ChildOf(n: Node, k: Node)
      requires LinksOk() && n in all && n in K && k in K[n] && n.parent != n
      ensures k in all && k.parent == n && k != n
    {
      Members(n);
    }

    /** The second loop: from the last to the first, each becomes the head of the list. */
    method Attach(n: Node, r: seq<Node>, ghost par: Link, ghost kids: Kids)
      requires LinksOk() && n in all && n in kids && K == kids[n := []] && NoDup(r) && Par() == Detached(par, r)
      requires forall k <- r :: k in all && k != n && k in par && par[k] == n
      modifies this`K, all`parent, all`kids, all`prev, all`next
      ensures LinksOk() && all == old(all) && Par() == par && K == kids[n := r]
    {
      hide Linked, Snapshot, Without, Detached, NoDup;
      var i := |r|;
      assert r[..i] == r && r[i..] == [];
      while i > 0
        invariant 0 <= i <= |r| && LinksOk() && all == old(all) && K == kids[n := r[i..]] && Par() == Detached(par, r[..i])
      {
        i := i - 1;
        assert r[i] in r && r[i..] == [r[i]] + r[i + 1..];
        ParentsInside(r[i]);
        DetachedLast(par, r, i);
        SetParent(r[i], n);
      }
      assert r[..0] == [] && r[0..] == r;
      DetachedNone(par);
    }

    lemma {:induction false} ParentsInside(n: Node)
      requires LinksOk() && n in all
      ensures n.parent != null ==> n.parent in all
      ensures K.Keys == all && Par().Keys == all && Par()[n] == n.parent
    {
    }
  }

  /** The parents with those of some nodes forgotten. */
  ghost function Detached(par: Link, s: seq<Node>): (r: Link) {
    map m | m in par :: if m in s then null else par[m]
  }

  lemma {:induction false} DetachedNone(par: Link)
    ensures Detached(par, []) == par
  {
  }

  lemma {:induction false} DetachedSame(par: Link, s: seq<Node>, r: seq<Node>)
    requires forall k :: k in r <==> k in s
    ensures Detached(par, r) == Detached(par, s)
  {
  }

  lemma {:induction false} DetachedPlus(par: Link, s: seq<Node>, k: Node)
    requires k in par
    ensures Detached(par, s)[k := null] == Detached(par, s + [k])
  {
  }

  lemma {:induction false} DetachedLast(par: Link, r: seq<Node>, i: nat)
    requires NoDup(r) && i < |r| && r[i] in par && par[r[i]] != null
    ensures r[i] in Detached(par, r[..i + 1]) && Detached(par, r[..i + 1])[r[i]] == null
    ensures Detached(par, r[..i + 1])[r[i] := par[r[i]]] == Detached(par, r[..i])
  {
    assert r[..i + 1] == r[..i] + [r[i]];
    assert r[i] !in r[..i];
  }

  lemma {:induction false} FirstOut(s: seq<Node>)
    requires s != []
    ensures Without(s, s[0]) == s[1..]
  {
  }

  function Swap(r: seq<Node>, i: nat, j: nat): (t: seq<Node>)
    requires i < |r| && j < |r|
    ensures multiset(t) == multiset(r) && |t| == |r| && (NoDup(r) ==> NoDup(t))
  {
    r[i := r[j]][j := r[i]]
  }

  /** sort.Sort, of which only this is used: it swaps. The order that it is given is not a strict one. */
  method Swapped(s: seq<Node>) returns (r: seq<Node>)
    ensures multiset(r) == multiset(s) && |r| == |s| && (NoDup(s) ==> NoDup(r)) && forall k :: k in r <==> k in s
  {
    r := s;
    hide Swap, NoDup;
    var swaps: nat := *;
    while swaps > 0
      invariant multiset(r) == multiset(s) && |r| == |s| && (NoDup(s) ==> NoDup(r))
    {
      if |r| > 0 {
        var i: nat, j: nat :| i < |r| && j < |r|;
        r := Swap(r, i, j);
      }
      swaps := swaps - 1;
    }
    forall k
      ensures k in r <==> k in s
    {
      assert k in r <==> k in multiset(r);
      assert k in s <==> k in multiset(s);
    }
  }

  /** The children lists after n moves from one parent to another. */
  ghost function Moved(K: Kids, n: Node, from: Node?, to: Node?): (r: Kids)
    requires from != null ==> from in K
    requires to != null ==> to in K
  {
    if from == to then K
    else
      var L := if from == null then K else K[from := Without(K[from], n)];
      if to == null then L else L[to := [n] + L[to]]
  }
}
