/**
 The stream operations of the RFC 7540 scheduler on the linked priority tree. Every one of
 them keeps a tree rooted at stream 0 that holds exactly the streams of the nodes map; what
 each does to the dependencies is said with the functions of PriorityModel.
 */
module PriorityScheduler {
  import opened Sequences
  import opened PriorityModel
  import opened PriorityLinks
  import opened PriorityLife

  const DEFAULT_WEIGHT := 15

  type NodeMap = map<nat, Node>

  //
  // The nodes map and the links, as values
  //

  /** The nodes map holds exactly the linked nodes, and all but the root have a parent. */
  ghost predicate Matches(all: set<Node>, par: Link, nodes: NodeMap, root: Node) {
    && par.Keys == all
    && (forall id <- nodes :: nodes[id] in all && nodes[id].id == id)
    && (forall n <- all :: n.id in nodes && nodes[n.id] == n)
    && 0 in nodes && nodes[0] == root && par[root] == null
    && (forall n <- all :: n != root ==> par[n] != null && par[n] in all)
  }

  /** Each stream's parent. */
  ghost function ParentsOf(nodes: NodeMap, par: Link): (r: Parents) {
    map id | id in nodes && nodes[id] in par && par[nodes[id]] != null :: par[nodes[id]].id
  }

  lemma {:induction false} InsertMatches(all: set<Node>, par: Link, nodes: NodeMap, root: Node, n: Node, p: Node)
    requires Matches(all, par, nodes, root) && n !in all && n.id !in nodes && p in all
    ensures Matches(all + {n}, par[n := p], nodes[n.id := n], root)
    ensures ParentsOf(nodes[n.id := n], par[n := p]) == ParentsOf(nodes, par)[n.id := p.id]
  {
  }

  lemma {:induction false} SingleMatches(root: Node, par: Link)
    requires par == map[root := null] && root.id == 0
    ensures Matches({root}, par, map[0 := root], root) && ParentsOf(map[0 := root], par) == map[]
  {
  }

  lemma {:induction false} SingleOrderly(root: Node)
    requires root.id == 0
    ensures Ids([]) == [] && StatesOf(map[0 := root]) == map[0 := root.state] && Orderly(Streams(map[0 := root.state], [], [], 0))
  {
  }

  lemma {:induction false} MoveMatches(all: set<Node>, par: Link, nodes: NodeMap, root: Node, n: Node, p: Node)
    requires Matches(all, par, nodes, root) && n in all && n != root && p in all
    ensures Matches(all, par[n := p], nodes, root)
    ensures ParentsOf(nodes, par[n := p]) == ParentsOf(nodes, par)[n.id := p.id]
  {
  }

  lemma {:induction false} DropMatches(all: set<Node>, par: Link, nodes: NodeMap, root: Node, n: Node)
    requires Matches(all, par, nodes, root) && n in all && n != root
    requires forall m <- all :: par[m] != n
    ensures Matches(all - {n}, par[n := null] - {n}, nodes - {n.id}, root)
    ensures ParentsOf(nodes - {n.id}, par[n := null] - {n}) == ParentsOf(nodes, par) - {n.id}
  {
  }

  lemma {:induction false} ParentsKeys(all: set<Node>, par: Link, nodes: NodeMap, root: Node)
    requires Matches(all, par, nodes, root)
    ensures ParentsOf(nodes, par).Keys == nodes.Keys - {0}
    ensures forall n <- all :: n != root ==> n.id != 0 && ParentsOf(nodes, par)[n.id] == par[n].id
  {
  }

  //
  // The scheduler
  //

  class Scheduler {
    const root: Node
    const links: Links
    const maxClosedNodesInTree: int
    const maxIdleNodesInTree: int
    const enableWriteThrottle: bool
    var writeThrottleLimit: int
    var nodes: NodeMap
    var maxID: nat
    var closedNodes: seq<Node>
    var idleNodes: seq<Node>
    ghost var rank: map<nat, nat>

    ghost function Parents(): (par: Parents)
      reads this, links, links.all`parent, links.all`kids, links.all`prev, links.all`next
    {
      ParentsOf(nodes, links.Par())
    }

    /** Links and nodes map agree; says nothing about cycles. */
    ghost predicate Shape()
      reads this, links, links.all`parent, links.all`kids, links.all`prev, links.all`next
    {
      links.LinksOk() && Matches(links.all, links.Par(), nodes, root)
    }

    /** The tree: the parents of every stream lead to stream 0. */
    ghost predicate Tree()
      reads this, links, links.all`parent, links.all`kids, links.all`prev, links.all`next
    {
      Shape() && Ranked(Parents(), rank)
    }

    /** NewPriorityWriteScheduler */
    constructor (maxClosed: int, maxIdle: int, throttle: bool)
      ensures Valid() && fresh(links) && fresh(links.all) && Parents() == map[] && View() == Streams(map[0 := Open], [], [], 0)
      ensures Limit() == Limits(maxClosed, maxIdle)
    {
      hide Matches, ParentsOf, Linked, Snapshot, Orderly, Ids, StatesOf;
      var r := new Node(0, 0, Open);
      root := r;
      maxClosedNodesInTree, maxIdleNodesInTree := maxClosed, maxIdle;
      enableWriteThrottle, writeThrottleLimit := throttle, if throttle then 1024 else MAX_INT32;
      links := new Links(r);
      nodes, maxID, closedNodes, idleNodes := map[0 := r], 0, [], [];
      rank := map[0 := 0];
      new;
      SingleMatches(root, links.Par());
      SingleOrderly(root);
    }

    /** A new node below p, as OpenStream and AdjustStream make them. */
    method Insert(id: nat, p: Node, state: NodeState) returns (n: Node)
      requires Tree() && id !in nodes && p in links.all
      modifies this`nodes, this`rank, links, links.all`parent, links.all`kids, links.all`prev, links.all`next
      ensures Tree()
      ensures fresh(n) && links.all == old(links.all) + {n} && n.id == id && n.weight == DEFAULT_WEIGHT && n.state == state
      ensures nodes == old(nodes)[id := n] && Parents() == old(Parents())[id := p.id]
    {
      hide Matches, ParentsOf, Linked, Snapshot, Ranked;
      InsertRank(id, p);
      ghost var par, all := links.Par(), links.all;
      n := new Node(id, DEFAULT_WEIGHT, state);
      InsertMatches(all, par, nodes, root, n, p);
      Overwrite(par, n, p);
      links.Register(n);
      links.SetParent(n, p);
      nodes := nodes[id := n];
      rank := LeafKeepsTree(old(Parents()), rank, id, p.id);
    }

    lemma {:induction false} InsertRank(id: nat, p: Node)
      requires Tree() && id !in nodes && p in links.all
      ensures id !in rank && p.id in rank && links.Par().Keys == links.all
    {
      ParentsKeys(links.all, links.Par(), nodes, root);
    }

    /** setParent of a node that stays in the tree. */
    method Move(n: Node, p: Node)
      requires Shape() && n in links.all && n != root && p in links.all && n != p
      modifies links`K, links.all`parent, links.all`kids, links.all`prev, links.all`next
      ensures Shape() && Parents() == old(Parents())[n.id := p.id]
      ensures links.all == old(links.all) && links.Par() == old(links.Par())[n := p]
      ensures links.K == Moved(old(links.K), n, old(n.parent), p)
    {
      MoveMatches(links.all, links.Par(), nodes, root, n, p);
      hide Matches, ParentsOf;
      links.SetParent(n, p);
    }

    //
    // removeNode
    //

    /** The head of a list of children. */
    lemma {:induction false} FirstKid(n: Node)
      requires Shape() && n in links.all
      ensures n in links.K
      ensures n.kids == null ==> links.K[n] == []
      ensures n.kids != null ==> links.K[n] != [] && links.K[n][0] == n.kids && n.kids in links.all && n.kids.parent == n && n.kids != root
    {
      links.Members(n);
      if n.kids != null {
        assert n.kids in links.K[n];
        links.ParentsInside(root);
      }
    }

    /** The loop of removeNode: gives every child of n to its parent p. */
    method HandOver(n: Node, p: Node)
      requires Shape() && n in links.all && n != root && n.parent == p && p in links.all && p != n && p.parent != n
      modifies links`K, links.all`parent, links.all`kids, links.all`prev, links.all`next
      ensures Shape() && links.all == old(links.all) && n.parent == p && n.kids == null
      ensures Parents() == HandedAll(old(Parents()), n.id, p.id)
    {
      hide Matches, ParentsOf, Linked, Snapshot, Without, HandedAll, Handed;
      ghost var before := Parents();
      ChildrenIds(n, p);
      FirstKid(n);
      ghost var s := links.K[n];
      ghost var i := 0;
      while n.kids != null
        invariant Shape() && links.all == old(links.all) && n.parent == p && n in links.K
        invariant 0 <= i <= |s| && links.K[n] == s[i..] && Parents() == Handed(before, s[..i], p.id)
        decreases |s| - i
      {
        FirstKid(n);
        links.ParentsInside(n);
        var k := n.kids;
        HandedStep(before, s, i, p.id);
        FirstOut(s[i..]);
        Move(k, p);
        links.ParentsInside(n);
        i := i + 1;
      }
      FirstKid(n);
      assert s[..i] == s;
    }

    /** The children of n are the streams whose parent it is; its parent is not one of them. */
    lemma {:induction false} ChildrenIds(n: Node, p: Node)
      requires Shape() && n in links.all && n != root && n.parent == p && p in links.all && p.parent != n
      ensures n in links.K && p !in links.K[n]
      ensures forall k <- links.K[n] :: k.id in Parents()
      ensures Handed(Parents(), links.K[n], p.id) == HandedAll(Parents(), n.id, p.id)
      ensures Handed(Parents(), [], p.id) == Parents()
    {
      links.Members(n);
      ParentFields();
      hide Matches, ParentsOf, Linked, Snapshot, HandedAll, Handed;
      HandedChildren(links.all, links.Par(), nodes, root, n, links.K[n], p.id);
      HandedNone(Parents(), p.id);
    }

    lemma {:induction false} ParentFields()
      requires links.LinksOk()
      ensures links.Par().Keys == links.all && forall n <- links.all :: links.Par()[n] == n.parent
    {
    }

    /** What the tree says about one node other than the root. */
    lemma {:induction false} NodeFacts(n: Node)
      requires Tree() && n in links.all && n != root
      ensures n.parent != null && n.parent in links.all && n.parent != n && n.parent.parent != n
      ensures n.id in Parents() && Parents()[n.id] == n.parent.id && n.parent.id != n.id && n.id in nodes
    {
      ParentFields();
      ParentsKeys(links.all, links.Par(), nodes, root);
    }

    lemma {:induction false} NoChildren(n: Node)
      requires Shape() && n in links.all && n.kids == null
      ensures n in links.K && links.K[n] == [] && forall m <- links.all :: links.Par()[m] != n
    {
      links.Members(n);
      ParentFields();
    }

    /** removeNode on a node of the tree: its children go to its parent. */
    method RemoveLive(n: Node)
      requires Tree() && n in links.all && n != root
      modifies this`nodes, this`rank, links, links.all`parent, links.all`kids, links.all`prev, links.all`next
      ensures Tree() && links.all == old(links.all) - {n} && nodes == old(nodes) - {n.id}
      ensures n.parent == null && n.kids == null
      ensures n.id in old(Parents()) && Parents() == Removed(old(Parents()), n.id)
    {
      hide Matches, ParentsOf, Linked, Snapshot, Ranked, Without, Removed, HandedAll;
      NodeFacts(n);
      rank := RemoveKeepsTree(Parents(), rank, n.id);
      HandOver(n, n.parent);
      TakeOut(n);
      RemovedIsHanded(old(Parents()), n.id);
    }

    /** The end of removeNode. */
    method TakeOut(n: Node)
      requires Shape() && n in links.all && n != root && n.kids == null && n.parent != n
      modifies this`nodes, links, links.all`parent, links.all`kids, links.all`prev, links.all`next
      ensures Shape() && links.all == old(links.all) - {n} && nodes == old(nodes) - {n.id}
      ensures n.parent == null && n.kids == null
      ensures Parents() == old(Parents()) - {n.id}
    {
      hide Matches, ParentsOf, Linked, Snapshot, Without;
      NoChildren(n);
      DropMatches(links.all, links.Par(), nodes, root, n);
      links.SetParent(n, null);
      links.ParentsInside(n);
      links.Head(n);
      links.Release(n);
      nodes := nodes - {n.id};
    }

    //
    // The reprioritization of AdjustStream
    //

    /** The search of AdjustStream: whether q depends on n. */
    method DependsOn(q: Node, n: Node) returns (found: bool)
      requires Tree() && n in links.all && q in links.all && q != n
      ensures q.id in rank && found == Below(Parents(), rank, q.id, n.id)
    {
      hide Matches, ParentsOf, Linked, Snapshot, Below;
      RankOf(q);
      BelowStep(q, n);
      var x := q.parent;
      found := false;
      while x != null && !found
        invariant x != null ==> x in links.all && x.id in rank
        invariant !found ==> (Below(Parents(), rank, q.id, n.id) <==> x != null && Below(Parents(), rank, x.id, n.id))
        invariant found ==> Below(Parents(), rank, q.id, n.id)
        decreases !found, if x == null then 0 else rank[x.id] + 1
      {
        BelowStep(x, n);
        if x == n {
          found := true;
        } else {
          x := x.parent;
        }
      }
    }

    lemma {:induction false} RankOf(x: Node)
      requires Tree() && x in links.all
      ensures x.id in rank
    {
      ParentsKeys(links.all, links.Par(), nodes, root);
    }

    lemma {:induction false} BelowStep(x: Node, n: Node)
      requires Tree() && n in links.all && x in links.all
      ensures x.id in rank
      ensures x == n ==> Below(Parents(), rank, x.id, n.id)
      ensures x != n && x.parent == null ==> !Below(Parents(), rank, x.id, n.id)
      ensures x != n && x.parent != null ==>
        x.parent in links.all && x.parent.id in rank && rank[x.parent.id] < rank[x.id]
        && (Below(Parents(), rank, x.id, n.id) <==> Below(Parents(), rank, x.parent.id, n.id))
    {
      ParentFields();
      ParentsKeys(links.all, links.Par(), nodes, root);
      if x != root {
        NodeFacts(x);
      }
      hide ParentsOf, Linked, Snapshot;
      assert x.id == n.id ==> x == n;
    }

    /** The loop of an exclusive move: n takes over the other children of q, cycle or not. */
    method TakeSiblings(n: Node, q: Node)
      requires Shape() && n in links.all && n != root && q in links.all && n != q
      modifies links`K, links.all`parent, links.all`kids, links.all`prev, links.all`next
      ensures Shape() && links.all == old(links.all) && n.parent == old(n.parent)
      ensures Parents() == TakenAll(old(Parents()), n.id, q.id)
      ensures q in links.K && links.K[q] == if n.parent == q then [n] else []
    {
      hide Matches, ParentsOf, Linked, Snapshot, Without, TakenAll, Taken, NoDup;
      ghost var before := Parents();
      SiblingIds(n, q);
      links.Head(q);
      links.ParentsInside(n);
      ghost var s := links.K[q];
      ghost var i := 0;
      var k := q.kids;
      while k != null
        invariant Shape() && links.all == old(links.all) && n.parent == old(n.parent)
        invariant q in links.K && 0 <= i <= |s| && k == At(s, i)
        invariant links.K[q] == Kept(s, i, n) && Parents() == Taken(before, s[..i], n.id)
        decreases |s| - i
      {
        KeptAt(s, i, n);
        assert k in s;
        links.NextSibling(q, |Kept(s, i, n)| - (|s| - i));
        links.ParentsInside(n);
        SiblingOf(q, k);
        TakenStep(before, s, i, n);
        var next := k.next;
        if k != n {
          Move(k, n);
          links.ParentsInside(n);
        }
        k, i := next, i + 1;
      }
      assert s[..i] == s && s[i..] == [];
    }

    lemma {:induction false} SiblingIds(n: Node, q: Node)
      requires Shape() && n in links.all && q in links.all && n != q
      ensures q in links.K && NoDup(links.K[q]) && (n in links.K[q] <==> n.parent == q)
      ensures forall k <- links.K[q] :: k.id in Parents() && (k != n ==> k.id != n.id)
      ensures Taken(Parents(), links.K[q], n.id) == TakenAll(Parents(), n.id, q.id)
      ensures Taken(Parents(), [], n.id) == Parents()
    {
      links.Members(q);
      ParentFields();
      hide ParentsOf, Linked, Snapshot, TakenAll, Taken;
      TakenSiblings(links.all, links.Par(), nodes, root, n, links.K[q], q);
      TakenNone(Parents(), n.id);
    }

    lemma {:induction false} SiblingOf(q: Node, k: Node)
      requires Shape() && q in links.all && q in links.K && k in links.K[q]
      ensures k in links.all && k.parent == q && k != root
    {
      links.Members(q);
      links.ParentsInside(root);
    }

    /** The part of AdjustStream that follows section 5.3.3, for a node and a parent of the tree. */
    method Reparent(n: Node, q: Node, exclusive: bool)
      requires Tree() && n in links.all && n != root && q in links.all && n != q
      modifies this`rank, links`K, links.all`parent, links.all`kids, links.all`prev, links.all`next
      ensures Tree() && links.all == old(links.all)
      ensures IsReprioritized(old(Parents()), Parents(), n.id, q.id, exclusive)
      ensures exclusive ==> q in links.K && links.K[q] == [n]
    {
      hide Matches, ParentsOf, Linked, Snapshot, Ranked, Without, TakenAll, Below, Reprioritize;
      ghost var par := Parents();
      NodeFacts(n);
      RankOf(q);
      var depends := DependsOn(q, n);
      FreedCase(n, q);
      rank := ReprioritizeKeepsTree(par, rank, n.id, q.id, exclusive);
      if depends {
        Move(q, n.parent);
      }
      ReprioritizeSteps(par, old(rank), n.id, q.id);
      if exclusive {
        TakeSiblings(n, q);
      }
      links.ParentsInside(n);
      Move(n, q);
      assert IsReprioritized(par, Parents(), n.id, q.id, exclusive);
    }

    lemma {:induction false} FreedCase(n: Node, q: Node)
      requires Tree() && n in links.all && n != root && q in links.all && n != q && q.id in rank
      ensures n.id != q.id
      ensures Below(Parents(), rank, q.id, n.id) ==> q != root && n.parent != q
    {
      NodeFacts(n);
      if Below(Parents(), rank, q.id, n.id) {
        RankOf(n);
        BelowRank(Parents(), rank, q.id, n.id);
      }
    }

    //
    // The closed and idle lists
    //

    /** A node of a list: in the tree, or taken out of it before, with no links and no stream. */
    ghost predicate Entry(m: Node)
      reads this`nodes, links`all, m`parent, m`kids
    {
      m != root && (m in links.all || (m.parent == null && m.kids == null && m.id !in nodes))
    }

    ghost predicate Entries(list: seq<Node>)
      reads this`nodes, links`all, list`parent, list`kids
    {
      forall m <- list :: Entry(m)
    }

    /** The streams with a node and their states, and the two lists. */
    ghost function View(): (v: Streams)
      reads this, nodes.Values`state
    {
      Streams(StatesOf(nodes), Ids(closedNodes), Ids(idleNodes), maxID)
    }

    ghost function Limit(): (l: Limits) {
      Limits(maxClosedNodesInTree, maxIdleNodesInTree)
    }

    ghost predicate Valid()
      reads this, links, links.all, nodes.Values, closedNodes, idleNodes
    {
      Tree() && Entries(closedNodes) && Entries(idleNodes) && Orderly(View()) && 0 < writeThrottleLimit <= MAX_INT32
    }

    /** removeNode, on a node of the tree or on one removed before, which has no effect. */
    method RemoveNode(n: Node, ghost others: seq<Node>)
      requires Tree() && Entry(n) && Entries(others)
      modifies this`nodes, this`rank, links, links.all`parent, links.all`kids, links.all`prev, links.all`next
      ensures Tree() && links.all == old(links.all) - {n} && nodes == old(nodes) - {n.id}
      ensures Entry(n) && Entries(others) && Parents() == DropStream(old(Parents()), n.id)
    {
      hide Matches, ParentsOf, Linked, Snapshot, Ranked, Without, Removed;
      if n.parent != null {
        RemoveLive(n);
      } else {
        Absent(n);
        nodes := nodes - {n.id};
      }
    }

    /** removeNode on a node removed before whose identifier is in use again: the map loses the new node, and the tree keeps it. */
    method RemoveStale(m: Node)
      requires Tree() && m !in links.all && m.parent == null && m.kids == null && m.id in nodes
      modifies this`nodes
      ensures nodes == old(nodes) - {m.id} && old(nodes)[m.id] in links.all && !Tree()
    {
      hide Linked, Snapshot, Ranked, ParentsOf;
      StaleEntryLosesStream(links.all, links.Par(), nodes, root, m);
      nodes := nodes - {m.id};
    }

    /** The entry of the idle list under an identifier that has no node. */
    lemma {:induction false} FormerIdle(id: nat)
      requires Valid() && id !in nodes && View().idle == [id]
      ensures |idleNodes| == 1
      ensures var m := idleNodes[0]; m.id == id && m !in links.all && m.parent == null && m.kids == null
    {
      hide Linked, Snapshot, Ranked, ParentsOf, Orderly, StatesOf;
      assert |idleNodes| == |View().idle| == 1 && View().idle[0] == idleNodes[0].id;
      assert Entry(idleNodes[0]);
    }

    lemma {:induction false} Absent(n: Node)
      requires Tree() && Entry(n) && n.parent == null
      ensures n !in links.all && n.id !in Parents() && n.id !in nodes && nodes - {n.id} == nodes
    {
      if n in links.all {
        NodeFacts(n);
      }
    }

    /** addClosedOrIdleNode: appends n to a list, whose oldest node leaves the tree when it is full. */
    method AddClosedOrIdleNode(list: seq<Node>, maxSize: int, n: Node, ghost others: seq<Node>) returns (r: seq<Node>)
      requires Tree() && Entries(list) && Entry(n) && Entries(others)
      modifies this`nodes, this`rank, links, links.all`parent, links.all`kids, links.all`prev, links.all`next
      ensures Tree() && Entries(r) && Entries(others)
      ensures r == if maxSize == 0 then list else if |list| == maxSize then list[1..] + [n] else list + [n]
      ensures Ids(r) == Joined(Ids(list), maxSize, n.id) && nodes == old(nodes) - Oldest(Ids(list), maxSize)
      ensures Parents() == DropStreams(old(Parents()), Oldest(Ids(list), maxSize))
      ensures Full(Ids(list), maxSize) ==> links.all == old(links.all) - {list[0]}
      ensures !Full(Ids(list), maxSize) ==> links.all == old(links.all)
    {
      hide Matches, ParentsOf, Linked, Snapshot, Ranked, DropStream;
      r := list;
      DropNone(Parents());
      assert nodes - {} == nodes;
      if maxSize == 0 {
        return;
      }
      if |r| == maxSize {
        assert r[0] in list;
        DropOne(Parents(), r[0].id);
        RemoveNode(r[0], others + list + [n]);
        r := r[1..];
      }
      r := r + [n];
    }

    //
    // OpenStream
    //

    /**
     OpenStream. Not ok is the panic: the stream is in the tree and not idle. The scheduler stays
     valid exactly when no list still names a former stream of that identifier.
     */
    method OpenStream(id: nat, pusherId: nat) returns (ok: bool)
      requires Valid()
      modifies this, links, links.all
      ensures Tree() && fresh(links.all - old(links.all))
      ensures Valid() <==> !ok || Unlisted(old(View()), id)
      ensures ok == !Panics(old(View()), Opens(id)) && View() == After(old(View()), Limit(), Opens(id))
      ensures !ok || id in old(nodes) ==> nodes == old(nodes) && Parents() == old(Parents())
      ensures ok && id !in old(nodes) ==>
        id in nodes && nodes == old(nodes)[id := nodes[id]] && nodes[id].weight == DEFAULT_WEIGHT
        && Parents() == old(Parents())[id := if pusherId in old(nodes) then pusherId else 0]
      ensures closedNodes == old(closedNodes) && idleNodes == old(idleNodes)
    {
      hide Matches, ParentsOf, Linked, Snapshot, Ranked, Orderly, StatesOf, Ids;
      StatesAre();
      if id in nodes {
        NodeOf(id);
        if nodes[id].state != Idle {
          return false;
        }
        StepIsOrderly(View(), Limit(), Opens(id));
        KnownIds(View(), id);
        OpenIdle(id);
        return true;
      }
      RootOf();
      var parent := root;
      if pusherId in nodes {
        NodeOf(pusherId);
        parent := nodes[pusherId];
      }
      OpenNew(id, parent);
      return true;
    }

    lemma {:induction false} LimitIs()
      ensures Limit() == Limits(maxClosedNodesInTree, maxIdleNodesInTree)
    {
    }

    lemma {:induction false} StatesAre()
      ensures View().maxID == maxID
      ensures View().states.Keys == nodes.Keys && forall id <- nodes :: View().states[id] == nodes[id].state
    {
    }

    method OpenIdle(id: nat)
      requires Valid() && id in nodes && nodes[id] in links.all && nodes[id].id == id
      requires Orderly(View().(states := View().states[id := Open]))
      modifies {nodes[id]}`state
      ensures Valid() && View() == old(View()).(states := old(View()).states[id := Open]) && Parents() == old(Parents())
    {
      hide Matches, ParentsOf, Linked, Snapshot, Ranked, Orderly;
      Distinct();
      nodes[id].state := Open;
      assert StatesOf(nodes) == old(StatesOf(nodes))[id := Open];
    }

    lemma {:induction false} Distinct()
      requires Shape()
      ensures forall i <- nodes, j <- nodes :: i != j ==> nodes[i] != nodes[j]
      ensures forall i <- nodes :: nodes[i] in links.all
    {
    }

    method OpenNew(id: nat, parent: Node)
      requires Valid() && id !in nodes && parent in links.all
      modifies this, links, links.all`parent, links.all`kids, links.all`prev, links.all`next
      ensures Tree() && fresh(links.all - old(links.all)) && id in nodes
      ensures Valid() <==> Unlisted(old(View()), id)
      ensures View() == After(old(View()), Limit(), Opens(id))
      ensures nodes == old(nodes)[id := nodes[id]] && nodes[id].weight == DEFAULT_WEIGHT
      ensures Parents() == old(Parents())[id := parent.id] && closedNodes == old(closedNodes) && idleNodes == old(idleNodes)
    {
      hide Matches, ParentsOf, Linked, Snapshot, Ranked, Orderly, Ids;
      Distinct();
      OpenOrderly(id);
      ghost var stale := Former(id);
      var n := Insert(id, parent, Open);
      if id > maxID {
        maxID := id;
      }
      assert StatesOf(nodes) == old(StatesOf(nodes))[id := Open];
      if stale != null {
        assert !Entry(stale);
      }
    }

    /** A node of a list that once had this identifier, if there is one. */
    lemma {:induction false} Former(id: nat) returns (m: Node?)
      requires Valid() && id !in nodes
      ensures m == null <==> Unlisted(View(), id)
      ensures m == null ==> forall k <- closedNodes + idleNodes :: k.id != id
      ensures m != null ==> (m in closedNodes || m in idleNodes) && m.id == id && m !in links.all
    {
      hide ParentsOf, Linked, Snapshot, Ranked, Orderly, Ids;
      IdsAre(closedNodes, id);
      IdsAre(idleNodes, id);
      m := null;
      if !Unlisted(View(), id) {
        var k :| k in closedNodes + idleNodes && k.id == id;
        m := k;
      }
    }

    lemma {:induction false} OpenOrderly(id: nat)
      requires Valid() && id !in nodes
      ensures Unlisted(View(), id) ==> Orderly(After(View(), Limit(), Opens(id)))
      ensures View().closed == Ids(closedNodes) && View().idle == Ids(idleNodes) && View().states.Keys == nodes.Keys
    {
      if Unlisted(View(), id) {
        StepIsOrderly(View(), Limit(), Opens(id));
      }
    }

    lemma {:induction false} RootOf()
      requires Shape()
      ensures 0 in nodes && nodes[0] == root && root in links.all && root.id == 0
    {
    }

    lemma {:induction false} NodeOf(id: nat)
      requires Shape() && id in nodes
      ensures nodes[id] in links.all && nodes[id].id == id && (nodes[id] == root <==> id == 0)
    {
    }

    //
    // CloseStream
    //

    /** addBytes: b bytes more on n, and on the subtrees of n and of all it depends on. */
    method AddBytes(n: Node, b: int)
      requires Tree() && n in links.all && n.id in rank
      modifies n`bytes, links.all`subtreeBytes
      ensures n.bytes == old(n.bytes) + b
      ensures forall m <- links.all :: m.subtreeBytes == old(m.subtreeBytes) + if Below(Parents(), rank, n.id, m.id) then b else 0
    {
      hide Matches, ParentsOf, Linked, Snapshot, Below, Ranked;
      ghost var par := Parents();
      BelowStep(n, n);
      n.bytes := n.bytes + b;
      var x: Node? := n;
      while x != null
        invariant x != null ==> x in links.all && x.id in rank && Below(par, rank, n.id, x.id)
        invariant n.bytes == old(n.bytes) + b
        invariant forall m <- links.all :: m.subtreeBytes == old(m.subtreeBytes) + Share(par, rank, n, x, m, b)
        decreases if x == null then 0 else rank[x.id] + 1
      {
        Climb(n, x);
        x.subtreeBytes := x.subtreeBytes + b;
        x := x.parent;
      }
    }

    lemma {:induction false} Climb(n: Node, x: Node)
      requires Tree() && n in links.all && x in links.all && n.id in rank && x.id in rank
      requires Below(Parents(), rank, n.id, x.id)
      ensures x.parent != null ==> x.parent in links.all && x.parent.id in rank && rank[x.parent.id] < rank[x.id]
      ensures x.parent != null ==> Below(Parents(), rank, n.id, x.parent.id)
      ensures forall m <- links.all :: Below(Parents(), rank, x.id, m.id) <==>
        m == x || (x.parent != null && Below(Parents(), rank, x.parent.id, m.id))
      ensures x.parent != null ==> !Below(Parents(), rank, x.parent.id, x.id)
    {
      hide Matches, ParentsOf, Linked, Snapshot, Below;
      RootOrNot(x);
      forall m | m in links.all
        ensures Below(Parents(), rank, x.id, m.id) <==> m == x || (x.parent != null && Below(Parents(), rank, x.parent.id, m.id))
      {
        BelowStep(x, m);
      }
      if x.parent != null {
        NodeOf(x.id);
        BelowUp(Parents(), rank, n.id, x.id);
        if Below(Parents(), rank, x.parent.id, x.id) {
          BelowRank(Parents(), rank, x.parent.id, x.id);
        }
      }
    }

    lemma {:induction false} RootOrNot(x: Node)
      requires Tree() && x in links.all
      ensures x.id in rank && x.id in nodes && nodes[x.id] == x
      ensures x.parent != null ==> x.id in Parents() && Parents()[x.id] == x.parent.id
      ensures x.parent != null ==> x.parent in links.all && x.parent.id in rank && rank[x.parent.id] < rank[x.id]
    {
      ParentFields();
      RankOf(x);
      if x != root {
        NodeFacts(x);
        RankOf(x.parent);
      }
    }

    /** CloseStream. Not ok is the panic: stream 0, or a stream not in the tree or not open. */
    method CloseStream(id: nat) returns (ok: bool)
      requires Valid()
      modifies this, links, links.all
      ensures Valid() && links.all <= old(links.all)
      ensures ok == !Panics(old(View()), Closes(id)) && View() == After(old(View()), Limit(), Closes(id))
      ensures !ok ==> nodes == old(nodes) && Parents() == old(Parents())
      ensures ok ==> old(nodes[id]).bytes == 0
      ensures ok && maxClosedNodesInTree <= 0 ==> nodes == old(nodes) - {id} && Parents() == DropStream(old(Parents()), id)
      ensures ok && maxClosedNodesInTree > 0 ==>
        && nodes == old(nodes) - Oldest(old(View()).closed, maxClosedNodesInTree)
        && Parents() == DropStreams(old(Parents()), Oldest(old(View()).closed, maxClosedNodesInTree))
    {
      hide Matches, ParentsOf, Linked, Snapshot, Ranked, Orderly, Below, DropStream, Ids, StatesOf;
      StatesAre();
      if id == 0 || id !in nodes {
        return false;
      }
      NodeOf(id);
      var n := nodes[id];
      if n.state != Open {
        return false;
      }
      StepIsOrderly(View(), Limit(), Closes(id));
      ClosedAndGone(View().states, id);
      RankOf(n);
      SetClosed(id);
      AddBytes(n, -n.bytes);
      if maxClosedNodesInTree > 0 {
        KeepClosed(n);
      } else {
        Discard(n);
      }
      return true;
    }

    method SetClosed(id: nat)
      requires Tree() && id in nodes && nodes[id] in links.all
      modifies {nodes[id]}`state
      ensures View() == old(View()).(states := old(View()).states[id := Closed])
    {
      hide Linked, Snapshot, Ranked, ParentsOf, Matches, Ids;
      Distinct();
      nodes[id].state := Closed;
      assert StatesOf(nodes) == old(StatesOf(nodes))[id := Closed];
    }

    method Discard(n: Node)
      requires Tree() && Entries(closedNodes) && Entries(idleNodes) && n in links.all && n != root
      modifies this`nodes, this`rank, links, links.all`parent, links.all`kids, links.all`prev, links.all`next
      ensures Tree() && Entries(closedNodes) && Entries(idleNodes)
      ensures links.all == old(links.all) - {n} && nodes == old(nodes) - {n.id}
      ensures View() == old(View()).(states := old(View()).states - {n.id}) && Parents() == DropStream(old(Parents()), n.id)
    {
      hide Matches, ParentsOf, Linked, Snapshot, Ranked, DropStream;
      RemoveNode(n, closedNodes + idleNodes);
      assert StatesOf(nodes) == old(StatesOf(nodes)) - {n.id};
    }

    method KeepClosed(n: Node)
      requires Tree() && Entries(closedNodes) && Entries(idleNodes) && n in links.all && n != root && maxClosedNodesInTree > 0
      modifies this`nodes, this`rank, this`closedNodes, links, links.all`parent, links.all`kids, links.all`prev, links.all`next
      ensures Tree() && Entries(closedNodes) && Entries(idleNodes) && links.all <= old(links.all)
      ensures var v := old(View()); var out := Oldest(v.closed, maxClosedNodesInTree);
              && View() == v.(states := v.states - out, closed := Joined(v.closed, maxClosedNodesInTree, n.id))
              && nodes == old(nodes) - out && Parents() == DropStreams(old(Parents()), out)
    {
      hide Matches, ParentsOf, Linked, Snapshot, Ranked, DropStream, Ids;
      closedNodes := AddClosedOrIdleNode(closedNodes, maxClosedNodesInTree, n, idleNodes);
      assert StatesOf(nodes) == old(StatesOf(nodes)) - Oldest(Ids(old(closedNodes)), maxClosedNodesInTree);
    }

    //
    // AdjustStream
    //

    /** The new idle node of AdjustStream. The oldest idle node may leave the tree for it. */
    method AddIdle(id: nat) returns (n: Node)
      requires Valid() && MakesIdle(View(), Limit(), id)
      modifies this, links, links.all`parent, links.all`kids, links.all`prev, links.all`next
      ensures Valid() && fresh(links.all - old(links.all))
      ensures n in links.all && n.id == id && n != root && n.weight == DEFAULT_WEIGHT && id !in old(Parents())
      ensures Parents() == AfterIdle(old(Parents()), id, old(View()).idle, maxIdleNodesInTree)
      ensures View() == After(old(View()), Limit(), Adjusts(id))
    {
      hide Matches, ParentsOf, Linked, Snapshot, Ranked, Orderly, DropStream, DropStreams, Ids, After, Oldest, Joined;
      AllOld(id);
      StepIsOrderly(View(), Limit(), Adjusts(id));
      IdleMade(View(), Limit(), id);
      n := NewIdle(id);
      EnterIdle(n);
    }

    /** Its node, before it joins the idle list. */
    method NewIdle(id: nat) returns (n: Node)
      requires Valid() && MakesIdle(View(), Limit(), id)
      modifies this`maxID, this`nodes, this`rank, links, links.all`parent, links.all`kids, links.all`prev, links.all`next
      ensures Tree() && Entries(closedNodes) && Entries(idleNodes) && fresh(links.all - old(links.all))
      ensures n in links.all && n.id == id && n != root && n.weight == DEFAULT_WEIGHT && n !in idleNodes
      ensures Parents() == old(Parents())[id := 0] && View() == old(View()).(states := old(View()).states[id := Idle], maxID := id)
    {
      hide Matches, ParentsOf, Linked, Snapshot, Ranked, Orderly, Ids;
      AllOld(id);
      Distinct();
      maxID := id;
      n := Insert(id, root, Idle);
      assert StatesOf(nodes) == old(StatesOf(nodes))[id := Idle];
    }

    /** The new node goes to the end of the idle list. */
    method EnterIdle(n: Node)
      requires Tree() && Entries(closedNodes) && Entries(idleNodes) && n in links.all && n != root
      requires maxIdleNodesInTree != 0 && n !in idleNodes
      modifies this`nodes, this`rank, this`idleNodes, links, links.all`parent, links.all`kids, links.all`prev, links.all`next
      ensures Tree() && Entries(closedNodes) && Entries(idleNodes) && n in links.all && links.all <= old(links.all)
      ensures var v := old(View()); var out := Oldest(v.idle, maxIdleNodesInTree);
              && View() == v.(states := v.states - out, idle := Joined(v.idle, maxIdleNodesInTree, n.id))
              && nodes == old(nodes) - out && Parents() == DropStreams(old(Parents()), out)
    {
      hide Matches, ParentsOf, Linked, Snapshot, Ranked, DropStream, Ids;
      assert idleNodes != [] ==> idleNodes[0] in idleNodes;
      IdsEmpty(idleNodes);
      idleNodes := AddClosedOrIdleNode(idleNodes, maxIdleNodesInTree, n, closedNodes);
      assert StatesOf(nodes) == old(StatesOf(nodes)) - Oldest(Ids(old(idleNodes)), maxIdleNodesInTree);
    }

    lemma {:induction false} AllOld(id: nat)
      requires Valid() && id > maxID
      ensures id !in nodes && id !in Parents() && root in links.all && root.id == 0
      ensures forall m <- closedNodes + idleNodes :: m.id != id
      ensures View().idle != [] ==> View().idle[0] != id
    {
      hide Matches, ParentsOf, Linked, Snapshot, Ranked, Orderly, Ids;
      KnownIds(View(), id);
      KeysAreStreams();
      RootOf();
      IdsAre(closedNodes, id);
      IdsAre(idleNodes, id);
      if View().idle != [] {
        assert View().idle[0] in View().idle;
      }
    }

    /** AdjustStream. Not ok is the panic on stream 0. */
    method AdjustStream(id: nat, dep: nat, exclusive: bool, weight: nat) returns (ok: bool)
      requires Valid()
      modifies this, links, links.all
      ensures Valid() && fresh(links.all - old(links.all))
      ensures ok == !Panics(old(View()), Adjusts(id)) && View() == After(old(View()), Limit(), Adjusts(id))
      ensures id == 0 || (id !in old(nodes) && !MakesIdle(old(View()), Limit(), id)) ==>
        nodes == old(nodes) && Parents() == old(Parents())
      ensures id != 0 && (id in old(nodes) || MakesIdle(old(View()), Limit(), id)) ==>
        id in nodes && nodes[id] in links.all
        && Adjusted(AfterIdle(old(Parents()), id, old(View()).idle, maxIdleNodesInTree), Parents(), id, dep, exclusive)
        && (dep != id ==> nodes[id].weight == if dep in nodes then weight else DEFAULT_WEIGHT)
        && (exclusive && dep in nodes && dep != id ==> nodes[dep] in links.K && links.K[nodes[dep]] == [nodes[id]])
      ensures id in old(nodes) ==> nodes == old(nodes)
    {
      hide Matches, ParentsOf, Linked, Snapshot, Ranked, Orderly, DropStream, IsReprioritized, Ids;
      if id == 0 {
        return false;
      }
      ok := true;
      KeysAreStreams();
      var n: Node;
      if id !in nodes {
        if id <= maxID || maxIdleNodesInTree == 0 {
          return;
        }
        n := AddIdle(id);
      } else {
        NodeOf(id);
        n := nodes[id];
      }
      Depend(n, dep, exclusive, weight);
    }

    lemma {:induction false} KeysAreStreams()
      requires Tree()
      ensures Parents().Keys == nodes.Keys - {0} && nodes.Keys == Parents().Keys + {0}
    {
      ParentsKeys(links.all, links.Par(), nodes, root);
    }

    /** AdjustStream once the node is known. */
    method Depend(n: Node, dep: nat, exclusive: bool, weight: nat)
      requires Valid() && n in links.all && n != root
      modifies this`rank, n`weight, links`K, links.all`parent, links.all`kids, links.all`prev, links.all`next
      ensures Valid() && links.all == old(links.all) && View() == old(View())
      ensures n.id in nodes && nodes[n.id] == n && Adjusted(old(Parents()), Parents(), n.id, dep, exclusive)
      ensures n.weight == if dep !in nodes then DEFAULT_WEIGHT else if dep == n.id then old(n.weight) else weight
      ensures exclusive && dep in nodes && dep != n.id ==> nodes[dep] in links.K && links.K[nodes[dep]] == [n]
    {
      hide Matches, ParentsOf, Linked, Snapshot, Ranked, Orderly, IsReprioritized, Ids;
      RootOf();
      RootOrNot(n);
      KeysAreStreams();
      if dep !in nodes {
        ToRoot(n);
        n.weight := DEFAULT_WEIGHT;
        return;
      }
      NodeOf(dep);
      var parent := nodes[dep];
      if n == parent {
        return;
      }
      Reparent(n, parent, exclusive);
      n.weight := weight;
    }

    method ToRoot(n: Node)
      requires Tree() && n in links.all && n != root
      modifies this`rank, links`K, links.all`parent, links.all`kids, links.all`prev, links.all`next
      ensures Tree() && links.all == old(links.all) && Parents() == old(Parents())[n.id := 0]
    {
      hide Matches, ParentsOf, Linked, Snapshot, Ranked, Below;
      RootOf();
      RankOf(n);
      RankOf(root);
      NodeFacts(n);
      NotBelow(n);
      rank := MoveKeepsTree(Parents(), rank, n.id, 0);
      Move(n, root);
    }

    lemma {:induction false} NotBelow(n: Node)
      requires Tree() && n in links.all && n != root && 0 in rank
      ensures n.id != 0 && !Below(Parents(), rank, 0, n.id)
    {
      NodeFacts(n);
      RootOf();
    }

    //
    // Pop
    //

    /** The loop that looks whether the children of n have different weights. */
    method Uneven(n: Node) returns (needSort: bool)
      requires Tree() && n in links.all && n.kids != null
    {
      hide Matches, ParentsOf, Linked, Snapshot, Ranked, NoDup;
      links.Head(n);
      var w, k := n.kids.weight, n.kids.next;
      ghost var s, i := links.K[n], 1;
      links.NextSibling(n, 0);
      while k != null
        invariant 1 <= i <= |s| && k == At(s, i)
        decreases |s| - i
      {
        links.NextSibling(n, i);
        if k.weight != w {
          return true;
        }
        k, i := k.next, i + 1;
      }
      return false;
    }

    /** The uncommon case of the walk: the children of n in another order. */
    method Reorder(n: Node)
      requires Tree() && n in links.all
      modifies links`K, links.all`parent, links.all`kids, links.all`prev, links.all`next
      ensures Tree() && links.all == old(links.all) && Parents() == old(Parents())
      ensures Reordered(old(links.K), links.K) && forall x <- old(links.K) :: x in links.K && (x != n ==> links.K[x] == old(links.K)[x])
    {
      hide Matches, ParentsOf, Linked, Snapshot, Ranked;
      links.ParentsInside(n);
      NoLoop(n);
      links.Resort(n);
    }

    lemma {:induction false} NoLoop(n: Node)
      requires Tree() && n in links.all
      ensures n.parent != n
    {
      ParentFields();
      if n != root {
        NodeFacts(n);
      }
    }

    /**
     walkReadyInOrder. able holds the nodes whose queue gives up a frame; served is the first of
     them in the walk, and under tells whether a stream it depends on is open.
     */
    method Walk(n: Node, openParent: bool, able: set<Node>, ghost top: nat, ghost par: Parents) returns (served: Node?, under: bool)
      requires Tree() && n in links.all && n.id in rank && par == Parents() && Within(rank, top)
      modifies links`K, links.all`parent, links.all`kids, links.all`prev, links.all`next
      ensures Tree() && links.all == old(links.all) && Parents() == par
      ensures Reordered(old(links.K), links.K) && Spared(rank, rank[n.id], old(links.K), links.K)
      ensures served == null ==> NoneBelow(links.all, par, rank, n, able)
      ensures served != null ==> served in links.all && served in able && FirstBelow(links.all, par, rank, n, served, able)
      decreases top - rank[n.id], 1
    {
      hide Matches, ParentsOf, Linked, Snapshot, Ranked, Below, Reordered, Spared, NoneBelow, FirstBelow, NoDup;
      OnlyOne(n);
      if n in able {
        SameOrder(rank, rank[n.id], links.K);
        FirstItself(links.all, par, rank, n, able);
        return n, openParent;
      }
      links.Head(n);
      if n.kids == null {
        SameOrder(rank, rank[n.id], links.K);
        Searched(n, able, par);
        return null, openParent;
      }
      under := openParent || (n.id != 0 && n.state == Open);
      ghost var before := links.K;
      var needSort := Uneven(n);
      if needSort {
        Reorder(n);
      }
      SpareOne(rank, n, before, links.K);
      ghost var mid := links.K;
      served, under := WalkKids(n, under, able, top, par);
      OrderTwice(rank, rank[n.id], before, mid, links.K);
    }

    /** The walk over the children of n, which does not give up a frame itself. */
    method WalkKids(n: Node, openParent: bool, able: set<Node>, ghost top: nat, ghost par: Parents) returns (served: Node?, under: bool)
      requires Tree() && n in links.all && n.id in rank && par == Parents() && Within(rank, top) && n !in able
      modifies links`K, links.all`parent, links.all`kids, links.all`prev, links.all`next
      ensures Tree() && links.all == old(links.all) && Parents() == par
      ensures Reordered(old(links.K), links.K) && Spared(rank, rank[n.id] + 1, old(links.K), links.K)
      ensures served == null ==> NoneBelow(links.all, par, rank, n, able)
      ensures served != null ==> served in links.all && served in able && FirstBelow(links.all, par, rank, n, served, able)
      decreases top - rank[n.id], 0
    {
      hide Matches, ParentsOf, Linked, Snapshot, Ranked, Below, Reordered, Spared, NoneBelow, FirstBelow, NoDup;
      links.Head(n);
      OnlyOne(n);
      SameOrder(rank, rank[n.id] + 1, links.K);
      ghost var before, s, i := links.K, links.K[n], 0;
      var k := n.kids;
      served, under := null, openParent;
      while k != null
        invariant Tree() && links.all == old(links.all) && Parents() == par && n in links.K && links.K[n] == s
        invariant 0 <= i <= |s| && k == At(s, i) && served == null
        invariant Reordered(before, links.K) && Spared(rank, rank[n.id] + 1, before, links.K)
        invariant forall j | 0 <= j < i :: NoneBelow(links.all, par, rank, s[j], able)
        decreases |s| - i
      {
        ChildFacts(n, k, par);
        ghost var mid := links.K;
        served, under := Walk(k, openParent, able, top, par);
        SpareParent(rank, n, k, mid, links.K);
        OrderTwice(rank, rank[n.id] + 1, before, mid, links.K);
        if served != null {
          FirstThrough(links.all, par, rank, n, k, served, able);
          return;
        }
        links.NextSibling(n, i);
        k, i := k.next, i + 1;
      }
      Searched(n, able, par);
    }

    lemma {:induction false} ChildFacts(n: Node, k: Node, par: Parents)
      requires Tree() && n in links.all && n.id in rank && n in links.K && k in links.K[n] && par == Parents()
      ensures k in links.all && k.id in rank && rank[k.id] > rank[n.id] && k.id in par && par[k.id] == n.id
    {
      links.Members(n);
      NoRootParent();
      RootOrNot(k);
    }

    lemma {:induction false} NoRootParent()
      requires Shape()
      ensures root.parent == null
    {
      ParentFields();
    }

    /** A node outside able none of whose children leads to able. */
    lemma {:induction false} Searched(n: Node, able: set<Node>, par: Parents)
      requires Tree() && n in links.all && n.id in rank && par == Parents() && n !in able && n in links.K
      requires forall k <- links.K[n] :: NoneBelow(links.all, par, rank, k, able)
      ensures NoneBelow(links.all, par, rank, n, able)
    {
      hide ParentsOf, Linked, Snapshot, Ranked, Below;
      forall x | x in links.all && x.id in rank && Below(par, rank, x.id, n.id)
        ensures x !in able
      {
        if x.id != n.id {
          var c := BelowChild(par, rank, x.id, n.id);
          ChildNode(n, c, par);
          assert NoneBelow(links.all, par, rank, nodes[c], able);
        } else {
          SameId(x, n);
        }
      }
    }

    lemma {:induction false} OnlyOne(n: Node)
      requires Shape() && n in links.all
      ensures forall x <- links.all :: x.id == n.id ==> x == n
    {
    }

    lemma {:induction false} SameId(x: Node, n: Node)
      requires Shape() && x in links.all && n in links.all && x.id == n.id
      ensures x == n
    {
    }

    lemma {:induction false} ChildNode(n: Node, c: nat, par: Parents)
      requires Tree() && n in links.all && n in links.K && par == Parents() && c in par && par[c] == n.id
      ensures c in nodes && nodes[c].id == c && nodes[c] in links.K[n]
    {
      links.Members(n);
      ParentFields();
      KeysAreStreams();
      NodeOf(c);
      NodeFacts(nodes[c]);
      SameId(nodes[c].parent, n);
    }

    /**
     Pop, of which the queues are left out: able holds the nodes that can give up a frame, size is
     what the frame counts. The tree stays; a stream is served only if none that it depends on
     can be, and nothing is served only if no stream can be.
     */
    method Pop(able: set<Node>, size: nat) returns (served: Node?)
      requires Valid()
      modifies this`writeThrottleLimit, links`K, links.all`parent, links.all`kids, links.all`prev, links.all`next
      modifies links.all`bytes, links.all`subtreeBytes
      ensures Valid() && View() == old(View()) && Parents() == old(Parents()) && Reordered(old(links.K), links.K)
      ensures served == null <==> able !! links.all
      ensures served != null ==> served in links.all && served in able && served.bytes == old(served.bytes) + size
      ensures served != null ==> forall x <- links.all :: x != served && served.id in rank && Below(Parents(), rank, served.id, x.id) ==> x !in able
    {
      hide Matches, ParentsOf, Linked, Snapshot, Ranked, Below, Reordered, Spared, NoneBelow, FirstBelow, NoDup, Orderly, Ids;
      RootOf();
      RankOf(root);
      ghost var top := Top(rank);
      ghost var par := Parents();
      var under;
      served, under := Walk(root, false, able, top, par);
      FromRoot(served, able, par);
      if served != null {
        Charge(served, size, under);
      }
    }

    /** What the visit of the served node changes: the bytes, and the limit for streams below open ones. */
    method Charge(n: Node, size: nat, under: bool)
      requires Tree() && n in links.all && 0 < writeThrottleLimit <= MAX_INT32
      modifies this`writeThrottleLimit, n`bytes, links.all`subtreeBytes
      ensures Tree() && n.bytes == old(n.bytes) + size && 0 < writeThrottleLimit <= MAX_INT32
      ensures under ==> writeThrottleLimit == if old(writeThrottleLimit) + 1024 > MAX_INT32 then MAX_INT32 else old(writeThrottleLimit) + 1024
      ensures !under ==> writeThrottleLimit == if enableWriteThrottle then 1024 else old(writeThrottleLimit)
    {
      hide Matches, ParentsOf, Linked, Snapshot, Ranked, Below;
      RankOf(n);
      AddBytes(n, size);
      if under {
        writeThrottleLimit := writeThrottleLimit + 1024;
        if writeThrottleLimit > MAX_INT32 {
          writeThrottleLimit := MAX_INT32;
        }
      } else if enableWriteThrottle {
        writeThrottleLimit := 1024;
      }
    }

    lemma {:induction false} FromRoot(served: Node?, able: set<Node>, par: Parents)
      requires Tree() && root in links.all && root.id in rank && par == Parents() && root.id == 0
      requires served == null ==> NoneBelow(links.all, par, rank, root, able)
      requires served != null ==> served in links.all && served in able && FirstBelow(links.all, par, rank, root, served, able)
      ensures served == null <==> able !! links.all
      ensures served != null ==> forall x <- links.all :: x != served && served.id in rank && Below(par, rank, served.id, x.id) ==> x !in able
    {
      hide Matches, ParentsOf, Linked, Snapshot, Ranked, Below;
      forall x | x in links.all
        ensures x.id in rank && Below(par, rank, x.id, 0)
      {
        RankOf(x);
        AllBelowRoot(par, rank, x.id);
      }
    }
  }

  lemma {:induction false} HandedChildren(all: set<Node>, par: Link, nodes: NodeMap, root: Node, n: Node, s: seq<Node>, p: nat)
    requires Matches(all, par, nodes, root) && n in all
    requires forall k :: k in s <==> k in all && par[k] == n
    ensures forall k <- s :: k.id in ParentsOf(nodes, par)
    ensures Handed(ParentsOf(nodes, par), s, p) == HandedAll(ParentsOf(nodes, par), n.id, p)
  {
  }

  lemma {:induction false} HandedNone(par: Parents, p: nat)
    ensures Handed(par, [], p) == par
  {
  }

  /** The parents once the children in s were given to p. */
  ghost function Handed(par: Parents, s: seq<Node>, p: nat): (r: Parents) {
    map id | id in par :: if exists k <- s :: k.id == id then p else par[id]
  }

  /** The parents once every child of n was given to p. */
  ghost function HandedAll(par: Parents, n: nat, p: nat): (r: Parents) {
    map id | id in par :: if par[id] == n then p else par[id]
  }

  lemma {:induction false} RemovedIsHanded(par: Parents, n: nat)
    requires n in par && par[n] != n
    ensures Removed(par, n) == HandedAll(par, n, par[n]) - {n}
  {
  }

  lemma {:induction false} HandedStep(par: Parents, s: seq<Node>, i: nat, p: nat)
    requires i < |s| && forall k <- s :: k.id in par
    ensures Handed(par, s[..i], p)[s[i].id := p] == Handed(par, s[..i + 1], p)
  {
    assert s[..i + 1] == s[..i] + [s[i]];
    assert s[i] in s;
  }

  /** The parents once the siblings in s, other than n, were given to n. */
  ghost function Taken(par: Parents, s: seq<Node>, n: nat): (r: Parents) {
    map id | id in par :: if id != n && exists k <- s :: k.id == id then n else par[id]
  }

  ghost function TakenAll(par: Parents, n: nat, q: nat): (r: Parents) {
    map id | id in par :: if id != n && par[id] == q then n else par[id]
  }

  /** What is left of a list of children after i turns of the exclusive loop. */
  ghost function Kept(s: seq<Node>, i: nat, n: Node): (r: seq<Node>)
    requires i <= |s|
  {
    (if n in s[..i] then [n] else []) + s[i..]
  }

  lemma {:induction false} KeptAt(s: seq<Node>, i: nat, n: Node)
    requires NoDup(s) && i < |s|
    ensures var d := if n in s[..i] then 1 else 0;
            && |Kept(s, i, n)| == d + |s| - i && Kept(s, i, n)[d] == s[i]
            && At(Kept(s, i, n), d + 1) == At(s, i + 1)
    ensures s[i] == n ==> Kept(s, i + 1, n) == Kept(s, i, n)
    ensures s[i] != n ==> Kept(s, i + 1, n) == Without(Kept(s, i, n), s[i])
  {
    assert s[..i + 1] == s[..i] + [s[i]];
    assert s[i..] == [s[i]] + s[i + 1..];
    if n in s[..i] {
      assert Kept(s, i, n) == [n] + s[i..];
      assert ([n] + s[i..])[1..] == s[i..];
      assert s[i] != n;
    }
  }

  lemma {:induction false} TakenStep(par: Parents, s: seq<Node>, i: nat, n: Node)
    requires i < |s| && forall k <- s :: k.id in par && (k != n ==> k.id != n.id)
    ensures Taken(par, s[..i + 1], n.id) ==
            if s[i] == n then Taken(par, s[..i], n.id) else Taken(par, s[..i], n.id)[s[i].id := n.id]
  {
    assert s[..i + 1] == s[..i] + [s[i]];
    assert s[i] in s;
  }

  lemma {:induction false} TakenSiblings(all: set<Node>, par: Link, nodes: NodeMap, root: Node, n: Node, s: seq<Node>, q: Node)
    requires Matches(all, par, nodes, root) && n in all && q in all
    requires forall k :: k in s <==> k in all && par[k] == q
    ensures forall k <- s :: k.id in ParentsOf(nodes, par) && (k != n ==> k.id != n.id)
    ensures Taken(ParentsOf(nodes, par), s, n.id) == TakenAll(ParentsOf(nodes, par), n.id, q.id)
  {
  }

  lemma {:induction false} TakenNone(par: Parents, n: nat)
    ensures Taken(par, [], n) == par
  {
  }

  /** after is before with n made to depend on q, in the sense of section 5.3.3. */
  ghost predicate IsReprioritized(before: Parents, after: Parents, n: nat, q: nat, exclusive: bool) {
    exists rank :: Ranked(before, rank) && n in before && q in rank && q != n && after == Reprioritize(before, rank, n, q, exclusive)
  }

  /** What is asked does not depend on the witness. */
  lemma {:induction false} ReprioritizedUnique(before: Parents, after: Parents, other: Parents, n: nat, q: nat, exclusive: bool)
    requires IsReprioritized(before, after, n, q, exclusive) && IsReprioritized(before, other, n, q, exclusive)
    ensures after == other
  {
    var r :| Ranked(before, r) && n in before && q in r && after == Reprioritize(before, r, n, q, exclusive);
    var s :| Ranked(before, s) && n in before && q in s && other == Reprioritize(before, s, n, q, exclusive);
    BelowUnique(before, r, s, q, n);
  }

  lemma {:induction false} ReprioritizeSteps(par: Parents, rank: map<nat, nat>, n: nat, q: nat)
    requires Ranked(par, rank) && n in par && q in rank && q != n
    ensures var p := if Below(par, rank, q, n) then par[q := par[n]] else par;
            && Reprioritize(par, rank, n, q, true) == TakenAll(p, n, q)[n := q]
            && Reprioritize(par, rank, n, q, false) == p[n := q]
  {
  }

  /** The parents without stream n, if it is in the tree. */
  ghost function DropStream(par: Parents, n: nat): (r: Parents) {
    if n in par then Removed(par, n) else par
  }

  /** The parents without the streams of a set of at most one. */
  ghost function DropStreams(par: Parents, out: set<nat>): (r: Parents) {
    if out == {} then par else DropStream(par, var n :| n in out; n)
  }

  lemma {:induction false} DropNone(par: Parents)
    ensures DropStreams(par, {}) == par
  {
  }

  lemma {:induction false} DropOne(par: Parents, n: nat)
    ensures DropStreams(par, {n}) == DropStream(par, n)
  {
  }

  lemma {:induction false} ClosedAndGone(m: map<nat, NodeState>, id: nat)
    ensures m[id := Closed] - {id} == m - {id}
  {
  }

  lemma {:induction false} KnownIds(v: Streams, id: nat)
    requires Orderly(v)
    ensures id in v.states ==> id <= v.maxID
    ensures id > v.maxID ==> id !in v.states && id !in v.closed && id !in v.idle
  {
  }

  ghost function StatesOf(nodes: NodeMap): (m: map<nat, NodeState>)
    reads nodes.Values`state
  {
    map id | id in nodes :: nodes[id].state
  }

  ghost function Ids(list: seq<Node>): (ids: seq<nat>) {
    seq(|list|, i requires 0 <= i < |list| => list[i].id)
  }

  lemma {:induction false} IdsAre(list: seq<Node>, id: nat)
    ensures id in Ids(list) <==> exists m <- list :: m.id == id
  {
    if id in Ids(list) {
      var i :| 0 <= i < |list| && Ids(list)[i] == id;
      assert list[i] in list;
    }
    forall m | m in list && m.id == id
      ensures id in Ids(list)
    {
      var i :| 0 <= i < |list| && list[i] == m;
      assert Ids(list)[i] == id;
    }
  }

  lemma {:induction false} IdsEmpty(list: seq<Node>)
    ensures Ids(list) == [] <==> list == []
  {
  }

  /** Removing the node of a list that lost its place, under an identifier in use, would take the wrong node from the map. */
  lemma {:induction false} StaleEntryLosesStream(all: set<Node>, par: Link, nodes: NodeMap, root: Node, m: Node)
    requires Matches(all, par, nodes, root) && m !in all && m.id in nodes
    ensures nodes[m.id] in all && !Matches(all, par, nodes - {m.id}, root)
  {
  }

  /** What a node still has to add to the subtree of m once it was added up to, not including, x. */
  ghost function Share(par: Parents, rank: map<nat, nat>, n: Node, x: Node?, m: Node, b: int): (r: int)
    requires Ranked(par, rank) && n.id in rank && (x != null ==> x.id in rank)
  {
    if Below(par, rank, n.id, m.id) && !(x != null && Below(par, rank, x.id, m.id)) then b else 0
  }

  /** The parents once AdjustStream made sure that stream id has a node. */
  ghost function AfterIdle(par: Parents, id: nat, idle: seq<nat>, maxIdle: int): (r: Parents) {
    if id in par then par else DropStreams(par[id := 0], Oldest(idle, maxIdle))
  }

  /** A dependency on an unknown stream counts as one on stream 0; one on itself is ignored. */
  ghost predicate Adjusted(before: Parents, after: Parents, id: nat, dep: nat, exclusive: bool) {
    if dep != 0 && dep !in before then after == before[id := 0]
    else if dep == id then after == before
    else IsReprioritized(before, after, id, dep, exclusive)
  }

  /**
   A stream opened from idle stays in the idle list. A later idle stream drives it out of the
   tree while it is open, and CloseStream panics.
   */
  method EvictedWhileOpen() returns (opens: bool, closes: bool)
    ensures opens && !closes
  {
    hide *;
    var ws := new Scheduler(10, 1, false);
    OpenedFromIdleLeaves(ws.View(), ws.Limit());
    var ok := ws.AdjustStream(3, 0, false, 15);
    opens := ws.OpenStream(3, 0);
    ok := ws.AdjustStream(5, 0, false, 15);
    closes := ws.CloseStream(3);
  }

  /** A stream opened from idle and closed, and opened again: m, its former node, is still in the idle list. */
  method Reopened() returns (ws: Scheduler, m: Node)
    ensures ws.Tree() && fresh(ws) && fresh(ws.links) && fresh(ws.links.all) && ws.maxIdleNodesInTree == 1 && ws.idleNodes == [m]
    ensures m.id == 3 && m !in ws.links.all && m.parent == null && m.kids == null
    ensures 3 in ws.nodes && ws.nodes[3].state == Open && 5 !in ws.nodes && ws.maxID < 5
  {
    hide *;
    ws := new Scheduler(0, 1, false);
    ReopenedIsListed(ws.View(), ws.Limit());
    ws.LimitIs();
    var ok := ws.AdjustStream(3, 0, false, 15);
    ok := ws.OpenStream(3, 0);
    ok := ws.CloseStream(3);
    ws.StatesAre();
    ws.FormerIdle(3);
    m := ws.idleNodes[0];
    ok := ws.OpenStream(3, 0);
    ws.StatesAre();
  }

  /**
   A new idle stream after that drives the former node out of the full idle list, and the open
   stream loses its place in the map but not in the tree. The last two calls are what AdjustStream
   does for stream 5.
   */
  method StaleEntryReached() returns (ws: Scheduler, lost: Node)
    ensures lost.id == 3 && lost.state == Open && lost in ws.links.all && 3 !in ws.nodes && !ws.Tree()
  {
    hide Matches, ParentsOf, Linked, Snapshot, Ranked;
    var m;
    ws, m := Reopened();
    ws.NodeOf(3);
    ws.RootOf();
    lost := ws.nodes[3];
    var n := ws.Insert(5, ws.root, Idle);
    ws.RemoveStale(m);
  }

  //
  // The walk of Pop
  //

  const MAX_INT32 := 0x7fff_ffff

  ghost predicate Within(rank: map<nat, nat>, top: nat) {
    forall x <- rank :: rank[x] <= top
  }

  lemma {:induction false} Top(rank: map<nat, nat>) returns (top: nat)
    ensures Within(rank, top)
    decreases |rank|
  {
    if rank == map[] {
      top := 0;
    } else {
      var x :| x in rank;
      assert |rank - {x}| < |rank| by {
        assert (rank - {x}).Keys == rank.Keys - {x};
      }
      var t := Top(rank - {x});
      top := if rank[x] > t then rank[x] else t;
      forall y | y in rank
        ensures rank[y] <= top
      {
        assert y != x ==> (rank - {x})[y] <= t;
      }
    }
  }

  /** Every list of children is the same but for its order. */
  ghost predicate Reordered(K: Kids, L: Kids) {
    K.Keys == L.Keys && forall x <- K :: multiset(K[x]) == multiset(L[x])
  }

  /** Lists of nodes of a rank below r are as they were. */
  ghost predicate Spared(rank: map<nat, nat>, r: nat, K: Kids, L: Kids) {
    forall x <- K :: x in L && (x.id in rank && rank[x.id] < r ==> L[x] == K[x])
  }

  lemma {:induction false} SameOrder(rank: map<nat, nat>, r: nat, K: Kids)
    ensures Reordered(K, K) && Spared(rank, r, K, K)
  {
  }

  lemma {:induction false} OrderTwice(rank: map<nat, nat>, r: nat, K: Kids, L: Kids, M: Kids)
    requires Reordered(K, L) && Reordered(L, M) && Spared(rank, r, K, L)
    requires Spared(rank, r, L, M) || Spared(rank, r + 1, L, M)
    ensures Reordered(K, M) && Spared(rank, r, K, M)
  {
  }

  lemma {:induction false} SpareOne(rank: map<nat, nat>, n: Node, K: Kids, L: Kids)
    requires Reordered(K, L) && n.id in rank && forall x <- K :: x in L && (x != n ==> L[x] == K[x])
    ensures Spared(rank, rank[n.id], K, L)
  {
  }

  lemma {:induction false} SpareParent(rank: map<nat, nat>, n: Node, k: Node, K: Kids, L: Kids)
    requires n in K && n.id in rank && k.id in rank && rank[n.id] < rank[k.id] && Spared(rank, rank[k.id], K, L)
    ensures n in L && L[n] == K[n] && Spared(rank, rank[n.id] + 1, K, L)
  {
  }

  /** No node of able is n or below it. */
  ghost predicate NoneBelow(all: set<Node>, par: Parents, rank: map<nat, nat>, n: Node, able: set<Node>)
    requires Ranked(par, rank)
  {
    forall x <- all :: x.id in rank && Below(par, rank, x.id, n.id) ==> x !in able
  }

  /** served is n or below it, and nothing from n down to served is in able. */
  ghost predicate FirstBelow(all: set<Node>, par: Parents, rank: map<nat, nat>, n: Node, served: Node, able: set<Node>)
    requires Ranked(par, rank)
  {
    && served.id in rank && Below(par, rank, served.id, n.id)
    && forall x <- all :: x.id in rank && x != served && Below(par, rank, served.id, x.id) && Below(par, rank, x.id, n.id) ==> x !in able
  }

  lemma {:induction false} FirstItself(all: set<Node>, par: Parents, rank: map<nat, nat>, n: Node, able: set<Node>)
    requires Ranked(par, rank) && n.id in rank && n in all && forall x <- all :: x.id == n.id ==> x == n
    ensures FirstBelow(all, par, rank, n, n, able)
  {
    hide Ranked;
    forall x | x in all && x.id in rank && x != n && Below(par, rank, n.id, x.id)
      ensures !Below(par, rank, x.id, n.id)
    {
      BelowRank(par, rank, n.id, x.id);
      if Below(par, rank, x.id, n.id) {
        BelowRank(par, rank, x.id, n.id);
      }
    }
  }

  lemma {:induction false} FirstThrough(all: set<Node>, par: Parents, rank: map<nat, nat>, n: Node, k: Node, served: Node, able: set<Node>)
    requires Ranked(par, rank) && n.id in rank && k.id in par && par[k.id] == n.id && n !in able
    requires n in all && forall x <- all :: x.id == n.id ==> x == n
    requires k.id in rank && FirstBelow(all, par, rank, k, served, able)
    ensures FirstBelow(all, par, rank, n, served, able)
  {
    hide Ranked;
    assert Below(par, rank, k.id, n.id);
    BelowTrans(par, rank, served.id, k.id, n.id);
    forall x | x in all && x.id in rank && x != served && Below(par, rank, served.id, x.id) && Below(par, rank, x.id, n.id)
      ensures x !in able
    {
      if x != n {
        BelowThrough(par, rank, served.id, k.id, n.id, x.id);
      }
    }
  }
}
