/**
 The dependency tree of stream priorities (section 5.3 of RFC 7540) as a map from each
 stream to its parent, with stream 0 as the root. Acyclicity is witnessed by a rank that
 grows from parent to child; `Reprioritize` is the rule of section 5.3.3.
 */
module PriorityModel {
  type Parents = map<nat, nat>

  /** rank witnesses that every chain of parents ends at stream 0. */
  ghost predicate Ranked(par: Parents, rank: map<nat, nat>) {
    && 0 !in par
    && rank.Keys == par.Keys + {0}
    && forall x <- par :: par[x] in rank && rank[par[x]] < rank[x]
  }

  /** n is x or an ancestor of x. */
  ghost predicate Below(par: Parents, rank: map<nat, nat>, x: nat, n: nat)
    requires Ranked(par, rank) && x in rank
    decreases rank[x]
  {
    x == n || (x in par && Below(par, rank, par[x], n))
  }

  lemma {:induction false} BelowRank(par: Parents, rank: map<nat, nat>, x: nat, n: nat)
    requires Ranked(par, rank) && x in rank && n in rank && Below(par, rank, x, n)
    ensures x == n || rank[n] < rank[x]
    decreases rank[x]
  {
    if x != n {
      BelowRank(par, rank, par[x], n);
    }
  }

  /** x is below the parent of everything it is below. */
  lemma {:induction false} BelowUp(par: Parents, rank: map<nat, nat>, x: nat, n: nat)
    requires Ranked(par, rank) && x in rank && n in par && Below(par, rank, x, n)
    ensures Below(par, rank, x, par[n])
    decreases rank[x]
  {
    if x != n {
      BelowUp(par, rank, par[x], n);
    } else {
      assert Below(par, rank, par[n], par[n]);
    }
  }

  /** What is below n, and not n, is below one of its children. */
  lemma {:induction false} BelowChild(par: Parents, rank: map<nat, nat>, x: nat, n: nat) returns (c: nat)
    requires Ranked(par, rank) && x in rank && x != n && Below(par, rank, x, n)
    ensures c in par && par[c] == n && Below(par, rank, x, c)
    decreases rank[x]
  {
    if par[x] == n {
      c := x;
    } else {
      c := BelowChild(par, rank, par[x], n);
    }
  }

  lemma {:induction false} BelowTrans(par: Parents, rank: map<nat, nat>, x: nat, y: nat, z: nat)
    requires Ranked(par, rank) && x in rank && y in rank && Below(par, rank, x, y) && Below(par, rank, y, z)
    ensures Below(par, rank, x, z)
    decreases rank[x]
  {
    if x != y {
      BelowTrans(par, rank, par[x], y, z);
    }
  }

  /** Two streams that a third is below are one below the other. */
  lemma {:induction false} BelowBoth(par: Parents, rank: map<nat, nat>, x: nat, y: nat, z: nat)
    requires Ranked(par, rank) && x in rank && y in rank && z in rank && Below(par, rank, x, y) && Below(par, rank, x, z)
    ensures Below(par, rank, y, z) || Below(par, rank, z, y)
    decreases rank[x]
  {
    if x != y && x != z {
      BelowBoth(par, rank, par[x], y, z);
    }
  }

  /** Between a stream below a child k of n and n itself there is nothing but n and what is below k. */
  lemma {:induction false} BelowThrough(par: Parents, rank: map<nat, nat>, s: nat, k: nat, n: nat, x: nat)
    requires Ranked(par, rank) && s in rank && x in rank && k in par && par[k] == n && n in rank
    requires Below(par, rank, s, k) && Below(par, rank, s, x) && Below(par, rank, x, n) && x != n
    ensures Below(par, rank, x, k)
  {
    BelowBoth(par, rank, s, x, k);
    if !Below(par, rank, x, k) {
      BelowRank(par, rank, n, x);
      BelowRank(par, rank, x, n);
    }
  }

  lemma {:induction false} AllBelowRoot(par: Parents, rank: map<nat, nat>, x: nat)
    requires Ranked(par, rank) && x in rank
    ensures Below(par, rank, x, 0)
    decreases rank[x]
  {
    if x != 0 {
      assert x in par.Keys + {0};
      AllBelowRoot(par, rank, par[x]);
    }
  }

  /** Below does not depend on the witness. */
  lemma {:induction false} BelowUnique(par: Parents, r: map<nat, nat>, s: map<nat, nat>, x: nat, n: nat)
    requires Ranked(par, r) && Ranked(par, s) && x in r
    ensures Below(par, r, x, n) == Below(par, s, x, n)
    decreases r[x]
  {
    if x != n && x in par {
      BelowUnique(par, r, s, par[x], n);
    }
  }

  //
  // Moves
  //

  /** Moving n under a stream that is not below it. */
  lemma {:induction false} MoveKeepsTree(par: Parents, rank: map<nat, nat>, n: nat, q: nat) returns (rank': map<nat, nat>)
    requires Ranked(par, rank) && n in rank && n != 0 && q in rank && !Below(par, rank, q, n)
    ensures Ranked(par[n := q], rank')
  {
    rank' := map x | x in rank :: if Below(par, rank, x, n) then rank[x] + rank[q] + 1 else rank[x];
    assert n in par.Keys + {0};
  }

  /** A new leaf. */
  lemma {:induction false} LeafKeepsTree(par: Parents, rank: map<nat, nat>, n: nat, q: nat) returns (rank': map<nat, nat>)
    requires Ranked(par, rank) && n !in rank && q in rank
    ensures Ranked(par[n := q], rank')
  {
    rank' := rank[n := rank[q] + 1];
  }

  /** Removing n, whose dependencies go to its parent. */
  function Removed(par: Parents, n: nat): (r: Parents)
    requires n in par
  {
    map x | x in par && x != n :: if par[x] == n then par[n] else par[x]
  }

  lemma {:induction false} RemoveKeepsTree(par: Parents, rank: map<nat, nat>, n: nat) returns (rank': map<nat, nat>)
    requires Ranked(par, rank) && n in par
    ensures Ranked(Removed(par, n), rank')
  {
    rank' := rank - {n};
  }

  /** The streams that depend on q, other than n, made dependencies of n, and n one of q. */
  function Exclusive(par: Parents, n: nat, q: nat): (r: Parents) {
    (map x | x in par :: if x != n && par[x] == q then n else par[x])[n := q]
  }

  /** n or something under it, or something strictly under q. */
  ghost predicate Shifted(par: Parents, rank: map<nat, nat>, n: nat, q: nat, x: nat)
    requires Ranked(par, rank) && x in rank
  {
    Below(par, rank, x, n) || (x != q && Below(par, rank, x, q))
  }

  /**
   An exclusive move keeps the tree although it first makes a cycle when n depends, through
   others, on one of its new siblings.
   */
  lemma {:induction false} ExclusiveKeepsTree(par: Parents, rank: map<nat, nat>, n: nat, q: nat) returns (rank': map<nat, nat>)
    requires Ranked(par, rank) && n in par && q in rank && !Below(par, rank, q, n)
    ensures Ranked(Exclusive(par, n, q), rank')
  {
    rank' := map x | x in rank ::
      if x == n then rank[q] + 1
      else if Shifted(par, rank, n, q, x) then rank[x] + rank[q] + 1
      else rank[x];
    forall x | x in par && x != n
      ensures rank'[Exclusive(par, n, q)[x]] < rank'[x]
    {
      ExclusiveEdge(par, rank, n, q, x);
    }
    assert Exclusive(par, n, q).Keys == par.Keys;
    assert !Shifted(par, rank, n, q, q);
  }

  lemma {:induction false} ExclusiveEdge(par: Parents, rank: map<nat, nat>, n: nat, q: nat, x: nat)
    requires Ranked(par, rank) && n in par && q in rank && !Below(par, rank, q, n)
    requires x in par && x != n
    ensures par[x] == q ==> Shifted(par, rank, n, q, x) && rank[x] > rank[q]
    ensures par[x] == n ==> Shifted(par, rank, n, q, x) && rank[x] >= 1
    ensures par[x] != q && par[x] != n ==> (Shifted(par, rank, n, q, x) ==> Shifted(par, rank, n, q, par[x]) || par[x] == q)
    ensures !Shifted(par, rank, n, q, x) ==> !Shifted(par, rank, n, q, par[x]) && par[x] != n
  {
    assert Below(par, rank, q, q) && Below(par, rank, n, n);
    if x == q && Below(par, rank, par[x], q) {
      BelowRank(par, rank, par[x], q);
    }
  }

  //
  // Section 5.3.3
  //

  /** First a new parent that depends on n is moved to n's former parent. */
  ghost function Freed(par: Parents, rank: map<nat, nat>, n: nat, q: nat): (r: Parents)
    requires Ranked(par, rank) && n in par && q in rank
  {
    if Below(par, rank, q, n) then par[q := par[n]] else par
  }

  ghost function Reprioritize(par: Parents, rank: map<nat, nat>, n: nat, q: nat, exclusive: bool): (r: Parents)
    requires Ranked(par, rank) && n in par && q in rank && q != n
  {
    var p := Freed(par, rank, n, q);
    if exclusive then Exclusive(p, n, q) else p[n := q]
  }

  /** Freeing needs no new witness, and then q is not below n. */
  lemma {:induction false} FreedKeepsTree(par: Parents, rank: map<nat, nat>, n: nat, q: nat)
    requires Ranked(par, rank) && n in par && q in rank && q != n
    ensures var p := Freed(par, rank, n, q);
            Ranked(p, rank) && p.Keys == par.Keys && !Below(p, rank, q, n)
  {
    if Below(par, rank, q, n) {
      BelowRank(par, rank, q, n);
      var p := par[q := par[n]];
      assert Ranked(p, rank);
      if Below(p, rank, p[q], n) {
        BelowRank(p, rank, p[q], n);
      }
    }
  }

  /** Every reprioritization keeps the tree, whatever it moves under what. */
  lemma {:induction false} ReprioritizeKeepsTree(par: Parents, rank: map<nat, nat>, n: nat, q: nat, exclusive: bool)
    returns (rank': map<nat, nat>)
    requires Ranked(par, rank) && n in par && q in rank && q != n
    ensures Ranked(Reprioritize(par, rank, n, q, exclusive), rank')
  {
    var p := Freed(par, rank, n, q);
    FreedKeepsTree(par, rank, n, q);
    if exclusive {
      rank' := ExclusiveKeepsTree(p, rank, n, q);
    } else {
      rank' := MoveKeepsTree(p, rank, n, q);
    }
  }

  /**
   What section 5.3.3 asks: n depends on q; a q that depended on n now depends on n's former
   parent; an exclusive n is q's only dependency and q's other ones depend on n; everything
   else keeps its parent.
   */
  lemma {:induction false} ReprioritizeMeaning(par: Parents, rank: map<nat, nat>, n: nat, q: nat, exclusive: bool, x: nat)
    requires Ranked(par, rank) && n in par && q in rank && q != n && x in par
    ensures var r := Reprioritize(par, rank, n, q, exclusive);
            && r.Keys == par.Keys && r[n] == q
            && (Below(par, rank, q, n) ==> q in r && r[q] == par[n])
            && (exclusive ==> (r[x] == q <==> x == n))
            && (x != n && x != q ==> r[x] == if exclusive && par[x] == q then n else par[x])
  {
    var p := Freed(par, rank, n, q);
    if Below(par, rank, q, n) {
      BelowRank(par, rank, q, n);
    }
  }
}
