/**
 The header field tables of HPACK (section 2.3 of RFC 7541).

 `Search` scans a table from its newest entry. headerFieldTable answers the same question
 from two maps keyed by name and by name and value, whose ids survive evictions; its
 methods are proved against the scan. `Evict` is the eviction rule of section 4.3.
 */
module HpackTables {
  import opened Bytes

  datatype HeaderField = HeaderField(name: seq<byte>, value: seq<byte>, sensitive: bool)

  /** The size of an entry (section 4.1 of RFC 7541). */
  function Size(f: HeaderField): (n: nat) {
    |f.name| + |f.value| + 32
  }

  function Total(ents: seq<HeaderField>): (n: nat)
    ensures ents != [] ==> n > 0
  {
    if ents == [] then 0 else Size(ents[0]) + Total(ents[1..])
  }

  //
  // Scans from the newest entry, which is the last. 0 means none.
  //

  function ScanName(ents: seq<HeaderField>, name: seq<byte>): (i: nat)
    ensures i <= |ents|
    ensures i != 0 ==> ents[|ents| - i].name == name
  {
    if ents == [] then 0
    else if ents[|ents| - 1].name == name then 1
    else
      var i := ScanName(ents[..|ents| - 1], name);
      if i == 0 then 0 else i + 1
  }

  function ScanPair(ents: seq<HeaderField>, p: (seq<byte>, seq<byte>)): (i: nat)
    ensures i <= |ents|
    ensures i != 0 ==> ents[|ents| - i].name == p.0 && ents[|ents| - i].value == p.1
  {
    if ents == [] then 0
    else if ents[|ents| - 1].name == p.0 && ents[|ents| - 1].value == p.1 then 1
    else
      var i := ScanPair(ents[..|ents| - 1], p);
      if i == 0 then 0 else i + 1
  }

  /** The newest exact match unless f is sensitive, else the newest name match, else 0. */
  function Search(ents: seq<HeaderField>, f: HeaderField): (r: (nat, bool))
    ensures r.0 <= |ents|
    ensures r.0 != 0 ==> ents[|ents| - r.0].name == f.name
    ensures r.1 ==> r.0 != 0 && ents[|ents| - r.0].value == f.value && !f.sensitive
  {
    var i := if f.sensitive then 0 else ScanPair(ents, (f.name, f.value));
    if i != 0 then (i, true) else (ScanName(ents, f.name), false)
  }

  /** A scan misses nothing and takes the newest match. */
  lemma {:induction false} ScanNameNewest(ents: seq<HeaderField>, name: seq<byte>, k: nat)
    requires k < |ents| && ents[k].name == name
    ensures 1 <= ScanName(ents, name) <= |ents| - k
    decreases |ents|
  {
    var n := |ents| - 1;
    if ents[n].name != name {
      assert ents[..n][k] == ents[k];
      ScanNameNewest(ents[..n], name, k);
    }
  }

  lemma {:induction false} ScanPairNewest(ents: seq<HeaderField>, p: (seq<byte>, seq<byte>), k: nat)
    requires k < |ents| && ents[k].name == p.0 && ents[k].value == p.1
    ensures 1 <= ScanPair(ents, p) <= |ents| - k
    decreases |ents|
  {
    var n := |ents| - 1;
    if !(ents[n].name == p.0 && ents[n].value == p.1) {
      assert ents[..n][k] == ents[k];
      ScanPairNewest(ents[..n], p, k);
    }
  }

  lemma {:induction false} ScanAdded(ents: seq<HeaderField>, f: HeaderField, name: seq<byte>)
    ensures var i := ScanName(ents, name);
            ScanName(ents + [f], name) == if f.name == name then 1 else if i == 0 then 0 else i + 1
  {
    assert (ents + [f])[..|ents|] == ents;
  }

  lemma {:induction false} ScanPairAdded(ents: seq<HeaderField>, f: HeaderField, p: (seq<byte>, seq<byte>))
    ensures var i := ScanPair(ents, p);
            ScanPair(ents + [f], p) ==
            if f.name == p.0 && f.value == p.1 then 1 else if i == 0 then 0 else i + 1
  {
    assert (ents + [f])[..|ents|] == ents;
  }

  /** Evicting the n oldest entries loses exactly the matches among them. */
  lemma {:induction false} ScanEvicted(ents: seq<HeaderField>, n: nat, name: seq<byte>)
    requires n <= |ents|
    ensures var i := ScanName(ents, name);
            ScanName(ents[n..], name) == if i <= |ents| - n then i else 0
    decreases |ents|
  {
    var m := |ents| - 1;
    if n < |ents| {
      var t := ents[n..];
      assert t[|t| - 1] == ents[m] && t[..|t| - 1] == ents[..m][n..];
      ScanEvicted(ents[..m], n, name);
    }
  }

  lemma {:induction false} ScanPairEvicted(ents: seq<HeaderField>, n: nat, p: (seq<byte>, seq<byte>))
    requires n <= |ents|
    ensures var i := ScanPair(ents, p);
            ScanPair(ents[n..], p) == if i <= |ents| - n then i else 0
    decreases |ents|
  {
    var m := |ents| - 1;
    if n < |ents| {
      var t := ents[n..];
      assert t[|t| - 1] == ents[m] && t[..|t| - 1] == ents[..m][n..];
      ScanPairEvicted(ents[..m], n, p);
    }
  }

  //
  // headerFieldTable
  //

  class HeaderFieldTable {
    const isStatic: bool
    var ents: seq<HeaderField>
    var evictCount: nat
    var byName: map<seq<byte>, nat>
    var byNameValue: map<(seq<byte>, seq<byte>), nat>

    /** The maps hold the ids of the newest matches. */
    ghost predicate Valid()
      reads this
    {
      && (isStatic ==> evictCount == 0)
      && NamesFrom(0) && PairsFrom(0)
    }

    /** byName covers exactly the entries from position k on. */
    ghost predicate NamesFrom(k: nat)
      reads this
    {
      && (forall n :: n in byName <==> 1 <= ScanName(ents, n) <= |ents| - k)
      && (forall n <- byName :: byName[n] == evictCount + |ents| - ScanName(ents, n) + 1)
    }

    ghost predicate PairsFrom(k: nat)
      reads this
    {
      && (forall p :: p in byNameValue <==> 1 <= ScanPair(ents, p) <= |ents| - k)
      && (forall p <- byNameValue :: byNameValue[p] == evictCount + |ents| - ScanPair(ents, p) + 1)
    }

    /** init */
    constructor ()
      ensures Valid() && ents == [] && !isStatic
    {
      isStatic, ents, evictCount, byName, byNameValue := false, [], 0, map[], map[];
    }

    method AddEntry(f: HeaderField)
      requires Valid() && !isStatic
      modifies this
      ensures Valid() && ents == old(ents) + [f] && evictCount == old(evictCount)
    {
      var id := |ents| + evictCount + 1;
      forall n
        ensures ScanName(ents + [f], n) == if f.name == n then 1 else if ScanName(ents, n) == 0 then 0 else ScanName(ents, n) + 1
      {
        ScanAdded(ents, f, n);
      }
      forall p
        ensures ScanPair(ents + [f], p) ==
          if f.name == p.0 && f.value == p.1 then 1 else if ScanPair(ents, p) == 0 then 0 else ScanPair(ents, p) + 1
      {
        ScanPairAdded(ents, f, p);
      }
      byName := byName[f.name := id];
      byNameValue := byNameValue[(f.name, f.value) := id];
      ents := ents + [f];
    }

    method EvictOldest(n: nat)
      requires Valid() && !isStatic && n <= |ents|
      modifies this
      ensures Valid() && ents == old(ents[n..]) && evictCount == old(evictCount) + n
    {
      for k := 0 to n
        invariant ents == old(ents) && evictCount == old(evictCount)
        invariant NamesFrom(k) && PairsFrom(k)
      {
        ForgetEntry(k);
      }
      forall x
        ensures ScanName(ents[n..], x) == if ScanName(ents, x) <= |ents| - n then ScanName(ents, x) else 0
      {
        ScanEvicted(ents, n, x);
      }
      forall p
        ensures ScanPair(ents[n..], p) == if ScanPair(ents, p) <= |ents| - n then ScanPair(ents, p) else 0
      {
        ScanPairEvicted(ents, n, p);
      }
      ents := ents[n..];
      evictCount := evictCount + n;
    }

    /** One turn of the loop of evictOldest: drops entry k from the maps it is newest in. */
    method ForgetEntry(k: nat)
      requires k < |ents| && NamesFrom(k) && PairsFrom(k)
      modifies this`byName, this`byNameValue
      ensures NamesFrom(k + 1) && PairsFrom(k + 1)
    {
      ForgetName(k);
      ForgetPair(k);
    }

    method ForgetName(k: nat)
      requires k < |ents| && NamesFrom(k)
      modifies this`byName
      ensures NamesFrom(k + 1)
    {
      var name := ents[k].name;
      ScanNameNewest(ents, name, k);
      if name in byName && byName[name] == evictCount + k + 1 {
        byName := byName - {name};
      }
    }

    method ForgetPair(k: nat)
      requires k < |ents| && PairsFrom(k)
      modifies this`byNameValue
      ensures PairsFrom(k + 1)
    {
      var p := (ents[k].name, ents[k].value);
      ScanPairNewest(ents, p, k);
      if p in byNameValue && byNameValue[p] == evictCount + k + 1 {
        byNameValue := byNameValue - {p};
      }
    }

    /** idToIndex: an id of a live entry, so the panic for evicted ids is unreachable. */
    function IdToIndex(id: nat): (i: nat)
      requires evictCount < id <= evictCount + |ents|
      reads this
      ensures 1 <= i <= |ents|
      ensures if isStatic then i == id - evictCount else |ents| - i == id - evictCount - 1
    {
      var k := id - evictCount - 1;
      if isStatic then k + 1 else |ents| - k
    }

    /** search, against the scan */
    method SearchTable(f: HeaderField) returns (i: nat, nameValueMatch: bool)
      requires Valid()
      ensures var s := Search(ents, f);
              nameValueMatch == s.1 && i == if isStatic && s.0 != 0 then |ents| - s.0 + 1 else s.0
    {
      if !f.sensitive {
        var p := (f.name, f.value);
        if p in byNameValue {
          i := IdToIndex(byNameValue[p]);
          return i, true;
        }
      }
      if f.name in byName {
        i := IdToIndex(byName[f.name]);
        return i, false;
      }
      return 0, false;
    }
  }

  //
  // Eviction
  //

  /** The first position from k on whose suffix fits. */
  function FirstFit(ents: seq<HeaderField>, k: nat, max: nat): (n: nat)
    requires k <= |ents|
    ensures k <= n <= |ents|
    decreases |ents| - k
  {
    if Total(ents[k..]) <= max || k == |ents| then k else FirstFit(ents, k + 1, max)
  }

  /** What is left once the oldest entries are evicted down to max. */
  function Evict(ents: seq<HeaderField>, max: nat): (r: seq<HeaderField>) {
    ents[FirstFit(ents, 0, max)..]
  }

  lemma {:induction false} FitFits(ents: seq<HeaderField>, k: nat, max: nat)
    requires k <= |ents|
    ensures Total(ents[FirstFit(ents, k, max)..]) <= max
    decreases |ents| - k
  {
    if Total(ents[k..]) > max {
      if k < |ents| {
        FitFits(ents, k + 1, max);
      }
    }
  }

  /** No position before the first fit would do. */
  lemma {:induction false} FitIsFirst(ents: seq<HeaderField>, k: nat, max: nat, j: nat)
    requires k <= j <= |ents| && Total(ents[j..]) <= max
    ensures FirstFit(ents, k, max) <= j
    decreases j - k
  {
    if k < j {
      FitIsFirst(ents, k + 1, max, j);
    }
  }

  /** Evict keeps the longest suffix that fits. */
  lemma {:induction false} EvictLongest(ents: seq<HeaderField>, max: nat, j: nat)
    requires j <= |ents|
    ensures Total(Evict(ents, max)) <= max
    ensures Total(ents[j..]) <= max ==> |Evict(ents, max)| >= |ents| - j
  {
    FitFits(ents, 0, max);
    if Total(ents[j..]) <= max {
      FitIsFirst(ents, 0, max, j);
    }
  }

  lemma {:induction false} TotalStep(ents: seq<HeaderField>, k: nat)
    requires k < |ents|
    ensures Total(ents[k..]) == Size(ents[k]) + Total(ents[k + 1..])
  {
    assert ents[k..][1..] == ents[k + 1..];
  }

  lemma {:induction false} TotalSplit(a: seq<HeaderField>, b: seq<HeaderField>)
    ensures Total(a + b) == Total(a) + Total(b)
  {
    if a == [] {
      assert a + b == b;
    } else {
      assert (a + b)[1..] == a[1..] + b;
      TotalSplit(a[1..], b);
    }
  }

  class DynamicTable {
    const table: HeaderFieldTable
    var size: nat
    var maxSize: nat
    var allowedMaxSize: nat

    ghost predicate Valid()
      reads this, table
    {
      table.Valid() && !table.isStatic && size == Total(table.ents)
    }

    constructor (max: nat, allowed: nat)
      ensures Valid() && fresh(table) && table.ents == [] && maxSize == max && allowedMaxSize == allowed
    {
      table := new HeaderFieldTable();
      size, maxSize, allowedMaxSize := 0, max, allowed;
    }

    method SetMaxSize(v: nat)
      requires Valid()
      modifies this, table
      ensures Valid() && maxSize == v && allowedMaxSize == old(allowedMaxSize)
      ensures table.ents == Evict(old(table.ents), v) && size <= maxSize
    {
      maxSize := v;
      EvictExcess();
    }

    method Add(f: HeaderField)
      requires Valid()
      modifies this, table
      ensures Valid() && maxSize == old(maxSize) && allowedMaxSize == old(allowedMaxSize)
      ensures table.ents == Evict(old(table.ents) + [f], maxSize) && size <= maxSize
    {
      TotalSplit(table.ents, [f]);
      table.AddEntry(f);
      size := size + Size(f);
      EvictExcess();
    }

    /** evict */
    method EvictExcess()
      requires Valid()
      modifies this, table
      ensures Valid() && maxSize == old(maxSize) && allowedMaxSize == old(allowedMaxSize)
      ensures table.ents == Evict(old(table.ents), maxSize) && size <= maxSize
    {
      var n := 0;
      assert table.ents[0..] == table.ents;
      while size > maxSize && n < |table.ents|
        invariant 0 <= n <= |table.ents|
        invariant unchanged(table) && maxSize == old(maxSize) && allowedMaxSize == old(allowedMaxSize)
        invariant size == Total(table.ents[n..])
        invariant FirstFit(table.ents, n, maxSize) == FirstFit(table.ents, 0, maxSize)
        decreases |table.ents| - n
      {
        TotalStep(table.ents, n);
        size := size - Size(table.ents[n]);
        n := n + 1;
      }
      table.EvictOldest(n);
    }
  }
}
