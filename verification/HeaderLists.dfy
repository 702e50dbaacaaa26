/**
 What becomes of the fields that the HPACK decoder emits for a header list: they are kept up to
 the first that is invalid or over the limit, and from then on the decoder emits nothing but
 goes on maintaining its table.
 */
module HeaderLists {
  import opened Wrappers
  import opened Bytes
  import opened HpackTables
  import E = HpackEncoder
  import L = HpackLockstep
  import P = HpackPrefix
  import W = HpackWire
  import Huffman

  const TWO_32 := 0x1_0000_0000
  const COLON: byte := 58

  /** The limit for the header list, and which fields have a valid value and, unless they are pseudo fields, a valid name. */
  datatype Rules = Rules(limit: nat, valid: HeaderField -> bool)

  predicate Pseudo(f: HeaderField) {
    f.name != [] && f.name[0] == COLON
  }

  //
  // The function that the decoder calls for each field
  //

  datatype Status = Keeping | Truncated | Invalid

  /** Fields kept, what is left of the limit, and whether one was not a pseudo field. */
  datatype Tally = Tally(fields: seq<HeaderField>, remain: nat, regular: bool, status: Status)

  function NewTally(rules: Rules): (t: Tally) {
    Tally([], rules.limit, false, Keeping)
  }

  /** The size of a field as a 32-bit number. */
  function Size32(f: HeaderField): (n: nat) {
    Size(f) % TWO_32
  }

  predicate Sound(rules: Rules, t: Tally, f: HeaderField) {
    rules.valid(f) && !(Pseudo(f) && t.regular)
  }

  function Take(rules: Rules, t: Tally, f: HeaderField): (r: Tally) {
    if !Sound(rules, t, f) then t.(status := Invalid)
    else if Size32(f) > t.remain then t.(status := Truncated, remain := 0)
    else Tally(t.fields + [f], t.remain - Size32(f), t.regular || !Pseudo(f), t.status)
  }

  /** The tally of a list. */
  function Tallied(rules: Rules, t: Tally, fs: seq<HeaderField>): (r: Tally)
    decreases |fs|
  {
    if fs == [] || !t.status.Keeping? then t else Tallied(rules, Take(rules, t, fs[0]), fs[1..])
  }

  lemma {:induction false} TalliedSplit(rules: Rules, t: Tally, a: seq<HeaderField>, b: seq<HeaderField>)
    ensures Tallied(rules, t, a + b) == Tallied(rules, Tallied(rules, t, a), b)
    decreases |a|
  {
    hide Take;
    if a == [] {
      assert a + b == b;
    } else if t.status.Keeping? {
      assert (a + b)[0] == a[0] && (a + b)[1..] == a[1..] + b;
      TalliedSplit(rules, Take(rules, t, a[0]), a[1..], b);
    }
  }

  //
  // Which fields are kept
  //

  function Total32(fs: seq<HeaderField>): (n: nat) {
    if fs == [] then 0 else Size32(fs[0]) + Total32(fs[1..])
  }

  /** Every field is valid, and pseudo fields come first. */
  ghost predicate Proper(rules: Rules, fs: seq<HeaderField>) {
    && (forall f <- fs :: rules.valid(f))
    && (forall i, j :: 0 <= i < j < |fs| && Pseudo(fs[j]) ==> Pseudo(fs[i]))
  }

  ghost predicate NoPseudo(fs: seq<HeaderField>) {
    forall f <- fs :: !Pseudo(f)
  }

  lemma {:induction false} ProperStep(rules: Rules, fs: seq<HeaderField>)
    requires fs != []
    ensures Proper(rules, fs) <==> rules.valid(fs[0]) && Proper(rules, fs[1..]) && (!Pseudo(fs[0]) ==> NoPseudo(fs[1..]))
  {
    hide Pseudo;
    if Proper(rules, fs) {
      forall f | f in fs[1..] && !Pseudo(fs[0])
        ensures !Pseudo(f)
      {
        var j :| 0 <= j < |fs[1..]| && fs[1..][j] == f;
        assert fs[j + 1] == f;
      }
    }
    if rules.valid(fs[0]) && Proper(rules, fs[1..]) && (!Pseudo(fs[0]) ==> NoPseudo(fs[1..])) {
      forall i, j | 0 <= i < j < |fs| && Pseudo(fs[j])
        ensures Pseudo(fs[i])
      {
        assert fs[j] == fs[1..][j - 1];
        if i > 0 {
          assert fs[i] == fs[1..][i - 1];
        }
      }
    }
  }

  lemma {:induction false} NoPseudoStep(fs: seq<HeaderField>)
    requires fs != []
    ensures NoPseudo(fs) <==> !Pseudo(fs[0]) && NoPseudo(fs[1..])
  {
    hide Pseudo;
  }

  lemma {:induction false} Nothing(rules: Rules, fs: seq<HeaderField>)
    requires fs == []
    ensures Proper(rules, fs) && NoPseudo(fs)
  {
  }

  lemma {:induction false} NotKeepingStays(rules: Rules, t: Tally, fs: seq<HeaderField>)
    requires !t.status.Keeping?
    ensures Tallied(rules, t, fs) == t
  {
  }

  /** All fields are kept exactly when they are proper and their sizes together are within what remains. */
  lemma {:induction false} TalliedExact(rules: Rules, t: Tally, fs: seq<HeaderField>)
    requires t.status.Keeping?
    ensures var r := Tallied(rules, t, fs);
            && (r.status.Keeping? <==> Total32(fs) <= t.remain && Proper(rules, fs) && (t.regular ==> NoPseudo(fs)))
            && (r.status.Keeping? ==> r.fields == t.fields + fs && r.remain == t.remain - Total32(fs))
            && r.remain <= t.remain
    decreases |fs|
  {
    hide Proper, NoPseudo, Pseudo, Size32;
    if fs == [] {
      Nothing(rules, fs);
      assert t.fields + fs == t.fields;
    } else {
      ProperStep(rules, fs);
      NoPseudoStep(fs);
      var f := fs[0];
      var t' := Take(rules, t, f);
      if t'.status.Keeping? {
        TalliedExact(rules, t', fs[1..]);
        assert t.fields + [f] + fs[1..] == t.fields + fs;
      } else {
        NotKeepingStays(rules, t', fs[1..]);
      }
    }
  }

  /** How many fields are kept. */
  function Cut(rules: Rules, t: Tally, fs: seq<HeaderField>): (j: nat)
    ensures j <= |fs|
    decreases |fs|
  {
    if fs == [] || !Take(rules, t, fs[0]).status.Keeping? then 0 else 1 + Cut(rules, Take(rules, t, fs[0]), fs[1..])
  }

  /**
   A list is cut before the first field that does not fit or is not sound: what is kept is what
   comes before it, and it decides how the list ends.
   */
  lemma {:induction false} CutThere(rules: Rules, t: Tally, fs: seq<HeaderField>)
    requires t.status.Keeping?
    ensures var j := Cut(rules, t, fs); var r := Tallied(rules, t, fs);
            && Tallied(rules, t, fs[..j]).status.Keeping? && r.fields == t.fields + fs[..j]
            && (r.status.Keeping? <==> j == |fs|)
            && (j < |fs| ==> r == Take(rules, Tallied(rules, t, fs[..j]), fs[j]))
            && (r.status.Truncated? ==> r.remain == 0)
    decreases |fs|
  {
    hide Sound, Size32;
    var j := Cut(rules, t, fs);
    if fs == [] {
      assert t.fields + [] == t.fields;
    } else {
      var t' := Take(rules, t, fs[0]);
      if t'.status.Keeping? {
        CutThere(rules, t', fs[1..]);
        assert fs[..j][1..] == fs[1..][..j - 1] && t.fields + [fs[0]] + fs[1..][..j - 1] == t.fields + fs[..j];
      } else {
        NotKeepingStays(rules, t', fs[1..]);
        assert t.fields + fs[..0] == t.fields;
      }
    }
  }

  /**
   What is kept of a list is its longest part from the start that is proper and within the limit.
   The list counts as truncated exactly when the next field would have been proper.
   */
  lemma {:induction false} KeptIsLongest(rules: Rules, fs: seq<HeaderField>)
    ensures var t := NewTally(rules); var j := Cut(rules, t, fs); var r := Tallied(rules, t, fs);
            && r.fields == fs[..j] && Total32(fs[..j]) <= rules.limit && Proper(rules, fs[..j])
            && (r.status.Keeping? <==> j == |fs|)
            && (j < |fs| ==> !(Total32(fs[..j + 1]) <= rules.limit && Proper(rules, fs[..j + 1])))
            && (r.status.Truncated? <==> j < |fs| && Proper(rules, fs[..j + 1]))
  {
    hide Proper, Total32, Tallied, Cut, Take;
    var t := NewTally(rules);
    var j := Cut(rules, t, fs);
    CutThere(rules, t, fs);
    TalliedExact(rules, t, fs[..j]);
    assert [] + fs[..j] == fs[..j];
    if j < |fs| {
      var g := Tallied(rules, t, fs[..j]);
      assert fs[..j + 1] == fs[..j] + [fs[j]];
      TalliedSplit(rules, t, fs[..j], [fs[j]]);
      TalliedOne(rules, g, fs[j]);
      TalliedExact(rules, t, fs[..j + 1]);
      RegularIs(rules, t, fs[..j]);
      ProperLast(rules, fs[..j], fs[j]);
      TakeStatus(rules, g, fs[j]);
    }
  }

  lemma {:induction false} TalliedOne(rules: Rules, t: Tally, f: HeaderField)
    requires t.status.Keeping?
    ensures Tallied(rules, t, [f]) == Take(rules, t, f)
  {
    hide Take;
    assert [f][1..] == [];
  }

  lemma {:induction false} TakeStatus(rules: Rules, t: Tally, f: HeaderField)
    requires t.status.Keeping?
    ensures Take(rules, t, f).status == if !Sound(rules, t, f) then Invalid else if Size32(f) > t.remain then Truncated else Keeping
  {
  }

  lemma {:induction false} RegularIs(rules: Rules, t: Tally, fs: seq<HeaderField>)
    requires t.status.Keeping? && Tallied(rules, t, fs).status.Keeping?
    ensures Tallied(rules, t, fs).regular <==> t.regular || exists f <- fs :: !Pseudo(f)
    decreases |fs|
  {
    hide Pseudo, Size32;
    if fs != [] {
      var t' := Take(rules, t, fs[0]);
      RegularIs(rules, t', fs[1..]);
    }
  }

  lemma {:induction false} ProperLast(rules: Rules, fs: seq<HeaderField>, f: HeaderField)
    requires Proper(rules, fs)
    ensures Proper(rules, fs + [f]) <==> rules.valid(f) && !(Pseudo(f) && exists g <- fs :: !Pseudo(g))
  {
    hide Pseudo;
    var gs := fs + [f];
    assert gs[|fs|] == f;
    if Pseudo(f) && exists g <- fs :: !Pseudo(g) {
      var i :| 0 <= i < |fs| && !Pseudo(fs[i]);
      assert gs[i] == fs[i] && !Pseudo(gs[i]) && Pseudo(gs[|fs|]);
    }
  }

  //
  // Pseudo fields
  //

  const METHOD: seq<byte> := [58, 109, 101, 116, 104, 111, 100]
  const PATH: seq<byte> := [58, 112, 97, 116, 104]
  const SCHEME: seq<byte> := [58, 115, 99, 104, 101, 109, 101]
  const AUTHORITY: seq<byte> := [58, 97, 117, 116, 104, 111, 114, 105, 116, 121]
  const PROTOCOL: seq<byte> := [58, 112, 114, 111, 116, 111, 99, 111, 108]
  const STATUS: seq<byte> := [58, 115, 116, 97, 116, 117, 115]

  predicate OfRequest(f: HeaderField) {
    f.name == METHOD || f.name == PATH || f.name == SCHEME || f.name == AUTHORITY || f.name == PROTOCOL
  }

  predicate OfResponse(f: HeaderField) {
    f.name == STATUS
  }

  /** How many pseudo fields come first. */
  function Leading(fs: seq<HeaderField>): (n: nat)
    ensures n <= |fs| && (forall i :: 0 <= i < n ==> Pseudo(fs[i])) && (n < |fs| ==> !Pseudo(fs[n]))
  {
    if fs == [] || !Pseudo(fs[0]) then 0 else 1 + Leading(fs[1..])
  }

  /** The pseudo fields that come first are known, each at most once, and not of both a request and a response. */
  predicate Coherent(fs: seq<HeaderField>) {
    var n := Leading(fs);
    && (forall i :: 0 <= i < n ==> OfRequest(fs[i]) || OfResponse(fs[i]))
    && (forall i, j :: 0 <= i < j < n ==> fs[i].name != fs[j].name)
    && !((exists i :: 0 <= i < n && OfRequest(fs[i])) && (exists i :: 0 <= i < n && OfResponse(fs[i])))
  }

  /** PseudoFields */
  method PseudoFields(fs: seq<HeaderField>) returns (n: nat)
    ensures n == Leading(fs)
  {
    hide Pseudo;
    n := 0;
    while n < |fs| && Pseudo(fs[n])
      invariant n <= |fs| && Leading(fs) == n + Leading(fs[n..])
    {
      assert fs[n..][1..] == fs[n + 1..];
      n := n + 1;
    }
  }

  /** checkPseudos */
  method CheckPseudos(fs: seq<HeaderField>) returns (ok: bool)
    ensures ok <==> Coherent(fs)
  {
    hide OfRequest, OfResponse, Pseudo;
    var n := PseudoFields(fs);
    var isRequest, isResponse := false, false;
    for i := 0 to n
      invariant forall k :: 0 <= k < i ==> OfRequest(fs[k]) || OfResponse(fs[k])
      invariant forall k, j :: 0 <= k < j < i ==> fs[k].name != fs[j].name
      invariant isRequest <==> exists k :: 0 <= k < i && OfRequest(fs[k])
      invariant isResponse <==> exists k :: 0 <= k < i && OfResponse(fs[k])
    {
      if OfRequest(fs[i]) {
        isRequest := true;
      } else if OfResponse(fs[i]) {
        isResponse := true;
      } else {
        return false;
      }
      OneKind(fs[i]);
      for j := 0 to i
        invariant forall k :: 0 <= k < j ==> fs[k].name != fs[i].name
      {
        if fs[i].name == fs[j].name {
          return false;
        }
      }
    }
    return !(isRequest && isResponse);
  }

  lemma {:induction false} OneKind(f: HeaderField)
    ensures !(OfRequest(f) && OfResponse(f))
  {
  }

  //
  // The decoder with that function
  //

  /** Decoder, octets kept for the next call, tally, and the error if any. */
  datatype Sifted = Sifted(d: W.Decoder, save: seq<byte>, t: Tally, err: Option<W.Error>)

  /** The decoder emits while fields are kept. */
  function Muted(d: W.Decoder, t: Tally): (r: W.Decoder) {
    if t.status.Keeping? then d else d.(emitEnabled := false)
  }

  function TakeAny(rules: Rules, t: Tally, out: seq<HeaderField>): (r: Tally) {
    if out == [] then t else Take(rules, t, out[0])
  }

  /** The loop of Write, with the function called at each field. */
  ghost function Sift(c: W.Context, rules: Rules, d: W.Decoder, t: Tally, buf: seq<byte>): (r: Sifted)
    requires Huffman.Shaped(c.huffman)
    decreases |buf|
  {
    if buf == [] then Sifted(d, [], t, None)
    else
      W.StepShape(c, d, buf);
      match W.ParseRepr(c, d, buf)
      case More =>
        if d.maxStrLen != 0 && |buf| > 2 * (d.maxStrLen + 8) then Sifted(d, [], t, Some(W.StringLength))
        else Sifted(d, buf, t, None)
      case Failed(d', e) => Sifted(d'.(first := false), [], t, Some(e))
      case Parsed(d', rest, out) =>
        var t' := TakeAny(rules, t, out);
        Sift(c, rules, Muted(d'.(first := false), t'), t', rest)
  }

  lemma {:induction false} SiftNothing(c: W.Context, rules: Rules, d: W.Decoder, t: Tally)
    requires Huffman.Shaped(c.huffman)
    ensures Sift(c, rules, d, t, []) == Sifted(d, [], t, None)
  {
  }

  /** A call without an error can be followed by another, or have been one with it. */
  lemma {:induction false} SiftSplit(c: W.Context, rules: Rules, d: W.Decoder, t: Tally, buf: seq<byte>, q: seq<byte>)
    requires Huffman.Shaped(c.huffman) && Sift(c, rules, d, t, buf).err == None
    ensures var r := Sift(c, rules, d, t, buf);
            Sift(c, rules, d, t, buf + q) == Sift(c, rules, r.d, r.t, r.save + q)
    decreases |buf|
  {
    hide W.ParseRepr, Take, Evict, Huffman.Shaped;
    if buf == [] {
      assert buf + q == q && [] + q == q;
    } else {
      W.ReprExtend(c, d, buf, q);
      W.StepShape(c, d, buf);
      var s := W.ParseRepr(c, d, buf);
      if s.Parsed? {
        var t' := TakeAny(rules, t, s.out);
        SiftSplit(c, rules, Muted(s.d.(first := false), t'), t', s.rest, q);
      }
    }
  }

  /** Without emission nothing is tallied. */
  lemma {:induction false} MutedSift(c: W.Context, rules: Rules, d: W.Decoder, t: Tally, buf: seq<byte>)
    requires Huffman.Shaped(c.huffman) && !t.status.Keeping? && !d.emitEnabled
    ensures Sift(c, rules, d, t, buf).t == t
    decreases |buf|
  {
    hide W.ParseRepr, Take, Evict, Huffman.Shaped;
    if buf != [] {
      W.StepShape(c, d, buf);
      W.StepEmits(c, d, buf);
      var s := W.ParseRepr(c, d, buf);
      if s.Parsed? {
        MutedSift(c, rules, Muted(s.d.(first := false), t), t, s.rest);
      }
    }
  }

  /** While all fields are kept, this is Write followed by the tally of what it emitted. */
  lemma {:induction false} SiftIsWrite(c: W.Context, rules: Rules, d: W.Decoder, t: Tally, buf: seq<byte>)
    requires Huffman.Shaped(c.huffman) && t.status.Keeping? && d.emitEnabled
    ensures var r := Sift(c, rules, d, t, buf); var p := W.ParseAll(c, d, buf); var k := Tallied(rules, t, p.out);
            && (r.t.status.Keeping? <==> k.status.Keeping?)
            && (k.status.Keeping? ==> r == Sifted(p.d, p.save, k, p.err))
    decreases |buf|
  {
    hide W.ParseRepr, Take, Evict, Huffman.Shaped;
    if buf != [] {
      W.StepShape(c, d, buf);
      W.StepEmits(c, d, buf);
      var s := W.ParseRepr(c, d, buf);
      if s.Parsed? {
        var t', d' := TakeAny(rules, t, s.out), s.d.(first := false);
        var p := W.ParseAll(c, d', s.rest);
        TalliedSplit(rules, t, s.out, p.out);
        TalliedAny(rules, t, s.out);
        if t'.status.Keeping? {
          SiftIsWrite(c, rules, d', t', s.rest);
        } else {
          MutedSift(c, rules, Muted(d', t'), t', s.rest);
          NotKeepingStays(rules, t', p.out);
        }
      }
    }
  }

  lemma {:induction false} TalliedAny(rules: Rules, t: Tally, out: seq<HeaderField>)
    requires t.status.Keeping? && |out| <= 1
    ensures Tallied(rules, t, out) == TakeAny(rules, t, out)
  {
    hide Take;
    if out != [] {
      assert out == [out[0]];
      TalliedOne(rules, t, out[0]);
    }
  }

  //
  // Parts of a block that the encoder wrote
  //

  lemma {:induction false} SiftWaits(c: W.Context, rules: Rules, d: W.Decoder, t: Tally, buf: seq<byte>)
    requires Huffman.Shaped(c.huffman) && P.Waits(c, d, buf)
    ensures Sift(c, rules, d, t, buf) == Sifted(d, buf, t, None)
  {
    hide W.ParseRepr, Huffman.Shaped;
  }

  lemma {:induction false} SiftStep(c: W.Context, rules: Rules, d: W.Decoder, t: Tally, buf: seq<byte>, rest: seq<byte>, d': W.Decoder, out: seq<HeaderField>)
    requires Huffman.Shaped(c.huffman) && buf != [] && W.ParseRepr(c, d, buf) == W.Parsed(d', rest, out)
    ensures var t' := TakeAny(rules, t, out);
            Sift(c, rules, d, t, buf) == Sift(c, rules, Muted(d'.(first := false), t'), t', rest)
  {
    hide W.ParseRepr, Huffman.Shaped, Take;
  }

  /** After the first n octets of some fields: no error, and the tally of the fields that have ended. */
  ghost predicate Underway(c: W.Context, rules: Rules, d: W.Decoder, t: Tally, buf: seq<byte>, fs: seq<HeaderField>, k: nat)
    requires Huffman.Shaped(c.huffman) && k <= |fs|
  {
    var r := Sift(c, rules, d, t, buf);
    r.err == None && r.t == Tallied(rules, t, fs[..k])
  }

  /** After all octets: nothing is saved, and the decoder has followed the encoder. */
  ghost predicate Followed(c: W.Context, rules: Rules, d: W.Decoder, t: Tally, buf: seq<byte>, d': W.Decoder)
    requires Huffman.Shaped(c.huffman)
  {
    var r := Sift(c, rules, d, t, buf);
    r.save == [] && r.d == Muted(d', r.t)
  }

  lemma {:induction false} FieldsSift(c: W.Context, rules: Rules, e: E.Encoder, d: W.Decoder, t: Tally, fs: seq<HeaderField>, n: nat)
    requires Huffman.WellFormed(c.huffman) && L.Agree(c, e, d) && L.Indexable(c, e) && d.emitEnabled
    requires (forall f <- fs :: L.FieldOk(f)) && L.AllFit(d.maxStrLen, fs) && d.maxStrLen <= E.UINT32_MAX
    requires n <= |L.FieldsBytes(c, e, fs)|
    ensures var buf := L.FieldsBytes(c, e, fs)[..n];
            && Underway(c, rules, Muted(d, t), t, buf, fs, P.Finished(c, e, fs, n))
            && (n == |L.FieldsBytes(c, e, fs)| ==> Followed(c, rules, Muted(d, t), t, buf, L.MirrorAll(c, e, d, fs)))
    decreases |fs|
  {
    hide W.ParseRepr, E.FieldBytes, Evict, E.SearchAll, Huffman.WellFormed, L.FieldFits, E.FieldAdded, L.Mirror, L.Agree, L.Indexable, Total, Sift, Take, L.FieldOk;
    L.WellFormedIsShaped(c.huffman);
    var buf := L.FieldsBytes(c, e, fs)[..n];
    if fs == [] || n == 0 {
      assert buf == [];
      SiftNothing(c, rules, Muted(d, t), t);
      assert fs[..0] == [];
    } else if n < |E.FieldBytes(c, e, fs[0])| {
      var head := E.FieldBytes(c, e, fs[0]);
      assert buf == head[..n];
      AgreeMuted(c, e, d, t);
      P.PartialField(c, e, Muted(d, t), fs[0], n);
      SiftWaits(c, rules, Muted(d, t), t, buf);
      assert fs[..0] == [];
    } else {
      NextField(c, rules, e, d, t, fs, n);
    }
  }

  lemma {:induction false} AgreeMuted(c: W.Context, e: E.Encoder, d: W.Decoder, t: Tally)
    requires L.Agree(c, e, d)
    ensures L.Agree(c, e, Muted(d, t)) && Muted(d, t).maxStrLen == d.maxStrLen
  {
  }

  lemma {:induction false} MirrorMuted(c: W.Context, e: E.Encoder, d: W.Decoder, t: Tally, f: HeaderField)
    requires d.emitEnabled
    ensures L.Mirror(c, e, Muted(d, t), f) == Muted(L.Mirror(c, e, d, f), t)
    ensures L.Mirror(c, e, d, f).emitEnabled && L.Mirror(c, e, d, f).maxStrLen == d.maxStrLen
    ensures L.Shown(Muted(d, t), f) == if t.status.Keeping? then [f] else []
  {
    hide E.SearchAll, Evict;
  }

  lemma {:induction false} AgreeFirst(c: W.Context, e: E.Encoder, d: W.Decoder, f: HeaderField)
    requires L.Agree(c, e, d) && L.Indexable(c, e)
    ensures L.Agree(c, E.FieldAdded(c, e, f), L.Mirror(c, e, d, f).(first := false)) && L.Indexable(c, E.FieldAdded(c, e, f))
  {
    hide E.SearchAll, Evict, Total, E.FieldAdded, L.Mirror;
    L.FieldAgree(c, e, d, f);
    L.AddedFits(c, e, f);
    L.CountBound(E.FieldAdded(c, e, f).ents);
  }

  /** The part reaches beyond the first field. */
  lemma {:induction false} NextField(c: W.Context, rules: Rules, e: E.Encoder, d: W.Decoder, t: Tally, fs: seq<HeaderField>, n: nat)
    requires Huffman.WellFormed(c.huffman) && L.Agree(c, e, d) && L.Indexable(c, e) && d.emitEnabled
    requires (forall f <- fs :: L.FieldOk(f)) && L.AllFit(d.maxStrLen, fs) && d.maxStrLen <= E.UINT32_MAX
    requires fs != [] && |E.FieldBytes(c, e, fs[0])| <= n <= |L.FieldsBytes(c, e, fs)|
    ensures var buf := L.FieldsBytes(c, e, fs)[..n];
            && Underway(c, rules, Muted(d, t), t, buf, fs, P.Finished(c, e, fs, n))
            && (n == |L.FieldsBytes(c, e, fs)| ==> Followed(c, rules, Muted(d, t), t, buf, L.MirrorAll(c, e, d, fs)))
    decreases |fs|, 0
  {
    hide W.ParseRepr, E.FieldBytes, Evict, E.SearchAll, Huffman.WellFormed, L.FieldFits, E.FieldAdded, L.Mirror, L.Agree, L.Indexable, Total, Sift, Take, L.FieldOk;
    L.WellFormedIsShaped(c.huffman);
    var f := fs[0];
    var e', d' := E.FieldAdded(c, e, f), L.Mirror(c, e, d, f).(first := false);
    var head, rest := E.FieldBytes(c, e, f), L.FieldsBytes(c, e', fs[1..]);
    var m := n - |head|;
    assert L.FieldsBytes(c, e, fs)[..n] == head + rest[..m];
    AgreeMuted(c, e, d, t);
    L.FieldRoundTrip(c, e, Muted(d, t), f, rest[..m]);
    MirrorMuted(c, e, d, t, f);
    AgreeFirst(c, e, d, f);
    var t' := TakeAny(rules, t, L.Shown(Muted(d, t), f));
    SiftStep(c, rules, Muted(d, t), t, head + rest[..m], rest[..m], L.Mirror(c, e, Muted(d, t), f), L.Shown(Muted(d, t), f));
    assert Muted(Muted(L.Mirror(c, e, d, f), t).(first := false), t') == Muted(d', t');
    FieldsSift(c, rules, e', d', t', fs[1..], m);
    var k := P.Finished(c, e', fs[1..], m);
    TalliedTail(rules, t, t', fs, k);
  }

  lemma {:induction false} TalliedTail(rules: Rules, t: Tally, t': Tally, fs: seq<HeaderField>, k: nat)
    requires fs != [] && k < |fs| && t' == if t.status.Keeping? then Take(rules, t, fs[0]) else t
    ensures Tallied(rules, t', fs[1..][..k]) == Tallied(rules, t, fs[..k + 1])
  {
    hide Take;
    assert fs[..k + 1][1..] == fs[1..][..k] && fs[..k + 1][0] == fs[0];
  }

  //
  // The size updates before the fields
  //

  lemma {:induction false} UpdateSift(c: W.Context, rules: Rules, d: W.Decoder, t: Tally, size: nat, rest: seq<byte>)
    requires Huffman.Shaped(c.huffman) && size <= d.allowed && size <= E.UINT32_MAX && (d.first || d.ents == []) && t.status.Keeping?
    ensures Sift(c, rules, d, t, E.SizeUpdateBytes(size) + rest) == Sift(c, rules, L.Resized(d, size), t, rest)
  {
    hide W.ParseRepr, E.SizeUpdateBytes, Evict, Sift;
    L.UpdateRoundTrip(c, d, size, rest);
    SiftStep(c, rules, d, t, E.SizeUpdateBytes(size) + rest, rest, d.(maxSize := size, ents := Evict(d.ents, size)), []);
  }

  /** Less than a size update. */
  lemma {:induction false} UpdateWaits(c: W.Context, rules: Rules, d: W.Decoder, t: Tally, size: nat, tail: seq<byte>, n: nat)
    requires Huffman.Shaped(c.huffman) && size <= d.allowed && size <= E.UINT32_MAX && (d.first || d.ents == [])
    requires n < |E.SizeUpdateBytes(size)|
    ensures var r := Sift(c, rules, d, t, (E.SizeUpdateBytes(size) + tail)[..n]); r.err == None && r.t == t
  {
    hide W.ParseRepr, E.SizeUpdateBytes, Evict, Sift;
    var head := E.SizeUpdateBytes(size);
    assert (head + tail)[..n] == head[..n];
    if n == 0 {
      SiftNothing(c, rules, d, t);
    } else {
      P.PartialUpdate(c, d, size, n);
      SiftWaits(c, rules, d, t, head[..n]);
    }
  }

  /** Either part of the announced sizes, or all of them and some of what follows. */
  lemma {:induction false} AnnounceSift(c: W.Context, rules: Rules, e: E.Encoder, d: W.Decoder, t: Tally, tail: seq<byte>, n: nat)
    requires Huffman.Shaped(c.huffman) && L.Sync(c, e, d) && !L.Refused(e, d) && t.status.Keeping? && n <= |E.Announce(e) + tail|
    ensures var r := Sift(c, rules, d, t, (E.Announce(e) + tail)[..n]);
            if n < |E.Announce(e)| then r.err == None && r.t == t
            else r == Sift(c, rules, L.Informed(e, d), t, tail[..n - |E.Announce(e)|])
  {
    hide E.SizeUpdateBytes, Evict, Sift, Total, Size, L.Indexable, L.Suffix;
    if !e.update {
      assert [] + tail == tail;
    } else {
      var last := E.SizeUpdateBytes(e.maxSize);
      if e.minSize < e.maxSize {
        TwoUpdates(c, rules, e, d, t, tail, n);
      } else {
        assert [] + last == last;
        if n < |last| {
          UpdateWaits(c, rules, d, t, e.maxSize, tail, n);
        } else {
          assert (last + tail)[..n] == last + tail[..n - |last|];
          UpdateSift(c, rules, d, t, e.maxSize, tail[..n - |last|]);
        }
      }
    }
  }

  lemma {:induction false} TwoUpdates(c: W.Context, rules: Rules, e: E.Encoder, d: W.Decoder, t: Tally, tail: seq<byte>, n: nat)
    requires Huffman.Shaped(c.huffman) && L.Sync(c, e, d) && !L.Refused(e, d) && t.status.Keeping? && n <= |E.Announce(e) + tail|
    requires e.update && e.minSize < e.maxSize
    ensures var r := Sift(c, rules, d, t, (E.Announce(e) + tail)[..n]);
            if n < |E.Announce(e)| then r.err == None && r.t == t
            else r == Sift(c, rules, L.Informed(e, d), t, tail[..n - |E.Announce(e)|])
  {
    hide E.SizeUpdateBytes, Evict, Sift, Total, Size, L.Suffix;
    var first, last := E.SizeUpdateBytes(e.minSize), E.SizeUpdateBytes(e.maxSize);
    assert first + last + tail == first + (last + tail);
    L.NewestSurvives(d.ents, e.minSize);
    var d1 := L.Resized(d, e.minSize);
    if n < |first| {
      UpdateWaits(c, rules, d, t, e.minSize, last + tail, n);
    } else {
      var m := n - |first|;
      assert (first + (last + tail))[..n] == first + (last + tail)[..m];
      UpdateSift(c, rules, d, t, e.minSize, (last + tail)[..m]);
      if m < |last| {
        UpdateWaits(c, rules, d1, t, e.maxSize, tail, m);
      } else {
        assert (last + tail)[..m] == last + tail[..m - |last|];
        UpdateSift(c, rules, d1, t, e.maxSize, tail[..m - |last|]);
      }
    }
  }

  /**
   Any part of a block that is not refused and has no string over the limit decodes without an
   error and leaves the tally of the fields that have ended. After all of it the decoder has
   followed the encoder, whether or not the list was cut.
   */
  lemma {:induction false} BlockSift(c: W.Context, rules: Rules, e: E.Encoder, d: W.Decoder, t: Tally, fs: seq<HeaderField>, n: nat)
    requires Huffman.WellFormed(c.huffman) && L.Sync(c, e, d) && fs != [] && !L.Refused(e, d) && t.status.Keeping?
    requires (forall f <- fs :: L.FieldOk(f)) && L.AllFit(d.maxStrLen, fs) && d.maxStrLen <= E.UINT32_MAX
    requires n <= |L.BlockBytes(c, e, fs)|
    ensures var buf := L.BlockBytes(c, e, fs)[..n];
            && Underway(c, rules, d, t, buf, fs, P.Ended(c, e, fs, n))
            && (n == |L.BlockBytes(c, e, fs)| ==> Followed(c, rules, d, t, buf, L.MirrorAll(c, E.Announced(e), L.Informed(e, d), fs)))
  {
    hide Evict, Huffman.WellFormed, L.FieldFits, Total, E.Announce, L.FieldsBytes, L.BlockBytes, L.Indexable, Sift, Take, L.Agree, L.Refused, P.Finished, L.Sync, L.FieldOk, E.Announced, L.Informed;
    L.WellFormedIsShaped(c.huffman);
    var e', d' := E.Announced(e), L.Informed(e, d);
    var tail := L.FieldsBytes(c, e', fs);
    L.BlockIsAnnounced(c, e, fs);
    L.InformedAgrees(c, e, d);
    SyncEmits(c, e, d);
    AnnounceSift(c, rules, e, d, t, tail, n);
    if n < |E.Announce(e)| {
      assert fs[..0] == [];
    } else {
      FieldsSift(c, rules, e', d', t, fs, n - |E.Announce(e)|);
    }
  }

  lemma {:induction false} SyncEmits(c: W.Context, e: E.Encoder, d: W.Decoder)
    requires L.Sync(c, e, d)
    ensures L.Informed(e, d).emitEnabled && L.Informed(e, d).maxStrLen == d.maxStrLen
  {
    hide Evict, Total;
  }
}
