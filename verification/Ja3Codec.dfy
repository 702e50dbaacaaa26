/**
 The loops that build and take apart JA3 strings, and the loop that extracts a profile.
 */
module Ja3Codec {
  import opened Wrappers
  import opened Hello
  import opened Grease
  import opened Ja3
  import opened Ja3Strings

  lemma {:induction false} JoinPlus(ns: seq<nat>, n: nat)
    ensures Join(ns + [n]) == if ns == [] then Decimal(n) else Join(ns) + ['-'] + Decimal(n)
  {
    hide Decimal;
    if |ns| > 0 {
      JoinPlus(ns[1..], n);
      assert (ns + [n])[1..] == ns[1..] + [n];
      if |ns| == 1 {
        assert ns[1..] == [];
      } else {
        assert Decimal(ns[0]) + ['-'] + (Join(ns[1..]) + ['-'] + Decimal(n)) == Decimal(ns[0]) + ['-'] + Join(ns[1..]) + ['-'] + Decimal(n);
      }
    }
  }

  /** joinHexFiltered */
  method JoinFiltered(ids: seq<u16>) returns (s: string)
    ensures s == Join(Filter(ids))
  {
    hide Join, IsGrease, Decimal;
    s := "";
    var first, i := true, 0;
    ghost var done: seq<nat> := [];
    JoinNone();
    while i < |ids|
      invariant 0 <= i <= |ids| && done + Filter(ids[i..]) == Filter(ids) && s == Join(done) && first == (done == [])
    {
      assert ids[i..][1..] == ids[i + 1..];
      if !IsGrease(ids[i]) {
        JoinPlus(done, ids[i]);
        if !first {
          s := s + ['-'];
        }
        first := false;
        s := s + Decimal(ids[i]);
        done := done + [ids[i]];
      }
      i := i + 1;
    }
    assert done == Filter(ids);
  }

  lemma {:induction false} JoinNone()
    ensures Join([]) == ""
  {
  }

  /** parseU16List */
  method ParseU16List(s: string) returns (r: Option<seq<nat>>)
    ensures r == ParseList(s)
  {
    hide TrimSpace, ParseUint, SplitOn;
    if TrimSpace(s) == "" {
      return Some([]);
    }
    var parts := SplitOn(s, '-');
    var out: seq<nat>, i := [], 0;
    PrefixNone(ParseParts(parts, 0xffff));
    while i < |parts|
      invariant 0 <= i <= |parts| && ParseParts(parts, 0xffff) == Prefix(out, ParseParts(parts[i..], 0xffff))
    {
      assert parts[i..][1..] == parts[i + 1..] && parts[i..][0] == parts[i];
      var part := TrimSpace(parts[i]);
      if part != "" {
        var v := ParseUint(part, 0xffff);
        if v.None? {
          return None;
        }
        PrefixStep(out, v.value, ParseParts(parts[i + 1..], 0xffff));
        out := out + [v.value];
      }
      i := i + 1;
    }
    assert out + [] == out;
    return Some(out);
  }

  ghost function Prefix(out: seq<nat>, r: Option<seq<nat>>): (p: Option<seq<nat>>) {
    match r
    case None => None
    case Some(ns) => Some(out + ns)
  }

  lemma {:induction false} PrefixNone(r: Option<seq<nat>>)
    ensures Prefix([], r) == r
  {
    if r.Some? {
      assert [] + r.value == r.value;
    }
  }

  lemma {:induction false} PrefixStep(out: seq<nat>, n: nat, r: Option<seq<nat>>)
    ensures Prefix(out, Prefix([n], r)) == Prefix(out + [n], r)
  {
    if r.Some? {
      assert out + ([n] + r.value) == out + [n] + r.value;
    }
  }

  /** The types of the extensions, in order. */
  method ExtensionTypes(es: seq<Extension>) returns (ts: seq<u16>)
    ensures ts == Types(es)
  {
    ts := [];
    var i := 0;
    while i < |es|
      invariant 0 <= i <= |es| && ts + Types(es[i..]) == Types(es)
    {
      assert es[i..][1..] == es[i + 1..];
      ts := ts + [es[i].typ];
      i := i + 1;
    }
  }

  /** The loop of TLSProfile: later extensions of a type replace earlier ones. */
  method ExtractProfile(ch: ClientHello) returns (r: Option<Profile>)
    ensures r == TLSProfile(ch)
  {
    hide Decodes, Extracted, Types;
    var ts := ExtensionTypes(ch.extensions);
    var p := Profile(0, ch.ciphers, ts, [], [], [], [], [], [], [], 0, []);
    var i := 0;
    assert ch.extensions[0..] == ch.extensions;
    while i < |ch.extensions|
      invariant 0 <= i <= |ch.extensions| && Extract(p, ch.extensions[i..]) == TLSProfile(ch)
    {
      assert ch.extensions[i..][1..] == ch.extensions[i + 1..];
      if !Decodes(ch.extensions[i]) {
        return None;
      }
      p := Extracted(p, ch.extensions[i]);
      i := i + 1;
    }
    return Some(p);
  }
}
