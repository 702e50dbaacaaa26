/**
 The loops of the ClientHello codec: taking fields off a shrinking slice, filling the cipher
 and extension lists, and appending them to the output.
 */
module HelloCodec {
  import opened Wrappers
  import opened Sequences
  import opened Bytes
  import opened Hello

  /** The slice that the take functions advance. */
  class Cursor {
    var rest: seq<byte>

    constructor (s: seq<byte>)
      ensures rest == s
    {
      rest := s;
    }

    method TakeU8() returns (r: Result<byte, Error>)
      modifies this
      ensures old(rest) == [] ==> r == Err(Short) && rest == []
      ensures old(rest) != [] ==> r == Ok(old(rest)[0]) && rest == old(rest)[1..]
    {
      if |rest| < 1 {
        return Err(Short);
      }
      r := Ok(rest[0]);
      rest := rest[1..];
    }

    method TakeU16() returns (r: Result<u16, Error>)
      modifies this
      ensures |old(rest)| < 2 ==> r == Err(Short) && rest == old(rest)
      ensures |old(rest)| >= 2 ==> r == Ok(FromU16(old(rest)[0], old(rest)[1])) && rest == old(rest)[2..]
    {
      if |rest| < 2 {
        return Err(Short);
      }
      r := Ok(FromU16(rest[0], rest[1]));
      rest := rest[2..];
    }

    method Take(n: nat) returns (r: Result<seq<byte>, Error>)
      modifies this
      ensures |old(rest)| < n ==> r == Err(Short) && rest == old(rest)
      ensures |old(rest)| >= n ==> r == Ok(old(rest)[..n]) && rest == old(rest)[n..]
    {
      if |rest| < n {
        return Err(Short);
      }
      r := Ok(rest[..n]);
      rest := rest[n..];
    }

    /** A field with a length of one octet. */
    method TakeVector8() returns (r: Result<seq<byte>, Error>)
      modifies this
      ensures r.Ok? == TakeVec8(old(rest)).Ok? && (r.Err? ==> r.error == Short)
      ensures r.Ok? ==> TakeVec8(old(rest)) == Ok(Taken(r.value, rest))
    {
      var n := TakeU8();
      if n.Err? {
        return Err(n.error);
      }
      r := Take(n.value);
    }

    method TakeVector16() returns (r: Result<seq<byte>, Error>)
      modifies this
      ensures r.Ok? == TakeVec16(old(rest)).Ok? && (r.Err? ==> r.error == Short)
      ensures r.Ok? ==> TakeVec16(old(rest)) == Ok(Taken(r.value, rest))
    {
      var n := TakeU16();
      if n.Err? {
        return Err(n.error);
      }
      r := Take(n.value);
    }
  }

  lemma {:induction false} TakeErrors(s: seq<byte>)
    ensures TakeVec8(s).Err? ==> TakeVec8(s).error == Short
    ensures TakeVec16(s).Err? ==> TakeVec16(s).error == Short
  {
  }

  /** The loop that fills a list of 16-bit numbers. */
  method ReadU16s(raw: seq<byte>) returns (ns: seq<u16>)
    requires |raw| % 2 == 0
    ensures ns == FromU16s(raw)
  {
    ns := [];
    var i := 0;
    while i < |raw| / 2
      invariant 0 <= i <= |raw| / 2 && ns + FromU16s(raw[2 * i..]) == FromU16s(raw)
    {
      ghost var t := raw[2 * i..];
      assert t[2..] == raw[2 * (i + 1)..];
      ns := ns + [FromU16(raw[2 * i], raw[2 * i + 1])];
      i := i + 1;
    }
    assert raw[2 * i..] == [];
  }

  /** The loop that takes extensions off the block. */
  method ReadExtensions(raw: seq<byte>) returns (r: Result<seq<Extension>, Error>)
    ensures r == ParseExtensions(raw)
  {
    hide TakeVec16, FromU16;
    var c := new Cursor(raw);
    var es := [];
    PrefixedNone(ParseExtensions(raw));
    while |c.rest| > 0
      invariant ParseExtensions(raw) == Prefixed(es, ParseExtensions(c.rest))
      decreases |c.rest|
    {
      ghost var s := c.rest;
      if |c.rest| < 4 {
        return Err(Malformed);
      }
      TakeErrors(s[2..]);
      var typ := c.TakeU16();
      var body := c.TakeVector16();
      if body.Err? {
        return Err(body.error);
      }
      assert |c.rest| < |s| by { TakeShrinks(s[2..]); }
      PrefixedStep(es, Extension(typ.value, body.value), ParseExtensions(c.rest));
      es := es + [Extension(typ.value, body.value)];
    }
    assert es + [] == es;
    return Ok(es);
  }

  lemma {:induction false} TakeShrinks(s: seq<byte>)
    requires TakeVec16(s).Ok?
    ensures |TakeVec16(s).value.rest| < |s|
  {
  }

  ghost function Prefixed(es: seq<Extension>, r: Result<seq<Extension>, Error>): (p: Result<seq<Extension>, Error>) {
    match r
    case Ok(fs) => Ok(es + fs)
    case Err(e) => Err(e)
  }

  lemma {:induction false} PrefixedNone(r: Result<seq<Extension>, Error>)
    ensures Prefixed([], r) == r
  {
    if r.Ok? {
      assert [] + r.value == r.value;
    }
  }

  lemma {:induction false} PrefixedStep(es: seq<Extension>, x: Extension, r: Result<seq<Extension>, Error>)
    ensures Prefixed(es, Prefixed([x], r)) == Prefixed(es + [x], r)
  {
    if r.Ok? {
      assert es + ([x] + r.value) == es + [x] + r.value;
    }
  }

  /** ParseBody as the program runs it. */
  method ParseBodyBytes(body: seq<byte>) returns (r: Result<ClientHello, Error>)
    ensures r == ParseBody(body)
  {
    hide TakeVec8, TakeVec16, FromU16s, ParseExtensions, FromU16;
    if |body| < 34 {
      return Err(Short);
    }
    var version, random := FromU16(body[0], body[1]), body[2..34];
    var c := new Cursor(body[34..]);
    TakeErrors(c.rest);
    var sid := c.TakeVector8();
    if sid.Err? {
      return Err(sid.error);
    }
    if |c.rest| < 2 {
      return Err(Short);
    }
    if FromU16(c.rest[0], c.rest[1]) % 2 != 0 {
      return Err(Malformed);
    }
    TakeErrors(c.rest);
    TakeLength(c.rest);
    var cs := c.TakeVector16();
    if cs.Err? {
      return Err(cs.error);
    }
    r := ParseEnd(version, random, sid.value, cs.value, c);
  }

  lemma {:induction false} TakeLength(s: seq<byte>)
    requires |s| >= 2
    ensures TakeVec16(s).Ok? ==> |TakeVec16(s).value.bytes| == FromU16(s[0], s[1])
  {
  }

  method ParseEnd(version: u16, random: seq<byte>, sid: seq<byte>, cs: seq<byte>, c: Cursor) returns (r: Result<ClientHello, Error>)
    requires |cs| % 2 == 0
    modifies c
    ensures r == ParseAfterCiphers(version, random, sid, cs, old(c.rest))
  {
    hide TakeVec8, TakeVec16, FromU16s, ParseExtensions;
    var ciphers := ReadU16s(cs);
    TakeErrors(c.rest);
    var cm := c.TakeVector8();
    if cm.Err? {
      return Err(cm.error);
    }
    if |c.rest| == 0 {
      return Ok(ClientHello(version, random, sid, ciphers, cm.value, []));
    }
    TakeErrors(c.rest);
    var raw := c.TakeVector16();
    if raw.Err? {
      return Err(raw.error);
    }
    var es := ReadExtensions(raw.value);
    if es.Err? {
      return Err(es.error);
    }
    return Ok(ClientHello(version, random, sid, ciphers, cm.value, es.value));
  }

  //
  // Marshalling
  //

  method ExtBytesLen(es: seq<Extension>) returns (n: nat)
    ensures n == ExtensionsLength(es)
  {
    n := 0;
    var i := 0;
    while i < |es|
      invariant 0 <= i <= |es| && n + ExtensionsLength(es[i..]) == ExtensionsLength(es)
    {
      assert es[i..][1..] == es[i + 1..];
      n := n + 4 + |es[i].data|;
      i := i + 1;
    }
  }

  method AppendCiphers(out: seq<byte>, ciphers: seq<u16>) returns (r: seq<byte>)
    ensures r == out + U16s(ciphers)
  {
    hide U16;
    r := out;
    var i := 0;
    while i < |ciphers|
      invariant 0 <= i <= |ciphers| && r + U16s(ciphers[i..]) == out + U16s(ciphers)
    {
      assert ciphers[i..][1..] == ciphers[i + 1..];
      Assoc(r, U16(ciphers[i]), U16s(ciphers[i + 1..]));
      r := r + U16(ciphers[i]);
      i := i + 1;
    }
    assert r + [] == r;
  }

  method AppendExtensions(out: seq<byte>, es: seq<Extension>) returns (r: seq<byte>)
    requires forall e <- es :: |e.data| <= 0xffff
    ensures r == out + ExtensionBytes(es)
  {
    hide U16, Vec16;
    r := out;
    var i := 0;
    while i < |es|
      invariant 0 <= i <= |es| && r + ExtensionBytes(es[i..]) == out + ExtensionBytes(es)
    {
      assert es[i..][1..] == es[i + 1..] && es[i] in es;
      assert ExtensionBytes(es[i..]) == U16(es[i].typ) + Vec16(es[i].data) + ExtensionBytes(es[i + 1..]);
      Assoc(r, U16(es[i].typ) + Vec16(es[i].data), ExtensionBytes(es[i + 1..]));
      r := r + (U16(es[i].typ) + Vec16(es[i].data));
      i := i + 1;
    }
    assert r + [] == r;
  }

  /** MarshalBody: an error exactly when a part is too long or there is no cipher suite. */
  method MarshalBody(ch: ClientHello) returns (r: Result<seq<byte>, Error>)
    requires |ch.random| == 32
    ensures r.Ok? <==> Marshallable(ch)
    ensures r.Ok? ==> r.value == Body(ch)
  {
    hide U16s, ExtensionBytes, U16, ExtensionsLength;
    if |ch.sessionId| > 255 || |ch.ciphers| == 0 || |ch.ciphers| > 0x7fff || |ch.compression| > 255 {
      return Err(TooLarge);
    }
    var n := ExtBytesLen(ch.extensions);
    if |ch.extensions| > 0 && n > 0xffff {
      return Err(TooLarge);
    }
    U16sRoundTrip(ch.ciphers);
    var out := U16(ch.version) + ch.random + [|ch.sessionId|] + ch.sessionId + U16(2 * |ch.ciphers|);
    out := AppendCiphers(out, ch.ciphers);
    out := out + [|ch.compression|] + ch.compression;
    CoreIs(ch);
    if |ch.extensions| > 0 {
      ExtensionsFit(ch.extensions);
      out := out + U16(n);
      ghost var before := out;
      out := AppendExtensions(out, ch.extensions);
      Assoc(Core(ch), U16(n), ExtensionBytes(ch.extensions));
    }
    return Ok(out);
  }

  lemma {:induction false} CoreIs(ch: ClientHello)
    requires Marshallable(ch)
    ensures |U16s(ch.ciphers)| == 2 * |ch.ciphers|
    ensures Core(ch) == U16(ch.version) + ch.random + [|ch.sessionId|] + ch.sessionId + U16(2 * |ch.ciphers|) + U16s(ch.ciphers) + [|ch.compression|] + ch.compression
  {
    hide U16s, U16;
    U16sRoundTrip(ch.ciphers);
  }

  //
  // Bodies of extensions
  //

  /** The lists with a length of two octets: supported groups and signature algorithms. */
  function EncodeList16(ns: seq<u16>): (s: seq<byte>) {
    U16(2 * |ns| % 0x1_0000) + U16s(ns)
  }

  function DecodeList16(s: seq<byte>): (r: Result<seq<u16>, Error>) {
    if |s| < 2 then Err(Short)
    else
      var n: int := FromU16(s[0], s[1]);
      if n % 2 != 0 || 2 + n > |s| then Err(Malformed) else Ok(FromU16s(s[2..2 + n]))
  }

  /** Supported versions: a length of one octet. */
  function EncodeList8(ns: seq<u16>): (s: seq<byte>) {
    [2 * |ns| % 0x100] + U16s(ns)
  }

  function DecodeList8(s: seq<byte>): (r: Result<seq<u16>, Error>) {
    if |s| < 1 then Err(Short)
    else
      var n: int := s[0];
      if n % 2 != 0 || 1 + n > |s| then Err(Malformed) else Ok(FromU16s(s[1..1 + n]))
  }

  /** Point formats and key exchange modes: octets with a length of one octet. */
  function EncodeBytes8(x: seq<byte>): (s: seq<byte>) {
    [|x| % 0x100] + x
  }

  function DecodeBytes8(s: seq<byte>): (r: Result<seq<byte>, Error>) {
    if |s| < 1 then Err(Short)
    else
      var n: int := s[0];
      if 1 + n > |s| then Err(Short) else Ok(s[1..1 + n])
  }

  lemma {:induction false} PrefixLength(s: seq<byte>, n: nat)
    requires n <= |s| && n % 2 == 0
    ensures |FromU16s(s[..n])| == n / 2
  {
    FromU16sRoundTrip(s[..n]);
  }

  /** Decoding inverts encoding exactly for lists whose length fits its field. */
  lemma {:induction false} List16RoundTrip(ns: seq<u16>)
    ensures DecodeList16(EncodeList16(ns)) == Ok(ns) <==> |ns| <= 0x7fff
  {
    hide U16s, FromU16s;
    U16sRoundTrip(ns);
    var n, s := 2 * |ns| % 0x1_0000, EncodeList16(ns);
    assert s[2..2 + n] == U16s(ns)[..n];
    PrefixLength(U16s(ns), n);
    if |ns| <= 0x7fff {
      assert U16s(ns)[..n] == U16s(ns);
    }
  }

  lemma {:induction false} List8RoundTrip(ns: seq<u16>)
    ensures DecodeList8(EncodeList8(ns)) == Ok(ns) <==> |ns| <= 127
  {
    hide U16s, FromU16s;
    U16sRoundTrip(ns);
    var n, s := 2 * |ns| % 0x100, EncodeList8(ns);
    assert s[1..1 + n] == U16s(ns)[..n];
    PrefixLength(U16s(ns), n);
    if |ns| <= 127 {
      assert U16s(ns)[..n] == U16s(ns);
    }
  }

  lemma {:induction false} Bytes8RoundTrip(x: seq<byte>)
    ensures DecodeBytes8(EncodeBytes8(x)) == Ok(x) <==> |x| <= 255
  {
    var n: int := |x| % 0x100;
    var s := EncodeBytes8(x);
    assert s[1..] == x;
    assert s[1..1 + n] == s[1..][..n];
    if |x| <= 255 {
      assert x[..n] == x;
    }
  }
}
