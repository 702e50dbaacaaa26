/**
 The TLS ClientHello (section 4.1.2 of RFC 8446): printing and parsing of the body, of the
 handshake message and of the record, and the detection of which of the three is given.
 */
module Hello {
  import opened Wrappers
  import opened Bytes

  type u16 = n: int | 0 <= n < 0x1_0000

  datatype Error = Short | Malformed | BadRecordType | BadHandshakeType | TooLarge

  datatype Extension = Extension(typ: u16, data: seq<byte>)

  datatype ClientHello = ClientHello(
    version: u16, random: seq<byte>, sessionId: seq<byte>, ciphers: seq<u16>,
    compression: seq<byte>, extensions: seq<Extension>)

  //
  // Numbers and length-prefixed vectors
  //

  function U16(n: u16): (s: seq<byte>) {
    [n / 0x100, n % 0x100]
  }

  function U16s(ns: seq<u16>): (s: seq<byte>) {
    if ns == [] then [] else U16(ns[0]) + U16s(ns[1..])
  }

  function FromU16s(s: seq<byte>): (ns: seq<u16>)
    requires |s| % 2 == 0
  {
    if s == [] then [] else [FromU16(s[0], s[1])] + FromU16s(s[2..])
  }

  lemma {:induction false} U16sRoundTrip(ns: seq<u16>)
    ensures |U16s(ns)| == 2 * |ns| && FromU16s(U16s(ns)) == ns
  {
    if ns != [] {
      U16sRoundTrip(ns[1..]);
      assert (U16(ns[0]) + U16s(ns[1..]))[2..] == U16s(ns[1..]);
    }
  }

  lemma {:induction false} FromU16sRoundTrip(s: seq<byte>)
    requires |s| % 2 == 0
    ensures |FromU16s(s)| == |s| / 2 && U16s(FromU16s(s)) == s
  {
    if s != [] {
      FromU16sRoundTrip(s[2..]);
      var ns := FromU16s(s);
      assert ns[1..] == FromU16s(s[2..]);
      assert s == [s[0], s[1]] + s[2..];
    }
  }

  /** A vector and what follows it. */
  datatype Taken = Taken(bytes: seq<byte>, rest: seq<byte>)

  function TakeBytes(s: seq<byte>, n: nat): (r: Result<Taken, Error>) {
    if |s| < n then Err(Short) else Ok(Taken(s[..n], s[n..]))
  }

  /** A vector with a length of one octet. */
  function TakeVec8(s: seq<byte>): (r: Result<Taken, Error>) {
    if |s| < 1 then Err(Short) else TakeBytes(s[1..], s[0])
  }

  function TakeVec16(s: seq<byte>): (r: Result<Taken, Error>) {
    if |s| < 2 then Err(Short) else TakeBytes(s[2..], FromU16(s[0], s[1]))
  }

  function Vec8(x: seq<byte>): (s: seq<byte>)
    requires |x| <= 255
  {
    [|x|] + x
  }

  function Vec16(x: seq<byte>): (s: seq<byte>)
    requires |x| <= 0xffff
  {
    U16(|x|) + x
  }

  lemma {:induction false} TakeBytesSplit(x: seq<byte>, rest: seq<byte>)
    ensures TakeBytes(x + rest, |x|) == Ok(Taken(x, rest))
  {
  }

  /** Parsing a vector inverts printing it, whatever follows, and parses nothing else. */
  lemma {:induction false} Vec8RoundTrip(x: seq<byte>, rest: seq<byte>)
    requires |x| <= 255
    ensures TakeVec8(Vec8(x) + rest) == Ok(Taken(x, rest))
  {
    assert (Vec8(x) + rest)[1..] == x + rest;
    TakeBytesSplit(x, rest);
  }

  lemma {:induction false} TakeVec8Inverse(s: seq<byte>)
    requires TakeVec8(s).Ok?
    ensures var t := TakeVec8(s).value; |t.bytes| <= 255 && s == Vec8(t.bytes) + t.rest
  {
    var t := TakeVec8(s).value;
    assert s[1..] == t.bytes + t.rest;
  }

  lemma {:induction false} Vec16RoundTrip(x: seq<byte>, rest: seq<byte>)
    requires |x| <= 0xffff
    ensures TakeVec16(Vec16(x) + rest) == Ok(Taken(x, rest))
  {
    assert (Vec16(x) + rest)[2..] == x + rest;
    TakeBytesSplit(x, rest);
  }

  lemma {:induction false} TakeVec16Inverse(s: seq<byte>)
    requires TakeVec16(s).Ok?
    ensures var t := TakeVec16(s).value; |t.bytes| <= 0xffff && s == Vec16(t.bytes) + t.rest
  {
    var t := TakeVec16(s).value;
    assert s[2..] == t.bytes + t.rest;
    assert U16(FromU16(s[0], s[1])) == [s[0], s[1]];
  }

  //
  // Extensions
  //

  function ExtensionBytes(es: seq<Extension>): (s: seq<byte>)
    requires forall e <- es :: |e.data| <= 0xffff
  {
    if es == [] then []
    else
      assert es[0] in es;
      U16(es[0].typ) + Vec16(es[0].data) + ExtensionBytes(es[1..])
  }

  /** extBytesLen */
  function ExtensionsLength(es: seq<Extension>): (n: nat) {
    if es == [] then 0 else 4 + |es[0].data| + ExtensionsLength(es[1..])
  }

  function ParseExtensions(s: seq<byte>): (r: Result<seq<Extension>, Error>)
    decreases |s|
  {
    if s == [] then Ok([])
    else if |s| < 4 then Err(Malformed)
    else match TakeVec16(s[2..])
      case Err(e) => Err(e)
      case Ok(t) =>
        match ParseExtensions(t.rest)
        case Err(e) => Err(e)
        case Ok(es) => Ok([Extension(FromU16(s[0], s[1]), t.bytes)] + es)
  }

  /** Extensions that fit a block of at most 0xffff octets fit one by one. */
  lemma {:induction false} ExtensionsFit(es: seq<Extension>)
    requires ExtensionsLength(es) <= 0xffff
    ensures forall e <- es :: |e.data| <= 0xffff
    ensures |ExtensionBytes(es)| == ExtensionsLength(es)
  {
    if es != [] {
      ExtensionsFit(es[1..]);
      forall e | e in es
        ensures |e.data| <= 0xffff
      {
        if e != es[0] {
          assert e in es[1..];
        }
      }
    }
  }

  lemma {:induction false} ExtensionsRoundTrip(es: seq<Extension>)
    requires forall e <- es :: |e.data| <= 0xffff
    ensures ParseExtensions(ExtensionBytes(es)) == Ok(es)
  {
    hide TakeVec16, Vec16, U16, FromU16;
    if es != [] {
      assert es[0] in es;
      ExtensionsRoundTrip(es[1..]);
      ExtensionStep(es[0], ExtensionBytes(es[1..]), es[1..]);
      assert [es[0]] + es[1..] == es;
    }
  }

  lemma {:induction false} ExtensionStep(e: Extension, t: seq<byte>, es: seq<Extension>)
    requires |e.data| <= 0xffff && ParseExtensions(t) == Ok(es)
    ensures ParseExtensions(U16(e.typ) + Vec16(e.data) + t) == Ok([e] + es)
  {
    hide TakeVec16, Vec16;
    Vec16RoundTrip(e.data, t);
    Vec16Length(e.data);
    var s := U16(e.typ) + Vec16(e.data) + t;
    assert s[2..] == Vec16(e.data) + t;
  }

  lemma {:induction false} Vec16Length(x: seq<byte>)
    requires |x| <= 0xffff
    ensures |Vec16(x)| == |x| + 2
  {
  }

  lemma {:induction false} ParseExtensionsInverse(s: seq<byte>)
    requires ParseExtensions(s).Ok?
    ensures var es := ParseExtensions(s).value; (forall e <- es :: |e.data| <= 0xffff) && ExtensionBytes(es) == s
    decreases |s|
  {
    hide TakeVec16, Vec16, U16, FromU16;
    if s != [] {
      TakeVec16Inverse(s[2..]);
      var t := TakeVec16(s[2..]).value;
      Vec16Length(t.bytes);
      ParseExtensionsInverse(t.rest);
      U16Back(s[0], s[1]);
      var es, more := ParseExtensions(s).value, ParseExtensions(t.rest).value;
      var x := Extension(FromU16(s[0], s[1]), t.bytes);
      assert es == [x] + more && es[1..] == more && es[0] == x;
      assert s == [s[0], s[1]] + s[2..];
    }
  }

  lemma {:induction false} U16Back(a: byte, b: byte)
    ensures U16(FromU16(a, b)) == [a, b]
  {
  }

  //
  // Bodies
  //

  /** The body up to the compression methods. */
  function Core(ch: ClientHello): (s: seq<byte>)
    requires |ch.sessionId| <= 255 && |ch.ciphers| <= 0x7fff && |ch.compression| <= 255
  {
    U16sRoundTrip(ch.ciphers);
    U16(ch.version) + (ch.random + (Vec8(ch.sessionId) + (Vec16(U16s(ch.ciphers)) + Vec8(ch.compression))))
  }

  /** What MarshalBody checks. */
  predicate Marshallable(ch: ClientHello) {
    && |ch.random| == 32 && |ch.sessionId| <= 255 && 1 <= |ch.ciphers| <= 0x7fff && |ch.compression| <= 255
    && (ch.extensions != [] ==> ExtensionsLength(ch.extensions) <= 0xffff)
  }

  /** The extension block; without extensions there is none. */
  function ExtensionBlock(es: seq<Extension>): (s: seq<byte>)
    requires es != [] ==> ExtensionsLength(es) <= 0xffff
  {
    if es == [] then []
    else
      ExtensionsFit(es);
      Vec16(ExtensionBytes(es))
  }

  function Body(ch: ClientHello): (s: seq<byte>)
    requires Marshallable(ch)
  {
    Core(ch) + ExtensionBlock(ch.extensions)
  }

  /** What follows the cipher suites of length n. */
  function ParseAfterCiphers(version: u16, random: seq<byte>, sessionId: seq<byte>, ciphers: seq<byte>, s: seq<byte>): (r: Result<ClientHello, Error>)
    requires |ciphers| % 2 == 0
  {
    match TakeVec8(s)
    case Err(e) => Err(e)
    case Ok(compression) =>
      var ch := ClientHello(version, random, sessionId, FromU16s(ciphers), compression.bytes, []);
      if compression.rest == [] then Ok(ch)
      else match TakeVec16(compression.rest)
        case Err(e) => Err(e)
        case Ok(block) =>
          match ParseExtensions(block.bytes)
          case Err(e) => Err(e)
          case Ok(es) => Ok(ch.(extensions := es))
  }

  /** ParseBody; octets after the extension block are ignored. */
  function ParseBody(s: seq<byte>): (r: Result<ClientHello, Error>) {
    if |s| < 34 then Err(Short)
    else match TakeVec8(s[34..])
      case Err(e) => Err(e)
      case Ok(sid) =>
        if |sid.rest| < 2 then Err(Short)
        else if FromU16(sid.rest[0], sid.rest[1]) % 2 != 0 then Err(Malformed)
        else match TakeVec16(sid.rest)
          case Err(e) => Err(e)
          case Ok(cs) => ParseAfterCiphers(FromU16(s[0], s[1]), s[2..34], sid.bytes, cs.bytes, cs.rest)
  }

  lemma {:induction false} AfterCiphersRoundTrip(ch: ClientHello)
    requires Marshallable(ch)
    ensures |U16s(ch.ciphers)| == 2 * |ch.ciphers|
    ensures ParseAfterCiphers(ch.version, ch.random, ch.sessionId, U16s(ch.ciphers), Vec8(ch.compression) + ExtensionBlock(ch.extensions)) == Ok(ch)
  {
    hide TakeVec8, TakeVec16, Vec8, Vec16, U16s, FromU16s, ParseExtensions, ExtensionBytes;
    U16sRoundTrip(ch.ciphers);
    Vec8RoundTrip(ch.compression, ExtensionBlock(ch.extensions));
    if ch.extensions != [] {
      ExtensionsFit(ch.extensions);
      var x := ExtensionBytes(ch.extensions);
      Vec16RoundTrip(x, []);
      Vec16Length(x);
      assert Vec16(x) + [] == Vec16(x);
      ExtensionsRoundTrip(ch.extensions);
    }
  }

  /** Parsing inverts marshalling. */
  lemma {:induction false} BodyRoundTrip(ch: ClientHello)
    requires Marshallable(ch)
    ensures ParseBody(Body(ch)) == Ok(ch)
  {
    hide TakeVec8, TakeVec16, Vec8, Vec16, U16s, ExtensionBlock, ParseAfterCiphers;
    U16sRoundTrip(ch.ciphers);
    var rest := Vec8(ch.compression) + ExtensionBlock(ch.extensions);
    var cs := Vec16(U16s(ch.ciphers));
    var sid := Vec8(ch.sessionId);
    BodyIs(ch);
    var s := U16(ch.version) + (ch.random + (sid + (cs + rest)));
    assert s[2..] == ch.random + (sid + (cs + rest));
    assert s[34..] == s[2..][32..] == sid + (cs + rest);
    assert s[2..34] == s[2..][..32] == ch.random;
    Vec8RoundTrip(ch.sessionId, cs + rest);
    Vec16RoundTrip(U16s(ch.ciphers), rest);
    CipherLength(U16s(ch.ciphers), rest);
    AfterCiphersRoundTrip(ch);
    assert FromU16(s[0], s[1]) == ch.version;
  }

  lemma {:induction false} CipherLength(x: seq<byte>, rest: seq<byte>)
    requires |x| <= 0xffff
    ensures |Vec16(x) + rest| >= 2 && FromU16((Vec16(x) + rest)[0], (Vec16(x) + rest)[1]) == |x|
  {
  }

  lemma {:induction false} BodyIs(ch: ClientHello)
    requires Marshallable(ch)
    ensures |U16s(ch.ciphers)| == 2 * |ch.ciphers|
    ensures Body(ch) == U16(ch.version) + (ch.random + (Vec8(ch.sessionId) + (Vec16(U16s(ch.ciphers)) + (Vec8(ch.compression) + ExtensionBlock(ch.extensions)))))
  {
    hide U16, Vec8, Vec16, U16s, ExtensionBlock;
    U16sRoundTrip(ch.ciphers);
    Nest(U16(ch.version), ch.random, Vec8(ch.sessionId), Vec16(U16s(ch.ciphers)), Vec8(ch.compression), ExtensionBlock(ch.extensions));
  }

  lemma {:induction false} Nest(a: seq<byte>, b: seq<byte>, c: seq<byte>, d: seq<byte>, e: seq<byte>, f: seq<byte>)
    ensures a + (b + (c + (d + e))) + f == a + (b + (c + (d + (e + f))))
  {
    assert (d + e) + f == d + (e + f);
    assert (c + (d + e)) + f == c + ((d + e) + f);
    assert (b + (c + (d + e))) + f == b + ((c + (d + e)) + f);
  }

  //
  // Marshalling inverts parsing
  //

  /** What the parser saw after the compression methods: nothing, or a block and octets it ignored. */
  ghost predicate Tail(es: seq<Extension>, tail: seq<byte>) {
    (es == [] && tail == [])
    || ((forall e <- es :: |e.data| <= 0xffff) && |ExtensionBytes(es)| <= 0xffff && Vec16(ExtensionBytes(es)) <= tail)
  }

  lemma {:induction false} AfterCiphersInverse(version: u16, random: seq<byte>, sessionId: seq<byte>, ciphers: seq<byte>, s: seq<byte>)
    requires |ciphers| % 2 == 0 && ParseAfterCiphers(version, random, sessionId, ciphers, s).Ok?
    ensures var ch := ParseAfterCiphers(version, random, sessionId, ciphers, s).value;
            && ch.version == version && ch.random == random && ch.sessionId == sessionId && ch.ciphers == FromU16s(ciphers)
            && |ch.compression| <= 255 && |Vec8(ch.compression)| <= |s| && s == Vec8(ch.compression) + s[|Vec8(ch.compression)|..]
            && Tail(ch.extensions, s[|Vec8(ch.compression)|..])
  {
    hide TakeVec8, TakeVec16, Vec8, Vec16, FromU16s, ParseExtensions, ExtensionBytes;
    TakeVec8Inverse(s);
    var c := TakeVec8(s).value;
    assert s[|Vec8(c.bytes)|..] == c.rest;
    if c.rest != [] {
      TakeVec16Inverse(c.rest);
      ParseExtensionsInverse(TakeVec16(c.rest).value.bytes);
    }
  }

  lemma {:induction false} ParseBodyInverse(s: seq<byte>)
    requires ParseBody(s).Ok?
    ensures var ch := ParseBody(s).value;
            && |ch.random| == 32 && |ch.sessionId| <= 255 && |ch.ciphers| <= 0x7fff && |ch.compression| <= 255
            && |Core(ch)| <= |s| && s == Core(ch) + s[|Core(ch)|..] && Tail(ch.extensions, s[|Core(ch)|..])
  {
    hide TakeVec8, TakeVec16, Vec8, Vec16, FromU16s, U16s, ParseAfterCiphers, Tail;
    var ch := ParseBody(s).value;
    TakeVec8Inverse(s[34..]);
    var sid := TakeVec8(s[34..]).value;
    TakeVec16Inverse(sid.rest);
    var cs := TakeVec16(sid.rest).value;
    CipherLength(cs.bytes, cs.rest);
    FromU16sRoundTrip(cs.bytes);
    AfterCiphersInverse(FromU16(s[0], s[1]), s[2..34], sid.bytes, cs.bytes, cs.rest);
    var c := Vec8(ch.compression);
    var tail := cs.rest[|c|..];
    assert U16(ch.version) == [s[0], s[1]];
    HeadOf(s);
    Nest(U16(ch.version), ch.random, Vec8(ch.sessionId), Vec16(U16s(ch.ciphers)), c, tail);
    assert s == Core(ch) + tail;
    assert s[|Core(ch)|..] == tail;
  }

  lemma {:induction false} HeadOf(s: seq<byte>)
    requires |s| >= 34
    ensures s == [s[0], s[1]] + (s[2..34] + s[34..])
  {
  }

  /** The length of what Body prints. */
  function BodyLength(ch: ClientHello): (n: nat)
    requires |ch.sessionId| <= 255 && |ch.ciphers| <= 0x7fff && |ch.compression| <= 255
  {
    |Core(ch)| + if ch.extensions == [] then 0 else 2 + ExtensionsLength(ch.extensions)
  }

  lemma {:induction false} LengthOfExtensions(es: seq<Extension>)
    requires forall e <- es :: |e.data| <= 0xffff
    ensures |ExtensionBytes(es)| == ExtensionsLength(es)
  {
    if es != [] {
      LengthOfExtensions(es[1..]);
    }
  }

  lemma {:induction false} BodyLengthIs(ch: ClientHello)
    requires Marshallable(ch)
    ensures |Body(ch)| == BodyLength(ch)
  {
    hide Core, Vec16;
    if ch.extensions != [] {
      ExtensionsFit(ch.extensions);
      Vec16Length(ExtensionBytes(ch.extensions));
    }
  }

  /** A parsed hello is never longer printed than its input was. */
  lemma {:induction false} ParsedIsNoLonger(s: seq<byte>)
    requires ParseBody(s).Ok?
    ensures var ch := ParseBody(s).value;
            && |ch.random| == 32 && |ch.sessionId| <= 255 && |ch.ciphers| <= 0x7fff && |ch.compression| <= 255
            && BodyLength(ch) <= |s|
            && (ch.extensions != [] ==> ExtensionsLength(ch.extensions) <= 0xffff)
  {
    hide Core, ParseBody, Vec16;
    ParseBodyInverse(s);
    var ch := ParseBody(s).value;
    if ch.extensions != [] {
      LengthOfExtensions(ch.extensions);
      Vec16Length(ExtensionBytes(ch.extensions));
    }
  }

  function OctetAt(s: seq<byte>, i: nat): (b: byte) {
    if i < |s| then s[i] else 0
  }

  function NumberAt(s: seq<byte>, i: nat): (n: nat) {
    FromU16(OctetAt(s, i), OctetAt(s, i + 1))
  }

  /** Where the lengths of the cipher suites and the compression methods are, and the extension block. */
  function CiphersAt(s: seq<byte>): (i: nat) {
    35 + OctetAt(s, 34)
  }

  function CompressionAt(s: seq<byte>): (i: nat) {
    CiphersAt(s) + 2 + NumberAt(s, CiphersAt(s))
  }

  function BlockAt(s: seq<byte>): (i: nat) {
    CompressionAt(s) + 1 + OctetAt(s, CompressionAt(s))
  }

  /** Octets with a cipher suite, and with no extension block or one that is not empty and ends them. */
  predicate Tidy(s: seq<byte>) {
    && NumberAt(s, CiphersAt(s)) != 0
    && (|s| == BlockAt(s) || (NumberAt(s, BlockAt(s)) != 0 && |s| == BlockAt(s) + 2 + NumberAt(s, BlockAt(s))))
  }

  lemma {:induction false} CoreOffsets(ch: ClientHello, tail: seq<byte>)
    requires |ch.random| == 32 && |ch.sessionId| <= 255 && |ch.ciphers| <= 0x7fff && |ch.compression| <= 255
    ensures var s := Core(ch) + tail;
            NumberAt(s, CiphersAt(s)) == 2 * |ch.ciphers| && BlockAt(s) == |Core(ch)|
  {
    hide U16s, U16, Vec8, Vec16, OctetAt, FromU16;
    U16sRoundTrip(ch.ciphers);
    var n, u := |ch.sessionId|, U16s(ch.ciphers);
    var a, c := U16(ch.version), Vec8(ch.compression);
    Nest(a, ch.random, Vec8(ch.sessionId), Vec16(u), c, tail);
    var s := Core(ch) + tail;
    assert |a| == 2 by { U16Length(ch.version); }
    Skip(s, 0, a, ch.random + (Vec8(ch.sessionId) + (Vec16(u) + (c + tail))));
    Skip(s, 2, ch.random, Vec8(ch.sessionId) + (Vec16(u) + (c + tail)));
    Vec8Head(ch.sessionId, Vec16(u) + (c + tail));
    OctetFromTail(s, 34);
    Skip(s, 34, Vec8(ch.sessionId), Vec16(u) + (c + tail));
    CipherLength(u, c + tail);
    Vec16Length(u);
    OctetFromTail(s, 35 + n);
    Skip(s, 35 + n, Vec16(u), c + tail);
    Vec8Head(ch.compression, tail);
    OctetFromTail(s, 37 + n + |u|);
  }

  lemma {:induction false} U16Length(n: u16)
    ensures |U16(n)| == 2
  {
  }

  lemma {:induction false} Vec8Head(x: seq<byte>, rest: seq<byte>)
    requires |x| <= 255
    ensures |Vec8(x)| == |x| + 1 && (Vec8(x) + rest)[0] == |x|
  {
  }

  lemma {:induction false} Skip(s: seq<byte>, i: nat, x: seq<byte>, rest: seq<byte>)
    requires i <= |s| && s[i..] == x + rest
    ensures i + |x| <= |s| && s[i + |x|..] == rest
  {
    assert s[i + |x|..] == s[i..][|x|..];
  }

  lemma {:induction false} OctetFromTail(s: seq<byte>, i: nat)
    requires i <= |s|
    ensures |s[i..]| > 0 ==> OctetAt(s, i) == s[i..][0]
    ensures |s[i..]| > 1 ==> OctetAt(s, i + 1) == s[i..][1]
  {
  }

  /**
   Marshalling gives back the parsed octets exactly when they have a cipher suite and the parser
   ignored nothing: no empty extension block and no octets after the block.
   */
  lemma {:induction false} MarshalInvertsParse(s: seq<byte>)
    requires ParseBody(s).Ok?
    ensures var ch := ParseBody(s).value;
            (Marshallable(ch) && Body(ch) == s) <==> Tidy(s)
  {
    hide Core, ParseBody, Vec16, ExtensionBytes, CiphersAt, BlockAt, Tail;
    ParseBodyInverse(s);
    ParsedIsNoLonger(s);
    var ch := ParseBody(s).value;
    var tail := s[|Core(ch)|..];
    CoreOffsets(ch, tail);
    TailIsBlock(ch.extensions, tail);
    OctetFromTail(s, |Core(ch)|);
    if Marshallable(ch) && Body(ch) == s {
      assert tail == ExtensionBlock(ch.extensions);
    }
  }

  /** A tail is the block that would be printed exactly when it is empty or a whole block that is not. */
  lemma {:induction false} TailIsBlock(es: seq<Extension>, tail: seq<byte>)
    requires Tail(es, tail) && (es != [] ==> ExtensionsLength(es) <= 0xffff)
    ensures tail == [] || |tail| >= 2
    ensures tail == ExtensionBlock(es) <==>
      tail == [] || (FromU16(tail[0], tail[1]) != 0 && |tail| == 2 + FromU16(tail[0], tail[1]))
  {
    hide ExtensionBytes;
    NoExtensions();
    if !(es == [] && tail == []) {
      LengthOfExtensions(es);
      var x := ExtensionBytes(es);
      assert tail[..2] == Vec16(x)[..2] == U16(|x|);
      assert tail[0] == tail[..2][0] && tail[1] == tail[..2][1];
      if es != [] {
        assert |x| >= 4;
      }
    }
  }

  lemma {:induction false} NoExtensions()
    ensures ExtensionBytes([]) == []
  {
  }

  //
  // Handshake messages and records
  //

  const MAX_BODY := 131619
  const HANDSHAKE: byte := 0x16
  const CLIENT_HELLO: byte := 0x01
  const MAX_RECORD := 16384

  lemma {:induction false} BodyIsSmall(ch: ClientHello)
    requires Marshallable(ch)
    ensures 40 <= |Body(ch)| <= MAX_BODY && Body(ch)[..2] == U16(ch.version)
  {
    hide ExtensionBlock, U16s;
    BodyLengthIs(ch);
    U16sRoundTrip(ch.ciphers);
    BodyIs(ch);
  }

  function Handshake(ch: ClientHello): (s: seq<byte>)
    requires Marshallable(ch)
  {
    BodyIsSmall(ch);
    [CLIENT_HELLO] + U24(|Body(ch)|) + Body(ch)
  }

  function ParseHandshake(s: seq<byte>): (r: Result<ClientHello, Error>) {
    if |s| < 4 then Err(Short)
    else if s[0] != CLIENT_HELLO then Err(BadHandshakeType)
    else
      var n := FromU24(s[1], s[2], s[3]);
      if |s| < 4 + n then Err(Short) else ParseBody(s[4..4 + n])
  }

  lemma {:induction false} HandshakeRoundTrip(ch: ClientHello, rest: seq<byte>)
    requires Marshallable(ch)
    ensures ParseHandshake(Handshake(ch) + rest) == Ok(ch)
  {
    hide Body, ParseBody, Marshallable, U24, FromU24;
    BodyIsSmall(ch);
    BodyRoundTrip(ch);
    var n := |Body(ch)|;
    U24RoundTrip(n);
    var s := [CLIENT_HELLO] + U24(n) + Body(ch) + rest;
    assert s[4..4 + n] == Body(ch);
  }

  /** MarshalRecord; a record version of 0 stands for the hello's own. */
  function Record(ch: ClientHello, version: u16): (r: Result<seq<byte>, Error>)
    requires Marshallable(ch)
  {
    var h := Handshake(ch);
    if |h| > MAX_RECORD then Err(TooLarge)
    else Ok([HANDSHAKE] + U16(if version == 0 then ch.version else version) + U16(|h|) + h)
  }

  function ParseRecord(s: seq<byte>): (r: Result<(ClientHello, u16), Error>) {
    if |s| < 5 then Err(Short)
    else if s[0] != HANDSHAKE then Err(BadRecordType)
    else
      var n := FromU16(s[3], s[4]);
      if |s| < 5 + n then Err(Short)
      else match ParseHandshake(s[5..5 + n])
        case Err(e) => Err(e)
        case Ok(ch) => Ok((ch, FromU16(s[1], s[2])))
  }

  lemma {:induction false} RecordRoundTrip(ch: ClientHello, version: u16, rest: seq<byte>)
    requires Marshallable(ch) && Record(ch, version).Ok?
    ensures ParseRecord(Record(ch, version).value + rest) == Ok((ch, if version == 0 then ch.version else version))
  {
    hide Handshake, ParseHandshake, Marshallable;
    HandshakeRoundTrip(ch, []);
    var h, v := Handshake(ch), if version == 0 then ch.version else version;
    assert h + [] == h;
    var s := [HANDSHAKE] + U16(v) + U16(|h|) + h + rest;
    assert s[5..5 + |h|] == h;
    assert s[0] == HANDSHAKE && FromU16(s[1], s[2]) == v && FromU16(s[3], s[4]) == |h|;
  }

  //
  // Detection of the framing
  //

  predicate LooksLikeHandshake(s: seq<byte>) {
    |s| >= 4 && s[0] <= 0x1f && FromU24(s[1], s[2], s[3]) == |s| - 4
  }

  function Parse(s: seq<byte>): (r: Result<ClientHello, Error>) {
    if s == [] then Err(Short)
    else if s[0] == HANDSHAKE then
      (match ParseRecord(s)
       case Err(e) => Err(e)
       case Ok(p) => Ok(p.0))
    else if s[0] in {0x14, 0x15, 0x17} then Err(if |s| < 5 then Short else BadRecordType)
    else if s[0] == CLIENT_HELLO then ParseHandshake(s)
    else if LooksLikeHandshake(s) then Err(BadHandshakeType)
    else ParseBody(s)
  }

  /** First octets that Parse takes for a record or a handshake message. */
  predicate Framed(b: byte) {
    b == CLIENT_HELLO || 0x14 <= b <= 0x17
  }

  lemma {:induction false} ParseFindsRecordsAndHandshakes(ch: ClientHello, version: u16)
    requires Marshallable(ch)
    ensures Parse(Handshake(ch)) == Ok(ch)
    ensures Record(ch, version).Ok? ==> Parse(Record(ch, version).value) == Ok(ch)
  {
    hide ParseHandshake, ParseRecord, ParseBody, Body, Marshallable;
    HandshakeRoundTrip(ch, []);
    assert Handshake(ch) + [] == Handshake(ch);
    if Record(ch, version).Ok? {
      RecordRoundTrip(ch, version, []);
      assert Record(ch, version).value + [] == Record(ch, version).value;
    }
  }

  /** A hello inside its own body would be shorter than itself. */
  lemma {:induction false} NotInsideItself(ch: ClientHello, s: seq<byte>)
    requires Marshallable(ch) && |s| < |Body(ch)|
    ensures ParseBody(s) != Ok(ch)
  {
    hide Body, ParseBody, Core, ExtensionsLength;
    BodyLengthIs(ch);
    if ParseBody(s) == Ok(ch) {
      ParsedIsNoLonger(s);
    }
  }

  /** Parse recognises a body exactly when neither its first octet nor its embedded length looks like framing. */
  lemma {:induction false} ParseFindsBodies(ch: ClientHello)
    requires Marshallable(ch)
    ensures |Body(ch)| >= 4
    ensures Parse(Body(ch)) == Ok(ch) <==> !Framed(Body(ch)[0]) && !LooksLikeHandshake(Body(ch))
  {
    hide Body, ParseBody, Marshallable;
    BodyIsSmall(ch);
    BodyRoundTrip(ch);
    var s := Body(ch);
    if s[0] == HANDSHAKE {
      var n: int := FromU16(s[3], s[4]);
      if |s| >= 5 + n && n >= 4 {
        var t := s[5..5 + n];
        var m := FromU24(t[1], t[2], t[3]);
        if 4 + m <= n {
          NotInsideItself(ch, t[4..4 + m]);
        }
      }
    } else if s[0] == CLIENT_HELLO {
      var n := FromU24(s[1], s[2], s[3]);
      if |s| >= 4 + n {
        NotInsideItself(ch, s[4..4 + n]);
      }
    }
  }

  /** With the legacy version of every modern client that is always so: the embedded length is too big. */
  lemma {:induction false} ModernBodiesAreFound(ch: ClientHello)
    requires Marshallable(ch) && ch.version == 0x0303
    ensures Parse(Body(ch)) == Ok(ch)
  {
    hide Body, ParseBody, Marshallable, Parse;
    BodyIsSmall(ch);
    var s := Body(ch);
    assert s[0] == s[..2][0] && s[1] == s[..2][1];
    assert s[0] == 3 && s[1] == 3;
    assert FromU24(s[1], s[2], s[3]) >= 0x3_0000;
    ParseFindsBodies(ch);
  }
}
