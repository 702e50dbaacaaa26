/**
 JA3 fingerprints: the string of a ClientHello, its two derivations, and its parser. GREASE
 values (RFC 8701) are no part of it.
 */
module Grease {
  import opened Hello

  /** The test of IsGrease on the bits of v. */
  predicate IsGrease(v: u16) {
    v % 0x10 == 0xa && v / 0x100 == v % 0x100
  }

  /** It accepts exactly the sixteen values of the table: 0x0a0a, 0x1a1a, ..., 0xfafa. */
  lemma {:induction false} GreaseTable(v: u16)
    ensures IsGrease(v) <==> exists k: nat :: k < 16 && v == 0x0a0a + 0x1010 * k
  {
    if IsGrease(v) {
      var k: nat := v % 0x100 / 0x10;
      assert v % 0x100 == 0x10 * k + 0xa;
      assert v == 0x100 * (v / 0x100) + v % 0x100;
      assert v == 0x0a0a + 0x1010 * k;
    }
    forall k: nat | k < 16 && v == 0x0a0a + 0x1010 * k
      ensures IsGrease(v)
    {
      assert v == 0x100 * (0x10 * k + 0xa) + (0x10 * k + 0xa);
    }
  }

  function Filter(ids: seq<u16>): (r: seq<nat>) {
    if ids == [] then []
    else if IsGrease(ids[0]) then Filter(ids[1..])
    else [ids[0]] + Filter(ids[1..])
  }

  lemma {:induction false} FilterConcat(a: seq<u16>, b: seq<u16>)
    ensures Filter(a + b) == Filter(a) + Filter(b)
  {
    hide IsGrease;
    if a == [] {
      assert a + b == b;
    } else {
      assert (a + b)[1..] == a[1..] + b;
      FilterConcat(a[1..], b);
    }
  }

  lemma {:induction false} FilterRange(ids: seq<u16>)
    ensures forall n <- Filter(ids) :: n <= 0xffff
  {
    hide IsGrease;
    if ids != [] {
      FilterRange(ids[1..]);
    }
  }

  /** A GREASE value more or less does not show. */
  lemma {:induction false} FilterIgnoresGrease(a: seq<u16>, g: u16, b: seq<u16>)
    requires IsGrease(g)
    ensures Filter(a + [g] + b) == Filter(a + b)
  {
    hide IsGrease;
    FilterConcat(a + [g], b);
    FilterConcat(a, [g]);
    FilterConcat(a, b);
    assert [g][1..] == [];
  }
}

module Ja3 {
  import opened Wrappers
  import opened Bytes
  import opened Hello
  import opened HelloCodec
  import opened Grease
  import opened Ja3Strings

  datatype Parts = Parts(version: nat, ciphers: seq<nat>, extensions: seq<nat>, groups: seq<nat>, formats: seq<nat>)

  /** The five parts with commas between them. */
  function Canonical(p: Parts): (s: string) {
    Decimal(p.version) + [','] + (Join(p.ciphers) + [','] + (Join(p.extensions) + [','] + (Join(p.groups) + [','] + Join(p.formats))))
  }

  function Octets(x: seq<byte>): (ns: seq<nat>) {
    if x == [] then [] else [x[0]] + Octets(x[1..])
  }

  lemma {:induction false} OctetsRange(x: seq<byte>)
    ensures |Octets(x)| == |x| && forall i | 0 <= i < |x| :: Octets(x)[i] == x[i]
  {
    if x != [] {
      OctetsRange(x[1..]);
    }
  }

  function PartsOf(version: u16, ciphers: seq<u16>, extensions: seq<u16>, groups: seq<u16>, formats: seq<byte>): (p: Parts) {
    Parts(version, Filter(ciphers), Filter(extensions), Filter(groups), Octets(formats))
  }

  function Format(version: u16, ciphers: seq<u16>, extensions: seq<u16>, groups: seq<u16>, formats: seq<byte>): (s: string) {
    Canonical(PartsOf(version, ciphers, extensions, groups, formats))
  }

  /** parseU8List */
  function ParseOctets(s: string): (r: Option<seq<nat>>) {
    match ParseList(s)
    case None => None
    case Some(ns) => if exists n <- ns :: n > 255 then None else Some(ns)
  }

  function ParseJa3(s: string): (r: Option<Parts>) {
    var f := SplitOn(TrimSpace(s), ',');
    if |f| != 5 then None
    else
      var v, c, e, g, o := ParseUint(TrimSpace(f[0]), 0xffff), ParseList(f[1]), ParseList(f[2]), ParseList(f[3]), ParseOctets(f[4]);
      if v.None? || c.None? || e.None? || g.None? || o.None? then None
      else Some(Parts(v.value, c.value, e.value, g.value, o.value))
  }

  predicate InRange(p: Parts) {
    && p.version <= 0xffff && (forall n <- p.ciphers :: n <= 0xffff) && (forall n <- p.extensions :: n <= 0xffff)
    && (forall n <- p.groups :: n <= 0xffff) && (forall n <- p.formats :: n <= 255)
  }

  lemma {:induction false} PartsInRange(version: u16, ciphers: seq<u16>, extensions: seq<u16>, groups: seq<u16>, formats: seq<byte>)
    ensures InRange(PartsOf(version, ciphers, extensions, groups, formats))
  {
    hide Filter;
    FilterRange(ciphers);
    FilterRange(extensions);
    FilterRange(groups);
    OctetsRange(formats);
  }

  lemma {:induction false} NoCommas(ns: seq<nat>)
    ensures ',' !in Join(ns) && forall c <- Join(ns) :: !IsSpace(c)
  {
    JoinCharacters(ns);
  }

  lemma {:induction false} NoCommaInNumber(n: nat)
    ensures ',' !in Decimal(n) && forall c <- Decimal(n) :: !IsSpace(c)
  {
  }

  lemma {:induction false} CanonicalSplits(p: Parts)
    ensures SplitOn(Canonical(p), ',') == [Decimal(p.version), Join(p.ciphers), Join(p.extensions), Join(p.groups), Join(p.formats)]
    ensures forall c <- Canonical(p) :: !IsSpace(c)
  {
    hide SplitOn, Join, Decimal, IsSpace;
    NoCommaInNumber(p.version);
    NoCommas(p.ciphers);
    NoCommas(p.extensions);
    NoCommas(p.groups);
    NoCommas(p.formats);
    assert !IsSpace(',') by { CommaIsNoSpace(); }
    var t3 := Join(p.groups) + [','] + Join(p.formats);
    var t2 := Join(p.extensions) + [','] + t3;
    var t1 := Join(p.ciphers) + [','] + t2;
    SplitFirst(Decimal(p.version), t1, ',');
    SplitFirst(Join(p.ciphers), t2, ',');
    SplitFirst(Join(p.extensions), t3, ',');
    SplitFirst(Join(p.groups), Join(p.formats), ',');
    SplitNone(Join(p.formats), ',');
  }

  lemma {:induction false} CommaIsNoSpace()
    ensures !IsSpace(',')
  {
  }

  /** Parsing a canonical string gives its parts. */
  lemma {:induction false} CanonicalRoundTrip(p: Parts)
    requires InRange(p)
    ensures ParseJa3(Canonical(p)) == Some(p)
  {
    hide SplitOn, Join, Decimal, IsSpace, Canonical, TrimSpace, ParseUint, ParseList;
    CanonicalSplits(p);
    NothingToTrim(Canonical(p));
    ParseDecimal(p.version, 0xffff);
    ListRoundTrip(p.ciphers);
    ListRoundTrip(p.extensions);
    ListRoundTrip(p.groups);
    ListRoundTrip(p.formats);
  }

  /** So a JA3 string gives back the lists without GREASE. */
  lemma {:induction false} ParseFormat(version: u16, ciphers: seq<u16>, extensions: seq<u16>, groups: seq<u16>, formats: seq<byte>)
    ensures ParseJa3(Format(version, ciphers, extensions, groups, formats))
         == Some(Parts(version, Filter(ciphers), Filter(extensions), Filter(groups), Octets(formats)))
  {
    hide ParseJa3, Canonical, Filter;
    PartsInRange(version, ciphers, extensions, groups, formats);
    CanonicalRoundTrip(PartsOf(version, ciphers, extensions, groups, formats));
  }

  /** Two JA3 strings are equal exactly when the versions, the GREASE-free lists and the formats are. */
  lemma {:induction false} FormatInjective(v: u16, c: seq<u16>, e: seq<u16>, g: seq<u16>, f: seq<byte>,
                                           v': u16, c': seq<u16>, e': seq<u16>, g': seq<u16>, f': seq<byte>)
    ensures Format(v, c, e, g, f) == Format(v', c', e', g', f')
       <==> v == v' && Filter(c) == Filter(c') && Filter(e) == Filter(e') && Filter(g) == Filter(g') && f == f'
  {
    hide ParseJa3, Canonical, Filter, Octets;
    ParseFormat(v, c, e, g, f);
    ParseFormat(v', c', e', g', f');
    OctetsRange(f);
    OctetsRange(f');
    if Octets(f) == Octets(f') {
      assert f == f';
    }
  }

  //
  // The two derivations
  //

  const SUPPORTED_GROUPS: u16 := 10
  const POINT_FORMATS: u16 := 11
  const SIGNATURE_ALGORITHMS: u16 := 13
  const COMPRESS_CERTIFICATE: u16 := 27
  const RECORD_SIZE_LIMIT: u16 := 28
  const DELEGATED_CREDENTIALS: u16 := 34
  const SUPPORTED_VERSIONS: u16 := 43
  const PSK_MODES: u16 := 45
  const SIGNATURE_ALGORITHMS_CERT: u16 := 50

  function Types(es: seq<Extension>): (ts: seq<u16>) {
    if es == [] then [] else [es[0].typ] + Types(es[1..])
  }

  /** FindExtension: the first of its type. */
  function Find(es: seq<Extension>, typ: u16): (r: Option<seq<byte>>) {
    if es == [] then None else if es[0].typ == typ then Some(es[0].data) else Find(es[1..], typ)
  }

  /** A list that is absent or does not decode counts as empty. */
  function GroupsOf(ch: ClientHello): (ns: seq<u16>) {
    match Find(ch.extensions, SUPPORTED_GROUPS)
    case None => []
    case Some(data) => if DecodeList16(data).Ok? then DecodeList16(data).value else []
  }

  function FormatsOf(ch: ClientHello): (x: seq<byte>) {
    match Find(ch.extensions, POINT_FORMATS)
    case None => []
    case Some(data) => if DecodeBytes8(data).Ok? then DecodeBytes8(data).value else []
  }

  function Compute(ch: ClientHello): (s: string) {
    Format(ch.version, ch.ciphers, Types(ch.extensions), GroupsOf(ch), FormatsOf(ch))
  }

  /** The profile fields that TLSProfile fills. legacyVersion stays 0. */
  datatype Profile = Profile(
    legacyVersion: u16, ciphers: seq<u16>, extensions: seq<u16>, groups: seq<u16>, formats: seq<byte>,
    versions: seq<u16>, sigAlgs: seq<u16>, sigAlgsCert: seq<u16>, pskModes: seq<byte>,
    certCompression: seq<u16>, recordSizeLimit: u16, delegated: seq<u16>)

  function EmptyProfile(ch: ClientHello): (p: Profile) {
    Profile(0, ch.ciphers, Types(ch.extensions), [], [], [], [], [], [], [], 0, [])
  }

  /** Whether the body of an extension decodes. */
  predicate Decodes(e: Extension) {
    if e.typ in {SUPPORTED_GROUPS, SIGNATURE_ALGORITHMS, SIGNATURE_ALGORITHMS_CERT, COMPRESS_CERTIFICATE, DELEGATED_CREDENTIALS}
    then DecodeList16(e.data).Ok?
    else if e.typ in {POINT_FORMATS, PSK_MODES} then DecodeBytes8(e.data).Ok?
    else if e.typ == SUPPORTED_VERSIONS then DecodeList8(e.data).Ok?
    else e.typ == RECORD_SIZE_LIMIT ==> |e.data| == 2
  }

  /** One turn of the loop of TLSProfile. */
  function Extracted(p: Profile, e: Extension): (r: Profile)
    requires Decodes(e)
  {
    if e.typ == SUPPORTED_GROUPS then p.(groups := DecodeList16(e.data).value)
    else if e.typ == POINT_FORMATS then p.(formats := DecodeBytes8(e.data).value)
    else if e.typ == SUPPORTED_VERSIONS then p.(versions := DecodeList8(e.data).value)
    else if e.typ == SIGNATURE_ALGORITHMS then p.(sigAlgs := DecodeList16(e.data).value)
    else if e.typ == SIGNATURE_ALGORITHMS_CERT then p.(sigAlgsCert := DecodeList16(e.data).value)
    else if e.typ == PSK_MODES then p.(pskModes := DecodeBytes8(e.data).value)
    else if e.typ == COMPRESS_CERTIFICATE then p.(certCompression := DecodeList16(e.data).value)
    else if e.typ == RECORD_SIZE_LIMIT then p.(recordSizeLimit := FromU16(e.data[0], e.data[1]))
    else if e.typ == DELEGATED_CREDENTIALS then p.(delegated := DecodeList16(e.data).value)
    else p
  }

  function Extract(p: Profile, es: seq<Extension>): (r: Option<Profile>)
    decreases |es|
  {
    if es == [] then Some(p) else if !Decodes(es[0]) then None else Extract(Extracted(p, es[0]), es[1..])
  }

  /** TLSProfile */
  function TLSProfile(ch: ClientHello): (r: Option<Profile>) {
    Extract(EmptyProfile(ch), ch.extensions)
  }

  function FromProfile(p: Profile): (s: string) {
    Format(if p.legacyVersion == 0 then 0x0303 else p.legacyVersion, p.ciphers, p.extensions, p.groups, p.formats)
  }

  /** The last extension of its type, which is the one a profile keeps. */
  function Last(es: seq<Extension>, typ: u16): (r: Option<seq<byte>>) {
    if es == [] then None
    else if Last(es[1..], typ).Some? then Last(es[1..], typ)
    else if es[0].typ == typ then Some(es[0].data)
    else None
  }

  lemma {:induction false} ExtractKeeps(p: Profile, es: seq<Extension>)
    requires Extract(p, es).Some?
    ensures var q := Extract(p, es).value;
            && q.legacyVersion == p.legacyVersion && q.ciphers == p.ciphers && q.extensions == p.extensions
            && (match Last(es, SUPPORTED_GROUPS)
                case None => q.groups == p.groups
                case Some(data) => DecodeList16(data) == Ok(q.groups))
            && (match Last(es, POINT_FORMATS)
                case None => q.formats == p.formats
                case Some(data) => DecodeBytes8(data) == Ok(q.formats))
    decreases |es|
  {
    hide DecodeList16, DecodeList8, DecodeBytes8;
    if es != [] {
      ExtractKeeps(Extracted(p, es[0]), es[1..]);
    }
  }

  /** The groups and formats of the last extensions that carry them. */
  function LastGroups(ch: ClientHello): (ns: seq<u16>) {
    match Last(ch.extensions, SUPPORTED_GROUPS)
    case None => []
    case Some(data) => if DecodeList16(data).Ok? then DecodeList16(data).value else []
  }

  function LastFormats(ch: ClientHello): (x: seq<byte>) {
    match Last(ch.extensions, POINT_FORMATS)
    case None => []
    case Some(data) => if DecodeBytes8(data).Ok? then DecodeBytes8(data).value else []
  }

  /**
   The string of the extracted profile is the string of the hello exactly when the hello has the
   version that profiles assume and repeated extensions do not contradict each other.
   */
  lemma {:induction false} DerivationsAgree(ch: ClientHello)
    requires TLSProfile(ch).Some?
    ensures FromProfile(TLSProfile(ch).value) == Compute(ch)
       <==> ch.version == 0x0303 && Filter(LastGroups(ch)) == Filter(GroupsOf(ch)) && LastFormats(ch) == FormatsOf(ch)
  {
    hide Format, Filter, DecodeList16, DecodeBytes8, Extract, Find, Last;
    var p := TLSProfile(ch).value;
    ExtractKeeps(EmptyProfile(ch), ch.extensions);
    assert p.groups == LastGroups(ch) && p.formats == LastFormats(ch);
    FormatInjective(0x0303, ch.ciphers, Types(ch.extensions), p.groups, p.formats,
                    ch.version, ch.ciphers, Types(ch.extensions), GroupsOf(ch), FormatsOf(ch));
  }

  ghost predicate DistinctTypes(es: seq<Extension>) {
    forall i, j | 0 <= i < j < |es| :: es[i].typ != es[j].typ
  }

  lemma {:induction false} LastIsFirst(es: seq<Extension>, typ: u16)
    requires DistinctTypes(es)
    ensures Last(es, typ) == Find(es, typ)
  {
    if es != [] {
      LastIsFirst(es[1..], typ);
      if es[0].typ == typ && Find(es[1..], typ).Some? {
        var i := FoundAt(es[1..], typ);
      }
    }
  }

  lemma {:induction false} FoundAt(es: seq<Extension>, typ: u16) returns (i: nat)
    requires Find(es, typ).Some?
    ensures i < |es| && es[i].typ == typ
  {
    if es[0].typ == typ {
      i := 0;
    } else {
      i := FoundAt(es[1..], typ);
      i := i + 1;
    }
  }

  /** As for every hello that section 4.2 of RFC 8446 allows. */
  lemma {:induction false} DistinctExtensionsAgree(ch: ClientHello)
    requires TLSProfile(ch).Some? && ch.version == 0x0303 && DistinctTypes(ch.extensions)
    ensures FromProfile(TLSProfile(ch).value) == Compute(ch)
  {
    hide Format, TLSProfile, FromProfile, Compute, Filter, DecodeList16, DecodeBytes8, DistinctTypes;
    LastIsFirst(ch.extensions, SUPPORTED_GROUPS);
    LastIsFirst(ch.extensions, POINT_FORMATS);
    DerivationsAgree(ch);
  }

  //
  // GREASE
  //

  lemma {:induction false} TypesConcat(a: seq<Extension>, b: seq<Extension>)
    ensures Types(a + b) == Types(a) + Types(b)
  {
    if a == [] {
      assert a + b == b;
    } else {
      assert (a + b)[1..] == a[1..] + b;
      TypesConcat(a[1..], b);
    }
  }

  lemma {:induction false} FindSkips(a: seq<Extension>, x: Extension, b: seq<Extension>, typ: u16)
    requires x.typ != typ
    ensures Find(a + [x] + b, typ) == Find(a + b, typ)
  {
    var s, t := a + [x] + b, a + b;
    if a == [] {
      assert s[1..] == b && t == b;
    } else {
      FindSkips(a[1..], x, b, typ);
      assert s[1..] == a[1..] + [x] + b && t[1..] == a[1..] + b;
    }
  }

  lemma {:induction false} TypesWith(a: seq<Extension>, x: Extension, b: seq<Extension>)
    ensures Types(a + [x] + b) == Types(a) + [x.typ] + Types(b) && Types(a + b) == Types(a) + Types(b)
  {
    TypesConcat(a + [x], b);
    TypesConcat(a, [x]);
    TypesConcat(a, b);
    assert [x][1..] == [];
  }

  /** A GREASE cipher suite more or less does not change the string. */
  lemma {:induction false} ComputeIgnoresGreaseCipher(ch: ClientHello, c: seq<u16>, g: u16, d: seq<u16>)
    requires IsGrease(g) && ch.ciphers == c + d
    ensures Compute(ch.(ciphers := c + [g] + d)) == Compute(ch)
  {
    hide Canonical, DecodeList16, DecodeBytes8, Filter;
    FilterIgnoresGrease(c, g, d);
  }

  /** Nor does an extension of a GREASE type, whatever its body. */
  lemma {:induction false} ComputeIgnoresGreaseExtension(ch: ClientHello, a: seq<Extension>, x: Extension, b: seq<Extension>)
    requires IsGrease(x.typ) && ch.extensions == a + b
    ensures Compute(ch.(extensions := a + [x] + b)) == Compute(ch)
  {
    hide Canonical, DecodeList16, DecodeBytes8, Filter;
    TypesWith(a, x, b);
    FilterIgnoresGrease(Types(a), x.typ, Types(b));
    FindSkips(a, x, b, SUPPORTED_GROUPS);
    FindSkips(a, x, b, POINT_FORMATS);
  }

  /** The first extension of a type gets another body; the types stay. */
  lemma {:induction false} FindReplaced(a: seq<Extension>, x: Extension, y: Extension, b: seq<Extension>, typ: u16)
    requires x.typ == y.typ && Find(a, x.typ).None?
    ensures Types(a + [x] + b) == Types(a + [y] + b)
    ensures Find(a + [x] + b, x.typ) == Some(x.data)
    ensures typ != x.typ ==> Find(a + [x] + b, typ) == Find(a + [y] + b, typ)
  {
    var s, t := a + [x] + b, a + [y] + b;
    if a == [] {
      assert s[1..] == b && t[1..] == b;
    } else {
      FindReplaced(a[1..], x, y, b, typ);
      assert s[1..] == a[1..] + [x] + b && t[1..] == a[1..] + [y] + b;
    }
  }

  /** Nor does a GREASE group, in the body of the extension that carries the groups. */
  lemma {:induction false} ComputeIgnoresGreaseGroup(ch: ClientHello, a: seq<Extension>, x: Extension, y: Extension, b: seq<Extension>,
                                                     p: seq<u16>, g: u16, q: seq<u16>)
    requires IsGrease(g) && ch.extensions == a + [x] + b && Find(a, SUPPORTED_GROUPS).None?
    requires x.typ == SUPPORTED_GROUPS && DecodeList16(x.data) == Ok(p + q)
    requires y.typ == SUPPORTED_GROUPS && DecodeList16(y.data) == Ok(p + [g] + q)
    ensures Compute(ch.(extensions := a + [y] + b)) == Compute(ch)
  {
    hide Canonical, DecodeList16, DecodeBytes8, Filter;
    FindReplaced(a, x, y, b, POINT_FORMATS);
    FindReplaced(a, y, x, b, POINT_FORMATS);
    FilterIgnoresGrease(p, g, q);
  }

  /** The string of a profile does not show a GREASE value in any of its three lists either. */
  lemma {:induction false} FromProfileIgnoresGrease(p: Profile, a: seq<u16>, g: u16, b: seq<u16>)
    requires IsGrease(g)
    ensures p.ciphers == a + b ==> FromProfile(p.(ciphers := a + [g] + b)) == FromProfile(p)
    ensures p.extensions == a + b ==> FromProfile(p.(extensions := a + [g] + b)) == FromProfile(p)
    ensures p.groups == a + b ==> FromProfile(p.(groups := a + [g] + b)) == FromProfile(p)
  {
    hide Canonical, Filter;
    FilterIgnoresGrease(a, g, b);
  }
}
