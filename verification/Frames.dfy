/**
 Frames on the wire: the nine-octet header, the payloads of the frame types that carry the
 protocol's data, and the functions that write and parse them.
 */
module Frames {
  import opened Wrappers
  import opened Bytes

  const FRAME_HEADER_LEN := 9
  const MAX_LENGTH := 0x100_0000
  const STREAM_LIMIT := 0x8000_0000

  const DATA: byte := 0
  const HEADERS: byte := 1
  const PRIORITY: byte := 2
  const SETTINGS: byte := 4
  const WINDOW_UPDATE: byte := 8
  const CONTINUATION: byte := 9

  datatype Error = ShortInput | ConnectionError | StreamError | FrameTooLarge

  //
  // Numbers
  //

  function U32(n: nat): (s: seq<byte>)
    requires n < 0x1_0000_0000
  {
    var high, low := n / 0x1_0000, n % 0x1_0000;
    [high / 0x100, high % 0x100, low / 0x100, low % 0x100]
  }

  function FromU32(a: byte, b: byte, c: byte, d: byte): (n: nat) {
    FromU16(a, b) * 0x1_0000 + FromU16(c, d)
  }

  lemma {:induction false} U32RoundTrip(n: nat)
    requires n < 0x1_0000_0000
    ensures var s := U32(n); |s| == 4 && FromU32(s[0], s[1], s[2], s[3]) == n
  {
  }

  //
  // Flags
  //

  datatype Flags = Flags(endStream: bool, endHeaders: bool, padded: bool, priority: bool)

  function Bit(on: bool, value: nat): (n: nat) {
    if on then value else 0
  }

  /** END_STREAM is 1, END_HEADERS 4, PADDED 8 and PRIORITY 0x20. */
  function FlagByte(f: Flags): (b: byte) {
    Bit(f.endStream, 1) + Bit(f.endHeaders, 4) + Bit(f.padded, 8) + Bit(f.priority, 32)
  }

  function FlagsOf(b: byte): (f: Flags) {
    Flags(b % 2 == 1, b / 4 % 2 == 1, b / 8 % 2 == 1, b / 32 % 2 == 1)
  }

  lemma {:induction false} FlagsRoundTrip(f: Flags)
    ensures FlagsOf(FlagByte(f)) == f
  {
  }

  //
  // Frame headers
  //

  datatype Header = Header(length: nat, ftype: byte, flags: byte, id: nat)

  /** startWrite and endWrite: nothing is written for a payload of 2^24 octets or more. */
  function FrameBytes(ftype: byte, flags: byte, id: nat, payload: seq<byte>): (s: seq<byte>)
    requires id < 0x1_0000_0000
  {
    if |payload| >= MAX_LENGTH then [] else U24(|payload|) + [ftype, flags] + U32(id) + payload
  }

  /** readFrameHeader ignores the reserved bit of the stream identifier. */
  function ReadHeader(s: seq<byte>): (r: Result<Header, Error>) {
    if |s| < FRAME_HEADER_LEN then Err(ShortInput)
    else Ok(Header(FromU24(s[0], s[1], s[2]), s[3], s[4], FromU32(s[5], s[6], s[7], s[8]) % STREAM_LIMIT))
  }

  /** A frame before its payload is parsed. */
  datatype RawFrame = RawFrame(header: Header, payload: seq<byte>, rest: seq<byte>)

  /** ReadFrameHeader, without the check of the frame order, and the payload. */
  function ReadRaw(s: seq<byte>, maxReadSize: nat): (r: Result<RawFrame, Error>) {
    match ReadHeader(s)
    case Err(e) => Err(e)
    case Ok(h) =>
      if h.length > maxReadSize then Err(FrameTooLarge)
      else if |s| < FRAME_HEADER_LEN + h.length then Err(ShortInput)
      else Ok(RawFrame(h, s[FRAME_HEADER_LEN..FRAME_HEADER_LEN + h.length], s[FRAME_HEADER_LEN + h.length..]))
  }

  lemma {:induction false} HeaderRoundTrip(ftype: byte, flags: byte, id: nat, payload: seq<byte>, rest: seq<byte>)
    requires id < 0x1_0000_0000 && |payload| < MAX_LENGTH
    ensures var s := FrameBytes(ftype, flags, id, payload) + rest;
            && ReadHeader(s) == Ok(Header(|payload|, ftype, flags, id % STREAM_LIMIT))
            && |s| == FRAME_HEADER_LEN + |payload| + |rest|
            && s[FRAME_HEADER_LEN..] == payload + rest
  {
    U24RoundTrip(|payload|);
    U32RoundTrip(id);
    var s := FrameBytes(ftype, flags, id, payload) + rest;
    var a, b := U24(|payload|), U32(id);
    hide FrameBytes, U24, U32, FromU24, FromU32;
    HeaderOctets(a, ftype, flags, b, payload, rest);
    assert FrameBytes(ftype, flags, id, payload) == a + [ftype, flags] + b + payload by { FrameBytesIs(ftype, flags, id, payload); }
    assert |a| == 3 && |b| == 4 by { FrameBytesIs(ftype, flags, id, payload); }
  }

  lemma {:induction false} FrameBytesIs(ftype: byte, flags: byte, id: nat, payload: seq<byte>)
    requires id < 0x1_0000_0000 && |payload| < MAX_LENGTH
    ensures FrameBytes(ftype, flags, id, payload) == U24(|payload|) + [ftype, flags] + U32(id) + payload
    ensures |U24(|payload|)| == 3 && |U32(id)| == 4
  {
  }

  lemma {:induction false} HeaderOctets(a: seq<byte>, ftype: byte, flags: byte, b: seq<byte>, payload: seq<byte>, rest: seq<byte>)
    requires |a| == 3 && |b| == 4
    ensures var s := a + [ftype, flags] + b + payload + rest;
            && s[0] == a[0] && s[1] == a[1] && s[2] == a[2] && s[3] == ftype && s[4] == flags
            && s[5] == b[0] && s[6] == b[1] && s[7] == b[2] && s[8] == b[3] && s[9..] == payload + rest
  {
  }

  /** A written frame is read back, and nothing beyond it, if the reader takes frames of its size. */
  lemma {:induction false} RawRoundTrip(ftype: byte, flags: byte, id: nat, payload: seq<byte>, rest: seq<byte>, maxReadSize: nat)
    requires id < STREAM_LIMIT && |payload| < MAX_LENGTH
    ensures ReadRaw(FrameBytes(ftype, flags, id, payload) + rest, maxReadSize)
         == if |payload| <= maxReadSize then Ok(RawFrame(Header(|payload|, ftype, flags, id), payload, rest)) else Err(FrameTooLarge)
  {
    hide FrameBytes, ReadHeader;
    HeaderRoundTrip(ftype, flags, id, payload, rest);
    var s, n := FrameBytes(ftype, flags, id, payload) + rest, |payload|;
    assert s[9..9 + n] == s[9..][..n] && s[9 + n..] == s[9..][n..];
  }

  //
  // Payloads
  //

  /** The RFC 7540 part of PriorityParam. */
  datatype Priority = Priority(dep: nat, exclusive: bool, weight: byte)

  predicate IsZero(p: Priority) {
    p == Priority(0, false, 0)
  }

  function PriorityBytes(p: Priority): (s: seq<byte>)
    requires p.dep < STREAM_LIMIT
  {
    U32(p.dep + Bit(p.exclusive, STREAM_LIMIT)) + [p.weight]
  }

  function ReadPriority(s: seq<byte>): (p: Priority)
    requires |s| >= 5
  {
    var v := FromU32(s[0], s[1], s[2], s[3]);
    Priority(v % STREAM_LIMIT, v % STREAM_LIMIT != v, s[4])
  }

  lemma {:induction false} PriorityRoundTrip(p: Priority, rest: seq<byte>)
    requires p.dep < STREAM_LIMIT
    ensures var s := PriorityBytes(p) + rest; |s| == 5 + |rest| && ReadPriority(s) == p && s[5..] == rest
  {
    hide U32, FromU32;
    var v := p.dep + Bit(p.exclusive, STREAM_LIMIT);
    U32RoundTrip(v);
    var b := U32(v);
    var s := b + [p.weight] + rest;
    assert s[0] == b[0] && s[1] == b[1] && s[2] == b[2] && s[3] == b[3] && s[4] == p.weight;
  }

  //
  // HEADERS
  //

  datatype HeadersFrame = HeadersFrame(id: nat, endStream: bool, endHeaders: bool, priority: Option<Priority>, fragment: seq<byte>)

  function Zeros(n: nat): (s: seq<byte>) {
    seq(n, _ => 0)
  }

  function HeadersFlags(endStream: bool, endHeaders: bool, pad: byte, p: Priority): (f: Flags) {
    Flags(endStream, endHeaders, pad != 0, !IsZero(p))
  }

  function HeadersPayload(pad: byte, p: Priority, fragment: seq<byte>): (s: seq<byte>)
    requires p.dep < STREAM_LIMIT
  {
    (if pad != 0 then [pad] else []) + ((if IsZero(p) then [] else PriorityBytes(p)) + (fragment + Zeros(pad)))
  }

  /** WriteHeaders; Err for an invalid stream or dependency, when nothing is written. */
  function WriteHeaders(id: nat, endStream: bool, endHeaders: bool, pad: byte, p: Priority, fragment: seq<byte>): (r: Result<seq<byte>, Error>)
    requires id < 0x1_0000_0000
  {
    if id == 0 || id >= STREAM_LIMIT then Err(StreamError)
    else if p.dep >= STREAM_LIMIT then Err(StreamError)
    else if |HeadersPayload(pad, p, fragment)| >= MAX_LENGTH then Err(FrameTooLarge)
    else Ok(FrameBytes(HEADERS, FlagByte(HeadersFlags(endStream, endHeaders, pad, p)), id, HeadersPayload(pad, p, fragment)))
  }

  /** What is left of a HEADERS payload after the pad length. */
  function ParseHeadersRest(h: Header, pad: nat, s: seq<byte>): (r: Result<HeadersFrame, Error>) {
    var f := FlagsOf(h.flags);
    if f.priority && |s| < 5 then Err(ShortInput)
    else
      var t := if f.priority then s[5..] else s;
      if pad > |t| then Err(StreamError)
      else Ok(HeadersFrame(h.id, f.endStream, f.endHeaders, if f.priority then Some(ReadPriority(s)) else None, t[..|t| - pad]))
  }

  function ParseHeaders(h: Header, s: seq<byte>): (r: Result<HeadersFrame, Error>) {
    if h.id == 0 then Err(ConnectionError)
    else if !FlagsOf(h.flags).padded then ParseHeadersRest(h, 0, s)
    else if s == [] then Err(ShortInput)
    else ParseHeadersRest(h, s[0], s[1..])
  }

  lemma {:induction false} ParseHeadersRestRoundTrip(h: Header, pad: nat, p: Priority, fragment: seq<byte>)
    requires p.dep < STREAM_LIMIT && FlagsOf(h.flags).priority == !IsZero(p)
    ensures ParseHeadersRest(h, pad, (if IsZero(p) then [] else PriorityBytes(p)) + (fragment + Zeros(pad)))
         == Ok(HeadersFrame(h.id, FlagsOf(h.flags).endStream, FlagsOf(h.flags).endHeaders, if IsZero(p) then None else Some(p), fragment))
  {
    var t := fragment + Zeros(pad);
    assert t[..|t| - pad] == fragment;
    if !IsZero(p) {
      PriorityRoundTrip(p, t);
    } else {
      assert [] + t == t;
    }
    hide PriorityBytes, ReadPriority;
  }

  /** A HEADERS frame is parsed to what it was written from, whatever its padding and priority. */
  lemma {:induction false} HeadersRoundTrip(id: nat, endStream: bool, endHeaders: bool, pad: byte, p: Priority, fragment: seq<byte>, length: nat)
    requires 0 < id < STREAM_LIMIT && p.dep < STREAM_LIMIT
    ensures ParseHeaders(Header(length, HEADERS, FlagByte(HeadersFlags(endStream, endHeaders, pad, p)), id), HeadersPayload(pad, p, fragment))
         == Ok(HeadersFrame(id, endStream, endHeaders, if IsZero(p) then None else Some(p), fragment))
  {
    hide FlagByte, FlagsOf, ParseHeadersRest, PriorityBytes;
    var f := HeadersFlags(endStream, endHeaders, pad, p);
    FlagsRoundTrip(f);
    var h := Header(length, HEADERS, FlagByte(f), id);
    ParseHeadersRestRoundTrip(h, pad, p, fragment);
    var t := (if IsZero(p) then [] else PriorityBytes(p)) + (fragment + Zeros(pad));
    assert ([pad] + t)[1..] == t && [] + t == t;
  }

  //
  // CONTINUATION, DATA, PRIORITY, RST_STREAM, WINDOW_UPDATE
  //

  function WriteContinuation(id: nat, endHeaders: bool, fragment: seq<byte>): (r: Result<seq<byte>, Error>)
    requires id < 0x1_0000_0000
  {
    if id == 0 || id >= STREAM_LIMIT then Err(StreamError)
    else if |fragment| >= MAX_LENGTH then Err(FrameTooLarge)
    else Ok(FrameBytes(CONTINUATION, FlagByte(Flags(false, endHeaders, false, false)), id, fragment))
  }

  datatype ContinuationFrame = ContinuationFrame(id: nat, endHeaders: bool, fragment: seq<byte>)

  function ParseContinuation(h: Header, s: seq<byte>): (r: Result<ContinuationFrame, Error>) {
    if h.id == 0 then Err(ConnectionError) else Ok(ContinuationFrame(h.id, FlagsOf(h.flags).endHeaders, s))
  }

  datatype DataFrame = DataFrame(id: nat, endStream: bool, data: seq<byte>)

  /** The payload of WriteDataPadded; without padding the flag is not set. */
  function DataPayload(data: seq<byte>, pad: Option<byte>): (s: seq<byte>) {
    if pad.None? then data else [pad.value] + (data + Zeros(pad.value))
  }

  function ParseData(h: Header, s: seq<byte>): (r: Result<DataFrame, Error>) {
    if h.id == 0 then Err(ConnectionError)
    else if !FlagsOf(h.flags).padded then Ok(DataFrame(h.id, FlagsOf(h.flags).endStream, s))
    else if s == [] then Err(ShortInput)
    else if s[0] > |s| - 1 then Err(ConnectionError)
    else Ok(DataFrame(h.id, FlagsOf(h.flags).endStream, s[1..|s| - s[0]]))
  }

  lemma {:induction false} DataRoundTrip(id: nat, endStream: bool, data: seq<byte>, pad: Option<byte>, length: nat)
    requires 0 < id < STREAM_LIMIT
    ensures ParseData(Header(length, DATA, FlagByte(Flags(endStream, false, pad.Some?, false)), id), DataPayload(data, pad))
         == Ok(DataFrame(id, endStream, data))
  {
    FlagsRoundTrip(Flags(endStream, false, pad.Some?, false));
    hide FlagByte, FlagsOf;
    if pad.Some? {
      var s := [pad.value] + (data + Zeros(pad.value));
      assert s[1..|s| - pad.value] == data;
    }
  }

  function ParsePriority(h: Header, s: seq<byte>): (r: Result<Priority, Error>) {
    if h.id == 0 || |s| != 5 then Err(ConnectionError) else Ok(ReadPriority(s))
  }

  lemma {:induction false} PriorityFrameRoundTrip(id: nat, p: Priority)
    requires 0 < id < STREAM_LIMIT && p.dep < STREAM_LIMIT
    ensures ParsePriority(Header(5, PRIORITY, 0, id), PriorityBytes(p)) == Ok(p)
  {
    PriorityRoundTrip(p, []);
    assert PriorityBytes(p) + [] == PriorityBytes(p);
    hide PriorityBytes, ReadPriority;
  }

  /** An increment of 0 is an error of the stream, or of the connection. */
  function ParseWindowUpdate(h: Header, s: seq<byte>): (r: Result<nat, Error>) {
    if |s| != 4 then Err(ConnectionError)
    else
      var n := FromU32(s[0], s[1], s[2], s[3]) % STREAM_LIMIT;
      if n != 0 then Ok(n) else Err(if h.id == 0 then ConnectionError else StreamError)
  }

  lemma {:induction false} WindowUpdateRoundTrip(id: nat, n: nat)
    requires id < STREAM_LIMIT && 1 <= n < STREAM_LIMIT
    ensures ParseWindowUpdate(Header(4, WINDOW_UPDATE, 0, id), U32(n)) == Ok(n)
  {
    hide U32, FromU32;
    U32RoundTrip(n);
  }

  //
  // SETTINGS
  //

  datatype Setting = Setting(id: nat, value: nat)

  predicate SettingOk(s: Setting) {
    s.id < 0x1_0000 && s.value < 0x1_0000_0000
  }

  function SettingBytes(x: Setting): (s: seq<byte>)
    requires SettingOk(x)
  {
    [x.id / 0x100, x.id % 0x100] + U32(x.value)
  }

  function SettingsPayload(ss: seq<Setting>): (s: seq<byte>)
    requires forall x <- ss :: SettingOk(x)
  {
    if ss == [] then []
    else
      assert SettingOk(ss[0]);
      SettingBytes(ss[0]) + SettingsPayload(ss[1..])
  }

  function ReadSettings(s: seq<byte>): (ss: seq<Setting>)
    requires |s| % 6 == 0
  {
    if s == [] then []
    else [Setting(FromU16(s[0], s[1]), FromU32(s[2], s[3], s[4], s[5]))] + ReadSettings(s[6..])
  }

  const INITIAL_WINDOW_SIZE := 4

  /** The first value of the initial window size must be one. */
  function FirstValue(ss: seq<Setting>, id: nat): (v: Option<nat>) {
    if ss == [] then None else if ss[0].id == id then Some(ss[0].value) else FirstValue(ss[1..], id)
  }

  function ParseSettings(h: Header, s: seq<byte>): (r: Result<seq<Setting>, Error>) {
    if FlagsOf(h.flags).endStream && h.length > 0 then Err(ConnectionError)
    else if h.id != 0 || |s| % 6 != 0 then Err(ConnectionError)
    else
      var v := FirstValue(ReadSettings(s), INITIAL_WINDOW_SIZE);
      if v.Some? && v.value >= STREAM_LIMIT then Err(ConnectionError) else Ok(ReadSettings(s))
  }

  lemma {:induction false} SettingsInverts(ss: seq<Setting>)
    requires forall x <- ss :: SettingOk(x)
    ensures |SettingsPayload(ss)| == 6 * |ss| && ReadSettings(SettingsPayload(ss)) == ss
  {
    hide SettingBytes, ReadSettings;
    if ss == [] {
      NoSettings();
    } else {
      assert SettingOk(ss[0]);
      SettingsInverts(ss[1..]);
      MultipleOf6(|ss| - 1);
      SettingStep(ss[0], SettingsPayload(ss[1..]));
    }
  }

  lemma {:induction false} NoSettings()
    ensures ReadSettings([]) == []
  {
  }

  lemma {:induction false} MultipleOf6(k: nat)
    ensures 6 * k % 6 == 0 && (6 + 6 * k) % 6 == 0
  {
  }

  lemma {:induction false} SettingStep(x: Setting, t: seq<byte>)
    requires SettingOk(x) && |t| % 6 == 0
    ensures var s := SettingBytes(x) + t; |s| == 6 + |t| && ReadSettings(s) == [x] + ReadSettings(t)
  {
    hide U32, FromU32;
    U32RoundTrip(x.value);
    var s := SettingBytes(x) + t;
    assert s[6..] == t;
  }

  /** A SETTINGS frame is parsed to its settings, in order, unless its first initial window size is too big. */
  lemma {:induction false} SettingsRoundTrip(ss: seq<Setting>)
    requires forall x <- ss :: SettingOk(x)
    ensures var v := FirstValue(ss, INITIAL_WINDOW_SIZE);
            ParseSettings(Header(6 * |ss|, SETTINGS, 0, 0), SettingsPayload(ss))
              == if v.Some? && v.value >= STREAM_LIMIT then Err(ConnectionError) else Ok(ss)
  {
    hide SettingsPayload, ReadSettings, FirstValue;
    SettingsInverts(ss);
  }
}
