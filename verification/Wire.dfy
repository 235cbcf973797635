/**
 The wire format: `Network::Helper` packs an event into a 24-byte header, the network
 user sends header and data back to back, and the reader takes them apart again. Byte
 order is that of the machine; the model writes the low byte first on both sides.
 */
module Wire {
  import opened Common

  type byte = x: int | 0 <= x < 256
  type uint64 = x: int | 0 <= x < 0x1_0000_0000_0000_0000

  datatype Version = Version(major: uint16, minor: uint16, patch: uint16)

  datatype Event = Event(
    error: bool,
    canalID: uint16,
    applicationID: uint16,
    userID: uint16,
    eventCode: uint16,
    version: Version,
    data: seq<byte>)

  datatype Header = Header(
    error: byte,
    canalID: uint16,
    applicationID: uint16,
    userID: uint16,
    messageType: uint16,
    apiVersion: uint16,
    messageLength: uint64)

  // ---------- versions ----------

  /** The number `GenerateHeader` computes, before it is stored in 16 bits. */
  function VersionNumber(v: Version): nat {
    (v.major * 100 + v.minor) * 100 + v.patch
  }

  function Pack(v: Version): uint16 {
    VersionNumber(v) % 0x1_0000
  }

  function Unpack(n: uint16): Version {
    Version(n / 100 / 100 % 100, n / 100 % 100, n % 100)
  }

  /** What `SetVersion` admits. */
  predicate Admitted(v: Version) {
    v.major <= 99 && v.minor <= 99 && v.patch <= 99
  }

  /** `VersionHelper`: the version every event carries. */
  class VersionHelper {
    var major: uint16
    var minor: uint16
    var patch: uint16

    function Current(): Version
      reads this
    {
      Version(major, minor, patch)
    }

    constructor ()
      ensures Current() == Version(0, 0, 0)
    {
      major, minor, patch := 0, 0, 0;
    }

    /** `SetVersion`; `parsed` are the numbers `sscanf` could read, up to three, written before they are judged. */
    method SetVersion(parsed: seq<uint16>)
      modifies this
      ensures Admitted(Current())
      ensures Current() == if |parsed| == 3 && Admitted(Version(parsed[0], parsed[1], parsed[2]))
                           then Version(parsed[0], parsed[1], parsed[2]) else Version(0, 0, 0)
    {
      if |parsed| > 0 {
        major := parsed[0];
      }
      if |parsed| > 1 {
        minor := parsed[1];
      }
      if |parsed| > 2 {
        patch := parsed[2];
      }
      if |parsed| != 3 || major > 99 || minor > 99 || patch > 99 {
        major, minor, patch := 0, 0, 0;
      }
    }
  }

  /** The last two decimal digits come off again. */
  lemma LastTwoDigits(high: nat, low: nat)
    requires low < 100
    ensures (high * 100 + low) / 100 == high && (high * 100 + low) % 100 == low
  {
  }

  lemma SplitDigits(n: nat)
    ensures n == n / 100 * 100 + n % 100 && n % 100 < 100
  {
  }

  lemma UnpackKeepsNumber(n: uint16)
    ensures VersionNumber(Unpack(n)) == n
  {
    SplitDigits(n);
    SplitDigits(n / 100);
    var top := n / 100 / 100;
    assert top < 100;
    LastTwoDigits(0, top);
  }

  lemma NumberDetermines(v: Version)
    requires Admitted(v) && VersionNumber(v) <= 65535
    ensures Unpack(VersionNumber(v)) == v
  {
    LastTwoDigits(v.major * 100 + v.minor, v.patch);
    LastTwoDigits(v.major, v.minor);
    LastTwoDigits(0, v.major);
  }

  lemma PackOfSmall(v: Version)
    requires VersionNumber(v) <= 65535
    ensures Pack(v) == VersionNumber(v)
  {
  }

  /** An admitted version survives the 16 bits exactly when its number fits. */
  lemma VersionSurvivesExactly(v: Version)
    requires Admitted(v)
    ensures Unpack(Pack(v)) == v <==> VersionNumber(v) <= 65535
  {
    var n := Pack(v);
    UnpackKeepsNumber(n);
    if VersionNumber(v) <= 65535 {
      PackOfSmall(v);
      NumberDetermines(v);
    }
  }

  // ---------- events and headers ----------

  function GenerateHeader(e: Event): Header
    requires |e.data| < 0x1_0000_0000_0000_0000
  {
    Header(if e.error then 1 else 0, e.canalID, e.applicationID, e.userID, e.eventCode, Pack(e.version), |e.data|)
  }

  /** A C string ends at its first NUL. */
  function CString(data: seq<byte>): seq<byte> {
    if data == [] || data[0] == 0 then [] else [data[0]] + CString(data[1..])
  }

  function Converted(h: Header, data: seq<byte>): Event {
    Event(h.error != 0, h.canalID, h.applicationID, h.userID, h.messageType, Unpack(h.apiVersion), CString(data))
  }

  /** `Convert`, dividing the version down; no data stands for the null pointer. */
  method Convert(h: Header, data: seq<byte>) returns (event: Event)
    ensures event == Converted(h, data)
  {
    var version := h.apiVersion;
    var message: seq<byte> := [];
    var k := 0;
    while k < |data| && data[k] != 0
      invariant k <= |data|
      invariant message + CString(data[k..]) == CString(data)
    {
      assert data[k..][0] == data[k] && data[k..][1..] == data[k + 1..];
      message := message + [data[k]];
      k := k + 1;
    }
    assert message == CString(data) by {
      assert CString(data[k..]) == [];
    }
    var patch := version % 100;
    version := version / 100;
    var minor := version % 100;
    version := version / 100;
    var major := version % 100;
    event := Event(h.error != 0, h.canalID, h.applicationID, h.userID, h.messageType, Version(major, minor, patch),
        message);
  }

  lemma {:induction false} CStringWhole(data: seq<byte>)
    ensures CString(data) == data <==> 0 !in data
    ensures |CString(data)| <= |data|
    decreases |data|
  {
    if data != [] {
      CStringWhole(data[1..]);
      assert data == [data[0]] + data[1..];
      if data[0] != 0 {
        assert CString(data)[1..] == CString(data[1..]);
      }
    }
  }

  /** What the other side makes of an event. */
  function Received(e: Event): Event
    requires |e.data| < 0x1_0000_0000_0000_0000
  {
    Converted(GenerateHeader(e), e.data)
  }

  /**
   An event with an admitted version arrives as it was exactly when the version's number fits and
   the data holds no NUL.
   */
  lemma EventSurvivesExactly(e: Event)
    requires |e.data| < 0x1_0000_0000_0000_0000 && Admitted(e.version)
    ensures Received(e) == e <==> VersionNumber(e.version) <= 65535 && 0 !in e.data
  {
    VersionSurvivesExactly(e.version);
    CStringWhole(e.data);
  }

  // ---------- bytes ----------

  function Low16(n: uint16): seq<byte> {
    [n % 256, n / 256]
  }

  function Read16(b: seq<byte>, at: nat): uint16
    requires at + 2 <= |b|
  {
    var low: int, high: int := b[at], b[at + 1];
    low + 256 * high
  }

  /** `k` bytes, the lowest first. */
  function Low(n: nat, k: nat): (b: seq<byte>)
    ensures |b| == k
  {
    if k == 0 then [] else [n % 256] + Low(n / 256, k - 1)
  }

  function Value(b: seq<byte>): nat {
    if b == [] then 0 else b[0] + 256 * Value(b[1..])
  }

  function Power256(k: nat): nat {
    if k == 0 then 1 else 256 * Power256(k - 1)
  }

  lemma {:induction false} ValueOfLow(n: nat, k: nat)
    requires n < Power256(k)
    ensures Value(Low(n, k)) == n
    decreases k
  {
    if k > 0 {
      assert n / 256 < Power256(k - 1);
      ValueOfLow(n / 256, k - 1);
      assert Low(n, k)[1..] == Low(n / 256, k - 1);
    }
  }

  lemma {:induction false} ValueBound(b: seq<byte>)
    ensures Value(b) < Power256(|b|)
    decreases |b|
  {
    if b != [] {
      ValueBound(b[1..]);
    }
  }

  lemma Power256Of8()
    ensures Power256(8) == 0x1_0000_0000_0000_0000
  {
    assert Power256(4) == 0x1_0000_0000;
    assert Power256(8) == 256 * (256 * (256 * (256 * Power256(4))));
  }

  const HEADER_SIZE := 24

  /** The bytes the compiler leaves between the fields. */
  datatype Padding = Padding(afterError: byte, beforeLength: seq<byte>)

  predicate IsPadding(p: Padding) {
    |p.beforeLength| == 4
  }

  /** The header as it lies in memory. */
  function HeaderBytes(h: Header, p: Padding): (b: seq<byte>)
    requires IsPadding(p)
    ensures |b| == HEADER_SIZE
  {
    [h.error, p.afterError] + Low16(h.canalID) + Low16(h.applicationID) + Low16(h.userID) + Low16(h.messageType)
    + Low16(h.apiVersion) + p.beforeLength + Low(h.messageLength, 8)
  }

  /** The bytes read as a header. */
  function DecodeHeader(b: seq<byte>): Header
    requires |b| == HEADER_SIZE
  {
    ValueBound(b[16..]);
    Power256Of8();
    Header(b[0], Read16(b, 2), Read16(b, 4), Read16(b, 6), Read16(b, 8), Read16(b, 10), Value(b[16..]))
  }

  /** Copying the header out of memory and back gives it back, whatever the padding holds. */
  lemma HeaderReadsBack(h: Header, p: Padding)
    requires IsPadding(p)
    ensures DecodeHeader(HeaderBytes(h, p)) == h
  {
    var b := HeaderBytes(h, p);
    assert b[16..] == Low(h.messageLength, 8);
    Power256Of8();
    ValueOfLow(h.messageLength, 8);
  }

  lemma ValueStep(b: seq<byte>, i: nat)
    requires i < |b|
    ensures Value(b[i..]) == b[i] + 256 * Value(b[i + 1..])
  {
    assert b[i..][1..] == b[i + 1..];
  }

  function LowFirst(b0: int, b1: int, b2: int, b3: int, b4: int, b5: int, b6: int, b7: int): int {
    b0 + 0x100 * b1 + 0x1_0000 * b2 + 0x100_0000 * b3 + 0x1_0000_0000 * b4
    + 0x100_0000_0000 * b5 + 0x1_0000_0000_0000 * b6 + 0x100_0000_0000_0000 * b7
  }

  /** A 64-bit number in eight bytes, the lowest first. */
  lemma ValueOfEight(b: seq<byte>)
    requires |b| == 8
    ensures Value(b) == LowFirst(b[0], b[1], b[2], b[3], b[4], b[5], b[6], b[7])
  {
    assert b[0..] == b && b[8..] == [];
    ValueStep(b, 0);
    ValueStep(b, 1);
    ValueStep(b, 2);
    ValueStep(b, 3);
    ValueStep(b, 4);
    ValueStep(b, 5);
    ValueStep(b, 6);
    ValueStep(b, 7);
  }

  /** Where each field lies, its low byte first: the 24 bytes of the header. */
  lemma HeaderLayout(h: Header, p: Padding)
    requires IsPadding(p)
    ensures var b := HeaderBytes(h, p);
            && b[0] == h.error && b[1] == p.afterError
            && b[2] == h.canalID % 256 && b[3] == h.canalID / 256
            && b[4] == h.applicationID % 256 && b[5] == h.applicationID / 256
            && b[6] == h.userID % 256 && b[7] == h.userID / 256
            && b[8] == h.messageType % 256 && b[9] == h.messageType / 256
            && b[10] == h.apiVersion % 256 && b[11] == h.apiVersion / 256
            && b[12..16] == p.beforeLength
            && h.messageLength
               == LowFirst(b[16], b[17], b[18], b[19], b[20], b[21], b[22], b[23])
  {
    var b := HeaderBytes(h, p);
    HeaderReadsBack(h, p);
    ValueOfEight(b[16..]);
  }

  /** Each field of the header, from the event. */
  lemma HeaderOfEvent(e: Event)
    requires |e.data| < 0x1_0000_0000_0000_0000
    ensures var h := GenerateHeader(e);
            && h.error == (if e.error then 1 else 0)
            && h.canalID == e.canalID && h.applicationID == e.applicationID && h.userID == e.userID
            && h.messageType == e.eventCode && h.messageLength == |e.data|
            && h.apiVersion == (10000 * e.version.major + 100 * e.version.minor + e.version.patch) % 0x1_0000
  {
  }

  /** Each field of the event, from the header and the data: the data stop at the first NUL. */
  lemma EventOfHeader(h: Header, data: seq<byte>)
    ensures var e := Converted(h, data);
            && (e.error <==> h.error != 0)
            && e.canalID == h.canalID && e.applicationID == h.applicationID && e.userID == h.userID
            && e.eventCode == h.messageType
            && e.version == Version(h.apiVersion / 10000 % 100, h.apiVersion / 100 % 100, h.apiVersion % 100)
            && e.data <= data && 0 !in e.data && (e.data == data || data[|e.data|] == 0)
  {
    CStringStops(data);
    DivideByHundreds(h.apiVersion);
  }

  lemma DivideByHundreds(n: nat)
    ensures n / 100 / 100 == n / 10000
  {
  }

  lemma {:induction false} CStringStops(data: seq<byte>)
    ensures CString(data) <= data && 0 !in CString(data)
    ensures CString(data) == data || data[|CString(data)|] == 0
    decreases |data|
  {
    if data != [] && data[0] != 0 {
      CStringStops(data[1..]);
      assert CString(data) == [data[0]] + CString(data[1..]);
      assert data == [data[0]] + data[1..];
    }
  }

  // ---------- the stream ----------

  /** What `Receive` writes for one event. */
  function Frame(e: Event, p: Padding): seq<byte>
    requires |e.data| < 0x1_0000_0000_0000_0000 && IsPadding(p)
  {
    HeaderBytes(GenerateHeader(e), p) + e.data
  }

  predicate Sendable(events: seq<Event>, pads: seq<Padding>) {
    && |events| == |pads|
    && (forall i :: 0 <= i < |events| ==> |events[i].data| < 0x1_0000_0000_0000_0000)
    && (forall i :: 0 <= i < |pads| ==> IsPadding(pads[i]))
  }

  function Stream(events: seq<Event>, pads: seq<Padding>): seq<byte>
    requires Sendable(events, pads)
  {
    if events == [] then [] else Frame(events[0], pads[0]) + Stream(events[1..], pads[1..])
  }

  /** The reader: a header, then as many bytes as it says; it closes when the stream gives out. */
  function Read(stream: seq<byte>): seq<Event>
    decreases |stream|
  {
    if |stream| < HEADER_SIZE then []
    else
      var h := DecodeHeader(stream[..HEADER_SIZE]);
      if |stream| - HEADER_SIZE < h.messageLength then []
      else
        [Converted(h, stream[HEADER_SIZE..HEADER_SIZE + h.messageLength])]
            + Read(stream[HEADER_SIZE + h.messageLength..])
  }

  /** The chain of reads: each handler converts one message and asks for the next header. */
  method ReadAll(stream: seq<byte>) returns (events: seq<Event>)
    ensures events == Read(stream)
  {
    events := [];
    var at: nat := 0;
    var open := true;
    assert stream[0..] == stream;
    while open && |stream| - at >= HEADER_SIZE
      invariant at <= |stream|
      invariant events + Read(stream[at..]) == Read(stream)
      invariant !open ==> Read(stream[at..]) == []
      decreases |stream| - at, open
    {
      var event, next, ok := ReadOne(stream, at);
      if ok {
        AppendOne(events, event, Read(stream[next..]));
        events := events + [event];
        at := next;
      } else {
        open := false;
      }
    }
    assert events + [] == events;
  }

  lemma AppendOne(events: seq<Event>, event: Event, more: seq<Event>)
    ensures events + ([event] + more) == (events + [event]) + more
  {
  }

  /** One handler: the header, then the bytes it announces; not `ok` when they do not come. */
  method ReadOne(stream: seq<byte>, at: nat) returns (event: Event, next: nat, ok: bool)
    requires at <= |stream| && |stream| - at >= HEADER_SIZE
    ensures !ok ==> Read(stream[at..]) == []
    ensures ok ==> at < next <= |stream| && Read(stream[at..]) == [event] + Read(stream[next..])
  {
    ReadStep(stream, at);
    var from := at + HEADER_SIZE;
    var h := DecodeHeader(stream[at..from]);
    var data;
    data, ok := ReadBody(stream, from, h.messageLength);
    event := Convert(h, data);
    next := if ok then from + h.messageLength else at;
  }

  /** The bytes behind the header; no read is asked for when it announces none. */
  method ReadBody(stream: seq<byte>, from: nat, length: nat) returns (data: seq<byte>, ok: bool)
    requires from <= |stream|
    ensures ok <==> length <= |stream| - from
    ensures ok ==> data == stream[from..from + length]
  {
    data := [];
    ok := true;
    if length > 0 {
      if |stream| - from < length {
        return [], false;
      }
      data := stream[from..from + length];
    }
  }

  lemma ReadStep(stream: seq<byte>, at: nat)
    requires at <= |stream| && |stream| - at >= HEADER_SIZE
    ensures var from := at + HEADER_SIZE;
            var h := DecodeHeader(stream[at..from]);
            Read(stream[at..]) ==
            if |stream| - from < h.messageLength then []
            else [Converted(h, stream[from..from + h.messageLength])] + Read(stream[from + h.messageLength..])
  {
    var s, from := stream[at..], at + HEADER_SIZE;
    var h := DecodeHeader(stream[at..from]);
    assert s[..HEADER_SIZE] == stream[at..from];
    if |stream| - from >= h.messageLength {
      assert s[HEADER_SIZE..HEADER_SIZE + h.messageLength] == stream[from..from + h.messageLength];
      assert s[HEADER_SIZE + h.messageLength..] == stream[from + h.messageLength..];
    }
  }

  function ReceivedAll(events: seq<Event>): (r: seq<Event>)
    requires forall i :: 0 <= i < |events| ==> |events[i].data| < 0x1_0000_0000_0000_0000
    ensures |r| == |events|
    ensures forall i :: 0 <= i < |events| ==> r[i] == Received(events[i])
  {
    if events == [] then [] else [Received(events[0])] + ReceivedAll(events[1..])
  }

  lemma FrameReadsBack(e: Event, p: Padding, rest: seq<byte>)
    requires |e.data| < 0x1_0000_0000_0000_0000 && IsPadding(p)
    ensures Read(Frame(e, p) + rest) == [Received(e)] + Read(rest)
  {
    var h := GenerateHeader(e);
    var s := Frame(e, p) + rest;
    HeaderReadsBack(h, p);
    assert s[..HEADER_SIZE] == HeaderBytes(h, p);
    assert s[HEADER_SIZE..HEADER_SIZE + h.messageLength] == e.data;
    assert s[HEADER_SIZE + h.messageLength..] == rest;
  }

  /** Framing never slips: however many events, whatever their data, the reader finds each one. */
  lemma {:induction false} StreamReadsBack(events: seq<Event>, pads: seq<Padding>)
    requires Sendable(events, pads)
    ensures Read(Stream(events, pads)) == ReceivedAll(events)
    decreases |events|
  {
    if events != [] {
      FrameReadsBack(events[0], pads[0], Stream(events[1..], pads[1..]));
      StreamReadsBack(events[1..], pads[1..]);
    }
  }

  predicate Survives(e: Event) {
    VersionNumber(e.version) <= 65535 && 0 !in e.data
  }

  /** The events read are the events written exactly when every version fits and no data holds a NUL. */
  lemma StreamSurvivesExactly(events: seq<Event>, pads: seq<Padding>)
    requires Sendable(events, pads) && forall i :: 0 <= i < |events| ==> Admitted(events[i].version)
    ensures Read(Stream(events, pads)) == events <==> forall i :: 0 <= i < |events| ==> Survives(events[i])
  {
    StreamReadsBack(events, pads);
    forall i | 0 <= i < |events|
      ensures Received(events[i]) == events[i] <==> Survives(events[i])
    {
      EventSurvivesExactly(events[i]);
    }
    if forall i :: 0 <= i < |events| ==> Survives(events[i]) {
      assert ReceivedAll(events) == events;
    } else {
      var i :| 0 <= i < |events| && !Survives(events[i]);
      assert ReceivedAll(events)[i] != events[i];
    }
  }
}
