/**
 The framed handshake that a client must send before a backend is opened, and the
 printer that the production check uses to build such frames.
 */
module Handshake {
  import opened Bytes
  import opened Varint

  const ADDRESS_BYTES_MAX: nat := 255
  const PACKET_BYTES_MAX: nat := 1024
  const INT32_MAX: nat := 0x7FFF_FFFF

  datatype Verdict = NeedMore | Valid | Invalid

  // -- the printer

  datatype Hello = Hello(version: nat, address: seq<byte>, port: nat, nextState: nat)

  /** What the gate lets through: the ranges that the field readers check. */
  predicate Admissible(h: Hello) {
    && 1 <= h.version <= INT32_MAX
    && 1 <= |h.address| <= ADDRESS_BYTES_MAX
    && 1 <= h.port < 65536
    && (h.nextState == 1 || h.nextState == 2)
  }

  function PortBytes(port: nat): seq<byte>
    requires port < 65536
  {
    [port / 256, port % 256]
  }

  /** Packet id 0, version, address with its length, big-endian port, next state. */
  function Body(h: Hello): seq<byte>
    requires h.port < 65536
  {
    Encode(0) + Encode(h.version) + Encode(|h.address|) + h.address
    + PortBytes(h.port) + Encode(h.nextState)
  }

  function Packet(body: seq<byte>): seq<byte> {
    Encode(|body|) + body
  }

  // -- the validator

  /** The next state closes the packet. */
  predicate NextStateIsValid(s: seq<byte>) {
    var r := ReadFrom(s, 0);
    r.Value? && (r.value == 1 || r.value == 2) && r.length == |s|
  }

  /** Address length, address, nonzero port, then at least one byte more. */
  predicate AddressIsValid(s: seq<byte>) {
    var r := ReadFrom(s, 0);
    && r.Value? && 1 <= r.value <= ADDRESS_BYTES_MAX && r.length + r.value + 3 <= |s|
    && !(s[r.length + r.value] == 0 && s[r.length + r.value + 1] == 0)
    && NextStateIsValid(s[r.length + r.value + 2..])
  }

  predicate VersionIsValid(s: seq<byte>) {
    var r := ReadFrom(s, 0);
    r.Value? && 1 <= r.value <= INT32_MAX && r.length <= |s| && AddressIsValid(s[r.length..])
  }

  predicate BodyIsValid(s: seq<byte>) {
    var r := ReadFrom(s, 0);
    r.Value? && r.value == 0 && r.length <= |s| && VersionIsValid(s[r.length..])
  }

  /** The verdict on the bytes read so far. */
  function Validate(buf: seq<byte>): Verdict {
    match ReadFrom(buf, 0)
    case Incomplete => NeedMore
    case Malformed => Invalid
    case Value(len, n) =>
      if len == 0 || len > PACKET_BYTES_MAX then Invalid
      else if |buf| < n + len then NeedMore
      else if BodyIsValid(buf[n..n + len]) then Valid
      else Invalid
  }

  /** Splits a slice at an offset that was measured from the buffer's start. */
  lemma SliceTail(buf: seq<byte>, from: nat, to: nat, n: nat)
    requires from + n <= to <= |buf|
    ensures buf[from..to][n..] == buf[from + n..to]
  {
  }

  lemma EmptyNeedsMore()
    ensures ReadFrom([], 0) == Incomplete
  {
  }

  /** The address and port fields at `offset`, read in place; `None` refuses. */
  method SkipServerAddress(buf: array<byte>, end: nat, offset: nat) returns (next: Option<nat>)
    requires offset <= end <= buf.Length
    ensures next.Some? ==> offset <= next.value <= end
    ensures AddressIsValid(buf[offset..end])
       <==> next.Some? && NextStateIsValid(buf[next.value..end])
  {
    var s := ReadVarint(buf, end, offset);
    if !s.Value? || s.value == 0 || s.value > ADDRESS_BYTES_MAX {
      return None;
    }
    ReadLengthIsBounded(buf[offset..end], 0);
    var at := offset + s.length;
    if s.value > end - at || end - at - s.value < 3 {
      return None;
    }
    at := at + s.value;
    if buf[at] == 0 && buf[at + 1] == 0 {
      return None;
    }
    SliceTail(buf[..], offset, end, s.length + s.value + 2);
    assert buf[..][offset..end] == buf[offset..end];
    return Some(at + 2);
  }

  /** The validator as it runs, moving one offset through the buffer. */
  method ValidateBuffer(buf: array<byte>, len: nat) returns (v: Verdict)
    requires len <= buf.Length
    ensures v == Validate(buf[..len])
  {
    hide ReadFrom, AddressIsValid;
    EmptyNeedsMore();
    if len == 0 {
      return NeedMore;
    }
    assert buf[..len] == buf[0..len];
    var frame := ReadVarint(buf, len, 0);
    if !frame.Value? {
      return if frame.Incomplete? then NeedMore else Invalid;
    }
    if frame.value == 0 || frame.value > PACKET_BYTES_MAX {
      return Invalid;
    }
    ReadLengthIsBounded(buf[..len], 0);
    var offset := frame.length;
    var end := offset + frame.value;
    if len < end {
      return NeedMore;
    }
    ghost var body := buf[offset..end];
    assert body == buf[..len][offset..end];
    var id := ReadVarint(buf, end, offset);
    if !id.Value? || id.value != 0 {
      return Invalid;
    }
    ReadLengthIsBounded(body, 0);
    offset := offset + id.length;
    assert body[id.length..] == buf[offset..end];
    var version := ReadVarint(buf, end, offset);
    if !version.Value? || version.value == 0 || version.value > INT32_MAX {
      return Invalid;
    }
    ReadLengthIsBounded(buf[offset..end], 0);
    assert buf[offset..end][version.length..] == buf[offset + version.length..end];
    var address := SkipServerAddress(buf, end, offset + version.length);
    if address.None? {
      return Invalid;
    }
    var state := ReadVarint(buf, end, address.value);
    if !state.Value? || !(state.value == 1 || state.value == 2)
       || address.value + state.length != end {
      return Invalid;
    }
    return Valid;
  }

  // -- what is accepted

  lemma EncodedLength(v: nat)
    requires v < Bound(0)
    ensures 1 <= |Encode(v)| <= 5
  {
    DecodeInvertsEncode(v, []);
    assert Encode(v) + [] == Encode(v);
    ReadLengthIsBounded(Encode(v), 0);
  }

  /** A frame that the printer builds fits the packet cap. */
  lemma BodyLength(h: Hello)
    requires Admissible(h)
    ensures 1 <= |Body(h)| <= 266
  {
    EncodedLength(h.version);
    assert |h.address| < 128 ==> |Encode(|h.address|)| == 1;
    assert |h.address| >= 128 ==> |Encode(|h.address|)| == 2;
  }

  function AddressSection(h: Hello): seq<byte>
    requires h.port < 65536
  {
    Encode(|h.address|) + h.address + PortBytes(h.port) + Encode(h.nextState)
  }

  lemma PrintedAddress(h: Hello)
    requires Admissible(h)
    ensures AddressIsValid(AddressSection(h))
  {
    hide ReadFrom, Encode;
    var s := AddressSection(h);
    var tail := h.address + PortBytes(h.port) + Encode(h.nextState);
    assert s == Encode(|h.address|) + tail;
    DecodeInvertsEncode(|h.address|, tail);
    var at := |Encode(|h.address|)| + |h.address|;
    assert s[at] == h.port / 256 && s[at + 1] == h.port % 256;
    assert s[at + 2..] == Encode(h.nextState) == Encode(h.nextState) + [];
    DecodeInvertsEncode(h.nextState, []);
    EncodedLength(h.nextState);
  }

  lemma PrintedBody(h: Hello)
    requires Admissible(h)
    ensures BodyIsValid(Body(h))
  {
    hide ReadFrom, Encode, AddressIsValid, AddressSection;
    var section := AddressSection(h);
    PrintedAddress(h);
    DecodeInvertsEncode(h.version, section);
    assert (Encode(h.version) + section)[|Encode(h.version)|..] == section;
    DecodeInvertsEncode(0, Encode(h.version) + section);
    BodyParts(h);
    assert Body(h)[|Encode(0)|..] == Encode(h.version) + section;
  }

  lemma BodyParts(h: Hello)
    requires h.port < 65536
    ensures Body(h) == Encode(0) + (Encode(h.version) + AddressSection(h))
  {
    hide Encode;
  }

  /** Every admissible frame is accepted, whatever follows it. */
  lemma PrintedIsAccepted(h: Hello, rest: seq<byte>)
    requires Admissible(h)
    ensures Validate(Packet(Body(h)) + rest) == Valid
  {
    hide ReadFrom, Encode, BodyIsValid, Body;
    var body := Body(h);
    PrintedBody(h);
    BodyLength(h);
    var buf := Packet(body) + rest;
    assert buf == Encode(|body|) + (body + rest);
    DecodeInvertsEncode(|body|, body + rest);
    assert buf[|Encode(|body|)|..|Encode(|body|)| + |body|] == body;
  }

  /** A number read from the front is there in its printed form. */
  lemma ReadMeansPrinted(s: seq<byte>)
    requires ReadFrom(s, 0).Value?
    ensures var r := ReadFrom(s, 0);
            r.length <= |s| && s == Encode(r.value) + s[r.length..]
  {
    hide ReadFrom, Encode;
    var r := ReadFrom(s, 0);
    ReadFromIffEncoded(s, 0, r.value, r.length);
  }

  lemma AcceptedAddress(s: seq<byte>, version: nat) returns (h: Hello)
    requires AddressIsValid(s) && 1 <= version <= INT32_MAX
    ensures Admissible(h) && h.version == version && s == AddressSection(h)
  {
    hide ReadFrom, Encode;
    var r := ReadFrom(s, 0);
    var at := r.length + r.value;
    ReadMeansPrinted(s);
    var high: nat, low: nat := s[at], s[at + 1];
    ReadMeansPrinted(s[at + 2..]);
    h := Hello(version, s[r.length..at], high * 256 + low, ReadFrom(s[at + 2..], 0).value);
    assert s[at + 2..] == Encode(h.nextState);
    assert s[r.length..] == h.address + PortBytes(h.port) + Encode(h.nextState);
  }

  lemma AcceptedBody(s: seq<byte>) returns (h: Hello)
    requires BodyIsValid(s)
    ensures Admissible(h) && s == Body(h)
  {
    hide ReadFrom, Encode, AddressIsValid, AddressSection, Body;
    ReadMeansPrinted(s);
    var tail := s[ReadFrom(s, 0).length..];
    ReadMeansPrinted(tail);
    var version := ReadFrom(tail, 0).value;
    h := AcceptedAddress(tail[ReadFrom(tail, 0).length..], version);
    BodyParts(h);
  }

  /** Whatever is accepted starts with the printed frame of admissible fields. */
  lemma AcceptedIsPrinted(buf: seq<byte>) returns (h: Hello)
    requires Validate(buf) == Valid
    ensures Admissible(h) && Packet(Body(h)) <= buf
  {
    hide ReadFrom, Encode, BodyIsValid, Body;
    ReadMeansPrinted(buf);
    var frame := ReadFrom(buf, 0);
    var body := buf[frame.length..frame.length + frame.value];
    h := AcceptedBody(body);
    assert buf == Packet(body) + buf[frame.length + frame.value..];
  }

  /** The gate accepts exactly the printer's image. */
  lemma ValidIffPrinted(buf: seq<byte>)
    ensures Validate(buf) == Valid
       <==> exists h: Hello :: Admissible(h) && Packet(Body(h)) <= buf
  {
    if Validate(buf) == Valid {
      var h := AcceptedIsPrinted(buf);
    }
    forall h: Hello | Admissible(h) && Packet(Body(h)) <= buf
      ensures Validate(buf) == Valid
    {
      var rest := buf[|Packet(Body(h))|..];
      assert buf == Packet(Body(h)) + rest;
      PrintedIsAccepted(h, rest);
    }
  }

  /** A verdict is final: appending bytes never changes it. */
  lemma VerdictIsFinal(buf: seq<byte>, more: seq<byte>)
    requires Validate(buf) != NeedMore
    ensures Validate(buf + more) == Validate(buf)
  {
    hide BodyIsValid, ReadFrom;
    ReadFromIsStable(buf, more, 0);
    var r := ReadFrom(buf, 0);
    if r.Value? && |buf| >= r.length + r.value {
      assert (buf + more)[r.length..r.length + r.value] == buf[r.length..r.length + r.value];
    }
  }
}
