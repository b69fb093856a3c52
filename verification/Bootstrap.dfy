/** The bootstrap handshake of a CI session: the frame codec, its reading through short
    reads, the commit, and the order in which serving may begin. */
module Bootstrap {
  import opened Bytes

  const MAGIC: ByteString := [66, 65, 83, 73, 76, 67, 73, 0]
  const VERSION: Byte := 1
  const COMMIT: Byte := 1
  const HEADER_BYTES: nat := 25
  const MAX_BOOTSTRAP_BYTES: nat := 65_536
  const MAX_FIELD_BYTES: nat := 32_768
  const GITHUB: ByteString := [103, 105, 116, 104, 117, 98]
  const FORGEJO_ACTIONS: ByteString := [102, 111, 114, 103, 101, 106, 111, 65, 99, 116, 105, 111, 110, 115]

  datatype ProviderKind = Github | ForgejoActions

  datatype Frame = Frame(kind: ProviderKind, origin: ByteString, url: ByteString, token: ByteString)

  function KindName(kind: ProviderKind): (r: ByteString) {
    match kind case Github => GITHUB case ForgejoActions => FORGEJO_ACTIONS
  }

  function ParseKind(name: ByteString): (r: Option<ProviderKind>)
    ensures r.Some? ==> KindName(r.value) == name
    ensures r.None? ==> forall kind :: KindName(kind) != name
  {
    if name == GITHUB then Some(Github) else if name == FORGEJO_ACTIONS then Some(ForgejoActions) else None
  }

  lemma KindRoundTrip(kind: ProviderKind)
    ensures ParseKind(KindName(kind)) == Some(kind)
    ensures IsUtf8(KindName(kind)) && 1 <= |KindName(kind)| <= MAX_FIELD_BYTES
  {
    hide IsUtf8;
    assert IsAscii(GITHUB) && IsAscii(FORGEJO_ACTIONS);
    AsciiIsUtf8(KindName(kind));
  }

  // --------------------------------------------------------------------------- the codec

  predicate ValidField(field: ByteString) {
    1 <= |field| <= MAX_FIELD_BYTES && IsUtf8(field)
  }

  function FrameLength(f: Frame): (n: nat) {
    HEADER_BYTES + |KindName(f.kind)| + |f.origin| + |f.url| + |f.token|
  }

  predicate ValidFrame(f: Frame) {
    ValidField(f.origin) && ValidField(f.url) && ValidField(f.token) && FrameLength(f) <= MAX_BOOTSTRAP_BYTES
  }

  function EncodeFrame(f: Frame): (r: ByteString)
    requires ValidFrame(f)
  {
    KindRoundTrip(f.kind);
    MAGIC + [VERSION] + U32(|KindName(f.kind)|) + U32(|f.origin|) + U32(|f.url|) + U32(|f.token|)
    + KindName(f.kind) + f.origin + f.url + f.token
  }

  /** The length of field `i` as the header gives it. */
  function LengthAt(s: ByteString, i: nat): (n: nat)
    requires |s| >= HEADER_BYTES && i < 4
  {
    FromU32(s[9 + 4 * i..13 + 4 * i])
  }

  predicate LengthOk(n: nat) {
    1 <= n <= MAX_FIELD_BYTES
  }

  /** Where field `i` begins; for `i == 4`, where the frame ends. */
  function OffsetOf(s: ByteString, i: nat): (n: nat)
    requires |s| >= HEADER_BYTES && i <= 4
    ensures n >= HEADER_BYTES
  {
    if i == 0 then HEADER_BYTES else OffsetOf(s, i - 1) + LengthAt(s, i - 1)
  }

  lemma {:induction false} OffsetsGrow(s: ByteString, i: nat, j: nat)
    requires |s| >= HEADER_BYTES && i <= j <= 4
    ensures OffsetOf(s, i) <= OffsetOf(s, j)
    decreases j
  {
    if i < j {
      OffsetsGrow(s, i, j - 1);
    }
  }

  predicate HeaderOk(s: ByteString) {
    && |s| >= HEADER_BYTES && s[..8] == MAGIC && s[8] == VERSION
    && (forall i :: 0 <= i < 4 ==> LengthOk(LengthAt(s, i)))
    && OffsetOf(s, 4) <= MAX_BOOTSTRAP_BYTES
  }

  function FieldAt(s: ByteString, i: nat): (r: ByteString)
    requires |s| >= HEADER_BYTES && i < 4 && OffsetOf(s, 4) <= |s|
  {
    OffsetsGrow(s, i, i + 1);
    OffsetsGrow(s, i + 1, 4);
    s[OffsetOf(s, i)..OffsetOf(s, i + 1)]
  }

  /** All four fields are there, and are UTF-8. */
  predicate FieldsOk(s: ByteString)
    requires |s| >= HEADER_BYTES
  {
    && OffsetOf(s, 4) <= |s|
    && forall i :: 0 <= i < 4 ==> IsUtf8(FieldAt(s, i))
  }

  /** The frame at the head of `s`, if there is one. */
  function ParseFrame(s: ByteString): (r: Option<Frame>) {
    if !HeaderOk(s) || !FieldsOk(s) then None
    else
      match ParseKind(FieldAt(s, 0))
      case None => None
      case Some(kind) => Some(Frame(kind, FieldAt(s, 1), FieldAt(s, 2), FieldAt(s, 3)))
  }

  lemma {:induction false} EncodedHeader(f: Frame, rest: ByteString)
    requires ValidFrame(f)
    ensures var s := EncodeFrame(f) + rest;
            && |s| == FrameLength(f) + |rest| && s[..8] == MAGIC && s[8] == VERSION
            && LengthAt(s, 0) == |KindName(f.kind)| && LengthAt(s, 1) == |f.origin|
            && LengthAt(s, 2) == |f.url| && LengthAt(s, 3) == |f.token|
  {
    hide U32, FromU32, KindName, IsUtf8;
    KindRoundTrip(f.kind);
    var s := EncodeFrame(f) + rest;
    U32RoundTrip(|KindName(f.kind)|);
    U32RoundTrip(|f.origin|);
    U32RoundTrip(|f.url|);
    U32RoundTrip(|f.token|);
    assert s[9..13] == U32(|KindName(f.kind)|) && s[13..17] == U32(|f.origin|);
    assert s[17..21] == U32(|f.url|) && s[21..25] == U32(|f.token|);
  }

  lemma {:induction false} EncodedOffsets(f: Frame, rest: ByteString)
    requires ValidFrame(f)
    ensures var s := EncodeFrame(f) + rest;
            && |s| >= FrameLength(f) && OffsetOf(s, 0) == HEADER_BYTES
               && OffsetOf(s, 1) == HEADER_BYTES + |KindName(f.kind)|
            && OffsetOf(s, 2) == HEADER_BYTES + |KindName(f.kind)| + |f.origin|
            && OffsetOf(s, 3) == HEADER_BYTES + |KindName(f.kind)| + |f.origin| + |f.url|
            && OffsetOf(s, 4) == FrameLength(f)
  {
    hide LengthAt, EncodeFrame, KindName, IsUtf8;
    EncodedHeader(f, rest);
    var s := EncodeFrame(f) + rest;
    assert OffsetOf(s, 1) == OffsetOf(s, 0) + LengthAt(s, 0);
    assert OffsetOf(s, 2) == OffsetOf(s, 1) + LengthAt(s, 1);
    assert OffsetOf(s, 3) == OffsetOf(s, 2) + LengthAt(s, 2);
    assert OffsetOf(s, 4) == OffsetOf(s, 3) + LengthAt(s, 3);
  }

  lemma {:induction false} EncodedFields(f: Frame, rest: ByteString)
    requires ValidFrame(f)
    ensures var s := EncodeFrame(f) + rest;
            && |s| >= HEADER_BYTES && OffsetOf(s, 1) <= OffsetOf(s, 2) <= OffsetOf(s, 3) <= OffsetOf(s, 4) <= |s|
            && FieldAt(s, 0) == KindName(f.kind) && FieldAt(s, 1) == f.origin
            && FieldAt(s, 2) == f.url && FieldAt(s, 3) == f.token
  {
    hide LengthAt, U32, KindName, IsUtf8, OffsetOf;
    EncodedOffsets(f, rest);
    var s, n := EncodeFrame(f) + rest, HEADER_BYTES + |KindName(f.kind)|;
    assert s[HEADER_BYTES..n] == KindName(f.kind) && s[n..n + |f.origin|] == f.origin;
    assert s[n + |f.origin|..n + |f.origin| + |f.url|] == f.url;
    assert s[n + |f.origin| + |f.url|..FrameLength(f)] == f.token;
  }

  /** A valid frame is read back from its encoding, whatever follows it. */
  lemma {:induction false} FrameRoundTrip(f: Frame, rest: ByteString)
    requires ValidFrame(f)
    ensures ParseFrame(EncodeFrame(f) + rest) == Some(f)
  {
    hide LengthAt, OffsetOf, FieldAt, EncodeFrame, KindName, ParseKind, IsUtf8;
    EncodedHeader(f, rest);
    EncodedOffsets(f, rest);
    EncodedFields(f, rest);
    KindRoundTrip(f.kind);
    var s := EncodeFrame(f) + rest;
    assert HeaderOk(s);
    assert FieldsOk(s) by {
      forall i | 0 <= i < 4
        ensures IsUtf8(FieldAt(s, i))
      {
        assert i == 0 || i == 1 || i == 2 || i == 3;
      }
    }
  }

  lemma {:induction false} ParsedShape(s: ByteString)
    requires ParseFrame(s).Some?
    ensures var f := ParseFrame(s).value;
            && ValidFrame(f) && KindName(f.kind) == FieldAt(s, 0)
            && f.origin == FieldAt(s, 1) && f.url == FieldAt(s, 2) && f.token == FieldAt(s, 3)
            && |FieldAt(s, 0)| == LengthAt(s, 0) && |f.origin| == LengthAt(s, 1) && |f.url| == LengthAt(s, 2)
               && |f.token| == LengthAt(s, 3)
            && OffsetOf(s, 4) == FrameLength(f) <= |s|
  {
    hide LengthAt, IsUtf8, KindName, ParseKind;
    OffsetsGrow(s, 0, 1);
    OffsetsGrow(s, 1, 2);
    OffsetsGrow(s, 2, 3);
    OffsetsGrow(s, 3, 4);
    assert OffsetOf(s, 1) == OffsetOf(s, 0) + LengthAt(s, 0);
    assert OffsetOf(s, 2) == OffsetOf(s, 1) + LengthAt(s, 1);
    assert OffsetOf(s, 3) == OffsetOf(s, 2) + LengthAt(s, 2);
    assert OffsetOf(s, 4) == OffsetOf(s, 3) + LengthAt(s, 3);
    assert LengthOk(LengthAt(s, 1)) && LengthOk(LengthAt(s, 2)) && LengthOk(LengthAt(s, 3));
  }

  lemma HeaderRecovered(s: ByteString)
    requires |s| >= HEADER_BYTES && s[..8] == MAGIC && s[8] == VERSION
    ensures s[..25] == MAGIC + [VERSION] + U32(LengthAt(s, 0)) + U32(LengthAt(s, 1)) + U32(LengthAt(s, 2))
            + U32(LengthAt(s, 3))
  {
    hide U32, FromU32;
    U32Unique(s[9..13]);
    U32Unique(s[13..17]);
    U32Unique(s[17..21]);
    U32Unique(s[21..25]);
  }

  /** Whatever parses begins with the encoding of its result. */
  lemma {:induction false} ParsedIsEncoding(s: ByteString)
    requires ParseFrame(s).Some?
    ensures ValidFrame(ParseFrame(s).value) && FrameLength(ParseFrame(s).value) <= |s|
    ensures EncodeFrame(ParseFrame(s).value) == s[..FrameLength(ParseFrame(s).value)]
  {
    hide LengthAt, U32, IsUtf8, KindName, ParseKind, OffsetOf, ValidField;
    ParsedShape(s);
    HeaderRecovered(s);
    var f := ParseFrame(s).value;
    ParsedOffsets(s);
    assert s[..FrameLength(f)] == s[..25] + FieldAt(s, 0) + FieldAt(s, 1) + FieldAt(s, 2) + FieldAt(s, 3);
  }

  lemma ParsedOffsets(s: ByteString)
    requires |s| >= HEADER_BYTES
    ensures OffsetOf(s, 0) == HEADER_BYTES
    ensures OffsetOf(s, 0) <= OffsetOf(s, 1) <= OffsetOf(s, 2) <= OffsetOf(s, 3) <= OffsetOf(s, 4)
  {
    OffsetsGrow(s, 0, 1);
    OffsetsGrow(s, 1, 2);
    OffsetsGrow(s, 2, 3);
    OffsetsGrow(s, 3, 4);
  }

  /** The accepted streams: a frame is read exactly from the streams that begin with its encoding. */
  lemma {:induction false} FrameIff(s: ByteString, f: Frame)
    ensures ParseFrame(s) == Some(f) <==>
            ValidFrame(f) && FrameLength(f) <= |s| && s[..FrameLength(f)] == EncodeFrame(f)
  {
    hide ParseFrame, EncodeFrame, ValidFrame, FrameLength;
    if ParseFrame(s) == Some(f) {
      ParsedIsEncoding(s);
    }
    if ValidFrame(f) && FrameLength(f) <= |s| && s[..FrameLength(f)] == EncodeFrame(f) {
      assert s == EncodeFrame(f) + s[FrameLength(f)..];
      FrameRoundTrip(f, s[FrameLength(f)..]);
    }
  }

  /** The whole handshake: accepted exactly when the stream is the encoding of a valid frame,
      then byte 1, then the end of the input. */
  lemma {:induction false} HandshakeIff(s: ByteString, f: Frame)
    ensures ParseFrame(s) == Some(f) && FrameLength(f) <= |s| && s[FrameLength(f)..] == [COMMIT]
            <==> ValidFrame(f) && s == EncodeFrame(f) + [COMMIT]
  {
    hide ParseFrame, EncodeFrame, ValidFrame, FrameLength;
    FrameIff(s, f);
    if ValidFrame(f) {
      EncodedLength(f);
      if s == EncodeFrame(f) + [COMMIT] {
        assert s[..FrameLength(f)] == EncodeFrame(f);
      }
      if FrameLength(f) <= |s| && s[FrameLength(f)..] == [COMMIT] && s[..FrameLength(f)] == EncodeFrame(f) {
        assert s == s[..FrameLength(f)] + s[FrameLength(f)..];
      }
    }
  }

  lemma EncodedLength(f: Frame)
    requires ValidFrame(f)
    ensures |EncodeFrame(f)| == FrameLength(f)
  {
  }

  // ------------------------------------------------------------------------- the reading

  /** Standard input: what will ever arrive on it, and how much was taken. */
  class BootstrapInput {
    const stream: ByteString
    var position: nat

    ghost predicate Valid()
      reads this
    {
      position <= |stream|
    }

    function Rest(): ByteString
      requires position <= |stream|
      reads this
    {
      stream[position..]
    }

    constructor (stream: ByteString)
      ensures Valid() && Rest() == stream && this.stream == stream && position == 0
    {
      this.stream := stream;
      position := 0;
    }

    /** One read into the tail of a buffer: any positive number of the bytes that are there and
        fit, and none exactly at the end of the input or of the buffer. */
    method Read(buffer: array<Byte>, offset: nat) returns (count: nat)
      requires Valid() && offset <= buffer.Length
      modifies this, buffer
      ensures Valid() && count <= buffer.Length - offset && count <= |old(Rest())|
      ensures count == 0 <==> offset == buffer.Length || old(Rest()) == []
      ensures position == old(position) + count
      ensures buffer[..offset] == old(buffer[..offset])
      ensures buffer[offset..offset + count] == old(Rest())[..count]
    {
      var room := if buffer.Length - offset <= |stream| - position then buffer.Length - offset else |stream| - position;
      if room == 0 {
        return 0;
      }
      count :| 1 <= count <= room;
      var i := 0;
      while i < count
        invariant 0 <= i <= count
        invariant buffer[..offset] == old(buffer[..offset])
        invariant buffer[offset..offset + i] == stream[position..position + i]
        modifies buffer
      {
        buffer[offset + i] := stream[position + i];
        i := i + 1;
      }
      assert stream[position..position + count] == old(Rest())[..count];
      position := position + count;
    }

    /** Fill the buffer, read by read, or find the input at its end. */
    method ReadExact(buffer: array<Byte>) returns (ok: bool)
      requires Valid()
      modifies this, buffer
      ensures Valid()
      ensures ok <==> buffer.Length <= |old(Rest())|
      ensures ok ==> buffer[..] == old(Rest())[..buffer.Length] && position == old(position) + buffer.Length
      ensures !ok ==> Rest() == []
      ensures old(position) <= position <= old(position) + buffer.Length
    {
      var offset := 0;
      while offset < buffer.Length
        invariant Valid() && 0 <= offset <= buffer.Length
        invariant position == old(position) + offset
        invariant buffer[..offset] == stream[old(position)..old(position) + offset]
        decreases buffer.Length - offset
      {
        ghost var start, rest := old(position), Rest();
        assert rest == stream[start + offset..];
        var read := Read(buffer, offset);
        if read == 0 {
          return false;
        }
        assert rest[..read] == stream[start + offset..start + offset + read];
        assert buffer[..offset + read] == buffer[..offset] + buffer[offset..offset + read];
        assert stream[start..start + offset + read] == stream[start..start + offset] + rest[..read];
        offset := offset + read;
      }
      assert buffer[..] == buffer[..offset];
      assert old(Rest())[..offset] == stream[old(position)..old(position) + offset];
      ok := true;
    }

    method ReadFrame() returns (r: Option<Frame>)
      requires Valid()
      modifies this
      ensures Valid() && r == ParseFrame(old(Rest()))
      ensures r.Some? ==> position == old(position) + FrameLength(r.value)
      ensures position <= old(position) + MAX_BOOTSTRAP_BYTES
    {
      ghost var s := Rest();
      var header := new Byte[HEADER_BYTES];
      var ok := ReadExact(header);
      if !ok || header[..8] != MAGIC || header[8] != VERSION {
        NoHeader(s, header[..], ok);
        return None;
      }
      var lengths, total := CheckLengths(header[..], s);
      if lengths == [] {
        return None;
      }
      r := ReadFields(lengths, s);
    }

    /** The four fields, one after the other. */
    method ReadFields(lengths: seq<nat>, ghost s: ByteString) returns (r: Option<Frame>)
      requires Valid() && HeaderOk(s) && Rest() == s[HEADER_BYTES..]
      requires |lengths| == 4 && forall i :: 0 <= i < 4 ==> lengths[i] == LengthAt(s, i)
      modifies this
      ensures Valid() && r == ParseFrame(s)
      ensures r.Some? ==> position == old(position) + FrameLength(r.value) - HEADER_BYTES
      ensures old(position) <= position <= old(position) + MAX_BOOTSTRAP_BYTES - HEADER_BYTES
    {
      hide LengthAt, IsUtf8, ParseKind, FrameLength, KindName;
      var fields: seq<ByteString> := [];
      var i := 0;
      while i < 4
        invariant 0 <= i <= 4 && Valid() && |fields| == i
        invariant OffsetOf(s, i) <= |s| && Rest() == s[OffsetOf(s, i)..]
        invariant position == old(position) + OffsetOf(s, i) - HEADER_BYTES
        invariant forall k :: 0 <= k < i ==> IsField(s, k, fields[k]) && IsUtf8(fields[k])
      {
        OffsetsGrow(s, i + 1, 4);
        var bytes := new Byte[lengths[i]];
        ghost var rest := Rest();
        var ok := ReadExact(bytes);
        assert OffsetOf(s, i + 1) == OffsetOf(s, i) + lengths[i];
        if !ok {
          return None;
        }
        assert rest[..bytes.Length] == s[OffsetOf(s, i)..OffsetOf(s, i + 1)];
        if !IsUtf8(bytes[..]) {
          NotAllText(s, i, bytes[..]);
          return None;
        }
        fields := fields + [bytes[..]];
        i := i + 1;
      }
      AllText(s, fields);
      var kind := ParseKind(fields[0]);
      if kind.None? {
        return None;
      }
      r := Some(Frame(kind.value, fields[1], fields[2], fields[3]));
      ParsedShape(s);
    }

    /** Byte 1, then the end of the input. */
    method ReadCommit() returns (ok: bool)
      requires Valid()
      modifies this
      ensures Valid() && (ok <==> old(Rest()) == [COMMIT])
      ensures position <= old(position) + 2
    {
      var acknowledgement := new Byte[1];
      var got := ReadExact(acknowledgement);
      if !got || acknowledgement[0] != COMMIT {
        return false;
      }
      assert acknowledgement[..] == old(Rest())[..1];
      var trailing := new Byte[1];
      var count := Read(trailing, 0);
      ok := count == 0;
    }

    /** The frame, and later the commit: accepted exactly on `EncodeFrame(f) + [COMMIT]`. */
    method ReadHandshake() returns (r: Option<Frame>)
      requires Valid()
      modifies this
      ensures r.Some? ==> ValidFrame(r.value) && old(Rest()) == EncodeFrame(r.value) + [COMMIT]
      ensures r.None? ==> forall f | ValidFrame(f) :: old(Rest()) != EncodeFrame(f) + [COMMIT]
    {
      ghost var s := Rest();
      r := ReadFrame();
      if r.Some? {
        ghost var f := r.value;
        var ok := ReadCommit();
        HandshakeIff(s, f);
        if !ok {
          r := None;
        }
      }
      forall f | ValidFrame(f)
        ensures r.None? ==> s != EncodeFrame(f) + [COMMIT]
      {
        HandshakeIff(s, f);
      }
    }
  }

  /** `bytes` is field `i` of `s`, whether or not the later ones are there. */
  predicate IsField(s: ByteString, i: nat, bytes: ByteString)
    requires |s| >= HEADER_BYTES && i < 4
  {
    OffsetOf(s, i) <= OffsetOf(s, i + 1) <= |s| && bytes == s[OffsetOf(s, i)..OffsetOf(s, i + 1)]
  }

  lemma NotAllText(s: ByteString, i: nat, bytes: ByteString)
    requires |s| >= HEADER_BYTES && i < 4 && IsField(s, i, bytes) && !IsUtf8(bytes)
    ensures ParseFrame(s) == None
  {
    hide IsUtf8, OffsetOf, HeaderOk;
    if OffsetOf(s, 4) <= |s| {
      assert FieldAt(s, i) == bytes;
    }
  }

  lemma AllText(s: ByteString, fields: seq<ByteString>)
    requires |s| >= HEADER_BYTES && |fields| == 4
             && forall k :: 0 <= k < 4 ==> IsField(s, k, fields[k]) && IsUtf8(fields[k])
    ensures FieldsOk(s) && forall k :: 0 <= k < 4 ==> fields[k] == FieldAt(s, k)
  {
    hide IsUtf8;
    assert IsField(s, 3, fields[3]);
    forall k | 0 <= k < 4
      ensures fields[k] == FieldAt(s, k)
    {
      assert IsField(s, k, fields[k]);
    }
  }

  lemma NoHeader(s: ByteString, header: ByteString, ok: bool)
    requires ok <==> HEADER_BYTES <= |s|
    requires ok ==> header == s[..HEADER_BYTES] && (header[..8] != MAGIC || header[8] != VERSION)
    ensures ParseFrame(s) == None
  {
    if ok {
      assert s[..8] == header[..8];
    }
  }

  /** The length fields and their bounds; no lengths when a bound is broken. */
  method CheckLengths(header: ByteString, ghost s: ByteString) returns (lengths: seq<nat>, total: nat)
    requires |header| == HEADER_BYTES && |s| >= HEADER_BYTES && header == s[..HEADER_BYTES]
    requires s[..8] == MAGIC && s[8] == VERSION
    ensures lengths == [] <==> !HeaderOk(s)
    ensures lengths != [] ==>
            |lengths| == 4 && total == OffsetOf(s, 4) && forall i :: 0 <= i < 4 ==> lengths[i] == LengthAt(s, i)
  {
    hide FromU32;
    lengths, total := [], HEADER_BYTES;
    var i := 0;
    while i < 4
      invariant 0 <= i <= 4 && |lengths| == i
      invariant total == OffsetOf(s, i)
      invariant forall k :: 0 <= k < i ==> lengths[k] == LengthAt(s, k) && LengthOk(lengths[k])
    {
      var start := 9 + 4 * i;
      assert header[start..start + 4] == s[start..start + 4];
      var length := FromU32(header[start..start + 4]);
      if length == 0 || length > MAX_FIELD_BYTES {
        assert !LengthOk(LengthAt(s, i));
        return [], total;
      }
      total := total + length;
      lengths := lengths + [length];
      i := i + 1;
    }
    if total > MAX_BOOTSTRAP_BYTES || lengths[3] > MAX_FIELD_BYTES {
      return [], total;
    }
  }
}
