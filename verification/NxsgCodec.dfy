/** The NXSG external-signer wire format: request headers, sign bodies, response frames
    and diagnostics. */
module NxsgCodec {
  import opened Bytes
  import opened Signatures

  const HEADER_LEN: nat := 48
  const ID_LEN: nat := 16
  const PUBLIC_KEY_LEN: nat := 32
  const MAX_KEY_NAME_LEN: nat := 128
  const MAX_SIGN_REQUEST_BODY: nat := 524_808
  const MAX_CLIENT_FINGERPRINT: nat := 524_626
  const MAX_DIAGNOSTIC_LEN: nat := 1_024
  const MAGIC: ByteString := [78, 88, 83, 71]
  const MAJOR: Byte := 1
  const MINOR: Byte := 0
  const ZERO16: ByteString := [0, 0, 0, 0, 0, 0, 0, 0, 0, 0, 0, 0, 0, 0, 0, 0]

  datatype MessageType = DescribeRequest | SignRequest | DescribeResponse | SignResponse

  function TypeCode(t: MessageType): (b: Byte) {
    match t
    case DescribeRequest => 0x01
    case SignRequest => 0x02
    case DescribeResponse => 0x81
    case SignResponse => 0x82
  }

  predicate IsRequest(t: MessageType) {
    t.DescribeRequest? || t.SignRequest?
  }

  function ResponseTo(t: MessageType): (r: MessageType)
    ensures IsRequest(t) ==> TypeCode(r) as int == TypeCode(t) as int + 0x80
    ensures !IsRequest(r)
  {
    match t
    case DescribeRequest => DescribeResponse
    case SignRequest => SignResponse
    case _ => DescribeResponse
  }

  datatype Status =
    | StatusOk | Malformed | UnsupportedVersion | Unauthorized | KeyMismatch
    | InvalidFingerprint | Unavailable | DeadlineExceeded | Internal | Overloaded

  function StatusCode(s: Status): (b: Byte) {
    match s
    case StatusOk => 0 case Malformed => 1 case UnsupportedVersion => 2 case Unauthorized => 3
    case KeyMismatch => 4 case InvalidFingerprint => 5 case Unavailable => 6
    case DeadlineExceeded => 7 case Internal => 8 case Overloaded => 9
  }

  function StatusDiagnostic(s: Status): (r: string) {
    match s
    case StatusOk => "request succeeded"
    case Malformed => "malformed request"
    case UnsupportedVersion => "unsupported NXSG version"
    case Unauthorized => "request is not authorized"
    case KeyMismatch => "pinned key identity does not match"
    case InvalidFingerprint => "fingerprint is not canonical PATH_INFO_V1"
    case Unavailable => "signing key is unavailable"
    case DeadlineExceeded => "operation deadline exceeded"
    case Internal => "provider operation failed"
    case Overloaded => "provider is overloaded"
  }

  datatype RequestHeader = RequestHeader(kind: MessageType, bodyLen: nat, batchId: ByteString, requestId: ByteString)

  datatype Context = Context(kind: MessageType, batchId: ByteString, requestId: ByteString)

  function ContextOf(h: RequestHeader): (r: Context) {
    Context(ResponseTo(h.kind), h.batchId, h.requestId)
  }

  /** Close without a word, or answer with a status and a diagnostic. */
  datatype Rejection = CloseSilently | Respond(status: Status, diagnostic: string, context: Context)

  // ------------------------------------------------------------------------ headers

  function FrameHeader(kind: MessageType, status: Byte, len: nat, batchId: ByteString, requestId: ByteString)
    : (r: ByteString)
    requires len < 0x1_0000_0000
  {
    MAGIC + [MAJOR, MINOR, TypeCode(kind), status] + [0, 0, 0, 0] + U32(len) + batchId + requestId
  }

  predicate ValidLength(kind: MessageType, len: nat) {
    match kind
    case DescribeRequest => len == 0
    case SignRequest => len <= MAX_SIGN_REQUEST_BODY
    case _ => false
  }

  predicate ValidHeader(h: RequestHeader) {
    && IsRequest(h.kind) && ValidLength(h.kind, h.bodyLen)
    && |h.batchId| == ID_LEN && h.batchId != ZERO16
    && |h.requestId| == ID_LEN && h.requestId != ZERO16
  }

  /** `parse_request_header`, checks in order. */
  function ParseHeader(s: ByteString): (r: Result<RequestHeader, Rejection>)
    requires |s| == HEADER_LEN
  {
    if s[0..4] != MAGIC then Failure(CloseSilently)
    else if s[6] != 0x01 && s[6] != 0x02 then Failure(CloseSilently)
    else
      var kind := if s[6] == 0x01 then DescribeRequest else SignRequest;
      if s[16..32] == ZERO16 || s[32..48] == ZERO16 then Failure(CloseSilently)
      else
        var context := Context(ResponseTo(kind), s[16..32], s[32..48]);
        if s[4] != MAJOR || s[5] != MINOR then Failure(Respond(UnsupportedVersion, "unsupported NXSG version", context))
        else if s[7] != 0 then Failure(Respond(Malformed, "request status must be zero", context))
        else if s[8..12] != [0, 0, 0, 0] then Failure(Respond(Malformed, "request flags must be zero", context))
        else if !ValidLength(kind, FromU32(s[12..16])) then
          Failure(Respond(Malformed, "body length exceeds message bound", context))
        else Success(RequestHeader(kind, FromU32(s[12..16]), s[16..32], s[32..48]))
  }

  lemma FrameHeaderParts(kind: MessageType, status: Byte, len: nat, batchId: ByteString, requestId: ByteString)
    requires len < 0x1_0000_0000 && |batchId| == ID_LEN && |requestId| == ID_LEN
    ensures var s := FrameHeader(kind, status, len, batchId, requestId);
            && |s| == HEADER_LEN
            && s[0..4] == MAGIC && s[4] == MAJOR && s[5] == MINOR && s[6] == TypeCode(kind) && s[7] == status
            && s[8..12] == [0, 0, 0, 0] && s[12..16] == U32(len) && s[16..32] == batchId && s[32..48] == requestId
  {
    hide U32, TypeCode;
  }

  lemma PartsMakeHeader(s: ByteString, kind: MessageType)
    requires |s| == HEADER_LEN
    requires s[0..4] == MAGIC && s[4] == MAJOR && s[5] == MINOR && s[6] == TypeCode(kind) && s[8..12] == [0, 0, 0, 0]
    ensures s == FrameHeader(kind, s[7], FromU32(s[12..16]), s[16..32], s[32..48])
  {
    hide U32, FromU32, TypeCode;
    U32Unique(s[12..16]);
    assert s == s[0..4] + [s[4], s[5], s[6], s[7]] + s[8..12] + s[12..16] + s[16..32] + s[32..48];
  }

  /** A header is accepted exactly when it is the encoding of a valid request header. */
  lemma HeaderIff(s: ByteString, h: RequestHeader)
    requires |s| == HEADER_LEN
    ensures ParseHeader(s) == Success(h)
            <==> ValidHeader(h) && s == FrameHeader(h.kind, 0, h.bodyLen, h.batchId, h.requestId)
  {
    hide U32, FromU32, FrameHeader;
    if ParseHeader(s) == Success(h) {
      PartsMakeHeader(s, h.kind);
    }
    if ValidHeader(h) && s == FrameHeader(h.kind, 0, h.bodyLen, h.batchId, h.requestId) {
      FrameHeaderParts(h.kind, 0, h.bodyLen, h.batchId, h.requestId);
      U32RoundTrip(h.bodyLen);
    }
  }

  /** Whatever follows, a header that opens a response is never taken for a request. */
  lemma ResponseIsNoRequest(s: ByteString, kind: MessageType)
    requires |s| == HEADER_LEN && s[6] == TypeCode(ResponseTo(kind))
    ensures ParseHeader(s) == Failure(CloseSilently)
  {
  }

  /** Which headers are refused, and how: silence for a frame that is not a request at all, the
      version before everything else that can be answered. */
  lemma HeaderRefusals(s: ByteString)
    requires |s| == HEADER_LEN
    ensures var silent := s[0..4] != MAGIC || s[6] !in {1, 2} || s[16..32] == ZERO16 || s[32..48] == ZERO16;
            var r := ParseHeader(s);
            && (r == Failure(CloseSilently) <==> silent)
            && (r.Failure? && r.error.Respond? && r.error.status == UnsupportedVersion <==>
                !silent && s[4..6] != [MAJOR, MINOR])
            && (r.Failure? && r.error.Respond? && r.error.status == Malformed <==>
                  && !silent && s[4..6] == [MAJOR, MINOR]
                  && (s[7..12] != [0, 0, 0, 0, 0]
                      || FromU32(s[12..16]) > if s[6] == 1 then 0 else MAX_SIGN_REQUEST_BODY))
            && (r.Failure? && r.error.Respond? ==> r.error.status in {UnsupportedVersion, Malformed})
  {
    hide FromU32;
    assert s[4..6] == [s[4], s[5]] && s[7..12] == [s[7]] + s[8..12];
    assert s[7..12] == [0, 0, 0, 0, 0] <==> s[7] == 0 && s[8..12] == [0, 0, 0, 0];
  }

  /** An answered rejection echoes the two IDs of the header and its type with the top bit set. */
  lemma RejectionEchoes(s: ByteString)
    requires |s| == HEADER_LEN && ParseHeader(s).Failure? && ParseHeader(s).error.Respond?
    ensures var context := ParseHeader(s).error.context;
            && TypeCode(context.kind) as int == s[6] as int + 0x80
            && context.batchId == s[16..32] && context.requestId == s[32..48]
            && context.batchId != ZERO16 && context.requestId != ZERO16
    ensures ParseHeader(s).error.status != StatusOk
  {
  }

  // ------------------------------------------------------------- a request to its end

  /** Everything the peer sends before it stops; `broken` if the last read failed instead of
      finding the end. */
  datatype Received = Received(bytes: ByteString, broken: bool)

  /** `read_request` on everything the peer sends. */
  function ReadRequest(input: Received): (r: Result<(RequestHeader, ByteString), Rejection>) {
    var bytes := input.bytes;
    if |bytes| < HEADER_LEN then Failure(CloseSilently)
    else
      match ParseHeader(bytes[..HEADER_LEN])
      case Failure(e) => Failure(e)
      case Success(h) =>
        if |bytes| < HEADER_LEN + h.bodyLen then Failure(Respond(Malformed, "truncated body", ContextOf(h)))
        else if |bytes| > HEADER_LEN + h.bodyLen
          then Failure(Respond(Malformed, "trailing request bytes", ContextOf(h)))
        else if input.broken then Failure(Respond(Malformed, "request read failed", ContextOf(h)))
        else Success((h, bytes[HEADER_LEN..]))
  }

  function EncodeRequest(h: RequestHeader, body: ByteString): (r: ByteString)
    requires h.bodyLen < 0x1_0000_0000
  {
    FrameHeader(h.kind, 0, h.bodyLen, h.batchId, h.requestId) + body
  }

  /** The accepted inputs are exactly the encodings, each of one request, read to their end. */
  lemma RequestIff(input: Received, h: RequestHeader, body: ByteString)
    ensures ReadRequest(input) == Success((h, body))
            <==> ValidHeader(h) && |body| == h.bodyLen && input == Received(EncodeRequest(h, body), false)
  {
    hide ParseHeader, FrameHeader, ValidLength;
    var bytes := input.bytes;
    if ReadRequest(input) == Success((h, body)) {
      HeaderIff(bytes[..HEADER_LEN], h);
      assert bytes == bytes[..HEADER_LEN] + bytes[HEADER_LEN..];
    }
    if ValidHeader(h) && |body| == h.bodyLen {
      ValidLengthBound(h);
      if input == Received(EncodeRequest(h, body), false) {
        FrameHeaderParts(h.kind, 0, h.bodyLen, h.batchId, h.requestId);
        assert bytes[..HEADER_LEN] == FrameHeader(h.kind, 0, h.bodyLen, h.batchId, h.requestId);
        HeaderIff(bytes[..HEADER_LEN], h);
      }
    }
  }

  lemma ValidLengthBound(h: RequestHeader)
    requires ValidHeader(h)
    ensures h.bodyLen <= MAX_SIGN_REQUEST_BODY < 0x1_0000_0000
  {
  }

  lemma AcceptedHeaderFields(s: ByteString)
    requires |s| == HEADER_LEN && ParseHeader(s).Success?
    ensures var header := ParseHeader(s).value;
            ValidHeader(header) && s[6] == TypeCode(header.kind) && header.batchId == s[16..32]
              && header.requestId == s[32..48]
  {
  }

  /** A frame that is not a request at all. */
  predicate NoRequest(s: ByteString)
    requires |s| >= HEADER_LEN
  {
    s[0..4] != MAGIC || s[6] !in {1, 2} || s[16..32] == ZERO16 || s[32..48] == ZERO16
  }

  /** How every input that is not accepted is met: silence for one that is too short for a header or
      no request, the version before everything else, malformed for everything else. */
  lemma RequestRefusedIff(input: Received)
    ensures var s, r := input.bytes, ReadRequest(input);
            && (r == Failure(CloseSilently) <==> |s| < HEADER_LEN || NoRequest(s))
            && (r.Failure? && r.error.Respond? && r.error.status == UnsupportedVersion <==>
                  |s| >= HEADER_LEN && !NoRequest(s) && s[4..6] != [1, 0])
            && (r.Failure? && r.error.Respond? && r.error.status == Malformed <==>
                  && |s| >= HEADER_LEN && !NoRequest(s) && s[4..6] == [1, 0]
                  && (|| s[7..12] != [0, 0, 0, 0, 0]
                      || FromU32(s[12..16]) > (if s[6] == 1 then 0 else MAX_SIGN_REQUEST_BODY)
                      || |s| != HEADER_LEN + FromU32(s[12..16]) || input.broken))
  {
    hide ParseHeader, FromU32;
    var s := input.bytes;
    if |s| >= HEADER_LEN {
      var head := s[..HEADER_LEN];
      HeaderRefusals(head);
      assert head[0..4] == s[0..4] && head[4..6] == s[4..6] && head[7..12] == s[7..12] && head[12..16] == s[12..16];
      assert head[16..32] == s[16..32] && head[32..48] == s[32..48];
      if ParseHeader(head).Success? {
        AcceptedLength(head);
      }
    }
  }

  lemma AcceptedLength(s: ByteString)
    requires |s| == HEADER_LEN && ParseHeader(s).Success?
    ensures ParseHeader(s).value.bodyLen == FromU32(s[12..16])
  {
  }

  /** Every answered refusal of a request names that request. */
  lemma RequestRefusalEchoes(input: Received)
    requires ReadRequest(input).Failure? && ReadRequest(input).error.Respond?
    ensures |input.bytes| >= HEADER_LEN
    ensures var context := ReadRequest(input).error.context;
            && TypeCode(context.kind) as int == input.bytes[6] as int + 0x80
            && context.batchId == input.bytes[16..32] && context.requestId == input.bytes[32..48]
    ensures ReadRequest(input).error.status in {UnsupportedVersion, Malformed}
  {
    hide ParseHeader;
    var s := input.bytes[..HEADER_LEN];
    assert s[16..32] == input.bytes[16..32] && s[32..48] == input.bytes[32..48];
    if ParseHeader(s).Failure? {
      RejectionEchoes(s);
      HeaderRefusals(s);
    } else {
      AcceptedHeaderFields(s);
    }
  }

  // --------------------------------------------------------------------- sign bodies

  predicate Alphanumeric(b: Byte) {
    48 <= b <= 57 || 65 <= b <= 90 || 97 <= b <= 122
  }

  predicate NameByte(b: Byte) {
    Alphanumeric(b) || b == DOT || b == 95 || b == DASH
  }

  /** `validate_key_name`. */
  predicate ValidKeyName(name: ByteString) {
    && name != [] && Alphanumeric(name[0])
    && forall i :: 1 <= i < |name| ==> NameByte(name[i])
  }

  datatype SignBody = SignBody(keyName: ByteString, publicKey: ByteString, endpoint: ByteString,
                               fingerprint: ByteString)

  predicate ValidSignBody(b: SignBody) {
    && 1 <= |b.keyName| <= MAX_KEY_NAME_LEN && ValidKeyName(b.keyName)
    && |b.publicKey| == PUBLIC_KEY_LEN
    && |b.endpoint| == ID_LEN && b.endpoint != ZERO16
    && |b.fingerprint| < 0x1_0000_0000
  }

  function EncodeSignBody(b: SignBody): (r: ByteString)
    requires |b.keyName| < 0x1_0000 && |b.fingerprint| < 0x1_0000_0000
  {
    U16(|b.keyName|) + b.keyName + b.publicKey + b.endpoint + U32(|b.fingerprint|) + b.fingerprint
  }

  /** `parse_sign_body`, checks in order. */
  function ParseSignBody(s: ByteString): (r: Result<SignBody, Status>) {
    if |s| < 2 then Failure(Malformed)
    else
      var n := FromU16(s[0..2]);
      if n < 1 || n > MAX_KEY_NAME_LEN then Failure(Malformed)
      else if |s| < 2 + n || !ValidKeyName(s[2..2 + n]) then Failure(Malformed)
      else if |s| < 34 + n then Failure(Malformed)
      else if |s| < 50 + n then Failure(Malformed)
      else if s[34 + n..50 + n] == ZERO16 then Failure(KeyMismatch)
      else if |s| < 54 + n then Failure(Malformed)
      else if 54 + n + FromU32(s[50 + n..54 + n]) != |s| then Failure(Malformed)
      else Success(SignBody(s[2..2 + n], s[2 + n..34 + n], s[34 + n..50 + n], s[54 + n..]))
  }

  lemma SignBodyParts(b: SignBody)
    requires |b.keyName| < 0x1_0000 && |b.fingerprint| < 0x1_0000_0000
    requires |b.publicKey| == PUBLIC_KEY_LEN && |b.endpoint| == ID_LEN
    ensures var s, n := EncodeSignBody(b), |b.keyName|;
            && |s| == 54 + n + |b.fingerprint|
            && s[0..2] == U16(n) && s[2..2 + n] == b.keyName && s[2 + n..34 + n] == b.publicKey
            && s[34 + n..50 + n] == b.endpoint && s[50 + n..54 + n] == U32(|b.fingerprint|)
            && s[54 + n..] == b.fingerprint
  {
    hide U16, U32;
  }

  lemma PartsMakeSignBody(s: ByteString, n: nat)
    requires |s| >= 54 + n && FromU16(s[0..2]) == n && 54 + n + FromU32(s[50 + n..54 + n]) == |s|
    ensures s == EncodeSignBody(SignBody(s[2..2 + n], s[2 + n..34 + n], s[34 + n..50 + n], s[54 + n..]))
  {
    hide U16, U32, FromU16, FromU32;
    U16Unique(s[0..2]);
    U32Unique(s[50 + n..54 + n]);
    assert s == s[0..2] + s[2..2 + n] + s[2 + n..34 + n] + s[34 + n..50 + n] + s[50 + n..54 + n] + s[54 + n..];
  }

  /** A body is accepted as `b` exactly when it is the encoding of a valid `b`: encoding and
      parsing returns the same tuple, and an accepted body is the only encoding of its result. */
  lemma SignBodyIff(s: ByteString, b: SignBody)
    ensures ParseSignBody(s) == Success(b) <==> ValidSignBody(b) && s == EncodeSignBody(b)
  {
    hide U16, U32, FromU16, FromU32, EncodeSignBody, ValidKeyName;
    if ParseSignBody(s) == Success(b) {
      PartsMakeSignBody(s, FromU16(s[0..2]));
    }
    if ValidSignBody(b) && s == EncodeSignBody(b) {
      SignBodyParts(b);
      U16RoundTrip(|b.keyName|);
      U32RoundTrip(|b.fingerprint|);
    }
  }

  /** No proper prefix and no proper extension of an accepted body is accepted. */
  lemma SignBodyPrefixFree(s: ByteString, t: ByteString)
    requires ParseSignBody(s).Success? && ParseSignBody(t).Success? && s <= t
    ensures s == t
  {
    hide FromU16, FromU32, ValidKeyName;
    var n := FromU16(s[0..2]);
    assert s[0..2] == t[0..2];
    assert s[50 + n..54 + n] == t[50 + n..54 + n];
  }

  /** The endpoint is the only part whose value earns a different refusal: a body is turned
      down as a mismatch exactly when it carries a valid name and key and a zero endpoint. */
  lemma ZeroEndpointIff(s: ByteString)
    ensures ParseSignBody(s) == Failure(KeyMismatch) <==>
              && |s| >= 2 && 1 <= FromU16(s[0..2]) <= MAX_KEY_NAME_LEN && |s| >= 50 + FromU16(s[0..2])
              && ValidKeyName(s[2..2 + FromU16(s[0..2])])
              && s[34 + FromU16(s[0..2])..50 + FromU16(s[0..2])] == ZERO16
    ensures ParseSignBody(s).Failure? ==> ParseSignBody(s).error in {Malformed, KeyMismatch}
  {
    hide FromU16, FromU32, ValidKeyName;
  }

  /** The bodies the client can ask for: a valid tuple with a fingerprint within its bound. */
  predicate ClientBody(b: SignBody) {
    ValidSignBody(b) && 1 <= |b.fingerprint| <= MAX_CLIENT_FINGERPRINT
  }

  ghost predicate BoundSuffices(bound: nat) {
    forall b: SignBody | ClientBody(b) :: |EncodeSignBody(b)| <= bound
  }

  /** The header's bound is exactly what the largest client body needs. */
  lemma {:induction false} SignBoundIsLeast(bound: nat)
    ensures BoundSuffices(bound) <==> bound >= MAX_SIGN_REQUEST_BODY
  {
    hide EncodeSignBody, ValidKeyName;
    forall b: SignBody | ClientBody(b)
      ensures |EncodeSignBody(b)| <= MAX_SIGN_REQUEST_BODY
    {
      SignBodyParts(b);
    }
    var widest := WidestBody();
    SignBodyParts(widest);
    assert |EncodeSignBody(widest)| == MAX_SIGN_REQUEST_BODY;
  }

  function WidestBody(): (b: SignBody)
    ensures ClientBody(b) && |b.keyName| == MAX_KEY_NAME_LEN && |b.fingerprint| == MAX_CLIENT_FINGERPRINT
  {
    var endpoint: ByteString := seq(ID_LEN, _ => 1);
    assert endpoint[0] != ZERO16[0];
    SignBody(seq(MAX_KEY_NAME_LEN, _ => 97), seq(PUBLIC_KEY_LEN, _ => 0), endpoint, seq(MAX_CLIENT_FINGERPRINT, _ => 0))
  }

  // ------------------------------------------------------------------------ responses

  /** `u16::try_from(..).unwrap_or(0)` and `u32::try_from(..).unwrap_or(0)`. */
  function LengthOrZero(n: nat, limit: nat): (r: nat)
    requires limit > 0
    ensures r < limit
    ensures r == n <==> n < limit
  {
    if n < limit then n else 0
  }

  function PushKeyName(name: ByteString): (r: ByteString) {
    U16(LengthOrZero(|name|, 0x1_0000)) + name
  }

  function DescribeBody(key: Identity, endpoint: ByteString): (r: ByteString) {
    PushKeyName(key.keyName) + [1] + key.publicKey + endpoint
  }

  function SignReplyBody(key: Identity, endpoint: ByteString, signature: ByteString): (r: ByteString) {
    PushKeyName(key.keyName) + key.publicKey + endpoint + signature
  }

  function EncodeResponse(context: Context, status: Status, body: ByteString): (r: ByteString) {
    FrameHeader(context.kind, StatusCode(status), LengthOrZero(|body|, 0x1_0000_0000), context.batchId,
                context.requestId) + body
  }

  /** What a frame says of itself. */
  predicate Truthful(frame: ByteString, context: Context, status: Status, body: ByteString) {
    && |frame| == HEADER_LEN + |body|
    && frame[6] == TypeCode(context.kind) && frame[7] == StatusCode(status)
    && frame[16..32] == context.batchId && frame[32..48] == context.requestId
    && FromU32(frame[12..16]) == |frame| - HEADER_LEN
    && frame[HEADER_LEN..] == body
  }

  /** A response frame tells the truth exactly when its body length fits the field. */
  lemma ResponseTruthfulIff(context: Context, status: Status, body: ByteString)
    requires |context.batchId| == ID_LEN && |context.requestId| == ID_LEN
    ensures Truthful(EncodeResponse(context, status, body), context, status, body) <==> |body| < 0x1_0000_0000
  {
    hide FrameHeader, U32, FromU32, TypeCode, StatusCode;
    var len := LengthOrZero(|body|, 0x1_0000_0000);
    FrameHeaderParts(context.kind, StatusCode(status), len, context.batchId, context.requestId);
    var head := FrameHeader(context.kind, StatusCode(status), len, context.batchId, context.requestId);
    var frame := EncodeResponse(context, status, body);
    assert frame == head + body;
    assert frame[12..16] == head[12..16] && frame[16..32] == head[16..32] && frame[32..48] == head[32..48];
    U32RoundTrip(len);
  }

  /** The numbers on the wire: byte 6 of a frame is its type and byte 7 its status. */
  lemma StatusOnTheWire(context: Context, status: Status, body: ByteString)
    ensures var frame := EncodeResponse(context, status, body);
            && |frame| >= 8
            && (context.kind.DescribeResponse? ==> frame[6] == 0x81)
            && (context.kind.SignResponse? ==> frame[6] == 0x82)
            && (status.StatusOk? <==> frame[7] == 0) && (status.Malformed? <==> frame[7] == 1)
            && (status.UnsupportedVersion? <==> frame[7] == 2) && (status.Unauthorized? <==> frame[7] == 3)
            && (status.KeyMismatch? <==> frame[7] == 4) && (status.InvalidFingerprint? <==> frame[7] == 5)
            && (status.Unavailable? <==> frame[7] == 6) && (status.DeadlineExceeded? <==> frame[7] == 7)
            && (status.Internal? <==> frame[7] == 8) && (status.Overloaded? <==> frame[7] == 9)
  {
    hide U32;
  }

  /** `validate_key_identity`, given which public keys decode to a point. */
  predicate ValidIdentity(key: Identity, validKey: ByteString -> bool) {
    && key.backendVersion == 1
    && |key.keyName| <= MAX_KEY_NAME_LEN && ValidKeyName(key.keyName)
    && |key.publicKey| == PUBLIC_KEY_LEN && validKey(key.publicKey)
  }

  /** The name as the length field of a reply body announces it. */
  function AnnouncedName(body: ByteString): (r: Option<ByteString>) {
    if |body| < 2 || |body| < 2 + FromU16(body[0..2]) then None else Some(body[2..2 + FromU16(body[0..2])])
  }

  lemma {:induction false} NameAnnounced(name: ByteString, rest: ByteString)
    requires |name| < 0x1_0000
    ensures AnnouncedName(PushKeyName(name) + rest) == Some(name)
    ensures (PushKeyName(name) + rest)[2 + |name|..] == rest
  {
    hide U16, FromU16;
    var body := PushKeyName(name) + rest;
    assert body[0..2] == U16(|name|) && body[2..2 + |name|] == name;
    U16RoundTrip(|name|);
  }

  /** Reading a describe reply back yields the identity and endpoint it was made from. */
  function ReadDescribeBody(body: ByteString): (r: Option<(Identity, ByteString)>) {
    match AnnouncedName(body)
    case None => None
    case Some(name) =>
      var rest := body[2 + |name|..];
      if |rest| != 49 || rest[0] != 1 then None else Some((Identity(name, rest[1..33], 1), rest[33..]))
  }

  function ReadSignReplyBody(body: ByteString): (r: Option<(ByteString, ByteString, ByteString, ByteString)>) {
    match AnnouncedName(body)
    case None => None
    case Some(name) =>
      var rest := body[2 + |name|..];
      if |rest| != 112 then None else Some((name, rest[..32], rest[32..48], rest[48..]))
  }

  /** A validated identity is shown in full: the fallback length of zero is never used. */
  lemma {:induction false} DescribeRoundTrip(key: Identity, endpoint: ByteString, validKey: ByteString -> bool)
    requires ValidIdentity(key, validKey) && |endpoint| == ID_LEN
    ensures ReadDescribeBody(DescribeBody(key, endpoint)) == Some((key, endpoint))
    ensures |DescribeBody(key, endpoint)| == 51 + |key.keyName|
  {
    hide PushKeyName, AnnouncedName, ValidKeyName;
    var rest := [1] + key.publicKey + endpoint;
    assert DescribeBody(key, endpoint) == PushKeyName(key.keyName) + rest;
    NameAnnounced(key.keyName, rest);
    assert rest[1..33] == key.publicKey && rest[33..] == endpoint;
    PushedLength(key.keyName);
  }

  lemma PushedLength(name: ByteString)
    ensures |PushKeyName(name)| == 2 + |name|
  {
  }

  lemma {:induction false} SignReplyRoundTrip(key: Identity, endpoint: ByteString, signature: ByteString,
                                              validKey: ByteString -> bool)
    requires ValidIdentity(key, validKey) && |endpoint| == ID_LEN && |signature| == SIGNATURE_LEN
    ensures ReadSignReplyBody(SignReplyBody(key, endpoint, signature))
            == Some((key.keyName, key.publicKey, endpoint, signature))
    ensures |SignReplyBody(key, endpoint, signature)| == 114 + |key.keyName|
  {
    hide PushKeyName, AnnouncedName, ValidKeyName;
    var rest := key.publicKey + endpoint + signature;
    assert SignReplyBody(key, endpoint, signature) == PushKeyName(key.keyName) + rest;
    NameAnnounced(key.keyName, rest);
    assert rest[..32] == key.publicKey && rest[32..48] == endpoint && rest[48..] == signature;
    PushedLength(key.keyName);
  }

  // ---------------------------------------------------------------------- diagnostics

  /** `char::is_control`: the general category Cc. */
  predicate Control(c: char) {
    c as int <= 0x1F || 0x7F <= c as int <= 0x9F
  }

  function Stripped(s: string): (r: string)
    ensures forall i :: 0 <= i < |r| ==> !Control(r[i])
  {
    if s == [] then [] else (if Control(s[0]) then [] else [s[0]]) + Stripped(s[1..])
  }

  /** `t` is a prefix of `s` that fits, and no longer prefix does. */
  predicate LongestFitting(t: string, s: string) {
    && t <= s && |Utf8(t)| <= MAX_DIAGNOSTIC_LEN
    && forall n | |t| < n <= |s| :: |Utf8(s[..n])| > MAX_DIAGNOSTIC_LEN
  }

  lemma {:induction false} Utf8Monotone(s: string, m: nat, n: nat)
    requires m <= n <= |s|
    ensures |Utf8(s[..m])| <= |Utf8(s[..n])|
  {
    assert s[..n] == s[..m] + s[m..n];
    Utf8Append(s[..m], s[m..n]);
  }

  lemma LongestFittingUnique(t: string, u: string, s: string)
    requires LongestFitting(t, s) && LongestFitting(u, s)
    ensures t == u
  {
    hide Utf8;
    assert s[..|t|] == t && s[..|u|] == u;
  }

  lemma {:induction false} StoppedIsLongest(s: string, i: nat)
    requires i <= |s| && |Utf8(s[..i])| <= MAX_DIAGNOSTIC_LEN
    requires i < |s| ==> |Utf8(s[..i + 1])| > MAX_DIAGNOSTIC_LEN
    ensures LongestFitting(s[..i], s)
  {
    forall n | i < n <= |s|
      ensures |Utf8(s[..n])| > MAX_DIAGNOSTIC_LEN
    {
      Utf8Monotone(s, i + 1, n);
    }
  }

  /** The text of a diagnostic. */
  function DiagnosticText(s: string): (t: string)
    ensures LongestFitting(t, Stripped(s))
  {
    FittingPrefix(Stripped(s), 0)
  }

  function FittingPrefix(s: string, i: nat): (t: string)
    requires i <= |s| && |Utf8(s[..i])| <= MAX_DIAGNOSTIC_LEN
    ensures LongestFitting(t, s)
    decreases |s| - i
  {
    if i == |s| || |Utf8(s[..i + 1])| > MAX_DIAGNOSTIC_LEN then StoppedIsLongest(s, i); s[..i]
    else FittingPrefix(s, i + 1)
  }

  function DiagnosticBody(s: string): (r: ByteString) {
    var text := Utf8(DiagnosticText(s));
    U16(|text|) + text
  }

  lemma {:induction false} StrippedTail(s: string, i: nat)
    requires i < |s|
    ensures Stripped(s[..i + 1]) == Stripped(s[..i]) + if Control(s[i]) then [] else [s[i]]
    decreases i
  {
    if i > 0 {
      StrippedTail(s[1..], i - 1);
      assert s[..i + 1][1..] == s[1..][..i] && s[..i][1..] == s[1..][..i - 1];
    } else {
      assert s[..1][1..] == "" && s[..0] == "";
      assert Stripped("") == "";
    }
  }

  lemma {:induction false} StrippedPrefix(s: string, i: nat)
    requires i <= |s|
    ensures Stripped(s[..i]) <= Stripped(s)
    decreases |s| - i
  {
    if i == |s| {
      assert s[..i] == s;
    } else {
      StrippedTail(s, i);
      StrippedPrefix(s, i + 1);
    }
  }

  /** The character at `i` does not fit behind those before it. */
  lemma {:induction false} FullBefore(s: string, i: nat)
    requires i < |s| && !Control(s[i]) && |Utf8(Stripped(s[..i]))| <= MAX_DIAGNOSTIC_LEN
    requires |Utf8(Stripped(s[..i]))| + |Utf8Char(s[i])| > MAX_DIAGNOSTIC_LEN
    ensures LongestFitting(Stripped(s[..i]), Stripped(s))
  {
    hide Stripped, Utf8, Utf8Char, LongestFitting;
    var text, all := Stripped(s[..i]), Stripped(s);
    StrippedTail(s, i);
    StrippedPrefix(s, i + 1);
    StrippedPrefix(s, i);
    Utf8Snoc(text, s[i]);
    assert all[..|text|] == text && all[..|text| + 1] == text + [s[i]];
    StoppedIsLongest(all, |text|);
  }

  lemma NothingLeft(s: string)
    requires |Utf8(Stripped(s))| <= MAX_DIAGNOSTIC_LEN
    ensures LongestFitting(Stripped(s), Stripped(s))
  {
  }

  /** `encode_diagnostic`: characters are taken while they fit. */
  method EncodeDiagnostic(s: string) returns (body: ByteString)
    ensures body == DiagnosticBody(s)
  {
    hide Stripped, Utf8, Utf8Char, LongestFitting, DiagnosticText, U16;
    var text: string := "";
    var bytes: ByteString := [];
    var i := 0;
    NoText();
    assert s[..0] == "";
    while i < |s|
      invariant 0 <= i <= |s|
      invariant text == Stripped(s[..i]) && bytes == Utf8(text) && |bytes| <= MAX_DIAGNOSTIC_LEN
    {
      StrippedTail(s, i);
      if !Control(s[i]) {
        if |bytes| + |Utf8Char(s[i])| > MAX_DIAGNOSTIC_LEN {
          FullBefore(s, i);
          break;
        }
        Utf8Snoc(text, s[i]);
        text := text + [s[i]];
        bytes := bytes + Utf8Char(s[i]);
      }
      i := i + 1;
    }
    if i == |s| {
      assert s[..i] == s;
      NothingLeft(s);
    }
    LongestFittingUnique(text, DiagnosticText(s), Stripped(s));
    body := U16(|bytes|) + bytes;
  }

  lemma NoText()
    ensures Stripped("") == "" && Utf8("") == []
  {
  }

  /** A diagnostic body is a truthful length and well-formed UTF-8 without control characters. */
  lemma DiagnosticWellFormed(s: string)
    ensures var body := DiagnosticBody(s);
            && 2 <= |body| <= 2 + MAX_DIAGNOSTIC_LEN
            && AnnouncedName(body) == Some(body[2..])
            && IsUtf8(body[2..])
  {
    hide U16, FromU16, IsUtf8, DiagnosticText;
    var text := Utf8(DiagnosticText(s));
    var body := DiagnosticBody(s);
    assert body[0..2] == U16(|text|) && body[2..] == text && body[2..2 + |text|] == text;
    U16RoundTrip(|text|);
    Utf8IsUtf8(DiagnosticText(s));
  }
}
