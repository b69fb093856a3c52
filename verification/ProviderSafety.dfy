/** What every schedule of the provider keeps. */
module ProviderSafety {
  import opened Bytes
  import opened Sequences
  import opened Fingerprint
  import opened Signatures
  import opened NxsgCodec
  import opened Provider

  // --------------------------------------------------------------- requests and replies

  predicate FromRequest(input: Received, header: RequestHeader) {
    ReadRequest(input).Success? && ReadRequest(input).value.0 == header
  }

  predicate FromSignRequest(input: Received, header: RequestHeader, body: SignBody) {
    && FromRequest(input, header) && header.kind.SignRequest?
    && ParseSignBody(ReadRequest(input).value.1) == Success(body)
  }

  predicate Echoes(input: Received, context: Context) {
    && |input.bytes| >= HEADER_LEN
    && TypeCode(context.kind) as int == input.bytes[6] as int + 0x80
    && context.batchId == input.bytes[16..32] && context.requestId == input.bytes[32..48]
  }

  /** An OK reply to `input` speaks for the pinned key, and a signature in it verifies over
      the canonical fingerprint that was asked for. */
  predicate SpeaksFor(cfg: Config, key: Identity, input: Received, reply: ByteString) {
    && ReadRequest(input).Success?
    && var (header, body) := ReadRequest(input).value;
       if header.kind.DescribeRequest? then ReadDescribeBody(reply) == Some((key, cfg.endpoint))
       else
         && ParseSignBody(body).Success? && Addressed(cfg, ParseSignBody(body).value, key)
         && IsPathInfoV1(ParseSignBody(body).value.fingerprint)
         && ReadSignReplyBody(reply).Some?
         && var (name, publicKey, endpoint, signature) := ReadSignReplyBody(reply).value;
            && name == key.keyName && publicKey == key.publicKey && endpoint == cfg.endpoint
            && cfg.crypto.verify(key.publicKey, ParseSignBody(body).value.fingerprint, signature)
  }

  predicate SignAsked(input: Received) {
    ReadRequest(input).Success? && ReadRequest(input).value.0.kind.SignRequest?
  }

  predicate RefusedAs(input: Received, status: Status) {
    ReadRequest(input).Failure? && ReadRequest(input).error.Respond? && ReadRequest(input).error.status == status
  }

  /** What a refusal of each status says about the request it answers, given the pin at the
      moment it was decided. */
  predicate Explained(cfg: Config, pinned: Option<Identity>, input: Received, status: Status) {
    match status
    case StatusOk => true
    case UnsupportedVersion => RefusedAs(input, UnsupportedVersion)
    case Malformed =>
      || RefusedAs(input, Malformed)
      || (SignAsked(input) && ParseSignBody(ReadRequest(input).value.1) == Failure(Malformed))
    case KeyMismatch =>
      && SignAsked(input)
      && var parsed := ParseSignBody(ReadRequest(input).value.1);
         || parsed == Failure(KeyMismatch)
         || (parsed.Success? && (pinned.None? || !Addressed(cfg, parsed.value, pinned.value)))
    case InvalidFingerprint =>
      && SignAsked(input) && ParseSignBody(ReadRequest(input).value.1).Success? && pinned.Some?
      && var body := ParseSignBody(ReadRequest(input).value.1).value;
         Addressed(cfg, body, pinned.value) && !IsPathInfoV1(body.fingerprint)
    case _ => ReadRequest(input).Success?
  }

  predicate ReplyOk(cfg: Config, pin: Option<Identity>, input: Received, context: Context, status: Status,
                    reply: ByteString, pinned: Option<Identity>)
  {
    && Echoes(input, context) && |reply| < 0x1_0000_0000 && Explained(cfg, pinned, input, status)
    && (pinned.Some? ==> pin == pinned)
    && (status == StatusOk ==> pinned.Some? && SpeaksFor(cfg, pinned.value, input, reply))
  }

  predicate PinOk(cfg: Config, pin: Option<Identity>) {
    pin.Some? ==> ValidIdentity(pin.value, cfg.validKey)
  }

  predicate PhaseOk(cfg: Config, pin: Option<Identity>, input: Received, phase: Phase) {
    match phase
    case Reading => true
    case DescribeCalling(h) => FromRequest(input, h) && h.kind.DescribeRequest?
    case DescribeHaveKey(h, key) => FromRequest(input, h) && h.kind.DescribeRequest? && ValidIdentity(key, cfg.validKey)
    case DescribeLocked(h, key) => FromRequest(input, h) && h.kind.DescribeRequest? && ValidIdentity(key, cfg.validKey)
    case DescribeStoring(h, key) => FromRequest(input, h) && h.kind.DescribeRequest? && ValidIdentity(key, cfg.validKey)
    case SignParsed(h, body) => FromSignRequest(input, h, body)
    case SignHavePin(h, body, key) => FromSignRequest(input, h, body) && pin == Some(key)
    case SignCalling(h, body, key) =>
      FromSignRequest(input, h, body) && pin == Some(key) && Addressed(cfg, body, key) && IsPathInfoV1(body.fingerprint)
    case Replying(context, status, reply, pinned) => ReplyOk(cfg, pin, input, context, status, reply, pinned)
    case Done => true
  }

  predicate RoleOk(c: Conn) {
    match c.role
    case Handler => true
    case OverloadResponder => c.phase.Reading? || c.phase.Replying? || c.phase.Done?
    case Discarded => c.phase.Done?
  }

  predicate ConnOk(cfg: Config, pin: Option<Identity>, c: Conn) {
    RoleOk(c) && PhaseOk(cfg, pin, c.input, c.phase)
  }

  /** An RPC was issued for a request that a handler had read in full; a Sign RPC only for the
      pinned key, this endpoint and a canonical fingerprint. */
  predicate RpcOk(cfg: Config, pin: Option<Identity>, conns: seq<Conn>, rpc: Rpc) {
    && rpc.conn < |conns| && conns[rpc.conn].role.Handler? && !conns[rpc.conn].phase.Reading?
    && var input := conns[rpc.conn].input;
       && ReadRequest(input).Success?
       && var (header, body) := ReadRequest(input).value;
          && rpc.batchId == header.batchId && rpc.requestId == header.requestId
          && match rpc
             case DescribeCall(_, _, _) => header.kind.DescribeRequest?
             case SignCall(_, _, _, fingerprint) =>
               && pin.Some? && header.kind.SignRequest?
               && ParseSignBody(body).Success? && Addressed(cfg, ParseSignBody(body).value, pin.value)
               && fingerprint == ParseSignBody(body).value.fingerprint && IsPathInfoV1(fingerprint)
  }

  predicate SentOk(cfg: Config, pin: Option<Identity>, conns: seq<Conn>, sent: Sent) {
    && sent.conn < |conns| && conns[sent.conn].phase.Done?
    && Truthful(sent.frame, sent.context, sent.status, sent.body)
    && ReplyOk(cfg, pin, conns[sent.conn].input, sent.context, sent.status, sent.body, sent.pinned)
  }

  predicate AllConns(cfg: Config, pin: Option<Identity>, conns: seq<Conn>) {
    forall i :: 0 <= i < |conns| ==> ConnOk(cfg, pin, conns[i])
  }

  predicate AllRpcs(cfg: Config, pin: Option<Identity>, conns: seq<Conn>, rpcs: seq<Rpc>) {
    forall k :: 0 <= k < |rpcs| ==> RpcOk(cfg, pin, conns, rpcs[k])
  }

  predicate AllSent(cfg: Config, pin: Option<Identity>, conns: seq<Conn>, sent: seq<Sent>) {
    forall k :: 0 <= k < |sent| ==> SentOk(cfg, pin, conns, sent[k])
  }

  /** At most one frame per connection. */
  predicate OncePerConn(sent: seq<Sent>) {
    forall j, k :: 0 <= j < k < |sent| ==> sent[j].conn != sent[k].conn
  }

  predicate Good(cfg: Config, pin: Option<Identity>, conns: seq<Conn>, rpcs: seq<Rpc>, sent: seq<Sent>) {
    && PinOk(cfg, pin) && AllConns(cfg, pin, conns) && AllRpcs(cfg, pin, conns, rpcs)
    && AllSent(cfg, pin, conns, sent) && OncePerConn(sent)
  }

  // ------------------------------------------------------------- one connection moves on

  lemma {:induction false} ConnMoves(cfg: Config, pin: Option<Identity>, conns: seq<Conn>, rpcs: seq<Rpc>,
                                     sent: seq<Sent>, i: nat, c: Conn)
    requires Good(cfg, pin, conns, rpcs, sent) && i < |conns| && ConnOk(cfg, pin, c)
    requires c.role == conns[i].role && (c.input == conns[i].input || conns[i].phase.Reading?)
    requires !c.phase.Reading? && !conns[i].phase.Done?
    ensures Good(cfg, pin, conns[i := c], rpcs, sent)
  {
    hide ConnOk, ReplyOk, ReadRequest, ParseSignBody, Addressed, IsPathInfoV1, Truthful, ValidIdentity;
  }

  lemma {:induction false} ConnArrives(cfg: Config, pin: Option<Identity>, conns: seq<Conn>, rpcs: seq<Rpc>,
                                       sent: seq<Sent>, c: Conn)
    requires Good(cfg, pin, conns, rpcs, sent) && ConnOk(cfg, pin, c)
    ensures Good(cfg, pin, conns + [c], rpcs, sent)
  {
    hide ConnOk, ReplyOk, ReadRequest, ParseSignBody, Addressed, IsPathInfoV1, Truthful, ValidIdentity;
  }

  /** Pinning a key spoils nothing that held without one. */
  lemma {:induction false} PinArrives(cfg: Config, conns: seq<Conn>, rpcs: seq<Rpc>, sent: seq<Sent>, key: Identity)
    requires Good(cfg, None, conns, rpcs, sent) && ValidIdentity(key, cfg.validKey)
    ensures Good(cfg, Some(key), conns, rpcs, sent)
  {
    hide ReadRequest, ParseSignBody, Addressed, IsPathInfoV1, Truthful, ValidIdentity, RoleOk, FromRequest,
         FromSignRequest, Echoes;
    assert AllConns(cfg, None, conns);
    forall i | 0 <= i < |conns|
      ensures ConnOk(cfg, Some(key), conns[i])
    {
      assert ConnOk(cfg, None, conns[i]);
    }
  }

  // -------------------------------------------------------------------------- the steps

  lemma DiagnosticReply(cfg: Config, pin: Option<Identity>, input: Received, status: Status, diagnostic: string,
                        context: Context)
    requires Echoes(input, context) && status != StatusOk && Explained(cfg, pin, input, status)
    ensures PhaseOk(cfg, pin, input, Refuse(pin, status, diagnostic, context))
  {
    hide DiagnosticBody, Echoes, Explained;
    DiagnosticWellFormed(diagnostic);
  }

  lemma HeaderEchoes(input: Received, header: RequestHeader)
    requires FromRequest(input, header)
    ensures Echoes(input, ContextOf(header)) && ValidHeader(header) && ReadRequest(input).Success?
  {
    hide ParseHeader;
    var s := input.bytes[..HEADER_LEN];
    AcceptedHeaderFields(s);
    assert s[16..32] == input.bytes[16..32] && s[32..48] == input.bytes[32..48];
  }

  lemma RefusalEchoes(input: Received)
    requires ReadRequest(input).Failure? && ReadRequest(input).error.Respond?
    ensures Echoes(input, ReadRequest(input).error.context)
            && ReadRequest(input).error.status in {UnsupportedVersion, Malformed}
  {
    hide ReadRequest;
    RequestRefusalEchoes(input);
  }

  lemma DispatchOk(cfg: Config, pin: Option<Identity>, input: Received)
    requires ReadRequest(input).Success?
    ensures PhaseOk(cfg, pin, input, Dispatch(pin, ReadRequest(input).value.0, ReadRequest(input).value.1))
  {
    hide ReadRequest, ParseSignBody, Echoes, DiagnosticBody, ValidHeader;
    var (header, body) := ReadRequest(input).value;
    HeaderEchoes(input, header);
    if header.kind.SignRequest? && ParseSignBody(body).Failure? {
      BadBodyStatus(body);
      DiagnosticReply(cfg, pin, input, ParseSignBody(body).error, StatusDiagnostic(ParseSignBody(body).error),
                      ContextOf(header));
    }
  }

  lemma BadBodyStatus(body: ByteString)
    requires ParseSignBody(body).Failure?
    ensures ParseSignBody(body).error in {Malformed, KeyMismatch}
  {
    hide ValidKeyName, FromU16, FromU32;
  }

  lemma {:induction false} ReceiveGood(cfg: Config, st: State, i: nat, input: Received)
    requires Good(cfg, st.pin, st.conns, st.rpcs, st.sent) && Enabled(st, Receive(i, input))
    ensures var st' := ApplyReceive(st, i, input); Good(cfg, st'.pin, st'.conns, st'.rpcs, st'.sent)
  {
    hide ReadRequest, Good, PhaseOk, Refuse, Dispatch, ContextOf, ValidHeader, Echoes;
    var st', was := ApplyReceive(st, i, input), st.conns[i];
    KnownConn(cfg, st.pin, st.conns, st.rpcs, st.sent, i);
    var phase: Phase;
    match ReadRequest(input) {
      case Failure(CloseSilently) => phase := Done; DonePhase(cfg, st.pin, input);
      case Failure(Respond(status, diagnostic, context)) =>
        phase := Refuse(st.pin, status, diagnostic, context);
        RefusalEchoes(input);
        DiagnosticReply(cfg, st.pin, input, status, diagnostic, context);
      case Success((header, body)) =>
        if was.role.OverloadResponder? {
          phase := Refuse(st.pin, Overloaded, "connection limit is full", ContextOf(header));
          HeaderEchoes(input, header);
          DiagnosticReply(cfg, st.pin, input, Overloaded, "connection limit is full", ContextOf(header));
        } else {
          phase := Dispatch(st.pin, header, body);
          DispatchOk(cfg, st.pin, input);
        }
    }
    var c := Conn(was.role, input, phase);
    assert st'.conns == st.conns[i := c];
    ConnMoves(cfg, st.pin, st.conns, st.rpcs, st.sent, i, c);
    if st'.rpcs != st.rpcs {
      DescribeIssued(cfg, st.pin, st'.conns, st.rpcs, st.sent, i, input);
    }
  }

  lemma KnownConn(cfg: Config, pin: Option<Identity>, conns: seq<Conn>, rpcs: seq<Rpc>, sent: seq<Sent>, i: nat)
    requires Good(cfg, pin, conns, rpcs, sent) && i < |conns|
    ensures ConnOk(cfg, pin, conns[i]) && PinOk(cfg, pin)
  {
    hide ConnOk, PinOk, RpcOk, SentOk;
  }

  lemma DonePhase(cfg: Config, pin: Option<Identity>, input: Received)
    ensures PhaseOk(cfg, pin, input, Done)
  {
  }

  lemma {:induction false} DescribeIssued(cfg: Config, pin: Option<Identity>, conns: seq<Conn>, rpcs: seq<Rpc>,
                                          sent: seq<Sent>, i: nat, input: Received)
    requires Good(cfg, pin, conns, rpcs, sent) && i < |conns| && conns[i].role.Handler? && !conns[i].phase.Reading?
    requires conns[i].input == input && ReadRequest(input).Success? && ReadRequest(input).value.0.kind.DescribeRequest?
    ensures var header := ReadRequest(input).value.0;
            Good(cfg, pin, conns, rpcs + [DescribeCall(i, header.batchId, header.requestId)], sent)
  {
    hide ReadRequest, ConnOk, SentOk, PinOk, ParseSignBody, Addressed, IsPathInfoV1;
  }

  lemma {:induction false} DescribeReturnsGood(cfg: Config, st: State, i: nat, described: Result<Identity, RpcError>)
    requires Good(cfg, st.pin, st.conns, st.rpcs, st.sent) && Enabled(st, DescribeReturns(i, described))
    ensures var st' := ApplyDescribeReturns(cfg, st, i, described); Good(cfg, st'.pin, st'.conns, st'.rpcs, st'.sent)
  {
    hide Good, Refuse, FromRequest, ReadRequest, ContextOf, ReplyOk, Echoes, ValidHeader, ValidIdentity,
         StatusDiagnostic;
    KnownConn(cfg, st.pin, st.conns, st.rpcs, st.sent, i);
    var c := st.conns[i];
    var context := ContextOf(c.phase.header);
    HeaderEchoes(c.input, c.phase.header);
    DiagnosticReply(cfg, st.pin, c.input, Internal, "invalid Basil key identity", context);
    if described.Failure? {
      var s := RpcStatus(described.error);
      DiagnosticReply(cfg, st.pin, c.input, s, StatusDiagnostic(s), context);
    }
    ConnMoves(cfg, st.pin, st.conns, st.rpcs, st.sent, i, ApplyDescribeReturns(cfg, st, i, described).conns[i]);
  }

  lemma DescribeReplyOk(cfg: Config, key: Identity, input: Received, header: RequestHeader)
    requires ValidConfig(cfg) && ValidIdentity(key, cfg.validKey) && FromRequest(input, header)
             && header.kind.DescribeRequest?
    ensures PhaseOk(cfg, Some(key), input,
                    Replying(ContextOf(header), StatusOk, DescribeBody(key, cfg.endpoint), Some(key)))
  {
    hide ReadRequest, DescribeBody, ReadDescribeBody, Echoes, ValidHeader;
    DescribeRoundTrip(key, cfg.endpoint, cfg.validKey);
    HeaderEchoes(input, header);
  }

  lemma {:induction false} ComparePinGood(cfg: Config, st: State, i: nat)
    requires ValidConfig(cfg) && Good(cfg, st.pin, st.conns, st.rpcs, st.sent) && Enabled(st, ComparePin(i))
    ensures var st' := ApplyComparePin(cfg, st, i); Good(cfg, st'.pin, st'.conns, st'.rpcs, st'.sent)
  {
    hide Good, Refuse, FromRequest, ReadRequest, ContextOf, ReplyOk, Echoes, ValidHeader, ValidIdentity, DescribeBody;
    KnownConn(cfg, st.pin, st.conns, st.rpcs, st.sent, i);
    var c := st.conns[i];
    HeaderEchoes(c.input, c.phase.header);
    DescribeReplyOk(cfg, c.phase.key, c.input, c.phase.header);
    DiagnosticReply(cfg, st.pin, c.input, Unavailable, "configured key identity changed", ContextOf(c.phase.header));
    ConnMoves(cfg, st.pin, st.conns, st.rpcs, st.sent, i, ApplyComparePin(cfg, st, i).conns[i]);
  }

  lemma {:induction false} StorePinGood(cfg: Config, st: State, i: nat)
    requires ValidConfig(cfg) && Good(cfg, st.pin, st.conns, st.rpcs, st.sent) && Enabled(st, StorePin(i))
             && st.pin.None?
    ensures var st' := ApplyStorePin(cfg, st, i); Good(cfg, st'.pin, st'.conns, st'.rpcs, st'.sent)
  {
    hide Good, FromRequest, ContextOf, ReplyOk, ValidIdentity, DescribeBody;
    KnownConn(cfg, st.pin, st.conns, st.rpcs, st.sent, i);
    var c := st.conns[i];
    PinArrives(cfg, st.conns, st.rpcs, st.sent, c.phase.key);
    DescribeReplyOk(cfg, c.phase.key, c.input, c.phase.header);
    ConnMoves(cfg, Some(c.phase.key), st.conns, st.rpcs, st.sent, i, ApplyStorePin(cfg, st, i).conns[i]);
  }

  lemma {:induction false} ReadPinGood(cfg: Config, st: State, i: nat)
    requires Good(cfg, st.pin, st.conns, st.rpcs, st.sent) && Enabled(st, ReadPin(i))
    ensures var st' := ApplyReadPin(st, i); Good(cfg, st'.pin, st'.conns, st'.rpcs, st'.sent)
  {
    hide Good, Refuse, ParseSignBody, ReadRequest, ContextOf, ReplyOk, Echoes, ValidHeader;
    KnownConn(cfg, st.pin, st.conns, st.rpcs, st.sent, i);
    var c := st.conns[i];
    HeaderEchoes(c.input, c.phase.header);
    if st.pin.None? {
      DiagnosticReply(cfg, st.pin, c.input, KeyMismatch, "key identity has not been described",
                      ContextOf(c.phase.header));
    }
    ConnMoves(cfg, st.pin, st.conns, st.rpcs, st.sent, i, ApplyReadPin(st, i).conns[i]);
  }

  lemma {:induction false} SignIssued(cfg: Config, pin: Option<Identity>, conns: seq<Conn>, rpcs: seq<Rpc>,
                                      sent: seq<Sent>, i: nat)
    requires Good(cfg, pin, conns, rpcs, sent) && i < |conns| && conns[i].phase.SignCalling?
    ensures var SignCalling(header, body, _) := conns[i].phase;
            Good(cfg, pin, conns, rpcs + [SignCall(i, header.batchId, header.requestId, body.fingerprint)], sent)
  {
    hide ReadRequest, SentOk, PinOk, ParseSignBody, Addressed, IsPathInfoV1, ReplyOk, ValidIdentity;
    assert ConnOk(cfg, pin, conns[i]);
  }

  lemma {:induction false} AdmittedOk(cfg: Config, st: State, i: nat)
    requires Enabled(st, AdmitSign(i)) && PhaseOk(cfg, st.pin, st.conns[i].input, st.conns[i].phase)
    ensures var c := ApplyAdmitSign(cfg, st, i).conns[i];
            c.input == st.conns[i].input && c.role == st.conns[i].role && PhaseOk(cfg, st.pin, c.input, c.phase)
            && (c.phase.Replying? || c.phase.SignCalling?)
  {
    hide Refuse, ParseSignBody, ReadRequest, ContextOf, ReplyOk, Echoes, ValidHeader, Addressed, IsPathInfoV1;
    var c := st.conns[i];
    var context := ContextOf(c.phase.header);
    HeaderEchoes(c.input, c.phase.header);
    if !Addressed(cfg, c.phase.body, c.phase.key) {
      DiagnosticReply(cfg, st.pin, c.input, KeyMismatch, "pinned key identity does not match", context);
    } else if !IsPathInfoV1(c.phase.body.fingerprint) {
      DiagnosticReply(cfg, st.pin, c.input, InvalidFingerprint, "fingerprint is not canonical PATH_INFO_V1", context);
    } else if st.freeSigns == 0 {
      DiagnosticReply(cfg, st.pin, c.input, Overloaded, "signer is overloaded", context);
    }
  }

  lemma {:induction false} AdmitSignGood(cfg: Config, st: State, i: nat)
    requires Good(cfg, st.pin, st.conns, st.rpcs, st.sent) && Enabled(st, AdmitSign(i))
    ensures var st' := ApplyAdmitSign(cfg, st, i); Good(cfg, st'.pin, st'.conns, st'.rpcs, st'.sent)
  {
    hide Good, Refuse, ContextOf, Addressed, IsPathInfoV1, PhaseOk;
    KnownConn(cfg, st.pin, st.conns, st.rpcs, st.sent, i);
    var st' := ApplyAdmitSign(cfg, st, i);
    AdmittedOk(cfg, st, i);
    ConnMoves(cfg, st.pin, st.conns, st.rpcs, st.sent, i, st'.conns[i]);
    if st'.rpcs != st.rpcs {
      SignIssued(cfg, st.pin, st'.conns, st.rpcs, st.sent, i);
    }
  }

  lemma SignedReplyOk(cfg: Config, key: Identity, input: Received, header: RequestHeader, body: SignBody,
                      signature: ByteString)
    requires ValidConfig(cfg) && ValidIdentity(key, cfg.validKey) && FromSignRequest(input, header, body)
    requires Addressed(cfg, body, key) && IsPathInfoV1(body.fingerprint)
    requires |signature| == SIGNATURE_LEN && cfg.crypto.verify(key.publicKey, body.fingerprint, signature)
    ensures PhaseOk(cfg, Some(key), input,
                    Replying(ContextOf(header), StatusOk, SignReplyBody(key, cfg.endpoint, signature), Some(key)))
  {
    hide ReadRequest, ParseSignBody, SignReplyBody, ReadSignReplyBody, Echoes, ValidHeader, IsPathInfoV1, Addressed;
    SignReplyRoundTrip(key, cfg.endpoint, signature, cfg.validKey);
    HeaderEchoes(input, header);
  }

  lemma {:induction false} SignReturnsGood(cfg: Config, st: State, i: nat,
                                           signed: Result<(Identity, ByteString), RpcError>)
    requires ValidConfig(cfg) && Good(cfg, st.pin, st.conns, st.rpcs, st.sent) && Enabled(st, SignReturns(i, signed))
    ensures var st' := ApplySignReturns(cfg, st, i, signed); Good(cfg, st'.pin, st'.conns, st'.rpcs, st'.sent)
  {
    hide Good, ParseSignBody, ReadRequest, ContextOf, ReplyOk, Addressed, IsPathInfoV1, SignOutcome, ValidIdentity;
    KnownConn(cfg, st.pin, st.conns, st.rpcs, st.sent, i);
    var c := st.conns[i];
    SignOutcomeOk(cfg, c.input, c.phase.header, c.phase.body, c.phase.key, signed);
    ConnMoves(cfg, st.pin, st.conns, st.rpcs, st.sent, i, ApplySignReturns(cfg, st, i, signed).conns[i]);
  }

  lemma SignOutcomeOk(cfg: Config, input: Received, header: RequestHeader, body: SignBody, key: Identity,
                      signed: Result<(Identity, ByteString), RpcError>)
    requires ValidConfig(cfg) && ValidIdentity(key, cfg.validKey) && FromSignRequest(input, header, body)
    requires Addressed(cfg, body, key) && IsPathInfoV1(body.fingerprint)
    ensures PhaseOk(cfg, Some(key), input, SignOutcome(cfg, Some(key), header, body, key, signed))
  {
    hide Refuse, ParseSignBody, ReadRequest, ContextOf, PhaseOk, Addressed, IsPathInfoV1, ValidIdentity, Echoes,
         ValidHeader, StatusDiagnostic, SignReplyBody;
    var context := ContextOf(header);
    HeaderEchoes(input, header);
    match signed
    case Failure(e) =>
      DiagnosticReply(cfg, Some(key), input, RpcStatus(e), StatusDiagnostic(RpcStatus(e)), context);
    case Success((signer, signature)) =>
      if signer != key {
        DiagnosticReply(cfg, Some(key), input, Internal, "Basil signing identity changed", context);
      } else if |signature| != SIGNATURE_LEN || !cfg.crypto.verify(key.publicKey, body.fingerprint, signature) {
        DiagnosticReply(cfg, Some(key), input, Internal, "Basil returned an invalid signature", context);
      } else {
        SignedReplyOk(cfg, key, input, header, body, signature);
      }
  }

  lemma {:induction false} FrameSent(cfg: Config, pin: Option<Identity>, conns: seq<Conn>, rpcs: seq<Rpc>,
                                     sent: seq<Sent>, next: Sent)
    requires Good(cfg, pin, conns, rpcs, sent) && SentOk(cfg, pin, conns, next)
    requires forall k :: 0 <= k < |sent| ==> sent[k].conn != next.conn
    ensures Good(cfg, pin, conns, rpcs, sent + [next])
  {
    hide ConnOk, RpcOk, SentOk, PinOk;
  }

  lemma {:induction false} NotYetSent(cfg: Config, pin: Option<Identity>, conns: seq<Conn>, rpcs: seq<Rpc>,
                                      sent: seq<Sent>, i: nat)
    requires Good(cfg, pin, conns, rpcs, sent) && i < |conns| && !conns[i].phase.Done?
    ensures forall k :: 0 <= k < |sent| ==> sent[k].conn != i
  {
    hide ConnOk, RpcOk, PinOk, Truthful, ReplyOk;
  }

  lemma {:induction false} WriteGood(cfg: Config, st: State, i: nat, complete: bool)
    requires Good(cfg, st.pin, st.conns, st.rpcs, st.sent) && Enabled(st, Write(i, complete))
    ensures var st' := ApplyWrite(st, i, complete); Good(cfg, st'.pin, st'.conns, st'.rpcs, st'.sent)
  {
    hide Good, Truthful, EncodeResponse, ReplyOk, Echoes;
    KnownConn(cfg, st.pin, st.conns, st.rpcs, st.sent, i);
    NotYetSent(cfg, st.pin, st.conns, st.rpcs, st.sent, i);
    var c, st' := st.conns[i], ApplyWrite(st, i, complete);
    ConnMoves(cfg, st.pin, st.conns, st.rpcs, st.sent, i, st'.conns[i]);
    if complete {
      ReplyTruthful(cfg, st.pin, c.input, c.phase.context, c.phase.status, c.phase.reply, c.phase.pinned);
      FrameSent(cfg, st.pin, st'.conns, st.rpcs, st.sent, st'.sent[|st.sent|]);
    }
  }

  lemma ReplyTruthful(cfg: Config, pin: Option<Identity>, input: Received, context: Context, status: Status,
                      reply: ByteString, pinned: Option<Identity>)
    requires ReplyOk(cfg, pin, input, context, status, reply, pinned)
    ensures Truthful(EncodeResponse(context, status, reply), context, status, reply)
  {
    hide SpeaksFor, EncodeResponse, Truthful;
    ResponseTruthfulIff(context, status, reply);
  }

  lemma {:induction false} CancelGood(cfg: Config, st: State, i: nat)
    requires Good(cfg, st.pin, st.conns, st.rpcs, st.sent) && i < |st.conns| && !st.conns[i].phase.Done?
    ensures var st' := ApplyCancel(st, i); Good(cfg, st'.pin, st'.conns, st'.rpcs, st'.sent)
  {
    hide Good, PhaseOk;
    KnownConn(cfg, st.pin, st.conns, st.rpcs, st.sent, i);
    DonePhase(cfg, st.pin, st.conns[i].input);
    ConnMoves(cfg, st.pin, st.conns, st.rpcs, st.sent, i, st.conns[i].(phase := Done));
  }
}
