/** The NXSG provider as interleaved steps of its connection tasks: the shared identity pin
    behind its lock, the three semaphores, the RPCs it issues and the frames it writes. */
module Provider {
  import opened Bytes
  import opened Sequences
  import opened Fingerprint
  import opened Signatures
  import opened NxsgCodec

  const MAX_CONNECTIONS: nat := 32
  const MAX_SIGNS: nat := 8
  const OVERLOAD_SLOTS: nat := 1

  /** What one listener is started with. */
  datatype Config = Config(endpoint: ByteString, crypto: Crypto, validKey: ByteString -> bool)

  predicate ValidConfig(cfg: Config) {
    |cfg.endpoint| == ID_LEN && cfg.endpoint != ZERO16
  }

  datatype Role = Handler | OverloadResponder | Discarded

  /** `pinned` is the pin at the moment the reply was decided. */
  datatype Phase =
    | Reading
    | DescribeCalling(header: RequestHeader)
    | DescribeHaveKey(header: RequestHeader, key: Identity)
    | DescribeLocked(header: RequestHeader, key: Identity)
    | DescribeStoring(header: RequestHeader, key: Identity)
    | SignParsed(header: RequestHeader, body: SignBody)
    | SignHavePin(header: RequestHeader, body: SignBody, key: Identity)
    | SignCalling(header: RequestHeader, body: SignBody, key: Identity)
    | Replying(context: Context, status: Status, reply: ByteString, pinned: Option<Identity>)
    | Done

  /** One accepted stream, and what came in on it. */
  datatype Conn = Conn(role: Role, input: Received, phase: Phase)

  const NOTHING: Received := Received([], false)

  datatype Rpc =
    | DescribeCall(conn: nat, batchId: ByteString, requestId: ByteString)
    | SignCall(conn: nat, batchId: ByteString, requestId: ByteString, fingerprint: ByteString)

  datatype Sent = Sent(
    conn: nat, context: Context, status: Status, body: ByteString, pinned: Option<Identity>, frame: ByteString)

  datatype State = State(
    pin: Option<Identity>, writer: Option<nat>, freeConnections: nat, freeSigns: nat, freeOverload: nat,
    conns: seq<Conn>, rpcs: seq<Rpc>, sent: seq<Sent>, stopping: bool)

  const INIT: State := State(None, None, MAX_CONNECTIONS, MAX_SIGNS, OVERLOAD_SLOTS, [], [], [], false)

  datatype RpcError = TimedOut | PermissionDenied | Unauthenticated | OtherStatus | ProtocolError | IoError
    | EndpointError | JsonError

  function RpcStatus(e: RpcError): (s: Status) {
    match e
    case TimedOut => DeadlineExceeded
    case PermissionDenied | Unauthenticated => Unauthorized
    case ProtocolError => Internal
    case _ => Unavailable
  }

  /** One step of one task, with whatever the peer, the backend and the clock decide. */
  datatype Action =
    | Accept
    | Receive(conn: nat, input: Received)
    | TurnAway(conn: nat)
    | DescribeReturns(conn: nat, described: Result<Identity, RpcError>)
    | LockPin(conn: nat)
    | ComparePin(conn: nat)
    | StorePin(conn: nat)
    | ReadPin(conn: nat)
    | AdmitSign(conn: nat)
    | SignReturns(conn: nat, signed: Result<(Identity, ByteString), RpcError>)
    | Write(conn: nat, complete: bool)
    | Cancel(conn: nat)
    | Shutdown

  // ------------------------------------------------------------------ what a step may move

  predicate HoldsLock(c: Conn) {
    c.phase.DescribeLocked? || c.phase.DescribeStoring?
  }

  predicate HoldsConnection(c: Conn) {
    c.role.Handler? && !c.phase.Done?
  }

  predicate HoldsOverload(c: Conn) {
    c.role.OverloadResponder? && !c.phase.Done?
  }

  predicate HoldsSign(c: Conn) {
    c.phase.SignCalling?
  }

  /** The counters move with what the task takes or gives back. */
  predicate PermitsMove(st: State, st': State, was: Conn, now: Conn) {
    && st'.freeConnections + One(HoldsConnection(now)) == st.freeConnections + One(HoldsConnection(was))
    && st'.freeOverload + One(HoldsOverload(now)) == st.freeOverload + One(HoldsOverload(was))
    && st'.freeSigns + One(HoldsSign(now)) == st.freeSigns + One(HoldsSign(was))
  }

  /** The lock changes hands only through its holder; the pin is written only by a task that
      found it empty. */
  predicate LockMoves(st: State, st': State, i: nat, was: Conn, now: Conn) {
    && (HoldsLock(was) == HoldsLock(now) ==> st'.writer == st.writer)
    && (!HoldsLock(was) && HoldsLock(now) ==> st.writer.None? && st'.writer == Some(i))
    && (HoldsLock(was) && !HoldsLock(now) ==> st'.writer == if st.writer == Some(i) then None else st.writer)
    && (now.phase.DescribeStoring? ==> st.pin.None?)
    && (st'.pin == st.pin || (was.phase.DescribeStoring? && !now.phase.DescribeStoring?))
  }

  /** A step of task `i` touches that task alone and only adds to the logs. */
  predicate TaskStep(st: State, st': State, i: nat) {
    && i < |st.conns| && |st'.conns| == |st.conns| && st'.conns == st.conns[i := st'.conns[i]]
    && st'.conns[i].role == st.conns[i].role
    && st.rpcs <= st'.rpcs && st.sent <= st'.sent && st'.stopping == st.stopping
    && PermitsMove(st, st', st.conns[i], st'.conns[i])
    && LockMoves(st, st', i, st.conns[i], st'.conns[i])
  }

  // --------------------------------------------------------------------------- building

  function Put(st: State, i: nat, phase: Phase): (r: State)
    requires i < |st.conns|
  {
    st.(conns := st.conns[i := st.conns[i].(phase := phase)])
  }

  function Refuse(pinned: Option<Identity>, status: Status, diagnostic: string, context: Context): (r: Phase)
    ensures r.Replying?
  {
    Replying(context, status, DiagnosticBody(diagnostic), pinned)
  }

  /** A finished task gives its admission permit back. */
  function Finish(st: State, i: nat): (r: State)
    requires i < |st.conns|
  {
    var done := Put(st, i, Done);
    match st.conns[i].role
    case Handler => done.(freeConnections := st.freeConnections + 1)
    case OverloadResponder => done.(freeOverload := st.freeOverload + 1)
    case Discarded => done
  }

  /** The write guard of task `i`, if it has one, is dropped. */
  function Unlock(st: State, i: nat): (r: State)
    requires i < |st.conns|
  {
    if HoldsLock(st.conns[i]) && st.writer == Some(i) then st.(writer := None) else st
  }

  // -------------------------------------------------------------------------- the steps

  function ApplyAccept(st: State): (r: State) {
    if st.freeConnections > 0 then
      st.(freeConnections := st.freeConnections - 1, conns := st.conns + [Conn(Handler, NOTHING, Reading)])
    else if st.freeOverload > 0 then
      st.(freeOverload := st.freeOverload - 1, conns := st.conns + [Conn(OverloadResponder, NOTHING, Reading)])
    else st.(conns := st.conns + [Conn(Discarded, NOTHING, Done)])
  }

  /** What a handler does with a complete request. */
  function Dispatch(pin: Option<Identity>, header: RequestHeader, body: ByteString): (r: Phase)
    ensures IsRequest(header.kind) ==> r.DescribeCalling? || r.SignParsed? || r.Replying?
    ensures r.DescribeCalling? || r.SignParsed? || r.Replying? || r.Done?
  {
    match header.kind
    case DescribeRequest => DescribeCalling(header)
    case SignRequest => (
      match ParseSignBody(body)
      case Failure(status) => Refuse(pin, status, StatusDiagnostic(status), ContextOf(header))
      case Success(request) => SignParsed(header, request))
    case _ => Done
  }

  function ApplyReceive(st: State, i: nat, input: Received): (r: State)
    requires i < |st.conns| && st.conns[i].phase.Reading?
  {
    var read := st.(conns := st.conns[i := st.conns[i].(input := input)]);
    match ReadRequest(input)
    case Failure(CloseSilently) => Finish(read, i)
    case Failure(Respond(status, diagnostic, context)) => Put(read, i, Refuse(st.pin, status, diagnostic, context))
    case Success((header, body)) =>
      if st.conns[i].role.OverloadResponder? then
        Put(read, i, Refuse(st.pin, Overloaded, "connection limit is full", ContextOf(header)))
      else
        var next := Put(read, i, Dispatch(st.pin, header, body));
        if header.kind.DescribeRequest?
        then next.(rpcs := st.rpcs + [DescribeCall(i, header.batchId, header.requestId)])
        else next
  }

  function ApplyDescribeReturns(cfg: Config, st: State, i: nat, described: Result<Identity, RpcError>): (r: State)
    requires i < |st.conns| && st.conns[i].phase.DescribeCalling?
  {
    var header := st.conns[i].phase.header;
    match described
    case Failure(e) => Put(st, i, Refuse(st.pin, RpcStatus(e), StatusDiagnostic(RpcStatus(e)), ContextOf(header)))
    case Success(key) =>
      if ValidIdentity(key, cfg.validKey) then Put(st, i, DescribeHaveKey(header, key))
      else Put(st, i, Refuse(st.pin, Internal, "invalid Basil key identity", ContextOf(header)))
  }

  function ApplyLockPin(st: State, i: nat): (r: State)
    requires i < |st.conns| && st.conns[i].phase.DescribeHaveKey? && st.writer.None?
  {
    Put(st, i, DescribeLocked(st.conns[i].phase.header, st.conns[i].phase.key)).(writer := Some(i))
  }

  function ApplyComparePin(cfg: Config, st: State, i: nat): (r: State)
    requires i < |st.conns| && st.conns[i].phase.DescribeLocked?
  {
    var DescribeLocked(header, key) := st.conns[i].phase;
    match st.pin
    case None => Put(st, i, DescribeStoring(header, key))
    case Some(expected) =>
      if expected == key
      then Put(Unlock(st, i), i, Replying(ContextOf(header), StatusOk, DescribeBody(key, cfg.endpoint), Some(key)))
      else Put(Unlock(st, i), i, Refuse(st.pin, Unavailable, "configured key identity changed", ContextOf(header)))
  }

  function ApplyStorePin(cfg: Config, st: State, i: nat): (r: State)
    requires i < |st.conns| && st.conns[i].phase.DescribeStoring?
  {
    var DescribeStoring(header, key) := st.conns[i].phase;
    var reply := Replying(ContextOf(header), StatusOk, DescribeBody(key, cfg.endpoint), Some(key));
    Put(Unlock(st.(pin := Some(key)), i), i, reply)
  }

  function ApplyReadPin(st: State, i: nat): (r: State)
    requires i < |st.conns| && st.conns[i].phase.SignParsed?
  {
    var SignParsed(header, body) := st.conns[i].phase;
    match st.pin
    case None => Put(st, i, Refuse(st.pin, KeyMismatch, "key identity has not been described", ContextOf(header)))
    case Some(key) => Put(st, i, SignHavePin(header, body, key))
  }

  /** The request names the pinned key and this listener. */
  predicate Addressed(cfg: Config, body: SignBody, key: Identity) {
    body.keyName == key.keyName && body.publicKey == key.publicKey && body.endpoint == cfg.endpoint
  }

  function ApplyAdmitSign(cfg: Config, st: State, i: nat): (r: State)
    requires i < |st.conns| && st.conns[i].phase.SignHavePin?
  {
    var SignHavePin(header, body, key) := st.conns[i].phase;
    if !Addressed(cfg, body, key) then
      Put(st, i, Refuse(st.pin, KeyMismatch, "pinned key identity does not match", ContextOf(header)))
    else if !IsPathInfoV1(body.fingerprint) then
      Put(st, i, Refuse(st.pin, InvalidFingerprint, "fingerprint is not canonical PATH_INFO_V1", ContextOf(header)))
    else if st.freeSigns == 0 then Put(st, i, Refuse(st.pin, Overloaded, "signer is overloaded", ContextOf(header)))
    else
      Put(st, i, SignCalling(header, body, key)).(
        freeSigns := st.freeSigns - 1,
        rpcs := st.rpcs + [SignCall(i, header.batchId, header.requestId, body.fingerprint)])
  }

  function SignOutcome(cfg: Config, pin: Option<Identity>, header: RequestHeader, body: SignBody, key: Identity,
                       signed: Result<(Identity, ByteString), RpcError>): (r: Phase)
    ensures r.Replying?
  {
    match signed
    case Failure(e) => Refuse(pin, RpcStatus(e), StatusDiagnostic(RpcStatus(e)), ContextOf(header))
    case Success((signer, signature)) =>
      if signer != key then Refuse(pin, Internal, "Basil signing identity changed", ContextOf(header))
      else if |signature| != SIGNATURE_LEN || !cfg.crypto.verify(key.publicKey, body.fingerprint, signature)
      then Refuse(pin, Internal, "Basil returned an invalid signature", ContextOf(header))
      else Replying(ContextOf(header), StatusOk, SignReplyBody(key, cfg.endpoint, signature), Some(key))
  }

  function ApplySignReturns(cfg: Config, st: State, i: nat, signed: Result<(Identity, ByteString), RpcError>)
    : (r: State)
    requires i < |st.conns| && st.conns[i].phase.SignCalling?
  {
    var SignCalling(header, body, key) := st.conns[i].phase;
    Put(st, i, SignOutcome(cfg, st.pin, header, body, key, signed)).(freeSigns := st.freeSigns + 1)
  }

  function ApplyWrite(st: State, i: nat, complete: bool): (r: State)
    requires i < |st.conns| && st.conns[i].phase.Replying?
  {
    var Replying(context, status, reply, pinned) := st.conns[i].phase;
    var closed := Finish(st, i);
    var frame := EncodeResponse(context, status, reply);
    if complete then closed.(sent := st.sent + [Sent(i, context, status, reply, pinned, frame)])
    else closed
  }

  /** The deadline, an abort or a panic: the task's locals are dropped. */
  function ApplyCancel(st: State, i: nat): (r: State)
    requires i < |st.conns| && !st.conns[i].phase.Done?
  {
    var closed := Finish(Unlock(st, i), i);
    if st.conns[i].phase.SignCalling? then closed.(freeSigns := st.freeSigns + 1) else closed
  }

  predicate Enabled(st: State, a: Action) {
    match a
    case Accept => !st.stopping
    case Shutdown => true
    case Receive(i, _) => i < |st.conns| && st.conns[i].phase.Reading?
    case TurnAway(i) => i < |st.conns| && st.conns[i].phase.Reading?
    case DescribeReturns(i, _) => i < |st.conns| && st.conns[i].phase.DescribeCalling?
    case LockPin(i) => i < |st.conns| && st.conns[i].phase.DescribeHaveKey? && st.writer.None?
    case ComparePin(i) => i < |st.conns| && st.conns[i].phase.DescribeLocked?
    case StorePin(i) => i < |st.conns| && st.conns[i].phase.DescribeStoring?
    case ReadPin(i) => i < |st.conns| && st.conns[i].phase.SignParsed? && st.writer.None?
    case AdmitSign(i) => i < |st.conns| && st.conns[i].phase.SignHavePin?
    case SignReturns(i, _) => i < |st.conns| && st.conns[i].phase.SignCalling?
    case Write(i, _) => i < |st.conns| && st.conns[i].phase.Replying?
    case Cancel(i) => i < |st.conns| && !st.conns[i].phase.Done?
  }

  predicate OfTask(a: Action) {
    !a.Accept? && !a.Shutdown?
  }

  function Apply(cfg: Config, st: State, a: Action): (r: State)
    requires Enabled(st, a)
  {
    match a
    case Accept => ApplyAccept(st)
    case Shutdown => st.(stopping := true)
    case Receive(i, input) => ApplyReceive(st, i, input)
    case TurnAway(i) => ApplyCancel(st, i)
    case DescribeReturns(i, described) => ApplyDescribeReturns(cfg, st, i, described)
    case LockPin(i) => ApplyLockPin(st, i)
    case ComparePin(i) => ApplyComparePin(cfg, st, i)
    case StorePin(i) => ApplyStorePin(cfg, st, i)
    case ReadPin(i) => ApplyReadPin(st, i)
    case AdmitSign(i) => ApplyAdmitSign(cfg, st, i)
    case SignReturns(i, signed) => ApplySignReturns(cfg, st, i, signed)
    case Write(i, complete) => ApplyWrite(st, i, complete)
    case Cancel(i) => ApplyCancel(st, i)
  }

  /** The state after a whole schedule, if every step of it is possible. */
  function Run(cfg: Config, st: State, schedule: seq<Action>): (r: Option<State>)
    decreases |schedule|
  {
    if schedule == [] then Some(st)
    else if Enabled(st, schedule[0]) then Run(cfg, Apply(cfg, st, schedule[0]), schedule[1..])
    else None
  }
}
