/** Which step decides a reply, and why its status is what it is. */
module ProviderReplies {
  import opened Bytes
  import opened Sequences
  import opened Fingerprint
  import opened Signatures
  import opened NxsgCodec
  import opened Provider
  import opened ProviderSteps
  import opened ProviderSafety
  import opened ProviderRuns

  // --------------------------------------------------------------------- the reasons

  /** The status that reports a failed call to the backend. */
  predicate Reports(e: RpcError, status: Status) {
    && (status == DeadlineExceeded <==> e.TimedOut?)
    && (status == Unauthorized <==> e.PermissionDenied? || e.Unauthenticated?)
    && (status == Internal <==> e.ProtocolError?)
    && (status == Unavailable <==> e.OtherStatus? || e.IoError? || e.EndpointError? || e.JsonError?)
  }

  /** A backend's answer to a sign call that is fit to pass on. */
  predicate FitToPass(cfg: Config, key: Identity, fingerprint: ByteString,
                      signed: Result<(Identity, ByteString), RpcError>) {
    && signed.Success? && signed.value.0 == key && |signed.value.1| == SIGNATURE_LEN
    && cfg.crypto.verify(key.publicKey, fingerprint, signed.value.1)
  }

  /** A request that is answered as soon as it is read. */
  predicate AnsweredUnread(role: Role, input: Received) {
    match ReadRequest(input)
    case Failure(e) => e.Respond?
    case Success((header, body)) =>
      role.OverloadResponder? || (header.kind.SignRequest? && ParseSignBody(body).Failure?)
  }

  /** The steps that decide a reply, by what they find. */
  predicate Decides(cfg: Config, st: State, a: Action)
    requires Enabled(st, a) && OfTask(a)
  {
    var c := st.conns[a.conn];
    match a
    case Receive(_, input) => AnsweredUnread(c.role, input)
    case DescribeReturns(_, described) => described.Failure? || !ValidIdentity(described.value, cfg.validKey)
    case ComparePin(_) => st.pin.Some?
    case StorePin(_) => true
    case ReadPin(_) => st.pin.None?
    case AdmitSign(_) =>
      !Addressed(cfg, c.phase.body, c.phase.key) || !IsPathInfoV1(c.phase.body.fingerprint) || st.freeSigns == 0
    case SignReturns(_, _) => true
    case _ => false
  }

  /** Why the reply decided by a step has its status, and what it says. */
  predicate Reason(cfg: Config, st: State, a: Action, status: Status, body: ByteString)
    requires Enabled(st, a) && OfTask(a)
  {
    var c := st.conns[a.conn];
    match a
    case Receive(_, input) => (
      match ReadRequest(input)
      case Failure(e) => e.Respond? && status == e.status
      case Success((header, requested)) =>
        if c.role.OverloadResponder? then status == Overloaded
        else header.kind.SignRequest? && ParseSignBody(requested) == Failure(status))
    case DescribeReturns(_, described) =>
      if described.Failure? then Reports(described.error, status)
      else !ValidIdentity(described.value, cfg.validKey) && status == Internal
    case ComparePin(_) =>
      && st.pin.Some?
      && (status == StatusOk <==> st.pin.value == c.phase.key)
      && (status == Unavailable <==> st.pin.value != c.phase.key)
      && (status == StatusOk ==> ReadDescribeBody(body) == Some((c.phase.key, cfg.endpoint)))
    case StorePin(_) =>
      && st.pin.None? && status == StatusOk
      && ReadDescribeBody(body) == Some((c.phase.key, cfg.endpoint))
    case ReadPin(_) => st.pin.None? && status == KeyMismatch
    case AdmitSign(_) =>
      var named, canonical := Addressed(cfg, c.phase.body, c.phase.key), IsPathInfoV1(c.phase.body.fingerprint);
      && (status == KeyMismatch <==> !named) && (status == InvalidFingerprint <==> named && !canonical)
      && (status == Overloaded <==> named && canonical)
      && (status == Overloaded ==> Count(HoldsSign, st.conns) == MAX_SIGNS)
    case SignReturns(_, signed) =>
      if signed.Failure? then Reports(signed.error, status)
      else
        && (status == StatusOk <==> FitToPass(cfg, c.phase.key, c.phase.body.fingerprint, signed))
        && (status == Internal <==> !FitToPass(cfg, c.phase.key, c.phase.body.fingerprint, signed))
        && (status == StatusOk ==>
              ReadSignReplyBody(body)
              == Some((c.phase.key.keyName, c.phase.key.publicKey, cfg.endpoint, signed.value.1)))
    case _ => false
  }

  // ---------------------------------------------------------------------- step by step

  lemma BackendReported(e: RpcError)
    ensures Reports(e, RpcStatus(e))
  {
  }

  lemma {:induction false} ReceiveDecides(cfg: Config, st: State, i: nat, input: Received)
    requires Enabled(st, Receive(i, input))
    ensures var phase := ApplyReceive(st, i, input).conns[i].phase;
            && (phase.Replying? <==> Decides(cfg, st, Receive(i, input)))
            && (phase.Replying? ==> Reason(cfg, st, Receive(i, input), phase.status, phase.reply))
  {
    hide ReadRequest, ParseSignBody, DiagnosticBody, ContextOf;
    if ReadRequest(input).Success? {
      RequestKind(input);
    }
  }

  lemma {:induction false} DescribeReturnsDecides(cfg: Config, st: State, i: nat, described: Result<Identity, RpcError>)
    requires Enabled(st, DescribeReturns(i, described))
    ensures var phase, a := ApplyDescribeReturns(cfg, st, i, described).conns[i].phase, DescribeReturns(i, described);
            && (phase.Replying? <==> Decides(cfg, st, a))
            && (phase.Replying? ==> Reason(cfg, st, a, phase.status, phase.reply))
  {
    hide DiagnosticBody, ContextOf, ValidIdentity, Reports, RpcStatus;
    if described.Failure? {
      BackendReported(described.error);
    }
  }

  lemma {:induction false} PinDecides(cfg: Config, st: State, a: Action)
    requires ValidConfig(cfg) && Safe(cfg, st) && Enabled(st, a) && (a.ComparePin? || a.StorePin? || a.ReadPin?)
    ensures a.conn < |Apply(cfg, st, a).conns|
    ensures var phase := Apply(cfg, st, a).conns[a.conn].phase;
            && (phase.Replying? <==> Decides(cfg, st, a))
            && (phase.Replying? ==> Reason(cfg, st, a, phase.status, phase.reply))
  {
    hide ApplyReceive, ApplyDescribeReturns, ApplyLockPin, ApplyAdmitSign, ApplySignReturns, ApplyWrite, ApplyCancel,
         Good, DiagnosticBody, ContextOf, ValidIdentity, DescribeBody, ReadDescribeBody, Permits, FromRequest,
         ReplyOk, FromSignRequest, ValidConfig;
    KnownConn(cfg, st.pin, st.conns, st.rpcs, st.sent, a.conn);
    if !a.ReadPin? {
      EndpointLength(cfg);
      DescribeRoundTrip(st.conns[a.conn].phase.key, cfg.endpoint, cfg.validKey);
    }
  }

  lemma EndpointLength(cfg: Config)
    requires ValidConfig(cfg)
    ensures |cfg.endpoint| == ID_LEN
  {
  }

  lemma {:induction false} AdmitDecides(cfg: Config, st: State, i: nat)
    requires Permits(st) && Enabled(st, AdmitSign(i))
    ensures var phase := ApplyAdmitSign(cfg, st, i).conns[i].phase;
            && (phase.Replying? <==> Decides(cfg, st, AdmitSign(i)))
            && (phase.Replying? ==> Reason(cfg, st, AdmitSign(i), phase.status, phase.reply))
  {
    hide DiagnosticBody, ContextOf, Addressed, IsPathInfoV1, Count;
  }

  lemma {:induction false} SignReturnsDecides(cfg: Config, st: State, i: nat,
                                              signed: Result<(Identity, ByteString), RpcError>)
    requires ValidConfig(cfg) && Good(cfg, st.pin, st.conns, st.rpcs, st.sent) && Enabled(st, SignReturns(i, signed))
    ensures var phase, a := ApplySignReturns(cfg, st, i, signed).conns[i].phase, SignReturns(i, signed);
            phase.Replying? && Reason(cfg, st, a, phase.status, phase.reply)
  {
    hide Good, DiagnosticBody, ContextOf, ValidIdentity, SignReplyBody, ReadSignReplyBody, Reports, RpcStatus,
         ValidConfig, FromSignRequest, Addressed, IsPathInfoV1;
    KnownConn(cfg, st.pin, st.conns, st.rpcs, st.sent, i);
    var key := st.conns[i].phase.key;
    match signed
    case Failure(e) => BackendReported(e);
    case Success((signer, signature)) =>
      if |signature| == SIGNATURE_LEN {
        EndpointLength(cfg);
        SignReplyRoundTrip(key, cfg.endpoint, signature, cfg.validKey);
      }
  }

  /** A step decides a reply exactly when it finds one of these, and then for that reason. */
  lemma {:induction false} StepRepliesIff(cfg: Config, st: State, a: Action)
    requires ValidConfig(cfg) && Safe(cfg, st) && Enabled(st, a) && OfTask(a)
    ensures a.conn < |Apply(cfg, st, a).conns|
    ensures var phase := Apply(cfg, st, a).conns[a.conn].phase;
            && (phase.Replying? <==> Decides(cfg, st, a))
            && (phase.Replying? ==> Reason(cfg, st, a, phase.status, phase.reply))
  {
    hide Good, Locking, Permits, ApplyReceive, ApplyDescribeReturns, ApplyComparePin, ApplyStorePin, ApplyReadPin,
         ApplyAdmitSign, ApplySignReturns, ValidConfig, Reason, Decides, EncodeResponse;
    EveryTaskSteps(cfg, st, a);
    match a
    case Receive(i, input) => ReceiveDecides(cfg, st, i, input);
    case DescribeReturns(i, described) => DescribeReturnsDecides(cfg, st, i, described);
    case ComparePin(_) => PinDecides(cfg, st, a);
    case StorePin(_) => PinDecides(cfg, st, a);
    case ReadPin(_) => PinDecides(cfg, st, a);
    case AdmitSign(i) => AdmitDecides(cfg, st, i);
    case SignReturns(i, signed) =>
      SignReturnsDecides(cfg, st, i, signed);
      AlwaysDecides(cfg, st, a);
    case TurnAway(_) => NeverDecides(cfg, st, a);
    case LockPin(_) => NeverDecides(cfg, st, a);
    case Write(_, _) => NeverDecides(cfg, st, a);
    case Cancel(_) => NeverDecides(cfg, st, a);
  }

  lemma {:induction false} ReceiveLogs(st: State, i: nat, input: Received)
    requires Enabled(st, Receive(i, input))
    ensures ApplyReceive(st, i, input).sent == st.sent
    ensures var rpcs := ApplyReceive(st, i, input).rpcs;
            match ReadRequest(input)
            case Failure(_) => rpcs == st.rpcs
            case Success((header, _)) =>
              if !st.conns[i].role.OverloadResponder? && header.kind.DescribeRequest?
              then rpcs == st.rpcs + [DescribeCall(i, header.batchId, header.requestId)] else rpcs == st.rpcs
  {
    hide ReadRequest, Dispatch, Refuse, ContextOf;
  }

  lemma {:induction false} AdmitLogs(cfg: Config, st: State, i: nat)
    requires Enabled(st, AdmitSign(i))
    ensures ApplyAdmitSign(cfg, st, i).sent == st.sent
    ensures var c, rpcs := st.conns[i], ApplyAdmitSign(cfg, st, i).rpcs;
            if Decides(cfg, st, AdmitSign(i)) then rpcs == st.rpcs
            else rpcs == st.rpcs + [SignCall(i, c.phase.header.batchId, c.phase.header.requestId,
                                             c.phase.body.fingerprint)]
  {
    hide Refuse, ContextOf, Addressed, IsPathInfoV1;
  }

  lemma {:induction false} PinLogs(cfg: Config, st: State, a: Action)
    requires Enabled(st, a) && (a.LockPin? || a.ComparePin? || a.StorePin? || a.ReadPin?)
    ensures Apply(cfg, st, a).rpcs == st.rpcs && Apply(cfg, st, a).sent == st.sent
  {
    hide ApplyReceive, ApplyDescribeReturns, ApplyAdmitSign, ApplySignReturns, ApplyWrite, ApplyCancel, Refuse,
         ContextOf, DescribeBody;
  }

  lemma {:induction false} ReturnLogs(cfg: Config, st: State, a: Action)
    requires Enabled(st, a) && (a.DescribeReturns? || a.SignReturns? || a.Cancel? || a.TurnAway?)
    ensures Apply(cfg, st, a).rpcs == st.rpcs && Apply(cfg, st, a).sent == st.sent
  {
    hide ApplyReceive, ApplyLockPin, ApplyComparePin, ApplyStorePin, ApplyReadPin, ApplyAdmitSign, ApplyWrite, Refuse,
         ContextOf, ValidIdentity, SignOutcome;
  }

  lemma {:induction false} WriteLogs(st: State, i: nat, complete: bool)
    requires Enabled(st, Write(i, complete))
    ensures ApplyWrite(st, i, complete).rpcs == st.rpcs
    ensures var sent, phase := ApplyWrite(st, i, complete).sent, st.conns[i].phase;
            if complete then
              && |sent| == |st.sent| + 1 && sent[..|st.sent|] == st.sent && sent[|st.sent|].conn == i
              && sent[|st.sent|].status == phase.status && sent[|st.sent|].body == phase.reply
              && sent[|st.sent|].context == phase.context
            else sent == st.sent
  {
    hide EncodeResponse;
  }

  /** A handler calls the backend exactly to describe when a describe request comes in, and exactly to
      sign when an admitted request names the pinned key, a canonical fingerprint and finds a permit. */
  lemma {:induction false} StepCallsIff(cfg: Config, st: State, a: Action)
    requires Enabled(st, a) && OfTask(a)
    ensures var c, rpcs := st.conns[a.conn], Apply(cfg, st, a).rpcs;
            match a
            case Receive(i, input) =>
              (match ReadRequest(input)
               case Failure(_) => rpcs == st.rpcs
               case Success((header, _)) =>
                 if !c.role.OverloadResponder? && header.kind.DescribeRequest?
                 then rpcs == st.rpcs + [DescribeCall(i, header.batchId, header.requestId)] else rpcs == st.rpcs)
            case AdmitSign(i) =>
              if Decides(cfg, st, a) then rpcs == st.rpcs
              else rpcs == st.rpcs + [SignCall(i, c.phase.header.batchId, c.phase.header.requestId,
                                               c.phase.body.fingerprint)]
            case _ => rpcs == st.rpcs
  {
    hide ReadRequest, Decides, ApplyReceive, ApplyDescribeReturns, ApplyLockPin, ApplyComparePin, ApplyStorePin,
         ApplyReadPin, ApplyAdmitSign, ApplySignReturns, ApplyWrite, ApplyCancel;
    if a.Receive? {
      ReceiveLogs(st, a.conn, a.input);
    } else if a.AdmitSign? {
      AdmitLogs(cfg, st, a.conn);
    } else if a.Write? {
      WriteLogs(st, a.conn, a.complete);
    } else if a.LockPin? || a.ComparePin? || a.StorePin? || a.ReadPin? {
      PinLogs(cfg, st, a);
    } else {
      ReturnLogs(cfg, st, a);
    }
  }

  lemma AlwaysDecides(cfg: Config, st: State, a: Action)
    requires Enabled(st, a) && a.SignReturns?
    ensures Decides(cfg, st, a)
  {
  }

  lemma NeverDecides(cfg: Config, st: State, a: Action)
    requires Enabled(st, a) && (a.TurnAway? || a.LockPin? || a.Write? || a.Cancel?)
    ensures !Decides(cfg, st, a)
  {
  }

  // ------------------------------------------------------------------------- over runs

  lemma {:induction false} RunSnoc(cfg: Config, st: State, schedule: seq<Action>, a: Action)
    ensures Run(cfg, st, schedule + [a])
            == match Run(cfg, st, schedule)
               case None => None
               case Some(last) => if Enabled(last, a) then Some(Apply(cfg, last, a)) else None
    decreases |schedule|
  {
    hide Enabled, Apply;
    if schedule == [] {
      assert schedule + [a] == [a] && [a][1..] == [];
    } else {
      assert (schedule + [a])[1..] == schedule[1..] + [a];
      if Enabled(st, schedule[0]) {
        RunSnoc(cfg, Apply(cfg, st, schedule[0]), schedule[1..], a);
      }
    }
  }

  /** Step `k` of the schedule decided this reply of task `i`, for its reason. */
  ghost predicate DecidedAt(cfg: Config, schedule: seq<Action>, k: nat, i: nat, status: Status, body: ByteString) {
    && k < |schedule| && Run(cfg, INIT, schedule[..k]).Some?
    && var before, a := Run(cfg, INIT, schedule[..k]).value, schedule[k];
       && Enabled(before, a) && OfTask(a) && a.conn == i && Decides(cfg, before, a)
       && Reason(cfg, before, a, status, body)
  }

  ghost predicate Decided(cfg: Config, schedule: seq<Action>, i: nat, status: Status, body: ByteString) {
    exists k: nat :: DecidedAt(cfg, schedule, k, i, status, body)
  }

  lemma {:induction false} DecidedStays(cfg: Config, schedule: seq<Action>, a: Action, i: nat, status: Status,
                                        body: ByteString)
    requires Decided(cfg, schedule, i, status, body)
    ensures Decided(cfg, schedule + [a], i, status, body)
  {
    hide Enabled, Decides, Reason, Run;
    var k: nat :| DecidedAt(cfg, schedule, k, i, status, body);
    assert (schedule + [a])[..k] == schedule[..k] && (schedule + [a])[k] == schedule[k];
    assert DecidedAt(cfg, schedule + [a], k, i, status, body);
  }

  lemma {:induction false} DecidedNow(cfg: Config, schedule: seq<Action>, st: State, a: Action)
    requires ValidConfig(cfg) && Safe(cfg, st) && Run(cfg, INIT, schedule) == Some(st) && Enabled(st, a) && OfTask(a)
    requires a.conn < |Apply(cfg, st, a).conns| && Apply(cfg, st, a).conns[a.conn].phase.Replying?
    ensures var phase := Apply(cfg, st, a).conns[a.conn].phase;
            Decided(cfg, schedule + [a], a.conn, phase.status, phase.reply)
  {
    hide Enabled, Apply, Decides, Reason, Run, Safe, ValidConfig;
    StepRepliesIff(cfg, st, a);
    var phase := Apply(cfg, st, a).conns[a.conn].phase;
    assert (schedule + [a])[..|schedule|] == schedule && (schedule + [a])[|schedule|] == a;
    assert DecidedAt(cfg, schedule + [a], |schedule|, a.conn, phase.status, phase.reply);
  }

  /** Every reply about to be written or written was decided by a step, for its reason. */
  ghost predicate AllDecided(cfg: Config, schedule: seq<Action>, st: State) {
    && (forall i :: 0 <= i < |st.conns| && st.conns[i].phase.Replying? ==>
          Decided(cfg, schedule, i, st.conns[i].phase.status, st.conns[i].phase.reply))
    && (forall k :: 0 <= k < |st.sent| ==>
          Decided(cfg, schedule, st.sent[k].conn, st.sent[k].status, st.sent[k].body))
  }

  /** Only a complete write adds a frame, and it is the reply its task had decided. */
  lemma {:induction false} SentGrows(cfg: Config, st: State, a: Action)
    requires Enabled(st, a)
    ensures var sent := Apply(cfg, st, a).sent;
            if a.Write? && a.complete then
              && |sent| == |st.sent| + 1 && sent[..|st.sent|] == st.sent && sent[|st.sent|].conn == a.conn
              && sent[|st.sent|].status == st.conns[a.conn].phase.status
              && sent[|st.sent|].body == st.conns[a.conn].phase.reply
              && sent[|st.sent|].context == st.conns[a.conn].phase.context
            else sent == st.sent
  {
    hide ApplyReceive, ApplyDescribeReturns, ApplyLockPin, ApplyComparePin, ApplyStorePin, ApplyReadPin,
         ApplyAdmitSign, ApplySignReturns, ApplyWrite, ApplyCancel;
    if a.Receive? {
      ReceiveLogs(st, a.conn, a.input);
    } else if a.AdmitSign? {
      AdmitLogs(cfg, st, a.conn);
    } else if a.Write? {
      WriteLogs(st, a.conn, a.complete);
    } else if a.LockPin? || a.ComparePin? || a.StorePin? || a.ReadPin? {
      PinLogs(cfg, st, a);
    } else if OfTask(a) {
      ReturnLogs(cfg, st, a);
    }
  }

  lemma {:induction false} StepDecided(cfg: Config, schedule: seq<Action>, st: State, a: Action)
    requires ValidConfig(cfg) && Safe(cfg, st) && Run(cfg, INIT, schedule) == Some(st) && Enabled(st, a)
    requires AllDecided(cfg, schedule, st)
    ensures AllDecided(cfg, schedule + [a], Apply(cfg, st, a))
  {
    hide Enabled, Apply, Decided, Run, Safe, ValidConfig, PermitsMove, LockMoves;
    var st', longer := Apply(cfg, st, a), schedule + [a];
    StepConns(cfg, st, a);
    SentGrows(cfg, st, a);
    forall i | 0 <= i < |st'.conns| && st'.conns[i].phase.Replying?
      ensures Decided(cfg, longer, i, st'.conns[i].phase.status, st'.conns[i].phase.reply)
    {
      if i < |st.conns| && st'.conns[i] == st.conns[i] {
        DecidedStays(cfg, schedule, a, i, st.conns[i].phase.status, st.conns[i].phase.reply);
      } else {
        DecidedNow(cfg, schedule, st, a);
      }
    }
    forall k | 0 <= k < |st'.sent|
      ensures Decided(cfg, longer, st'.sent[k].conn, st'.sent[k].status, st'.sent[k].body)
    {
      if k < |st.sent| {
        assert st'.sent[k] == st.sent[k];
        DecidedStays(cfg, schedule, a, st.sent[k].conn, st.sent[k].status, st.sent[k].body);
      } else {
        WriterReplies(st, a);
        var phase := st.conns[a.conn].phase;
        DecidedStays(cfg, schedule, a, a.conn, phase.status, phase.reply);
      }
    }
  }

  lemma WriterReplies(st: State, a: Action)
    requires Enabled(st, a) && a.Write?
    ensures a.conn < |st.conns| && st.conns[a.conn].phase.Replying?
  {
  }

  /** A step changes the task it belongs to and no other; a new stream replies nothing. */
  lemma {:induction false} StepConns(cfg: Config, st: State, a: Action)
    requires Enabled(st, a)
    ensures var st' := Apply(cfg, st, a);
            forall i :: 0 <= i < |st'.conns| ==>
              || (i < |st.conns| && st'.conns[i] == st.conns[i])
              || (OfTask(a) && i == a.conn)
              || !st'.conns[i].phase.Replying?
  {
    hide PermitsMove, LockMoves, Apply;
    if OfTask(a) {
      EveryTaskSteps(cfg, st, a);
    } else {
      NoTaskStep(cfg, st, a);
    }
  }

  lemma {:induction false} NoTaskStep(cfg: Config, st: State, a: Action)
    requires Enabled(st, a) && !OfTask(a)
    ensures var st' := Apply(cfg, st, a);
            forall i :: 0 <= i < |st'.conns| ==>
              (i < |st.conns| && st'.conns[i] == st.conns[i]) || !st'.conns[i].phase.Replying?
  {
  }

  /** Over every run: each frame was decided by one step of its own task, and that step's finding is
      the reason for its status and, if it is OK, for its body. */
  lemma {:induction false} FramesHaveReasons(cfg: Config, schedule: seq<Action>, st: State)
    requires Reachable(cfg, schedule, st)
    ensures AllDecided(cfg, schedule, st)
    decreases |schedule|
  {
    hide Enabled, Apply, Decided, Safe, ValidConfig;
    if schedule != [] {
      var n := |schedule| - 1;
      var before, a := schedule[..n], schedule[n];
      assert schedule == before + [a];
      RunSnoc(cfg, INIT, before, a);
      var last := Run(cfg, INIT, before).value;
      FramesHaveReasons(cfg, before, last);
      InitIsSafe(cfg);
      RunIsSafe(cfg, INIT, before);
      StepDecided(cfg, before, last, a);
    }
  }

  // ------------------------------------------------------------------ replies come through

  /** No step of task `i`. */
  predicate OthersOnly(schedule: seq<Action>, i: nat) {
    forall a :: a in schedule && OfTask(a) ==> a.conn != i
  }

  lemma {:induction false} OthersLeaveAlone(cfg: Config, st: State, i: nat, more: seq<Action>)
    requires i < |st.conns| && OthersOnly(more, i) && Run(cfg, st, more).Some?
    ensures var later := Run(cfg, st, more).value; i < |later.conns| && later.conns[i] == st.conns[i]
    decreases |more|
  {
    hide Enabled, Apply;
    if more != [] {
      assert more[0] in more;
      StepLeavesAlone(cfg, st, i, more[0]);
      OthersLeaveAlone(cfg, Apply(cfg, st, more[0]), i, more[1..]);
    }
  }

  lemma {:induction false} StepLeavesAlone(cfg: Config, st: State, i: nat, a: Action)
    requires i < |st.conns| && Enabled(st, a) && (OfTask(a) ==> a.conn != i)
    ensures var st' := Apply(cfg, st, a); i < |st'.conns| && st'.conns[i] == st.conns[i]
  {
    hide PermitsMove, LockMoves, ReadRequest, ApplyReceive, ApplyDescribeReturns, ApplyAdmitSign, ApplySignReturns;
    if OfTask(a) {
      EveryTaskSteps(cfg, st, a);
    }
  }

  /** From any state of any run: a reply that a step decides waits for its write whatever the other
      tasks do, and a complete write sends it, with the status and body of its reason. */
  lemma {:induction false} AnswerArrives(cfg: Config, schedule: seq<Action>, st: State, a: Action, more: seq<Action>,
                                         later: State)
    requires Reachable(cfg, schedule, st) && Enabled(st, a) && OfTask(a) && Decides(cfg, st, a)
    requires OthersOnly(more, a.conn) && Run(cfg, Apply(cfg, st, a), more) == Some(later)
    ensures Enabled(later, Write(a.conn, true))
    ensures var sent := Apply(cfg, later, Write(a.conn, true)).sent;
            && |sent| == |later.sent| + 1 && sent[|later.sent|].conn == a.conn
            && Reason(cfg, st, a, sent[|later.sent|].status, sent[|later.sent|].body)
  {
    hide Run, Apply, Decides, Reason, Safe, ValidConfig;
    InitIsSafe(cfg);
    RunIsSafe(cfg, INIT, schedule);
    StepRepliesIff(cfg, st, a);
    OthersLeaveAlone(cfg, Apply(cfg, st, a), a.conn, more);
    SentGrows(cfg, later, Write(a.conn, true));
  }

  /** A sign call that returns is answered OK exactly when the backend spoke for the pinned key with a
      signature that verifies over the asked fingerprint, and then with exactly that signature. */
  lemma {:induction false} SignAnsweredIff(cfg: Config, schedule: seq<Action>, st: State, i: nat,
                                           signed: Result<(Identity, ByteString), RpcError>, more: seq<Action>,
                                           later: State)
    requires Reachable(cfg, schedule, st) && Enabled(st, SignReturns(i, signed)) && OthersOnly(more, i)
    requires Run(cfg, Apply(cfg, st, SignReturns(i, signed)), more) == Some(later)
    ensures Enabled(later, Write(i, true)) && st.pin.Some? && SignAsked(st.conns[i].input)
    ensures ParseSignBody(ReadRequest(st.conns[i].input).value.1).Success?
    ensures var sent := Apply(cfg, later, Write(i, true)).sent;
            var key := st.pin.value;
            var asked := ParseSignBody(ReadRequest(st.conns[i].input).value.1).value;
            && |sent| == |later.sent| + 1
            && var frame := sent[|later.sent|];
               && frame.conn == i
               && (frame.status == StatusOk <==> FitToPass(cfg, key, asked.fingerprint, signed))
               && (frame.status == StatusOk ==>
                     ReadSignReplyBody(frame.body) == Some((key.keyName, key.publicKey, cfg.endpoint, signed.value.1)))
               && (signed.Failure? ==> Reports(signed.error, frame.status))
               && (signed.Success? && frame.status != StatusOk ==> frame.status == Internal)
  {
    hide Run, Apply, Decides, Safe, ValidConfig, ReadSignReplyBody, ReadRequest, ParseSignBody, Reports, Addressed,
         IsPathInfoV1, FitToPass;
    var a := SignReturns(i, signed);
    AlwaysDecides(cfg, st, a);
    AnswerArrives(cfg, schedule, st, a, more, later);
    CallingFacts(cfg, schedule, st, i);
    if signed.Failure? {
      NotOk(signed.error);
      NotFit(cfg, st.pin.value, st.conns[i].phase.body.fingerprint, signed);
    }
  }

  lemma NotOk(e: RpcError)
    ensures !Reports(e, StatusOk)
  {
  }

  lemma NotFit(cfg: Config, key: Identity, fingerprint: ByteString, signed: Result<(Identity, ByteString), RpcError>)
    requires signed.Failure?
    ensures !FitToPass(cfg, key, fingerprint, signed)
  {
  }

  lemma {:induction false} CallingFacts(cfg: Config, schedule: seq<Action>, st: State, i: nat)
    requires Reachable(cfg, schedule, st) && i < |st.conns| && st.conns[i].phase.SignCalling?
    ensures st.pin == Some(st.conns[i].phase.key) && SignAsked(st.conns[i].input)
    ensures ParseSignBody(ReadRequest(st.conns[i].input).value.1) == Success(st.conns[i].phase.body)
  {
    hide Run, Good, ReadRequest, ParseSignBody, ValidConfig, Locking, Permits, Addressed, IsPathInfoV1;
    InitIsSafe(cfg);
    RunIsSafe(cfg, INIT, schedule);
    KnownConn(cfg, st.pin, st.conns, st.rpcs, st.sent, i);
  }

  // ------------------------------------------------------------------------ describe calls

  predicate HasKey(phase: Phase) {
    phase.DescribeHaveKey? || phase.DescribeLocked? || phase.DescribeStoring?
  }

  /** A key on its way to the pin is what the backend described to that very task. */
  predicate FromBackend(schedule: seq<Action>, st: State) {
    forall i :: 0 <= i < |st.conns| && HasKey(st.conns[i].phase) ==>
      DescribeReturns(i, Success(st.conns[i].phase.key)) in schedule
  }

  lemma {:induction false} KeyMoves(cfg: Config, st: State, a: Action)
    requires Enabled(st, a)
    ensures var st' := Apply(cfg, st, a);
            forall i :: 0 <= i < |st'.conns| && HasKey(st'.conns[i].phase) ==>
              || (i < |st.conns| && HasKey(st.conns[i].phase) && st.conns[i].phase.key == st'.conns[i].phase.key)
              || a == DescribeReturns(i, Success(st'.conns[i].phase.key))
  {
    hide PermitsMove, LockMoves, Apply;
    if OfTask(a) {
      EveryTaskSteps(cfg, st, a);
      KeyOfTask(cfg, st, a);
    } else {
      NoNewKey(cfg, st, a);
    }
  }

  lemma {:induction false} NoNewKey(cfg: Config, st: State, a: Action)
    requires Enabled(st, a) && !OfTask(a)
    ensures var st' := Apply(cfg, st, a);
            forall i :: 0 <= i < |st'.conns| && HasKey(st'.conns[i].phase) ==>
              i < |st.conns| && st'.conns[i] == st.conns[i]
  {
  }

  lemma {:induction false} KeyOfTask(cfg: Config, st: State, a: Action)
    requires Enabled(st, a) && OfTask(a)
    ensures a.conn < |Apply(cfg, st, a).conns|
    ensures var was, phase := st.conns[a.conn].phase, Apply(cfg, st, a).conns[a.conn].phase;
            HasKey(phase) ==>
              (HasKey(was) && was.key == phase.key) || a == DescribeReturns(a.conn, Success(phase.key))
  {
    hide ApplyReceive, ApplyDescribeReturns, ApplyLockPin, ApplyComparePin, ApplyStorePin, ApplyReadPin,
         ApplyAdmitSign, ApplySignReturns, ApplyWrite, ApplyCancel;
    if a.Receive? {
      ReceivedNoKey(st, a.conn, a.input);
    } else if a.DescribeReturns? || a.LockPin? || a.ComparePin? {
      KeyStep(cfg, st, a);
    } else {
      NoKeyStep(cfg, st, a);
    }
  }

  lemma {:induction false} KeyStep(cfg: Config, st: State, a: Action)
    requires Enabled(st, a) && (a.DescribeReturns? || a.LockPin? || a.ComparePin?)
    ensures a.conn < |Apply(cfg, st, a).conns|
    ensures var was, phase := st.conns[a.conn].phase, Apply(cfg, st, a).conns[a.conn].phase;
            HasKey(phase) ==>
              (HasKey(was) && was.key == phase.key) || a == DescribeReturns(a.conn, Success(phase.key))
  {
    hide ApplyReceive, ApplyStorePin, ApplyReadPin, ApplyAdmitSign, ApplySignReturns, ApplyWrite, ApplyCancel, Refuse,
         ContextOf, ValidIdentity, DescribeBody;
  }

  lemma {:induction false} NoKeyStep(cfg: Config, st: State, a: Action)
    requires Enabled(st, a) && OfTask(a)
    requires !a.Receive? && !a.DescribeReturns? && !a.LockPin? && !a.ComparePin?
    ensures a.conn < |Apply(cfg, st, a).conns| && !HasKey(Apply(cfg, st, a).conns[a.conn].phase)
  {
    hide ApplyReceive, ApplyDescribeReturns, ApplyLockPin, ApplyComparePin, ApplyStorePin, ApplyReadPin,
         ApplyAdmitSign, ApplySignReturns, ApplyWrite, ApplyCancel;
    if a.AdmitSign? || a.SignReturns? {
      SignNoKey(cfg, st, a);
    } else if a.Write? || a.Cancel? || a.TurnAway? {
      OverNoKey(cfg, st, a);
    } else {
      PinNoKey(cfg, st, a);
    }
  }

  lemma {:induction false} SignNoKey(cfg: Config, st: State, a: Action)
    requires Enabled(st, a) && (a.AdmitSign? || a.SignReturns?)
    ensures a.conn < |Apply(cfg, st, a).conns| && !HasKey(Apply(cfg, st, a).conns[a.conn].phase)
  {
    hide ApplyReceive, ApplyDescribeReturns, ApplyLockPin, ApplyComparePin, ApplyStorePin, ApplyReadPin, ApplyWrite,
         ApplyCancel, Refuse, ContextOf, Addressed, IsPathInfoV1, SignOutcome;
  }

  lemma {:induction false} OverNoKey(cfg: Config, st: State, a: Action)
    requires Enabled(st, a) && (a.Write? || a.Cancel? || a.TurnAway?)
    ensures a.conn < |Apply(cfg, st, a).conns| && !HasKey(Apply(cfg, st, a).conns[a.conn].phase)
  {
    hide ApplyReceive, ApplyDescribeReturns, ApplyLockPin, ApplyComparePin, ApplyStorePin, ApplyReadPin,
         ApplyAdmitSign, ApplySignReturns, EncodeResponse;
  }

  lemma {:induction false} PinNoKey(cfg: Config, st: State, a: Action)
    requires Enabled(st, a) && (a.StorePin? || a.ReadPin?)
    ensures a.conn < |Apply(cfg, st, a).conns| && !HasKey(Apply(cfg, st, a).conns[a.conn].phase)
  {
    hide ApplyReceive, ApplyDescribeReturns, ApplyLockPin, ApplyComparePin, ApplyAdmitSign, ApplySignReturns,
         ApplyWrite, ApplyCancel, Refuse, ContextOf, DescribeBody;
  }

  lemma {:induction false} ReceivedNoKey(st: State, i: nat, input: Received)
    requires Enabled(st, Receive(i, input))
    ensures i < |ApplyReceive(st, i, input).conns| && !HasKey(ApplyReceive(st, i, input).conns[i].phase)
  {
    hide ReadRequest, ContextOf, DiagnosticBody, ParseSignBody;
  }

  lemma {:induction false} KeysFromBackend(cfg: Config, schedule: seq<Action>, st: State)
    requires Run(cfg, INIT, schedule) == Some(st)
    ensures FromBackend(schedule, st)
    decreases |schedule|
  {
    hide Enabled, Apply;
    if schedule != [] {
      var n := |schedule| - 1;
      var before, a := schedule[..n], schedule[n];
      assert schedule == before + [a];
      RunSnoc(cfg, INIT, before, a);
      var last := Run(cfg, INIT, before).value;
      KeysFromBackend(cfg, before, last);
      KeyMoves(cfg, last, a);
    }
  }

  /** What a describe call comes to, given the pin for good. */
  predicate DescribeVerdict(cfg: Config, described: Result<Identity, RpcError>, pin: Option<Identity>, status: Status,
                            body: ByteString)
  {
    match described
    case Failure(e) => Reports(e, status)
    case Success(key) =>
      var valid := ValidIdentity(key, cfg.validKey);
      && (status == Internal <==> !valid)
      && (status == StatusOk <==> valid && pin == Some(key))
      && (status == Unavailable <==> valid && pin != Some(key))
      && (status == StatusOk ==> ReadDescribeBody(body) == Some((key, cfg.endpoint)))
  }

  predicate OfDescribe(a: Action) {
    a.DescribeReturns? || a.ComparePin? || a.StorePin?
  }

  /** The frame was decided for its reason, and if that was a describe call, by what the backend
      described to this task and by the pin. */
  ghost predicate Told(cfg: Config, schedule: seq<Action>, pin: Option<Identity>, frame: Sent) {
    exists k: nat :: && DecidedAt(cfg, schedule, k, frame.conn, frame.status, frame.body)
                     && (OfDescribe(schedule[k]) ==> Described(cfg, schedule, pin, frame))
  }

  ghost predicate Described(cfg: Config, schedule: seq<Action>, pin: Option<Identity>, frame: Sent) {
    exists described :: && DescribeReturns(frame.conn, described) in schedule
                        && DescribeVerdict(cfg, described, pin, frame.status, frame.body)
  }

  /** Over every run: a describe call is answered OK exactly when the backend described a valid key
      that is, or thereby becomes, the pinned one, and with exactly that key; every other answer
      reports what went wrong. */
  lemma {:induction false} DescribesOverRuns(cfg: Config, schedule: seq<Action>, st: State)
    requires Reachable(cfg, schedule, st)
    ensures forall n :: 0 <= n < |st.sent| ==> Told(cfg, schedule, st.pin, st.sent[n])
  {
    hide Run, DecidedAt, Described, ValidConfig;
    FramesHaveReasons(cfg, schedule, st);
    forall n | 0 <= n < |st.sent|
      ensures Told(cfg, schedule, st.pin, st.sent[n])
    {
      var frame := st.sent[n];
      assert Decided(cfg, schedule, frame.conn, frame.status, frame.body);
      var k: nat :| DecidedAt(cfg, schedule, k, frame.conn, frame.status, frame.body);
      DecidedIndex(cfg, schedule, k, frame);
      if OfDescribe(schedule[k]) {
        DescribeTold(cfg, schedule, st, k, frame);
      }
    }
  }

  lemma DecidedIndex(cfg: Config, schedule: seq<Action>, k: nat, frame: Sent)
    requires DecidedAt(cfg, schedule, k, frame.conn, frame.status, frame.body)
    ensures k < |schedule|
  {
  }

  lemma {:induction false} DescribeTold(cfg: Config, schedule: seq<Action>, st: State, k: nat, frame: Sent)
    requires Reachable(cfg, schedule, st)
    requires DecidedAt(cfg, schedule, k, frame.conn, frame.status, frame.body) && OfDescribe(schedule[k])
    ensures Described(cfg, schedule, st.pin, frame)
  {
    hide Run, Apply, Enabled, ValidIdentity, ReadDescribeBody, Reports, ValidConfig, Safe, FromBackend;
    var before, a, i := Run(cfg, INIT, schedule[..k]).value, schedule[k], frame.conn;
    if a.DescribeReturns? {
      if a.described.Failure? { NotOk(a.described.error); }
      assert DescribeVerdict(cfg, a.described, st.pin, frame.status, frame.body);
    } else {
      PinStepFacts(cfg, schedule, st, k);
      var key := before.conns[i].phase.key;
      assert DescribeVerdict(cfg, Success(key), st.pin, frame.status, frame.body);
    }
  }

  /** The task that compares or stores the pin: its key is valid and the backend's, and what it finds
      or leaves as the pin is the pin for good. */
  lemma {:induction false} PinStepFacts(cfg: Config, schedule: seq<Action>, st: State, k: nat)
    requires Reachable(cfg, schedule, st) && k < |schedule| && Run(cfg, INIT, schedule[..k]).Some?
    requires schedule[k].ComparePin? || schedule[k].StorePin?
    requires Enabled(Run(cfg, INIT, schedule[..k]).value, schedule[k])
    ensures var before, a := Run(cfg, INIT, schedule[..k]).value, schedule[k];
            && a.conn < |before.conns| && HasKey(before.conns[a.conn].phase)
            && var key := before.conns[a.conn].phase.key;
               && ValidIdentity(key, cfg.validKey) && DescribeReturns(a.conn, Success(key)) in schedule
               && (before.pin.Some? ==> st.pin == before.pin)
               && (a.StorePin? ==> st.pin == Some(key))
  {
    hide Run, Apply, ValidIdentity, ValidConfig, Good, Locking, Permits, FromRequest;
    var before, a := Run(cfg, INIT, schedule[..k]).value, schedule[k];
    InitIsSafe(cfg);
    RunIsSafe(cfg, INIT, schedule[..k]);
    KnownConn(cfg, before.pin, before.conns, before.rpcs, before.sent, a.conn);
    KeysFromBackend(cfg, schedule[..k], before);
    RunSplit(cfg, INIT, schedule, k);
    RunIsSafe(cfg, before, schedule[k..]);
    assert schedule[k..][0] == a && schedule[k..] == [a] + schedule[k + 1..];
    RunSplit(cfg, before, schedule[k..], 1);
    RunOneStep(cfg, before, a, schedule[k..]);
    var after := Apply(cfg, before, a);
    RunIsSafe(cfg, before, [a]);
    RunIsSafe(cfg, after, schedule[k..][1..]);
    if a.StorePin? {
      StoredPin(cfg, before, a);
    }
  }

  lemma StoredPin(cfg: Config, st: State, a: Action)
    requires Enabled(st, a) && a.StorePin?
    ensures Apply(cfg, st, a).pin == Some(st.conns[a.conn].phase.key)
  {
  }

  lemma RunOneStep(cfg: Config, st: State, a: Action, schedule: seq<Action>)
    requires Enabled(st, a) && schedule != [] && schedule[0] == a
    ensures Run(cfg, st, [a]) == Some(Apply(cfg, st, a)) && schedule[..1] == [a]
  {
    hide Apply, Enabled;
    assert [a][1..] == [];
  }

  lemma {:induction false} RunSplit(cfg: Config, st: State, schedule: seq<Action>, k: nat)
    requires k <= |schedule| && Run(cfg, st, schedule).Some?
    ensures Run(cfg, st, schedule[..k]).Some?
    ensures Run(cfg, Run(cfg, st, schedule[..k]).value, schedule[k..]) == Run(cfg, st, schedule)
    decreases k
  {
    hide Apply, Enabled;
    if k == 0 {
      assert schedule[..0] == [] && schedule[0..] == schedule;
    } else {
      assert schedule[..k][1..] == schedule[1..][..k - 1] && schedule[1..][k - 1..] == schedule[k..];
      RunSplit(cfg, Apply(cfg, st, schedule[0]), schedule[1..], k - 1);
    }
  }
}
