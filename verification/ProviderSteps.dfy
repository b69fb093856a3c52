/** What each step of a provider task may move. */
module ProviderSteps {
  import opened Bytes
  import opened Fingerprint
  import opened Signatures
  import opened NxsgCodec
  import opened Provider

  lemma RequestKind(input: Received)
    requires ReadRequest(input).Success?
    ensures IsRequest(ReadRequest(input).value.0.kind)
  {
  }

  /** Phases that hold neither the lock nor a sign permit, and still hold their admission. */
  predicate Quiet(phase: Phase) {
    !phase.DescribeLocked? && !phase.DescribeStoring? && !phase.SignCalling? && !phase.Done?
  }

  lemma {:induction false} QuietSteps(st: State, i: nat, phase: Phase)
    requires i < |st.conns| && Quiet(st.conns[i].phase) && Quiet(phase)
    ensures TaskStep(st, Put(st, i, phase), i)
  {
  }

  /** The lock holder replies and lets go. */
  lemma {:induction false} ReleaseSteps(st: State, i: nat, phase: Phase)
    requires i < |st.conns| && HoldsLock(st.conns[i]) && phase.Replying?
    ensures TaskStep(st, Put(Unlock(st, i), i, phase), i)
  {
  }

  lemma {:induction false} ReceiveSteps(st: State, i: nat, input: Received)
    requires Enabled(st, Receive(i, input))
    ensures TaskStep(st, ApplyReceive(st, i, input), i)
  {
    hide ReadRequest, Dispatch, Refuse, ContextOf;
    if ReadRequest(input).Success? {
      RequestKind(input);
    }
  }

  lemma {:induction false} DescribeReturnsSteps(cfg: Config, st: State, i: nat, described: Result<Identity, RpcError>)
    requires Enabled(st, DescribeReturns(i, described))
    ensures TaskStep(st, ApplyDescribeReturns(cfg, st, i, described), i)
  {
    hide Refuse, ContextOf, ValidIdentity, StatusDiagnostic;
  }

  lemma {:induction false} LockPinSteps(st: State, i: nat)
    requires Enabled(st, LockPin(i))
    ensures TaskStep(st, ApplyLockPin(st, i), i)
  {
  }

  lemma {:induction false} ComparePinSteps(cfg: Config, st: State, i: nat)
    requires Enabled(st, ComparePin(i))
    ensures TaskStep(st, ApplyComparePin(cfg, st, i), i)
  {
    hide Refuse, ContextOf, DescribeBody;
    if st.pin.Some? {
      hide Put, TaskStep, Unlock;
      var phase := st.conns[i].phase;
      ReleaseSteps(st, i, Replying(ContextOf(phase.header), StatusOk, DescribeBody(phase.key, cfg.endpoint),
                                   Some(phase.key)));
      ReleaseSteps(st, i, Refuse(st.pin, Unavailable, "configured key identity changed", ContextOf(phase.header)));
    }
  }

  lemma {:induction false} StorePinSteps(cfg: Config, st: State, i: nat)
    requires Enabled(st, StorePin(i))
    ensures TaskStep(st, ApplyStorePin(cfg, st, i), i)
  {
    hide ContextOf, DescribeBody;
  }

  lemma {:induction false} ReadPinSteps(st: State, i: nat)
    requires Enabled(st, ReadPin(i))
    ensures TaskStep(st, ApplyReadPin(st, i), i)
  {
    hide Refuse, ContextOf;
  }

  lemma {:induction false} AdmitSignSteps(cfg: Config, st: State, i: nat)
    requires Enabled(st, AdmitSign(i))
    ensures TaskStep(st, ApplyAdmitSign(cfg, st, i), i)
  {
    hide Refuse, ContextOf, Addressed, IsPathInfoV1;
    var SignHavePin(header, body, key) := st.conns[i].phase;
    if Addressed(cfg, body, key) && IsPathInfoV1(body.fingerprint) && st.freeSigns > 0 {
    } else {
      hide Put, TaskStep;
      QuietSteps(st, i, Refuse(st.pin, KeyMismatch, "pinned key identity does not match", ContextOf(header)));
      QuietSteps(st, i, Refuse(st.pin, InvalidFingerprint, "fingerprint is not canonical PATH_INFO_V1",
                               ContextOf(header)));
      QuietSteps(st, i, Refuse(st.pin, Overloaded, "signer is overloaded", ContextOf(header)));
    }
  }

  lemma {:induction false} SignReturnsSteps(cfg: Config, st: State, i: nat,
                                            signed: Result<(Identity, ByteString), RpcError>)
    requires Enabled(st, SignReturns(i, signed))
    ensures TaskStep(st, ApplySignReturns(cfg, st, i, signed), i)
  {
    hide SignOutcome;
  }

  lemma {:induction false} WriteSteps(st: State, i: nat, complete: bool)
    requires Enabled(st, Write(i, complete))
    ensures TaskStep(st, ApplyWrite(st, i, complete), i)
  {
    hide EncodeResponse;
  }

  lemma {:induction false} CancelSteps(st: State, i: nat)
    requires Enabled(st, Cancel(i))
    ensures TaskStep(st, ApplyCancel(st, i), i)
  {
  }

  /** Every step of a task touches that task alone, moves exactly the permits it takes or
      gives back, and changes hands of the lock through its holder. */
  lemma {:induction false} EveryTaskSteps(cfg: Config, st: State, a: Action)
    requires Enabled(st, a) && OfTask(a)
    ensures TaskStep(st, Apply(cfg, st, a), a.conn)
  {
    hide TaskStep, ApplyReceive, ApplyDescribeReturns, ApplyLockPin, ApplyComparePin, ApplyStorePin, ApplyReadPin,
         ApplyAdmitSign, ApplySignReturns, ApplyWrite, ApplyCancel;
    match a
    case Receive(i, input) => ReceiveSteps(st, i, input);
    case TurnAway(i) => CancelSteps(st, i);
    case DescribeReturns(i, described) => DescribeReturnsSteps(cfg, st, i, described);
    case LockPin(i) => LockPinSteps(st, i);
    case ComparePin(i) => ComparePinSteps(cfg, st, i);
    case StorePin(i) => StorePinSteps(cfg, st, i);
    case ReadPin(i) => ReadPinSteps(st, i);
    case AdmitSign(i) => AdmitSignSteps(cfg, st, i);
    case SignReturns(i, signed) => SignReturnsSteps(cfg, st, i, signed);
    case Write(i, complete) => WriteSteps(st, i, complete);
    case Cancel(i) => CancelSteps(st, i);
  }

  // ----------------------------------------------------------------------- getting done

  /** The most steps a task can still take. */
  function Remaining(phase: Phase): (n: nat)
    ensures n <= 6 && (n == 0 <==> phase.Done?)
  {
    match phase
    case Reading => 6
    case DescribeCalling(_) => 5
    case DescribeHaveKey(_, _) => 4
    case DescribeLocked(_, _) => 3
    case DescribeStoring(_, _) => 2
    case SignParsed(_, _) => 4
    case SignHavePin(_, _, _) => 3
    case SignCalling(_, _, _) => 2
    case Replying(_, _, _, _) => 1
    case Done => 0
  }

  /** Task `i` is closer to its end. */
  predicate Advances(st: State, st': State, i: nat) {
    && i < |st.conns| && i < |st'.conns|
    && Remaining(st'.conns[i].phase) < Remaining(st.conns[i].phase)
  }

  lemma {:induction false} ReceiveAdvances(st: State, i: nat, input: Received)
    requires Enabled(st, Receive(i, input))
    ensures Advances(st, ApplyReceive(st, i, input), i)
  {
    hide ReadRequest, Dispatch, Refuse, ContextOf;
  }

  lemma {:induction false} DescribeReturnsAdvances(cfg: Config, st: State, i: nat,
                                                   described: Result<Identity, RpcError>)
    requires Enabled(st, DescribeReturns(i, described))
    ensures Advances(st, ApplyDescribeReturns(cfg, st, i, described), i)
  {
    hide Refuse, ContextOf, ValidIdentity, StatusDiagnostic;
  }

  lemma {:induction false} LockPinAdvances(st: State, i: nat)
    requires Enabled(st, LockPin(i))
    ensures Advances(st, ApplyLockPin(st, i), i)
  {
  }

  lemma {:induction false} ComparePinAdvances(cfg: Config, st: State, i: nat)
    requires Enabled(st, ComparePin(i))
    ensures Advances(st, ApplyComparePin(cfg, st, i), i)
  {
    hide Refuse, ContextOf, DescribeBody, HoldsLock;
  }

  lemma {:induction false} StorePinAdvances(cfg: Config, st: State, i: nat)
    requires Enabled(st, StorePin(i))
    ensures Advances(st, ApplyStorePin(cfg, st, i), i)
  {
    hide ContextOf, DescribeBody, HoldsLock;
  }

  lemma {:induction false} ReadPinAdvances(st: State, i: nat)
    requires Enabled(st, ReadPin(i))
    ensures Advances(st, ApplyReadPin(st, i), i)
  {
    hide Refuse, ContextOf;
  }

  lemma {:induction false} AdmitSignAdvances(cfg: Config, st: State, i: nat)
    requires Enabled(st, AdmitSign(i))
    ensures Advances(st, ApplyAdmitSign(cfg, st, i), i)
  {
    hide Refuse, ContextOf, Addressed, IsPathInfoV1;
  }

  lemma {:induction false} SignReturnsAdvances(cfg: Config, st: State, i: nat,
                                               signed: Result<(Identity, ByteString), RpcError>)
    requires Enabled(st, SignReturns(i, signed))
    ensures Advances(st, ApplySignReturns(cfg, st, i, signed), i)
  {
    hide SignOutcome;
  }

  lemma {:induction false} WriteAdvances(st: State, i: nat, complete: bool)
    requires Enabled(st, Write(i, complete))
    ensures Advances(st, ApplyWrite(st, i, complete), i)
  {
    hide EncodeResponse;
  }

  lemma {:induction false} CancelAdvances(st: State, i: nat)
    requires Enabled(st, Cancel(i))
    ensures Advances(st, ApplyCancel(st, i), i)
  {
    hide HoldsLock, Remaining;
  }

  /** Every step of a task brings that task closer to its end. */
  lemma {:induction false} EveryTaskAdvances(cfg: Config, st: State, a: Action)
    requires Enabled(st, a) && OfTask(a)
    ensures Advances(st, Apply(cfg, st, a), a.conn)
  {
    hide Advances, ApplyReceive, ApplyDescribeReturns, ApplyLockPin, ApplyComparePin, ApplyStorePin, ApplyReadPin,
         ApplyAdmitSign, ApplySignReturns, ApplyWrite, ApplyCancel;
    match a
    case Receive(i, input) => ReceiveAdvances(st, i, input);
    case TurnAway(i) => CancelAdvances(st, i);
    case DescribeReturns(i, described) => DescribeReturnsAdvances(cfg, st, i, described);
    case LockPin(i) => LockPinAdvances(st, i);
    case ComparePin(i) => ComparePinAdvances(cfg, st, i);
    case StorePin(i) => StorePinAdvances(cfg, st, i);
    case ReadPin(i) => ReadPinAdvances(st, i);
    case AdmitSign(i) => AdmitSignAdvances(cfg, st, i);
    case SignReturns(i, signed) => SignReturnsAdvances(cfg, st, i, signed);
    case Write(i, complete) => WriteAdvances(st, i, complete);
    case Cancel(i) => CancelAdvances(st, i);
  }

  function AllRemaining(conns: seq<Conn>): nat {
    if conns == [] then 0 else Remaining(conns[0].phase) + AllRemaining(conns[1..])
  }

  lemma {:induction false} AllRemainingUpdate(conns: seq<Conn>, i: nat, c: Conn)
    requires i < |conns|
    ensures AllRemaining(conns[i := c]) + Remaining(conns[i].phase) == AllRemaining(conns) + Remaining(c.phase)
    decreases i
  {
    hide Remaining;
    if i == 0 {
      assert conns[0 := c][1..] == conns[1..];
    } else {
      AllRemainingUpdate(conns[1..], i - 1, c);
      assert conns[i := c][1..] == conns[1..][i - 1 := c];
    }
  }

  /** At most six steps for each task still running. */
  lemma {:induction false} AllRemainingBound(conns: seq<Conn>)
    ensures AllRemaining(conns) <= 6 * |conns|
    ensures AllRemaining(conns) == 0 <==> forall i :: 0 <= i < |conns| ==> conns[i].phase.Done?
    decreases |conns|
  {
    hide Remaining;
    if conns != [] {
      AllRemainingBound(conns[1..]);
      assert forall i :: 1 <= i < |conns| ==> conns[i] == conns[1..][i - 1];
    }
  }
}
