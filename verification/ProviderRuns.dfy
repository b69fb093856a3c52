/** The lock, the semaphores, and the theorems over every schedule of the provider. */
module ProviderRuns {
  import opened Bytes
  import opened Sequences
  import opened Fingerprint
  import opened Signatures
  import opened NxsgCodec
  import opened Provider
  import opened ProviderSteps
  import opened ProviderSafety

  // --------------------------------------------------------------------------- the lock

  /** The writer is the one task in the critical section, and a task about to store still
      finds the pin empty. */
  predicate Locking(st: State) {
    && (st.writer.Some? ==> st.writer.value < |st.conns|)
    && (forall i :: 0 <= i < |st.conns| ==> (HoldsLock(st.conns[i]) <==> st.writer == Some(i)))
    && (forall i :: 0 <= i < |st.conns| && st.conns[i].phase.DescribeStoring? ==> st.pin.None?)
  }

  lemma {:induction false} TaskKeepsLocking(st: State, st': State, i: nat)
    requires Locking(st) && TaskStep(st, st', i)
    ensures Locking(st') && (st.pin.Some? ==> st'.pin == st.pin)
  {
    hide PermitsMove;
  }

  lemma {:induction false} StepLocking(cfg: Config, st: State, a: Action)
    requires Locking(st) && Enabled(st, a)
    ensures Locking(Apply(cfg, st, a)) && Continues(st, Apply(cfg, st, a))
  {
    hide Apply;
    match a
    case Accept => AcceptLocking(cfg, st);
    case Shutdown => ShutdownLocking(cfg, st);
    case _ =>
      EveryTaskSteps(cfg, st, a);
      TaskKeepsLocking(st, Apply(cfg, st, a), a.conn);
  }

  lemma {:induction false} AcceptLocking(cfg: Config, st: State)
    requires Locking(st) && Enabled(st, Accept)
    ensures Locking(Apply(cfg, st, Accept)) && Continues(st, Apply(cfg, st, Accept))
  {
  }

  lemma {:induction false} ShutdownLocking(cfg: Config, st: State)
    requires Locking(st)
    ensures Locking(Apply(cfg, st, Shutdown)) && Continues(st, Apply(cfg, st, Shutdown))
  {
  }

  // --------------------------------------------------------------------- the semaphores

  /** Every permit is free or held by exactly one task. */
  predicate Permits(st: State) {
    && st.freeConnections + Count(HoldsConnection, st.conns) == MAX_CONNECTIONS
    && st.freeOverload + Count(HoldsOverload, st.conns) == OVERLOAD_SLOTS
    && st.freeSigns + Count(HoldsSign, st.conns) == MAX_SIGNS
  }

  lemma {:induction false} TaskConserves(st: State, st': State, i: nat)
    requires Permits(st) && TaskStep(st, st', i)
    ensures Permits(st')
  {
    hide HoldsConnection, HoldsOverload, HoldsSign, Count, LockMoves;
    var c := st'.conns[i];
    CountUpdate(HoldsConnection, st.conns, i, c);
    CountUpdate(HoldsOverload, st.conns, i, c);
    CountUpdate(HoldsSign, st.conns, i, c);
  }

  lemma {:induction false} AcceptConserves(st: State)
    requires Permits(st)
    ensures Permits(ApplyAccept(st))
  {
    hide Count;
    var c := ApplyAccept(st).conns[|st.conns|];
    CountSnoc(HoldsConnection, st.conns, c);
    CountSnoc(HoldsOverload, st.conns, c);
    CountSnoc(HoldsSign, st.conns, c);
  }

  lemma {:induction false} StepPermits(cfg: Config, st: State, a: Action)
    requires Permits(st) && Enabled(st, a)
    ensures Permits(Apply(cfg, st, a))
  {
    hide Permits, TaskStep;
    if OfTask(a) {
      EveryTaskSteps(cfg, st, a);
      TaskConserves(st, Apply(cfg, st, a), a.conn);
    } else if a.Accept? {
      AcceptConserves(st);
    } else {
      SameConserves(st, st.(stopping := true));
    }
  }

  lemma SameConserves(st: State, st': State)
    requires Permits(st) && st' == st.(stopping := st'.stopping)
    ensures Permits(st')
  {
    hide Count;
  }

  // ------------------------------------------------------------------------- every run

  predicate Safe(cfg: Config, st: State) {
    Good(cfg, st.pin, st.conns, st.rpcs, st.sent) && Locking(st) && Permits(st)
  }

  lemma {:induction false} StepGood(cfg: Config, st: State, a: Action)
    requires ValidConfig(cfg) && Good(cfg, st.pin, st.conns, st.rpcs, st.sent) && Locking(st) && Enabled(st, a)
    ensures var st' := Apply(cfg, st, a); Good(cfg, st'.pin, st'.conns, st'.rpcs, st'.sent)
  {
    hide Good, ApplyReceive, ApplyDescribeReturns, ApplyComparePin, ApplyStorePin, ApplyReadPin, ApplyAdmitSign,
         ApplySignReturns, ApplyWrite, ValidConfig;
    match a
    case Accept => AcceptGood(cfg, st);
    case Shutdown =>
    case Receive(i, input) => ReceiveGood(cfg, st, i, input);
    case TurnAway(i) => CancelGood(cfg, st, i);
    case DescribeReturns(i, described) => DescribeReturnsGood(cfg, st, i, described);
    case LockPin(i) => LockPinGood(cfg, st, i);
    case ComparePin(i) => ComparePinGood(cfg, st, i);
    case StorePin(i) => StorePinGood(cfg, st, i);
    case ReadPin(i) => ReadPinGood(cfg, st, i);
    case AdmitSign(i) => AdmitSignGood(cfg, st, i);
    case SignReturns(i, signed) => SignReturnsGood(cfg, st, i, signed);
    case Write(i, complete) => WriteGood(cfg, st, i, complete);
    case Cancel(i) => CancelGood(cfg, st, i);
  }

  lemma AcceptGood(cfg: Config, st: State)
    requires Good(cfg, st.pin, st.conns, st.rpcs, st.sent)
    ensures Good(cfg, st.pin, ApplyAccept(st).conns, st.rpcs, st.sent)
  {
    hide Good;
    ConnArrives(cfg, st.pin, st.conns, st.rpcs, st.sent, ApplyAccept(st).conns[|st.conns|]);
  }

  lemma LockPinGood(cfg: Config, st: State, i: nat)
    requires Good(cfg, st.pin, st.conns, st.rpcs, st.sent) && Enabled(st, LockPin(i))
    ensures Good(cfg, st.pin, Apply(cfg, st, LockPin(i)).conns, st.rpcs, st.sent)
  {
    hide Good, FromRequest, ValidIdentity;
    KnownConn(cfg, st.pin, st.conns, st.rpcs, st.sent, i);
    ConnMoves(cfg, st.pin, st.conns, st.rpcs, st.sent, i, Apply(cfg, st, LockPin(i)).conns[i]);
  }

  /** What a later state keeps of an earlier one. */
  predicate Continues(st: State, st': State) {
    && (st.pin.Some? ==> st'.pin == st.pin)
    && st.rpcs <= st'.rpcs && st.sent <= st'.sent && |st.conns| <= |st'.conns|
    && (st.stopping ==> st'.stopping && |st'.conns| == |st.conns|)
  }

  /** Every schedule from a safe state stays safe, keeps the pin and only extends the logs. */
  lemma {:induction false} RunIsSafe(cfg: Config, st: State, schedule: seq<Action>)
    requires ValidConfig(cfg) && Safe(cfg, st) && Run(cfg, st, schedule).Some?
    ensures Safe(cfg, Run(cfg, st, schedule).value)
    ensures Continues(st, Run(cfg, st, schedule).value)
    decreases |schedule|
  {
    hide Good, Locking, Permits, Apply, Enabled, ValidConfig;
    if schedule != [] {
      StepGood(cfg, st, schedule[0]);
      StepLocking(cfg, st, schedule[0]);
      StepPermits(cfg, st, schedule[0]);
      RunIsSafe(cfg, Apply(cfg, st, schedule[0]), schedule[1..]);
    }
  }

  lemma InitIsSafe(cfg: Config)
    ensures Safe(cfg, INIT)
  {
    CountNone(HoldsConnection, INIT.conns);
    CountNone(HoldsOverload, INIT.conns);
    CountNone(HoldsSign, INIT.conns);
  }

  predicate Reachable(cfg: Config, schedule: seq<Action>, st: State) {
    ValidConfig(cfg) && Run(cfg, INIT, schedule) == Some(st)
  }

  /** The identity pin over a listener's whole life: once set, it is set for good, it was
      validated, every OK frame speaks for it, and every Sign RPC was made for it. */
  lemma {:induction false} PinOverRuns(cfg: Config, schedule: seq<Action>, st: State, more: seq<Action>, later: State)
    requires Reachable(cfg, schedule, st) && Run(cfg, st, more) == Some(later)
    ensures st.pin.Some? ==> later.pin == st.pin && ValidIdentity(st.pin.value, cfg.validKey)
    ensures forall k :: 0 <= k < |later.sent| && later.sent[k].status == StatusOk ==>
              && later.pin.Some? && later.sent[k].conn < |later.conns|
              && SpeaksFor(cfg, later.pin.value, later.conns[later.sent[k].conn].input, later.sent[k].body)
    ensures forall k :: 0 <= k < |later.rpcs| ==> RpcOk(cfg, later.pin, later.conns, later.rpcs[k])
  {
    hide Run, SpeaksFor, RpcOk, ValidIdentity, Truthful, Echoes, ConnOk, Locking, Permits;
    InitIsSafe(cfg);
    RunIsSafe(cfg, INIT, schedule);
    RunIsSafe(cfg, st, more);
  }

  /** Every written frame tells the truth about its length, answers the request its connection
      sent, and gives a status that request explains; a connection gets at most one frame. */
  lemma {:induction false} FramesOverRuns(cfg: Config, schedule: seq<Action>, st: State)
    requires Reachable(cfg, schedule, st)
    ensures OncePerConn(st.sent)
    ensures forall k :: 0 <= k < |st.sent| ==>
              && st.sent[k].conn < |st.conns|
              && Truthful(st.sent[k].frame, st.sent[k].context, st.sent[k].status, st.sent[k].body)
              && Echoes(st.conns[st.sent[k].conn].input, st.sent[k].context)
              && Explained(cfg, st.sent[k].pinned, st.conns[st.sent[k].conn].input, st.sent[k].status)
              && (st.sent[k].pinned.Some? ==> st.pin == st.sent[k].pinned)
  {
    hide Run, SpeaksFor, RpcOk, PinOk, Truthful, Echoes, Explained, ConnOk, Locking, Permits;
    InitIsSafe(cfg);
    RunIsSafe(cfg, INIT, schedule);
  }

  /** Admission: a stream is dropped exactly when 32 handlers and the overload responder are
      busy, and goes to the responder exactly when only the handlers are. */
  lemma {:induction false} AdmissionOverRuns(cfg: Config, schedule: seq<Action>, st: State)
    requires Reachable(cfg, schedule, st) && Enabled(st, Accept)
    ensures var c := Apply(cfg, st, Accept).conns[|st.conns|];
            && (c.role.Handler? <==> Count(HoldsConnection, st.conns) < MAX_CONNECTIONS)
            && (c.role.Discarded? <==>
                Count(HoldsConnection, st.conns) == MAX_CONNECTIONS && Count(HoldsOverload, st.conns) == 1)
    ensures Count(HoldsConnection, st.conns) <= MAX_CONNECTIONS && Count(HoldsOverload, st.conns) <= 1
    ensures Count(HoldsSign, st.conns) <= MAX_SIGNS
  {
    hide Run, Good, Locking, Count;
    InitIsSafe(cfg);
    RunIsSafe(cfg, INIT, schedule);
  }

  /** When every task is over, by whatever road, every permit is back and the lock is free. */
  lemma {:induction false} PermitsComeBack(cfg: Config, schedule: seq<Action>, st: State)
    requires Reachable(cfg, schedule, st) && forall i :: 0 <= i < |st.conns| ==> st.conns[i].phase.Done?
    ensures st.freeConnections == MAX_CONNECTIONS && st.freeSigns == MAX_SIGNS && st.freeOverload == OVERLOAD_SLOTS
    ensures st.writer.None?
  {
    hide Run, Safe;
    InitIsSafe(cfg);
    RunIsSafe(cfg, INIT, schedule);
    AllOver(cfg, st);
  }

  /** Nothing but steps of tasks already there. */
  predicate OnlyTasks(schedule: seq<Action>) {
    forall a :: a in schedule ==> OfTask(a)
  }

  lemma {:induction false} TasksRunOut(cfg: Config, st: State, more: seq<Action>)
    requires OnlyTasks(more) && Run(cfg, st, more).Some?
    ensures var later := Run(cfg, st, more).value;
            |later.conns| == |st.conns| && |more| + AllRemaining(later.conns) <= AllRemaining(st.conns)
    decreases |more|
  {
    hide Apply, Enabled, AllRemaining, Remaining;
    if more != [] {
      var a := more[0];
      var next := Apply(cfg, st, a);
      assert a in more;
      EveryTaskSteps(cfg, st, a);
      EveryTaskAdvances(cfg, st, a);
      AllRemainingUpdate(st.conns, a.conn, next.conns[a.conn]);
      TasksRunOut(cfg, next, more[1..]);
    }
  }

  /** Shutdown at any point of any run: the aborted tasks may take further steps in any order, but
      no stream is accepted and no more than six steps are left for each; as long as one is not
      over some step is possible; and when all are over, however they got there, every permit and
      the lock are free. */
  lemma {:induction false} ShutdownOverRuns(cfg: Config, schedule: seq<Action>, st: State, more: seq<Action>,
                                            later: State)
    requires Reachable(cfg, schedule, st) && st.stopping && OnlyTasks(more) && Run(cfg, st, more) == Some(later)
    ensures !Enabled(later, Accept) && |later.conns| == |st.conns| && |more| <= 6 * |st.conns|
    ensures (exists i :: Enabled(later, Cancel(i))) <==>
            exists i :: 0 <= i < |later.conns| && !later.conns[i].phase.Done?
    ensures (forall i :: 0 <= i < |later.conns| ==> later.conns[i].phase.Done?) ==>
              && later.freeConnections == MAX_CONNECTIONS && later.freeSigns == MAX_SIGNS
              && later.freeOverload == OVERLOAD_SLOTS && later.writer.None?
  {
    hide Run, Good, Locking, Permits, AllRemaining;
    InitIsSafe(cfg);
    RunIsSafe(cfg, INIT, schedule);
    RunIsSafe(cfg, st, more);
    TasksRunOut(cfg, st, more);
    AllRemainingBound(st.conns);
    SomeCancel(later);
    if forall i :: 0 <= i < |later.conns| ==> later.conns[i].phase.Done? {
      AllOver(cfg, later);
    }
  }

  lemma SomeCancel(st: State)
    ensures (exists i :: Enabled(st, Cancel(i))) <==> exists i :: 0 <= i < |st.conns| && !st.conns[i].phase.Done?
  {
    if i :| 0 <= i < |st.conns| && !st.conns[i].phase.Done? {
      assert Enabled(st, Cancel(i));
    }
  }

  lemma AllOver(cfg: Config, st: State)
    requires Safe(cfg, st) && forall i :: 0 <= i < |st.conns| ==> st.conns[i].phase.Done?
    ensures st.freeConnections == MAX_CONNECTIONS && st.freeSigns == MAX_SIGNS && st.freeOverload == OVERLOAD_SLOTS
    ensures st.writer.None?
  {
    hide Good;
    CountNone(HoldsConnection, st.conns);
    CountNone(HoldsOverload, st.conns);
    CountNone(HoldsSign, st.conns);
  }
}
