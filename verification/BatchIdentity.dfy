/** Whose key the events of a batch name. */
module BatchIdentity {
  import opened Bytes
  import opened Signatures
  import opened SigningTarget
  import opened Audit
  import opened Batch

  /** Every event after the start carries the header as it is now. */
  predicate Carried(audit: State) {
    |audit.events| >= 1 && forall i :: 1 <= i < |audit.events| ==> audit.events[i].header == audit.header
  }

  /** The trail goes on: same header, same events so far, at most one more under that header. */
  predicate GoesOn(audit: State, audit': State) {
    && audit'.header == audit.header
    && (|| audit'.events == audit.events
        || (&& |audit'.events| == |audit.events| + 1
            && audit'.events == audit.events + [audit'.events[|audit.events|]]
            && audit'.events[|audit.events|].header == audit.header))
  }

  lemma {:induction false} GoesOnCarries(audit: State, audit': State)
    requires Carried(audit) && GoesOn(audit, audit')
    ensures Carried(audit') && audit'.events[0] == audit.events[0]
  {
  }

  lemma {:induction false} StepGoesOn(c: Crypto, st: BatchState, job: Job, target: Target, env: StepEnv)
    ensures GoesOn(st.audit, Step(c, st, job, target, env).0.audit)
  {
    hide SignTarget, RemoveTarget, PreviewTarget, FingerprintOf;
  }

  lemma {:induction false} CloseGoesOn(audit: State, halt: Option<Halt>)
    ensures GoesOn(audit, CloseAudit(audit, halt))
  {
  }

  lemma {:induction false} RunCarries(c: Crypto, st: BatchState, job: Job, targets: seq<Target>, envs: seq<StepEnv>)
    requires |envs| == |targets| && Carried(st.audit)
    ensures var audit := RunTargets(c, st, job, targets, envs).0.audit;
            Carried(audit) && audit.header == st.audit.header && audit.events[0] == st.audit.events[0]
    decreases |targets|
  {
    hide Step;
    if targets != [] {
      StepGoesOn(c, st, job, targets[0], envs[0]);
      var (after, halt) := Step(c, st, job, targets[0], envs[0]);
      GoesOnCarries(st.audit, after.audit);
      if halt.None? {
        RunCarries(c, after, job, targets[1..], envs[1..]);
      }
    }
  }

  lemma {:induction false} LoopCarries(c: Crypto, st: BatchState, job: Job, targets: seq<Target>, envs: seq<StepEnv>,
                                       last: Checkpoint)
    requires |envs| == |targets| && Carried(st.audit)
    ensures var audit := RunLoop(c, st, job, targets, envs, last).0.audit;
            Carried(audit) && audit.header == st.audit.header && audit.events[0] == st.audit.events[0]
  {
    hide RunTargets, CloseAudit;
    var selected := st.(audit := SetSelected(st.audit, |targets|));
    RunCarries(c, selected, job, targets, envs);
    var (after, halt) := RunTargets(c, selected, job, targets, envs);
    var ending := if halt.Some? then halt else CheckpointHalt(last);
    CloseGoesOn(after.audit, ending);
    GoesOnCarries(after.audit, CloseAudit(after.audit, ending));
  }

  lemma {:induction false} StopCarries(st: BatchState, halt: Halt)
    requires Carried(st.audit)
    ensures var audit := StopEarly(st, halt).0.audit;
            Carried(audit) && audit.header == st.audit.header && audit.events[0] == st.audit.events[0]
  {
    hide CloseAudit;
    CloseGoesOn(st.audit, Some(halt));
    GoesOnCarries(st.audit, CloseAudit(st.audit, Some(halt)));
  }

  /** The key an event names: the described one, or none. */
  predicate Names(header: Header, described: Option<Identity>) {
    match described
    case None => header.keyName.None? && header.backendVersion.None?
    case Some(identity) =>
      header.keyName == Some(identity.keyName) && header.backendVersion == Some(identity.backendVersion)
  }

  /** An event says which command it belongs to. */
  predicate Describes(header: Header, command: Command) {
    && header.op == command.op && header.dryRun == command.dryRun && header.selectAll == command.selectAll
    && header.keyId == Some(command.keyId)
  }

  /** The identity a command learnt: its describe call went out and was answered. */
  function Learnt(st: BatchState, env: CommandEnv): (r: Option<Identity>) {
    if st.calls != [] && env.describe.Described? then Some(env.describe.identity) else None
  }

  lemma {:induction false} SigningNames(c: Crypto, st: BatchState, command: Command, batchId: Id, env: CommandEnv)
    requires WellFormedEnv(env) && Carried(st.audit) && Names(st.audit.header, None) && st.calls == []
    requires |st.audit.events| == 1
    ensures var st' := RunSigning(c, st, command, batchId, env).0;
            && Carried(st'.audit) && Names(st'.audit.header, Learnt(st', env))
            && st'.audit.events[0] == st.audit.events[0]
            && (Describes(st.audit.header, command) ==> Describes(st'.audit.header, command))
  {
    hide RunLoop, FreshId, StopEarly;
    forall s: BatchState, halt: Halt | Carried(s.audit)
      ensures Carried(StopEarly(s, halt).0.audit) && StopEarly(s, halt).0.audit.header == s.audit.header
      ensures StopEarly(s, halt).0.audit.events[0] == s.audit.events[0] && StopEarly(s, halt).0.calls == s.calls
    {
      StopCarries(s, halt);
      StopCalls(s, halt);
    }
    var describeId := FreshId(env.describeDraws, st.used);
    if env.argumentsOk && describeId.Some? && env.describe.Described? {
      var identity := env.describe.identity;
      var call := DescribeCall(batchId, describeId.value);
      var sent := st.(used := st.used + {describeId.value}, calls := st.calls + [call]);
      var known := sent.(audit := SetIdentity(sent.audit, identity.keyName, identity.backendVersion));
      assert Carried(known.audit);
      if env.selection.Some? {
        var job := if command.dryRun then Previewing(OperationOf(command.oldNames), identity)
                   else Signing(batchId, identity, command.oldNames);
        LoopCarries(c, known, job, env.selection.value, env.steps, env.last);
        LoopCalls(c, known, job, env.selection.value, env.steps, env.last);
      }
    }
  }

  lemma StopCalls(st: BatchState, halt: Halt)
    ensures StopEarly(st, halt).0.calls == st.calls
  {
  }

  lemma {:induction false} StepCalls(c: Crypto, st: BatchState, job: Job, target: Target, env: StepEnv)
    requires st.calls != []
    ensures Step(c, st, job, target, env).0.calls != []
  {
    hide PreviewTarget, FingerprintOf, Decide, InstallSignature, FreshId, StorePathOf, RecordOutcome, RemoveTarget,
         SignatureObserved, SignatureValue;
  }

  lemma {:induction false} RunCallsMade(c: Crypto, st: BatchState, job: Job, targets: seq<Target>, envs: seq<StepEnv>)
    requires |envs| == |targets| && st.calls != []
    ensures RunTargets(c, st, job, targets, envs).0.calls != []
    decreases |targets|
  {
    hide Step;
    if targets != [] {
      StepCalls(c, st, job, targets[0], envs[0]);
      var (after, halt) := Step(c, st, job, targets[0], envs[0]);
      if halt.None? {
        RunCallsMade(c, after, job, targets[1..], envs[1..]);
      }
    }
  }

  lemma {:induction false} LoopCalls(c: Crypto, st: BatchState, job: Job, targets: seq<Target>, envs: seq<StepEnv>,
                                     last: Checkpoint)
    requires |envs| == |targets| && st.calls != []
    ensures RunLoop(c, st, job, targets, envs, last).0.calls != []
  {
    hide RunTargets, CloseAudit;
    RunCallsMade(c, st.(audit := SetSelected(st.audit, |targets|)), job, targets, envs);
  }

  /** In every sign or replace command, however it ends: the start event names no key; if the
      describe call was answered, every later event carries the described key name and backend
      version; and if it was not, no event names a key. */
  lemma {:induction false} EventsNameDescribedKey(c: Crypto, cache: map<ByteString, ByteString>, command: Command,
                                                  env: CommandEnv)
    requires WellFormedEnv(env) && RunConnected(c, cache, command, env).Some?
    ensures var st := RunConnected(c, cache, command, env).value.0;
            && |st.audit.events| >= 1 && Names(st.audit.events[0].header, None)
            && (forall i :: 1 <= i < |st.audit.events| ==> Names(st.audit.events[i].header, Learnt(st, env)))
            && forall i :: 0 <= i < |st.audit.events| ==> Describes(st.audit.events[i].header, command)
  {
    hide RunSigning, FreshId, StopEarly;
    var batchId := FreshId(env.batchDraws, {}).value;
    var audit := Start(command.op, batchId, command.dryRun, command.selectAll, Some(command.keyId));
    var st := BatchState(cache, {batchId}, audit, []);
    SigningNames(c, st, command, batchId, env);
    var closed := GateHalt(env.connect, "connect_failed");
    if closed.Some? {
      StopCarries(st, closed.value);
      StopCalls(st, closed.value);
    }
  }
}
