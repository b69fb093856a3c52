/** The audit trail of every batch, however it ends, and the correlation of its RPCs. */
module BatchTrail {
  import opened Bytes
  import opened Narinfo
  import opened Fingerprint
  import opened Signatures
  import opened SigningTarget
  import opened Audit
  import opened Batch

  // -------------------------------------------------------------------- the counters

  function Accounted(counts: Counts): nat {
    counts.durableCommits + counts.untouched + counts.previewChanges
  }

  function Observed(counts: Counts): nat {
    counts.produced + counts.reused
  }

  /** Counters a job never moves. */
  predicate JobCounts(job: Job, counts: Counts) {
    match job
    case Signing(_, _, _) => counts.previewChanges == 0 && counts.installed == counts.durableCommits
    case Removing(_) => counts.previewChanges == 0 && Observed(counts) == 0 && counts.installed == 0
    case Previewing(_, _) => counts.durableCommits == 0 && Observed(counts) == 0 && counts.installed == 0
  }

  /** The trail after `n` finished records. */
  predicate Balanced(job: Job, audit: State, n: nat) {
    && Open(audit)
    && audit.counts.selected <= MAX_SELECTED
    && JobCounts(job, audit.counts)
    && Accounted(audit.counts) == n
    && (job.Signing? ==> Observed(audit.counts) == n)
  }

  /** The trail of a run that stopped at record `n`. */
  predicate Interrupted(job: Job, audit: State, n: nat) {
    && Open(audit)
    && audit.counts.selected <= MAX_SELECTED
    && JobCounts(job, audit.counts)
    && n <= Accounted(audit.counts) <= n + 1
    && (job.Signing? ==> n <= Observed(audit.counts) <= n + 1)
  }

  lemma {:induction false} SignTargetAudit(c: Crypto, st: BatchState, job: Job, target: Target, env: StepEnv)
    requires job.Signing? && Observed(st.audit.counts) < USIZE_MAX
    ensures var (st', r) := SignTarget(c, st, job, target, env);
            && st'.audit.events == st.audit.events && st'.audit.header == st.audit.header
            && st'.audit.terminal == st.audit.terminal
            && st'.audit.counts == st.audit.counts.(produced := st'.audit.counts.produced,
                                                    reused := st'.audit.counts.reused)
            && Observed(st.audit.counts) <= Observed(st'.audit.counts) <= Observed(st.audit.counts) + 1
            && (r.Success? ==> Observed(st'.audit.counts) == Observed(st.audit.counts) + 1)
  {
    hide SignTarget;
  }

  /** What recording one outcome adds to the counters. */
  lemma {:induction false} RecordAccounts(st: BatchState, outcome: Outcome, installed: bool, outputOk: bool)
    requires Open(st.audit) && Accounted(st.audit.counts) < USIZE_MAX
    requires st.audit.counts.installed <= st.audit.counts.durableCommits
    ensures var (st', halt) := RecordOutcome(st, outcome, installed, outputOk);
            && Open(st'.audit)
            && st'.audit.counts == st.audit.counts.(durableCommits := st'.audit.counts.durableCommits,
                                                    untouched := st'.audit.counts.untouched,
                                                    installed := st'.audit.counts.installed)
            && Accounted(st'.audit.counts) == Accounted(st.audit.counts) + (if outcome.commit.Uncertain? then 0 else 1)
            && st'.audit.counts.installed - st.audit.counts.installed
               == (if installed then st'.audit.counts.durableCommits - st.audit.counts.durableCommits else 0)
            && (halt.None? ==> !outcome.commit.Uncertain?)
  {
  }

  lemma {:induction false} SigningStepBalance(c: Crypto, st: BatchState, job: Job, target: Target, env: StepEnv, n: nat)
    requires job.Signing? && Balanced(job, st.audit, n) && n < st.audit.counts.selected && env.checkpoint.Pass?
    ensures var (st', halt) := Step(c, st, job, target, env);
            && st'.audit.counts.selected == st.audit.counts.selected
            && if halt.None? then Balanced(job, st'.audit, n + 1) else Interrupted(job, st'.audit, n)
  {
    hide SignTarget, RecordOutcome, SignatureObserved;
    SignTargetAudit(c, st, job, target, env);
    var (after, r) := SignTarget(c, st, job, target, env);
    if r.Success? {
      RecordAccounts(after, r.value, true, env.outputOk);
    }
  }

  lemma {:induction false} RemovingStepBalance(c: Crypto, st: BatchState, job: Job, target: Target, env: StepEnv,
                                               n: nat)
    requires job.Removing? && Balanced(job, st.audit, n) && n < st.audit.counts.selected && env.checkpoint.Pass?
    ensures var (st', halt) := Step(c, st, job, target, env);
            && st'.audit.counts.selected == st.audit.counts.selected
            && if halt.None? then Balanced(job, st'.audit, n + 1) else Interrupted(job, st'.audit, n)
  {
    hide RemoveTarget, RecordOutcome;
    var (after, r) := RemoveTarget(st, job.keyNames, target, env);
    if r.Success? {
      RecordAccounts(after, r.value, false, env.outputOk);
    }
  }

  lemma {:induction false} StepBalance(c: Crypto, st: BatchState, job: Job, target: Target, env: StepEnv, n: nat)
    requires Balanced(job, st.audit, n) && n < st.audit.counts.selected
    ensures var (st', halt) := Step(c, st, job, target, env);
            && st'.audit.counts.selected == st.audit.counts.selected
            && if halt.None? then Balanced(job, st'.audit, n + 1) else Interrupted(job, st'.audit, n)
  {
    hide SignTarget, RemoveTarget, RecordOutcome, FingerprintOf, ValidateForMutation, Preview;
    if env.checkpoint.Pass? {
      match job
      case Signing(_, _, _) => SigningStepBalance(c, st, job, target, env, n);
      case Removing(_) => RemovingStepBalance(c, st, job, target, env, n);
      case Previewing(_, _) =>
    }
  }

  lemma {:induction false} RunBalance(c: Crypto, st: BatchState, job: Job, targets: seq<Target>, envs: seq<StepEnv>,
                                      n: nat)
    requires |envs| == |targets| && Balanced(job, st.audit, n) && n + |targets| == st.audit.counts.selected
    ensures var (st', halt) := RunTargets(c, st, job, targets, envs);
            && st'.audit.counts.selected == st.audit.counts.selected
            && if halt.None? then Balanced(job, st'.audit, n + |targets|)
               else exists m :: n <= m < n + |targets| && Interrupted(job, st'.audit, m)
    decreases |targets|
  {
    hide Step, Balanced, Interrupted;
    if targets != [] {
      BalancedSelected(job, st.audit, n);
      StepBalance(c, st, job, targets[0], envs[0], n);
      var (after, halt) := Step(c, st, job, targets[0], envs[0]);
      if halt.None? {
        RunBalance(c, after, job, targets[1..], envs[1..], n + 1);
      }
    }
  }

  lemma {:induction false} BalancedSelected(job: Job, audit: State, n: nat)
    requires Balanced(job, audit, n)
    ensures audit.counts.selected <= MAX_SELECTED && Open(audit)
  {
  }

  /** The terminal event tells how the command ended. */
  ghost predicate EndsAs(how: Ending, halt: Option<Halt>) {
    && (how == Completed <==> halt.None?)
    && (forall reason :: how == Failed(reason) <==> halt == Some(HaltFailed(reason)))
    && (forall signal :: how == CancelledBy(signal) <==> halt == Some(HaltCancelled(Signalled(signal))))
    && (how == TaskCancelled <==> halt == Some(HaltDropped) || halt == Some(HaltCancelled(TaskGone)))
  }

  /** What a finished command's trail promises. */
  ghost predicate Truthful(audit: State, halt: Option<Halt>) {
    && Closed(audit)
    && EndsAs(audit.events[|audit.events| - 1].body.how, halt)
    && Accounted(audit.counts) <= audit.counts.selected
    && (audit.header.dryRun ==> audit.counts.durableCommits == 0 && |audit.events| == 2)
    && (halt.None? ==>
          && Accounted(audit.counts) == audit.counts.selected
          && (!audit.header.dryRun && audit.header.op != OpRemove ==>
                && Observed(audit.counts) == audit.counts.selected
                && audit.counts.installed == audit.counts.durableCommits))
  }

  lemma {:induction false} CloseTruthfully(audit: State, halt: Option<Halt>)
    requires Open(audit) && Accounted(audit.counts) <= audit.counts.selected
    requires audit.header.dryRun ==> audit.counts.durableCommits == 0
    requires halt.None? ==> Accounted(audit.counts) == audit.counts.selected
    requires halt.None? && !audit.header.dryRun && audit.header.op != OpRemove ==>
               Observed(audit.counts) == audit.counts.selected && audit.counts.installed == audit.counts.durableCommits
    ensures Truthful(CloseAudit(audit, halt), halt)
  {
    EndCloses(audit, Completed);
    match halt
    case None =>
    case Some(HaltFailed(reason)) => EndCloses(audit, Failed(reason));
    case Some(HaltCancelled(Signalled(name))) => EndCloses(audit, CancelledBy(name));
    case Some(HaltCancelled(TaskGone)) => EndCloses(audit, TaskCancelled);
    case Some(HaltDropped) => DropCloses(audit); EndCloses(audit, TaskCancelled);
  }

  /** The trail as a batch loop finds it. */
  predicate Fresh(audit: State) {
    Open(audit) && audit.counts == Counts(0, 0, 0, 0, 0, 0, 0)
  }

  predicate Matches(job: Job, header: Header) {
    match job
    case Signing(_, _, _) => !header.dryRun && header.op != OpRemove
    case Removing(_) => !header.dryRun && header.op == OpRemove
    case Previewing(_, _) => header.dryRun
  }

  lemma {:induction false} LoopIsTruthful(c: Crypto, st: BatchState, job: Job, targets: seq<Target>, envs: seq<StepEnv>,
                                          last: Checkpoint)
    requires |envs| == |targets| <= MAX_SELECTED && Fresh(st.audit) && Matches(job, st.audit.header)
    ensures var (st', halt) := RunLoop(c, st, job, targets, envs, last);
            Truthful(st'.audit, halt)
  {
    hide RunTargets, CloseAudit, Truthful;
    var selected := st.(audit := SetSelected(st.audit, |targets|));
    RunBalance(c, selected, job, targets, envs, 0);
    var (after, halt) := RunTargets(c, selected, job, targets, envs);
    CloseTruthfully(after.audit, if halt.Some? then halt else CheckpointHalt(last));
  }

  lemma {:induction false} EarlyStopIsTruthful(audit: State, halt: Halt)
    requires Fresh(audit)
    ensures Truthful(CloseAudit(audit, Some(halt)), Some(halt))
  {
    hide *;
    FreshIsEmpty(audit);
    CloseTruthfully(audit, Some(halt));
  }

  lemma {:induction false} FreshIsEmpty(audit: State)
    requires Fresh(audit)
    ensures Open(audit) && Accounted(audit.counts) == 0 == audit.counts.selected && audit.counts.durableCommits == 0
  {
    hide Open;
  }

  /** Every sign or replace command that starts its audit leaves a truthful trail. */
  lemma {:induction false} SigningTrail(c: Crypto, cache: map<ByteString, ByteString>, command: Command,
                                        env: CommandEnv)
    requires WellFormedEnv(env) && command.op != OpRemove
    requires RunConnected(c, cache, command, env).Some?
    ensures var (st, halt) := RunConnected(c, cache, command, env).value;
            Truthful(st.audit, halt)
  {
    hide RunLoop, Truthful, FreshId;
    var batchId := FreshId(env.batchDraws, {}).value;
    var audit := Start(command.op, batchId, command.dryRun, command.selectAll, Some(command.keyId));
    var st := BatchState(cache, {batchId}, audit, []);
    forall s: BatchState, halt: Halt | Fresh(s.audit)
      ensures Truthful(StopEarly(s, halt).0.audit, Some(halt))
    {
      EarlyStopIsTruthful(s.audit, halt);
    }
    var describeId := FreshId(env.describeDraws, st.used);
    if env.argumentsOk && describeId.Some? && env.describe.Described? && env.selection.Some? {
      var identity := env.describe.identity;
      var known := BatchState(cache, {batchId} + {describeId.value},
                              SetIdentity(audit, identity.keyName, identity.backendVersion),
                              [] + [DescribeCall(batchId, describeId.value)]);
      var job := if command.dryRun then Previewing(OperationOf(command.oldNames), identity)
                 else Signing(batchId, identity, command.oldNames);
      LoopIsTruthful(c, known, job, env.selection.value, env.steps, env.last);
    }
  }

  /** So does every remove command. */
  lemma {:induction false} RemoveTrail(c: Crypto, cache: map<ByteString, ByteString>, names: seq<ByteString>,
                                       dryRun: bool, selectAll: bool, env: CommandEnv, first: Checkpoint)
    requires WellFormedEnv(env)
    requires RunRemove(c, cache, names, dryRun, selectAll, env, first).Some?
    ensures var (st, halt) := RunRemove(c, cache, names, dryRun, selectAll, env, first).value;
            Truthful(st.audit, halt)
  {
    hide RunLoop, Truthful, FreshId;
    var batchId := FreshId(env.batchDraws, {}).value;
    var st := BatchState(cache, {batchId}, Start(OpRemove, batchId, dryRun, selectAll, None), []);
    forall halt: Halt
      ensures Truthful(StopEarly(st, halt).0.audit, Some(halt))
    {
      EarlyStopIsTruthful(st.audit, halt);
    }
    if env.selection.Some? {
      var job := if dryRun then Previewing(RemoveKeys(names), Identity([], [], 0)) else Removing(names);
      LoopIsTruthful(c, st, job, env.selection.value, env.steps, env.last);
    }
  }

  // --------------------------------------------------------------- correlation IDs

  /** The request IDs of a batch are fresh, nonzero and pairwise distinct, differ from the
      batch ID, and travel with it. */
  ghost predicate Correlated(st: BatchState, batchId: Id) {
    && batchId in st.used
    && (forall k :: 0 <= k < |st.calls| ==>
          && st.calls[k].batchId == batchId
          && st.calls[k].requestId in st.used
          && st.calls[k].requestId != batchId && st.calls[k].requestId != ZERO_ID)
    && (forall j, k :: 0 <= j < k < |st.calls| ==> st.calls[j].requestId != st.calls[k].requestId)
  }

  /** A path commit names the Sign RPC that produced its signature, made over the same
      fingerprint; a reused signature names none. */
  ghost predicate AnsweredBy(calls: seq<Rpc>, body: Body) {
    body.PathCommit? ==>
      if body.source == ProducedNow then
        && body.requestId.Some? && body.fingerprint.Some?
        && exists k :: 0 <= k < |calls| && calls[k].SignCall?
             && calls[k].requestId == body.requestId.value && calls[k].fingerprint == body.fingerprint.value
      else body.requestId.None?
  }

  ghost predicate CommitsAnswered(st: BatchState) {
    forall i :: 0 <= i < |st.audit.events| ==> AnsweredBy(st.calls, st.audit.events[i].body)
  }

  lemma {:induction false} AnsweredLater(calls: seq<Rpc>, more: seq<Rpc>, body: Body)
    requires AnsweredBy(calls, body)
    ensures AnsweredBy(calls + more, body)
  {
    if body.PathCommit? && body.source == ProducedNow {
      var k :| 0 <= k < |calls| && calls[k].SignCall?
               && calls[k].requestId == body.requestId.value && calls[k].fingerprint == body.fingerprint.value;
      assert (calls + more)[k] == calls[k];
    }
  }

  /** What signing one record adds to the log, and what it tells about it. */
  lemma {:induction false} SignTargetCalls(c: Crypto, st: BatchState, job: Job, target: Target, env: StepEnv)
    requires job.Signing?
    ensures var (st', r) := SignTarget(c, st, job, target, env);
            && st'.audit.events == st.audit.events
            && st.used <= st'.used
            && (st'.calls == st.calls
                || exists id: Id, fingerprint: ByteString ::
                     && id !in st.used && id in st'.used && id != ZERO_ID
                     && st'.calls == st.calls + [SignCall(job.batchId, id, target.relative, fingerprint)])
            && (r.Success? ==> AnsweredBy(st'.calls, PathCommit(r.value.storePath, Some(r.value.fingerprint),
                                                               r.value.requestId, r.value.source, true)))
  {
    hide Decide, EditWith, FingerprintOf, StorePathOf, CommitRecord, SignatureValue, FreshId;
    var (st', r) := SignTarget(c, st, job, target, env);
    if st'.calls != st.calls {
      var fingerprint := FingerprintOf(st.cache[target.relative], target).value;
      var id := FreshId(env.draws, st.used).value;
      assert st'.calls == st.calls + [SignCall(job.batchId, id, target.relative, fingerprint)];
      assert st'.calls[|st.calls|] == SignCall(job.batchId, id, target.relative, fingerprint);
    }
  }

  lemma {:induction false} AppendCall(st: BatchState, st': BatchState, batchId: Id, call: Rpc)
    requires Correlated(st, batchId) && st.used <= st'.used
    requires call.batchId == batchId && call.requestId !in st.used && call.requestId in st'.used
             && call.requestId != ZERO_ID
    requires st'.calls == st.calls + [call]
    ensures Correlated(st', batchId)
  {
  }

  lemma {:induction false} StepCorrelated(c: Crypto, st: BatchState, job: Job, target: Target, env: StepEnv,
                                          batchId: Id)
    requires Correlated(st, batchId) && CommitsAnswered(st)
    requires job.Signing? ==> job.batchId == batchId
    ensures var st' := Step(c, st, job, target, env).0;
            Correlated(st', batchId) && CommitsAnswered(st')
  {
    hide SignTarget, EditWith, Decide, RealRemove, FingerprintOf, StorePathOf, CommitRecord, Preview, AnsweredBy,
         Correlated;
    var st' := Step(c, st, job, target, env).0;
    if job.Signing? && env.checkpoint.Pass? {
      SignTargetCalls(c, st, job, target, env);
      var (after, r) := SignTarget(c, st, job, target, env);
      assert CommitsAnswered(after) && Correlated(after, batchId) by {
        if after.calls != st.calls {
          var id: Id, fingerprint: ByteString :| id !in st.used && id in after.used && id != ZERO_ID
            && after.calls == st.calls + [SignCall(job.batchId, id, target.relative, fingerprint)];
          var call := SignCall(job.batchId, id, target.relative, fingerprint);
          AppendCall(st, after, batchId, call);
          forall i | 0 <= i < |after.audit.events|
            ensures AnsweredBy(after.calls, after.audit.events[i].body)
          {
            AnsweredLater(st.calls, [call], st.audit.events[i].body);
          }
        } else {
          MoreUsed(st, after, batchId);
        }
      }
      CorrelatedByLog(after, st', batchId);
    } else {
      CorrelatedByLog(st, st', batchId);
      NoSignatureCommit(c, st, job, target, env);
    }
  }

  lemma {:induction false} MoreUsed(st: BatchState, st': BatchState, batchId: Id)
    requires Correlated(st, batchId) && st'.calls == st.calls && st.used <= st'.used
    ensures Correlated(st', batchId)
  {
  }

  lemma {:induction false} CorrelatedByLog(st: BatchState, st': BatchState, batchId: Id)
    requires Correlated(st, batchId) && st'.calls == st.calls && st'.used == st.used
    ensures Correlated(st', batchId)
  {
  }

  lemma {:induction false} NoSignatureCommit(c: Crypto, st: BatchState, job: Job, target: Target, env: StepEnv)
    requires CommitsAnswered(st) && (!job.Signing? || !env.checkpoint.Pass?)
    ensures CommitsAnswered(Step(c, st, job, target, env).0)
  {
    hide SignTarget, RealRemove, StorePathOf, CommitRecord, Preview;
    var st' := Step(c, st, job, target, env).0;
    forall i | 0 <= i < |st'.audit.events|
      ensures AnsweredBy(st'.calls, st'.audit.events[i].body)
    {
      if i < |st.audit.events| {
        assert st'.audit.events[i] == st.audit.events[i];
      }
    }
  }

  lemma {:induction false} RunCorrelated(c: Crypto, st: BatchState, job: Job, targets: seq<Target>, envs: seq<StepEnv>,
                                         batchId: Id)
    requires |envs| == |targets| && Correlated(st, batchId) && CommitsAnswered(st)
    requires job.Signing? ==> job.batchId == batchId
    ensures var st' := RunTargets(c, st, job, targets, envs).0;
            Correlated(st', batchId) && CommitsAnswered(st')
    decreases |targets|
  {
    hide Step, Correlated, CommitsAnswered;
    if targets != [] {
      StepCorrelated(c, st, job, targets[0], envs[0], batchId);
      var (after, halt) := Step(c, st, job, targets[0], envs[0]);
      if halt.None? {
        RunCorrelated(c, after, job, targets[1..], envs[1..], batchId);
      }
    }
  }

  lemma {:induction false} CloseKeepsAnswers(st: BatchState, halt: Option<Halt>)
    requires CommitsAnswered(st)
    ensures CommitsAnswered(st.(audit := CloseAudit(st.audit, halt)))
  {
    hide AnsweredBy;
    var closed := CloseAudit(st.audit, halt);
    forall i | 0 <= i < |closed.events|
      ensures AnsweredBy(st.calls, closed.events[i].body)
    {
      if i < |st.audit.events| {
        assert closed.events[i] == st.audit.events[i];
      } else {
        EndAnswered(st.calls, closed.events[i].body);
      }
    }
  }

  lemma {:induction false} EndAnswered(calls: seq<Rpc>, body: Body)
    requires !body.PathCommit?
    ensures AnsweredBy(calls, body)
  {
  }

  lemma {:induction false} LoopCorrelated(c: Crypto, st: BatchState, job: Job, targets: seq<Target>, envs: seq<StepEnv>,
                                          last: Checkpoint, batchId: Id)
    requires |envs| == |targets| && Correlated(st, batchId) && CommitsAnswered(st)
    requires job.Signing? ==> job.batchId == batchId
    ensures var st' := RunLoop(c, st, job, targets, envs, last).0;
            Correlated(st', batchId) && CommitsAnswered(st')
  {
    hide RunTargets, CloseAudit, Correlated, AnsweredBy;
    var selected := st.(audit := SetSelected(st.audit, |targets|));
    CorrelatedByLog(st, selected, batchId);
    RunCorrelated(c, selected, job, targets, envs, batchId);
    var (after, halt) := RunTargets(c, selected, job, targets, envs);
    CloseKeepsAnswers(after, if halt.Some? then halt else CheckpointHalt(last));
    CorrelatedByLog(after, RunLoop(c, st, job, targets, envs, last).0, batchId);
  }

  /** In every sign or replace command: one nonzero batch ID on every RPC and every event,
      pairwise distinct request IDs, and path commits that name their RPC. */
  lemma {:induction false} CommandCorrelated(c: Crypto, cache: map<ByteString, ByteString>, command: Command,
                                             env: CommandEnv)
    requires WellFormedEnv(env) && command.op != OpRemove
    requires RunConnected(c, cache, command, env).Some?
    ensures var st := RunConnected(c, cache, command, env).value.0;
            var batchId := st.audit.header.batchId;
            && batchId != ZERO_ID
            && Correlated(st, batchId) && CommitsAnswered(st)
            && forall i :: 0 <= i < |st.audit.events| ==> st.audit.events[i].header.batchId == batchId
  {
    hide RunLoop, FreshId, Correlated, CommitsAnswered, CloseAudit;
    var batchId := FreshId(env.batchDraws, {}).value;
    var audit := Start(command.op, batchId, command.dryRun, command.selectAll, Some(command.keyId));
    var st := BatchState(cache, {batchId}, audit, []);
    SigningTrail(c, cache, command, env);
    assert Correlated(st, batchId) && CommitsAnswered(st) by { StartCorrelated(st, batchId); }
    forall s: BatchState, halt: Halt | Correlated(s, batchId) && CommitsAnswered(s)
      ensures Correlated(StopEarly(s, halt).0, batchId) && CommitsAnswered(StopEarly(s, halt).0)
    {
      CloseKeepsAnswers(s, Some(halt));
      CorrelatedByLog(s, StopEarly(s, halt).0, batchId);
    }
    var describeId := FreshId(env.describeDraws, st.used);
    if env.argumentsOk && describeId.Some? {
      var call := DescribeCall(batchId, describeId.value);
      var claimed := st.(used := st.used + {describeId.value});
      var sent := claimed.(calls := st.calls + [call]);
      MoreUsed(st, claimed, batchId);
      AppendCall(st, sent, batchId, call);
      SameEvents(st, claimed);
      SameEvents(st, sent);
      if env.describe.Described? {
        var identity := env.describe.identity;
        var known := sent.(audit := SetIdentity(audit, identity.keyName, identity.backendVersion));
        SameEvents(st, known);
        CorrelatedByLog(sent, known, batchId);
        if env.selection.Some? {
          var job := if command.dryRun then Previewing(OperationOf(command.oldNames), identity)
                     else Signing(batchId, identity, command.oldNames);
          LoopCorrelated(c, known, job, env.selection.value, env.steps, env.last, batchId);
        }
      }
    }
    HeaderKept(c, cache, command, env);
  }

  lemma {:induction false} StartCorrelated(st: BatchState, batchId: Id)
    requires batchId in st.used && st.calls == []
    requires forall i :: 0 <= i < |st.audit.events| ==> !st.audit.events[i].body.PathCommit?
    ensures Correlated(st, batchId) && CommitsAnswered(st)
  {
  }

  /** Only the start event is there yet, so any log answers it. */
  lemma {:induction false} SameEvents(st: BatchState, st': BatchState)
    requires st'.audit.events == st.audit.events
    requires forall i :: 0 <= i < |st.audit.events| ==> !st.audit.events[i].body.PathCommit?
    ensures CommitsAnswered(st')
  {
  }

  lemma {:induction false} HeaderKept(c: Crypto, cache: map<ByteString, ByteString>, command: Command, env: CommandEnv)
    requires WellFormedEnv(env) && RunConnected(c, cache, command, env).Some?
    ensures RunConnected(c, cache, command, env).value.0.audit.header.batchId == FreshId(env.batchDraws, {}).value
  {
    hide RunTargets, FreshId;
  }
}
