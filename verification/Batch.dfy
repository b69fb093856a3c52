/** The cache mutation batches as functions of the cache and of everything the environment
    may do at each step: cancellation, dropped futures, I/O, RPC replies and randomness. */
module Batch {
  import opened Bytes
  import opened Narinfo
  import opened Fingerprint
  import opened Signatures
  import opened SigningTarget
  import opened Audit

  const ID_ATTEMPTS: nat := 8
  const ZERO_ID: Id := [0, 0, 0, 0, 0, 0, 0, 0, 0, 0, 0, 0, 0, 0, 0, 0]
  const MAX_SELECTED: nat := 65_536

  // ------------------------------------------------------------------ environment

  datatype Cancellation = Signalled(name: string) | TaskGone

  /** What an await point that races with cancellation comes to. */
  datatype Checkpoint = Pass | CancelledHere(reason: Cancellation) | DroppedHere

  datatype SignRpc =
    | CancelledBeforeSend(reason: Cancellation)
    | CancelledInFlight(reason: Cancellation)
    | DroppedInFlight
    | RpcFailed
    | Replied(key: Identity, signature: ByteString)

  /** What the file system does with a replacement: an error before the rename, a durable
      rename, or a rename whose directory sync failed. */
  datatype CommitFault = FailsBefore(error: FileError) | Durable | SyncFails

  datatype StepEnv = StepEnv(
    checkpoint: Checkpoint, readable: bool, draws: seq<Id>, rpc: SignRpc, commit: CommitFault, outputOk: bool)

  // ------------------------------------------------------------------------ state

  datatype Rpc =
    | DescribeCall(batchId: Id, requestId: Id)
    | SignCall(batchId: Id, requestId: Id, relative: ByteString, fingerprint: ByteString)

  datatype BatchState = BatchState(cache: map<ByteString, ByteString>, used: set<Id>, audit: State, calls: seq<Rpc>)

  datatype Halt = HaltFailed(reason: string) | HaltCancelled(cause: Cancellation) | HaltDropped

  /** What a batch does to each record. */
  datatype Job =
    | Signing(batchId: Id, identity: Identity, oldNames: Option<seq<ByteString>>)
    | Removing(keyNames: seq<ByteString>)
    | Previewing(operation: Operation, asIdentity: Identity)

  datatype Commit = NoChange | Written | Uncertain

  datatype Outcome = Outcome(commit: Commit, storePath: ByteString, fingerprint: ByteString,
                             requestId: Option<Id>, source: SignatureSource)

  const OPERATION_FAILED: Halt := HaltFailed("operation_failed")
  const OUTPUT_FAILED: Halt := HaltFailed("output_failed")

  /** The first acceptable draw among the bounded number of attempts. */
  function FreshId(draws: seq<Id>, excluded: set<Id>): (r: Option<Id>)
    ensures r.Some? ==> r.value != ZERO_ID && r.value !in excluded
  {
    FirstFresh(if |draws| <= ID_ATTEMPTS then draws else draws[..ID_ATTEMPTS], excluded)
  }

  function FirstFresh(draws: seq<Id>, excluded: set<Id>): (r: Option<Id>)
    ensures r.Some? ==> r.value != ZERO_ID && r.value !in excluded
  {
    if draws == [] then None
    else if draws[0] != ZERO_ID && draws[0] !in excluded then Some(draws[0])
    else FirstFresh(draws[1..], excluded)
  }

  /** `commit_narinfo`: all or nothing. */
  function CommitRecord(cache: map<ByteString, ByteString>, relative: ByteString, expected: ByteString,
                        replacement: ByteString, fault: CommitFault): (r: (map<ByteString, ByteString>, Option<Commit>))
  {
    if |replacement| > MAX_NARINFO_BYTES || !ValidNarinfo(replacement) then (cache, None)
    else if relative !in cache || cache[relative] != expected then (cache, None)
    else if replacement == expected then (cache, Some(NoChange))
    else
      match fault
      case FailsBefore(_) => (cache, None)
      case Durable => (cache[relative := replacement], Some(Written))
      case SyncFails => (cache[relative := replacement], Some(Uncertain))
  }

  function StorePathOf(bytes: ByteString): (r: ByteString) {
    match ExactlyOne(bytes, STORE_PATH) case Found(path) => path case _ => []
  }

  /** Edit with a chosen signature value and commit. */
  function InstallSignature(st: BatchState, target: Target, bytes: ByteString, oldNames: Option<seq<ByteString>>,
                            value: ByteString, fingerprint: ByteString, requestId: Option<Id>, source: SignatureSource,
                            env: StepEnv): (r: (BatchState, Result<Outcome, Halt>))
    ensures r.0.audit == SignatureObserved(st.audit, source) && r.0.calls == st.calls && r.0.used == st.used
  {
    var observed := st.(audit := SignatureObserved(st.audit, source));
    match EditWith(bytes, oldNames, value)
    case Failure(_) => (observed, Failure(OPERATION_FAILED))
    case Success(Unchanged) =>
      (observed, Success(Outcome(NoChange, StorePathOf(bytes), fingerprint, requestId, source)))
    case Success(Changed(replacement)) =>
      var (cache, commit) := CommitRecord(st.cache, target.relative, bytes, replacement, env.commit);
      if commit.None? then (observed, Failure(OPERATION_FAILED))
      else (observed.(cache := cache),
            Success(Outcome(commit.value, StorePathOf(bytes), fingerprint, requestId, source)))
  }

  /** `sign_and_verify`: a fresh request ID, one RPC, and the checks on its reply. */
  function SignAndVerify(c: Crypto, st: BatchState, job: Job, target: Target, fingerprint: ByteString, env: StepEnv)
    : (r: (BatchState, Result<(ByteString, Id), Halt>))
    requires job.Signing?
    ensures r.0.audit == st.audit && r.0.cache == st.cache
  {
    match FreshId(env.draws, st.used)
    case None => (st, Failure(OPERATION_FAILED))
    case Some(requestId) =>
      var claimed := st.(used := st.used + {requestId});
      var sent := claimed.(calls := st.calls + [SignCall(job.batchId, requestId, target.relative, fingerprint)]);
      match env.rpc
      case CancelledBeforeSend(reason) => (claimed, Failure(HaltCancelled(reason)))
      case CancelledInFlight(reason) => (sent, Failure(HaltCancelled(reason)))
      case DroppedInFlight => (sent, Failure(HaltDropped))
      case RpcFailed => (sent, Failure(OPERATION_FAILED))
      case Replied(key, signature) =>
        if key != job.identity || |signature| != SIGNATURE_LEN
           || !c.verify(job.identity.publicKey, fingerprint, signature)
        then (sent, Failure(OPERATION_FAILED))
        else (sent, Success((SignatureValue(c, job.identity, signature), requestId)))
  }

  /** `mutate_signing_target`. */
  function SignTarget(c: Crypto, st: BatchState, job: Job, target: Target, env: StepEnv)
    : (r: (BatchState, Result<Outcome, Halt>))
    requires job.Signing?
    ensures r.0.audit == st.audit
            || r.0.audit == SignatureObserved(st.audit, Reused) || r.0.audit == SignatureObserved(st.audit, ProducedNow)
    ensures r.1.Success? ==>
            r.1.value.source != NotApplicable && r.0.audit == SignatureObserved(st.audit, r.1.value.source)
  {
    if !env.readable || target.relative !in st.cache then (st, Failure(OPERATION_FAILED))
    else
      var bytes := st.cache[target.relative];
      match Decide(c, bytes, target, job.identity, job.oldNames)
      case Failure(_) => (st, Failure(OPERATION_FAILED))
      case Success(decision) =>
        var fingerprint := FingerprintOf(bytes, target).value;
        match decision
        case LeaveAlone =>
          (st.(audit := SignatureObserved(st.audit, Reused)),
           Success(Outcome(NoChange, StorePathOf(bytes), fingerprint, None, Reused)))
        case UseExisting(value) =>
          InstallSignature(st, target, bytes, job.oldNames, value, fingerprint, None, Reused, env)
        case NeedSignature =>
          var (signed, reply) := SignAndVerify(c, st, job, target, fingerprint, env);
          match reply
          case Failure(halt) => (signed, Failure(halt))
          case Success((value, requestId)) =>
            InstallSignature(signed, target, bytes, job.oldNames, value, fingerprint, Some(requestId), ProducedNow, env)
  }

  /** The body of the removal loop, up to the commit. */
  function RemoveTarget(st: BatchState, names: seq<ByteString>, target: Target, env: StepEnv)
    : (r: (BatchState, Result<Outcome, Halt>))
    ensures r.0.audit == st.audit && r.0.calls == st.calls && r.0.used == st.used
  {
    if !env.readable || target.relative !in st.cache then (st, Failure(OPERATION_FAILED))
    else
      var bytes := st.cache[target.relative];
      match RealRemove(bytes, target, names)
      case Failure(_) => (st, Failure(OPERATION_FAILED))
      case Success(Unchanged) => (st, Success(Outcome(NoChange, StorePathOf(bytes), [], None, NotApplicable)))
      case Success(Changed(replacement)) =>
        var (cache, commit) := CommitRecord(st.cache, target.relative, bytes, replacement, env.commit);
        if commit.None? then (st, Failure(OPERATION_FAILED))
        else (st.(cache := cache), Success(Outcome(commit.value, StorePathOf(bytes), [], None, NotApplicable)))
  }

  /** The audit entry and the output line for a committed record. */
  function RecordOutcome(st: BatchState, outcome: Outcome, installed: bool, outputOk: bool)
    : (r: (BatchState, Option<Halt>))
    ensures r.0.cache == st.cache && r.0.calls == st.calls && r.0.used == st.used
    ensures r.0.audit.header == st.audit.header
  {
    var audit := match outcome.commit
      case NoChange => CountUnchanged(st.audit)
      case Written =>
        DurableCommit(st.audit, PathCommit(outcome.storePath, if installed then Some(outcome.fingerprint) else None,
                                           outcome.requestId, outcome.source, installed))
      case Uncertain => st.audit;
    (st.(audit := audit),
     if outcome.commit.Uncertain? then Some(OPERATION_FAILED) else if outputOk then None else Some(OUTPUT_FAILED))
  }

  /** One preview: counted, never written. */
  function PreviewTarget(c: Crypto, st: BatchState, job: Job, target: Target, env: StepEnv)
    : (r: (BatchState, Option<Halt>))
    requires job.Previewing?
    ensures r.0 == st.(audit := r.0.audit) && r.0.audit.events == st.audit.events && r.0.audit.header == st.audit.header
  {
    if !env.readable || target.relative !in st.cache then (st, Some(OPERATION_FAILED))
    else
      match Preview(c, st.cache[target.relative], target, job.asIdentity, job.operation)
      case Refused(_) => (st, Some(OPERATION_FAILED))
      case WouldNotChange =>
        (st.(audit := CountUnchanged(st.audit)), if env.outputOk then None else Some(OPERATION_FAILED))
      case WouldChange =>
        (st.(audit := PreviewChange(st.audit)), if env.outputOk then None else Some(OPERATION_FAILED))
  }

  /** One turn of a batch loop: the checkpoint, then the record. */
  function Step(c: Crypto, st: BatchState, job: Job, target: Target, env: StepEnv): (r: (BatchState, Option<Halt>))
    ensures r.0.audit.header == st.audit.header
  {
    hide SignTarget, RemoveTarget, PreviewTarget, RecordOutcome;
    match env.checkpoint
    case CancelledHere(reason) => (st, Some(HaltCancelled(reason)))
    case DroppedHere => (st, Some(HaltDropped))
    case Pass =>
      match job
      case Previewing(_, _) => PreviewTarget(c, st, job, target, env)
      case Signing(_, _, _) => (
        match SignTarget(c, st, job, target, env)
        case (after, Failure(halt)) => (after, Some(halt))
        case (after, Success(outcome)) => RecordOutcome(after, outcome, true, env.outputOk))
      case Removing(names) =>
        match RemoveTarget(st, names, target, env)
        case (after, Failure(halt)) => (after, Some(halt))
        case (after, Success(outcome)) => RecordOutcome(after, outcome, false, env.outputOk)
  }

  /** The batch loop over the remaining targets. */
  function RunTargets(c: Crypto, st: BatchState, job: Job, targets: seq<Target>, envs: seq<StepEnv>)
    : (r: (BatchState, Option<Halt>))
    requires |envs| == |targets|
    ensures r.0.audit.header == st.audit.header
    decreases |targets|
  {
    if targets == [] then (st, None)
    else
      var (after, halt) := Step(c, st, job, targets[0], envs[0]);
      if halt.Some? then (after, halt) else RunTargets(c, after, job, targets[1..], envs[1..])
  }

  /** The terminal event of a loop that stopped, or of one that ran to the last checkpoint. */
  function CloseAudit(audit: State, halt: Option<Halt>): (r: State) {
    match halt
    case None => End(audit, Completed)
    case Some(HaltFailed(reason)) => End(audit, Failed(reason))
    case Some(HaltCancelled(Signalled(name))) => End(audit, CancelledBy(name))
    case Some(HaltCancelled(TaskGone)) => End(audit, TaskCancelled)
    case Some(HaltDropped) => Drop(audit)
  }

  function CheckpointHalt(checkpoint: Checkpoint): (r: Option<Halt>) {
    match checkpoint
    case Pass => None
    case CancelledHere(reason) => Some(HaltCancelled(reason))
    case DroppedHere => Some(HaltDropped)
  }

  /** The loop, its last checkpoint, and the terminal event. */
  function RunLoop(c: Crypto, st: BatchState, job: Job, targets: seq<Target>, envs: seq<StepEnv>, last: Checkpoint)
    : (r: (BatchState, Option<Halt>))
    requires |envs| == |targets|
  {
    var selected := st.(audit := SetSelected(st.audit, |targets|));
    var (after, halt) := RunTargets(c, selected, job, targets, envs);
    var ending := if halt.Some? then halt else CheckpointHalt(last);
    (after.(audit := CloseAudit(after.audit, ending)), ending)
  }

  // ------------------------------------------------------------------- whole commands

  /** What an await that can fail, be cancelled or be dropped comes to. */
  datatype Gate = Opened | GateFailed | GateCancelled(reason: Cancellation) | GateDropped

  datatype DescribeRpc =
    | DescribeCancelledBeforeSend(reason: Cancellation)
    | DescribeCancelledInFlight(reason: Cancellation)
    | DescribeDropped
    | DescribeFailed
    | Described(identity: Identity)

  datatype Command = Command(op: MutationOp, keyId: ByteString, oldNames: Option<seq<ByteString>>,
                             dryRun: bool, selectAll: bool)

  /** `argumentsOk` is the outcome of the checks on key names, confirmation and selection. */
  datatype CommandEnv = CommandEnv(
    batchDraws: seq<Id>, connect: Gate, argumentsOk: bool, describeDraws: seq<Id>, describe: DescribeRpc,
    root: Gate, selection: Option<seq<Target>>, steps: seq<StepEnv>, last: Checkpoint)

  function GateHalt(gate: Gate, reason: string): (r: Option<Halt>) {
    match gate
    case Opened => None
    case GateFailed => Some(HaltFailed(reason))
    case GateCancelled(cause) => Some(HaltCancelled(cause))
    case GateDropped => Some(HaltDropped)
  }

  /** End the audit of a batch that stopped before its loop. */
  function StopEarly(st: BatchState, halt: Halt): (r: (BatchState, Option<Halt>)) {
    (st.(audit := CloseAudit(st.audit, Some(halt))), Some(halt))
  }

  predicate WellFormedEnv(env: CommandEnv) {
    env.selection.Some? ==> |env.steps| == |env.selection.value| <= MAX_SELECTED
  }

  /** The part of a sign or replace command after the connection is up. */
  function RunSigning(c: Crypto, st: BatchState, command: Command, batchId: Id, env: CommandEnv)
    : (r: (BatchState, Option<Halt>))
    requires WellFormedEnv(env)
  {
    if !env.argumentsOk then StopEarly(st, OPERATION_FAILED)
    else
      match FreshId(env.describeDraws, st.used)
      case None => StopEarly(st, OPERATION_FAILED)
      case Some(describeId) =>
        var claimed := st.(used := st.used + {describeId});
        var sent := claimed.(calls := st.calls + [DescribeCall(batchId, describeId)]);
        match env.describe
        case DescribeCancelledBeforeSend(reason) => StopEarly(claimed, HaltCancelled(reason))
        case DescribeCancelledInFlight(reason) => StopEarly(sent, HaltCancelled(reason))
        case DescribeDropped => StopEarly(sent, HaltDropped)
        case DescribeFailed => StopEarly(sent, OPERATION_FAILED)
        case Described(identity) =>
          var known := sent.(audit := SetIdentity(sent.audit, identity.keyName, identity.backendVersion));
          var closed := GateHalt(env.root, "operation_failed");
          if closed.Some? then StopEarly(known, closed.value)
          else if env.selection.None? then StopEarly(known, OPERATION_FAILED)
          else
            var job := if command.dryRun then Previewing(OperationOf(command.oldNames), identity)
                       else Signing(batchId, identity, command.oldNames);
            RunLoop(c, known, job, env.selection.value, env.steps, env.last)
  }

  /** `run_connected_with`: `None` when no batch ID could be drawn and no audit was started. */
  function RunConnected(c: Crypto, cache: map<ByteString, ByteString>, command: Command, env: CommandEnv)
    : (r: Option<(BatchState, Option<Halt>)>)
    requires WellFormedEnv(env)
  {
    match FreshId(env.batchDraws, {})
    case None => None
    case Some(batchId) =>
      var st := BatchState(cache, {batchId},
                           Start(command.op, batchId, command.dryRun, command.selectAll, Some(command.keyId)), []);
      var closed := GateHalt(env.connect, "connect_failed");
      Some(if closed.Some? then StopEarly(st, closed.value) else RunSigning(c, st, command, batchId, env))
  }

  /** `run_remove_audited_with`: its arguments are checked before the audit starts. */
  function RunRemove(c: Crypto, cache: map<ByteString, ByteString>, names: seq<ByteString>, dryRun: bool,
                     selectAll: bool, env: CommandEnv, first: Checkpoint): (r: Option<(BatchState, Option<Halt>)>)
    requires WellFormedEnv(env)
  {
    if !env.argumentsOk then None
    else
      match FreshId(env.batchDraws, {})
      case None => None
      case Some(batchId) =>
        var st := BatchState(cache, {batchId}, Start(OpRemove, batchId, dryRun, selectAll, None), []);
        var early := CheckpointHalt(first);
        var closed := GateHalt(env.root, "operation_failed");
        Some(if early.Some? then StopEarly(st, early.value)
             else if closed.Some? then StopEarly(st, closed.value)
             else if env.selection.None? then StopEarly(st, OPERATION_FAILED)
             else
               var job := if dryRun then Previewing(RemoveKeys(names), Identity([], [], 0)) else Removing(names);
               RunLoop(c, st, job, env.selection.value, env.steps, env.last))
  }
}
