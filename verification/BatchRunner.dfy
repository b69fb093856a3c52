/** The batch as the program runs it: an object that owns the cache root, the identifiers
    already spent and the audit, and loops over the selected records. */
module BatchRunner {
  import opened Bytes
  import opened Narinfo
  import opened Signatures
  import opened SigningTarget
  import opened Audit
  import opened Batch

  /** `fresh_id`: the first acceptable draw, or none after the bounded number of attempts. */
  method DrawFreshId(draws: seq<Id>, excluded: set<Id>) returns (r: Option<Id>)
    ensures r == FreshId(draws, excluded)
  {
    var attempts := if |draws| <= ID_ATTEMPTS then draws else draws[..ID_ATTEMPTS];
    var i := 0;
    while i < |attempts|
      invariant 0 <= i <= |attempts|
      invariant FirstFresh(attempts, excluded) == FirstFresh(attempts[i..], excluded)
    {
      if attempts[i] != ZERO_ID && attempts[i] !in excluded {
        return Some(attempts[i]);
      }
      assert attempts[i..][1..] == attempts[i + 1..];
      i := i + 1;
    }
    r := None;
  }

  class Runner {
    const crypto: Crypto
    const audit: BatchAudit
    var cache: map<ByteString, ByteString>
    var used: set<Id>
    var calls: seq<Rpc>

    constructor (crypto: Crypto, audit: BatchAudit, cache: map<ByteString, ByteString>, batchId: Id)
      ensures this.crypto == crypto && this.audit == audit
      ensures Value() == BatchState(cache, {batchId}, audit.Value(), [])
    {
      this.crypto, this.audit := crypto, audit;
      this.cache, used, calls := cache, {batchId}, [];
    }

    function Value(): BatchState
      reads this, audit
    {
      BatchState(cache, used, audit.Value(), calls)
    }

    /** Replace a record if it still holds the bytes the edit was computed from. */
    method Commit(relative: ByteString, expected: ByteString, replacement: ByteString, fault: CommitFault)
      returns (r: Option<Batch.Commit>)
      modifies this`cache
      ensures (cache, r) == CommitRecord(old(cache), relative, expected, replacement, fault)
      ensures cache.Keys == old(cache.Keys)
      ensures forall other :: other in cache && other != relative ==> cache[other] == old(cache)[other]
      ensures cache == old(cache) || (old(cache)[relative] == expected && cache[relative] == replacement)
    {
      if |replacement| > MAX_NARINFO_BYTES || !ValidNarinfo(replacement) { return None; }
      if relative !in cache || cache[relative] != expected { return None; }
      if replacement == expected { return Some(NoChange); }
      match fault
      case FailsBefore(_) => r := None;
      case Durable => cache := cache[relative := replacement]; r := Some(Written);
      case SyncFails => cache := cache[relative := replacement]; r := Some(Uncertain);
    }

    method Install(target: Target, bytes: ByteString, oldNames: Option<seq<ByteString>>, value: ByteString,
                   fingerprint: ByteString, requestId: Option<Id>, source: SignatureSource, env: StepEnv)
      returns (r: Result<Outcome, Halt>)
      modifies this, audit
      ensures (Value(), r) == InstallSignature(old(Value()), target, bytes, oldNames, value, fingerprint, requestId,
                                               source, env)
    {
      hide CommitRecord, EditWith, SignatureObserved, StorePathOf;
      audit.RecordSignature(source);
      var edit := EditWith(bytes, oldNames, value);
      match edit
      case Failure(_) => r := Failure(OPERATION_FAILED);
      case Success(Unchanged) => r := Success(Outcome(NoChange, StorePathOf(bytes), fingerprint, requestId, source));
      case Success(Changed(replacement)) =>
        var commit := Commit(target.relative, bytes, replacement, env.commit);
        CommitKeeps(old(cache), target.relative, bytes, replacement, env.commit);
        r := if commit.None? then Failure(OPERATION_FAILED)
             else Success(Outcome(commit.value, StorePathOf(bytes), fingerprint, requestId, source));
    }

    method RequestSignature(job: Job, target: Target, fingerprint: ByteString, env: StepEnv)
      returns (r: Result<(ByteString, Id), Halt>)
      requires job.Signing?
      modifies this`used, this`calls
      ensures (Value(), r) == SignAndVerify(crypto, old(Value()), job, target, fingerprint, env)
    {
      hide FreshId, SignatureValue;
      var drawn := DrawFreshId(env.draws, used);
      if drawn.None? { return Failure(OPERATION_FAILED); }
      used := used + {drawn.value};
      if env.rpc.CancelledBeforeSend? { return Failure(HaltCancelled(env.rpc.reason)); }
      calls := calls + [SignCall(job.batchId, drawn.value, target.relative, fingerprint)];
      match env.rpc
      case CancelledInFlight(reason) => r := Failure(HaltCancelled(reason));
      case DroppedInFlight => r := Failure(HaltDropped);
      case RpcFailed => r := Failure(OPERATION_FAILED);
      case Replied(key, signature) =>
        if key != job.identity || |signature| != SIGNATURE_LEN
           || !crypto.verify(job.identity.publicKey, fingerprint, signature) {
          return Failure(OPERATION_FAILED);
        }
        r := Success((SignatureValue(crypto, job.identity, signature), drawn.value));
    }

    method Sign(job: Job, target: Target, env: StepEnv) returns (r: Result<Outcome, Halt>)
      requires job.Signing?
      modifies this, audit
      ensures (Value(), r) == SignTarget(crypto, old(Value()), job, target, env)
    {
      hide Decide, FingerprintOf, InstallSignature, SignAndVerify, SignatureObserved, StorePathOf;
      if !env.readable || target.relative !in cache { return Failure(OPERATION_FAILED); }
      var bytes := cache[target.relative];
      var decision := Decide(crypto, bytes, target, job.identity, job.oldNames);
      if decision.Failure? { return Failure(OPERATION_FAILED); }
      var fingerprint := FingerprintOf(bytes, target).value;
      match decision.value
      case LeaveAlone =>
        audit.RecordSignature(Reused);
        r := Success(Outcome(NoChange, StorePathOf(bytes), fingerprint, None, Reused));
      case UseExisting(value) =>
        r := Install(target, bytes, job.oldNames, value, fingerprint, None, Reused, env);
      case NeedSignature =>
        var reply := RequestSignature(job, target, fingerprint, env);
        if reply.Failure? { return Failure(reply.error); }
        r := Install(target, bytes, job.oldNames, reply.value.0, fingerprint, Some(reply.value.1), ProducedNow, env);
    }

    method Remove(names: seq<ByteString>, target: Target, env: StepEnv) returns (r: Result<Outcome, Halt>)
      modifies this`cache
      ensures (Value(), r) == RemoveTarget(old(Value()), names, target, env)
    {
      hide RealRemove, CommitRecord, StorePathOf;
      if !env.readable || target.relative !in cache { return Failure(OPERATION_FAILED); }
      var bytes := cache[target.relative];
      var edit := RealRemove(bytes, target, names);
      match edit
      case Failure(_) => r := Failure(OPERATION_FAILED);
      case Success(Unchanged) => r := Success(Outcome(NoChange, StorePathOf(bytes), [], None, NotApplicable));
      case Success(Changed(replacement)) =>
        var commit := Commit(target.relative, bytes, replacement, env.commit);
        CommitKeeps(old(cache), target.relative, bytes, replacement, env.commit);
        r := if commit.None? then Failure(OPERATION_FAILED)
             else Success(Outcome(commit.value, StorePathOf(bytes), [], None, NotApplicable));
    }

    method Record(outcome: Outcome, installed: bool, outputOk: bool) returns (halt: Option<Halt>)
      modifies this, audit
      ensures (Value(), halt) == RecordOutcome(old(Value()), outcome, installed, outputOk)
    {
      hide CountUnchanged, DurableCommit;
      match outcome.commit {
        case NoChange => audit.RecordUnchanged();
        case Written =>
          audit.RecordCommit(outcome.storePath, if installed then Some(outcome.fingerprint) else None,
                             outcome.requestId, outcome.source, installed);
        case Uncertain => return Some(OPERATION_FAILED);
      }
      halt := if outputOk then None else Some(OUTPUT_FAILED);
    }

    method PreviewRecord(job: Job, target: Target, env: StepEnv) returns (halt: Option<Halt>)
      requires job.Previewing?
      modifies audit
      ensures (Value(), halt) == PreviewTarget(crypto, old(Value()), job, target, env)
    {
      hide Preview, CountUnchanged, PreviewChange;
      if !env.readable || target.relative !in cache { return Some(OPERATION_FAILED); }
      var outcome := Preview(crypto, cache[target.relative], target, job.asIdentity, job.operation);
      match outcome {
        case Refused(_) => return Some(OPERATION_FAILED);
        case WouldNotChange => audit.RecordUnchanged();
        case WouldChange => audit.RecordPreviewChange();
      }
      halt := if env.outputOk then None else Some(OPERATION_FAILED);
    }

    method Turn(job: Job, target: Target, env: StepEnv) returns (halt: Option<Halt>)
      modifies this, audit
      ensures (Value(), halt) == Step(crypto, old(Value()), job, target, env)
    {
      hide SignTarget, RemoveTarget, PreviewTarget, RecordOutcome;
      match env.checkpoint {
        case CancelledHere(reason) => return Some(HaltCancelled(reason));
        case DroppedHere => return Some(HaltDropped);
        case Pass =>
      }
      match job
      case Previewing(_, _) => halt := PreviewRecord(job, target, env);
      case Signing(_, _, _) =>
        var signed := Sign(job, target, env);
        if signed.Failure? { return Some(signed.error); }
        halt := Record(signed.value, true, env.outputOk);
      case Removing(names) =>
        var removed := Remove(names, target, env);
        if removed.Failure? { return Some(removed.error); }
        halt := Record(removed.value, false, env.outputOk);
    }

    /** The loop over the selected records, the last checkpoint and the terminal event. */
    method Run(job: Job, targets: seq<Target>, envs: seq<StepEnv>, last: Checkpoint) returns (ending: Option<Halt>)
      requires |envs| == |targets|
      modifies this, audit
      ensures (Value(), ending) == RunLoop(crypto, old(Value()), job, targets, envs, last)
    {
      hide Step, SetSelected, End, Drop;
      audit.RecordSelected(|targets|);
      ghost var selected := Value();
      var halt: Option<Halt> := None;
      var i := 0;
      assert targets[0..] == targets && envs[0..] == envs;
      while i < |targets| && halt.None?
        invariant 0 <= i <= |targets|
        invariant RunTargets(crypto, selected, job, targets, envs)
                  == if halt.None? then RunTargets(crypto, Value(), job, targets[i..], envs[i..]) else (Value(), halt)
        decreases |targets| - i
      {
        halt := Turn(job, targets[i], envs[i]);
        assert targets[i..][1..] == targets[i + 1..] && envs[i..][1..] == envs[i + 1..];
        i := i + 1;
      }
      ending := if halt.Some? then halt else CheckpointHalt(last);
      CloseTrail(ending);
    }

    method CloseTrail(ending: Option<Halt>)
      modifies audit
      ensures Value() == old(Value()).(audit := CloseAudit(old(audit.Value()), ending))
    {
      hide End, Drop;
      match ending
      case None => audit.Terminate(Completed);
      case Some(HaltFailed(reason)) => audit.Terminate(Failed(reason));
      case Some(HaltCancelled(Signalled(name))) => audit.Terminate(CancelledBy(name));
      case Some(HaltCancelled(TaskGone)) => audit.Terminate(TaskCancelled);
      case Some(HaltDropped) => audit.Release(false);
    }
  }

  /** All or nothing: no other record moves, a refused replacement moves none, and the record
      itself ends as it was or as the whole valid replacement, which is reported. */
  lemma CommitKeeps(cache: map<ByteString, ByteString>, relative: ByteString, expected: ByteString,
                    replacement: ByteString, fault: CommitFault)
    ensures var (cache', commit) := CommitRecord(cache, relative, expected, replacement, fault);
            && cache'.Keys == cache.Keys
            && (forall other :: other in cache && other != relative ==> cache'[other] == cache[other])
            && (commit.None? || commit == Some(NoChange) ==> cache' == cache)
            && (commit == Some(Written) || commit == Some(Uncertain) ==>
                  relative in cache && cache[relative] == expected != replacement == cache'[relative]
                    && ValidNarinfo(replacement))
  {
  }
}
