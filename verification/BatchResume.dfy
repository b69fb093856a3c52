/** Stopping a signing batch anywhere and running it again. */
module BatchResume {
  import opened Bytes
  import opened Narinfo
  import opened NarinfoEdits
  import opened Fingerprint
  import opened CanonicalFingerprint
  import opened Signatures
  import opened SigningTarget
  import opened Audit
  import opened Batch

  type Cache = map<ByteString, ByteString>

  ghost predicate UsableIdentity(c: Crypto, job: Job) {
    job.Signing? && Lawful(c) && WellFormedKeyName(job.identity.keyName)
  }

  // ---------------------------------------------------------- what a run makes of a record

  /** The record carries its verified signature and a run would ask for no other. */
  predicate Settled(c: Crypto, job: Job, bytes: ByteString, target: Target)
    requires job.Signing?
  {
    var decision := Decide(c, bytes, target, job.identity, job.oldNames);
    decision.Success? && !decision.value.NeedSignature?
  }

  /** `now` is `before` edited with one signature value that is genuine over its fingerprint. */
  predicate NewVersion(c: Crypto, job: Job, before: ByteString, now: ByteString, target: Target, value: ByteString)
    requires job.Signing?
  {
    && ValidateForMutation(before).None? && FingerprintOf(before, target).Some?
    && Genuine(c, job.identity, FingerprintOf(before, target).value, SIG + value)
    && EditWith(before, job.oldNames, value).Success?
    && now == Apply(EditWith(before, job.oldNames, value).value, before)
  }

  ghost predicate Rewritten(c: Crypto, job: Job, before: ByteString, now: ByteString, target: Target)
    requires job.Signing?
  {
    exists value :: NewVersion(c, job, before, now, target, value)
  }

  /** A sign run leaves a verified record alone; every other finished record is a new version. */
  ghost predicate Finished(c: Crypto, job: Job, before: ByteString, now: ByteString, target: Target)
    requires job.Signing?
  {
    || Rewritten(c, job, before, now, target)
    || (now == before && Decide(c, before, target, job.identity, job.oldNames) == Success(LeaveAlone))
  }

  predicate Removed(job: Job, key: ByteString)
    requires job.Signing?
  {
    job.oldNames.Some? && key in job.oldNames.value && key != job.identity.keyName
  }

  /** Lines that are no signature, and the signatures of keys that are neither written nor
      removed, are kept. */
  ghost predicate Kept(job: Job, before: ByteString, now: ByteString)
    requires job.Signing?
  {
    var c, c' := Contents(Lines(before)), Contents(Lines(now));
    && UnsignedLines(c') == UnsignedLines(c)
    && forall key :: key != job.identity.keyName && !Removed(job, key) ==> SignaturesBy(c', key) == SignaturesBy(c, key)
  }

  /** The promise of a finished record: its other content and its fingerprint are kept, it is
      verified under the key, and the removed keys are gone. */
  ghost predicate Renewed(c: Crypto, job: Job, before: ByteString, now: ByteString, target: Target)
    requires job.Signing?
  {
    && Kept(job, before, now)
    && FingerprintOf(before, target).Some? && FingerprintOf(now, target) == FingerprintOf(before, target)
    && Inspect(c, now, job.identity, FingerprintOf(before, target).value).Verified?
    && forall key :: Removed(job, key) ==> SignaturesBy(Contents(Lines(now)), key) == []
  }

  lemma {:induction false} NewVersionSettles(c: Crypto, job: Job, before: ByteString, now: ByteString, target: Target,
                                             value: ByteString)
    requires UsableIdentity(c, job) && NewVersion(c, job, before, now, target, value)
    ensures FingerprintOf(now, target) == FingerprintOf(before, target)
    ensures Inspect(c, now, job.identity, FingerprintOf(before, target).value) == Verified(value)
    ensures Decide(c, now, target, job.identity, job.oldNames)
            == Success(if job.oldNames.None? then LeaveAlone else UseExisting(value))
    ensures Settled(c, job, now, target)
  {
    hide EditWith, Decide, ValidateForMutation, FingerprintOf, Genuine, Lawful, WellFormedKeyName, Inspect;
    EditedRecordSettles(c, before, target, job.identity, job.oldNames, value);
  }

  lemma {:induction false} NewVersionKey(c: Crypto, job: Job, before: ByteString, now: ByteString, target: Target,
                                         value: ByteString, key: ByteString)
    requires UsableIdentity(c, job) && NewVersion(c, job, before, now, target, value)
    ensures var c, c' := Contents(Lines(before)), Contents(Lines(now));
            && UnsignedLines(c') == UnsignedLines(c)
            && (Removed(job, key) ==> SignaturesBy(c', key) == [])
            && (key != job.identity.keyName && !Removed(job, key) ==> SignaturesBy(c', key) == SignaturesBy(c, key))
  {
    hide EditNarinfo, Genuine, Lawful, WellFormedKeyName, SignatureKey, Lines, Contents, SignaturesBy, UnsignedLines,
         FingerprintOf, ValidateForMutation;
    GenuineKey(c, job.identity, FingerprintOf(before, target).value, value);
    EditEffect(before, MutationFor(job.oldNames, value), key);
  }

  lemma {:induction false} NewVersionRenews(c: Crypto, job: Job, before: ByteString, now: ByteString, target: Target,
                                            value: ByteString)
    requires UsableIdentity(c, job) && NewVersion(c, job, before, now, target, value)
    ensures Renewed(c, job, before, now, target)
  {
    hide NewVersion, Lawful, WellFormedKeyName, Removed, SignaturesBy, UnsignedLines, Lines, Contents, FingerprintOf,
         Inspect;
    NewVersionSettles(c, job, before, now, target, value);
    NewVersionHasFingerprint(c, job, before, now, target, value);
    forall key
      ensures Removed(job, key) ==> SignaturesBy(Contents(Lines(now)), key) == []
      ensures key != job.identity.keyName && !Removed(job, key) ==>
                SignaturesBy(Contents(Lines(now)), key) == SignaturesBy(Contents(Lines(before)), key)
    {
      NewVersionKey(c, job, before, now, target, value, key);
    }
    NewVersionKey(c, job, before, now, target, value, []);
  }

  lemma NewVersionHasFingerprint(c: Crypto, job: Job, before: ByteString, now: ByteString, target: Target,
                                 value: ByteString)
    requires job.Signing? && NewVersion(c, job, before, now, target, value)
    ensures FingerprintOf(before, target).Some?
  {
    hide FingerprintOf, Genuine, EditWith, ValidateForMutation;
  }

  lemma {:induction false} RewrittenRenews(c: Crypto, job: Job, before: ByteString, now: ByteString, target: Target)
    requires UsableIdentity(c, job) && Rewritten(c, job, before, now, target)
    ensures Renewed(c, job, before, now, target) && Settled(c, job, now, target)
  {
    hide NewVersion, Lawful, WellFormedKeyName, Renewed, Settled;
    var value :| NewVersion(c, job, before, now, target, value);
    NewVersionSettles(c, job, before, now, target, value);
    NewVersionRenews(c, job, before, now, target, value);
  }

  /** A finished record keeps the promise and asks for nothing more. */
  lemma {:induction false} FinishedRenews(c: Crypto, job: Job, before: ByteString, now: ByteString, target: Target)
    requires UsableIdentity(c, job) && Finished(c, job, before, now, target)
    ensures Renewed(c, job, before, now, target) && Settled(c, job, now, target)
  {
    hide Lawful, WellFormedKeyName, Rewritten, Lines, Contents, SignaturesBy, UnsignedLines, FromNarinfo, Inspect,
         ValidateForMutation;
    if Rewritten(c, job, before, now, target) {
      RewrittenRenews(c, job, before, now, target);
    }
  }

  /** Keeping and renewing follow on one another. */
  lemma {:induction false} KeptThenRenewed(c: Crypto, job: Job, first: ByteString, middle: ByteString, last: ByteString,
                                           target: Target)
    requires job.Signing? && Kept(job, first, middle)
    ensures Kept(job, middle, last) ==> Kept(job, first, last)
    ensures Renewed(c, job, middle, last, target) ==> Renewed(c, job, first, last, target)
  {
    hide Lines, Contents, SignaturesBy, UnsignedLines, FromNarinfo, Inspect, Removed;
    SignaturesIrrelevant(first, middle, target.expectedPath, target.expectedHash);
  }

  lemma KeptItself(job: Job, bytes: ByteString)
    requires job.Signing?
    ensures Kept(job, bytes, bytes)
  {
  }

  // ------------------------------------------------------------------ one record's turn

  /** At most the target's record changed, and then to a new version of itself. */
  ghost predicate OldOrNew(c: Crypto, before: Cache, now: Cache, job: Job, target: Target)
    requires job.Signing?
  {
    now == before
    || (&& target.relative in before && target.relative in now
        && now == before[target.relative := now[target.relative]]
        && Rewritten(c, job, before[target.relative], now[target.relative], target))
  }

  lemma {:induction false} InstalledIsNew(c: Crypto, st: BatchState, job: Job, target: Target, bytes: ByteString,
                                          value: ByteString, fingerprint: ByteString, requestId: Option<Id>,
                                          source: SignatureSource, env: StepEnv)
    requires job.Signing?
    requires target.relative in st.cache && st.cache[target.relative] == bytes
    requires ValidateForMutation(bytes).None? && FingerprintOf(bytes, target) == Some(fingerprint)
    requires Genuine(c, job.identity, fingerprint, SIG + value)
    ensures var (st', r) := InstallSignature(st, target, bytes, job.oldNames, value, fingerprint, requestId, source,
                                             env);
            && OldOrNew(c, st.cache, st'.cache, job, target)
            && (r.Success? ==> Rewritten(c, job, bytes, st'.cache[target.relative], target))
  {
    hide EditWith, ValidNarinfo, ValidateForMutation, FingerprintOf, Genuine, StorePathOf, SignatureObserved;
    if EditWith(bytes, job.oldNames, value).Success? {
      var edit := EditWith(bytes, job.oldNames, value).value;
      assert NewVersion(c, job, bytes, Apply(edit, bytes), target, value);
    }
  }

  lemma {:induction false} VerifiedIsGenuine(c: Crypto, bytes: ByteString, id: Identity, fingerprint: ByteString,
                                             value: ByteString)
    requires Inspect(c, bytes, id, fingerprint) == Verified(value)
    ensures Genuine(c, id, fingerprint, SIG + value)
  {
    hide Genuine, FieldLines;
    VerifiedIff(c, bytes, id, fingerprint, value);
  }

  lemma {:induction false} DecidedFacts(c: Crypto, bytes: ByteString, target: Target, id: Identity,
                                        oldNames: Option<seq<ByteString>>)
    requires Decide(c, bytes, target, id, oldNames).Success?
    ensures ValidateForMutation(bytes).None? && FingerprintOf(bytes, target).Some?
    ensures var d := Decide(c, bytes, target, id, oldNames).value;
            d.UseExisting? ==> Genuine(c, id, FingerprintOf(bytes, target).value, SIG + d.value)
  {
    hide Inspect, FromNarinfo, ValidateForMutation, Genuine;
    var d := Decide(c, bytes, target, id, oldNames).value;
    if d.UseExisting? {
      VerifiedIsGenuine(c, bytes, id, FingerprintOf(bytes, target).value, d.value);
    }
  }

  /** Asking for a signature: at most one RPC, over this record's fingerprint and under an ID
      never used before; what comes back for use is genuine and carries that ID. */
  lemma {:induction false} RequestedIsGenuine(c: Crypto, st: BatchState, job: Job, target: Target,
                                              fingerprint: ByteString, env: StepEnv)
    requires UsableIdentity(c, job)
    ensures var (st', r) := SignAndVerify(c, st, job, target, fingerprint, env);
            && st.used <= st'.used && |st'.calls| <= |st.calls| + 1 && st.calls <= st'.calls
            && (st'.calls != st.calls ==>
                  && var id := st'.calls[|st.calls|].requestId;
                     && st'.calls[|st.calls|] == SignCall(job.batchId, id, target.relative, fingerprint)
                     && id != ZERO_ID && id !in st.used && id in st'.used)
            && (r.Success? ==>
                  && st'.calls != st.calls && r.value.1 == st'.calls[|st.calls|].requestId
                  && Genuine(c, job.identity, fingerprint, SIG + r.value.0))
  {
    hide FreshId, SignatureValue, Genuine, Lawful, WellFormedKeyName;
    if env.rpc.Replied? && Produced(c, job.identity, fingerprint, env.rpc.signature) {
      ProducedIsGenuine(c, job.identity, fingerprint, env.rpc.signature);
    }
  }

  /** What one record's turn may do to the cache and to the RPC log. */
  ghost predicate TurnEffect(c: Crypto, st: BatchState, st': BatchState, job: Job, target: Target, done: bool)
    requires job.Signing?
  {
    && OldOrNew(c, st.cache, st'.cache, job, target)
    && (done ==>
          && target.relative in st.cache && target.relative in st'.cache
          && Finished(c, job, st.cache[target.relative], st'.cache[target.relative], target))
    && (st'.calls == st.calls
        || (&& |st'.calls| == |st.calls| + 1 && st'.calls[..|st.calls|] == st.calls
            && st'.calls[|st.calls|].SignCall? && st'.calls[|st.calls|].relative == target.relative))
    && (target.relative in st.cache && Settled(c, job, st.cache[target.relative], target) ==> st'.calls == st.calls)
  }

  lemma {:induction false} SignTargetEffect(c: Crypto, st: BatchState, job: Job, target: Target, env: StepEnv)
    requires UsableIdentity(c, job)
    ensures var (st', r) := SignTarget(c, st, job, target, env);
            TurnEffect(c, st, st', job, target, r.Success?)
  {
    hide Decide, FingerprintOf, InstallSignature, ValidateForMutation, Genuine, Lawful, WellFormedKeyName, FreshId,
         StorePathOf, SignatureValue, Rewritten, SignatureObserved;
    if env.readable && target.relative in st.cache {
      var bytes := st.cache[target.relative];
      var decision := Decide(c, bytes, target, job.identity, job.oldNames);
      if decision.Success? {
        DecidedFacts(c, bytes, target, job.identity, job.oldNames);
        var fingerprint := FingerprintOf(bytes, target).value;
        match decision.value
        case LeaveAlone =>
        case UseExisting(value) =>
          InstalledIsNew(c, st, job, target, bytes, value, fingerprint, None, Reused, env);
        case NeedSignature =>
          var (signed, reply) := SignAndVerify(c, st, job, target, fingerprint, env);
          assert signed.calls == st.calls || signed.calls[..|st.calls|] == st.calls;
          if reply.Success? {
            ProducedIsGenuine(c, job.identity, fingerprint, env.rpc.signature);
            InstalledIsNew(c, signed, job, target, bytes, reply.value.0, fingerprint, Some(reply.value.1), ProducedNow,
                           env);
          }
      }
    }
  }

  /** One turn of the batch loop moves at most its own record, to a new version of it; when it
      finishes, the record is finished; and it asks for a signature only if the record needs one. */
  lemma {:induction false} StepEffect(c: Crypto, st: BatchState, job: Job, target: Target, env: StepEnv)
    requires UsableIdentity(c, job)
    ensures var (st', halt) := Step(c, st, job, target, env);
            TurnEffect(c, st, st', job, target, halt.None?)
  {
    hide SignTarget, Settled, RecordOutcome, Lawful, WellFormedKeyName, Rewritten, Finished;
    SignTargetEffect(c, st, job, target, env);
  }

  // ---------------------------------------------------------------------- the loop

  predicate DistinctRecords(targets: seq<Target>) {
    forall i, j :: 0 <= i < j < |targets| ==> targets[i].relative != targets[j].relative
  }

  /** How many targets a run finishes before it stops. */
  function FinishedCount(c: Crypto, st: BatchState, job: Job, targets: seq<Target>, envs: seq<StepEnv>): (n: nat)
    requires |envs| == |targets|
    ensures n <= |targets|
    ensures n == |targets| <==> RunTargets(c, st, job, targets, envs).1.None?
    decreases |targets|
  {
    hide Step;
    if targets == [] then 0
    else
      var (after, halt) := Step(c, st, job, targets[0], envs[0]);
      if halt.Some? then 0 else 1 + FinishedCount(c, after, job, targets[1..], envs[1..])
  }

  predicate SameRecord(before: Cache, now: Cache, relative: ByteString) {
    if relative in before then relative in now && now[relative] == before[relative] else relative !in now
  }

  /** The target is there before and after, and was finished. */
  ghost predicate FinishedIn(c: Crypto, before: Cache, now: Cache, job: Job, target: Target)
    requires job.Signing?
  {
    && target.relative in before && target.relative in now
    && Finished(c, job, before[target.relative], now[target.relative], target)
  }

  ghost predicate RewrittenIn(c: Crypto, before: Cache, now: Cache, job: Job, target: Target)
    requires job.Signing?
  {
    && target.relative in before && target.relative in now
    && Rewritten(c, job, before[target.relative], now[target.relative], target)
  }

  /** The cache after a run that finished `n` targets: those are finished, the next is old or a
      new version of itself, and every later one is untouched. */
  ghost predicate CacheAfter(c: Crypto, before: Cache, now: Cache, job: Job, targets: seq<Target>, n: nat)
    requires job.Signing?
  {
    && now.Keys == before.Keys
    && (forall i :: 0 <= i < |targets| && i < n ==> FinishedIn(c, before, now, job, targets[i]))
    && (forall i :: n < i < |targets| ==> SameRecord(before, now, targets[i].relative))
    && (n < |targets| ==> SameRecord(before, now, targets[n].relative) || RewrittenIn(c, before, now, job, targets[n]))
  }

  lemma {:induction false} RunKeepsOthers(c: Crypto, st: BatchState, job: Job, targets: seq<Target>, envs: seq<StepEnv>,
                                          p: ByteString)
    requires UsableIdentity(c, job) && |envs| == |targets|
    requires forall i :: 0 <= i < |targets| ==> targets[i].relative != p
    ensures SameRecord(st.cache, RunTargets(c, st, job, targets, envs).0.cache, p)
    decreases |targets|
  {
    hide Step, Settled, Lawful, WellFormedKeyName, Rewritten, Finished;
    if targets != [] {
      StepEffect(c, st, job, targets[0], envs[0]);
      var (after, halt) := Step(c, st, job, targets[0], envs[0]);
      if halt.None? {
        RunKeepsOthers(c, after, job, targets[1..], envs[1..], p);
      }
    }
  }

  /** Whatever the environment does: finished targets are finished from their own old bytes, the
      one the run stopped at is old or a new version, and every later one is untouched. */
  lemma {:induction false} RunCache(c: Crypto, st: BatchState, job: Job, targets: seq<Target>, envs: seq<StepEnv>)
    requires UsableIdentity(c, job) && |envs| == |targets| && DistinctRecords(targets)
    ensures var st' := RunTargets(c, st, job, targets, envs).0;
            CacheAfter(c, st.cache, st'.cache, job, targets, FinishedCount(c, st, job, targets, envs))
    decreases |targets|
  {
    hide Step, Settled, Lawful, WellFormedKeyName, Rewritten, Finished;
    if targets != [] {
      StepEffect(c, st, job, targets[0], envs[0]);
      var (after, halt) := Step(c, st, job, targets[0], envs[0]);
      if halt.None? {
        var rest := targets[1..];
        RunCache(c, after, job, rest, envs[1..]);
        RunKeepsOthers(c, after, job, rest, envs[1..], targets[0].relative);
        var now, n := RunTargets(c, after, job, rest, envs[1..]).0.cache, FinishedCount(c, after, job, rest, envs[1..]);
        AfterFirst(c, st.cache, after.cache, now, job, targets, n);
      }
    }
  }

  lemma {:induction false} AfterFirst(c: Crypto, before: Cache, after: Cache, now: Cache, job: Job,
                                      targets: seq<Target>, n: nat)
    requires job.Signing? && targets != [] && DistinctRecords(targets)
    requires OldOrNew(c, before, after, job, targets[0]) && FinishedIn(c, before, after, job, targets[0])
    requires CacheAfter(c, after, now, job, targets[1..], n) && SameRecord(after, now, targets[0].relative)
    ensures CacheAfter(c, before, now, job, targets, n + 1)
  {
    hide Rewritten, Finished;
    var rest := targets[1..];
    forall i | 0 <= i < |targets| && i < n + 1
      ensures FinishedIn(c, before, now, job, targets[i])
    {
      if i > 0 {
        assert targets[i] == rest[i - 1];
        assert FinishedIn(c, after, now, job, rest[i - 1]);
      }
    }
    forall i | n + 1 < i < |targets|
      ensures SameRecord(before, now, targets[i].relative)
    {
      assert targets[i] == rest[i - 1];
    }
    if n + 1 < |targets| {
      assert targets[n + 1] == rest[n];
    }
  }

  /** The Sign RPCs of a run name records of its targets that were not settled before it. */
  lemma {:induction false} RunCalls(c: Crypto, st: BatchState, job: Job, targets: seq<Target>, envs: seq<StepEnv>)
    requires UsableIdentity(c, job) && |envs| == |targets| && DistinctRecords(targets)
    ensures var st' := RunTargets(c, st, job, targets, envs).0;
            && |st'.calls| >= |st.calls| && st'.calls[..|st.calls|] == st.calls
            && forall k :: |st.calls| <= k < |st'.calls| ==>
                 st'.calls[k].SignCall? && Unsettled(c, st.cache, job, targets, st'.calls[k].relative)
    decreases |targets|
  {
    hide Step, Settled, Lawful, WellFormedKeyName, Rewritten, Finished;
    if targets != [] {
      StepEffect(c, st, job, targets[0], envs[0]);
      var (after, halt) := Step(c, st, job, targets[0], envs[0]);
      if after.calls != st.calls {
        assert Unsettled(c, st.cache, job, targets, targets[0].relative) by {
          forall i | 0 <= i < |targets| && targets[i].relative == targets[0].relative
            ensures i == 0
          {
          }
        }
      }
      if halt.None? {
        var rest := targets[1..];
        RunCalls(c, after, job, rest, envs[1..]);
        var st' := RunTargets(c, after, job, rest, envs[1..]).0;
        forall k | |st.calls| <= k < |st'.calls|
          ensures st'.calls[k].SignCall? && Unsettled(c, st.cache, job, targets, st'.calls[k].relative)
        {
          if k < |after.calls| {
            assert st'.calls[k] == after.calls[k];
          } else {
            UnsettledLater(c, st.cache, after.cache, job, targets, st'.calls[k].relative);
          }
        }
      }
    }
  }

  /** `relative` names a target, and none of the records so named is settled in the cache. */
  predicate Unsettled(c: Crypto, cache: Cache, job: Job, targets: seq<Target>, relative: ByteString)
    requires job.Signing?
  {
    && (exists i :: 0 <= i < |targets| && targets[i].relative == relative)
    && (forall i :: 0 <= i < |targets| && targets[i].relative == relative && relative in cache ==>
          !Settled(c, job, cache[relative], targets[i]))
  }

  lemma {:induction false} UnsettledLater(c: Crypto, before: Cache, after: Cache, job: Job, targets: seq<Target>,
                                          relative: ByteString)
    requires job.Signing? && targets != [] && DistinctRecords(targets)
    requires OldOrNew(c, before, after, job, targets[0])
    requires Unsettled(c, after, job, targets[1..], relative)
    ensures Unsettled(c, before, job, targets, relative)
  {
    hide Settled, Rewritten;
    var rest := targets[1..];
    var j :| 0 <= j < |rest| && rest[j].relative == relative;
    assert targets[j + 1] == rest[j];
    forall i | 0 <= i < |targets| && targets[i].relative == relative && relative in before
      ensures !Settled(c, job, before[relative], targets[i])
    {
      assert i == j + 1;
      assert after[relative] == before[relative];
    }
  }

  // ----------------------------------------------------------------------- resuming

  predicate SameWork(job: Job, job': Job) {
    job.Signing? && job'.Signing? && job'.identity == job.identity && job'.oldNames == job.oldNames
  }

  /** What a run of `n` finished targets means for each: kept, and settled and renewed if it
      was changed or finished. */
  lemma {:induction false} TargetAfterRun(c: Crypto, before: Cache, now: Cache, job: Job, targets: seq<Target>, n: nat,
                                          i: nat)
    requires UsableIdentity(c, job) && CacheAfter(c, before, now, job, targets, n) && i < |targets|
    ensures var p := targets[i].relative;
            && (p in before ==> p in now && Kept(job, before[p], now[p]))
            && (!SameRecord(before, now, p) ==> p in now && Settled(c, job, now[p], targets[i]))
            && (i < n ==> p in before && p in now && Renewed(c, job, before[p], now[p], targets[i]))
  {
    hide Lawful, WellFormedKeyName, Rewritten, Finished, Settled, Kept;
    var p := targets[i].relative;
    if i < n {
      assert FinishedIn(c, before, now, job, targets[i]);
      FinishedRenews(c, job, before[p], now[p], targets[i]);
    } else if SameRecord(before, now, p) {
      if p in before {
        KeptItself(job, before[p]);
      }
    } else {
      RewrittenRenews(c, job, before[p], now[p], targets[i]);
    }
  }

  /** Run a signing batch, stopped anywhere, then run it again with the same key on the cache it
      left. Each run leaves every record old or a new version of itself, in target order. The
      second issues no Sign RPC for a record the first one changed. After both, every selected
      record keeps all content that is not its own to change; and if the second run finishes,
      every one is renewed: same fingerprint, verified under the key, removed keys gone, as seen
      from the record the first run found. */
  lemma {:induction false} ResumeConverges(c: Crypto, first: BatchState, job: Job, targets: seq<Target>,
                                           envs: seq<StepEnv>, second: BatchState, job': Job, envs': seq<StepEnv>)
    requires UsableIdentity(c, job) && DistinctRecords(targets) && SameWork(job, job')
    requires |envs| == |targets| == |envs'|
    requires second.cache == RunTargets(c, first, job, targets, envs).0.cache
    ensures CacheAfter(c, first.cache, second.cache, job, targets, FinishedCount(c, first, job, targets, envs))
    ensures var (final, halt) := RunTargets(c, second, job', targets, envs');
            && CacheAfter(c, second.cache, final.cache, job', targets, FinishedCount(c, second, job', targets, envs'))
            && (forall k, i | |second.calls| <= k < |final.calls| && 0 <= i < |targets|
                              && !SameRecord(first.cache, second.cache, targets[i].relative) ::
                  final.calls[k].SignCall? && final.calls[k].relative != targets[i].relative)
            && (forall i | 0 <= i < |targets| && targets[i].relative in first.cache ::
                  && targets[i].relative in final.cache
                  && Kept(job, first.cache[targets[i].relative], final.cache[targets[i].relative]))
            && (halt.None? ==> forall i | 0 <= i < |targets| ::
                  && targets[i].relative in first.cache && targets[i].relative in final.cache
                  && Renewed(c, job, first.cache[targets[i].relative], final.cache[targets[i].relative], targets[i]))
  {
    hide RunTargets, Settled, Lawful, WellFormedKeyName, Kept, Renewed, FinishedCount, Finished, Rewritten;
    RunCache(c, first, job, targets, envs);
    RunCache(c, second, job', targets, envs');
    RunCalls(c, second, job', targets, envs');
    var (final, halt) := RunTargets(c, second, job', targets, envs');
    var n, n' := FinishedCount(c, first, job, targets, envs), FinishedCount(c, second, job', targets, envs');
    forall k, i | |second.calls| <= k < |final.calls| && 0 <= i < |targets|
                  && !SameRecord(first.cache, second.cache, targets[i].relative)
      ensures final.calls[k].SignCall? && final.calls[k].relative != targets[i].relative
    {
      TargetAfterRun(c, first.cache, second.cache, job, targets, n, i);
      SameForBoth(c, job, job', second.cache[targets[i].relative], second.cache[targets[i].relative], targets[i]);
    }
    forall i | 0 <= i < |targets|
      ensures targets[i].relative in first.cache ==>
                && targets[i].relative in final.cache
                && Kept(job, first.cache[targets[i].relative], final.cache[targets[i].relative])
      ensures halt.None? ==>
                && targets[i].relative in first.cache && targets[i].relative in final.cache
                && Renewed(c, job, first.cache[targets[i].relative], final.cache[targets[i].relative], targets[i])
    {
      var p := targets[i].relative;
      TargetAfterRun(c, first.cache, second.cache, job, targets, n, i);
      TargetAfterRun(c, second.cache, final.cache, job', targets, n', i);
      if p in first.cache {
        SameForBoth(c, job, job', second.cache[p], final.cache[p], targets[i]);
        KeptThenRenewed(c, job, first.cache[p], second.cache[p], final.cache[p], targets[i]);
      }
    }
  }

  lemma {:induction false} SameForBoth(c: Crypto, job: Job, job': Job, before: ByteString, now: ByteString,
                                       target: Target)
    requires SameWork(job, job')
    ensures Settled(c, job, now, target) == Settled(c, job', now, target)
    ensures Kept(job, before, now) == Kept(job', before, now)
    ensures Renewed(c, job, before, now, target) == Renewed(c, job', before, now, target)
  {
    hide Decide, Lines, Contents, SignaturesBy, UnsignedLines, FromNarinfo, Inspect;
    assert forall key :: Removed(job, key) == Removed(job', key);
  }
}
