/** With a signer that is a function of the fingerprint: a batch stopped and run again, against
    the same batch run once. Removal batches need no signer. */
module BatchRerun {
  import opened Bytes
  import opened Narinfo
  import opened NarinfoEdits
  import opened Fingerprint
  import opened CanonicalFingerprint
  import opened Signatures
  import opened SigningTarget
  import opened Audit
  import opened Batch
  import opened BatchResume

  type Signer = ByteString -> ByteString

  function EditedBytes(edit: Result<Edit, TargetError>, before: ByteString): (r: Option<ByteString>) {
    match edit case Failure(_) => None case Success(e) => Some(Apply(e, before))
  }

  /** The record a finished turn leaves, if it can finish. */
  function NewBytes(c: Crypto, job: Job, signer: Signer, before: ByteString, target: Target): (r: Option<ByteString>) {
    match job
    case Previewing(_, _) => Some(before)
    case Removing(names) => EditedBytes(RealRemove(before, target, names), before)
    case Signing(_, identity, oldNames) =>
      match Decide(c, before, target, identity, oldNames)
      case Failure(_) => None
      case Success(LeaveAlone) => Some(before)
      case Success(UseExisting(value)) => EditedBytes(EditWith(before, oldNames, value), before)
      case Success(NeedSignature) =>
        var value := SignatureValue(c, identity, signer(FingerprintOf(before, target).value));
        EditedBytes(EditWith(before, oldNames, value), before)
  }

  /** The reply of a turn, if it comes, is the signer's. */
  predicate AnsweredFor(signer: Signer, cache: Cache, target: Target, env: StepEnv) {
    env.rpc.Replied? && target.relative in cache && FingerprintOf(cache[target.relative], target).Some? ==>
      env.rpc.signature == signer(FingerprintOf(cache[target.relative], target).value)
  }

  predicate AllAnsweredFor(signer: Signer, cache: Cache, targets: seq<Target>, envs: seq<StepEnv>)
    requires |envs| == |targets|
  {
    forall i :: 0 <= i < |targets| ==> AnsweredFor(signer, cache, targets[i], envs[i])
  }

  /** The record became what the job makes of it, or did not move. */
  predicate Became(c: Crypto, job: Job, signer: Signer, before: Cache, now: Cache, target: Target) {
    && target.relative in before && NewBytes(c, job, signer, before[target.relative], target).Some?
    && now == before[target.relative := NewBytes(c, job, signer, before[target.relative], target).value]
  }

  // ----------------------------------------------------------------------- one turn

  lemma {:induction false} InstalledBytes(st: BatchState, target: Target, oldNames: Option<seq<ByteString>>,
                                          value: ByteString, fingerprint: ByteString, requestId: Option<Id>,
                                          source: SignatureSource, env: StepEnv)
    requires target.relative in st.cache
    ensures var bytes := st.cache[target.relative];
            var (st', r) := InstallSignature(st, target, bytes, oldNames, value, fingerprint, requestId, source, env);
            var out := EditedBytes(EditWith(bytes, oldNames, value), bytes);
            && (st'.cache == st.cache || (out.Some? && st'.cache == st.cache[target.relative := out.value]))
            && (r.Success? ==> out.Some? && st'.cache == st.cache[target.relative := out.value])
  {
    hide EditWith, ValidNarinfo, StorePathOf, SignatureObserved;
  }

  /** What signing and installing makes of a record that needs a signature. */
  lemma {:induction false} NeededBytes(c: Crypto, st: BatchState, job: Job, signer: Signer, target: Target,
                                       env: StepEnv)
    requires job.Signing? && AnsweredFor(signer, st.cache, target, env) && env.readable && target.relative in st.cache
    requires Decide(c, st.cache[target.relative], target, job.identity, job.oldNames) == Success(NeedSignature)
    ensures var (st', r) := SignTarget(c, st, job, target, env);
            var bytes := st.cache[target.relative];
            var value := SignatureValue(c, job.identity, signer(FingerprintOf(bytes, target).value));
            var out := EditedBytes(EditWith(bytes, job.oldNames, value), bytes);
            && (st'.cache == st.cache || (out.Some? && st'.cache == st.cache[target.relative := out.value]))
            && (r.Success? ==> out.Some? && st'.cache == st.cache[target.relative := out.value])
  {
    hide Decide, FingerprintOf, InstallSignature, FreshId, StorePathOf, SignatureValue, SignatureObserved, EditedBytes,
         EditWith;
    var fingerprint := FingerprintOf(st.cache[target.relative], target).value;
    var (signed, reply) := SignAndVerify(c, st, job, target, fingerprint, env);
    if reply.Success? {
      InstalledBytes(signed, target, job.oldNames, reply.value.0, fingerprint, Some(reply.value.1), ProducedNow, env);
    }
  }

  lemma {:induction false} ReusedBytes(c: Crypto, st: BatchState, job: Job, target: Target, env: StepEnv,
                                       value: ByteString)
    requires job.Signing? && env.readable && target.relative in st.cache
    requires Decide(c, st.cache[target.relative], target, job.identity, job.oldNames) == Success(UseExisting(value))
    ensures var (st', r) := SignTarget(c, st, job, target, env);
            var bytes := st.cache[target.relative];
            var out := EditedBytes(EditWith(bytes, job.oldNames, value), bytes);
            && (st'.cache == st.cache || (out.Some? && st'.cache == st.cache[target.relative := out.value]))
            && (r.Success? ==> out.Some? && st'.cache == st.cache[target.relative := out.value])
  {
    hide Decide, FingerprintOf, InstallSignature, StorePathOf, SignatureObserved, EditedBytes, EditWith;
    var fingerprint := FingerprintOf(st.cache[target.relative], target).value;
    InstalledBytes(st, target, job.oldNames, value, fingerprint, None, Reused, env);
  }

  lemma {:induction false} UntouchedBytes(c: Crypto, st: BatchState, job: Job, target: Target, env: StepEnv)
    requires job.Signing?
    requires env.readable && target.relative in st.cache ==>
               var decision := Decide(c, st.cache[target.relative], target, job.identity, job.oldNames);
               decision.Failure? || decision.value.LeaveAlone?
    ensures var (st', r) := SignTarget(c, st, job, target, env);
            && st'.cache == st.cache
            && (r.Success? ==> env.readable && target.relative in st.cache
                               && Decide(c, st.cache[target.relative], target, job.identity, job.oldNames).Success?)
  {
    hide Decide, FingerprintOf, InstallSignature, StorePathOf, SignatureObserved, SignAndVerify;
  }

  lemma {:induction false} SignTargetBytes(c: Crypto, st: BatchState, job: Job, signer: Signer, target: Target,
                                           env: StepEnv)
    requires job.Signing? && AnsweredFor(signer, st.cache, target, env)
    ensures var (st', r) := SignTarget(c, st, job, target, env);
            && (st'.cache == st.cache || Became(c, job, signer, st.cache, st'.cache, target))
            && (r.Success? ==> Became(c, job, signer, st.cache, st'.cache, target))
  {
    hide Decide, FingerprintOf, SignTarget, SignatureValue, EditedBytes, EditWith;
    if env.readable && target.relative in st.cache {
      var bytes := st.cache[target.relative];
      var decision := Decide(c, bytes, target, job.identity, job.oldNames);
      if decision.Success? && decision.value.UseExisting? {
        ReusedBytes(c, st, job, target, env, decision.value.value);
      } else if decision.Success? && decision.value.NeedSignature? {
        NeededBytes(c, st, job, signer, target, env);
      } else {
        UntouchedBytes(c, st, job, target, env);
        assert st.cache[target.relative := bytes] == st.cache;
      }
    } else {
      UntouchedBytes(c, st, job, target, env);
    }
  }

  lemma {:induction false} RemoveTargetBytes(c: Crypto, st: BatchState, job: Job, signer: Signer, target: Target,
                                             env: StepEnv)
    requires job.Removing?
    ensures var (st', r) := RemoveTarget(st, job.keyNames, target, env);
            && (st'.cache == st.cache || Became(c, job, signer, st.cache, st'.cache, target))
            && (r.Success? ==> Became(c, job, signer, st.cache, st'.cache, target))
  {
    hide RealRemove, StorePathOf, ValidNarinfo;
  }

  /** A turn leaves its record alone or makes it exactly what the job makes of it, and does the
      latter whenever it finishes. */
  lemma {:induction false} StepBytes(c: Crypto, st: BatchState, job: Job, signer: Signer, target: Target, env: StepEnv)
    requires !job.Previewing? && AnsweredFor(signer, st.cache, target, env)
    ensures var (st', halt) := Step(c, st, job, target, env);
            && (st'.cache == st.cache || Became(c, job, signer, st.cache, st'.cache, target))
            && (halt.None? ==> Became(c, job, signer, st.cache, st'.cache, target))
  {
    hide SignTarget, RemoveTarget, RecordOutcome, Became, AnsweredFor;
    if job.Signing? {
      SignTargetBytes(c, st, job, signer, target, env);
    } else {
      RemoveTargetBytes(c, st, job, signer, target, env);
    }
  }

  // ------------------------------------------------------------------------- a run

  predicate BecameIn(c: Crypto, job: Job, signer: Signer, before: Cache, now: Cache, target: Target) {
    && target.relative in before && target.relative in now
    && NewBytes(c, job, signer, before[target.relative], target) == Some(now[target.relative])
  }

  /** The cache after `n` finished targets, byte for byte. */
  predicate BytesAfter(c: Crypto, job: Job, signer: Signer, before: Cache, now: Cache, targets: seq<Target>, n: nat) {
    && now.Keys == before.Keys
    && (forall i :: 0 <= i < |targets| && i < n ==> BecameIn(c, job, signer, before, now, targets[i]))
    && (forall i :: n < i < |targets| ==> SameRecord(before, now, targets[i].relative))
    && (n < |targets| ==>
        SameRecord(before, now, targets[n].relative) || BecameIn(c, job, signer, before, now, targets[n]))
  }

  ghost predicate Elsewhere(before: Cache, now: Cache, targets: seq<Target>) {
    forall p :: (forall i :: 0 <= i < |targets| ==> targets[i].relative != p) ==> SameRecord(before, now, p)
  }

  lemma {:induction false} RestAnswered(signer: Signer, before: Cache, after: Cache, targets: seq<Target>,
                                        envs: seq<StepEnv>)
    requires |envs| == |targets| && targets != [] && DistinctRecords(targets)
    requires AllAnsweredFor(signer, before, targets, envs)
    requires after.Keys == before.Keys && forall p :: p in before && p != targets[0].relative ==> after[p] == before[p]
    ensures AllAnsweredFor(signer, after, targets[1..], envs[1..])
  {
    hide FingerprintOf;
    var rest, later := targets[1..], envs[1..];
    forall i | 0 <= i < |rest|
      ensures AnsweredFor(signer, after, rest[i], later[i])
    {
      assert rest[i] == targets[i + 1] && later[i] == envs[i + 1];
      assert AnsweredFor(signer, before, targets[i + 1], envs[i + 1]);
    }
  }

  lemma {:induction false} StepMoves(c: Crypto, job: Job, signer: Signer, before: Cache, after: Cache, target: Target)
    requires after == before || Became(c, job, signer, before, after, target)
    ensures after.Keys == before.Keys && forall p :: p in before && p != target.relative ==> after[p] == before[p]
    ensures Became(c, job, signer, before, after, target) ==> BecameIn(c, job, signer, before, after, target)
  {
    hide NewBytes;
  }

  /** What every run writes is determined by what it found: finished records and the one it
      stopped at, byte for byte, and nothing else moves. */
  lemma {:induction false} RunBytes(c: Crypto, st: BatchState, job: Job, signer: Signer, targets: seq<Target>,
                                    envs: seq<StepEnv>)
    requires !job.Previewing? && |envs| == |targets| && DistinctRecords(targets)
    requires AllAnsweredFor(signer, st.cache, targets, envs)
    ensures var st' := RunTargets(c, st, job, targets, envs).0;
            && BytesAfter(c, job, signer, st.cache, st'.cache, targets, FinishedCount(c, st, job, targets, envs))
            && Elsewhere(st.cache, st'.cache, targets)
    decreases |targets|
  {
    hide Step, Became, NewBytes, AnsweredFor;
    if targets != [] {
      assert AnsweredFor(signer, st.cache, targets[0], envs[0]);
      StepBytes(c, st, job, signer, targets[0], envs[0]);
      var (after, halt) := Step(c, st, job, targets[0], envs[0]);
      StepMoves(c, job, signer, st.cache, after.cache, targets[0]);
      if halt.None? {
        var rest := targets[1..];
        RestAnswered(signer, st.cache, after.cache, targets, envs);
        RunBytes(c, after, job, signer, rest, envs[1..]);
        var now, n := RunTargets(c, after, job, rest, envs[1..]).0.cache, FinishedCount(c, after, job, rest, envs[1..]);
        BytesAfterFirst(c, job, signer, st.cache, after.cache, now, targets, n);
      }
    }
  }

  lemma {:induction false} BytesAfterFirst(c: Crypto, job: Job, signer: Signer, before: Cache, after: Cache, now: Cache,
                                           targets: seq<Target>, n: nat)
    requires targets != [] && DistinctRecords(targets) && BecameIn(c, job, signer, before, after, targets[0])
    requires after.Keys == before.Keys && forall p :: p in before && p != targets[0].relative ==> after[p] == before[p]
    requires BytesAfter(c, job, signer, after, now, targets[1..], n) && Elsewhere(after, now, targets[1..])
    ensures BytesAfter(c, job, signer, before, now, targets, n + 1) && Elsewhere(before, now, targets)
  {
    hide NewBytes;
    var rest, p := targets[1..], targets[0].relative;
    assert SameRecord(after, now, p) by {
      assert forall i :: 0 <= i < |rest| ==> rest[i] == targets[i + 1] && rest[i].relative != p;
    }
    forall i | 0 <= i < |targets| && i < n + 1
      ensures BecameIn(c, job, signer, before, now, targets[i])
    {
      if i > 0 {
        assert targets[i] == rest[i - 1];
        assert BecameIn(c, job, signer, after, now, rest[i - 1]);
      }
    }
    forall i | n + 1 < i < |targets|
      ensures SameRecord(before, now, targets[i].relative)
    {
      assert targets[i] == rest[i - 1];
    }
    if n + 1 < |targets| {
      assert targets[n + 1] == rest[n];
    }
    forall q | forall i :: 0 <= i < |targets| ==> targets[i].relative != q
      ensures SameRecord(before, now, q)
    {
      assert targets[0].relative != q;
      assert forall i :: 0 <= i < |rest| ==> rest[i] == targets[i + 1] && rest[i].relative != q;
      assert SameRecord(after, now, q);
    }
  }

  // -------------------------------------------------------------------- stopped and rerun

  /** A second turn on what the first wrote changes nothing, unless it is a replace that does
      not settle. */
  predicate SettlesAtOnce(job: Job, before: ByteString) {
    job.Signing? && job.oldNames.Some? ==> ReplaceSettles(before, job.oldNames.value, job.identity.keyName)
  }

  lemma {:induction false} ResignedBytes(c: Crypto, job: Job, signer: Signer, before: ByteString, target: Target,
                                         value: ByteString)
    requires UsableIdentity(c, job) && ValidateForMutation(before).None? && FingerprintOf(before, target).Some?
    requires Genuine(c, job.identity, FingerprintOf(before, target).value, SIG + value)
    requires EditWith(before, job.oldNames, value).Success?
    ensures var middle := Apply(EditWith(before, job.oldNames, value).value, before);
            NewBytes(c, job, signer, middle, target) == Some(middle)
            <==> SettlesAtOnce(job, before)
    ensures var middle := Apply(EditWith(before, job.oldNames, value).value, before);
            FingerprintOf(middle, target) == FingerprintOf(before, target)
  {
    hide EditNarinfo, FingerprintOf, Genuine, Lawful, WellFormedKeyName, ReplaceSettles, Decide, ValidateForMutation;
    EditedRecordSettles(c, before, target, job.identity, job.oldNames, value);
    if job.oldNames.Some? {
      var m := Replace(job.oldNames.value, value);
      var middle := Apply(EditNarinfo(before, m).value, before);
      GenuineKey(c, job.identity, FingerprintOf(before, target).value, value);
      ReplaceIdempotentIff(before, job.oldNames.value, value);
      ReplaceWritesChange(middle, m);
    }
  }

  /** A replace reports a change exactly when the bytes change. */
  lemma {:induction false} ReplaceWritesChange(s: ByteString, m: Mutation)
    requires m.Replace?
    ensures EditNarinfo(s, m).Success? && Apply(EditNarinfo(s, m).value, s) == s
            <==> EditNarinfo(s, m) == Success(Unchanged)
  {
    hide ValidNarinfo, AddSignature, Filtered, KeyedLines, ValidKeyNames, ValidSignatureArgument;
  }

  lemma {:induction false} ReremovedBytes(c: Crypto, names: seq<ByteString>, signer: Signer, before: ByteString,
                                          target: Target)
    requires RealRemove(before, target, names).Success?
    ensures var middle := Apply(RealRemove(before, target, names).value, before);
            NewBytes(c, Removing(names), signer, middle, target) == Some(middle)
  {
    hide ValidNarinfo, EditNarinfo, ValidateForMutation, ExactlyOne, Identifies, IsUtf8, Lines, Contents, UnsignedLines,
         SignaturesBy;
    var m := Remove(names);
    var middle := Apply(EditNarinfo(before, m).value, before);
    EditKeepsValidity(before, m);
    ValidationIff(middle);
    AddAndRemoveSettle(before, m);
    EditEffect(before, m, []);
    SignaturesIrrelevant(middle, before, target.expectedPath, target.expectedHash);
  }

  /** Done twice on one record: the same as once, exactly when it settles at once. */
  lemma {:induction false} TwiceIff(c: Crypto, job: Job, signer: Signer, before: ByteString, target: Target)
    requires job.Removing? || (UsableIdentity(c, job) && ValidSigner(c, job, signer, before, target))
    requires NewBytes(c, job, signer, before, target).Some?
    ensures var middle := NewBytes(c, job, signer, before, target).value;
            NewBytes(c, job, signer, middle, target) == Some(middle) <==> middle == before || SettlesAtOnce(job, before)
  {
    hide EditWith, FingerprintOf, Genuine, Lawful, WellFormedKeyName, ReplaceSettles, Decide, ValidateForMutation,
         RealRemove, SignatureValue, Produced;
    var middle := NewBytes(c, job, signer, before, target).value;
    if job.Removing? {
      ReremovedBytes(c, job.keyNames, signer, before, target);
    } else if middle != before {
      var decision := Decide(c, before, target, job.identity, job.oldNames).value;
      DecidedFacts(c, before, target, job.identity, job.oldNames);
      if decision.UseExisting? {
        ResignedBytes(c, job, signer, before, target, decision.value);
      } else {
        var fingerprint := FingerprintOf(before, target).value;
        ProducedIsGenuine(c, job.identity, fingerprint, signer(fingerprint));
        ResignedBytes(c, job, signer, before, target, SignatureValue(c, job.identity, signer(fingerprint)));
      }
    }
  }

  /** The signer's signatures verify. */
  ghost predicate ValidSigner(c: Crypto, job: Job, signer: Signer, bytes: ByteString, target: Target)
    requires job.Signing?
  {
    FingerprintOf(bytes, target).Some? ==>
      Produced(c, job.identity, FingerprintOf(bytes, target).value, signer(FingerprintOf(bytes, target).value))
  }

  ghost predicate GoodSigner(c: Crypto, job: Job, signer: Signer, cache: Cache, targets: seq<Target>) {
    job.Removing? || (UsableIdentity(c, job) && forall i | 0 <= i < |targets| && targets[i].relative in cache ::
      ValidSigner(c, job, signer, cache[targets[i].relative], targets[i]))
  }

  /** The target comes out the same by both roads. */
  predicate ComesOutSame(job: Job, first: Cache, second: Cache, target: Target) {
    SameRecord(first, second, target.relative)
      || (target.relative in first && SettlesAtOnce(job, first[target.relative]))
  }

  lemma {:induction false} OneTargetRerun(c: Crypto, job: Job, signer: Signer, first: Cache, second: Cache,
                                          final: Cache, whole: Cache, targets: seq<Target>, n: nat, i: nat)
    requires !job.Previewing? && i < |targets| && GoodSigner(c, job, signer, first, targets)
    requires BytesAfter(c, job, signer, first, second, targets, n)
    requires BytesAfter(c, job, signer, second, final, targets, |targets|)
    requires BytesAfter(c, job, signer, first, whole, targets, |targets|)
    ensures SameRecord(final, whole, targets[i].relative) <==> ComesOutSame(job, first, second, targets[i])
  {
    hide NewBytes, SettlesAtOnce, ValidSigner, UsableIdentity;
    var p := targets[i].relative;
    assert BecameIn(c, job, signer, second, final, targets[i]);
    assert BecameIn(c, job, signer, first, whole, targets[i]);
    if !SameRecord(first, second, p) {
      assert BecameIn(c, job, signer, first, second, targets[i]);
      TwiceIff(c, job, signer, first[p], targets[i]);
    }
  }

  /** The same work under another batch ID. */
  predicate SameTask(job: Job, job': Job) {
    job' == job || SameWork(job, job')
  }

  lemma {:induction false} SameBytesAfter(c: Crypto, job: Job, job': Job, signer: Signer, before: Cache, now: Cache,
                                          targets: seq<Target>, n: nat)
    requires SameTask(job, job') && BytesAfter(c, job', signer, before, now, targets, n)
    ensures BytesAfter(c, job, signer, before, now, targets, n)
  {
    hide Decide, EditedBytes, FingerprintOf, RealRemove, EditWith, SignatureValue;
    forall i | 0 <= i < |targets| && BecameIn(c, job', signer, before, now, targets[i])
      ensures BecameIn(c, job, signer, before, now, targets[i])
    {
    }
  }

  /** A batch stopped anywhere and then run to its end leaves the very cache one uninterrupted run
      leaves, if and only if every record the stopped run changed settles at once: always for sign
      and remove, and for replace unless the new key is among the removed names and the filtered
      record ends at an open insertion point. */
  lemma {:induction false} RerunMatchesIff(c: Crypto, signer: Signer, targets: seq<Target>, first: BatchState, job: Job,
                                           envs: seq<StepEnv>, second: BatchState, job': Job, envs': seq<StepEnv>,
                                           job'': Job, envs'': seq<StepEnv>)
    requires !job.Previewing? && SameTask(job, job') && SameTask(job, job'')
    requires DistinctRecords(targets) && |envs| == |envs'| == |envs''| == |targets|
    requires GoodSigner(c, job, signer, first.cache, targets)
    requires second.cache == RunTargets(c, first, job, targets, envs).0.cache
    requires RunTargets(c, second, job', targets, envs').1.None? && RunTargets(c, first, job'', targets, envs'').1.None?
    requires AllAnsweredFor(signer, first.cache, targets, envs) && AllAnsweredFor(signer, second.cache, targets, envs')
    requires AllAnsweredFor(signer, first.cache, targets, envs'')
    ensures RunTargets(c, second, job', targets, envs').0.cache == RunTargets(c, first, job'', targets, envs'').0.cache
            <==> forall i :: 0 <= i < |targets| ==> ComesOutSame(job, first.cache, second.cache, targets[i])
  {
    hide RunTargets, FinishedCount, NewBytes, AnsweredFor, GoodSigner, SettlesAtOnce, BecameIn, BytesAfter, SameTask;
    var final := RunTargets(c, second, job', targets, envs').0.cache;
    var whole := RunTargets(c, first, job'', targets, envs'').0.cache;
    SameKind(job, job');
    SameKind(job, job'');
    RunBytes(c, first, job, signer, targets, envs);
    RunBytes(c, second, job', signer, targets, envs');
    RunBytes(c, first, job'', signer, targets, envs'');
    SameBytesAfter(c, job, job', signer, second.cache, final, targets, |targets|);
    SameBytesAfter(c, job, job'', signer, first.cache, whole, targets, |targets|);
    var n := FinishedCount(c, first, job, targets, envs);
    forall i | 0 <= i < |targets|
      ensures SameRecord(final, whole, targets[i].relative)
              <==> ComesOutSame(job, first.cache, second.cache, targets[i])
    {
      OneTargetRerun(c, job, signer, first.cache, second.cache, final, whole, targets, n, i);
    }
    SameKeysAfter(c, job, signer, first.cache, second.cache, targets, n);
    SameKeysAfter(c, job, signer, second.cache, final, targets, |targets|);
    SameKeysAfter(c, job, signer, first.cache, whole, targets, |targets|);
    SameEverywhere(first.cache, second.cache, final, whole, targets);
  }

  lemma SameKind(job: Job, job': Job)
    requires SameTask(job, job') && !job.Previewing?
    ensures !job'.Previewing?
  {
  }

  lemma SameKeysAfter(c: Crypto, job: Job, signer: Signer, before: Cache, now: Cache, targets: seq<Target>, n: nat)
    requires BytesAfter(c, job, signer, before, now, targets, n)
    ensures now.Keys == before.Keys
  {
    hide BecameIn;
  }

  lemma {:induction false} SameEverywhere(first: Cache, second: Cache, final: Cache, whole: Cache, targets: seq<Target>)
    requires Elsewhere(first, second, targets) && Elsewhere(second, final, targets) && Elsewhere(first, whole, targets)
    requires final.Keys == second.Keys == first.Keys == whole.Keys
    ensures final == whole <==> forall i :: 0 <= i < |targets| ==> SameRecord(final, whole, targets[i].relative)
  {
    if forall i :: 0 <= i < |targets| ==> SameRecord(final, whole, targets[i].relative) {
      forall p | p in final
        ensures final[p] == whole[p]
      {
        if forall i :: 0 <= i < |targets| ==> targets[i].relative != p {
          assert SameRecord(first, second, p) && SameRecord(second, final, p) && SameRecord(first, whole, p);
        } else {
          var i :| 0 <= i < |targets| && targets[i].relative == p;
          assert SameRecord(final, whole, targets[i].relative);
        }
      }
    }
  }
}
