/** Exactly when a turn of a batch finishes, and what it then counts, asks for and records. */
module BatchTurns {
  import opened Bytes
  import opened Sequences
  import opened Narinfo
  import opened NarinfoEdits
  import opened EditOutcomes
  import opened Fingerprint
  import opened CanonicalFingerprint
  import opened Signatures
  import opened SigningTarget
  import opened Audit
  import opened Batch
  import opened BatchResume

  // ----------------------------------------------------------------------- identifiers

  predicate Fit(id: Id, excluded: set<Id>) {
    id != ZERO_ID && id !in excluded
  }

  /** A fresh ID is the first of at most eight draws that is neither zero nor used, and there is none
      exactly when all of those are. */
  lemma {:induction false} FreshIdIff(draws: seq<Id>, excluded: set<Id>)
    ensures FreshId(draws, excluded).None? <==> forall k :: 0 <= k < |draws| && k < 8 ==> !Fit(draws[k], excluded)
    ensures FreshId(draws, excluded).Some? ==>
              exists k :: && 0 <= k < |draws| && k < 8 && draws[k] == FreshId(draws, excluded).value
                          && Fit(draws[k], excluded) && NoneFit(draws[..k], excluded)
  {
    hide Fit, NoneFit;
    var tried := if |draws| <= 8 then draws else draws[..8];
    FirstFreshIff(tried, excluded);
    if FreshId(draws, excluded).Some? {
      var k :| 0 <= k < |tried| && tried[k] == FreshId(draws, excluded).value && Fit(tried[k], excluded)
               && NoneFit(tried[..k], excluded);
      assert tried[..k] == draws[..k];
    }
  }

  predicate NoneFit(draws: seq<Id>, excluded: set<Id>) {
    forall j :: 0 <= j < |draws| ==> !Fit(draws[j], excluded)
  }

  lemma {:induction false} FirstFreshIff(draws: seq<Id>, excluded: set<Id>)
    ensures FirstFresh(draws, excluded).None? <==> forall k :: 0 <= k < |draws| ==> !Fit(draws[k], excluded)
    ensures FirstFresh(draws, excluded).Some? ==>
              exists k :: && 0 <= k < |draws| && draws[k] == FirstFresh(draws, excluded).value
                          && Fit(draws[k], excluded) && NoneFit(draws[..k], excluded)
    decreases |draws|
  {
    if draws != [] {
      var rest := draws[1..];
      FirstFreshIff(rest, excluded);
      if Fit(draws[0], excluded) {
        assert NoneFit(draws[..0], excluded);
      } else {
        if FirstFresh(rest, excluded).Some? {
          var k :| 0 <= k < |rest| && rest[k] == FirstFresh(rest, excluded).value && Fit(rest[k], excluded)
                   && NoneFit(rest[..k], excluded);
          assert draws[..k + 1] == [draws[0]] + rest[..k];
          assert draws[k + 1] == rest[k];
        } else {
          assert forall k :: 1 <= k < |draws| ==> draws[k] == rest[k - 1];
        }
      }
    }
  }

  // ------------------------------------------------------------------------ store paths

  /** The path an event names is the value of the record's one `StorePath` line. */
  lemma StorePathIs(bytes: ByteString, path: ByteString)
    requires FieldLines(bytes, STORE_PATH) == [STORE_PATH + path]
    ensures StorePathOf(bytes) == path
  {
    hide FieldLines;
    FoundValue(bytes, STORE_PATH, path);
  }

  /** A record is the selected one exactly when it has one `StorePath` line and that is the path the
      selection names, or any path with the selected hash; and a record with a fingerprint is. */
  lemma SelectedIff(bytes: ByteString, target: Target, path: ByteString)
    ensures SelectedStorePath(bytes, target) == Some(path) <==>
              && FieldLines(bytes, STORE_PATH) == [STORE_PATH + path] && IsUtf8(path)
              && (target.expectedPath.None? || target.expectedPath == Some(path))
              && StorePathHash(path) == Some(target.expectedHash)
    ensures FingerprintOf(bytes, target).Some? ==> SelectedStorePath(bytes, target).Some?
  {
    hide FieldLines, IsUtf8, StorePathHash, CollectReferences, RenderedLength, Render, IsPathInfoV1;
    if FieldLines(bytes, STORE_PATH) == [STORE_PATH + path] {
      FoundValue(bytes, STORE_PATH, path);
    }
  }

  // ------------------------------------------------------------------- finishing a turn

  /** The record and the arguments allow the edit; an edit that changes the record also needs a
      commit that lasts. */
  predicate Lands(bytes: ByteString, m: Mutation, env: StepEnv) {
    && ValidNarinfo(bytes) && SoundArguments(m) && NoRival(bytes, m) && Room(bytes, m)
    && (env.commit.Durable? || EditNarinfo(bytes, m) == Success(Unchanged))
  }

  /** The broker answered for the identity with a signature over this fingerprint. */
  ghost predicate Granted(c: Crypto, id: Identity, used: set<Id>, fingerprint: ByteString, env: StepEnv) {
    && FreshId(env.draws, used).Some?
    && env.rpc.Replied? && env.rpc.key == id && Produced(c, id, fingerprint, env.rpc.signature)
  }

  /** A record with a verified signature needs no RPC; one without asks for a signature; one whose
      signatures clash is refused unless they are all to be removed. */
  ghost predicate Signable(c: Crypto, id: Identity, oldNames: Option<seq<ByteString>>, used: set<Id>, bytes: ByteString,
                           target: Target, env: StepEnv)
  {
    && ValidNarinfo(bytes) && FingerprintOf(bytes, target).Some?
    && var fingerprint := FingerprintOf(bytes, target).value;
       var existing := Inspect(c, bytes, id, fingerprint);
       if existing.Verified? then oldNames.None? || Lands(bytes, Replace(oldNames.value, existing.value), env)
       else
         && (existing.Conflict? ==> oldNames.Some? && id.keyName in oldNames.value)
         && Granted(c, id, used, fingerprint, env)
         && Lands(bytes, MutationFor(oldNames, SignatureValue(c, id, env.rpc.signature)), env)
  }

  /** The record lets the job be done in this environment. */
  ghost predicate Doable(c: Crypto, job: Job, used: set<Id>, bytes: ByteString, target: Target, env: StepEnv) {
    match job
    case Signing(_, id, oldNames) => Signable(c, id, oldNames, used, bytes, target, env)
    case Removing(names) => SelectedStorePath(bytes, target).Some? && Lands(bytes, Remove(names), env)
    case Previewing(op, id) => !Preview(c, bytes, target, id, op).Refused?
  }

  lemma {:induction false} EditedIff(bytes: ByteString, m: Mutation)
    ensures EditNarinfo(bytes, m).Success? <==>
            ValidNarinfo(bytes) && SoundArguments(m) && NoRival(bytes, m) && Room(bytes, m)
    ensures EditNarinfo(bytes, m).Success? ==>
            && ValidNarinfo(Apply(EditNarinfo(bytes, m).value, bytes))
            && |Apply(EditNarinfo(bytes, m).value, bytes)| <= MAX_NARINFO_BYTES
            && (EditNarinfo(bytes, m).value.Unchanged? <==> Apply(EditNarinfo(bytes, m).value, bytes) == bytes)
  {
    hide EditNarinfo, ValidNarinfo, NoRival, Room, SoundArguments;
    EditOutcomeIff(bytes, m);
    if EditNarinfo(bytes, m).Success? {
      EditKeepsValidity(bytes, m);
      ValidIsKeyed(Apply(EditNarinfo(bytes, m).value, bytes));
      EditUnchangedIff(bytes, m);
    }
  }

  lemma {:induction false} InstallsIff(st: BatchState, target: Target, oldNames: Option<seq<ByteString>>,
                                       value: ByteString, fingerprint: ByteString, requestId: Option<Id>,
                                       source: SignatureSource, env: StepEnv)
    requires target.relative in st.cache
    ensures var bytes := st.cache[target.relative];
            var r := InstallSignature(st, target, bytes, oldNames, value, fingerprint, requestId, source, env).1;
            r.Success? && !r.value.commit.Uncertain? <==> Lands(bytes, MutationFor(oldNames, value), env)
  {
    hide EditNarinfo, ValidNarinfo, NoRival, Room, SoundArguments, StorePathOf, SignatureObserved;
    EditedIff(st.cache[target.relative], MutationFor(oldNames, value));
  }

  lemma {:induction false} DecidesAs(c: Crypto, bytes: ByteString, target: Target, id: Identity,
                                     oldNames: Option<seq<ByteString>>)
    ensures var d, f := Decide(c, bytes, target, id, oldNames), FingerprintOf(bytes, target);
            && (d.Success? <==>
                  && ValidNarinfo(bytes) && f.Some?
                  && (Inspect(c, bytes, id, f.value).Conflict? ==> oldNames.Some? && id.keyName in oldNames.value))
            && (d.Success? ==>
                  && (d.value.LeaveAlone? <==> oldNames.None? && Inspect(c, bytes, id, f.value).Verified?)
                  && (d.value.NeedSignature? <==> !Inspect(c, bytes, id, f.value).Verified?)
                  && (d.value.UseExisting? ==> Inspect(c, bytes, id, f.value) == Verified(d.value.value)))
  {
    hide ValidateForMutation, ValidNarinfo, Inspect, FromNarinfo;
    ValidationIff(bytes);
  }

  /** One record of a signing batch is signed and committed for good exactly when it is signable. */
  lemma {:induction false} SignsIff(c: Crypto, st: BatchState, job: Job, target: Target, env: StepEnv)
    requires job.Signing?
    ensures var r := SignTarget(c, st, job, target, env).1;
            r.Success? && !r.value.commit.Uncertain? <==>
              && env.readable && target.relative in st.cache
              && Signable(c, job.identity, job.oldNames, st.used, st.cache[target.relative], target, env)
  {
    hide Decide, FingerprintOf, InstallSignature, FreshId, StorePathOf, SignatureValue, SignatureObserved, Inspect,
         EditNarinfo, ValidNarinfo, NoRival, Room, SoundArguments;
    if env.readable && target.relative in st.cache {
      var bytes := st.cache[target.relative];
      DecidesAs(c, bytes, target, job.identity, job.oldNames);
      var decision := Decide(c, bytes, target, job.identity, job.oldNames);
      if decision.Success? {
        var fingerprint := FingerprintOf(bytes, target).value;
        if decision.value.UseExisting? {
          InstallsIff(st, target, job.oldNames, decision.value.value, fingerprint, None, Reused, env);
        } else if decision.value.NeedSignature? {
          var (signed, reply) := SignAndVerify(c, st, job, target, fingerprint, env);
          if reply.Success? {
            InstallsIff(signed, target, job.oldNames, reply.value.0, fingerprint, Some(reply.value.1), ProducedNow,
                        env);
          }
        }
      }
    }
  }

  lemma {:induction false} RemovesIff(st: BatchState, names: seq<ByteString>, target: Target, env: StepEnv)
    ensures var r := RemoveTarget(st, names, target, env).1;
            r.Success? && !r.value.commit.Uncertain? <==>
              && env.readable && target.relative in st.cache
              && SelectedStorePath(st.cache[target.relative], target).Some?
              && Lands(st.cache[target.relative], Remove(names), env)
  {
    hide EditNarinfo, ValidNarinfo, NoRival, Room, SoundArguments, StorePathOf, SelectedStorePath, ValidateForMutation;
    if env.readable && target.relative in st.cache {
      ValidationIff(st.cache[target.relative]);
      EditedIff(st.cache[target.relative], Remove(names));
    }
  }

  /** A turn finishes exactly when it is not cancelled, reads its record, the record lets the job be
      done in this environment, and the output line is written. */
  lemma {:induction false} TurnFinishesIff(c: Crypto, st: BatchState, job: Job, target: Target, env: StepEnv)
    ensures Step(c, st, job, target, env).1.None? <==>
              && env.checkpoint.Pass? && env.readable && env.outputOk && target.relative in st.cache
              && Doable(c, job, st.used, st.cache[target.relative], target, env)
  {
    hide SignTarget, RemoveTarget, Signable, Lands, Preview, SelectedStorePath, SignatureObserved, StorePathOf;
    match job
    case Signing(_, _, _) => SignsIff(c, st, job, target, env);
    case Removing(names) => RemovesIff(st, names, target, env);
    case Previewing(_, _) =>
  }

  // ----------------------------------------------------------------- asking and stopping

  /** The turn comes to ask for a signature: the record is sound, has no verified one, and there is
      a fresh request ID. */
  ghost predicate Asks(c: Crypto, job: Job, st: BatchState, target: Target, env: StepEnv) {
    && job.Signing? && env.checkpoint.Pass? && env.readable && target.relative in st.cache
    && FreshId(env.draws, st.used).Some?
    && var bytes := st.cache[target.relative];
       && ValidNarinfo(bytes) && FingerprintOf(bytes, target).Some?
       && var existing := Inspect(c, bytes, job.identity, FingerprintOf(bytes, target).value);
          && !existing.Verified?
          && (existing.Conflict? ==> job.oldNames.Some? && job.identity.keyName in job.oldNames.value)
  }

  /** One Sign RPC for a turn that asks, unless it was cancelled before it was sent; none for any other. */
  lemma {:induction false} TurnAsksIff(c: Crypto, st: BatchState, job: Job, target: Target, env: StepEnv)
    ensures var st' := Step(c, st, job, target, env).0;
            if Asks(c, job, st, target, env) && !env.rpc.CancelledBeforeSend?
            then st'.calls == st.calls + [SignCall(job.batchId, FreshId(env.draws, st.used).value, target.relative,
                                                   FingerprintOf(st.cache[target.relative], target).value)]
            else st'.calls == st.calls
  {
    hide Decide, FingerprintOf, InstallSignature, FreshId, StorePathOf, SignatureValue, SignatureObserved, Inspect,
         ValidNarinfo, RemoveTarget, PreviewTarget, RecordOutcome;
    if job.Signing? && env.readable && target.relative in st.cache {
      DecidesAs(c, st.cache[target.relative], target, job.identity, job.oldNames);
    }
  }

  /** Why a turn stops: dropped or cancelled where it waits, its output line lost after the record
      was done, or else the operation failed. */
  lemma {:induction false} TurnHaltIff(c: Crypto, st: BatchState, job: Job, target: Target, env: StepEnv)
    ensures var halt, asks := Step(c, st, job, target, env).1, Asks(c, job, st, target, env);
            && (halt == Some(HaltDropped) <==> env.checkpoint.DroppedHere? || (asks && env.rpc.DroppedInFlight?))
            && (forall why ::
                  halt == Some(HaltCancelled(why)) <==>
                    || env.checkpoint == CancelledHere(why)
                    || (asks && (env.rpc == CancelledBeforeSend(why) || env.rpc == CancelledInFlight(why))))
            && (halt == Some(OUTPUT_FAILED) <==>
                  && !job.Previewing? && env.checkpoint.Pass? && env.readable && !env.outputOk
                  && target.relative in st.cache && Doable(c, job, st.used, st.cache[target.relative], target, env))
            && (halt.Some? && halt.value.HaltFailed? ==> halt == Some(OUTPUT_FAILED) || halt == Some(OPERATION_FAILED))
  {
    hide SignTarget, RemoveTarget, Signable, Lands, Preview, SelectedStorePath, SignatureObserved, StorePathOf, Asks;
    OnlySigningAsks(c, job, st, target, env);
    if env.checkpoint.Pass? {
      match job
      case Signing(_, _, _) =>
        SignsIff(c, st, job, target, env);
        SignHaltIff(c, st, job, target, env);
      case Removing(names) =>
        RemovesIff(st, names, target, env);
        RemoveHalts(st, names, target, env);
      case Previewing(_, _) =>
    }
  }

  lemma OnlySigningAsks(c: Crypto, job: Job, st: BatchState, target: Target, env: StepEnv)
    ensures Asks(c, job, st, target, env) ==> job.Signing? && env.checkpoint.Pass?
  {
  }

  lemma {:induction false} RemoveHalts(st: BatchState, names: seq<ByteString>, target: Target, env: StepEnv)
    ensures var r := RemoveTarget(st, names, target, env).1; r.Failure? ==> r.error == OPERATION_FAILED
  {
    hide RealRemove, StorePathOf, CommitRecord;
  }

  lemma {:induction false} SignHaltIff(c: Crypto, st: BatchState, job: Job, target: Target, env: StepEnv)
    requires job.Signing? && env.checkpoint.Pass?
    ensures var r, asks := SignTarget(c, st, job, target, env).1, Asks(c, job, st, target, env);
            && (r == Failure(HaltDropped) <==> asks && env.rpc.DroppedInFlight?)
            && (forall why ::
                  r == Failure(HaltCancelled(why)) <==>
                    asks && (env.rpc == CancelledBeforeSend(why) || env.rpc == CancelledInFlight(why)))
            && (r.Failure? && r.error.HaltFailed? ==> r.error == OPERATION_FAILED)
  {
    hide Decide, FingerprintOf, FreshId, StorePathOf, SignatureValue, SignatureObserved, Inspect, ValidNarinfo,
         EditWith, CommitRecord;
    if env.readable && target.relative in st.cache {
      DecidesAs(c, st.cache[target.relative], target, job.identity, job.oldNames);
    }
  }

  // --------------------------------------------------------------- counting and recording

  /** The request ID of the Sign RPC made between two states, if there was one. */
  function AskedId(st: BatchState, st': BatchState): (r: Option<Id>) {
    if |st'.calls| > |st.calls| then Some(st'.calls[|st.calls|].requestId) else None
  }

  /** The path commit of a record: its own path, fingerprint and RPC. */
  predicate CommitTells(commit: Body, bytes: ByteString, target: Target, signing: bool, asked: Option<Id>) {
    && commit.PathCommit? && commit.storePath == StorePathOf(bytes) && commit.installed == signing
    && commit.fingerprint == (if signing then FingerprintOf(bytes, target) else None)
    && commit.source == (if !signing then NotApplicable else if asked.Some? then ProducedNow else Reused)
    && commit.requestId == asked
  }

  /** What a record's outcome says about it. */
  predicate OutcomeTells(st: BatchState, st': BatchState, outcome: Outcome, target: Target, signing: bool,
                         env: StepEnv) {
    && target.relative in st.cache
    && (outcome.commit.NoChange? <==> st'.cache == st.cache)
    && (outcome.commit.Uncertain? <==> st'.cache != st.cache && env.commit.SyncFails?)
    && var bytes := st.cache[target.relative];
       CommitTells(PathCommit(outcome.storePath, if signing then Some(outcome.fingerprint) else None, outcome.requestId,
                              outcome.source, signing), bytes, target, signing, AskedId(st, st'))
  }

  lemma {:induction false} InstallTells(st: BatchState, target: Target, oldNames: Option<seq<ByteString>>,
                                        value: ByteString, fingerprint: ByteString, requestId: Option<Id>,
                                        source: SignatureSource, env: StepEnv)
    requires target.relative in st.cache
    ensures var bytes := st.cache[target.relative];
            var (st', r) := InstallSignature(st, target, bytes, oldNames, value, fingerprint, requestId, source, env);
            && (r.Failure? ==> st'.cache == st.cache)
            && (r.Success? ==>
                  && (r.value.commit.NoChange? <==> st'.cache == st.cache)
                  && (r.value.commit.Uncertain? <==> st'.cache != st.cache && env.commit.SyncFails?)
                  && r.value.storePath == StorePathOf(bytes) && r.value.fingerprint == fingerprint
                  && r.value.requestId == requestId && r.value.source == source)
  {
    hide EditWith, ValidNarinfo, StorePathOf, SignatureObserved;
    var bytes := st.cache[target.relative];
    if EditWith(bytes, oldNames, value).Success? && EditWith(bytes, oldNames, value).value.Changed? {
      var replacement := EditWith(bytes, oldNames, value).value.bytes;
      if replacement != bytes {
        assert st.cache[target.relative := replacement][target.relative] != st.cache[target.relative];
      }
    }
  }

  /** Signing one record: its outcome, and the counter that moves. */
  lemma {:induction false} SignTells(c: Crypto, st: BatchState, job: Job, target: Target, env: StepEnv)
    requires job.Signing?
    ensures var (st', r) := SignTarget(c, st, job, target, env);
            && (r.Failure? ==> st'.cache == st.cache)
            && (r.Success? ==> OutcomeTells(st, st', r.value, target, true, env))
  {
    hide Decide, FingerprintOf, InstallSignature, FreshId, StorePathOf, SignatureValue, SignatureObserved;
    if env.readable && target.relative in st.cache {
      var bytes := st.cache[target.relative];
      var decision := Decide(c, bytes, target, job.identity, job.oldNames);
      if decision.Success? {
        var fingerprint := FingerprintOf(bytes, target).value;
        if decision.value.UseExisting? {
          InstallTells(st, target, job.oldNames, decision.value.value, fingerprint, None, Reused, env);
        } else if decision.value.NeedSignature? {
          var (signed, reply) := SignAndVerify(c, st, job, target, fingerprint, env);
          if reply.Success? {
            InstallTells(signed, target, job.oldNames, reply.value.0, fingerprint, Some(reply.value.1), ProducedNow,
                         env);
          }
        }
      }
    }
  }

  lemma {:induction false} RemoveTells(st: BatchState, names: seq<ByteString>, target: Target, env: StepEnv)
    ensures var (st', r) := RemoveTarget(st, names, target, env);
            && (r.Failure? ==> st'.cache == st.cache)
            && (r.Success? ==> OutcomeTells(st, st', r.value, target, false, env))
  {
    hide RealRemove, ValidNarinfo, StorePathOf;
    if env.readable && target.relative in st.cache {
      var bytes := st.cache[target.relative];
      var edit := RealRemove(bytes, target, names);
      if edit.Success? && edit.value.Changed? && edit.value.bytes != bytes {
        assert st.cache[target.relative := edit.value.bytes][target.relative] != st.cache[target.relative];
      }
    }
  }

  /** A signature counts as produced when this turn asked for it, and as reused when it did not. */
  lemma {:induction false} SignCounts(c: Crypto, st: BatchState, job: Job, target: Target, env: StepEnv)
    requires job.Signing? && st.audit.counts.produced < USIZE_MAX && st.audit.counts.reused < USIZE_MAX
    ensures var (st', r) := SignTarget(c, st, job, target, env);
            var counts, counts', asked := st.audit.counts, st'.audit.counts, AskedId(st, st').Some?;
            && counts' == counts.(produced := counts'.produced, reused := counts'.reused)
            && counts.produced <= counts'.produced <= counts.produced + One(asked)
            && counts.reused <= counts'.reused <= counts.reused + One(!asked)
            && (r.Success? ==>
                  counts'.produced == counts.produced + One(asked) && counts'.reused == counts.reused + One(!asked))
  {
    hide Decide, FingerprintOf, EditWith, CommitRecord, FreshId, StorePathOf, SignatureValue;
  }

  /** What a turn of a real batch leaves in the trail. */
  lemma {:induction false} TurnRecords(c: Crypto, st: BatchState, job: Job, target: Target, env: StepEnv)
    requires !job.Previewing? && st.audit.counts.untouched < USIZE_MAX
    requires st.audit.counts.produced < USIZE_MAX && st.audit.counts.reused < USIZE_MAX
    ensures var (st', halt) := Step(c, st, job, target, env);
            var counts, counts' := st.audit.counts, st'.audit.counts;
            var events, events' := st.audit.events, st'.audit.events;
            && (st'.cache == st.cache || env.commit.SyncFails? ==> events' == events)
            && (st'.cache != st.cache && !env.commit.SyncFails? ==>
                  && target.relative in st.cache && |events'| == |events| + 1 && events' == events + [events'[|events|]]
                  && CommitTells(events'[|events|].body, st.cache[target.relative], target, job.Signing?,
                                 AskedId(st, st')))
            && (halt.None? ==>
                  && (st'.cache == st.cache || !env.commit.SyncFails?)
                  && counts'.untouched == counts.untouched + One(st'.cache == st.cache)
                  && (job.Signing? ==>
                        && counts'.produced == counts.produced + One(AskedId(st, st').Some?)
                        && counts'.reused == counts.reused + One(AskedId(st, st').None?)))
  {
    hide SignTarget, RemoveTarget, CommitTells, FingerprintOf, StorePathOf;
    if env.checkpoint.Pass? {
      match job
      case Signing(_, _, _) =>
        SignTells(c, st, job, target, env);
        SignCounts(c, st, job, target, env);
        SignTrail(c, st, job, target, env);
      case Removing(names) =>
        RemoveTells(st, names, target, env);
    }
  }

  lemma {:induction false} SignTrail(c: Crypto, st: BatchState, job: Job, target: Target, env: StepEnv)
    requires job.Signing?
    ensures SignTarget(c, st, job, target, env).0.audit.events == st.audit.events
  {
    hide SignTarget;
  }

  /** A preview changes no record and counts it by what the real run would do with it. */
  lemma {:induction false} PreviewCounts(c: Crypto, st: BatchState, job: Job, target: Target, env: StepEnv)
    requires job.Previewing? && st.audit.counts.untouched < USIZE_MAX && st.audit.counts.previewChanges < USIZE_MAX
    ensures var (st', halt) := Step(c, st, job, target, env);
            && st'.cache == st.cache && st'.audit.events == st.audit.events && st'.calls == st.calls
            && (halt.None? ==>
                  && target.relative in st.cache
                  && var outcome := Preview(c, st.cache[target.relative], target, job.asIdentity, job.operation);
                     && st'.audit.counts.previewChanges == st.audit.counts.previewChanges + One(outcome.WouldChange?)
                     && st'.audit.counts.untouched == st.audit.counts.untouched + One(outcome.WouldNotChange?))
  {
    hide Preview, FingerprintOf;
  }
}
