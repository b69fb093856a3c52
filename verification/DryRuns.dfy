/** What a dry run announces about a record, against what the real run then does with it. */
module DryRuns {
  import opened Bytes
  import opened Narinfo
  import opened NarinfoEdits
  import opened EditOutcomes
  import opened Fingerprint
  import opened CanonicalFingerprint
  import opened Signatures
  import opened SigningTarget
  import opened Batch
  import opened BatchResume
  import opened BatchRerun
  import opened BatchTurns
  import opened RerunExample

  /** The edit compared with the dry run is the one the turn makes. */
  lemma {:induction false} TurnMakesRealEdit(c: Crypto, job: Job, signer: Signer, bytes: ByteString, target: Target,
                                             signature: ByteString)
    requires job.Signing?
    requires FingerprintOf(bytes, target).Some? ==> signature == signer(FingerprintOf(bytes, target).value)
    ensures var value := SignatureValue(c, job.identity, signature);
            var edit := RealEdit(c, bytes, target, job.identity, job.oldNames, value);
            && NewBytes(c, job, signer, bytes, target) == EditedBytes(edit, bytes)
            && (edit.Success? ==> (edit.value.Changed? <==> Apply(edit.value, bytes) != bytes))
  {
    hide Decide, FingerprintOf, EditNarinfo, SignatureValue, Apply;
    var d := Decide(c, bytes, target, job.identity, job.oldNames);
    DecidesAs(c, bytes, target, job.identity, job.oldNames);
    if d.Success? && !d.value.LeaveAlone? {
      var value := if d.value.UseExisting? then d.value.value else SignatureValue(c, job.identity, signature);
      if EditWith(bytes, job.oldNames, value).Success? {
        EditUnchangedIff(bytes, MutationFor(job.oldNames, value));
      }
    }
    LeftAlone(bytes);
  }

  lemma LeftAlone(bytes: ByteString)
    ensures Apply(Unchanged, bytes) == bytes
  {
  }

  /** A signature the record turns out to need has room. */
  predicate NeedFits(c: Crypto, job: Job, signer: Signer, bytes: ByteString, target: Target)
    requires job.Signing?
  {
    Decide(c, bytes, target, job.identity, job.oldNames) == Success(NeedSignature) ==>
      Fits(bytes, job.oldNames, SignatureValue(c, job.identity, signer(FingerprintOf(bytes, target).value)))
  }

  /** What a preview says comes true. */
  predicate Foretold(outcome: PreviewOutcome, before: Cache, now: Cache, halt: Option<Halt>) {
    && (outcome.WouldChange? <==> halt.None? && now != before)
    && (outcome.WouldNotChange? <==> halt.None? && now == before)
    && (halt.Some? ==> now == before)
  }

  /** For sign and replace: in a real run that nothing disturbs, the preview comes true exactly when
      a signature the record needs has room. */
  lemma {:induction false} PreviewComesTrueIff(c: Crypto, st: BatchState, job: Job, signer: Signer, target: Target,
                                               env: StepEnv)
    requires UsableIdentity(c, job) && (job.oldNames.Some? ==> ValidKeyNames(job.oldNames.value))
    requires Smooth(job, signer, st, target, env) && env.outputOk
    requires ValidSigner(c, job, signer, st.cache[target.relative], target)
    ensures var (st', halt) := Step(c, st, job, target, env);
            var bytes := st.cache[target.relative];
            Foretold(Preview(c, bytes, target, job.identity, OperationOf(job.oldNames)), st.cache, st'.cache, halt)
            <==> NeedFits(c, job, signer, bytes, target)
  {
    hide Step, Decide, FingerprintOf, SignatureValue, Preview, RealEdit, Fits, FreshId, NewBytes, Produced, Lawful,
         WellFormedKeyName, Apply;
    var bytes, f := st.cache[target.relative], FingerprintOf(st.cache[target.relative], target);
    SmoothTurnIff(c, st, job, signer, target, env);
    var signature := if f.Some? then signer(f.value) else [];
    TurnMakesRealEdit(c, job, signer, bytes, target, signature);
    var out := NewBytes(c, job, signer, bytes, target);
    if out.None? {
      StoppedTurnKeeps(c, st, job, signer, target, env);
    } else if out.value != bytes {
      assert st.cache[target.relative := out.value][target.relative] != bytes;
    } else {
      assert st.cache[target.relative := bytes] == st.cache;
    }
    DecidesAs(c, bytes, target, job.identity, job.oldNames);
    DryRunAgreesIff(c, bytes, target, job.identity, job.oldNames, signature);
    if !NeedFits(c, job, signer, bytes, target) {
      AnnouncedNeed(c, job, signer, bytes, target);
    }
  }

  /** Without room the preview announces a change and the real run refuses. */
  lemma {:induction false} AnnouncedNeed(c: Crypto, job: Job, signer: Signer, bytes: ByteString, target: Target)
    requires UsableIdentity(c, job) && (job.oldNames.Some? ==> ValidKeyNames(job.oldNames.value))
    requires ValidSigner(c, job, signer, bytes, target) && !NeedFits(c, job, signer, bytes, target)
    ensures Preview(c, bytes, target, job.identity, OperationOf(job.oldNames)).WouldChange?
    ensures var value := SignatureValue(c, job.identity, signer(FingerprintOf(bytes, target).value));
            RealEdit(c, bytes, target, job.identity, job.oldNames, value).Failure?
  {
    hide FingerprintOf, SignatureValue, Fits, Lawful, WellFormedKeyName, EditWith, Inspect, ValidateForMutation;
    NeededSignatureEdit(c, bytes, target, job.identity, job.oldNames, signer(FingerprintOf(bytes, target).value));
    FitsIsShort(bytes, job.oldNames, SignatureValue(c, job.identity, signer(FingerprintOf(bytes, target).value)));
  }

  lemma {:induction false} StoppedTurnKeeps(c: Crypto, st: BatchState, job: Job, signer: Signer, target: Target,
                                            env: StepEnv)
    requires UsableIdentity(c, job) && Smooth(job, signer, st, target, env)
    requires NewBytes(c, job, signer, st.cache[target.relative], target).None?
    ensures Step(c, st, job, target, env).0.cache == st.cache
  {
    hide Step, NewBytes, FingerprintOf, FreshId, Lawful, WellFormedKeyName;
    StepBytes(c, st, job, signer, target, env);
  }

  /** For remove it comes true exactly when the record is invalid or has the selected store path. */
  lemma {:induction false} RemovePreviewComesTrueIff(c: Crypto, st: BatchState, job: Job, signer: Signer,
                                                     target: Target, env: StepEnv, id: Identity)
    requires job.Removing? && ValidKeyNames(job.keyNames) && Smooth(job, signer, st, target, env) && env.outputOk
    ensures var (st', halt) := Step(c, st, job, target, env);
            var bytes := st.cache[target.relative];
            Foretold(Preview(c, bytes, target, id, RemoveKeys(job.keyNames)), st.cache, st'.cache, halt)
            <==> !ValidNarinfo(bytes) || SelectedStorePath(bytes, target).Some?
  {
    hide Step, Preview, RealRemove, FreshId, FingerprintOf, ValidNarinfo, SelectedStorePath, Apply;
    var bytes := st.cache[target.relative];
    SmoothTurnIff(c, st, job, signer, target, env);
    RemoveDryRunAgreesIff(c, bytes, target, id, job.keyNames);
    RemovesTold(bytes, target, job.keyNames);
    UnselectedRefused(c, bytes, target, job.keyNames, id);
    var out := NewBytes(c, job, signer, bytes, target);
    if out.None? {
      StepStops(c, st, job, signer, target, env);
    } else if out.value != bytes {
      assert st.cache[target.relative := out.value][target.relative] != bytes;
    } else {
      assert st.cache[target.relative := bytes] == st.cache;
    }
  }

  lemma {:induction false} RemovesTold(bytes: ByteString, target: Target, names: seq<ByteString>)
    ensures var edit := RealRemove(bytes, target, names);
            edit.Success? ==> (edit.value.Changed? <==> Apply(edit.value, bytes) != bytes)
  {
    hide EditNarinfo, SelectedStorePath, ValidateForMutation, Apply;
    if EditNarinfo(bytes, Remove(names)).Success? {
      EditUnchangedIff(bytes, Remove(names));
    }
  }

  lemma {:induction false} UnselectedRefused(c: Crypto, bytes: ByteString, target: Target, names: seq<ByteString>,
                                             id: Identity)
    requires ValidKeyNames(names)
    ensures ValidNarinfo(bytes) ==> !Preview(c, bytes, target, id, RemoveKeys(names)).Refused?
    ensures SelectedStorePath(bytes, target).None? ==> RealRemove(bytes, target, names).Failure?
  {
    hide EditNarinfo, SelectedStorePath, ValidateForMutation, ValidNarinfo;
    ValidationIff(bytes);
    EditOutcomeIff(bytes, Remove(names));
  }

  lemma {:induction false} StepStops(c: Crypto, st: BatchState, job: Job, signer: Signer, target: Target, env: StepEnv)
    requires job.Removing? && target.relative in st.cache
    requires NewBytes(c, job, signer, st.cache[target.relative], target).None?
    ensures Step(c, st, job, target, env).0.cache == st.cache
  {
    hide RealRemove, StorePathOf;
  }
}
