/** A batch that nothing disturbs, and a replace batch whose stop shows in the cache for good. */
module RerunExample {
  import opened Bytes
  import opened Narinfo
  import opened NarinfoEdits
  import opened Fingerprint
  import opened Signatures
  import opened SigningTarget
  import opened Audit
  import opened Batch
  import opened BatchResume
  import opened BatchRerun
  import opened PlainRecord
  import opened Witnesses

  // ---------------------------------------------------------------- an undisturbed turn

  /** The environment grants everything the turn asks for, but perhaps the output line. */
  predicate Smooth(job: Job, signer: Signer, st: BatchState, target: Target, env: StepEnv) {
    && env.checkpoint.Pass? && env.readable && env.commit.Durable? && target.relative in st.cache
    && (job.Signing? ==>
          && FreshId(env.draws, st.used).Some?
          && (FingerprintOf(st.cache[target.relative], target).Some? ==>
                env.rpc == Replied(job.identity, signer(FingerprintOf(st.cache[target.relative], target).value))))
  }

  lemma {:induction false} SmoothInstall(st: BatchState, target: Target, oldNames: Option<seq<ByteString>>,
                                         value: ByteString, fingerprint: ByteString, requestId: Option<Id>,
                                         source: SignatureSource, env: StepEnv)
    requires target.relative in st.cache && env.commit.Durable?
    ensures var bytes := st.cache[target.relative];
            var (st', r) := InstallSignature(st, target, bytes, oldNames, value, fingerprint, requestId, source, env);
            var out := EditedBytes(EditWith(bytes, oldNames, value), bytes);
            && (r.Success? <==> out.Some?) && (r.Success? ==> !r.value.commit.Uncertain?)
            && (out.Some? ==> st'.cache == st.cache[target.relative := out.value])
  {
    hide EditNarinfo, ValidNarinfo, StorePathOf, SignatureObserved;
    var bytes := st.cache[target.relative];
    assert st.cache[target.relative := bytes] == st.cache;
    if EditWith(bytes, oldNames, value).Success? {
      EditKeepsValidity(bytes, MutationFor(oldNames, value));
      ValidFitsFile(Apply(EditWith(bytes, oldNames, value).value, bytes));
    }
  }

  lemma ValidFitsFile(bytes: ByteString)
    requires ValidNarinfo(bytes)
    ensures |bytes| <= MAX_NARINFO_BYTES
  {
  }

  lemma {:induction false} SmoothSigning(c: Crypto, st: BatchState, job: Job, signer: Signer, target: Target,
                                         env: StepEnv)
    requires UsableIdentity(c, job) && Smooth(job, signer, st, target, env)
    requires ValidSigner(c, job, signer, st.cache[target.relative], target)
    ensures var (st', r) := SignTarget(c, st, job, target, env);
            var out := NewBytes(c, job, signer, st.cache[target.relative], target);
            && (r.Success? <==> out.Some?) && (r.Success? ==> !r.value.commit.Uncertain?)
            && (out.Some? ==> st'.cache == st.cache[target.relative := out.value])
  {
    hide Decide, FingerprintOf, InstallSignature, FreshId, StorePathOf, SignatureValue, SignatureObserved, EditedBytes,
         EditWith, Lawful, WellFormedKeyName;
    var bytes := st.cache[target.relative];
    assert st.cache[target.relative := bytes] == st.cache;
    var decision := Decide(c, bytes, target, job.identity, job.oldNames);
    if decision.Success? && !decision.value.LeaveAlone? {
      var fingerprint := FingerprintOf(bytes, target).value;
      if decision.value.UseExisting? {
        SmoothInstall(st, target, job.oldNames, decision.value.value, fingerprint, None, Reused, env);
      } else {
        var (signed, reply) := SignAndVerify(c, st, job, target, fingerprint, env);
        assert reply.Success?;
        SmoothInstall(signed, target, job.oldNames, reply.value.0, fingerprint, Some(reply.value.1), ProducedNow, env);
      }
    }
  }

  lemma {:induction false} SmoothRemoving(c: Crypto, st: BatchState, job: Job, signer: Signer, target: Target,
                                          env: StepEnv)
    requires job.Removing? && Smooth(job, signer, st, target, env)
    ensures var (st', r) := RemoveTarget(st, job.keyNames, target, env);
            var out := NewBytes(c, job, signer, st.cache[target.relative], target);
            && (r.Success? <==> out.Some?) && (r.Success? ==> !r.value.commit.Uncertain?)
            && (out.Some? ==> st'.cache == st.cache[target.relative := out.value])
  {
    hide EditNarinfo, StorePathOf, ValidNarinfo, SelectedStorePath;
    var bytes := st.cache[target.relative];
    assert st.cache[target.relative := bytes] == st.cache;
    if RealRemove(bytes, target, job.keyNames).Success? {
      EditKeepsValidity(bytes, Remove(job.keyNames));
      ValidFitsFile(Apply(RealRemove(bytes, target, job.keyNames).value, bytes));
    }
  }

  /** A turn that nothing disturbs writes its record exactly when the job can be done on it, and
      finishes exactly when its output line is written too. */
  lemma {:induction false} SmoothTurnIff(c: Crypto, st: BatchState, job: Job, signer: Signer, target: Target,
                                         env: StepEnv)
    requires Smooth(job, signer, st, target, env)
    requires job.Removing?
             || (UsableIdentity(c, job) && ValidSigner(c, job, signer, st.cache[target.relative], target))
    ensures var (st', halt) := Step(c, st, job, target, env);
            var out := NewBytes(c, job, signer, st.cache[target.relative], target);
            && (halt.None? <==> out.Some? && env.outputOk)
            && (out.Some? ==> st'.cache == st.cache[target.relative := out.value])
  {
    hide SignTarget, RemoveTarget, NewBytes, ValidSigner;
    if job.Removing? {
      SmoothRemoving(c, st, job, signer, target, env);
    } else {
      SmoothSigning(c, st, job, signer, target, env);
    }
  }

  // ------------------------------------------------------------- a stop that shows for good

  /** The insertion point of an unsigned record without a last newline is its end, and no removal
      changes that. */
  lemma {:induction false} UnsignedIsOpen(s: ByteString, names: seq<ByteString>)
    requires !Terminated(s) && forall l :: l in Contents(Lines(s)) ==> !(SIG <= l)
    ensures Filtered(s, names) == s && InsertsAtOpenEnd(s)
  {
    hide Lines, Filtered, Terminated, Content;
    FilteredOfKept(s, names);
    var lines := Lines(s);
    forall i | 0 <= i < |lines|
      ensures !(SIG <= Content(lines[i]))
    {
      assert Contents(lines)[i] in Contents(lines);
    }
  }

  /** A record that lacks its signature and ends unsigned and without a newline, a replace of the
      key by itself, and a signer whose signature fits. */
  ghost predicate Unlucky(c: Crypto, job: Job, signer: Signer, bytes: ByteString, target: Target) {
    && UsableIdentity(c, job) && job.oldNames == Some([job.identity.keyName])
    && Decide(c, bytes, target, job.identity, job.oldNames) == Success(NeedSignature)
    && !Terminated(bytes) && (forall l :: l in Contents(Lines(bytes)) ==> !(SIG <= l))
    && ValidSigner(c, job, signer, bytes, target)
    && |Value(c, job, signer, bytes, target)| <= MAX_SIGNATURE_VALUE_BYTES
    && |bytes| + |Value(c, job, signer, bytes, target)| + 7 <= MAX_NARINFO_BYTES
  }

  function Value(c: Crypto, job: Job, signer: Signer, bytes: ByteString, target: Target): (r: ByteString)
    requires job.Signing? && FingerprintOf(bytes, target).Some?
  {
    SignatureValue(c, job.identity, signer(FingerprintOf(bytes, target).value))
  }

  /** The first turn appends the signature, ... */
  lemma {:induction false} UnluckyOnce(c: Crypto, job: Job, signer: Signer, bytes: ByteString, target: Target)
    requires Unlucky(c, job, signer, bytes, target)
    ensures var value := Value(c, job, signer, bytes, target);
            && NewBytes(c, job, signer, bytes, target) == Some(Inserted(bytes, value))
            && NewVersion(c, job, bytes, Inserted(bytes, value), target, value)
  {
    hide FingerprintOf, EditWith, Lawful, WellFormedKeyName, Inserted, SignatureValue, Genuine, Filtered,
         InsertsAtOpenEnd, ValidNarinfo, Lines, Contents, Inspect;
    var id, fingerprint := job.identity, FingerprintOf(bytes, target).value;
    UnsignedIsOpen(bytes, job.oldNames.value);
    ProducedIsGenuine(c, id, fingerprint, signer(fingerprint));
    NeededSignatureEdit(c, bytes, target, id, job.oldNames, signer(fingerprint));
  }

  /** ... and the second can be done too. */
  lemma {:induction false} UnluckyTwice(c: Crypto, job: Job, signer: Signer, bytes: ByteString, target: Target)
    requires Unlucky(c, job, signer, bytes, target)
    ensures NewBytes(c, job, signer, Inserted(bytes, Value(c, job, signer, bytes, target)), target).Some?
  {
    hide Decide, FingerprintOf, Lawful, WellFormedKeyName, Inserted, SignatureValue, Genuine, Filtered, AddSignature,
         SignatureKey, InsertsAtOpenEnd, ValidNarinfo, Lines, Contents, Inspect, Terminated, Apply, NewVersion;
    var value, names := Value(c, job, signer, bytes, target), job.oldNames.value;
    UnluckyOnce(c, job, signer, bytes, target);
    NewVersionSettles(c, job, bytes, Inserted(bytes, value), target, value);
    UnluckyEdits(c, job, signer, bytes, target);
  }

  lemma {:induction false} UnluckyEdits(c: Crypto, job: Job, signer: Signer, bytes: ByteString, target: Target)
    requires Unlucky(c, job, signer, bytes, target)
    ensures var value := Value(c, job, signer, bytes, target);
            EditWith(Inserted(bytes, value), job.oldNames, value).Success?
  {
    hide Decide, FingerprintOf, Lawful, WellFormedKeyName, Inserted, SignatureValue, Genuine, Filtered, AddSignature,
         SignatureKey, InsertsAtOpenEnd, ValidNarinfo, Lines, Contents, Inspect, Terminated;
    var value, names := Value(c, job, signer, bytes, target), job.oldNames.value;
    var once := Inserted(bytes, value);
    UnluckyOnce(c, job, signer, bytes, target);
    EditKeepsValidity(bytes, MutationFor(job.oldNames, value));
    UnsignedIsOpen(bytes, names);
    FilteredAllKept(bytes, names);
    ProducedIsGenuine(c, job.identity, FingerprintOf(bytes, target).value, signer(FingerprintOf(bytes, target).value));
    ValidIsNonEmpty(bytes);
    FilteredInserted(bytes, value, names);
    ReplaceOfRemovedKey(once, names, value);
    ValidIsKeyed(once);
  }

  /** Done twice it is not the same as once. */
  lemma {:induction false} UnluckyDiffers(c: Crypto, job: Job, signer: Signer, bytes: ByteString, target: Target)
    requires Unlucky(c, job, signer, bytes, target)
    ensures var once := Inserted(bytes, Value(c, job, signer, bytes, target));
            && FingerprintOf(once, target) == FingerprintOf(bytes, target)
            && NewBytes(c, job, signer, once, target).Some?
            && NewBytes(c, job, signer, once, target).value != once
  {
    hide Decide, FingerprintOf, Lawful, WellFormedKeyName, Inserted, SignatureValue, Filtered, Terminated, NewBytes,
         InsertsAtOpenEnd, ValidNarinfo, Lines, Contents, Inspect, NewVersion, Produced;
    var value, names := Value(c, job, signer, bytes, target), job.oldNames.value;
    UnluckyOnce(c, job, signer, bytes, target);
    UnluckyTwice(c, job, signer, bytes, target);
    NewVersionSettles(c, job, bytes, Inserted(bytes, value), target, value);
    UnsignedIsOpen(bytes, names);
    UnluckyNonEmpty(c, job, signer, bytes, target);
    InsertedLength(bytes, value);
    TwiceIff(c, job, signer, bytes, target);
  }

  lemma UnluckyNonEmpty(c: Crypto, job: Job, signer: Signer, bytes: ByteString, target: Target)
    requires Unlucky(c, job, signer, bytes, target)
    ensures bytes != []
  {
    hide FingerprintOf, Inspect, Lawful, ValidNarinfo, ValidateForMutation, ValidSigner;
    ValidationIff(bytes);
    if ValidNarinfo(bytes) {
      ValidIsNonEmpty(bytes);
    }
  }

  lemma RunOne(c: Crypto, st: BatchState, job: Job, target: Target, env: StepEnv)
    ensures RunTargets(c, st, job, [target], [env]) == Step(c, st, job, target, env)
  {
    hide Step;
    var after := Step(c, st, job, target, env).0;
    assert [target][1..] == [] && [env][1..] == [];
    assert RunTargets(c, after, job, [], []) == (after, None);
  }

  /** Stopped by its output, the first run has committed the record. */
  lemma {:induction false} StoppedCache(c: Crypto, job: Job, signer: Signer, target: Target, first: BatchState,
                                        env: StepEnv)
    requires target.relative in first.cache && Unlucky(c, job, signer, first.cache[target.relative], target)
    requires Smooth(job, signer, first, target, env)
    ensures var (stopped, halt) := RunTargets(c, first, job, [target], [env]);
            var bytes := first.cache[target.relative];
            var once := Inserted(bytes, Value(c, job, signer, bytes, target));
            && stopped.cache == first.cache[target.relative := once] && (halt.None? <==> env.outputOk)
            && FingerprintOf(once, target) == FingerprintOf(bytes, target)
  {
    hide Step, NewBytes, Decide, Inserted, Value, FingerprintOf, Lawful, WellFormedKeyName, Produced, Contents, Lines,
         Terminated, RunTargets, Smooth;
    RunOne(c, first, job, target, env);
    UnluckyOnce(c, job, signer, first.cache[target.relative], target);
    UnluckyDiffers(c, job, signer, first.cache[target.relative], target);
    SmoothTurnIff(c, first, job, signer, target, env);
  }

  /** Run again to the end, it leaves another cache than the run that was not stopped. */
  lemma {:induction false} StopShows(c: Crypto, job: Job, signer: Signer, target: Target, first: BatchState,
                                     env: StepEnv, second: BatchState, env': StepEnv)
    requires target.relative in first.cache && Unlucky(c, job, signer, first.cache[target.relative], target)
    requires Smooth(job, signer, first, target, env)
    requires second.cache == RunTargets(c, first, job, [target], [env]).0.cache
    requires Smooth(job, signer, second, target, env') && env'.outputOk
    ensures var (final, halt) := RunTargets(c, second, job, [target], [env']);
            halt.None? && final.cache != second.cache
  {
    hide Step, NewBytes, Decide, Inserted, Value, FingerprintOf, Lawful, WellFormedKeyName, Produced, Contents, Lines,
         Terminated, RunTargets, Smooth;
    var bytes := first.cache[target.relative];
    var once := Inserted(bytes, Value(c, job, signer, bytes, target));
    StoppedCache(c, job, signer, target, first, env);
    RunOne(c, second, job, target, env');
    UnluckyDiffers(c, job, signer, bytes, target);
    assert second.cache[target.relative] == once;
    SmoothTurnIff(c, second, job, signer, target, env');
    assert RunTargets(c, second, job, [target], [env']).0.cache[target.relative] != once;
  }

  // ------------------------------------------------------------------- a concrete batch

  const KEY: Identity := Identity(Ascii("k"), Repeat(0, SIGNATURE_LEN), 1)
  const REQUEST: Id := [1, 0, 0, 0, 0, 0, 0, 0, 0, 0, 0, 0, 0, 0, 0, 0]
  const REPLACE: Job := Signing(REQUEST, KEY, Some([Ascii("k")]))
  const GRANTED: StepEnv := StepEnv(Pass, true, [REQUEST], Replied(KEY, Repeat(0, SIGNATURE_LEN)), Durable, true)

  function Constant(): Signer {
    (_: ByteString) => Repeat(0, SIGNATURE_LEN)
  }

  lemma {:induction false} LettersLength(s: ByteString)
    ensures |Letters(s)| == 2 * |s|
  {
    if s != [] {
      LettersLength(s[1..]);
    }
  }

  lemma {:induction false} PlainIsUnlucky(c: Crypto, job: Job, signer: Signer)
    requires UsableIdentity(c, job) && job.oldNames == Some([job.identity.keyName])
    requires ValidSigner(c, job, signer, PlainBytes(4), PLAIN_TARGET)
    requires forall s :: |SignatureValue(c, job.identity, signer(s))| <= MAX_SIGNATURE_VALUE_BYTES
    ensures Unlucky(c, job, signer, PlainBytes(4), PLAIN_TARGET)
  {
    hide Repeat, PlainBytes, PlainLines, Decide, FingerprintOf, Lawful, WellFormedKeyName, ValidSigner, Terminated,
         Contents, Lines, SignatureValue, PLAIN_TARGET;
    PlainNeedsSignature(c, 4, job.identity, job.oldNames);
    PlainContents(4);
    PlainIsOpen(4);
    PlainUnsigned(4);
    PlainIsShort();
  }

  lemma PlainIsShort()
    ensures |PlainBytes(4)| < 1000
  {
    hide PlainBytes, Repeat;
    PlainLength(4);
  }

  lemma {:induction false} ExampleUsable()
    ensures UsableIdentity(ToyCrypto(), REPLACE)
  {
    hide Repeat, Lawful, ToyCrypto;
    LawfulIsPossible();
  }

  lemma {:induction false} ExampleSigns(bytes: ByteString, target: Target)
    ensures ValidSigner(ToyCrypto(), REPLACE, Constant(), bytes, target)
    ensures forall s :: |SignatureValue(ToyCrypto(), KEY, Constant()(s))| <= MAX_SIGNATURE_VALUE_BYTES
  {
    hide Repeat, FingerprintOf, Letters;
    LettersLength(Repeat(0, SIGNATURE_LEN));
  }

  lemma {:induction false} ExampleIsUnlucky()
    ensures Unlucky(ToyCrypto(), REPLACE, Constant(), PlainBytes(4), PLAIN_TARGET)
  {
    hide Repeat, PlainBytes, Unlucky, UsableIdentity, ValidSigner, SignatureValue, ToyCrypto, Constant, PLAIN_TARGET;
    ExampleUsable();
    ExampleSigns(PlainBytes(4), PLAIN_TARGET);
    PlainIsUnlucky(ToyCrypto(), REPLACE, Constant());
  }

  lemma {:induction false} GrantedIsSmooth(st: BatchState)
    requires st.used == {} && PLAIN_TARGET.relative in st.cache
    ensures Smooth(REPLACE, Constant(), st, PLAIN_TARGET, GRANTED)
    ensures Smooth(REPLACE, Constant(), st, PLAIN_TARGET, GRANTED.(outputOk := false))
  {
    hide Repeat, FingerprintOf, PLAIN_TARGET;
    assert REQUEST[0] != ZERO_ID[0];
  }

  /** One record and a key replaced by itself: the run that is not stopped, and the one stopped by
      its output line and run again, leave different caches. */
  lemma {:induction false} RerunDiffersOnExample(audit: State)
    ensures var first := BatchState(map[PLAIN_TARGET.relative := PlainBytes(4)], {}, audit, []);
            var (stopped, why) :=
              RunTargets(ToyCrypto(), first, REPLACE, [PLAIN_TARGET], [GRANTED.(outputOk := false)]);
            var second := BatchState(stopped.cache, {}, audit, []);
            var (final, halt') := RunTargets(ToyCrypto(), second, REPLACE, [PLAIN_TARGET], [GRANTED]);
            var (whole, halt) := RunTargets(ToyCrypto(), first, REPLACE, [PLAIN_TARGET], [GRANTED]);
            why.Some? && halt.None? && halt'.None? && final.cache != whole.cache
  {
    hide Repeat, PlainBytes, Unlucky, Smooth, Value, Inserted, FingerprintOf, RunTargets, PLAIN_TARGET, REPLACE,
         ToyCrypto, Constant;
    ExampleIsUnlucky();
    var first := BatchState(map[PLAIN_TARGET.relative := PlainBytes(4)], {}, audit, []);
    var halting := GRANTED.(outputOk := false);
    var stopped := RunTargets(ToyCrypto(), first, REPLACE, [PLAIN_TARGET], [halting]).0;
    var second := BatchState(stopped.cache, {}, audit, []);
    GrantedIsSmooth(first);
    StoppedCache(ToyCrypto(), REPLACE, Constant(), PLAIN_TARGET, first, GRANTED);
    StoppedCache(ToyCrypto(), REPLACE, Constant(), PLAIN_TARGET, first, halting);
    GrantedIsSmooth(second);
    StopShows(ToyCrypto(), REPLACE, Constant(), PLAIN_TARGET, first, halting, second, GRANTED);
  }
}
