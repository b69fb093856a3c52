/** The same for a remove command. */
module RemoveEffects {
  import opened Bytes
  import opened Sequences
  import opened Narinfo
  import opened NarinfoEdits
  import opened EditOutcomes
  import opened Fingerprint
  import opened Signatures
  import opened SigningTarget
  import opened Audit
  import opened Batch
  import opened BatchResume
  import opened BatchTurns
  import opened BatchCommands
  import opened CommandEffects

  /** Everything before the loop went well. */
  predicate RemovalPrepared(env: CommandEnv, first: Checkpoint) {
    env.argumentsOk && FreshId(env.batchDraws, {}).Some? && first.Pass? && env.root.Opened? && env.selection.Some?
  }

  function RemovalEntered(cache: Cache, dryRun: bool, selectAll: bool, env: CommandEnv): (r: BatchState)
    requires FreshId(env.batchDraws, {}).Some?
  {
    var batchId := FreshId(env.batchDraws, {}).value;
    BatchState(cache, {batchId}, Start(OpRemove, batchId, dryRun, selectAll, None), [])
  }

  function RemovalJob(names: seq<ByteString>, dryRun: bool): (r: Job) {
    if dryRun then Previewing(RemoveKeys(names), Identity([], [], 0)) else Removing(names)
  }

  lemma {:induction false} RemovalShape(c: Crypto, cache: Cache, names: seq<ByteString>, dryRun: bool, selectAll: bool,
                                        env: CommandEnv, first: Checkpoint)
    requires WellFormedEnv(env)
    ensures var r := RunRemove(c, cache, names, dryRun, selectAll, env, first);
            && (r.None? <==> !env.argumentsOk || FreshId(env.batchDraws, {}).None?)
            && (RemovalPrepared(env, first) ==>
                  r == Some(RunLoop(c, RemovalEntered(cache, dryRun, selectAll, env), RemovalJob(names, dryRun),
                                    env.selection.value, env.steps, env.last)))
            && (!RemovalPrepared(env, first) && r.Some? ==>
                  r.value.0.cache == cache && r.value.1.Some? && Commits(r.value.0.audit.events) == [])
  {
    hide RunLoop, FreshId, StopEarly, Start, Commits;
    forall st: BatchState, halt: Halt
      ensures var (st', halt') := StopEarly(st, halt);
              && st'.cache == st.cache && halt' == Some(halt)
              && Commits(st'.audit.events) == Commits(st.audit.events)
    {
      StopsEarly(st, halt);
      StopCommits(st, halt);
    }
    if FreshId(env.batchDraws, {}).Some? {
      StartedCommits(FreshId(env.batchDraws, {}).value, dryRun, selectAll);
    }
  }

  lemma StopCommits(st: BatchState, halt: Halt)
    ensures Commits(StopEarly(st, halt).0.audit.events) == Commits(st.audit.events)
  {
    hide Commits, CloseAudit;
    ClosedCommits(st.audit, Some(halt));
  }

  lemma StartedCommits(batchId: Id, dryRun: bool, selectAll: bool)
    ensures Commits(Start(OpRemove, batchId, dryRun, selectAll, None).events) == []
  {
    hide Commits;
    StartCommits(Start(OpRemove, batchId, dryRun, selectAll, None));
  }

  /** What a remove command does to the cache, however it ends: a dry run nothing; a real run nothing
      to a record that is not selected, and to a selected one nothing or the removal of exactly the
      named keys' signatures. A completed one has stripped them all. */
  lemma {:induction false} CommandStrips(c: Crypto, cache: Cache, names: seq<ByteString>, dryRun: bool, selectAll: bool,
                                         env: CommandEnv, first: Checkpoint)
    requires WellFormedEnv(env) && (env.selection.Some? ==> DistinctRecords(env.selection.value))
    requires RunRemove(c, cache, names, dryRun, selectAll, env, first).Some?
    ensures var (st, halt) := RunRemove(c, cache, names, dryRun, selectAll, env, first).value;
            && (dryRun ==> st.cache == cache)
            && (forall p :: (env.selection.Some? ==> forall t :: t in env.selection.value ==> t.relative != p) ==>
                  SameRecord(cache, st.cache, p))
            && (forall t :: env.selection.Some? && t in env.selection.value ==>
                  SameRecord(cache, st.cache, t.relative) || StrippedIn(names, cache, st.cache, t.relative))
            && (halt.None? ==> env.selection.Some?)
            && (halt.None? && !dryRun ==>
                  forall t :: t in env.selection.value ==> StrippedIn(names, cache, st.cache, t.relative))
  {
    hide RunLoop, FreshId, Stripped, RunRemove, Start;
    RemovalShape(c, cache, names, dryRun, selectAll, env, first);
    if RemovalPrepared(env, first) {
      var entered, targets := RemovalEntered(cache, dryRun, selectAll, env), env.selection.value;
      var job := RemovalJob(names, dryRun);
      LoopRuns(c, entered, job, targets, env.steps, env.last);
      LoopStrips(c, entered.(audit := SetSelected(entered.audit, |targets|)), job, targets, env.steps);
    }
  }

  lemma {:induction false} LoopStrips(c: Crypto, st: BatchState, job: Job, targets: seq<Target>, envs: seq<StepEnv>)
    requires |envs| == |targets| && DistinctRecords(targets) && !job.Signing?
    ensures var (st', halt) := RunTargets(c, st, job, targets, envs);
            && (job.Previewing? ==> st'.cache == st.cache)
            && (forall p :: (forall t :: t in targets ==> t.relative != p) ==> SameRecord(st.cache, st'.cache, p))
            && (job.Removing? ==> forall t :: t in targets ==>
                  || SameRecord(st.cache, st'.cache, t.relative)
                  || StrippedIn(job.keyNames, st.cache, st'.cache, t.relative))
            && (job.Removing? && halt.None? ==>
                  forall t :: t in targets ==> StrippedIn(job.keyNames, st.cache, st'.cache, t.relative))
  {
    hide RunTargets, Stripped;
    var (st', halt) := RunTargets(c, st, job, targets, envs);
    forall p | forall t :: t in targets ==> t.relative != p
      ensures SameRecord(st.cache, st'.cache, p)
    {
      RunTouches(c, st, job, targets, envs, p);
    }
    if job.Previewing? {
      PreviewKeeps(c, st, job, targets, envs);
    } else {
      forall t | t in targets
        ensures SameRecord(st.cache, st'.cache, t.relative)
                || StrippedIn(job.keyNames, st.cache, st'.cache, t.relative)
        ensures halt.None? ==> StrippedIn(job.keyNames, st.cache, st'.cache, t.relative)
      {
        var i :| 0 <= i < |targets| && targets[i] == t;
        RunStrips(c, st, job, targets, envs, i);
      }
    }
  }

  /** A remove command completes exactly when it is prepared and not cancelled at its end, and each
      selected record can be read, is valid, has (in a real run) the selected store path, and gets
      its output line; a record that has something to remove must also be committed for good. */
  lemma {:induction false} RemovalCompletesIff(c: Crypto, cache: Cache, names: seq<ByteString>, dryRun: bool,
                                               selectAll: bool, env: CommandEnv, first: Checkpoint)
    requires WellFormedEnv(env) && (env.selection.Some? ==> DistinctRecords(env.selection.value))
    ensures var r := RunRemove(c, cache, names, dryRun, selectAll, env, first);
            r.Some? && r.value.1.None?
            <==> && RemovalPrepared(env, first) && env.last.Pass?
                 && forall i :: 0 <= i < |env.selection.value| ==>
                      var target, step := env.selection.value[i], env.steps[i];
                      && step.checkpoint.Pass? && step.readable && step.outputOk && target.relative in cache
                      && var bytes := cache[target.relative];
                         && ValidNarinfo(bytes) && ValidKeyNames(names)
                         && (dryRun
                             || (&& SelectedStorePath(bytes, target).Some?
                                 && (step.commit.Durable?
                                     || forall k :: k in names ==> SignaturesBy(Contents(Lines(bytes)), k) == [])))
  {
    hide RunLoop, FreshId, RunRemove, Start, Doable, ValidNarinfo, SignaturesBy, Contents, Lines, SelectedStorePath;
    RemovalShape(c, cache, names, dryRun, selectAll, env, first);
    if RemovalPrepared(env, first) {
      var entered, targets := RemovalEntered(cache, dryRun, selectAll, env), env.selection.value;
      var job := RemovalJob(names, dryRun);
      var selected := entered.(audit := SetSelected(entered.audit, |targets|));
      LoopRuns(c, entered, job, targets, env.steps, env.last);
      RunCompletesIff(c, selected, job, targets, env.steps);
      forall i | 0 <= i < |targets| && targets[i].relative in cache
        ensures Doable(c, job, UsedBefore(c, selected, job, targets, env.steps, i), cache[targets[i].relative],
                       targets[i], env.steps[i])
                <==> && ValidNarinfo(cache[targets[i].relative]) && ValidKeyNames(names)
                     && (dryRun
                         || (&& SelectedStorePath(cache[targets[i].relative], targets[i]).Some?
                             && (env.steps[i].commit.Durable?
                                 || forall k :: k in names ==>
                                      SignaturesBy(Contents(Lines(cache[targets[i].relative])), k) == [])))
      {
        RemovableIff(c, names, dryRun, UsedBefore(c, selected, job, targets, env.steps, i),
                     cache[targets[i].relative], targets[i], env.steps[i]);
      }
    }
  }

  lemma {:induction false} RemovableIff(c: Crypto, names: seq<ByteString>, dryRun: bool, used: set<Id>,
                                        bytes: ByteString, target: Target, env: StepEnv)
    ensures Doable(c, RemovalJob(names, dryRun), used, bytes, target, env)
            <==> && ValidNarinfo(bytes) && ValidKeyNames(names)
                 && (dryRun
                     || (&& SelectedStorePath(bytes, target).Some?
                         && (env.commit.Durable?
                             || forall k :: k in names ==> SignaturesBy(Contents(Lines(bytes)), k) == [])))
  {
    hide ValidNarinfo, EditNarinfo, SignaturesBy, Contents, Lines, SelectedStorePath, ValidateForMutation,
         ValidKeyNames;
    EditOutcomeIff(bytes, Remove(names));
    ValidationIff(bytes);
    if EditNarinfo(bytes, Remove(names)).Success? {
      EditUnchangedIff(bytes, Remove(names));
    }
  }

  /** The trail of a remove command, as of any other: the path commits are its changed records, in
      order, up to the one it stopped at. */
  lemma {:induction false} RemovalTells(c: Crypto, cache: Cache, names: seq<ByteString>, dryRun: bool, selectAll: bool,
                                        env: CommandEnv, first: Checkpoint)
    requires WellFormedEnv(env) && (env.selection.Some? ==> DistinctRecords(env.selection.value))
    requires RunRemove(c, cache, names, dryRun, selectAll, env, first).Some?
    ensures var (st, halt) := RunRemove(c, cache, names, dryRun, selectAll, env, first).value;
            var commits, counts := Commits(st.audit.events), st.audit.counts;
            && (commits == [] || (!dryRun && env.selection.Some?))
            && (!dryRun && env.selection.Some? ==>
                  exists m :: 0 <= m <= |env.selection.value|
                              && commits == Changes(cache, st.cache, env.selection.value[..m], false))
            && (halt.None? ==>
                  && env.selection.Some? && counts.selected == |env.selection.value|
                  && var targets := env.selection.value;
                     if dryRun then
                       && counts.previewChanges == Announced(c, cache, targets, Identity([], [], 0), RemoveKeys(names))
                       && counts.untouched == |targets| - counts.previewChanges
                     else
                       && commits == Changes(cache, st.cache, targets, false)
                       && counts.untouched == |targets| - |commits|)
  {
    hide RunLoop, FreshId, RunRemove, Commits, Changes, Announced, Start;
    RemovalShape(c, cache, names, dryRun, selectAll, env, first);
    if RemovalPrepared(env, first) {
      PreparedRemovalTells(c, cache, names, dryRun, selectAll, env);
    } else if env.selection.Some? {
      NoChanges(cache, cache, env.selection.value[..0], false);
    }
  }

  lemma {:induction false} PreparedRemovalTells(c: Crypto, cache: Cache, names: seq<ByteString>, dryRun: bool,
                                                selectAll: bool, env: CommandEnv)
    requires WellFormedEnv(env) && FreshId(env.batchDraws, {}).Some? && env.selection.Some?
    requires DistinctRecords(env.selection.value)
    ensures var targets := env.selection.value;
            var (st, halt) := RunLoop(c, RemovalEntered(cache, dryRun, selectAll, env), RemovalJob(names, dryRun),
                                      targets, env.steps, env.last);
            var commits, counts := Commits(st.audit.events), st.audit.counts;
            && counts.selected == |targets|
            && (dryRun ==> commits == [])
            && (!dryRun ==> exists m :: 0 <= m <= |targets| && commits == Changes(cache, st.cache, targets[..m], false))
            && (halt.None? ==>
                  if dryRun then
                    && counts.previewChanges == Announced(c, cache, targets, Identity([], [], 0), RemoveKeys(names))
                    && counts.untouched == |targets| - counts.previewChanges
                  else
                    && commits == Changes(cache, st.cache, targets, false)
                    && counts.untouched == |targets| - |commits|)
  {
    hide RunLoop, FreshId, Changes, Announced, RunTargets, CloseAudit;
    var entered, targets := RemovalEntered(cache, dryRun, selectAll, env), env.selection.value;
    var job := RemovalJob(names, dryRun);
    var selected := entered.(audit := SetSelected(entered.audit, |targets|));
    var (after, halt) := RunTargets(c, selected, job, targets, env.steps);
    LoopRuns(c, entered, job, targets, env.steps, env.last);
    ClosedCommits(after.audit, RunLoop(c, entered, job, targets, env.steps, env.last).1);
    assert Commits(selected.audit.events) == [];
    RunKeepsSelected(c, selected, job, targets, env.steps);
    if dryRun {
      PreviewRun(c, selected, job, targets, env.steps);
    } else {
      RunTells(c, selected, job, targets, env.steps);
    }
  }
}
