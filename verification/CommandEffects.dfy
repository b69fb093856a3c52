/** What a whole sign, replace or remove command does to the cache and writes in its trail, told
    from its arguments and its environment. */
module CommandEffects {
  import opened Bytes
  import opened Sequences
  import opened Narinfo
  import opened NarinfoEdits
  import opened EditOutcomes
  import opened Fingerprint
  import opened CanonicalFingerprint
  import opened Signatures
  import opened SigningTarget
  import opened Audit
  import opened Batch
  import opened BatchResume
  import opened BatchTurns
  import opened BatchCommands

  // ------------------------------------------------------------------------- records

  /** The record lost every signature of the named keys and nothing else. */
  ghost predicate Stripped(names: seq<ByteString>, before: ByteString, now: ByteString) {
    var b, n := Contents(Lines(before)), Contents(Lines(now));
    && UnsignedLines(n) == UnsignedLines(b)
    && forall key :: SignaturesBy(n, key) == if key in names then [] else SignaturesBy(b, key)
  }

  /** The record carries one verifying signature of the key, lost the signatures of the old names, and kept its
      fingerprint, its other lines and the signatures of every other key. */
  ghost predicate Signed(c: Crypto, id: Identity, oldNames: seq<ByteString>, before: ByteString, now: ByteString,
                         target: Target)
  {
    var b, n := Contents(Lines(before)), Contents(Lines(now));
    && UnsignedLines(n) == UnsignedLines(b)
    && FingerprintOf(before, target).Some? && FingerprintOf(now, target) == FingerprintOf(before, target)
    && Carries(c, id, FingerprintOf(before, target).value, SignaturesBy(n, id.keyName))
    && forall key :: key != id.keyName ==> SignaturesBy(n, key) == if key in oldNames then [] else SignaturesBy(b, key)
  }

  function NamesOf(oldNames: Option<seq<ByteString>>): (r: seq<ByteString>) {
    if oldNames.Some? then oldNames.value else []
  }

  lemma {:induction false} RenewedIsSigned(c: Crypto, job: Job, before: ByteString, now: ByteString, target: Target)
    requires UsableIdentity(c, job) && Renewed(c, job, before, now, target)
    ensures Signed(c, job.identity, NamesOf(job.oldNames), before, now, target)
  {
    hide Lines, Contents, SignaturesBy, UnsignedLines, FromNarinfo, Inspect, Carries, Lawful, WellFormedKeyName;
    var b, n := Contents(Lines(before)), Contents(Lines(now));
    VerifiedMeansIff(c, now, job.identity, FingerprintOf(before, target).value);
    forall key | key != job.identity.keyName
      ensures SignaturesBy(n, key) == if key in NamesOf(job.oldNames) then [] else SignaturesBy(b, key)
    {
      assert Removed(job, key) <==> key in NamesOf(job.oldNames);
    }
  }

  // ------------------------------------------------------------------- removing, turn by turn

  lemma {:induction false} EditStrips(bytes: ByteString, names: seq<ByteString>)
    requires EditNarinfo(bytes, Remove(names)).Success?
    ensures Stripped(names, bytes, Apply(EditNarinfo(bytes, Remove(names)).value, bytes))
  {
    hide EditNarinfo, Lines, Contents, SignaturesBy, UnsignedLines, Apply;
    EditEffect(bytes, Remove(names), []);
    forall key
      ensures SignaturesBy(Contents(Lines(Apply(EditNarinfo(bytes, Remove(names)).value, bytes))), key)
              == if key in names then [] else SignaturesBy(Contents(Lines(bytes)), key)
    {
      EditEffect(bytes, Remove(names), key);
    }
  }

  ghost predicate StrippedIn(names: seq<ByteString>, before: Cache, now: Cache, relative: ByteString) {
    relative in before && relative in now && Stripped(names, before[relative], now[relative])
  }

  lemma {:induction false} StepStrips(c: Crypto, st: BatchState, job: Job, target: Target, env: StepEnv)
    requires job.Removing?
    ensures var (st', halt) := Step(c, st, job, target, env);
            && (st'.cache == st.cache || StrippedIn(job.keyNames, st.cache, st'.cache, target.relative))
            && (halt.None? ==> StrippedIn(job.keyNames, st.cache, st'.cache, target.relative))
  {
    hide EditNarinfo, ValidNarinfo, SelectedStorePath, StorePathOf, Stripped, ValidateForMutation;
    if target.relative in st.cache && RealRemove(st.cache[target.relative], target, job.keyNames).Success? {
      EditStrips(st.cache[target.relative], job.keyNames);
    }
  }

  /** Each selected record is as it was or stripped, and stripped if the run completes. */
  lemma {:induction false} RunStrips(c: Crypto, st: BatchState, job: Job, targets: seq<Target>, envs: seq<StepEnv>,
                                     i: nat)
    requires |envs| == |targets| && job.Removing? && DistinctRecords(targets) && i < |targets|
    ensures var (st', halt) := RunTargets(c, st, job, targets, envs);
            && (SameRecord(st.cache, st'.cache, targets[i].relative)
                || StrippedIn(job.keyNames, st.cache, st'.cache, targets[i].relative))
            && (halt.None? ==> StrippedIn(job.keyNames, st.cache, st'.cache, targets[i].relative))
    decreases |targets|
  {
    hide Step, Stripped;
    StepStrips(c, st, job, targets[0], envs[0]);
    StepKeepsOthers(c, st, job, targets[0], envs[0]);
    var (after, halt) := Step(c, st, job, targets[0], envs[0]);
    if halt.None? {
      if i == 0 {
        RunTouches(c, after, job, targets[1..], envs[1..], targets[0].relative);
      } else {
        RunStrips(c, after, job, targets[1..], envs[1..], i - 1);
      }
    }
  }

  // ------------------------------------------------------------------- signing, run by run

  ghost predicate SignedIn(c: Crypto, id: Identity, oldNames: seq<ByteString>, before: Cache, now: Cache,
                           target: Target)
  {
    && target.relative in before && target.relative in now
    && Signed(c, id, oldNames, before[target.relative], now[target.relative], target)
  }

  lemma {:induction false} RunSigns(c: Crypto, st: BatchState, job: Job, targets: seq<Target>, envs: seq<StepEnv>,
                                    i: nat)
    requires |envs| == |targets| && UsableIdentity(c, job) && DistinctRecords(targets) && i < |targets|
    ensures var (st', halt) := RunTargets(c, st, job, targets, envs);
            var names := NamesOf(job.oldNames);
            && (SameRecord(st.cache, st'.cache, targets[i].relative)
                || SignedIn(c, job.identity, names, st.cache, st'.cache, targets[i]))
            && (halt.None? ==> SignedIn(c, job.identity, names, st.cache, st'.cache, targets[i]))
  {
    hide RunTargets, Signed, Renewed, Rewritten, Finished, Lawful, WellFormedKeyName;
    RunCache(c, st, job, targets, envs);
    var now, n := RunTargets(c, st, job, targets, envs).0.cache, FinishedCount(c, st, job, targets, envs);
    if i < n {
      FinishedRenews(c, job, st.cache[targets[i].relative], now[targets[i].relative], targets[i]);
      RenewedIsSigned(c, job, st.cache[targets[i].relative], now[targets[i].relative], targets[i]);
    } else if i == n && RewrittenIn(c, st.cache, now, job, targets[n]) {
      RewrittenRenews(c, job, st.cache[targets[i].relative], now[targets[i].relative], targets[i]);
      RenewedIsSigned(c, job, st.cache[targets[i].relative], now[targets[i].relative], targets[i]);
    }
  }

  // ------------------------------------------------------------------- sign and replace

  /** Everything before the loop went well. */
  predicate Prepared(env: CommandEnv) {
    && FreshId(env.batchDraws, {}).Some? && env.connect.Opened? && env.argumentsOk
    && FreshId(env.describeDraws, {FreshId(env.batchDraws, {}).value}).Some? && env.describe.Described?
    && env.root.Opened? && env.selection.Some?
  }

  function BatchId(env: CommandEnv): (r: Id)
    requires Prepared(env)
  {
    FreshId(env.batchDraws, {}).value
  }

  /** The state in which a prepared command enters its loop. */
  function Entered(cache: Cache, command: Command, env: CommandEnv): (r: BatchState)
    requires Prepared(env)
  {
    var batchId, id := BatchId(env), env.describe.identity;
    var describeId := FreshId(env.describeDraws, {batchId}).value;
    BatchState(cache, {batchId, describeId},
               SetIdentity(Start(command.op, batchId, command.dryRun, command.selectAll, Some(command.keyId)),
                           id.keyName, id.backendVersion),
               [DescribeCall(batchId, describeId)])
  }

  function JobOf(command: Command, env: CommandEnv): (r: Job)
    requires Prepared(env)
  {
    if command.dryRun then Previewing(OperationOf(command.oldNames), env.describe.identity)
    else Signing(BatchId(env), env.describe.identity, command.oldNames)
  }

  lemma {:induction false} StopsEarly(st: BatchState, halt: Halt)
    ensures var (st', halt') := StopEarly(st, halt);
            st'.cache == st.cache && st'.calls == st.calls && st'.used == st.used && halt' == Some(halt)
  {
    hide CloseAudit;
  }

  /** A command is its loop, if it comes to it, and otherwise an early stop that changed nothing. */
  lemma {:induction false} CommandShape(c: Crypto, cache: Cache, command: Command, env: CommandEnv)
    requires WellFormedEnv(env)
    ensures RunConnected(c, cache, command, env).None? <==> FreshId(env.batchDraws, {}).None?
    ensures Prepared(env) ==>
              RunConnected(c, cache, command, env)
              == Some(RunLoop(c, Entered(cache, command, env), JobOf(command, env), env.selection.value, env.steps,
                              env.last))
    ensures !Prepared(env) && RunConnected(c, cache, command, env).Some? ==>
              var (st, halt) := RunConnected(c, cache, command, env).value;
              && st.cache == cache && halt.Some?
              && forall k :: 0 <= k < |st.calls| ==> st.calls[k].DescribeCall?
  {
    hide RunLoop, FreshId, StopEarly, SetIdentity, Start;
    forall st: BatchState, halt: Halt
      ensures var (st', halt') := StopEarly(st, halt);
              st'.cache == st.cache && st'.calls == st.calls && halt' == Some(halt)
    {
      StopsEarly(st, halt);
    }
    if Prepared(env) {
      var batchId := BatchId(env);
      var describeId := FreshId(env.describeDraws, {batchId}).value;
      assert {batchId} + {describeId} == {batchId, describeId};
      assert [] + [DescribeCall(batchId, describeId)] == [DescribeCall(batchId, describeId)];
    }
  }

  /** The environment is one the command can meet: cryptography and the key name are sound, and no
      record is selected twice. */
  ghost predicate Sound(c: Crypto, env: CommandEnv) {
    && WellFormedEnv(env) && Lawful(c)
    && (env.describe.Described? ==> WellFormedKeyName(env.describe.identity.keyName))
    && (env.selection.Some? ==> DistinctRecords(env.selection.value))
  }

  lemma {:induction false} LoopRuns(c: Crypto, st: BatchState, job: Job, targets: seq<Target>, envs: seq<StepEnv>,
                                    last: Checkpoint)
    requires |envs| == |targets|
    ensures var selected := st.(audit := SetSelected(st.audit, |targets|));
            var (after, halt) := RunTargets(c, selected, job, targets, envs);
            var (st', halt') := RunLoop(c, st, job, targets, envs, last);
            && st'.cache == after.cache && st'.calls == after.calls
            && (halt'.None? <==> halt.None? && last.Pass?)
            && (halt.Some? ==> halt' == halt)
            && st'.audit == CloseAudit(after.audit, halt')
  {
    hide RunTargets, CloseAudit;
  }

  /** What a sign or replace command does to the cache, however it ends: a dry run nothing; a real
      run nothing to a record that is not selected, and to a selected one nothing or a signing under
      the described key that removes exactly the old names. A completed one has signed them all. */
  lemma {:induction false} CommandSigns(c: Crypto, cache: Cache, command: Command, env: CommandEnv)
    requires Sound(c, env) && RunConnected(c, cache, command, env).Some?
    ensures var (st, halt) := RunConnected(c, cache, command, env).value;
            && (command.dryRun ==> st.cache == cache)
            && (forall p :: (env.selection.Some? ==> forall t :: t in env.selection.value ==> t.relative != p) ==>
                  SameRecord(cache, st.cache, p))
            && (forall t :: env.selection.Some? && t in env.selection.value ==>
                  || SameRecord(cache, st.cache, t.relative)
                  || (&& env.describe.Described?
                      && SignedIn(c, env.describe.identity, NamesOf(command.oldNames), cache, st.cache, t)))
            && (halt.None? ==> env.describe.Described? && env.selection.Some?)
            && (halt.None? && !command.dryRun ==>
                  forall t :: t in env.selection.value ==>
                    SignedIn(c, env.describe.identity, NamesOf(command.oldNames), cache, st.cache, t))
  {
    hide RunLoop, FreshId, Signed, Lawful, WellFormedKeyName, RunConnected, SetIdentity, Start;
    CommandShape(c, cache, command, env);
    if Prepared(env) {
      var entered, targets := Entered(cache, command, env), env.selection.value;
      var job := JobOf(command, env);
      var selected := entered.(audit := SetSelected(entered.audit, |targets|));
      LoopRuns(c, entered, job, targets, env.steps, env.last);
      LoopSigns(c, selected, job, targets, env.steps);
    }
  }

  lemma {:induction false} LoopSigns(c: Crypto, st: BatchState, job: Job, targets: seq<Target>, envs: seq<StepEnv>)
    requires |envs| == |targets| && DistinctRecords(targets) && (job.Previewing? || UsableIdentity(c, job))
    ensures var (st', halt) := RunTargets(c, st, job, targets, envs);
            && (job.Previewing? ==> st'.cache == st.cache)
            && (forall p :: (forall t :: t in targets ==> t.relative != p) ==> SameRecord(st.cache, st'.cache, p))
            && (job.Signing? ==> forall t :: t in targets ==>
                  || SameRecord(st.cache, st'.cache, t.relative)
                  || SignedIn(c, job.identity, NamesOf(job.oldNames), st.cache, st'.cache, t))
            && (job.Signing? && halt.None? ==> forall t :: t in targets ==>
                  SignedIn(c, job.identity, NamesOf(job.oldNames), st.cache, st'.cache, t))
  {
    hide RunTargets, Signed, Lawful, WellFormedKeyName;
    var (st', halt) := RunTargets(c, st, job, targets, envs);
    forall p | forall t :: t in targets ==> t.relative != p
      ensures SameRecord(st.cache, st'.cache, p)
    {
      RunTouches(c, st, job, targets, envs, p);
    }
    if job.Previewing? {
      PreviewKeeps(c, st, job, targets, envs);
    } else {
      forall t | t in targets
        ensures SameRecord(st.cache, st'.cache, t.relative)
                || SignedIn(c, job.identity, NamesOf(job.oldNames), st.cache, st'.cache, t)
        ensures halt.None? ==> SignedIn(c, job.identity, NamesOf(job.oldNames), st.cache, st'.cache, t)
      {
        var i :| 0 <= i < |targets| && targets[i] == t;
        RunSigns(c, st, job, targets, envs, i);
      }
    }
  }

  lemma {:induction false} PreviewKeeps(c: Crypto, st: BatchState, job: Job, targets: seq<Target>, envs: seq<StepEnv>)
    requires |envs| == |targets| && job.Previewing?
    ensures RunTargets(c, st, job, targets, envs).0.cache == st.cache
    decreases |targets|
  {
    hide Preview;
    if targets != [] {
      var (after, halt) := Step(c, st, job, targets[0], envs[0]);
      if halt.None? {
        PreviewKeeps(c, after, job, targets[1..], envs[1..]);
      }
    }
  }

  // ------------------------------------------------------------- when a command completes

  /** The request IDs a command has used up before its turn `i`. */
  function UsedByTurn(c: Crypto, cache: Cache, command: Command, env: CommandEnv, i: nat): (r: set<Id>)
    requires WellFormedEnv(env) && Prepared(env) && i <= |env.selection.value|
  {
    var entered := Entered(cache, command, env);
    UsedBefore(c, entered.(audit := SetSelected(entered.audit, |env.selection.value|)), JobOf(command, env),
               env.selection.value, env.steps, i)
  }

  /** A sign or replace command completes exactly when it is prepared and not cancelled at its end,
      and each selected record can be read, is signable (in a dry run: not refused) and gets its
      output line. */
  lemma {:induction false} CommandCompletesIff(c: Crypto, cache: Cache, command: Command, env: CommandEnv)
    requires WellFormedEnv(env) && (env.selection.Some? ==> DistinctRecords(env.selection.value))
    ensures (RunConnected(c, cache, command, env).Some? && RunConnected(c, cache, command, env).value.1.None?)
            <==> && Prepared(env) && env.last.Pass?
                 && forall i :: 0 <= i < |env.selection.value| ==>
                      var target, step, id := env.selection.value[i], env.steps[i], env.describe.identity;
                      && step.checkpoint.Pass? && step.readable && step.outputOk && target.relative in cache
                      && var bytes := cache[target.relative];
                         if command.dryRun then !Preview(c, bytes, target, id, OperationOf(command.oldNames)).Refused?
                         else Signable(c, id, command.oldNames, UsedByTurn(c, cache, command, env, i), bytes, target,
                                       step)
  {
    hide RunLoop, FreshId, RunConnected, SetIdentity, Start, Signable, Preview;
    CommandShape(c, cache, command, env);
    if Prepared(env) {
      var entered, targets := Entered(cache, command, env), env.selection.value;
      var job := JobOf(command, env);
      var selected := entered.(audit := SetSelected(entered.audit, |targets|));
      LoopRuns(c, entered, job, targets, env.steps, env.last);
      RunCompletesIff(c, selected, job, targets, env.steps);
    }
  }

  // ------------------------------------------------------------------ what its trail says

  lemma {:induction false} ClosedCommits(audit: State, halt: Option<Halt>)
    ensures Commits(CloseAudit(audit, halt).events) == Commits(audit.events)
    ensures CloseAudit(audit, halt).counts == audit.counts
  {
    hide Commits;
    var closed := CloseAudit(audit, halt);
    if closed.events != audit.events {
      assert closed.events == audit.events + [closed.events[|audit.events|]];
      CommitsSnoc(audit.events, closed.events[|audit.events|]);
      assert Commits(audit.events) + [] == Commits(audit.events);
    }
  }

  /** The path commits of a real command are its changed records, in order, up to the one it stopped
      at; a completed one names them all, counts the others as untouched, each Sign RPC as a produced
      signature and each other record as a reused one. A completed dry run counts what it announced. */
  lemma {:induction false} CommandTells(c: Crypto, cache: Cache, command: Command, env: CommandEnv)
    requires WellFormedEnv(env) && (env.selection.Some? ==> DistinctRecords(env.selection.value))
    requires RunConnected(c, cache, command, env).Some?
    ensures var (st, halt) := RunConnected(c, cache, command, env).value;
            var commits, counts := Commits(st.audit.events), st.audit.counts;
            && (commits == [] || (!command.dryRun && env.selection.Some?))
            && (!command.dryRun && env.selection.Some? ==>
                  exists m :: 0 <= m <= |env.selection.value|
                              && commits == Changes(cache, st.cache, env.selection.value[..m], true))
            && (halt.None? ==>
                  && env.describe.Described? && env.selection.Some? && counts.selected == |env.selection.value|
                  && var targets := env.selection.value;
                     if command.dryRun then
                       && counts.previewChanges
                          == Announced(c, cache, targets, env.describe.identity, OperationOf(command.oldNames))
                       && counts.untouched == |targets| - counts.previewChanges
                     else
                       && commits == Changes(cache, st.cache, targets, true)
                       && counts.untouched == |targets| - |commits|
                       && counts.produced == |st.calls| - 1 && counts.reused == |targets| - counts.produced)
  {
    hide RunLoop, FreshId, RunConnected, Commits, Changes, Announced, StopEarly;
    CommandShape(c, cache, command, env);
    if Prepared(env) {
      PreparedTells(c, cache, command, env);
    } else {
      EarlyTells(c, cache, command, env);
      if env.selection.Some? {
        NoChanges(cache, cache, env.selection.value[..0], true);
      }
    }
  }

  lemma {:induction false} PreparedTells(c: Crypto, cache: Cache, command: Command, env: CommandEnv)
    requires WellFormedEnv(env) && Prepared(env) && DistinctRecords(env.selection.value)
    ensures var targets := env.selection.value;
            var (st, halt) := RunLoop(c, Entered(cache, command, env), JobOf(command, env), targets, env.steps,
                                      env.last);
            var commits, counts := Commits(st.audit.events), st.audit.counts;
            && counts.selected == |targets|
            && (command.dryRun ==> commits == [])
            && (!command.dryRun ==>
                  exists m :: 0 <= m <= |targets| && commits == Changes(cache, st.cache, targets[..m], true))
            && (halt.None? ==>
                  if command.dryRun then
                    && counts.previewChanges
                       == Announced(c, cache, targets, env.describe.identity, OperationOf(command.oldNames))
                    && counts.untouched == |targets| - counts.previewChanges
                  else
                    && commits == Changes(cache, st.cache, targets, true)
                    && counts.untouched == |targets| - |commits|
                    && counts.produced == |st.calls| - 1 && counts.reused == |targets| - counts.produced)
  {
    hide RunLoop, FreshId, Changes, Announced, RunTargets, CloseAudit;
    var entered, targets := Entered(cache, command, env), env.selection.value;
    var job := JobOf(command, env);
    var selected := entered.(audit := SetSelected(entered.audit, |targets|));
    var (after, halt) := RunTargets(c, selected, job, targets, env.steps);
    LoopRuns(c, entered, job, targets, env.steps, env.last);
    ClosedCommits(after.audit, RunLoop(c, entered, job, targets, env.steps, env.last).1);
    assert Commits(selected.audit.events) == [];
    RunKeepsSelected(c, selected, job, targets, env.steps);
    if command.dryRun {
      PreviewRun(c, selected, job, targets, env.steps);
    } else {
      RunTells(c, selected, job, targets, env.steps);
      RunObserves(c, selected, job, targets, env.steps);
    }
  }

  lemma {:induction false} EarlyTells(c: Crypto, cache: Cache, command: Command, env: CommandEnv)
    requires WellFormedEnv(env) && !Prepared(env) && RunConnected(c, cache, command, env).Some?
    ensures Commits(RunConnected(c, cache, command, env).value.0.audit.events) == []
  {
    hide RunLoop, FreshId, Commits, CloseAudit;
    forall st: BatchState, halt: Halt
      ensures Commits(StopEarly(st, halt).0.audit.events) == Commits(st.audit.events)
    {
      ClosedCommits(st.audit, Some(halt));
    }
    var started := Start(command.op, FreshId(env.batchDraws, {}).value, command.dryRun, command.selectAll,
                         Some(command.keyId));
    StartCommits(started);
  }

  lemma StartCommits(audit: State)
    requires |audit.events| == 1 && audit.events[0].body.Started?
    ensures Commits(audit.events) == []
  {
    assert audit.events[..0] == [];
  }
}
