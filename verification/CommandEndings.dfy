/** Why a cache mutation command stopped. */
module CommandEndings {
  import opened Bytes
  import opened Signatures
  import opened SigningTarget
  import opened Audit
  import opened Batch
  import opened BatchResume
  import opened BatchTurns
  import opened BatchCommands
  import opened CommandEffects
  import opened RemoveEffects

  /** The state in which turn `i` of a run begins. */
  function StateBefore(c: Crypto, st: BatchState, job: Job, targets: seq<Target>, envs: seq<StepEnv>, i: nat)
    : (r: BatchState)
    requires |envs| == |targets| && i <= |targets|
  {
    RunTargets(c, st, job, targets[..i], envs[..i]).0
  }

  /** A run stops with the reason of the first turn that does not finish. */
  lemma {:induction false} RunHaltsAt(c: Crypto, st: BatchState, job: Job, targets: seq<Target>, envs: seq<StepEnv>)
    requires |envs| == |targets|
    ensures var n, halt := FinishedCount(c, st, job, targets, envs), RunTargets(c, st, job, targets, envs).1;
            && (n == |targets| <==> halt.None?)
            && (n < |targets| ==>
                  && RunTargets(c, st, job, targets[..n], envs[..n]).1.None?
                  && halt == Step(c, StateBefore(c, st, job, targets, envs, n), job, targets[n], envs[n]).1)
    decreases |targets|
  {
    hide Step;
    if targets != [] {
      var (after, halt) := Step(c, st, job, targets[0], envs[0]);
      assert targets[..0] == [] && envs[..0] == [];
      if halt.None? {
        var rest, envs' := targets[1..], envs[1..];
        RunHaltsAt(c, after, job, rest, envs');
        var n := FinishedCount(c, after, job, rest, envs');
        assert targets[..n + 1][1..] == rest[..n] && envs[..n + 1][1..] == envs'[..n];
      }
    }
  }

  /** A command that does not come to its loop stops for the first thing that went wrong: no agent,
      bad arguments, no answer to the describe call, no cache or no selection. */
  lemma {:induction false} EarlyStopTells(c: Crypto, cache: Cache, command: Command, env: CommandEnv)
    requires WellFormedEnv(env) && RunConnected(c, cache, command, env).Some?
    ensures var halt := RunConnected(c, cache, command, env).value.1;
            && (env.connect.GateFailed? ==> halt == Some(HaltFailed("connect_failed")))
            && (env.connect.GateCancelled? ==> halt == Some(HaltCancelled(env.connect.reason)))
            && (env.connect.GateDropped? ==> halt == Some(HaltDropped))
            && (env.connect.Opened? ==>
                  var asked := env.argumentsOk
                               && FreshId(env.describeDraws, {FreshId(env.batchDraws, {}).value}).Some?;
                  && (!asked || env.describe.DescribeFailed? ==> halt == Some(OPERATION_FAILED))
                  && (asked && (env.describe.DescribeCancelledBeforeSend?
                                || env.describe.DescribeCancelledInFlight?) ==>
                        halt == Some(HaltCancelled(env.describe.reason)))
                  && (asked && env.describe.DescribeDropped? ==> halt == Some(HaltDropped))
                  && (asked && env.describe.Described? ==>
                        && (env.root.GateFailed? || (env.root.Opened? && env.selection.None?) ==>
                              halt == Some(OPERATION_FAILED))
                        && (env.root.GateCancelled? ==> halt == Some(HaltCancelled(env.root.reason)))
                        && (env.root.GateDropped? ==> halt == Some(HaltDropped))))
  {
    hide RunLoop, FreshId, CloseAudit;
  }

  /** A command in its loop stops with the first turn that does not finish, or at its last checkpoint. */
  lemma {:induction false} LoopStopTells(c: Crypto, cache: Cache, command: Command, env: CommandEnv)
    requires WellFormedEnv(env) && Prepared(env)
    ensures RunConnected(c, cache, command, env).Some?
    ensures var entered, targets := Entered(cache, command, env), env.selection.value;
            var st := entered.(audit := SetSelected(entered.audit, |targets|));
            var job, halt := JobOf(command, env), RunConnected(c, cache, command, env).value.1;
            var n := FinishedCount(c, st, job, targets, env.steps);
            if n == |targets| then
              && (halt.None? <==> env.last.Pass?) && (halt == Some(HaltDropped) <==> env.last.DroppedHere?)
              && forall why :: halt == Some(HaltCancelled(why)) <==> env.last == CancelledHere(why)
            else
              halt == Step(c, StateBefore(c, st, job, targets, env.steps, n), job, targets[n], env.steps[n]).1
  {
    hide RunLoop, FreshId, RunConnected, Step, RunTargets, SetIdentity, Start;
    CommandShape(c, cache, command, env);
    var entered, targets := Entered(cache, command, env), env.selection.value;
    var st := entered.(audit := SetSelected(entered.audit, |targets|));
    RunHaltsAt(c, st, JobOf(command, env), targets, env.steps);
    LastHalt(c, entered, JobOf(command, env), targets, env.steps, env.last);
  }

  lemma {:induction false} LastHalt(c: Crypto, st: BatchState, job: Job, targets: seq<Target>, envs: seq<StepEnv>,
                                    last: Checkpoint)
    requires |envs| == |targets|
    ensures var halt := RunTargets(c, st.(audit := SetSelected(st.audit, |targets|)), job, targets, envs).1;
            RunLoop(c, st, job, targets, envs, last).1 == if halt.Some? then halt else CheckpointHalt(last)
  {
    hide RunTargets, CloseAudit;
  }

  /** A remove command that does not come to its loop: cancelled or dropped at its first checkpoint, no
      cache, or no selection. */
  lemma {:induction false} RemovalStopTells(c: Crypto, cache: Cache, names: seq<ByteString>, dryRun: bool,
                                            selectAll: bool, env: CommandEnv, first: Checkpoint)
    requires WellFormedEnv(env) && RunRemove(c, cache, names, dryRun, selectAll, env, first).Some?
    ensures var halt := RunRemove(c, cache, names, dryRun, selectAll, env, first).value.1;
            && (first.DroppedHere? ==> halt == Some(HaltDropped))
            && (first.CancelledHere? ==> halt == Some(HaltCancelled(first.reason)))
            && (first.Pass? ==>
                  && (env.root.GateFailed? || (env.root.Opened? && env.selection.None?) ==>
                        halt == Some(OPERATION_FAILED))
                  && (env.root.GateCancelled? ==> halt == Some(HaltCancelled(env.root.reason)))
                  && (env.root.GateDropped? ==> halt == Some(HaltDropped)))
  {
    hide RunLoop, FreshId, CloseAudit;
  }

  /** One in its loop stops as every other command does. */
  lemma {:induction false} RemovalLoopStopTells(c: Crypto, cache: Cache, names: seq<ByteString>, dryRun: bool,
                                                selectAll: bool, env: CommandEnv, first: Checkpoint)
    requires WellFormedEnv(env) && RemovalPrepared(env, first)
    ensures RunRemove(c, cache, names, dryRun, selectAll, env, first).Some?
    ensures var entered, targets := RemovalEntered(cache, dryRun, selectAll, env), env.selection.value;
            var st := entered.(audit := SetSelected(entered.audit, |targets|));
            var halt := RunRemove(c, cache, names, dryRun, selectAll, env, first).value.1;
            var job := RemovalJob(names, dryRun);
            var n := FinishedCount(c, st, job, targets, env.steps);
            if n == |targets| then
              && (halt.None? <==> env.last.Pass?) && (halt == Some(HaltDropped) <==> env.last.DroppedHere?)
              && forall why :: halt == Some(HaltCancelled(why)) <==> env.last == CancelledHere(why)
            else
              halt == Step(c, StateBefore(c, st, job, targets, env.steps, n), job, targets[n], env.steps[n]).1
  {
    hide RunLoop, FreshId, RunRemove, Step, RunTargets, Start;
    RemovalShape(c, cache, names, dryRun, selectAll, env, first);
    var entered, targets := RemovalEntered(cache, dryRun, selectAll, env), env.selection.value;
    var st := entered.(audit := SetSelected(entered.audit, |targets|));
    RunHaltsAt(c, st, RemovalJob(names, dryRun), targets, env.steps);
    LastHalt(c, entered, RemovalJob(names, dryRun), targets, env.steps, env.last);
  }
}
