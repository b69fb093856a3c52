/** Whole cache mutation commands: when they complete, what they do to the cache, and what their
    trail says about it. */
module BatchCommands {
  import opened Bytes
  import opened Sequences
  import opened Narinfo
  import opened NarinfoEdits
  import opened EditOutcomes
  import opened Fingerprint
  import opened Signatures
  import opened SigningTarget
  import opened Audit
  import opened Batch
  import opened BatchResume
  import opened BatchTurns

  // ------------------------------------------------------------------ runs of any job

  /** A turn moves no record but its own and adds no record. */
  lemma {:induction false} StepKeepsOthers(c: Crypto, st: BatchState, job: Job, target: Target, env: StepEnv)
    ensures var cache' := Step(c, st, job, target, env).0.cache;
            cache' == st.cache
            || (&& target.relative in st.cache && target.relative in cache'
                && cache' == st.cache[target.relative := cache'[target.relative]])
  {
    hide Decide, FingerprintOf, EditWith, RealRemove, Preview, FreshId, StorePathOf, SignatureValue, SignatureObserved,
         ValidNarinfo;
  }

  /** Nor does a run move a record that is not selected. */
  lemma {:induction false} RunTouches(c: Crypto, st: BatchState, job: Job, targets: seq<Target>, envs: seq<StepEnv>,
                                      p: ByteString)
    requires |envs| == |targets| && forall i :: 0 <= i < |targets| ==> targets[i].relative != p
    ensures SameRecord(st.cache, RunTargets(c, st, job, targets, envs).0.cache, p)
    decreases |targets|
  {
    hide Step;
    if targets != [] {
      StepKeepsOthers(c, st, job, targets[0], envs[0]);
      var (after, halt) := Step(c, st, job, targets[0], envs[0]);
      if halt.None? {
        RunTouches(c, after, job, targets[1..], envs[1..], p);
      }
    }
  }

  // --------------------------------------------------------------------- completing a run

  /** The request IDs used up before turn `i`. */
  function UsedBefore(c: Crypto, st: BatchState, job: Job, targets: seq<Target>, envs: seq<StepEnv>, i: nat)
    : (r: set<Id>)
    requires |envs| == |targets| && i <= |targets|
  {
    RunTargets(c, st, job, targets[..i], envs[..i]).0.used
  }

  ghost predicate TurnOk(c: Crypto, job: Job, used: set<Id>, cache: Cache, target: Target, env: StepEnv) {
    && env.checkpoint.Pass? && env.readable && env.outputOk && target.relative in cache
    && Doable(c, job, used, cache[target.relative], target, env)
  }

  ghost predicate AllTurnsOk(c: Crypto, st: BatchState, job: Job, targets: seq<Target>, envs: seq<StepEnv>)
    requires |envs| == |targets|
  {
    forall i :: 0 <= i < |targets| ==>
      TurnOk(c, job, UsedBefore(c, st, job, targets, envs, i), st.cache, targets[i], envs[i])
  }

  /** A batch loop runs to its end exactly when every record lets its turn be done. */
  lemma {:induction false} RunCompletesIff(c: Crypto, st: BatchState, job: Job, targets: seq<Target>,
                                           envs: seq<StepEnv>)
    requires |envs| == |targets| && DistinctRecords(targets)
    ensures RunTargets(c, st, job, targets, envs).1.None? <==> AllTurnsOk(c, st, job, targets, envs)
    decreases |targets|
  {
    hide Step, Doable;
    if targets != [] {
      TurnFinishesIff(c, st, job, targets[0], envs[0]);
      assert targets[..0] == [] && envs[..0] == [];
      assert UsedBefore(c, st, job, targets, envs, 0) == st.used;
      var (after, halt) := Step(c, st, job, targets[0], envs[0]);
      if halt.None? {
        RunCompletesIff(c, after, job, targets[1..], envs[1..]);
        RestOk(c, st, job, targets, envs);
      }
    }
  }

  /** The rest of a run after its first turn, seen from before it. */
  lemma {:induction false} RestOk(c: Crypto, st: BatchState, job: Job, targets: seq<Target>, envs: seq<StepEnv>)
    requires |envs| == |targets| && targets != [] && DistinctRecords(targets)
    requires Step(c, st, job, targets[0], envs[0]).1.None?
    ensures var after := Step(c, st, job, targets[0], envs[0]).0;
            AllTurnsOk(c, after, job, targets[1..], envs[1..]) <==>
            forall i :: 1 <= i < |targets| ==>
              TurnOk(c, job, UsedBefore(c, st, job, targets, envs, i), st.cache, targets[i], envs[i])
  {
    hide Step, Doable;
    var after, rest, envs' := Step(c, st, job, targets[0], envs[0]).0, targets[1..], envs[1..];
    StepKeepsOthers(c, st, job, targets[0], envs[0]);
    forall i | 1 <= i < |targets|
      ensures UsedBefore(c, st, job, targets, envs, i) == UsedBefore(c, after, job, rest, envs', i - 1)
      ensures SameRecord(st.cache, after.cache, targets[i].relative)
    {
      assert targets[..i][1..] == rest[..i - 1] && envs[..i][1..] == envs'[..i - 1];
    }
    if AllTurnsOk(c, after, job, rest, envs') {
      forall i | 1 <= i < |targets|
        ensures TurnOk(c, job, UsedBefore(c, st, job, targets, envs, i), st.cache, targets[i], envs[i])
      {
        assert TurnOk(c, job, UsedBefore(c, after, job, rest, envs', i - 1), after.cache, rest[i - 1], envs'[i - 1]);
      }
    }
    if forall i :: 1 <= i < |targets| ==>
         TurnOk(c, job, UsedBefore(c, st, job, targets, envs, i), st.cache, targets[i], envs[i]) {
      forall i | 0 <= i < |rest|
        ensures TurnOk(c, job, UsedBefore(c, after, job, rest, envs', i), after.cache, rest[i], envs'[i])
      {
        assert TurnOk(c, job, UsedBefore(c, st, job, targets, envs, i + 1), st.cache, targets[i + 1], envs[i + 1]);
      }
    }
  }

  // -------------------------------------------------------------- what the trail says of it

  type Entry = (ByteString, Option<ByteString>)

  predicate Differs(before: Cache, now: Cache, relative: ByteString) {
    relative in before && relative in now && before[relative] != now[relative]
  }

  /** For each record that changed, in order, its store path and the fingerprint it was signed over. */
  function Changes(before: Cache, now: Cache, targets: seq<Target>, signing: bool): (r: seq<Entry>) {
    if targets == [] then []
    else
      var target, rest := targets[0], Changes(before, now, targets[1..], signing);
      if !Differs(before, now, target.relative) then rest
      else
        var bytes := before[target.relative];
        [(StorePathOf(bytes), if signing then FingerprintOf(bytes, target) else None)] + rest
  }

  /** The path commits of a trail, in order. */
  function Commits(events: seq<Event>): (r: seq<Entry>) {
    if events == [] then []
    else
      var last, rest := events[|events| - 1].body, Commits(events[..|events| - 1]);
      if last.PathCommit? then rest + [(last.storePath, last.fingerprint)] else rest
  }

  lemma CommitsSnoc(events: seq<Event>, event: Event)
    ensures Commits(events + [event])
            == Commits(events) + if event.body.PathCommit? then [(event.body.storePath, event.body.fingerprint)] else []
  {
    assert (events + [event])[..|events|] == events;
  }

  /** Only the records of the remaining targets matter. */
  lemma {:induction false} ChangesAgree(before: Cache, before': Cache, now: Cache, now': Cache, targets: seq<Target>,
                                        signing: bool)
    requires forall i :: 0 <= i < |targets| ==> SameRecord(before, before', targets[i].relative)
    requires forall i :: 0 <= i < |targets| ==> SameRecord(now, now', targets[i].relative)
    ensures Changes(before, now, targets, signing) == Changes(before', now', targets, signing)
    decreases |targets|
  {
    hide FingerprintOf, StorePathOf;
    if targets != [] {
      ChangesAgree(before, before', now, now', targets[1..], signing);
    }
  }

  /** A turn of a real batch adds its own record to the commits exactly when it changed it, and the
      change is known to last. */
  lemma {:induction false} StepCommits(c: Crypto, st: BatchState, job: Job, target: Target, env: StepEnv)
    requires !job.Previewing? && st.audit.counts.untouched < USIZE_MAX
    requires st.audit.counts.produced < USIZE_MAX && st.audit.counts.reused < USIZE_MAX
    ensures var (st', halt) := Step(c, st, job, target, env);
            var added := Changes(st.cache, st'.cache, [target], job.Signing?);
            && Commits(st'.audit.events) == Commits(st.audit.events) + (if env.commit.SyncFails? then [] else added)
            && (halt.None? && env.commit.SyncFails? ==> added == [])
            && (halt.None? ==> st'.audit.counts.untouched == st.audit.counts.untouched + 1 - |added|)
            && |added| <= 1
  {
    hide Step, StorePathOf, FingerprintOf;
    var (st', halt) := Step(c, st, job, target, env);
    TurnRecords(c, st, job, target, env);
    StepKeepsOthers(c, st, job, target, env);
    assert [target][1..] == [];
    if st'.cache != st.cache && !env.commit.SyncFails? {
      CommitsSnoc(st.audit.events, st'.audit.events[|st.audit.events|]);
    }
  }

  /** The counters leave room for `n` more records. */
  predicate RoomFor(counts: Counts, n: nat) {
    && counts.untouched + n <= USIZE_MAX && counts.produced + n <= USIZE_MAX && counts.reused + n <= USIZE_MAX
    && counts.previewChanges + n <= USIZE_MAX
  }

  lemma {:induction false} StepLeavesRoom(c: Crypto, st: BatchState, job: Job, target: Target, env: StepEnv, n: nat)
    requires RoomFor(st.audit.counts, n + 1)
    ensures RoomFor(Step(c, st, job, target, env).0.audit.counts, n)
  {
    hide SignTarget, RemoveTarget, Preview, FingerprintOf, StorePathOf;
  }

  /** The trail of a run, however it stops: the path commits are the changed records in order, up to
      the one it stopped at. */
  ghost predicate Told(before: BatchState, now: BatchState, targets: seq<Target>, signing: bool, n: nat) {
    exists m :: n <= m <= n + 1 && m <= |targets|
                && Commits(now.audit.events)
                   == Commits(before.audit.events) + Changes(before.cache, now.cache, targets[..m], signing)
  }

  /** A completed run has told of every changed record, and counted the others as untouched. */
  predicate ToldAll(before: BatchState, now: BatchState, targets: seq<Target>, signing: bool) {
    var changes := Changes(before.cache, now.cache, targets, signing);
    && Commits(now.audit.events) == Commits(before.audit.events) + changes
    && now.audit.counts.untouched + |changes| == before.audit.counts.untouched + |targets|
  }

  lemma {:induction false} RunTells(c: Crypto, st: BatchState, job: Job, targets: seq<Target>, envs: seq<StepEnv>)
    requires |envs| == |targets| && DistinctRecords(targets) && !job.Previewing? && RoomFor(st.audit.counts, |targets|)
    ensures var (st', halt) := RunTargets(c, st, job, targets, envs);
            && Told(st, st', targets, job.Signing?, FinishedCount(c, st, job, targets, envs))
            && (halt.None? ==> ToldAll(st, st', targets, job.Signing?))
    decreases |targets|
  {
    hide Step, Told, ToldAll, RoomFor;
    if targets == [] {
      ToldNothing(st, targets, job.Signing?);
    } else {
      var (after, halt) := Step(c, st, job, targets[0], envs[0]);
      if halt.None? {
        StepLeavesRoom(c, st, job, targets[0], envs[0], |targets| - 1);
        RunTells(c, after, job, targets[1..], envs[1..]);
        ToldOfFirst(c, st, job, targets, envs);
      } else {
        ToldOfLast(c, st, job, targets, envs[0]);
      }
    }
  }

  lemma {:induction false} ToldNothing(st: BatchState, targets: seq<Target>, signing: bool)
    requires targets == []
    ensures Told(st, st, targets, signing, 0) && ToldAll(st, st, targets, signing)
  {
    NoChanges(st.cache, st.cache, targets, signing);
    assert targets[..0] == targets;
  }

  lemma {:induction false} ToldOfLast(c: Crypto, st: BatchState, job: Job, targets: seq<Target>, env: StepEnv)
    requires targets != [] && !job.Previewing? && RoomFor(st.audit.counts, |targets|)
    ensures Told(st, Step(c, st, job, targets[0], env).0, targets, job.Signing?, 0)
  {
    hide Step, Changes, Commits;
    StepCommits(c, st, job, targets[0], env);
    assert targets[..1] == [targets[0]];
    NoChanges(st.cache, Step(c, st, job, targets[0], env).0.cache, targets[..0], job.Signing?);
    assert Commits(st.audit.events) + [] == Commits(st.audit.events);
  }

  lemma {:induction false} ToldOfFirst(c: Crypto, st: BatchState, job: Job, targets: seq<Target>, envs: seq<StepEnv>)
    requires |envs| == |targets| && targets != [] && DistinctRecords(targets) && !job.Previewing?
    requires RoomFor(st.audit.counts, |targets|) && Step(c, st, job, targets[0], envs[0]).1.None?
    requires var after, now := Step(c, st, job, targets[0], envs[0]).0, RunTargets(c, st, job, targets, envs);
             && Told(after, now.0, targets[1..], job.Signing?, FinishedCount(c, after, job, targets[1..], envs[1..]))
             && (now.1.None? ==> ToldAll(after, now.0, targets[1..], job.Signing?))
    ensures var now := RunTargets(c, st, job, targets, envs);
            && Told(st, now.0, targets, job.Signing?, FinishedCount(c, st, job, targets, envs))
            && (now.1.None? ==> ToldAll(st, now.0, targets, job.Signing?))
  {
    hide Step, Changes, Commits, RunTargets, StorePathOf, FingerprintOf, RoomFor;
    var after, rest := Step(c, st, job, targets[0], envs[0]).0, targets[1..];
    var (now, halt) := RunTargets(c, st, job, targets, envs);
    var n := FinishedCount(c, after, job, rest, envs[1..]);
    assert st.audit.counts.untouched < USIZE_MAX && st.audit.counts.produced < USIZE_MAX
           && st.audit.counts.reused < USIZE_MAX by { RoomForOne(st.audit.counts, |targets|); }
    StepCommits(c, st, job, targets[0], envs[0]);
    var m :| n <= m <= n + 1 && m <= |rest|
             && Commits(now.audit.events)
                == Commits(after.audit.events) + Changes(after.cache, now.cache, rest[..m], job.Signing?);
    FirstChange(c, st, job, targets, envs, m);
    if halt.None? {
      FirstChange(c, st, job, targets, envs, |rest|);
      assert rest[..|rest|] == rest && targets[..|rest| + 1] == targets;
    }
  }

  lemma RoomForOne(counts: Counts, n: nat)
    requires RoomFor(counts, n) && n > 0
    ensures counts.untouched < USIZE_MAX && counts.produced < USIZE_MAX && counts.reused < USIZE_MAX
  {
  }

  lemma NoChanges(before: Cache, now: Cache, targets: seq<Target>, signing: bool)
    requires targets == []
    ensures Changes(before, now, targets, signing) == []
  {
  }

  /** The changes of a run are those of its first turn and those of the rest. */
  lemma {:induction false} FirstChange(c: Crypto, st: BatchState, job: Job, targets: seq<Target>, envs: seq<StepEnv>,
                                       m: nat)
    requires |envs| == |targets| && targets != [] && DistinctRecords(targets) && m <= |targets| - 1
    requires Step(c, st, job, targets[0], envs[0]).1.None?
    ensures var after := Step(c, st, job, targets[0], envs[0]).0;
            var now := RunTargets(c, st, job, targets, envs).0;
            Changes(st.cache, now.cache, targets[..m + 1], job.Signing?)
            == Changes(st.cache, after.cache, [targets[0]], job.Signing?)
               + Changes(after.cache, now.cache, targets[1..][..m], job.Signing?)
  {
    hide Step, StorePathOf, FingerprintOf;
    var after, rest := Step(c, st, job, targets[0], envs[0]).0, targets[1..];
    var now := RunTargets(c, st, job, targets, envs).0;
    StepKeepsOthers(c, st, job, targets[0], envs[0]);
    RunTouches(c, after, job, rest, envs[1..], targets[0].relative);
    assert targets[..m + 1][1..] == rest[..m] && [targets[0]][1..] == [];
    ChangesAgree(st.cache, after.cache, now.cache, now.cache, rest[..m], job.Signing?);
  }

  // --------------------------------------------------------------- produced and reused

  /** In a completed signing run every Sign RPC made counts as a produced signature, and every record
      without one as a reused signature. */
  lemma {:induction false} RunObserves(c: Crypto, st: BatchState, job: Job, targets: seq<Target>, envs: seq<StepEnv>)
    requires |envs| == |targets| && job.Signing? && RoomFor(st.audit.counts, |targets|)
    ensures var (st', halt) := RunTargets(c, st, job, targets, envs);
            && |st.calls| <= |st'.calls| <= |st.calls| + |targets|
            && (halt.None? ==>
                  && st'.audit.counts.produced + |st.calls| == st.audit.counts.produced + |st'.calls|
                  && st'.audit.counts.reused + |st'.calls| == st.audit.counts.reused + |st.calls| + |targets|)
    decreases |targets|
  {
    hide Step, RoomFor, StorePathOf, FingerprintOf, CommitTells;
    if targets != [] {
      RoomForOne(st.audit.counts, |targets|);
      TurnRecords(c, st, job, targets[0], envs[0]);
      TurnCalls(c, st, job, targets[0], envs[0]);
      var (after, halt) := Step(c, st, job, targets[0], envs[0]);
      if halt.None? {
        StepLeavesRoom(c, st, job, targets[0], envs[0], |targets| - 1);
        RunObserves(c, after, job, targets[1..], envs[1..]);
      }
    }
  }

  lemma {:induction false} TurnCalls(c: Crypto, st: BatchState, job: Job, target: Target, env: StepEnv)
    ensures |st.calls| <= |Step(c, st, job, target, env).0.calls| <= |st.calls| + 1
  {
    hide Step, Asks, FreshId, FingerprintOf;
    TurnAsksIff(c, st, job, target, env);
  }

  // ------------------------------------------------------------------------------ dry runs

  /** Of how many records the preview says that the real run would change them. */
  function Announced(c: Crypto, cache: Cache, targets: seq<Target>, id: Identity, op: Operation): (n: nat)
    ensures n <= |targets|
  {
    if targets == [] then 0
    else
      One(targets[0].relative in cache && Preview(c, cache[targets[0].relative], targets[0], id, op).WouldChange?)
      + Announced(c, cache, targets[1..], id, op)
  }

  /** A dry run changes nothing, asks for nothing, and when it completes has counted every record by
      what its preview says. */
  lemma {:induction false} PreviewRun(c: Crypto, st: BatchState, job: Job, targets: seq<Target>, envs: seq<StepEnv>)
    requires |envs| == |targets| && job.Previewing? && RoomFor(st.audit.counts, |targets|)
    ensures var (st', halt) := RunTargets(c, st, job, targets, envs);
            && st'.cache == st.cache && st'.calls == st.calls && st'.audit.events == st.audit.events
            && (halt.None? ==>
                  var n := Announced(c, st.cache, targets, job.asIdentity, job.operation);
                  && st'.audit.counts.previewChanges == st.audit.counts.previewChanges + n
                  && st'.audit.counts.untouched == st.audit.counts.untouched + |targets| - n)
    decreases |targets|
  {
    hide Step, Preview;
    if targets != [] {
      PreviewCounts(c, st, job, targets[0], envs[0]);
      TurnFinishesIff(c, st, job, targets[0], envs[0]);
      var (after, halt) := Step(c, st, job, targets[0], envs[0]);
      if halt.None? {
        StepLeavesRoom(c, st, job, targets[0], envs[0], |targets| - 1);
        PreviewRun(c, after, job, targets[1..], envs[1..]);
      }
    }
  }

  /** The number of selected records, once counted, stays. */
  lemma {:induction false} RunKeepsSelected(c: Crypto, st: BatchState, job: Job, targets: seq<Target>,
                                            envs: seq<StepEnv>)
    requires |envs| == |targets|
    ensures RunTargets(c, st, job, targets, envs).0.audit.counts.selected == st.audit.counts.selected
    decreases |targets|
  {
    hide Step;
    if targets != [] {
      StepKeepsSelected(c, st, job, targets[0], envs[0]);
      var (after, halt) := Step(c, st, job, targets[0], envs[0]);
      if halt.None? {
        RunKeepsSelected(c, after, job, targets[1..], envs[1..]);
      }
    }
  }

  lemma {:induction false} StepKeepsSelected(c: Crypto, st: BatchState, job: Job, target: Target, env: StepEnv)
    ensures Step(c, st, job, target, env).0.audit.counts.selected == st.audit.counts.selected
  {
    hide SignTarget, RemoveTarget, Preview, FingerprintOf, StorePathOf;
  }
}
