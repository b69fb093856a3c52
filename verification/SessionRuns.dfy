/** The theorems over every run of a CI session: identities, refreshes and endings. */
module SessionRuns {
  import opened Bytes
  import opened RefreshSchedule
  import opened Session
  import opened SessionIdentities

  /** The first identity of a session: its token fetched for the published audience and
      checked before `serve` was entered at `start`. */
  predicate Opens(cfg: Config, first: Identity, start: nat) {
    Genuine(cfg, first) && first.validatedAt <= Unix(start)
  }

  lemma {:induction false} StartHolds(cfg: Config, first: Identity, start: nat)
    requires Opens(cfg, first, start)
    ensures Trusted(cfg, Start(cfg, first, start)) && OnSchedule(Start(cfg, first, start))
  {
    hide RefreshAt, Genuine, Unix;
    RefreshAtIff(first.validUntil, Unix(start));
  }

  /** The clock and the logs only move forward. */
  predicate Follows(st: State, st': State) {
    && st.now <= st'.now && st.installs <= st'.installs && st.slots <= st'.slots && st.attempts <= st'.attempts
    && (!Serving(st) ==>
          && st'.identity == st.identity && st'.installs == st.installs && st'.attempts == st.attempts
          && st'.ending == st.ending)
  }

  lemma FailsFollows(st: State, time: nat)
    requires Serving(st)
    ensures Follows(st, RefreshFails(Later(st, time)))
  {
    hide RetryRefreshAt, Unix;
  }

  lemma InstallsFollows(st: State, time: nat, replacement: Identity, lag: nat)
    requires Serving(st)
    ensures Follows(st, Installs(Later(st, time), replacement, lag))
  {
    hide RefreshAfterSuccessAt, Unix;
  }

  lemma {:induction false} PollRefreshFollows(cfg: Config, st: State, ready: Ready)
    requires Serving(st)
    ensures Follows(st, PollRefresh(cfg, st, ready).1)
  {
    hide Checked, RefreshFails, Installs, Unix, Held;
    var lags := ready.lags;
    FailsFollows(st, lags.check + lags.schedule);
    if st.refresh.Waiting? {
      InstallsFollows(st, lags.store, st.refresh.replacement, lags.schedule);
    } else if Checked(cfg, st, ready).Some? {
      InstallsFollows(st, lags.check + lags.store, Checked(cfg, st, ready).value, lags.schedule);
      assert Later(Later(st, lags.check), lags.store) == Later(st, lags.check + lags.store);
    }
  }

  /** Tasks come and go; the clock, the identity and the schedule do not move. */
  predicate LogsStill(st: State, st': State) {
    && st'.now == st.now && st'.installs == st.installs && st'.slots == st.slots && st'.attempts == st.attempts
    && st'.identity == st.identity && st'.nextRefresh == st.nextRefresh
    && (st'.refresh == st.refresh || st'.refresh.Idle?)
  }

  lemma ArrivalLogs(st: State)
    ensures LogsStill(st, AcceptControl(st)) && LogsStill(st, AcceptAdapter(st))
    ensures LogsStill(st, End(st, ListenerFailed))
  {
  }

  lemma ReclaimLogs(st: State, i: nat)
    requires Joinable(st, i)
    ensures LogsStill(st, Reclaim(st, i))
  {
  }

  lemma RoundLogs(st: State, st': State)
    requires LogsStill(st, st')
    ensures LogsStill(st, GoRound(st'))
  {
  }

  lemma {:induction false} PollRestLogs(st: State, ready: Ready)
    requires st.position.Selecting? && !(st.nextRefresh.Some? && st.refresh.Idle? && st.now >= st.position.refreshAt)
    ensures LogsStill(st, PollRest(st, ready))
  {
    hide TaskCount, AcceptControl, AcceptAdapter, Reclaim, End, GoRound;
    ArrivalLogs(st);
    RoundLogs(st, AcceptControl(st));
    RoundLogs(st, AcceptAdapter(st));
    if ready.joinable.Some? && Joinable(st, ready.joinable.value) {
      ReclaimLogs(st, ready.joinable.value);
      RoundLogs(st, Reclaim(st, ready.joinable.value));
    }
  }

  lemma {:induction false} PollRestFollows(st: State, ready: Ready)
    requires st.position.Selecting? && Serving(st)
    ensures Follows(st, PollRest(st, ready))
  {
    if !(st.nextRefresh.Some? && st.refresh.Idle? && st.now >= st.position.refreshAt) {
      hide PollRest;
      PollRestLogs(st, ready);
    }
  }

  lemma {:induction false} FollowsOn(a: State, b: State, c: State)
    requires Follows(a, b) && Follows(b, c)
    ensures Follows(a, c)
  {
  }

  lemma {:induction false} TurnFollows(cfg: Config, st: State, ready: Ready)
    requires st.position.Selecting? && Serving(st)
    ensures Follows(st, Turn(cfg, st, ready))
  {
    hide PollRefresh, PollRest;
    PollRefreshFollows(cfg, st, ready);
    PollRefreshStays(cfg, st, ready);
    var (taken, polled) := PollRefresh(cfg, st, ready);
    if !taken {
      NotTaken(cfg, st, ready);
      PollRestFollows(polled, ready);
      FollowsOn(st, polled, PollRest(polled, ready));
    }
  }

  /** A refresh that is not done leaves all but the clock and its own progress alone. */
  lemma NotTaken(cfg: Config, st: State, ready: Ready)
    requires !PollRefresh(cfg, st, ready).0
    ensures var polled := PollRefresh(cfg, st, ready).1;
            && polled == st.(now := polled.now, refresh := polled.refresh) && polled.now >= st.now
            && (polled.refresh.Idle? <==> st.refresh.Idle?) && (st.refresh.Idle? ==> polled == st)
            && (polled.refresh.Waiting? <==>
                  st.refresh.Waiting? || (st.refresh.Fetching? && Checked(cfg, st, ready).Some?))
  {
    hide Checked, RetryRefreshAt, RefreshAfterSuccessAt, Unix, Held;
    NothingChecked(cfg, st, ready);
  }

  lemma NothingChecked(cfg: Config, st: State, ready: Ready)
    ensures ready.fetched.None? ==> Checked(cfg, st, ready).None?
  {
  }

  lemma {:induction false} StepFollows(cfg: Config, st: State, a: Action)
    requires Trusted(cfg, st) && Enabled(st, a)
    ensures Follows(st, Apply(cfg, st, a))
  {
    hide Trusted, Turn, Unix, InstantFor;
    if OfTask(a) {
      hide Apply;
      TaskStepTrusted(cfg, st, a);
    } else if a.Poll? {
      TurnFollows(cfg, st, a.ready);
    }
  }

  lemma {:induction false} RunHolds(cfg: Config, st: State, schedule: seq<Action>)
    requires Trusted(cfg, st) && OnSchedule(st) && Run(cfg, st, schedule).Some?
    ensures var st' := Run(cfg, st, schedule).value; Trusted(cfg, st') && OnSchedule(st') && Follows(st, st')
    decreases |schedule|
  {
    hide Trusted, OnSchedule, Apply, Enabled;
    if schedule != [] {
      var next := Apply(cfg, st, schedule[0]);
      StepTrusted(cfg, st, schedule[0]);
      StepOnSchedule(cfg, st, schedule[0]);
      StepFollows(cfg, st, schedule[0]);
      RunHolds(cfg, next, schedule[1..]);
    }
  }

  // ------------------------------------------------------------------ proof and validity

  /** Every identity ever installed keeps the published proof key and audience, carries the
      smaller of its two time limits, and was found valid by a reading of the clock no later than
      its installation; every OK answer was given under an installed identity that was unexpired
      when its invocation finished, whatever was installed meanwhile. */
  lemma {:induction false} StableProof(cfg: Config, first: Identity, start: nat, schedule: seq<Action>, st: State)
    requires Opens(cfg, first, start) && Reaches(cfg, first, start, schedule, st)
    ensures forall k :: 0 <= k < |st.installs| ==>
              && st.installs[k].identity.proof == cfg.proof
              && EffectiveValidUntil(st.installs[k].identity.token, cfg.maxAge)
                 == Some(st.installs[k].identity.validUntil)
              && st.installs[k].identity.validatedAt < st.installs[k].identity.validUntil
              && st.installs[k].identity.validatedAt <= Unix(st.installs[k].at) && st.installs[k].at <= st.now
    ensures CurrentIsLast(st)
    ensures forall k :: 0 <= k < |st.answers| ==> AnswerOk(st.installs, st.answers[k], st.now)
    ensures st.refresh.Fetching? ==> st.refresh.audience == cfg.proof.audience
  {
    hide Run, Start, EffectiveValidUntil, AnswerOk, TaskOk, OnSchedule, Unix;
    StartHolds(cfg, first, start);
    RunHolds(cfg, Start(cfg, first, start), schedule);
    forall k | 0 <= k < |st.installs|
      ensures InstallOk(cfg, st.installs[k], st.now)
    {
    }
  }

  /** A refresh that fails leaves the identity and the installs as they were. */
  lemma {:induction false} FailedRefreshKeeps(cfg: Config, st: State, ready: Ready)
    requires Serving(st) && st.position.Selecting? && st.refresh.Fetching?
    requires ready.fetched.Some? && Checked(cfg, st, ready).None?
    ensures var st' := Turn(cfg, st, ready); st'.identity == st.identity && st'.installs == st.installs
  {
    hide Checked, RetryRefreshAt, Unix, PollRest;
  }

  /** The polls that take the select past signals, shutdown and its expiry timer. */
  predicate ReachesRefresh(st: State, ready: Ready)
    requires st.position.Selecting?
  {
    ready.signal.None? && !st.shutdownSent && st.now < st.position.expiryAt
  }

  /** The identity that this poll of the refresh stores, and when. */
  function Stored(cfg: Config, st: State, ready: Ready): (r: Option<Install>) {
    if Held(st.tasks) then None
    else
      match st.refresh
      case Idle => None
      case Fetching(_) => (
        match Checked(cfg, st, ready)
        case None => None
        case Some(replacement) => Some(Install(replacement, st.now + ready.lags.check + ready.lags.store)))
      case Waiting(replacement) => Some(Install(replacement, st.now + ready.lags.store))
  }

  lemma {:induction false} InstallsIff(cfg: Config, st: State, ready: Ready)
    requires Serving(st) && st.position.Selecting?
    ensures var st' := Turn(cfg, st, ready);
            if ReachesRefresh(st, ready) && Stored(cfg, st, ready).Some?
            then st'.installs == st.installs + [Stored(cfg, st, ready).value] && Serving(st')
            else st'.installs == st.installs
  {
    hide PollRest, RetryRefreshAt, RefreshAfterSuccessAt, Checked, Unix, Held;
    PollRefreshStays(cfg, st, ready);
    NothingChecked(cfg, st, ready);
    var (taken, polled) := PollRefresh(cfg, st, ready);
    if !taken {
      NotTaken(cfg, st, ready);
      PollRestInstalls(polled, ready);
    }
  }

  lemma PollRestInstalls(st: State, ready: Ready)
    requires st.position.Selecting?
    ensures PollRest(st, ready).installs == st.installs && PollRest(st, ready).identity == st.identity
  {
    if !(st.nextRefresh.Some? && st.refresh.Idle? && st.now >= st.position.refreshAt) {
      hide PollRest;
      PollRestLogs(st, ready);
    }
  }

  predicate ExpiredAtInstall(install: Install) {
    install.identity.validUntil <= Unix(install.at)
  }

  /** When an identity is installed after its own expiry. By one road it was checked by an earlier
      poll and waited for the write lock past its end; by the other it was checked and stored in
      one poll and the clock reached its end in between. Exactly these. */
  lemma {:induction false} InstalledExpiredIff(cfg: Config, st: State, ready: Ready)
    requires Serving(st) && st.position.Selecting?
    ensures var st' := Turn(cfg, st, ready);
            var checkedAt := st.now + ready.lags.check;
            (|st'.installs| > |st.installs| && ExpiredAtInstall(st'.installs[|st.installs|]))
            <==> && ReachesRefresh(st, ready) && !Held(st.tasks)
                 && (|| (&& st.refresh.Waiting?
                         && st.refresh.replacement.validUntil <= Unix(st.now + ready.lags.store))
                     || (&& st.refresh.Fetching? && ready.fetched.Some? && ready.fetched.value.Success?
                         && var validUntil := EffectiveValidUntil(ready.fetched.value.value, cfg.maxAge);
                            && validUntil.Some?
                            && Unix(checkedAt) < validUntil.value <= Unix(checkedAt + ready.lags.store)))
  {
    hide Turn, Unix, Held, EffectiveValidUntil;
    InstallsIff(cfg, st, ready);
  }

  // ------------------------------------------------------------------------ the schedule

  /** Every refresh was scheduled in [now, validUntil), strictly after now following a success
      and at now + 1 following a failure; the times strictly increase; each is attempted once
      and one at a time. */
  lemma {:induction false} ScheduleOverRuns(cfg: Config, first: Identity, start: nat, schedule: seq<Action>, st: State)
    requires Opens(cfg, first, start) && Reaches(cfg, first, start, schedule, st)
    ensures forall k :: 0 <= k < |st.slots| ==> SlotOk(st.slots[k], Unix(st.now))
    ensures Ascending(st.slots)
    ensures st.nextRefresh.Some? ==> st.refresh.Idle?
    ensures st.attempts + (if st.nextRefresh.Some? then 1 else 0) == |st.slots|
  {
    hide Run, Start, SlotOk, Ascending, Trusted, Unix, Armed;
    StartHolds(cfg, first, start);
    RunHolds(cfg, Start(cfg, first, start), schedule);
  }

  /** The attempts still possible if nothing is installed any more. A pending one may start late,
      even past the expiry. */
  function AttemptsLeft(st: State): nat {
    var clock := Unix(st.now);
    if st.nextRefresh.Some? then Max(1, SaturatingSub(st.identity.validUntil, Max(st.nextRefresh.value, clock)))
    else if st.refresh.Idle? then 0
    else SaturatingSub(st.identity.validUntil, clock + 1)
  }

  lemma {:induction false} FailsSpends(cfg: Config, st: State)
    requires OnSchedule(st) && !st.refresh.Idle? && Genuine(cfg, st.identity)
    ensures RefreshFails(st).attempts == st.attempts && AttemptsLeft(RefreshFails(st)) <= AttemptsLeft(st)
  {
    hide RetryRefreshAt, Ascending, SlotOk, Unix;
    RetryRefreshIff(st.identity.validUntil, Unix(st.now));
  }

  lemma {:induction false} LaterSpends(st: State, st': State)
    requires st'.now >= st.now && st'.identity == st.identity && st'.nextRefresh == st.nextRefresh
    requires st'.refresh.Idle? <==> st.refresh.Idle?
    ensures AttemptsLeft(st') <= AttemptsLeft(st)
  {
    hide Unix;
    UnixGrows(st.now, st'.now);
  }

  lemma {:induction false} PollRefreshSpends(cfg: Config, st: State, ready: Ready)
    requires Trusted(cfg, st) && OnSchedule(st) && PollRefresh(cfg, st, ready).1.installs == st.installs
    ensures var st' := PollRefresh(cfg, st, ready).1;
            st'.attempts == st.attempts && AttemptsLeft(st') <= AttemptsLeft(st)
  {
    hide Trusted, OnSchedule, Checked, RefreshFails, AttemptsLeft, Held, Unix;
    var (taken, polled) := PollRefresh(cfg, st, ready);
    if taken {
      var later := Later(st, ready.lags.check + ready.lags.schedule);
      CurrentProof(cfg, st);
      ClockOnSchedule(st, later.now);
      LaterSpends(st, later);
      FailsSpends(cfg, later);
    } else {
      NotTaken(cfg, st, ready);
      LaterSpends(st, polled);
    }
  }

  /** Starting the pending refresh spends one. */
  lemma {:induction false} StartSpends(st: State)
    requires OnSchedule(st) && st.position.Selecting? && st.nextRefresh.Some? && st.now >= st.position.refreshAt
    ensures var st' := GoRound(st.(nextRefresh := None, refresh := Fetching(st.identity.proof.audience),
                                   attempts := st.attempts + 1));
            st'.attempts + AttemptsLeft(st') <= st.attempts + AttemptsLeft(st)
  {
    hide Ascending, SlotOk, Unix;
    UnixGrows(st.position.refreshAt, st.now);
  }

  lemma StillSpends(st: State, st': State)
    requires LogsStill(st, st')
    ensures st'.attempts + AttemptsLeft(st') <= st.attempts + AttemptsLeft(st)
  {
    hide Unix;
  }

  lemma {:induction false} PollRestSpends(st: State, ready: Ready)
    requires st.position.Selecting? && OnSchedule(st)
    ensures var st' := PollRest(st, ready); st'.attempts + AttemptsLeft(st') <= st.attempts + AttemptsLeft(st)
  {
    hide OnSchedule, AttemptsLeft;
    if st.nextRefresh.Some? && st.refresh.Idle? && st.now >= st.position.refreshAt {
      StartSpends(st);
    } else {
      hide PollRest;
      PollRestLogs(st, ready);
      StillSpends(st, PollRest(st, ready));
    }
  }

  lemma {:induction false} TurnSpends(cfg: Config, st: State, ready: Ready)
    requires st.position.Selecting? && Trusted(cfg, st) && OnSchedule(st)
             && Turn(cfg, st, ready).installs == st.installs
    ensures var st' := Turn(cfg, st, ready); st'.attempts + AttemptsLeft(st') <= st.attempts + AttemptsLeft(st)
  {
    hide Trusted, OnSchedule, PollRefresh, PollRest, AttemptsLeft;
    PollRefreshStays(cfg, st, ready);
    if ready.signal.Some? || st.shutdownSent || st.now >= st.position.expiryAt {
      StillSpends(st, Turn(cfg, st, ready));
    } else {
      var (taken, polled) := PollRefresh(cfg, st, ready);
      if taken {
        PollRefreshSpends(cfg, st, ready);
        StillSpends(polled, GoRound(polled));
      } else {
        NotTaken(cfg, st, ready);
        PollRefreshSpends(cfg, st, ready);
        PollRefreshOnSchedule(cfg, st, ready);
        PollRestSpends(polled, ready);
      }
    }
  }

  lemma {:induction false} StepSpends(cfg: Config, st: State, a: Action)
    requires Trusted(cfg, st) && OnSchedule(st) && Enabled(st, a) && Apply(cfg, st, a).installs == st.installs
    ensures var st' := Apply(cfg, st, a); st'.attempts + AttemptsLeft(st') <= st.attempts + AttemptsLeft(st)
  {
    hide Trusted, Turn, OnSchedule, AttemptsLeft, Unix, InstantFor;
    if OfTask(a) {
      hide Apply;
      TaskStepTrusted(cfg, st, a);
      StillSpends(st, Apply(cfg, st, a));
    } else if a.Poll? {
      TurnSpends(cfg, st, a.ready);
    } else if a.Tick? || a.ReadHead? {
      LaterSpends(st, Apply(cfg, st, a));
    } else {
      StillSpends(st, Apply(cfg, st, a));
    }
  }

  /** While nothing is installed, from any state of any run, the further attempts are bounded by
      the seconds left to the identity; a refresh already pending makes it at least one. */
  lemma {:induction false} FailingSourceBound(cfg: Config, st: State, schedule: seq<Action>)
    requires Trusted(cfg, st) && OnSchedule(st) && Run(cfg, st, schedule).Some?
    requires Run(cfg, st, schedule).value.installs == st.installs
    ensures var st' := Run(cfg, st, schedule).value;
            && st'.identity == st.identity
            && st'.attempts + AttemptsLeft(st') <= st.attempts + AttemptsLeft(st)
            && st'.attempts - st.attempts
               <= Max(SaturatingSub(st.identity.validUntil, Unix(st.now)), if st.nextRefresh.Some? then 1 else 0)
    decreases |schedule|
  {
    hide Trusted, OnSchedule, Apply, Enabled, AttemptsLeft, Unix;
    LeftIsBounded(st);
    if schedule != [] {
      var next := Apply(cfg, st, schedule[0]);
      StepTrusted(cfg, st, schedule[0]);
      StepOnSchedule(cfg, st, schedule[0]);
      StepFollows(cfg, st, schedule[0]);
      RunHolds(cfg, next, schedule[1..]);
      assert next.installs == st.installs;
      StepSpends(cfg, st, schedule[0]);
      SameInstallsSameIdentity(cfg, st, next);
      FailingSourceBound(cfg, next, schedule[1..]);
    }
  }

  lemma LeftIsBounded(st: State)
    ensures AttemptsLeft(st)
            <= Max(SaturatingSub(st.identity.validUntil, Unix(st.now)), if st.nextRefresh.Some? then 1 else 0)
  {
    hide Unix;
  }

  lemma SameInstallsSameIdentity(cfg: Config, st: State, st': State)
    requires Trusted(cfg, st) && Trusted(cfg, st') && st'.installs == st.installs
    ensures st'.identity == st.identity
  {
    hide InstallsOk, TasksOk, AnswersOk, RefreshOk;
  }

  /** From the start of a session whose source always fails: no more attempts than seconds. */
  lemma {:induction false} AttemptsFromStart(cfg: Config, first: Identity, start: nat, schedule: seq<Action>, st: State)
    requires Opens(cfg, first, start) && Reaches(cfg, first, start, schedule, st)
             && st.installs == [Install(first, start)]
    ensures st.attempts <= SaturatingSub(first.validUntil, Unix(start))
  {
    hide Run, AttemptsLeft, Unix, RefreshAt;
    RefreshAtIff(first.validUntil, Unix(start));
    StartHolds(cfg, first, start);
    FailingSourceBound(cfg, Start(cfg, first, start), schedule);
  }

  // --------------------------------------------------------------------------- the ending

  /** Nobody signals, asks for shutdown, or breaks a listener or a task. */
  predicate Undisturbed(a: Action) {
    match a
    case Poll(ready) => ready.signal.None? && ready.control != Some(false) && ready.adapter != Some(false)
    case ControlDone(_, stop) => !stop
    case Panic(_) => false
    case _ => true
  }

  /** The session runs on, or it ended because its identity had expired. */
  predicate EndsExpired(st: State) {
    && !st.shutdownSent
    && (Serving(st) ==> forall i :: 0 <= i < |st.tasks| ==> !st.tasks[i].phase.Panicked?)
    && (st.ending.Some? ==>
          (st.ending.value.Expired? || st.ending.value.ExpiredDuringRefresh?) && st.identity.validUntil <= Unix(st.now))
  }

  lemma {:induction false} PollRefreshEnds(cfg: Config, st: State, ready: Ready)
    requires EndsExpired(st) && Serving(st)
    ensures EndsExpired(PollRefresh(cfg, st, ready).1)
  {
    hide Checked, RetryRefreshAt, RefreshAfterSuccessAt, Unix, Held;
  }

  lemma ArrivalEnds(st: State)
    requires EndsExpired(st) && Serving(st)
    ensures EndsExpired(GoRound(AcceptControl(st))) && EndsExpired(GoRound(AcceptAdapter(st)))
  {
    hide Unix;
  }

  lemma ReclaimEnds(st: State, i: nat)
    requires EndsExpired(st) && Serving(st) && Joinable(st, i)
    ensures EndsExpired(Reclaim(st, i)) && EndsExpired(GoRound(Reclaim(st, i)))
  {
    hide Unix;
  }

  lemma {:induction false} PollRestEnds(st: State, ready: Ready)
    requires st.position.Selecting? && EndsExpired(st) && Serving(st) && Undisturbed(Poll(ready))
    ensures EndsExpired(PollRest(st, ready))
  {
    hide TaskCount, Unix, AcceptControl, AcceptAdapter, Reclaim;
    ArrivalEnds(st);
    if ready.joinable.Some? && Joinable(st, ready.joinable.value) {
      ReclaimEnds(st, ready.joinable.value);
    }
  }

  lemma {:induction false} TurnEnds(cfg: Config, st: State, ready: Ready)
    requires st.position.Selecting? && EndsExpired(st) && Serving(st) && Undisturbed(Poll(ready))
    ensures EndsExpired(Turn(cfg, st, ready))
  {
    hide PollRefresh, PollRest, Unix;
    PollRefreshStays(cfg, st, ready);
    if st.now < st.position.expiryAt {
      PollRefreshEnds(cfg, st, ready);
      var (taken, polled) := PollRefresh(cfg, st, ready);
      if !taken {
        NotTaken(cfg, st, ready);
        PollRestEnds(polled, ready);
      }
    }
  }

  lemma {:induction false} OverUndisturbed(cfg: Config, st: State, a: Action)
    requires Enabled(st, a) && (a.ControlDone? || a.Reply? || a.TimeOut?)
    ensures a.task < |Apply(cfg, st, a).tasks| && Apply(cfg, st, a).tasks[a.task].phase.Finished?
  {
    hide Turn, Unix, ApplyReap, ApplyReturn;
  }

  lemma {:induction false} PhaseUndisturbed(cfg: Config, st: State, a: Action)
    requires Enabled(st, a) && (a.Claim? || a.Receive? || a.Capture? || a.LetGo? || a.Begin? || a.Return?)
    ensures a.task < |Apply(cfg, st, a).tasks| && !Apply(cfg, st, a).tasks[a.task].phase.Panicked?
  {
    hide Turn, Unix, ApplyReap, ApplyReply, Complete, Collapse;
  }

  lemma {:induction false} TaskUndisturbed(cfg: Config, st: State, a: Action)
    requires Enabled(st, a) && OfTask(a) && Undisturbed(a) && Serving(st)
    ensures a.task < |Apply(cfg, st, a).tasks| && !Apply(cfg, st, a).tasks[a.task].phase.Panicked?
  {
    hide Apply;
    if a.ControlDone? || a.Reply? || a.TimeOut? {
      OverUndisturbed(cfg, st, a);
    } else {
      PhaseUndisturbed(cfg, st, a);
    }
  }

  lemma {:induction false} StopAsked(cfg: Config, st: State, a: Action)
    requires Enabled(st, a) && OfTask(a) && Undisturbed(a)
    ensures Apply(cfg, st, a).shutdownSent == st.shutdownSent
  {
    hide Turn, Unix;
  }

  lemma {:induction false} TaskEnds(cfg: Config, st: State, a: Action)
    requires EndsExpired(st) && Enabled(st, a) && Undisturbed(a) && OfTask(a)
    ensures EndsExpired(Apply(cfg, st, a))
  {
    hide Apply, Unix, Undisturbed, Enabled;
    TaskActionFrame(cfg, st, a);
    StopAsked(cfg, st, a);
    if Serving(st) {
      TaskUndisturbed(cfg, st, a);
    }
  }

  lemma {:induction false} StepEnds(cfg: Config, st: State, a: Action)
    requires EndsExpired(st) && Enabled(st, a) && Undisturbed(a)
    ensures EndsExpired(Apply(cfg, st, a))
  {
    hide Turn, Unix, InstantFor, Reclaim;
    if OfTask(a) {
      hide Apply, EndsExpired;
      TaskEnds(cfg, st, a);
    } else if a.Poll? {
      TurnEnds(cfg, st, a.ready);
    } else if a.JoinReady? {
      ReclaimEnds(st, a.task);
    } else if a.Tick? {
      UnixGrows(st.now, st.now + a.time);
    } else if a.ReadHead? {
      UnixGrows(st.now, st.now + a.lag);
    }
  }

  /** An undisturbed session that ends, ends as expired, after its expiry. */
  lemma {:induction false} UndisturbedEndsExpired(cfg: Config, st: State, schedule: seq<Action>)
    requires EndsExpired(st) && Run(cfg, st, schedule).Some? && forall a :: a in schedule ==> Undisturbed(a)
    ensures EndsExpired(Run(cfg, st, schedule).value)
    decreases |schedule|
  {
    hide EndsExpired, Apply, Enabled, Undisturbed;
    if schedule != [] {
      StepEnds(cfg, st, schedule[0]);
      UndisturbedEndsExpired(cfg, Apply(cfg, st, schedule[0]), schedule[1..]);
    }
  }

  // ------------------------------------------------------------ when the loop can still turn

  predicate OfLoop(a: Action) {
    a.JoinReady? || a.Proceed? || a.ReadHead? || a.Poll? || a.ReadExpiry?
  }

  /** The loop waits for a read of the identity that is queued behind the write of the very refresh
      that only the loop could poll. */
  predicate Stuck(st: State) {
    Serving(st) && st.refresh.Waiting? && (st.position.Reading? || st.position.ExpiryRead?)
  }

  /** Out of the select with the write queued: stuck, or about to be. */
  predicate Doomed(st: State) {
    Serving(st) && st.refresh.Waiting? && !st.position.Selecting?
  }

  /** A serving loop can take a step exactly when it is not stuck. */
  lemma {:induction false} LoopCanTurnIff(st: State)
    requires Serving(st)
    ensures (exists a :: OfLoop(a) && Enabled(st, a)) <==> !Stuck(st)
  {
    if !Stuck(st) {
      var a := match st.position
        case Head => Proceed
        case Reading => ReadHead(0)
        case Selecting(_, _) => Poll(NOTHING)
        case ExpiryRead => ReadExpiry;
      assert OfLoop(a) && Enabled(st, a);
    }
  }

  lemma {:induction false} StuckStays(cfg: Config, st: State, a: Action)
    requires Stuck(st) && Enabled(st, a)
    ensures var st' := Apply(cfg, st, a);
            && Stuck(st') && st'.position == st.position && st'.identity == st.identity && st'.installs == st.installs
            && st'.refresh == st.refresh
  {
    hide Turn, Unix, InstantFor;
    if OfTask(a) {
      hide Apply;
      TaskActionFrame(cfg, st, a);
    }
  }

  /** Once stuck, always stuck: no signal, shutdown request or expiry ends the session any more. */
  lemma {:induction false} StuckForever(cfg: Config, st: State, schedule: seq<Action>)
    requires Stuck(st) && Run(cfg, st, schedule).Some?
    ensures var later := Run(cfg, st, schedule).value;
            && Stuck(later) && later.position == st.position && later.identity == st.identity
            && later.installs == st.installs && later.refresh == st.refresh
    decreases |schedule|
  {
    hide Apply, Enabled, Stuck;
    if schedule != [] {
      StuckStays(cfg, st, schedule[0]);
      StuckForever(cfg, Apply(cfg, st, schedule[0]), schedule[1..]);
    }
  }

  lemma {:induction false} DoomedStays(cfg: Config, st: State, a: Action)
    requires Doomed(st) && Enabled(st, a)
    ensures var st' := Apply(cfg, st, a); Doomed(st') || (st'.ending == Some(TaskFailed) && st.position.Head?)
  {
    hide Turn, Unix, InstantFor;
    if OfTask(a) {
      hide Apply;
      TaskActionFrame(cfg, st, a);
    }
  }

  /** From there the only ending left is a panicked task found while still reclaiming at the head. */
  lemma {:induction false} DoomedForever(cfg: Config, st: State, schedule: seq<Action>)
    requires Doomed(st) && Run(cfg, st, schedule).Some?
    ensures var later := Run(cfg, st, schedule).value; Serving(later) ==> Doomed(later)
    ensures var later := Run(cfg, st, schedule).value; !Serving(later) ==> later.ending == Some(TaskFailed)
    decreases |schedule|
  {
    hide Apply, Enabled;
    if schedule != [] {
      var next := Apply(cfg, st, schedule[0]);
      DoomedStays(cfg, st, schedule[0]);
      if Doomed(next) {
        DoomedForever(cfg, next, schedule[1..]);
      } else {
        EndedStays(cfg, next, schedule[1..]);
      }
    }
  }

  lemma {:induction false} EndedStays(cfg: Config, st: State, schedule: seq<Action>)
    requires !Serving(st) && Run(cfg, st, schedule).Some?
    ensures Run(cfg, st, schedule).value.ending == st.ending
    decreases |schedule|
  {
    hide Apply, Enabled;
    if schedule != [] {
      EndedStep(cfg, st, schedule[0]);
      EndedStays(cfg, Apply(cfg, st, schedule[0]), schedule[1..]);
    }
  }

  lemma {:induction false} EndedStep(cfg: Config, st: State, a: Action)
    requires !Serving(st) && Enabled(st, a)
    ensures Apply(cfg, st, a).ending == st.ending
  {
    hide Turn, Unix, InstantFor;
    if OfTask(a) {
      hide Apply;
      TaskActionFrame(cfg, st, a);
    }
  }

  /** After this poll the refresh has its write queued: a handler holds the read guard. */
  predicate Queues(cfg: Config, st: State, ready: Ready) {
    Held(st.tasks) && (st.refresh.Waiting? || (st.refresh.Fetching? && Checked(cfg, st, ready).Some?))
  }

  /** A branch behind the refresh is ready and lets the session go on. */
  predicate AnotherBranch(st: State, ready: Ready) {
    if ready.control.Some? && TaskCount(st.tasks) < MAX_SESSION_CONNECTIONS then ready.control.value
    else if ready.adapter.Some? && TaskCount(st.tasks) < MAX_SESSION_CONNECTIONS then ready.adapter.value
    else
      && ready.joinable.Some? && Joinable(st, ready.joinable.value)
      && !st.tasks[ready.joinable.value].phase.Panicked?
  }

  lemma {:induction false} PollRestLeaves(st: State, ready: Ready)
    requires Serving(st) && st.position.Selecting? && st.refresh.Waiting?
    ensures Doomed(PollRest(st, ready)) <==> AnotherBranch(st, ready)
  {
    hide TaskCount;
  }

  lemma {:induction false} QueuedIff(cfg: Config, st: State, ready: Ready)
    ensures var (taken, polled) := PollRefresh(cfg, st, ready);
            && (!taken && polled.refresh.Waiting? <==> Queues(cfg, st, ready))
            && (taken ==> !polled.refresh.Waiting?)
  {
    hide Checked, RetryRefreshAt, RefreshAfterSuccessAt, Unix, Held;
    NothingChecked(cfg, st, ready);
  }

  /** A poll of the select dooms the session exactly when no signal or shutdown is there and either
      the expiry timer fires while the write is queued, or the refresh has its write queued and
      another branch is taken in the same poll. */
  lemma {:induction false} TurnDoomsIff(cfg: Config, st: State, ready: Ready)
    requires Serving(st) && st.position.Selecting?
    ensures Doomed(Turn(cfg, st, ready)) <==>
              && ready.signal.None? && !st.shutdownSent
              && if st.now >= st.position.expiryAt then st.refresh.Waiting?
                 else Queues(cfg, st, ready) && AnotherBranch(st, ready)
  {
    hide PollRefresh, PollRest, Queues, AnotherBranch, Unix;
    PollRefreshStays(cfg, st, ready);
    QueuedIff(cfg, st, ready);
    var (taken, polled) := PollRefresh(cfg, st, ready);
    if st.now < st.position.expiryAt && !taken {
      NotTaken(cfg, st, ready);
      SameBranches(st, polled, ready);
      if polled.refresh.Waiting? {
        PollRestLeaves(polled, ready);
      } else {
        PollRestIdle(polled, ready);
      }
    }
  }

  lemma SameBranches(st: State, st': State, ready: Ready)
    requires st'.tasks == st.tasks
    ensures AnotherBranch(st', ready) == AnotherBranch(st, ready)
  {
    hide TaskCount;
  }

  lemma PollRestIdle(st: State, ready: Ready)
    requires st.position.Selecting? && !st.refresh.Waiting?
    ensures !PollRest(st, ready).refresh.Waiting?
  {
    hide TaskCount;
  }

  /** When the expiry timer is due: read at the head of the loop before the expiry, it fires within
      a second after it and the lag of the arming; read after it, at once. */
  lemma {:induction false} ExpiryDeadline(st: State, lag: nat)
    ensures var armed, expiry := Arm(st, lag), st.identity.validUntil;
            && armed.position.Selecting?
            && (Unix(st.now) < expiry ==> armed.position.expiryAt < (expiry + 1) * SECOND + lag)
            && (Unix(st.now) >= expiry ==> armed.position.expiryAt == armed.now)
            && expiry <= Unix(armed.position.expiryAt)
  {
    hide Unix, InstantFor;
    InstantBounds(st.identity.validUntil, st.now, st.now + lag);
  }

  /** When the expiry timer of the select has fired, the next poll, whatever else is ready, leaves
      the select for good. With a signal or a shutdown request the session ends by it. Otherwise,
      if and only if no write is queued, it ends as expired; with the write queued it is stuck. */
  lemma {:induction false} ExpiryEndsSession(cfg: Config, first: Identity, start: nat, schedule: seq<Action>, st: State,
                                             ready: Ready)
    requires Opens(cfg, first, start) && Reaches(cfg, first, start, schedule, st)
    requires Serving(st) && st.position.Selecting? && st.now >= st.position.expiryAt
    ensures var st' := Turn(cfg, st, ready);
            && (Serving(st') <==> ready.signal.None? && !st.shutdownSent)
            && (Serving(st') ==>
                  && st'.position.ExpiryRead?
                  && (Enabled(st', ReadExpiry) <==> !st.refresh.Waiting?)
                  && CheckExpiry(st').ending == Some(Expired)
                  && (Stuck(st') <==> st.refresh.Waiting?))
  {
    hide Run, PollRefresh, PollRest, Unix, Trusted, SlotOk, Ascending;
    StartHolds(cfg, first, start);
    RunHolds(cfg, Start(cfg, first, start), schedule);
    UnixGrows(st.position.expiryAt, st.now);
  }
}
