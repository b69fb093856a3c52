/** Which branch of the select a poll takes, and what ended a session. */
module SessionOutcomes {
  import opened Bytes
  import opened RefreshSchedule
  import opened Session
  import opened SessionIdentities
  import opened SessionRuns
  import opened SessionAnswers

  // --------------------------------------------------------------------- one poll of the select

  /** The refresh in flight completes in this poll: it fails, or its identity gets the lock. */
  predicate Completes(cfg: Config, st: State, ready: Ready) {
    || (st.refresh.Fetching? && ready.fetched.Some? && (Checked(cfg, st, ready).None? || !Held(st.tasks)))
    || (st.refresh.Waiting? && !Held(st.tasks))
  }

  /** A refresh is due and none is in flight. */
  predicate Due(st: State)
    requires st.position.Selecting?
  {
    st.nextRefresh.Some? && st.refresh.Idle? && st.now >= st.position.refreshAt
  }

  /** The poll comes to the listeners. */
  predicate ReachesAccept(cfg: Config, st: State, ready: Ready)
    requires st.position.Selecting?
  {
    ReachesRefresh(st, ready) && !Completes(cfg, st, ready) && !Due(st)
  }

  predicate Accepts(st: State, ready: Ready) {
    TaskCount(st.tasks) < MAX_SESSION_CONNECTIONS && (ready.control.Some? || ready.adapter.Some?)
  }

  lemma {:induction false} TakenIff(cfg: Config, st: State, ready: Ready)
    ensures PollRefresh(cfg, st, ready).0 <==> Completes(cfg, st, ready)
    ensures var polled := PollRefresh(cfg, st, ready).1;
            !Completes(cfg, st, ready) ==>
              && polled.tasks == st.tasks && polled.ending == st.ending && polled.position == st.position
              && polled.nextRefresh == st.nextRefresh && polled.attempts == st.attempts
              && (st.refresh.Idle? ==> polled == st) && (!st.refresh.Idle? ==> !polled.refresh.Idle?)
              && polled.freeConnections == st.freeConnections && polled.freeAdapter == st.freeAdapter
  {
    hide Checked, RetryRefreshAt, RefreshAfterSuccessAt, Unix, Held;
  }

  /** What ends a session in a poll, each exactly. */
  lemma {:induction false} TurnEndsIff(cfg: Config, st: State, ready: Ready)
    requires Serving(st) && st.position.Selecting?
    ensures var ending := Turn(cfg, st, ready).ending;
            && (ending == Some(BySignal) <==> ready.signal == Some(true))
            && (ending == Some(SignalFailed) <==> ready.signal == Some(false))
            && (ending == Some(ByShutdown) <==> ready.signal.None? && st.shutdownSent)
            && (ending == Some(ExpiredDuringRefresh) <==>
                  && ReachesRefresh(st, ready) && st.refresh.Fetching? && ready.fetched.Some?
                  && Checked(cfg, st, ready).None?
                  && st.identity.validUntil <= Unix(st.now + ready.lags.check + ready.lags.schedule))
            && (ending == Some(ListenerFailed) <==>
                  && ReachesAccept(cfg, st, ready) && Accepts(st, ready)
                  && (ready.control == Some(false) || (ready.control.None? && ready.adapter == Some(false))))
            && (ending == Some(TaskFailed) <==>
                  && ReachesAccept(cfg, st, ready) && !Accepts(st, ready)
                  && ready.joinable.Some? && Joinable(st, ready.joinable.value)
                  && st.tasks[ready.joinable.value].phase.Panicked?)
            && ending != Some(Expired)
  {
    hide PollRefresh, PollRest, Checked, Held, Unix, TaskCount;
    if ReachesRefresh(st, ready) {
      TakenIff(cfg, st, ready);
      var polled := PollRefresh(cfg, st, ready).1;
      if Completes(cfg, st, ready) {
        NothingChecked(cfg, st, ready);
        CompletedEnds(cfg, st, ready);
      } else {
        RestEnds(polled, ready);
      }
    }
  }

  lemma {:induction false} CompletedEnds(cfg: Config, st: State, ready: Ready)
    requires Serving(st) && Completes(cfg, st, ready)
    ensures var ending := PollRefresh(cfg, st, ready).1.ending;
            && (ending.None? || ending == Some(ExpiredDuringRefresh))
            && (ending.Some? <==>
                  && st.refresh.Fetching? && Checked(cfg, st, ready).None?
                  && st.identity.validUntil <= Unix(st.now + ready.lags.check + ready.lags.schedule))
  {
    hide Checked, RetryRefreshAt, RefreshAfterSuccessAt, Unix, Held;
    assert st.now + (ready.lags.check + ready.lags.schedule) == st.now + ready.lags.check + ready.lags.schedule;
  }

  lemma {:induction false} RestEnds(st: State, ready: Ready)
    requires Serving(st) && st.position.Selecting?
    ensures var ending := PollRest(st, ready).ending;
            && (ending == Some(ListenerFailed) <==>
                  && !Due(st) && Accepts(st, ready)
                  && (ready.control == Some(false) || (ready.control.None? && ready.adapter == Some(false))))
            && (ending == Some(TaskFailed) <==>
                  && !Due(st) && !Accepts(st, ready) && ready.joinable.Some? && Joinable(st, ready.joinable.value)
                  && st.tasks[ready.joinable.value].phase.Panicked?)
            && (ending.None? || ending == Some(ListenerFailed) || ending == Some(TaskFailed))
  {
    hide TaskCount;
  }

  /** When a scheduled refresh is due: not before its second, and within a second after it and the lag
      of the arming, or at once when armed in or after its second. */
  lemma {:induction false} RefreshDeadline(st: State, lag: nat)
    requires st.nextRefresh.Some?
    ensures var armed, at := Arm(st, lag), st.nextRefresh.value;
            && armed.position.Selecting? && at <= Unix(armed.position.refreshAt)
            && (Unix(st.now) < at ==> armed.position.refreshAt < (at + 1) * SECOND + lag)
            && (Unix(st.now) >= at ==> armed.position.refreshAt == armed.now)
  {
    hide Unix, InstantFor;
    InstantBounds(st.nextRefresh.value, st.now, st.now + lag);
  }

  /** A poll starts a refresh exactly when it is due and nothing more urgent is ready. */
  lemma {:induction false} TurnStartsIff(cfg: Config, st: State, ready: Ready)
    requires Serving(st) && st.position.Selecting?
    ensures var st' := Turn(cfg, st, ready);
            if ReachesRefresh(st, ready) && Due(st)
            then st'.attempts == st.attempts + 1 && st'.refresh == Fetching(st.identity.proof.audience)
            else st'.attempts == st.attempts
  {
    hide PollRefresh, PollRest, Completes, Unix;
    if ReachesRefresh(st, ready) {
      TakenIff(cfg, st, ready);
      var polled := PollRefresh(cfg, st, ready).1;
      if Completes(cfg, st, ready) {
        CompletedStarts(cfg, st, ready);
      } else {
        RestStarts(polled, ready);
      }
    }
  }

  lemma {:induction false} CompletedStarts(cfg: Config, st: State, ready: Ready)
    requires Completes(cfg, st, ready)
    ensures PollRefresh(cfg, st, ready).1.attempts == st.attempts && !st.refresh.Idle?
  {
    hide Checked, RetryRefreshAt, RefreshAfterSuccessAt, Unix, Held;
  }

  lemma {:induction false} RestStarts(st: State, ready: Ready)
    requires st.position.Selecting?
    ensures var st' := PollRest(st, ready);
            if Due(st) then st'.attempts == st.attempts + 1 && st'.refresh == Fetching(st.identity.proof.audience)
            else st'.attempts == st.attempts
  {
    hide TaskCount;
  }

  /** A completed refresh schedules the next: after a success from the new identity, after a failure
      from the old one while that lives. */
  lemma {:induction false} RefreshSchedulesNext(cfg: Config, st: State, ready: Ready)
    requires Serving(st) && st.position.Selecting? && ReachesRefresh(st, ready) && Completes(cfg, st, ready)
    ensures var st' := Turn(cfg, st, ready);
            && st'.refresh.Idle?
            && (Stored(cfg, st, ready).Some? ==>
                  && st'.identity == Stored(cfg, st, ready).value.identity
                  && st'.nextRefresh == RefreshAfterSuccessAt(st'.identity.validUntil, Unix(st'.now)))
            && (Stored(cfg, st, ready).None? ==>
                  && st'.identity == st.identity
                  && (Serving(st') <==> Unix(st'.now) < st.identity.validUntil)
                  && (Serving(st') ==> st'.nextRefresh == RetryRefreshAt(st.identity.validUntil, Unix(st'.now))))
  {
    hide Checked, RetryRefreshAt, RefreshAfterSuccessAt, Unix, Held, PollRest;
  }

  /** A poll takes in a connection exactly when it comes to the listeners, one is ready, and there are
      permits for it; the control listener comes first. */
  lemma {:induction false} TurnAdmitsIff(cfg: Config, st: State, ready: Ready)
    requires Serving(st) && st.position.Selecting?
    ensures var st' := Turn(cfg, st, ready);
            var control := ready.control == Some(true) && st.freeConnections > 0;
            var adapter := && ready.control.None? && ready.adapter == Some(true)
                           && st.freeAdapter > 0 && st.freeConnections > 0;
            if ReachesAccept(cfg, st, ready) && Accepts(st, ready) && (control || adapter)
            then st'.tasks == st.tasks + [Task(!control, if control then Busy else Claiming, false)]
            else |st'.tasks| == |st.tasks|
  {
    hide PollRefresh, PollRest, Checked, Held, Unix, TaskCount;
    if ReachesRefresh(st, ready) {
      TakenIff(cfg, st, ready);
      PollRefreshLoop(cfg, st, ready);
      var polled := PollRefresh(cfg, st, ready).1;
      if !Completes(cfg, st, ready) {
        RestAdmits(polled, ready);
      }
    }
  }

  lemma {:induction false} RestAdmits(st: State, ready: Ready)
    requires st.position.Selecting?
    ensures var st' := PollRest(st, ready);
            var control := ready.control == Some(true) && st.freeConnections > 0;
            var adapter := && ready.control.None? && ready.adapter == Some(true)
                           && st.freeAdapter > 0 && st.freeConnections > 0;
            if !Due(st) && Accepts(st, ready) && (control || adapter)
            then st'.tasks == st.tasks + [Task(!control, if control then Busy else Claiming, false)]
            else |st'.tasks| == |st.tasks|
  {
    hide TaskCount;
  }

  // ----------------------------------------------------------------------------- over runs

  predicate StopAskedIn(schedule: seq<Action>) {
    exists k :: 0 <= k < |schedule| && schedule[k].ControlDone? && schedule[k].stop
  }

  predicate PanickedIn(schedule: seq<Action>) {
    exists k :: 0 <= k < |schedule| && schedule[k].Panic?
  }

  predicate PolledWith(schedule: seq<Action>, p: Ready -> bool) {
    exists k :: 0 <= k < |schedule| && schedule[k].Poll? && p(schedule[k].ready)
  }

  function SignalIs(ok: bool): Ready -> bool {
    (ready: Ready) => ready.signal == Some(ok)
  }

  function ListenerDown(): Ready -> bool {
    (ready: Ready) => ready.control == Some(false) || ready.adapter == Some(false)
  }

  /** What the history says about a session: a shutdown is pending exactly if a client asked for it, a
      task is found panicked only if one did, and an ending has its cause. */
  predicate Caused(schedule: seq<Action>, st: State) {
    && (st.shutdownSent <==> StopAskedIn(schedule))
    && (Serving(st) && !PanickedIn(schedule) ==> forall i :: 0 <= i < |st.tasks| ==> !st.tasks[i].phase.Panicked?)
    && (st.ending.Some? ==>
          match st.ending.value
          case BySignal => PolledWith(schedule, SignalIs(true))
          case SignalFailed => PolledWith(schedule, SignalIs(false))
          case ByShutdown => StopAskedIn(schedule)
          case ListenerFailed => PolledWith(schedule, ListenerDown())
          case TaskFailed => PanickedIn(schedule)
          case Expired => st.identity.validUntil <= Unix(st.now)
          case ExpiredDuringRefresh => st.identity.validUntil <= Unix(st.now))
  }

  lemma {:induction false} CausesStay(schedule: seq<Action>, a: Action)
    ensures StopAskedIn(schedule + [a]) <==> StopAskedIn(schedule) || (a.ControlDone? && a.stop)
    ensures PanickedIn(schedule + [a]) <==> PanickedIn(schedule) || a.Panic?
    ensures forall p :: PolledWith(schedule + [a], p) <==> PolledWith(schedule, p) || (a.Poll? && p(a.ready))
  {
    assert (schedule + [a])[|schedule|] == a;
    assert forall k :: 0 <= k < |schedule| ==> (schedule + [a])[k] == schedule[k];
  }

  lemma {:induction false} TaskStop(cfg: Config, st: State, a: Action)
    requires Enabled(st, a) && OfTask(a)
    ensures Apply(cfg, st, a).shutdownSent <==> st.shutdownSent || (a.ControlDone? && a.stop)
  {
    hide Turn, Unix;
  }

  lemma {:induction false} TaskCaused(cfg: Config, schedule: seq<Action>, st: State, a: Action)
    requires Caused(schedule, st) && Enabled(st, a) && OfTask(a)
    ensures Caused(schedule + [a], Apply(cfg, st, a))
  {
    hide Apply, Enabled, StopAskedIn, PanickedIn, PolledWith, Unix;
    CausesStay(schedule, a);
    TaskActionFrame(cfg, st, a);
    TaskStop(cfg, st, a);
    if Serving(st) && !a.Panic? {
      NotReaped(st, a);
      if a.ControlDone? || a.Reply? || a.TimeOut? {
        OverUndisturbed(cfg, st, a);
      } else {
        PhaseUndisturbed(cfg, st, a);
      }
    }
  }

  lemma NotReaped(st: State, a: Action)
    requires Enabled(st, a) && Serving(st)
    ensures !a.Reap?
  {
  }

  lemma {:induction false} TurnStops(cfg: Config, st: State, ready: Ready)
    requires st.position.Selecting?
    ensures Turn(cfg, st, ready).shutdownSent == st.shutdownSent
  {
    hide PollRefresh, PollRest;
    RefreshStops(cfg, st, ready);
    RestStops(PollRefresh(cfg, st, ready).1, ready);
  }

  lemma {:induction false} RefreshStops(cfg: Config, st: State, ready: Ready)
    ensures var st' := PollRefresh(cfg, st, ready).1; st'.shutdownSent == st.shutdownSent && st'.position == st.position
  {
    hide Checked, Unix, Held, RetryRefreshAt, RefreshAfterSuccessAt;
  }

  lemma {:induction false} RestStops(st: State, ready: Ready)
    requires st.position.Selecting?
    ensures PollRest(st, ready).shutdownSent == st.shutdownSent
  {
    hide TaskCount;
  }

  lemma {:induction false} PollCaused(cfg: Config, schedule: seq<Action>, st: State, ready: Ready)
    requires Caused(schedule, st) && Enabled(st, Poll(ready))
    ensures Caused(schedule + [Poll(ready)], Turn(cfg, st, ready))
  {
    hide Turn, StopAskedIn, PanickedIn, PolledWith, Unix, Completes, Checked;
    var st', longer := Turn(cfg, st, ready), schedule + [Poll(ready)];
    CausesStay(schedule, Poll(ready));
    TurnLoop(cfg, st, ready);
    TurnStops(cfg, st, ready);
    TurnEndsIff(cfg, st, ready);
    if st'.ending == Some(ExpiredDuringRefresh) {
      FailedCompletes(cfg, st, ready);
      RefreshSchedulesNext(cfg, st, ready);
    }
    if ready.signal.Some? {
      assert SignalIs(ready.signal.value)(ready) && PolledWith(longer, SignalIs(ready.signal.value));
    }
    if st'.ending == Some(ListenerFailed) {
      assert ListenerDown()(ready) && PolledWith(longer, ListenerDown());
    }
  }

  lemma FailedCompletes(cfg: Config, st: State, ready: Ready)
    requires st.refresh.Fetching? && ready.fetched.Some? && Checked(cfg, st, ready).None?
    ensures Completes(cfg, st, ready) && Stored(cfg, st, ready).None?
  {
    hide Checked;
  }

  lemma {:induction false} LoopCaused(cfg: Config, schedule: seq<Action>, st: State, a: Action)
    requires Caused(schedule, st) && Enabled(st, a) && !OfTask(a) && !a.Poll?
    ensures Caused(schedule + [a], Apply(cfg, st, a))
  {
    hide Turn, StopAskedIn, PanickedIn, PolledWith, Unix, InstantFor;
    CausesStay(schedule, a);
    UnixGrows(st.now, Apply(cfg, st, a).now);
  }

  lemma {:induction false} StepCaused(cfg: Config, schedule: seq<Action>, st: State, a: Action)
    requires Caused(schedule, st) && Enabled(st, a)
    ensures Caused(schedule + [a], Apply(cfg, st, a))
  {
    hide Caused, Turn, Unix, InstantFor, Reclaim, ApplyReap, ApplyReply, ApplyReturn, Complete, Collapse;
    if OfTask(a) {
      TaskCaused(cfg, schedule, st, a);
    } else if a.Poll? {
      PollCaused(cfg, schedule, st, a.ready);
    } else {
      LoopCaused(cfg, schedule, st, a);
    }
  }

  /** Over every run: a shutdown is pending exactly if a control client asked for it, and a session
      that ended by a signal, a shutdown, a failed listener, a failed task or an expiry had one. */
  lemma {:induction false} EndingsHaveCauses(cfg: Config, first: Identity, start: nat, schedule: seq<Action>, st: State)
    requires Reaches(cfg, first, start, schedule, st)
    ensures Caused(schedule, st)
    decreases |schedule|
  {
    hide Enabled, Apply, Caused, Start;
    var init := Start(cfg, first, start);
    if schedule == [] {
      NothingCaused(cfg, first, start);
    } else {
      var n := |schedule| - 1;
      var before, a := schedule[..n], schedule[n];
      assert schedule == before + [a];
      RunSnoc(cfg, init, before, a);
      var last := Run(cfg, init, before).value;
      EndingsHaveCauses(cfg, first, start, before, last);
      StepCaused(cfg, before, last, a);
    }
  }

  lemma NothingCaused(cfg: Config, first: Identity, start: nat)
    ensures Caused([], Start(cfg, first, start))
  {
  }
}
