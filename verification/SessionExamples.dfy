/** Concrete runs of a CI session that show where its promises need their conditions. */
module SessionExamples {
  import opened Bytes
  import opened RefreshSchedule
  import opened Session
  import opened SessionIdentities
  import opened SessionRuns

  predicate Leads(st: State, a: Action, st': State) {
    Enabled(st, a) && Apply(EXAMPLE, st, a) == st'
  }

  /** A run that goes through the given states. */
  lemma {:induction false} PathRuns(states: seq<State>, actions: seq<Action>)
    requires |states| == |actions| + 1 && forall i | 0 <= i < |actions| :: Leads(states[i], actions[i], states[i + 1])
    ensures Run(EXAMPLE, states[0], actions) == Some(states[|actions|])
    decreases |actions|
  {
    if actions != [] {
      var rest, later := states[1..], actions[1..];
      forall i | 0 <= i < |later|
        ensures Leads(rest[i], later[i], rest[i + 1])
      {
        assert rest[i] == states[i + 1] && rest[i + 1] == states[i + 2] && later[i] == actions[i + 1];
      }
      PathRuns(rest, later);
      assert Leads(states[0], actions[0], states[1]);
    }
  }

  lemma {:induction false} RunJoined(st: State, a: seq<Action>, b: seq<Action>)
    requires Run(EXAMPLE, st, a).Some?
    ensures Run(EXAMPLE, st, a + b) == Run(EXAMPLE, Run(EXAMPLE, st, a).value, b)
    decreases |a|
  {
    if a == [] {
      assert a + b == b;
    } else {
      RunJoined(Apply(EXAMPLE, st, a[0]), a[1..], b);
      assert (a + b)[1..] == a[1..] + b;
    }
  }

  // ------------------------------------------------------------------------- single steps

  lemma Proceeds(st: State)
    requires Serving(st) && st.position.Head?
    ensures Leads(st, Proceed, st.(position := Reading))
  {
  }

  lemma Arms(st: State, expiryAt: nat, refreshAt: nat)
    requires Serving(st) && st.position.Reading? && Readable(st)
    requires expiryAt == InstantFor(st.identity.validUntil, st.now, st.now)
    requires st.nextRefresh.Some? ==> refreshAt == InstantFor(st.nextRefresh.value, st.now, st.now)
    requires st.nextRefresh.None? ==> refreshAt == expiryAt
    ensures Leads(st, ReadHead(0), st.(position := Selecting(expiryAt, refreshAt)))
  {
    hide InstantFor;
  }

  lemma Ticks(st: State, time: nat)
    ensures Leads(st, Tick(time), st.(now := st.now + time))
  {
  }

  predicate Quietly(st: State) {
    Serving(st) && st.position.Selecting? && !st.shutdownSent && st.now < st.position.expiryAt
  }

  lemma StartsRefresh(st: State)
    requires Quietly(st) && st.refresh.Idle? && st.nextRefresh.Some? && st.now >= st.position.refreshAt
    ensures Leads(st, Poll(NOTHING), st.(position := Head, nextRefresh := None,
                                         refresh := Fetching(st.identity.proof.audience),
                                         attempts := st.attempts + 1))
  {
  }

  /** The refresh is fetched, valid, and stored in one poll. */
  lemma StoresAtOnce(st: State, token: Token, store: nat, replacement: Identity, next: Option<nat>)
    requires Quietly(st) && st.refresh.Fetching? && !Held(st.tasks)
    requires NewIdentity(token, EXAMPLE.maxAge, st.identity.proof, Unix(st.now)) == Some(replacement)
    requires next == RefreshAfterSuccessAt(replacement.validUntil, Unix(st.now + store))
    ensures Leads(st, Poll(NOTHING.(fetched := Some(Success(token)), lags := Lags(0, store, 0))),
                  st.(now := st.now + store, position := Head, refresh := Idle, identity := replacement,
                      installs := st.installs + [Install(replacement, st.now + store)], nextRefresh := next,
                      slots := if next.None? then st.slots
                               else
                                 st.slots
                                 + [Slot(next.value, Unix(st.now + store), replacement.validUntil, AfterSuccess)]))
  {
    hide NewIdentity, RefreshAfterSuccessAt, Unix, Held;
  }

  /** The refresh is fetched and valid, but a handler holds the read guard. */
  lemma Queued(st: State, token: Token, replacement: Identity)
    requires Quietly(st) && st.refresh.Fetching? && Held(st.tasks) && st.nextRefresh.None?
    requires NewIdentity(token, EXAMPLE.maxAge, st.identity.proof, Unix(st.now)) == Some(replacement)
    ensures Leads(st, Poll(NOTHING.(fetched := Some(Success(token)))), st.(refresh := Waiting(replacement)))
  {
    hide NewIdentity, Unix, Held, TaskCount;
  }

  /** The write lock is free at last. */
  lemma StoresLate(st: State)
    requires Quietly(st) && st.refresh.Waiting? && !Held(st.tasks)
    requires RefreshAfterSuccessAt(st.refresh.replacement.validUntil, Unix(st.now)) == None
    ensures Leads(st, Poll(NOTHING),
                  st.(position := Head, refresh := Idle, identity := st.refresh.replacement, nextRefresh := None,
                      installs := st.installs + [Install(st.refresh.replacement, st.now)]))
  {
    hide RefreshAfterSuccessAt, Unix, Held;
  }

  lemma AcceptsAdapter(st: State)
    requires Quietly(st) && st.refresh.Idle? && (st.nextRefresh.Some? ==> st.now < st.position.refreshAt)
    requires TaskCount(st.tasks) < 32 && st.freeAdapter == 1 && st.freeConnections > 0
    ensures Leads(st, Poll(NOTHING.(adapter := Some(true))),
                  st.(position := Head, freeAdapter := 0, freeConnections := st.freeConnections - 1,
                      tasks := st.tasks + [Task(true, Claiming, false)]))
  {
    hide TaskCount;
  }

  lemma AcceptsControl(st: State)
    requires Quietly(st) && st.refresh.Waiting? && Held(st.tasks) && st.nextRefresh.None?
    requires TaskCount(st.tasks) < 32 && st.freeConnections > 0
    ensures Leads(st, Poll(NOTHING.(control := Some(true))),
                  st.(position := Head, freeConnections := st.freeConnections - 1,
                      tasks := st.tasks + [Task(false, Busy, false)]))
  {
    hide TaskCount, Held;
  }

  /** One adapter handler, alone, takes the read guard. */
  lemma TakesGuard(st: State)
    requires st.tasks == [Task(true, Claiming, false)] && !st.used && Readable(st)
    ensures Leads(st, Claim(0), st.(tasks := [Task(true, ReadingFrame, false)], used := true))
    ensures Leads(st.(tasks := [Task(true, ReadingFrame, false)], used := true), Receive(0, true),
                  st.(tasks := [Task(true, Capturing, false)], used := true))
    ensures Leads(st.(tasks := [Task(true, Capturing, false)], used := true), Capture(0),
                  st.(tasks := [Task(true, Holding(st.identity), false)], used := true))
  {
  }

  lemma LetsGo(st: State, identity: Identity)
    requires st.tasks == [Task(true, Holding(identity), false)]
    ensures Leads(st, LetGo(0), st.(tasks := [Task(true, Deciding(identity), false)]))
  {
  }

  lemma OneHolder(identity: Identity)
    ensures Held([Task(true, Holding(identity), false)]) && TaskCount([Task(true, Holding(identity), false)]) == 1
    ensures !Held([Task(true, Deciding(identity), false)]) && !Held([]) && TaskCount([]) == 0
  {
    var tasks := [Task(true, Holding(identity), false)];
    assert tasks[0].phase.Holding?;
    assert tasks[1..] == [];
  }

  // ------------------------------------------------------------------------ the sessions

  const SHORT: Identity := Identity(Claims(82, 0), 82, EXAMPLE.proof, 80)
  const FETCH_SHORT: Ready := NOTHING.(fetched := Some(Success(Claims(82, 0))))

  /** A session opened at time 0: expiry at 100, first refresh at 80. */
  const OPENED: State := State(
    0, Head, LONG, Some(80), Idle, [], 32, 1, false, false, None, [Slot(80, 0, 100, Initially)], 0, [Install(LONG, 0)],
    0, [], 0)

  lemma OpenedAt0()
    ensures Start(EXAMPLE, LONG, 0) == OPENED && Opens(EXAMPLE, LONG, 0)
  {
  }

  // ------------------------------------------- expired between the check and the store

  const ARMED: State := OPENED.(position := Selecting(100 * SECOND, 80 * SECOND))
  const STARTED: State := ARMED.(now := 80 * SECOND, position := Head, nextRefresh := None, refresh := Fetching([2]),
                                 attempts := 1)
  const FETCHING: State := STARTED.(position := Selecting(100 * SECOND, 100 * SECOND))
  const SLOW_STORE: seq<Action> := [
    Proceed, ReadHead(0), Tick(80 * SECOND), Poll(NOTHING), Proceed, ReadHead(0),
    Poll(FETCH_SHORT.(lags := Lags(0, 2 * SECOND, 0)))]

  /** Checked at second 80, stored at second 82, with no wait for the lock: expired on arrival. */
  lemma {:induction false} ExpiredByTheClock()
    ensures Opens(EXAMPLE, LONG, 0) && Run(EXAMPLE, Start(EXAMPLE, LONG, 0), SLOW_STORE).Some?
    ensures var st := Run(EXAMPLE, Start(EXAMPLE, LONG, 0), SLOW_STORE).value;
            && Serving(st) && st.identity == SHORT && st.installs == [Install(LONG, 0), Install(SHORT, 82 * SECOND)]
            && ExpiredAtInstall(st.installs[1])
  {
    hide Run, Leads;
    OpenedAt0();
    OneHolder(LONG);
    var reading, late, again := OPENED.(position := Reading), ARMED.(now := 80 * SECOND), STARTED.(position := Reading);
    var stored := FETCHING.(now := 82 * SECOND, position := Head, refresh := Idle, identity := SHORT,
                            installs := FETCHING.installs + [Install(SHORT, 82 * SECOND)]);
    Proceeds(OPENED);
    Arms(reading, 100 * SECOND, 80 * SECOND);
    Ticks(ARMED, 80 * SECOND);
    StartsRefresh(late);
    Proceeds(STARTED);
    Arms(again, 100 * SECOND, 100 * SECOND);
    assert NewIdentity(Claims(82, 0), EXAMPLE.maxAge, EXAMPLE.proof, 80) == Some(SHORT);
    assert RefreshAfterSuccessAt(82, 82) == None;
    StoresAtOnce(FETCHING, Claims(82, 0), 2 * SECOND, SHORT, None);
    PathRuns([OPENED, reading, ARMED, late, STARTED, again, FETCHING, stored], SLOW_STORE);
  }

  // --------------------------------------------------- the write queued behind a reader

  const GUARDED: State := OPENED.(
    position := Head, freeAdapter := 0, freeConnections := 31, tasks := [Task(true, Holding(LONG), false)],
    used := true)
  const TO_GUARDED: seq<Action> := [
    Proceed, ReadHead(0), Poll(NOTHING.(adapter := Some(true))), Claim(0), Receive(0, true), Capture(0)]

  /** The adapter handler holds the read guard, at time 0. */
  lemma {:induction false} ReachesGuarded()
    ensures Run(EXAMPLE, OPENED, TO_GUARDED) == Some(GUARDED)
  {
    hide Run, Leads;
    OneHolder(LONG);
    var reading := OPENED.(position := Reading);
    var accepted := ARMED.(position := Head, freeAdapter := 0, freeConnections := 31,
                           tasks := [Task(true, Claiming, false)]);
    var claimed := accepted.(tasks := [Task(true, ReadingFrame, false)], used := true);
    var received := accepted.(tasks := [Task(true, Capturing, false)], used := true);
    Proceeds(OPENED);
    Arms(reading, 100 * SECOND, 80 * SECOND);
    assert ARMED.tasks + [Task(true, Claiming, false)] == [Task(true, Claiming, false)];
    AcceptsAdapter(ARMED);
    TakesGuard(accepted);
    PathRuns([OPENED, reading, ARMED, accepted, claimed, received, GUARDED], TO_GUARDED);
  }

  const QUEUED: State := GUARDED.(
    now := 80 * SECOND, position := Selecting(100 * SECOND, 100 * SECOND), nextRefresh := None,
    refresh := Waiting(SHORT), attempts := 1)
  const TO_QUEUED: seq<Action> := [
    Proceed, ReadHead(0), Tick(80 * SECOND), Poll(NOTHING), Proceed, ReadHead(0), Poll(FETCH_SHORT)]

  /** At second 80 the refresh is fetched while the guard is still held. */
  lemma {:induction false} ReachesQueued()
    ensures Run(EXAMPLE, GUARDED, TO_QUEUED) == Some(QUEUED)
  {
    hide Run, Leads;
    OneHolder(LONG);
    var reading := GUARDED.(position := Reading);
    var armed := GUARDED.(position := Selecting(100 * SECOND, 80 * SECOND));
    var late := armed.(now := 80 * SECOND);
    var started := late.(position := Head, nextRefresh := None, refresh := Fetching([2]), attempts := 1);
    var again := started.(position := Reading);
    var fetching := started.(position := Selecting(100 * SECOND, 100 * SECOND));
    Proceeds(GUARDED);
    Arms(reading, 100 * SECOND, 80 * SECOND);
    Ticks(armed, 80 * SECOND);
    StartsRefresh(late);
    Proceeds(started);
    Arms(again, 100 * SECOND, 100 * SECOND);
    assert NewIdentity(Claims(82, 0), EXAMPLE.maxAge, EXAMPLE.proof, 80) == Some(SHORT);
    Queued(fetching, Claims(82, 0), SHORT);
    PathRuns([GUARDED, reading, armed, late, started, again, fetching, QUEUED], TO_QUEUED);
  }

  lemma {:induction false} ReachesQueuedFromStart()
    ensures Run(EXAMPLE, Start(EXAMPLE, LONG, 0), TO_GUARDED + TO_QUEUED) == Some(QUEUED)
  {
    hide Run;
    OpenedAt0();
    ReachesGuarded();
    ReachesQueued();
    RunJoined(OPENED, TO_GUARDED, TO_QUEUED);
  }

  const WAITED: seq<Action> := [LetGo(0), Tick(2 * SECOND), Poll(NOTHING)]

  /** The guard is let go and the refresh polled at second 82: expired on arrival by the other road. */
  lemma {:induction false} ExpiredByWaiting()
    ensures Opens(EXAMPLE, LONG, 0) && Run(EXAMPLE, Start(EXAMPLE, LONG, 0), TO_GUARDED + TO_QUEUED + WAITED).Some?
    ensures var st := Run(EXAMPLE, Start(EXAMPLE, LONG, 0), TO_GUARDED + TO_QUEUED + WAITED).value;
            && Serving(st) && st.identity == SHORT && st.installs == [Install(LONG, 0), Install(SHORT, 82 * SECOND)]
            && ExpiredAtInstall(st.installs[1])
  {
    hide Run, Leads;
    OpenedAt0();
    OneHolder(LONG);
    ReachesQueuedFromStart();
    var free := QUEUED.(tasks := [Task(true, Deciding(LONG), false)]);
    var late := free.(now := 82 * SECOND);
    var stored := late.(position := Head, refresh := Idle, identity := SHORT,
                        installs := late.installs + [Install(SHORT, 82 * SECOND)]);
    LetsGo(QUEUED, LONG);
    Ticks(free, 2 * SECOND);
    assert RefreshAfterSuccessAt(82, 82) == None;
    StoresLate(late);
    PathRuns([QUEUED, free, late, stored], WAITED);
    RunJoined(Start(EXAMPLE, LONG, 0), TO_GUARDED + TO_QUEUED, WAITED);
  }

  const ACCEPTED: seq<Action> := [Poll(NOTHING.(control := Some(true))), Proceed]

  /** A connection is accepted while the write is queued: the loop comes round, waits for its own
      read, and is stuck. */
  lemma {:induction false} StuckByAccepting()
    ensures Opens(EXAMPLE, LONG, 0) && Run(EXAMPLE, Start(EXAMPLE, LONG, 0), TO_GUARDED + TO_QUEUED + ACCEPTED).Some?
    ensures Stuck(Run(EXAMPLE, Start(EXAMPLE, LONG, 0), TO_GUARDED + TO_QUEUED + ACCEPTED).value)
  {
    hide Run, Leads;
    OpenedAt0();
    OneHolder(LONG);
    ReachesQueuedFromStart();
    var round := QUEUED.(position := Head, freeConnections := 30, tasks := QUEUED.tasks + [Task(false, Busy, false)]);
    AcceptsControl(QUEUED);
    Proceeds(round);
    PathRuns([QUEUED, round, round.(position := Reading)], ACCEPTED);
    RunJoined(Start(EXAMPLE, LONG, 0), TO_GUARDED + TO_QUEUED, ACCEPTED);
  }

  // --------------------------------------------------------------------- a late timer

  const TENTH: nat := 100_000_000

  /** The same identity, served from 99.9 seconds on: the timer for second 100 is due at 100.9. */
  const LATE_OPENED: State := State(
    999 * TENTH, Head, LONG, Some(99), Idle, [], 32, 1, false, false, None, [Slot(99, 99, 100, Initially)], 0,
    [Install(LONG, 999 * TENTH)], 0, [], 0)
  const LATE_FETCHING: State := LATE_OPENED.(
    position := Selecting(1009 * TENTH, 1009 * TENTH), nextRefresh := None, refresh := Fetching([2]), attempts := 1)
  const NEXT: Identity := Identity(Claims(200, 0), 200, EXAMPLE.proof, 100)
  const OUTLIVED: seq<Action> := [
    Proceed, ReadHead(0), Poll(NOTHING), Proceed, ReadHead(0), Tick(4 * TENTH),
    Poll(NOTHING.(fetched := Some(Success(Claims(200, 0))), lags := Lags(0, 0, 0)))]

  lemma OpenedLate()
    ensures Start(EXAMPLE, LONG, 999 * TENTH) == LATE_OPENED && Opens(EXAMPLE, LONG, 999 * TENTH)
  {
  }

  /** A refresh completes at 100.3, after the expiry and before its timer: the session goes on. */
  lemma {:induction false} OutlivesExpiry()
    ensures Opens(EXAMPLE, LONG, 999 * TENTH) && Run(EXAMPLE, Start(EXAMPLE, LONG, 999 * TENTH), OUTLIVED).Some?
    ensures var st := Run(EXAMPLE, Start(EXAMPLE, LONG, 999 * TENTH), OUTLIVED).value;
            && Serving(st) && st.identity == NEXT && |st.installs| == 2 && st.installs[1] == Install(NEXT, 1003 * TENTH)
            && LONG.validUntil <= Unix(1003 * TENTH)
  {
    hide Run, Leads;
    OpenedLate();
    OneHolder(LONG);
    var reading := LATE_OPENED.(position := Reading);
    var armed := LATE_OPENED.(position := Selecting(1009 * TENTH, 999 * TENTH));
    var started := LATE_FETCHING.(position := Head);
    var again := started.(position := Reading);
    var late := LATE_FETCHING.(now := 1003 * TENTH);
    var next := RefreshAfterSuccessAt(200, 100);
    assert next == Some(180);
    var stored := late.(position := Head, refresh := Idle, identity := NEXT, nextRefresh := next,
                        installs := late.installs + [Install(NEXT, 1003 * TENTH)],
                        slots := late.slots + [Slot(180, 100, 200, AfterSuccess)]);
    Proceeds(LATE_OPENED);
    Arms(reading, 1009 * TENTH, 999 * TENTH);
    StartsRefresh(armed);
    Proceeds(started);
    Arms(again, 1009 * TENTH, 1009 * TENTH);
    Ticks(LATE_FETCHING, 4 * TENTH);
    assert Unix(1003 * TENTH) == 100;
    assert NewIdentity(Claims(200, 0), EXAMPLE.maxAge, EXAMPLE.proof, 100) == Some(NEXT);
    StoresAtOnce(late, Claims(200, 0), 0, NEXT, next);
    PathRuns([LATE_OPENED, reading, armed, started, again, LATE_FETCHING, late, stored], OUTLIVED);
  }

  const LATE_ATTEMPT: seq<Action> := [Proceed, ReadHead(0), Tick(12 * TENTH)]

  /** Served from 98.9 seconds on, and not polled until 100.1: a refresh is still pending after the
      expiry, and the next poll starts it. */
  lemma {:induction false} AttemptsPastExpiry()
    ensures Opens(EXAMPLE, LONG, 989 * TENTH) && Run(EXAMPLE, Start(EXAMPLE, LONG, 989 * TENTH), LATE_ATTEMPT).Some?
    ensures var st := Run(EXAMPLE, Start(EXAMPLE, LONG, 989 * TENTH), LATE_ATTEMPT).value;
            && LONG.validUntil <= Unix(st.now) && st.position.Selecting?
            && Turn(EXAMPLE, st, NOTHING).attempts == st.attempts + 1
  {
    hide Run, Leads;
    var st := State(989 * TENTH, Head, LONG, Some(99), Idle, [], 32, 1, false, false, None,
                    [Slot(99, 98, 100, Initially)], 0,
                    [Install(LONG, 989 * TENTH)], 0, [], 0);
    assert Start(EXAMPLE, LONG, 989 * TENTH) == st;
    var reading := st.(position := Reading);
    var armed := st.(position := Selecting(1009 * TENTH, 999 * TENTH));
    var late := armed.(now := 1001 * TENTH);
    Proceeds(st);
    Arms(reading, 1009 * TENTH, 999 * TENTH);
    Ticks(armed, 12 * TENTH);
    PathRuns([st, reading, armed, late], LATE_ATTEMPT);
  }
}
