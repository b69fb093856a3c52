/** Admission, permits and the one-shot claim over every run of a CI session. */
module SessionPermits {
  import opened Bytes
  import opened Sequences
  import opened RefreshSchedule
  import opened Session

  /** A task holds its connection permit until it is joined, unless its future was dropped. */
  predicate HoldsPermit(t: Task) {
    !t.joined && !t.phase.Panicked?
  }

  predicate UnjoinedPanic(t: Task) {
    !t.joined && t.phase.Panicked?
  }

  predicate UnfinishedAdapter(t: Task) {
    t.adapter && !Over(t)
  }

  /** The request is claimed and the adapter is not yet invoked. */
  predicate MayInvoke(t: Task) {
    t.phase.ReadingFrame? || t.phase.Capturing? || t.phase.Holding? || t.phase.Deciding?
  }

  predicate JoinedAreOver(tasks: seq<Task>) {
    forall i :: 0 <= i < |tasks| && tasks[i].joined ==> Over(tasks[i])
  }

  predicate Conserved(st: State) {
    && st.freeConnections + Count(HoldsPermit, st.tasks) == MAX_SESSION_CONNECTIONS
    && st.freeAdapter + Count(UnfinishedAdapter, st.tasks) == ADAPTER_SLOTS
    && JoinedAreOver(st.tasks)
  }

  predicate ClaimedOnce(st: State) {
    && st.invocations + Count(MayInvoke, st.tasks) <= 1
    && (!st.used ==> st.invocations + Count(MayInvoke, st.tasks) == 0)
  }

  // --------------------------------------------------------------------- small movements

  /** Nothing that is counted moves. */
  predicate Still(st: State, st': State) {
    && st'.tasks == st.tasks && st'.freeConnections == st.freeConnections && st'.freeAdapter == st.freeAdapter
    && st'.invocations == st.invocations && st'.used == st.used
  }

  /** One task changes, and the counters move with it. */
  predicate OneMoves(st: State, st': State, i: nat) {
    && i < |st.tasks| && |st'.tasks| == |st.tasks| && st'.tasks == st.tasks[i := st'.tasks[i]]
    && var was, now := st.tasks[i], st'.tasks[i];
       && (now.joined ==> Over(now))
       && st'.freeConnections + One(HoldsPermit(now)) == st.freeConnections + One(HoldsPermit(was))
       && st'.freeAdapter + One(UnfinishedAdapter(now)) == st.freeAdapter + One(UnfinishedAdapter(was))
       && (st.used ==> st'.used && st'.invocations + One(MayInvoke(now)) <= st.invocations + One(MayInvoke(was)))
       && (!st.used && !st'.used ==> st'.invocations + One(MayInvoke(now)) <= st.invocations + One(MayInvoke(was)))
       && (!st.used && st'.used ==> st'.invocations + One(MayInvoke(now)) == st.invocations + One(MayInvoke(was)) + 1)
  }

  /** A task arrives and takes its permits. */
  predicate OneArrives(st: State, st': State) {
    && |st'.tasks| == |st.tasks| + 1 && st'.tasks == st.tasks + [st'.tasks[|st.tasks|]]
    && var t := st'.tasks[|st.tasks|];
       && HoldsPermit(t) && !MayInvoke(t) && !t.joined
       && st'.freeConnections + 1 == st.freeConnections
       && st'.freeAdapter + One(UnfinishedAdapter(t)) == st.freeAdapter
       && st'.invocations == st.invocations && st'.used == st.used
  }

  lemma {:induction false} StillKeeps(st: State, st': State)
    requires Conserved(st) && ClaimedOnce(st) && Still(st, st')
    ensures Conserved(st') && ClaimedOnce(st')
  {
    hide Count;
  }

  lemma {:induction false} OneMovesKeeps(st: State, st': State, i: nat)
    requires Conserved(st) && ClaimedOnce(st) && OneMoves(st, st', i)
    ensures Conserved(st') && ClaimedOnce(st')
    ensures st.used ==> st'.invocations + Count(MayInvoke, st'.tasks) <= st.invocations + Count(MayInvoke, st.tasks)
  {
    hide Count, HoldsPermit, UnfinishedAdapter, MayInvoke;
    CountUpdate(HoldsPermit, st.tasks, i, st'.tasks[i]);
    CountUpdate(UnfinishedAdapter, st.tasks, i, st'.tasks[i]);
    CountUpdate(MayInvoke, st.tasks, i, st'.tasks[i]);
  }

  lemma {:induction false} OneArrivesKeeps(st: State, st': State)
    requires Conserved(st) && ClaimedOnce(st) && OneArrives(st, st')
    ensures Conserved(st') && ClaimedOnce(st')
    ensures Count(MayInvoke, st'.tasks) == Count(MayInvoke, st.tasks)
  {
    hide Count;
    var t := st'.tasks[|st.tasks|];
    CountSnoc(HoldsPermit, st.tasks, t);
    CountSnoc(UnfinishedAdapter, st.tasks, t);
    CountSnoc(MayInvoke, st.tasks, t);
  }

  // ------------------------------------------------------------------------- the steps

  lemma {:induction false} ReclaimMoves(st: State, i: nat)
    requires Joinable(st, i)
    ensures OneMoves(st, Reclaim(st, i), i)
  {
  }

  lemma {:induction false} PollRefreshStill(cfg: Config, st: State, ready: Ready)
    ensures Still(st, PollRefresh(cfg, st, ready).1) && PollRefresh(cfg, st, ready).1.shutdownSent == st.shutdownSent
    ensures PollRefresh(cfg, st, ready).1.refusedControl == st.refusedControl
    ensures PollRefresh(cfg, st, ready).1.position == st.position
  {
    hide RetryRefreshAt, RefreshAfterSuccessAt, Checked, Unix, Held;
  }

  predicate TurnMoves(st: State, st': State, ready: Ready) {
    || Still(st, st') || OneArrives(st, st')
    || (ready.joinable.Some? && OneMoves(st, st', ready.joinable.value))
  }

  lemma {:induction false} ArrivalMoves(st: State)
    ensures Still(st, AcceptControl(st)) || OneArrives(st, AcceptControl(st))
    ensures Still(st, AcceptAdapter(st)) || OneArrives(st, AcceptAdapter(st))
  {
  }

  lemma {:induction false} PollRestMoves(st: State, ready: Ready)
    requires st.position.Selecting?
    ensures TurnMoves(st, PollRest(st, ready), ready)
  {
    hide TaskCount, AcceptControl, AcceptAdapter, Reclaim, TurnMoves, GoRound;
    ArrivalMoves(st);
    Rounds(st, AcceptControl(st), ready);
    Rounds(st, AcceptAdapter(st), ready);
    if ready.joinable.Some? && Joinable(st, ready.joinable.value) {
      ReclaimMoves(st, ready.joinable.value);
      Rounds(st, Reclaim(st, ready.joinable.value), ready);
    }
    var started := st.(nextRefresh := None, refresh := Fetching(st.identity.proof.audience),
                       attempts := st.attempts + 1);
    StillRounds(st, started, ready);
    StillRounds(st, End(st, ListenerFailed), ready);
    StillRounds(st, st, ready);
  }

  lemma Rounds(st: State, st': State, ready: Ready)
    ensures Still(st, st') || OneArrives(st, st')
            || (ready.joinable.Some? && OneMoves(st, st', ready.joinable.value)) ==>
              TurnMoves(st, GoRound(st'), ready)
  {
  }

  lemma StillRounds(st: State, st': State, ready: Ready)
    requires Still(st, st')
    ensures TurnMoves(st, st', ready) && TurnMoves(st, GoRound(st'), ready)
  {
  }

  lemma {:induction false} TurnIsMove(cfg: Config, st: State, ready: Ready)
    requires st.position.Selecting?
    ensures TurnMoves(st, Turn(cfg, st, ready), ready)
  {
    hide PollRefresh, PollRest, OneMoves, OneArrives;
    PollRefreshStill(cfg, st, ready);
    var polled := PollRefresh(cfg, st, ready).1;
    PollRestMoves(polled, ready);
    StillThen(st, polled, PollRest(polled, ready), ready);
  }

  lemma {:induction false} StillThen(a: State, b: State, c: State, ready: Ready)
    requires Still(a, b) && TurnMoves(b, c, ready)
    ensures TurnMoves(a, c, ready)
  {
  }

  lemma {:induction false} TurnKeeps(cfg: Config, st: State, ready: Ready)
    requires st.position.Selecting? && Conserved(st) && ClaimedOnce(st)
    ensures Conserved(Turn(cfg, st, ready)) && ClaimedOnce(Turn(cfg, st, ready))
    ensures st.used ==> MayStillInvoke(Turn(cfg, st, ready)) <= MayStillInvoke(st)
  {
    hide Turn, Conserved, ClaimedOnce, Still, OneArrives, OneMoves, Count;
    TurnIsMove(cfg, st, ready);
    var st' := Turn(cfg, st, ready);
    if Still(st, st') {
      StillKeeps(st, st');
      StillCounts(st, st');
    } else if OneArrives(st, st') {
      OneArrivesKeeps(st, st');
      ArrivalCounts(st, st');
    } else {
      OneMovesKeeps(st, st', ready.joinable.value);
    }
  }

  /** Invocations made or still possible from requests already claimed. */
  function MayStillInvoke(st: State): nat {
    st.invocations + Count(MayInvoke, st.tasks)
  }

  lemma StillCounts(st: State, st': State)
    requires Still(st, st')
    ensures MayStillInvoke(st') == MayStillInvoke(st)
  {
  }

  lemma ArrivalCounts(st: State, st': State)
    requires OneArrives(st, st')
    ensures st'.invocations == st.invocations
  {
  }

  predicate OfTask(a: Action) {
    !a.Tick? && !a.Proceed? && !a.ReadHead? && !a.Poll? && !a.ReadExpiry?
  }

  lemma {:induction false} OverMoves(st: State, i: nat)
    requires Live(st, i) && JoinedAreOver(st.tasks)
    ensures OneMoves(st, Complete(st, i), i) && OneMoves(st, Collapse(st, i), i)
  {
  }

  lemma {:induction false} PhaseMoves(cfg: Config, st: State, a: Action)
    requires Enabled(st, a) && JoinedAreOver(st.tasks)
             && (a.Claim? || a.Receive? || a.Capture? || a.LetGo? || a.Begin? || a.Return?)
    ensures OneMoves(st, Apply(cfg, st, a), a.task)
  {
    hide Turn;
  }

  lemma {:induction false} TaskActionMoves(cfg: Config, st: State, a: Action)
    requires Enabled(st, a) && OfTask(a) && !a.Reap? && !a.JoinReady? && JoinedAreOver(st.tasks)
    ensures OneMoves(st, Apply(cfg, st, a), a.task)
  {
    hide Turn, Complete, Collapse, JoinedAreOver;
    if a.Claim? || a.Receive? || a.Capture? || a.LetGo? || a.Begin? || a.Return? {
      hide Apply;
      PhaseMoves(cfg, st, a);
    } else {
      OverMoves(st, a.task);
    }
  }

  lemma {:induction false} ReapMoves(st: State, i: nat)
    requires Enabled(st, Reap(i))
    ensures OneMoves(st, ApplyReap(st, i), i)
  {
  }

  lemma {:induction false} StepKeeps(cfg: Config, st: State, a: Action)
    requires Conserved(st) && ClaimedOnce(st) && Enabled(st, a)
    ensures Conserved(Apply(cfg, st, a)) && ClaimedOnce(Apply(cfg, st, a))
    ensures st.used ==> Apply(cfg, st, a).used && MayStillInvoke(Apply(cfg, st, a)) <= MayStillInvoke(st)
  {
    hide Turn, Reclaim, ApplyReap, ApplyReturn, ApplyReply, Complete, Collapse, ClaimedOnce, Count, OneMoves, Unix,
         InstantFor;
    match a
    case Tick(_) => StillKeeps(st, Apply(cfg, st, a));
    case Proceed => StillKeeps(st, Apply(cfg, st, a));
    case ReadHead(_) => StillKeeps(st, Apply(cfg, st, a));
    case ReadExpiry => StillKeeps(st, Apply(cfg, st, a));
    case Poll(ready) => TurnKeeps(cfg, st, ready); TurnUsed(cfg, st, ready);
    case JoinReady(i) => ReclaimMoves(st, i); OneMovesKeeps(st, Apply(cfg, st, a), i);
      MoveUsed(st, Apply(cfg, st, a), i);
    case Reap(i) => ReapMoves(st, i); OneMovesKeeps(st, Apply(cfg, st, a), i); MoveUsed(st, Apply(cfg, st, a), i);
    case _ =>
      TaskActionMoves(cfg, st, a);
      OneMovesKeeps(st, Apply(cfg, st, a), a.task);
      MoveUsed(st, Apply(cfg, st, a), a.task);
  }

  lemma MoveUsed(st: State, st': State, i: nat)
    requires OneMoves(st, st', i)
    ensures st.used ==> st'.used
  {
  }

  lemma TurnUsed(cfg: Config, st: State, ready: Ready)
    requires st.position.Selecting?
    ensures Turn(cfg, st, ready).used == st.used
  {
    hide PollRefresh, PollRest;
    PollRefreshStill(cfg, st, ready);
    PollRestUsed(PollRefresh(cfg, st, ready).1, ready);
  }

  lemma PollRestUsed(st: State, ready: Ready)
    requires st.position.Selecting?
    ensures PollRest(st, ready).used == st.used
  {
    hide TaskCount;
  }

  // ---------------------------------------------------------------------- all the runs

  /** `tasks.len()` is the tasks that hold a permit and the panicked ones. */
  lemma {:induction false} TaskCountSplits(tasks: seq<Task>)
    ensures TaskCount(tasks) == Count(HoldsPermit, tasks) + Count(UnjoinedPanic, tasks)
    decreases |tasks|
  {
    if tasks != [] {
      TaskCountSplits(tasks[1..]);
    }
  }

  lemma {:induction false} RunKeeps(cfg: Config, st: State, schedule: seq<Action>)
    requires Conserved(st) && ClaimedOnce(st) && Run(cfg, st, schedule).Some?
    ensures var st' := Run(cfg, st, schedule).value;
            && Conserved(st') && ClaimedOnce(st')
            && (st.used ==> st'.used && MayStillInvoke(st') <= MayStillInvoke(st))
    decreases |schedule|
  {
    hide Apply, Enabled, Conserved, ClaimedOnce, MayStillInvoke;
    if schedule != [] {
      StepKeeps(cfg, st, schedule[0]);
      RunKeeps(cfg, Apply(cfg, st, schedule[0]), schedule[1..]);
    }
  }

  lemma StartKeeps(cfg: Config, first: Identity, now: nat)
    ensures Conserved(Start(cfg, first, now)) && ClaimedOnce(Start(cfg, first, now))
  {
    var tasks := Start(cfg, first, now).tasks;
    CountNone(HoldsPermit, tasks);
    CountNone(UnfinishedAdapter, tasks);
    CountNone(MayInvoke, tasks);
  }

  /** Free connection permits and unjoined tasks make 32 and one more for every unjoined
      panic, so they make 32 exactly when no panicked task is waiting to be joined. */
  lemma {:induction false} PermitBalance(cfg: Config, first: Identity, start: nat, schedule: seq<Action>, st: State)
    requires Reaches(cfg, first, start, schedule, st)
    ensures st.freeConnections + TaskCount(st.tasks) == MAX_SESSION_CONNECTIONS + Count(UnjoinedPanic, st.tasks)
    ensures st.freeConnections + TaskCount(st.tasks) == MAX_SESSION_CONNECTIONS
            <==> forall i :: 0 <= i < |st.tasks| ==> !UnjoinedPanic(st.tasks[i])
    ensures st.freeAdapter + Count(UnfinishedAdapter, st.tasks) == 1
  {
    hide Run, Start, TaskCount, ClaimedOnce;
    StartKeeps(cfg, first, start);
    RunKeeps(cfg, Start(cfg, first, start), schedule);
    TaskCountSplits(st.tasks);
    if forall i :: 0 <= i < |st.tasks| ==> !UnjoinedPanic(st.tasks[i]) {
      CountNone(UnjoinedPanic, st.tasks);
    } else {
      var i :| 0 <= i < |st.tasks| && UnjoinedPanic(st.tasks[i]);
      CountPositive(UnjoinedPanic, st.tasks, i);
    }
  }

  /** One connection is accepted and its task panics. */
  const PANIC_RUN: seq<Action> := [Proceed, ReadHead(0), Poll(NOTHING.(control := Some(true))), Panic(0)]

  /** A run whose free permits and unjoined tasks make 33. */
  lemma {:induction false} PermitBalanceExample()
    ensures Run(EXAMPLE, Start(EXAMPLE, LONG, 0), PANIC_RUN).Some?
    ensures var st := Run(EXAMPLE, Start(EXAMPLE, LONG, 0), PANIC_RUN).value;
            Serving(st) && st.freeConnections + TaskCount(st.tasks) == 33
  {
    hide Run, Turn, TaskCount, InstantFor, RefreshAt;
    var s0 := Start(EXAMPLE, LONG, 0);
    var s1 := s0.(position := Reading);
    var s2 := Arm(s1, 0);
    var s3 := s2.(position := Head, freeConnections := 31, tasks := [Task(false, Busy, false)]);
    var s4 := s3.(freeConnections := 32, tasks := [Task(false, Panicked, false)]);
    var ready := NOTHING.(control := Some(true));
    PanicTurn(s1, s2, s3);
    assert Apply(EXAMPLE, s3, Panic(0)) == s4;
    assert PANIC_RUN == [Proceed] + ([ReadHead(0)] + ([Poll(ready)] + ([Panic(0)] + [])));
    RunFirst(EXAMPLE, s0, Proceed, [ReadHead(0)] + ([Poll(ready)] + ([Panic(0)] + [])));
    RunFirst(EXAMPLE, s1, ReadHead(0), [Poll(ready)] + ([Panic(0)] + []));
    RunFirst(EXAMPLE, s2, Poll(ready), [Panic(0)] + []);
    RunFirst(EXAMPLE, s3, Panic(0), []);
    RunNone(EXAMPLE, s4);
    OneTask(s4.tasks);
  }

  lemma RunNone(cfg: Config, st: State)
    ensures Run(cfg, st, []) == Some(st)
  {
  }

  lemma PanicTurn(s1: State, s2: State, s3: State)
    requires s1 == Start(EXAMPLE, LONG, 0).(position := Reading) && s2 == Arm(s1, 0)
    requires s3 == s2.(position := Head, freeConnections := 31, tasks := [Task(false, Busy, false)])
    ensures Turn(EXAMPLE, s2, NOTHING.(control := Some(true))) == s3
  {
    assert TaskCount([]) == 0;
  }

  lemma OneTask(tasks: seq<Task>)
    requires |tasks| == 1 && !tasks[0].joined
    ensures TaskCount(tasks) == 1
  {
    assert tasks[1..] == [];
  }

  /** What an accepted connection meets: the guard on `tasks.len()` leaves a permit for it, so
      a control connection is always served, and an adapter connection is turned away exactly
      while another adapter handler is unfinished. */
  lemma {:induction false} AdmissionOverRuns(cfg: Config, first: Identity, start: nat, schedule: seq<Action>, st: State)
    requires Reaches(cfg, first, start, schedule, st) && TaskCount(st.tasks) < MAX_SESSION_CONNECTIONS
    ensures |AcceptControl(st).tasks| == |st.tasks| + 1 && AcceptControl(st).refusedControl == st.refusedControl
    ensures AcceptAdapter(st) == st <==> exists i :: 0 <= i < |st.tasks| && UnfinishedAdapter(st.tasks[i])
  {
    hide Run, Start, TaskCount, UnfinishedAdapter, UnjoinedPanic, Count;
    PermitBalance(cfg, first, start, schedule, st);
    if exists i :: 0 <= i < |st.tasks| && UnfinishedAdapter(st.tasks[i]) {
      var i :| 0 <= i < |st.tasks| && UnfinishedAdapter(st.tasks[i]);
      CountPositive(UnfinishedAdapter, st.tasks, i);
    } else {
      CountNone(UnfinishedAdapter, st.tasks);
      assert |AcceptAdapter(st).tasks| == |st.tasks| + 1;
    }
  }

  lemma {:induction false} StepRefusesNone(cfg: Config, st: State, a: Action)
    requires Conserved(st) && Enabled(st, a)
    ensures Apply(cfg, st, a).refusedControl == st.refusedControl
  {
    hide PollRefresh, Count, TaskCount, Unix, InstantFor;
    if a.Poll? {
      PollRefreshStill(cfg, st, a.ready);
      TaskCountSplits(PollRefresh(cfg, st, a.ready).1.tasks);
    }
  }

  /** No control connection is ever accepted and then left without a permit. */
  lemma {:induction false} ControlNeverRefused(cfg: Config, st: State, schedule: seq<Action>)
    requires Conserved(st) && ClaimedOnce(st) && Run(cfg, st, schedule).Some?
    ensures Run(cfg, st, schedule).value.refusedControl == st.refusedControl
    decreases |schedule|
  {
    hide Apply, Enabled, Conserved, ClaimedOnce, MayStillInvoke;
    if schedule != [] {
      StepRefusesNone(cfg, st, schedule[0]);
      StepKeeps(cfg, st, schedule[0]);
      ControlNeverRefused(cfg, Apply(cfg, st, schedule[0]), schedule[1..]);
    }
  }

  /** One session, one invocation; and once the claim is spent with no claimed request still
      on its way (a malformed first frame, say), none is ever made again. */
  lemma {:induction false} OneShotOverRuns(cfg: Config, first: Identity, start: nat, schedule: seq<Action>, st: State,
                                           more: seq<Action>, later: State)
    requires Reaches(cfg, first, start, schedule, st) && Run(cfg, st, more) == Some(later)
    ensures later.invocations <= 1
    ensures st.used && (forall i :: 0 <= i < |st.tasks| ==> !MayInvoke(st.tasks[i])) ==>
            later.invocations <= st.invocations
  {
    hide Run, Start, Count;
    StartKeeps(cfg, first, start);
    RunKeeps(cfg, Start(cfg, first, start), schedule);
    RunKeeps(cfg, st, more);
    if forall i :: 0 <= i < |st.tasks| ==> !MayInvoke(st.tasks[i]) {
      CountNone(MayInvoke, st.tasks);
    }
  }

  // ------------------------------------------------------------------------- the ending

  /** However a session ended and in whatever order its tasks were aborted, ran on and were joined:
      once all are joined, every permit is back; and until then there is one left to join. */
  lemma {:induction false} PermitsComeBack(cfg: Config, first: Identity, start: nat, schedule: seq<Action>, st: State)
    requires Reaches(cfg, first, start, schedule, st) && !Serving(st)
    ensures (forall i :: 0 <= i < |st.tasks| ==> st.tasks[i].joined) ==>
              st.freeConnections == MAX_SESSION_CONNECTIONS && st.freeAdapter == ADAPTER_SLOTS
                && TaskCount(st.tasks) == 0
    ensures (exists i :: Enabled(st, Reap(i))) <==> exists i :: 0 <= i < |st.tasks| && !st.tasks[i].joined
  {
    hide Run, Start, TaskCount, ClaimedOnce, Count;
    StartKeeps(cfg, first, start);
    RunKeeps(cfg, Start(cfg, first, start), schedule);
    if forall i :: 0 <= i < |st.tasks| ==> st.tasks[i].joined {
      CountNone(HoldsPermit, st.tasks);
      CountNone(UnfinishedAdapter, st.tasks);
      CountNone(UnjoinedPanic, st.tasks);
      TaskCountSplits(st.tasks);
    } else {
      var i :| 0 <= i < |st.tasks| && !st.tasks[i].joined;
      assert Enabled(st, Reap(i));
    }
  }

  lemma {:induction false} TaskCountUpdate(tasks: seq<Task>, i: nat, t: Task)
    requires i < |tasks|
    ensures TaskCount(tasks[i := t]) + One(Unjoined(tasks[i])) == TaskCount(tasks) + One(Unjoined(t))
    decreases i
  {
    if i == 0 {
      assert tasks[0 := t][1..] == tasks[1..];
    } else {
      TaskCountUpdate(tasks[1..], i - 1, t);
      assert tasks[i := t][1..] == tasks[1..][i - 1 := t];
    }
  }

  lemma {:induction false} PhaseJoinsNone(cfg: Config, st: State, a: Action)
    requires Enabled(st, a) && (a.Claim? || a.Receive? || a.Capture? || a.LetGo? || a.Begin? || a.Return?)
    ensures var st' := Apply(cfg, st, a);
            a.task < |st.tasks| == |st'.tasks| && st'.ending == st.ending
              && st'.tasks[a.task].joined == st.tasks[a.task].joined
  {
    hide Turn, Unix;
  }

  lemma {:induction false} OverJoinsNone(cfg: Config, st: State, a: Action)
    requires Enabled(st, a) && (a.ControlDone? || a.Reply? || a.TimeOut? || a.Panic?)
    ensures var st' := Apply(cfg, st, a);
            a.task < |st.tasks| == |st'.tasks| && st'.ending == st.ending
              && st'.tasks[a.task].joined == st.tasks[a.task].joined
  {
    hide Turn, Unix, ApplyReap, ApplyReturn;
  }

  lemma {:induction false} ReapOneJoins(cfg: Config, st: State, a: Action)
    requires Enabled(st, a) && a.Reap?
    ensures var st' := Apply(cfg, st, a);
            a.task < |st.tasks| == |st'.tasks| && st'.ending == st.ending && st'.tasks[a.task].joined
  {
    hide Turn, Unix, ApplyReply, ApplyReturn;
  }

  lemma {:induction false} OnlyReapJoins(cfg: Config, st: State, a: Action)
    requires Enabled(st, a) && OfTask(a) && !a.JoinReady?
    ensures var st' := Apply(cfg, st, a);
            a.task < |st.tasks| == |st'.tasks| && st'.ending == st.ending
            && st'.tasks[a.task].joined == (a.Reap? || st.tasks[a.task].joined)
  {
    hide Apply, Enabled;
    if a.Reap? {
      ReapOneJoins(cfg, st, a);
    } else if a.ControlDone? || a.Reply? || a.TimeOut? || a.Panic? {
      OverJoinsNone(cfg, st, a);
    } else {
      PhaseJoinsNone(cfg, st, a);
    }
  }

  /** Joining goes on to the end: after an ending the unjoined tasks become fewer by one with every
      join, and by nothing else. */
  lemma {:induction false} ReapJoins(cfg: Config, st: State, a: Action)
    requires Conserved(st) && Enabled(st, a) && !Serving(st)
    ensures var st' := Apply(cfg, st, a);
            !Serving(st') && TaskCount(st'.tasks) == TaskCount(st.tasks) - One(a.Reap?)
  {
    hide TaskCount, Turn, Count, Unix, InstantFor;
    if OfTask(a) {
      hide Apply;
      OnlyReapJoins(cfg, st, a);
      if a.Reap? {
        ReapApplied(cfg, st, a);
      } else {
        TaskActionMoves(cfg, st, a);
      }
      TaskCountUpdate(st.tasks, a.task, Apply(cfg, st, a).tasks[a.task]);
    }
  }

  lemma ReapApplied(cfg: Config, st: State, a: Action)
    requires a.Reap? && Enabled(st, a)
    ensures OneMoves(st, Apply(cfg, st, a), a.task)
  {
    hide ApplyReap;
    ReapMoves(st, a.task);
  }
}
