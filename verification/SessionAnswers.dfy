/** From an adapter connection to its OK answer: what each answer went through, and which
    connections get one. */
module SessionAnswers {
  import opened Bytes
  import opened RefreshSchedule
  import opened Session
  import opened SessionIdentities

  // ------------------------------------------------------------------- the loop's own steps

  /** The loop gives no answer, moves no task but to join it, and adds only tasks that have not begun. */
  predicate LoopFrame(st: State, st': State) {
    && st'.answers == st.answers && |st.tasks| <= |st'.tasks|
    && (forall i :: 0 <= i < |st.tasks| ==> st'.tasks[i] == st.tasks[i].(joined := st'.tasks[i].joined))
    && (forall i :: 0 <= i < |st.tasks| && !Over(st.tasks[i]) ==> st'.tasks[i] == st.tasks[i])
    && (forall i :: |st.tasks| <= i < |st'.tasks| ==> st'.tasks[i].phase.Busy? || st'.tasks[i].phase.Claiming?)
  }

  lemma ArrivalLoop(st: State)
    ensures LoopFrame(st, AcceptControl(st)) && LoopFrame(st, AcceptAdapter(st))
  {
  }

  lemma ReclaimLoop(st: State, i: nat)
    requires Joinable(st, i)
    ensures LoopFrame(st, Reclaim(st, i))
  {
  }

  lemma SameLoop(st: State, st': State)
    requires st'.tasks == st.tasks && st'.answers == st.answers
    ensures LoopFrame(st, st')
  {
  }

  lemma RoundLoop(st: State, st': State)
    requires LoopFrame(st, st')
    ensures LoopFrame(st, GoRound(st'))
  {
  }

  lemma {:induction false} PollRestLoop(st: State, ready: Ready)
    requires st.position.Selecting?
    ensures LoopFrame(st, PollRest(st, ready))
  {
    hide LoopFrame, TaskCount, AcceptControl, AcceptAdapter, Reclaim, GoRound;
    ArrivalLoop(st);
    SameLoop(st, st);
    SameLoop(st, End(st, ListenerFailed));
    SameLoop(st, st.(nextRefresh := None, refresh := Fetching(st.identity.proof.audience),
                     attempts := st.attempts + 1));
    RoundLoop(st, st.(nextRefresh := None, refresh := Fetching(st.identity.proof.audience),
                      attempts := st.attempts + 1));
    RoundLoop(st, AcceptControl(st));
    RoundLoop(st, AcceptAdapter(st));
    if ready.joinable.Some? && Joinable(st, ready.joinable.value) {
      ReclaimLoop(st, ready.joinable.value);
      RoundLoop(st, Reclaim(st, ready.joinable.value));
    }
  }

  lemma {:induction false} PollRefreshLoop(cfg: Config, st: State, ready: Ready)
    ensures var st' := PollRefresh(cfg, st, ready).1;
            st'.tasks == st.tasks && st'.answers == st.answers && st'.position == st.position
  {
    hide Checked, RefreshFails, Installs, Later, Held;
    var lags := ready.lags;
    FailsLoop(st, lags.check + lags.schedule);
    LaterLoop(st, lags.check);
    if Checked(cfg, st, ready).Some? {
      LaterTwice(st, lags.check, lags.store);
      InstallsLoop(st, lags.check + lags.store, Checked(cfg, st, ready).value, lags.schedule);
    }
    if st.refresh.Waiting? {
      InstallsLoop(st, lags.store, st.refresh.replacement, lags.schedule);
    }
  }

  lemma LaterLoop(st: State, time: nat)
    ensures var st' := Later(st, time);
            st'.tasks == st.tasks && st'.answers == st.answers && st'.position == st.position
  {
  }

  lemma LaterTwice(st: State, a: nat, b: nat)
    ensures Later(Later(st, a), b) == Later(st, a + b)
  {
  }

  lemma FailsLoop(st: State, time: nat)
    ensures var st' := RefreshFails(Later(st, time));
            st'.tasks == st.tasks && st'.answers == st.answers && st'.position == st.position
  {
    hide RetryRefreshAt, Unix;
  }

  lemma InstallsLoop(st: State, time: nat, replacement: Identity, lag: nat)
    ensures var st' := Installs(Later(st, time), replacement, lag);
            st'.tasks == st.tasks && st'.answers == st.answers && st'.position == st.position
  {
    hide RefreshAfterSuccessAt, Unix;
  }

  lemma {:induction false} TurnLoop(cfg: Config, st: State, ready: Ready)
    requires st.position.Selecting?
    ensures LoopFrame(st, Turn(cfg, st, ready))
  {
    hide PollRefresh, PollRest;
    PollRefreshLoop(cfg, st, ready);
    var (taken, polled) := PollRefresh(cfg, st, ready);
    PollRestLoop(polled, ready);
  }

  lemma {:induction false} LoopSteps(cfg: Config, st: State, a: Action)
    requires Enabled(st, a) && !OfTask(a)
    ensures LoopFrame(st, Apply(cfg, st, a))
  {
    hide Turn, LoopFrame, Reclaim, Unix, InstantFor;
    if a.Poll? {
      TurnLoop(cfg, st, a.ready);
    } else if a.JoinReady? {
      ReclaimLoop(st, a.task);
    } else {
      SameLoop(st, Apply(cfg, st, a));
    }
  }

  // ---------------------------------------------------------------- a handler goes on or not

  /** Where a step leads: the claim is won exactly by the first to make it; a frame is taken exactly
      when it decodes; the identity captured is the current one; the adapter is invoked exactly while
      that is unexpired; and the answer is OK exactly when the invocation succeeded and it still is. */
  lemma {:induction false} HandlerGoesOnIff(cfg: Config, st: State, a: Action)
    requires Enabled(st, a) && (a.Claim? || a.Receive? || a.Capture? || a.LetGo? || a.Begin? || a.Return?)
    ensures a.task < |Apply(cfg, st, a).tasks|
    ensures var was, st' := st.tasks[a.task].phase, Apply(cfg, st, a);
            var now := st'.tasks[a.task].phase;
            match a
            case Claim(_) => (now == ReadingFrame <==> !st.used) && (now == Answering(None) <==> st.used) && st'.used
            case Receive(_, decoded) => (now == Capturing <==> decoded) && (now == Answering(None) <==> !decoded)
            case Capture(_) => now == Holding(st.identity)
            case LetGo(_) => now == Deciding(was.identity)
            case Begin(_) =>
              var alive := Unix(st.now) < was.identity.validUntil;
              && (now == Invoking(was.identity) <==> alive) && (now == Answering(None) <==> !alive)
              && st'.invocations == st.invocations + (if alive then 1 else 0)
            case Return(_, ok) =>
              var good := ok && Unix(st.now) < was.identity.validUntil;
              (now == Answering(Some(Answer(was.identity, st.now))) <==> good) && (now == Answering(None) <==> !good)
            case _ => true
  {
    hide Turn, Unix, ApplyReap, ApplyReply, Complete, Collapse;
  }

  /** The answers grow by a complete reply of a handler with an OK outcome, and by nothing else. */
  lemma {:induction false} AnswersGrowIff(cfg: Config, st: State, a: Action)
    requires Enabled(st, a)
    ensures Apply(cfg, st, a).answers
            == if a.Reply? && a.complete && st.tasks[a.task].phase.outcome.Some?
               then st.answers + [st.tasks[a.task].phase.outcome.value] else st.answers
  {
    hide Turn, Unix, Reclaim, ApplyReap, Complete, Collapse, InstantFor;
    if !OfTask(a) {
      LoopSteps(cfg, st, a);
    } else if a.Reply? {
      CompleteAnswers(st, a.task);
    } else {
      TaskAnswers(cfg, st, a);
    }
  }

  lemma CompleteAnswers(st: State, i: nat)
    requires i < |st.tasks|
    ensures Complete(st, i).answers == st.answers && Collapse(st, i).answers == st.answers
  {
  }

  lemma {:induction false} TaskAnswers(cfg: Config, st: State, a: Action)
    requires Enabled(st, a) && OfTask(a) && !a.Reply?
    ensures Apply(cfg, st, a).answers == st.answers
  {
    hide Turn, Unix, Complete, Collapse;
    CompleteAnswers(st, a.task);
  }

  // ------------------------------------------------------------------ the way to an answer

  /** Step `k` of the schedule is `a`, taken in the state `st`. */
  ghost predicate Stepped(cfg: Config, init: State, schedule: seq<Action>, k: nat, a: Action, st: State) {
    k < |schedule| && schedule[k] == a && Run(cfg, init, schedule[..k]) == Some(st) && Enabled(st, a)
  }

  ghost predicate Claimed(cfg: Config, init: State, schedule: seq<Action>, i: nat) {
    exists k: nat, st :: Stepped(cfg, init, schedule, k, Claim(i), st) && !st.used
  }

  ghost predicate Decoded(cfg: Config, init: State, schedule: seq<Action>, i: nat) {
    exists k: nat, st :: Stepped(cfg, init, schedule, k, Receive(i, true), st)
  }

  /** The identity was the current one when the handler captured it. */
  ghost predicate Captured(cfg: Config, init: State, schedule: seq<Action>, i: nat, identity: Identity) {
    exists k: nat, st :: Stepped(cfg, init, schedule, k, Capture(i), st) && st.identity == identity
  }

  ghost predicate Began(cfg: Config, init: State, schedule: seq<Action>, i: nat, identity: Identity) {
    exists k: nat, st :: Stepped(cfg, init, schedule, k, Begin(i), st) && Unix(st.now) < identity.validUntil
  }

  ghost predicate Succeeded(cfg: Config, init: State, schedule: seq<Action>, i: nat, answer: Answer) {
    exists k: nat, st :: && Stepped(cfg, init, schedule, k, Return(i, true), st) && st.now == answer.finishedAt
                         && Unix(st.now) < answer.identity.validUntil
  }

  /** What a handler has behind it in each phase. */
  ghost predicate Journey(cfg: Config, init: State, schedule: seq<Action>, i: nat, phase: Phase) {
    match phase
    case ReadingFrame => Claimed(cfg, init, schedule, i)
    case Capturing => Claimed(cfg, init, schedule, i) && Decoded(cfg, init, schedule, i)
    case Holding(identity) => Arrived(cfg, init, schedule, i, identity)
    case Deciding(identity) => Arrived(cfg, init, schedule, i, identity)
    case Invoking(identity) => Arrived(cfg, init, schedule, i, identity) && Began(cfg, init, schedule, i, identity)
    case Answering(Some(answer)) => Earned(cfg, init, schedule, i, answer)
    case _ => true
  }

  ghost predicate Arrived(cfg: Config, init: State, schedule: seq<Action>, i: nat, identity: Identity) {
    Claimed(cfg, init, schedule, i) && Decoded(cfg, init, schedule, i) && Captured(cfg, init, schedule, i, identity)
  }

  ghost predicate Earned(cfg: Config, init: State, schedule: seq<Action>, i: nat, answer: Answer) {
    && Arrived(cfg, init, schedule, i, answer.identity) && Began(cfg, init, schedule, i, answer.identity)
    && Succeeded(cfg, init, schedule, i, answer)
  }

  lemma {:induction false} SteppedStays(cfg: Config, init: State, schedule: seq<Action>, next: Action, k: nat,
                                        a: Action, st: State)
    requires Stepped(cfg, init, schedule, k, a, st)
    ensures Stepped(cfg, init, schedule + [next], k, a, st)
  {
    hide Run, Enabled;
    assert (schedule + [next])[..k] == schedule[..k] && (schedule + [next])[k] == schedule[k];
  }

  lemma {:induction false} SteppedNow(cfg: Config, init: State, schedule: seq<Action>, a: Action, st: State)
    requires Run(cfg, init, schedule) == Some(st) && Enabled(st, a)
    ensures Stepped(cfg, init, schedule + [a], |schedule|, a, st)
  {
    hide Run, Enabled;
    assert (schedule + [a])[..|schedule|] == schedule && (schedule + [a])[|schedule|] == a;
  }

  lemma {:induction false} ArrivedStays(cfg: Config, init: State, schedule: seq<Action>, next: Action, i: nat,
                                        identity: Identity)
    ensures Claimed(cfg, init, schedule, i) ==> Claimed(cfg, init, schedule + [next], i)
    ensures Decoded(cfg, init, schedule, i) ==> Decoded(cfg, init, schedule + [next], i)
    ensures Captured(cfg, init, schedule, i, identity) ==> Captured(cfg, init, schedule + [next], i, identity)
  {
    hide Stepped, Unix;
    if Claimed(cfg, init, schedule, i) {
      var k: nat, st :| Stepped(cfg, init, schedule, k, Claim(i), st) && !st.used;
      SteppedStays(cfg, init, schedule, next, k, Claim(i), st);
    }
    if Decoded(cfg, init, schedule, i) {
      var k: nat, st :| Stepped(cfg, init, schedule, k, Receive(i, true), st);
      SteppedStays(cfg, init, schedule, next, k, Receive(i, true), st);
    }
    if Captured(cfg, init, schedule, i, identity) {
      var k: nat, st :| Stepped(cfg, init, schedule, k, Capture(i), st) && st.identity == identity;
      SteppedStays(cfg, init, schedule, next, k, Capture(i), st);
    }
  }

  lemma {:induction false} BeganStays(cfg: Config, init: State, schedule: seq<Action>, next: Action, i: nat,
                                      identity: Identity)
    requires Began(cfg, init, schedule, i, identity)
    ensures Began(cfg, init, schedule + [next], i, identity)
  {
    hide Stepped, Unix;
    var k: nat, st :| Stepped(cfg, init, schedule, k, Begin(i), st) && Unix(st.now) < identity.validUntil;
    SteppedStays(cfg, init, schedule, next, k, Begin(i), st);
  }

  lemma {:induction false} SucceededStays(cfg: Config, init: State, schedule: seq<Action>, next: Action, i: nat,
                                          answer: Answer)
    requires Succeeded(cfg, init, schedule, i, answer)
    ensures Succeeded(cfg, init, schedule + [next], i, answer)
  {
    hide Stepped, Unix;
    var k: nat, st :| Stepped(cfg, init, schedule, k, Return(i, true), st) && st.now == answer.finishedAt
                      && Unix(st.now) < answer.identity.validUntil;
    SteppedStays(cfg, init, schedule, next, k, Return(i, true), st);
  }

  lemma {:induction false} JourneyStays(cfg: Config, init: State, schedule: seq<Action>, next: Action, i: nat,
                                        phase: Phase)
    requires Journey(cfg, init, schedule, i, phase)
    ensures Journey(cfg, init, schedule + [next], i, phase)
  {
    hide Claimed, Decoded, Captured, Began, Succeeded;
    match phase
    case ReadingFrame => ArrivedStays(cfg, init, schedule, next, i, LONG);
    case Capturing => ArrivedStays(cfg, init, schedule, next, i, LONG);
    case Holding(identity) => ArrivedStays(cfg, init, schedule, next, i, identity);
    case Deciding(identity) => ArrivedStays(cfg, init, schedule, next, i, identity);
    case Invoking(identity) =>
      ArrivedStays(cfg, init, schedule, next, i, identity);
      BeganStays(cfg, init, schedule, next, i, identity);
    case Answering(Some(answer)) =>
      EarnedStays(cfg, init, schedule, next, i, answer);
    case _ =>
  }

  lemma {:induction false} EarnedStays(cfg: Config, init: State, schedule: seq<Action>, next: Action, i: nat,
                                       answer: Answer)
    requires Earned(cfg, init, schedule, i, answer)
    ensures Earned(cfg, init, schedule + [next], i, answer)
  {
    hide Claimed, Decoded, Captured, Began, Succeeded;
    ArrivedStays(cfg, init, schedule, next, i, answer.identity);
    BeganStays(cfg, init, schedule, next, i, answer.identity);
    SucceededStays(cfg, init, schedule, next, i, answer);
  }

  /** The step a handler takes extends its journey. */
  lemma {:induction false} JourneyGoesOn(cfg: Config, init: State, schedule: seq<Action>, st: State, a: Action)
    requires Run(cfg, init, schedule) == Some(st) && Enabled(st, a)
    requires a.Claim? || a.Receive? || a.Capture? || a.LetGo? || a.Begin? || a.Return?
    requires Journey(cfg, init, schedule, a.task, st.tasks[a.task].phase)
    ensures a.task < |Apply(cfg, st, a).tasks|
    ensures Journey(cfg, init, schedule + [a], a.task, Apply(cfg, st, a).tasks[a.task].phase)
  {
    hide Run, Apply, Stepped, Unix;
    HandlerGoesOnIff(cfg, st, a);
    SteppedNow(cfg, init, schedule, a, st);
    JourneyStays(cfg, init, schedule, a, a.task, st.tasks[a.task].phase);
  }

  ghost predicate EarnedBySome(cfg: Config, init: State, schedule: seq<Action>, answer: Answer) {
    exists i: nat :: Earned(cfg, init, schedule, i, answer)
  }

  ghost predicate AllEarned(cfg: Config, init: State, schedule: seq<Action>, st: State) {
    && (forall i :: 0 <= i < |st.tasks| ==> Journey(cfg, init, schedule, i, st.tasks[i].phase))
    && (forall n :: 0 <= n < |st.answers| ==> EarnedBySome(cfg, init, schedule, st.answers[n]))
  }

  lemma BlankJourney(cfg: Config, init: State, schedule: seq<Action>, i: nat, phase: Phase)
    requires phase.Busy? || phase.Claiming? || phase.Finished? || phase.Panicked?
    ensures Journey(cfg, init, schedule, i, phase)
  {
  }

  /** The task a step belongs to is over, or has taken a handler's step. */
  lemma {:induction false} OverOrOn(cfg: Config, st: State, a: Action)
    requires Enabled(st, a) && OfTask(a)
    requires !(a.Claim? || a.Receive? || a.Capture? || a.LetGo? || a.Begin? || a.Return?)
    ensures a.task < |Apply(cfg, st, a).tasks| && Over(Apply(cfg, st, a).tasks[a.task])
  {
    hide Turn, Unix, Reclaim, ApplyReap, ApplyReturn;
    if a.Reap? {
      ReapedOver(st, a.task);
    }
  }

  lemma ReapedOver(st: State, i: nat)
    requires Enabled(st, Reap(i))
    ensures i < |ApplyReap(st, i).tasks| && Over(ApplyReap(st, i).tasks[i])
  {
  }

  lemma {:induction false} StepJourneys(cfg: Config, init: State, schedule: seq<Action>, st: State, a: Action, i: nat)
    requires Run(cfg, init, schedule) == Some(st) && Enabled(st, a) && AllEarned(cfg, init, schedule, st)
    requires i < |Apply(cfg, st, a).tasks|
    ensures Journey(cfg, init, schedule + [a], i, Apply(cfg, st, a).tasks[i].phase)
  {
    hide Run, Apply, Enabled, Journey;
    var st' := Apply(cfg, st, a);
    if !OfTask(a) {
      LoopSteps(cfg, st, a);
      if i < |st.tasks| {
        JourneyStays(cfg, init, schedule, a, i, st.tasks[i].phase);
      } else {
        BlankJourney(cfg, init, schedule + [a], i, st'.tasks[i].phase);
      }
    } else {
      TaskActionFrame(cfg, st, a);
      if i != a.task {
        JourneyStays(cfg, init, schedule, a, i, st.tasks[i].phase);
      } else if a.Claim? || a.Receive? || a.Capture? || a.LetGo? || a.Begin? || a.Return? {
        JourneyGoesOn(cfg, init, schedule, st, a);
      } else {
        OverOrOn(cfg, st, a);
        BlankJourney(cfg, init, schedule + [a], i, st'.tasks[i].phase);
      }
    }
  }

  lemma {:induction false} StepEarned(cfg: Config, init: State, schedule: seq<Action>, st: State, a: Action)
    requires Run(cfg, init, schedule) == Some(st) && Enabled(st, a) && AllEarned(cfg, init, schedule, st)
    ensures AllEarned(cfg, init, schedule + [a], Apply(cfg, st, a))
  {
    hide Run, Apply, Earned, Enabled;
    var st', longer := Apply(cfg, st, a), schedule + [a];
    forall i | 0 <= i < |st'.tasks|
      ensures Journey(cfg, init, longer, i, st'.tasks[i].phase)
    {
      hide Journey, EarnedBySome;
      StepJourneys(cfg, init, schedule, st, a, i);
    }
    AnswersGrowIff(cfg, st, a);
    forall n | 0 <= n < |st'.answers|
      ensures EarnedBySome(cfg, init, longer, st'.answers[n])
    {
      if n < |st.answers| {
        assert EarnedBySome(cfg, init, schedule, st.answers[n]);
        var i: nat :| Earned(cfg, init, schedule, i, st.answers[n]);
        EarnedStays(cfg, init, schedule, a, i, st.answers[n]);
      } else {
        Replies(st, a);
        EarnedStays(cfg, init, schedule, a, a.task, st'.answers[n]);
      }
    }
  }

  lemma Replies(st: State, a: Action)
    requires Enabled(st, a) && a.Reply?
    ensures a.task < |st.tasks| && st.tasks[a.task].phase.Answering?
  {
  }

  lemma {:induction false} RunSnoc(cfg: Config, st: State, schedule: seq<Action>, a: Action)
    ensures Run(cfg, st, schedule + [a])
            == match Run(cfg, st, schedule)
               case None => None
               case Some(last) => if Enabled(last, a) then Some(Apply(cfg, last, a)) else None
    decreases |schedule|
  {
    hide Enabled, Apply;
    if schedule == [] {
      assert schedule + [a] == [a] && [a][1..] == [];
    } else {
      assert (schedule + [a])[1..] == schedule[1..] + [a];
      if Enabled(st, schedule[0]) {
        RunSnoc(cfg, Apply(cfg, st, schedule[0]), schedule[1..], a);
      }
    }
  }

  /** Over every run: an OK answer was earned by one connection, which won the claim, sent a frame
      that decoded, captured the identity current at that time, was invoked while that was unexpired,
      and whose invocation then succeeded, at the stated time and still before the expiry. */
  lemma {:induction false} AnswersAreEarned(cfg: Config, first: Identity, start: nat, schedule: seq<Action>, st: State)
    requires Reaches(cfg, first, start, schedule, st)
    ensures AllEarned(cfg, Start(cfg, first, start), schedule, st)
    decreases |schedule|
  {
    hide Enabled, Apply, AllEarned, Start;
    var init := Start(cfg, first, start);
    if schedule == [] {
      NothingEarned(cfg, first, start);
    } else {
      var n := |schedule| - 1;
      var before, a := schedule[..n], schedule[n];
      assert schedule == before + [a];
      RunSnoc(cfg, init, before, a);
      var last := Run(cfg, init, before).value;
      AnswersAreEarned(cfg, first, start, before, last);
      StepEarned(cfg, init, before, last, a);
    }
  }

  lemma NothingEarned(cfg: Config, first: Identity, start: nat)
    ensures AllEarned(cfg, Start(cfg, first, start), [], Start(cfg, first, start))
  {
  }

  // --------------------------------------------------------------------- answers come through

  predicate OthersOnly(schedule: seq<Action>, i: nat) {
    forall a :: a in schedule && OfTask(a) ==> a.task != i
  }

  lemma {:induction false} OthersLeaveAlone(cfg: Config, st: State, i: nat, more: seq<Action>)
    requires i < |st.tasks| && !Over(st.tasks[i]) && OthersOnly(more, i) && Run(cfg, st, more).Some?
    ensures var later := Run(cfg, st, more).value; i < |later.tasks| && later.tasks[i] == st.tasks[i]
    decreases |more|
  {
    hide Enabled, Apply;
    if more != [] {
      var a := more[0];
      assert a in more;
      if OfTask(a) {
        TaskActionFrame(cfg, st, a);
      } else {
        LoopSteps(cfg, st, a);
      }
      OthersLeaveAlone(cfg, Apply(cfg, st, a), i, more[1..]);
    }
  }

  /** An invocation that returns is answered, whatever the session does in between: its complete reply
      adds one OK answer if the invocation succeeded with its identity unexpired, and none if not. */
  lemma {:induction false} ReturnIsAnswered(cfg: Config, st: State, i: nat, ok: bool, more: seq<Action>, later: State)
    requires Enabled(st, Return(i, ok)) && OthersOnly(more, i)
    requires Run(cfg, Apply(cfg, st, Return(i, ok)), more) == Some(later)
    ensures Enabled(later, Reply(i, true))
    ensures var identity := st.tasks[i].phase.identity;
            Apply(cfg, later, Reply(i, true)).answers
            == if ok && Unix(st.now) < identity.validUntil then later.answers + [Answer(identity, st.now)]
               else later.answers
  {
    hide Run, Apply, Unix;
    HandlerGoesOnIff(cfg, st, Return(i, ok));
    TaskActionFrame(cfg, st, Return(i, ok));
    var after := Apply(cfg, st, Return(i, ok));
    assert after.tasks[i].phase.Answering?;
    OthersLeaveAlone(cfg, after, i, more);
    AnswersGrowIff(cfg, later, Reply(i, true));
  }
}
