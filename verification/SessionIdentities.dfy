/** The identities a CI session installs and answers under, and the schedule of its refreshes,
    over every run. */
module SessionIdentities {
  import opened Bytes
  import opened RefreshSchedule
  import opened Session

  // ------------------------------------------------------------------------- identities

  /** The identity of a readable token, under the session's proof, valid when it was checked. */
  predicate Genuine(cfg: Config, identity: Identity) {
    && EffectiveValidUntil(identity.token, cfg.maxAge) == Some(identity.validUntil)
    && identity.proof == cfg.proof
    && identity.validatedAt < identity.validUntil
  }

  /** The identity was installed no later than `until`. */
  predicate Installed(installs: seq<Install>, identity: Identity, until: nat) {
    exists k :: 0 <= k < |installs| && installs[k].identity == identity && installs[k].at <= until
  }

  predicate InstallOk(cfg: Config, install: Install, now: nat) {
    Genuine(cfg, install.identity) && install.identity.validatedAt <= Unix(install.at) && install.at <= now
  }

  predicate InstallsOk(cfg: Config, installs: seq<Install>, now: nat) {
    forall k :: 0 <= k < |installs| ==> InstallOk(cfg, installs[k], now)
  }

  predicate RefreshOk(cfg: Config, refresh: Refresh, now: nat) {
    match refresh
    case Idle => true
    case Fetching(audience) => audience == cfg.proof.audience
    case Waiting(replacement) => Genuine(cfg, replacement) && replacement.validatedAt <= Unix(now)
  }

  /** An OK answer: given under an installed identity that was unexpired when the invocation finished. */
  predicate AnswerOk(installs: seq<Install>, answer: Answer, now: nat) {
    && Installed(installs, answer.identity, answer.finishedAt)
    && Unix(answer.finishedAt) < answer.identity.validUntil && answer.finishedAt <= now
  }

  predicate TaskOk(installs: seq<Install>, task: Task, now: nat) {
    match task.phase
    case Holding(identity) => Installed(installs, identity, now)
    case Deciding(identity) => Installed(installs, identity, now)
    case Invoking(identity) => Installed(installs, identity, now)
    case Answering(Some(answer)) => AnswerOk(installs, answer, now)
    case _ => true
  }

  predicate TasksOk(installs: seq<Install>, tasks: seq<Task>, now: nat) {
    forall i :: 0 <= i < |tasks| ==> TaskOk(installs, tasks[i], now)
  }

  predicate AnswersOk(installs: seq<Install>, answers: seq<Answer>, now: nat) {
    forall k :: 0 <= k < |answers| ==> AnswerOk(installs, answers[k], now)
  }

  predicate CurrentIsLast(st: State) {
    |st.installs| > 0 && st.installs[|st.installs| - 1].identity == st.identity
  }

  predicate Trusted(cfg: Config, st: State) {
    && CurrentIsLast(st) && InstallsOk(cfg, st.installs, st.now) && RefreshOk(cfg, st.refresh, st.now)
    && TasksOk(st.installs, st.tasks, st.now) && AnswersOk(st.installs, st.answers, st.now)
  }

  lemma {:induction false} InstalledStays(installs: seq<Install>, more: seq<Install>, identity: Identity, until: nat,
                                          later: nat)
    requires Installed(installs, identity, until) && installs <= more && until <= later
    ensures Installed(more, identity, later)
  {
    var k :| 0 <= k < |installs| && installs[k].identity == identity && installs[k].at <= until;
    assert more[k] == installs[k];
  }

  lemma {:induction false} AnswerStays(installs: seq<Install>, more: seq<Install>, answer: Answer, now: nat, later: nat)
    requires AnswerOk(installs, answer, now) && installs <= more && now <= later
    ensures AnswerOk(more, answer, later)
  {
    hide Installed;
    InstalledStays(installs, more, answer.identity, answer.finishedAt, answer.finishedAt);
  }

  lemma {:induction false} TaskStays(installs: seq<Install>, more: seq<Install>, task: Task, now: nat, later: nat)
    requires TaskOk(installs, task, now) && installs <= more && now <= later
    ensures TaskOk(more, task, later)
  {
    hide Installed, AnswerOk;
    match task.phase
    case Holding(identity) => InstalledStays(installs, more, identity, now, later);
    case Deciding(identity) => InstalledStays(installs, more, identity, now, later);
    case Invoking(identity) => InstalledStays(installs, more, identity, now, later);
    case Answering(Some(answer)) => AnswerStays(installs, more, answer, now, later);
    case _ =>
  }

  /** Time passes and installs are only added: what tasks and answers rest on stays. */
  lemma {:induction false} OthersStay(installs: seq<Install>, more: seq<Install>, tasks: seq<Task>,
                                      answers: seq<Answer>, now: nat, later: nat)
    requires TasksOk(installs, tasks, now) && AnswersOk(installs, answers, now) && installs <= more && now <= later
    ensures TasksOk(more, tasks, later) && AnswersOk(more, answers, later)
  {
    hide TaskOk, AnswerOk;
    forall i | 0 <= i < |tasks|
      ensures TaskOk(more, tasks[i], later)
    {
      TaskStays(installs, more, tasks[i], now, later);
    }
    forall k | 0 <= k < |answers|
      ensures AnswerOk(more, answers[k], later)
    {
      AnswerStays(installs, more, answers[k], now, later);
    }
  }

  lemma {:induction false} TimePasses(cfg: Config, st: State, later: nat)
    requires Trusted(cfg, st) && st.now <= later
    ensures Trusted(cfg, st.(now := later))
  {
    hide Genuine, TaskOk, AnswerOk, Unix;
    UnixGrows(st.now, later);
    OthersStay(st.installs, st.installs, st.tasks, st.answers, st.now, later);
  }

  lemma {:induction false} NewIsGenuine(cfg: Config, token: Token, now: nat)
    requires NewIdentity(token, cfg.maxAge, cfg.proof, now).Some?
    ensures var identity := NewIdentity(token, cfg.maxAge, cfg.proof, now).value;
            Genuine(cfg, identity) && identity.validatedAt == now
  {
  }

  lemma {:induction false} SwapTrusted(cfg: Config, st: State, replacement: Identity)
    requires Trusted(cfg, st) && Genuine(cfg, replacement) && replacement.validatedAt <= Unix(st.now)
    ensures Trusted(cfg, st.(refresh := Idle, identity := replacement,
                             installs := st.installs + [Install(replacement, st.now)]))
  {
    hide Genuine, TaskOk, AnswerOk, Unix;
    var more := st.installs + [Install(replacement, st.now)];
    OthersStay(st.installs, more, st.tasks, st.answers, st.now, st.now);
  }

  lemma {:induction false} InstallsTrusted(cfg: Config, st: State, replacement: Identity, lag: nat)
    requires Trusted(cfg, st) && Genuine(cfg, replacement) && replacement.validatedAt <= Unix(st.now)
    ensures Trusted(cfg, Installs(st, replacement, lag))
  {
    hide Genuine, Trusted, RefreshAfterSuccessAt, Unix;
    SwapTrusted(cfg, st, replacement);
    var swapped := st.(refresh := Idle, identity := replacement,
                       installs := st.installs + [Install(replacement, st.now)]);
    TimePasses(cfg, swapped, swapped.now + lag);
    ScheduledTrusted(cfg, Later(swapped, lag), Installs(st, replacement, lag));
  }

  /** The schedule is no part of what is trusted. */
  lemma {:induction false} ScheduledTrusted(cfg: Config, st: State, st': State)
    requires Trusted(cfg, st) && st'.now == st.now && st'.identity == st.identity && st'.installs == st.installs
    requires st'.answers == st.answers && st'.tasks == st.tasks && (st'.refresh == st.refresh || st'.refresh.Idle?)
    ensures Trusted(cfg, st')
  {
    hide InstallsOk, TasksOk, AnswersOk, Genuine;
  }

  lemma {:induction false} FailsTrusted(cfg: Config, st: State)
    requires Trusted(cfg, st)
    ensures Trusted(cfg, RefreshFails(st)) && RefreshFails(st).identity == st.identity
            && RefreshFails(st).installs == st.installs
  {
    hide Trusted, RetryRefreshAt, Unix;
    ScheduledTrusted(cfg, st, RefreshFails(st));
  }

  lemma {:induction false} CheckedIsGenuine(cfg: Config, st: State, ready: Ready)
    requires st.identity.proof == cfg.proof && Checked(cfg, st, ready).Some?
    ensures var replacement := Checked(cfg, st, ready).value;
            Genuine(cfg, replacement) && replacement.validatedAt == Unix(st.now + ready.lags.check)
  {
    hide NewIdentity, Genuine, Unix;
    NewIsGenuine(cfg, ready.fetched.value.value, Unix(st.now + ready.lags.check));
  }

  lemma {:induction false} FetchedTrusted(cfg: Config, st: State, ready: Ready)
    requires Trusted(cfg, st) && st.refresh.Fetching? && Checked(cfg, st, ready).Some?
    ensures var checked, replacement := Later(st, ready.lags.check), Checked(cfg, st, ready).value;
            && Trusted(cfg, checked.(refresh := Waiting(replacement)))
            && Trusted(cfg, Installs(Later(checked, ready.lags.store), replacement, ready.lags.schedule))
  {
    hide Trusted, Checked, Installs, Genuine, Unix;
    var checked, replacement := Later(st, ready.lags.check), Checked(cfg, st, ready).value;
    CurrentProof(cfg, st);
    CheckedIsGenuine(cfg, st, ready);
    TimePasses(cfg, st, checked.now);
    WaitingTrusted(cfg, checked, replacement);
    TimePasses(cfg, checked, checked.now + ready.lags.store);
    UnixGrows(checked.now, checked.now + ready.lags.store);
    InstallsTrusted(cfg, Later(checked, ready.lags.store), replacement, ready.lags.schedule);
  }

  lemma {:induction false} WaitedTrusted(cfg: Config, st: State, ready: Ready)
    requires Trusted(cfg, st) && st.refresh.Waiting?
    ensures Trusted(cfg, Installs(Later(st, ready.lags.store), st.refresh.replacement, ready.lags.schedule))
  {
    hide Trusted, Installs, Genuine, Unix;
    WaitingIsGenuine(cfg, st);
    TimePasses(cfg, st, st.now + ready.lags.store);
    UnixGrows(st.now, st.now + ready.lags.store);
    InstallsTrusted(cfg, Later(st, ready.lags.store), st.refresh.replacement, ready.lags.schedule);
  }

  lemma {:induction false} PollRefreshTrusted(cfg: Config, st: State, ready: Ready)
    requires Trusted(cfg, st)
    ensures Trusted(cfg, PollRefresh(cfg, st, ready).1)
  {
    hide Trusted, Checked, Installs, RefreshFails, Held, Unix;
    if st.refresh.Waiting? {
      WaitedTrusted(cfg, st, ready);
    } else if st.refresh.Fetching? {
      if Checked(cfg, st, ready).Some? {
        FetchedTrusted(cfg, st, ready);
      } else {
        TimePasses(cfg, st, st.now + ready.lags.check + ready.lags.schedule);
        FailsTrusted(cfg, Later(st, ready.lags.check + ready.lags.schedule));
      }
    }
  }

  lemma CurrentProof(cfg: Config, st: State)
    requires Trusted(cfg, st)
    ensures st.identity.proof == cfg.proof && Genuine(cfg, st.identity)
  {
    hide TasksOk, AnswersOk;
    assert InstallOk(cfg, st.installs[|st.installs| - 1], st.now);
  }

  lemma WaitingIsGenuine(cfg: Config, st: State)
    requires Trusted(cfg, st) && st.refresh.Waiting?
    ensures Genuine(cfg, st.refresh.replacement) && st.refresh.replacement.validatedAt <= Unix(st.now)
  {
  }

  lemma WaitingTrusted(cfg: Config, st: State, replacement: Identity)
    requires Trusted(cfg, st) && Genuine(cfg, replacement) && replacement.validatedAt <= Unix(st.now)
    ensures Trusted(cfg, st.(refresh := Waiting(replacement)))
  {
    hide Genuine, TasksOk, AnswersOk, InstallsOk, Unix;
  }

  /** Steps that neither touch the clock, the identities nor the answers, and add only fresh tasks. */
  predicate IdentitiesStill(st: State, st': State) {
    && st'.now == st.now && st'.identity == st.identity && st'.installs == st.installs && st'.answers == st.answers
  }

  predicate Harmless(t: Task) {
    !t.phase.Holding? && !t.phase.Deciding? && !t.phase.Invoking? && (t.phase.Answering? ==> t.phase.outcome.None?)
  }

  /** Every task is as it was, joined, or carries no identity. */
  predicate TasksStill(tasks: seq<Task>, tasks': seq<Task>) {
    && |tasks| <= |tasks'|
    && forall i :: 0 <= i < |tasks'| ==> Harmless(tasks'[i]) || (i < |tasks| && tasks'[i].phase == tasks[i].phase)
  }

  lemma {:induction false} StillTrusted(cfg: Config, st: State, st': State)
    requires Trusted(cfg, st) && IdentitiesStill(st, st') && TasksStill(st.tasks, st'.tasks)
             && RefreshOk(cfg, st'.refresh, st'.now)
    ensures Trusted(cfg, st')
  {
    hide InstallOk, AnswerOk, Installed, RefreshOk;
    forall i | 0 <= i < |st'.tasks|
      ensures TaskOk(st'.installs, st'.tasks[i], st'.now)
    {
      if !Harmless(st'.tasks[i]) {
        assert TaskOk(st.installs, st.tasks[i], st.now);
      }
    }
  }

  lemma {:induction false} ArrivalStill(st: State)
    ensures IdentitiesStill(st, AcceptControl(st)) && TasksStill(st.tasks, AcceptControl(st).tasks)
    ensures IdentitiesStill(st, AcceptAdapter(st)) && TasksStill(st.tasks, AcceptAdapter(st).tasks)
    ensures AcceptControl(st).refresh == st.refresh && AcceptAdapter(st).refresh == st.refresh
  {
  }

  lemma {:induction false} ReclaimStill(st: State, i: nat)
    requires Joinable(st, i)
    ensures IdentitiesStill(st, Reclaim(st, i)) && TasksStill(st.tasks, Reclaim(st, i).tasks)
    ensures Reclaim(st, i).refresh == st.refresh || Reclaim(st, i).refresh.Idle?
  {
  }

  /** Nothing that is trusted moved. */
  predicate AllStill(cfg: Config, st: State, st': State) {
    IdentitiesStill(st, st') && TasksStill(st.tasks, st'.tasks) && RefreshOk(cfg, st'.refresh, st'.now)
  }

  lemma RoundStill(cfg: Config, st: State, st': State)
    requires IdentitiesStill(st, st') && TasksStill(st.tasks, st'.tasks)
    requires RefreshOk(cfg, st.refresh, st.now) && (st'.refresh == st.refresh || st'.refresh.Idle?)
    ensures AllStill(cfg, st, st') && AllStill(cfg, st, GoRound(st'))
  {
    hide TasksStill, Genuine, Unix;
  }

  lemma StartStill(cfg: Config, st: State)
    requires st.identity.proof == cfg.proof
    ensures AllStill(cfg, st, GoRound(st.(nextRefresh := None, refresh := Fetching(st.identity.proof.audience),
                                          attempts := st.attempts + 1)))
  {
    hide TasksStill;
    SelfStill(st.tasks);
  }

  lemma {:induction false} PollRestStill(cfg: Config, st: State, ready: Ready)
    requires st.position.Selecting? && st.identity.proof == cfg.proof && RefreshOk(cfg, st.refresh, st.now)
    ensures AllStill(cfg, st, PollRest(st, ready))
  {
    hide TaskCount, AcceptControl, AcceptAdapter, Reclaim, TasksStill, AllStill, RefreshOk, GoRound;
    ArrivalStill(st);
    SelfStill(st.tasks);
    StartStill(cfg, st);
    RoundStill(cfg, st, st);
    RoundStill(cfg, st, End(st, ListenerFailed));
    RoundStill(cfg, st, AcceptControl(st));
    RoundStill(cfg, st, AcceptAdapter(st));
    if ready.joinable.Some? && Joinable(st, ready.joinable.value) {
      ReclaimStill(st, ready.joinable.value);
      RoundStill(cfg, st, Reclaim(st, ready.joinable.value));
    }
  }

  lemma SelfStill(tasks: seq<Task>)
    ensures TasksStill(tasks, tasks)
  {
  }

  lemma {:induction false} TurnTrusted(cfg: Config, st: State, ready: Ready)
    requires st.position.Selecting? && Trusted(cfg, st)
    ensures Trusted(cfg, Turn(cfg, st, ready))
  {
    hide Trusted, PollRefresh, PollRest, RefreshOk, IdentitiesStill, TasksStill;
    if ready.signal.Some? || st.shutdownSent || st.now >= st.position.expiryAt {
      ScheduledTrusted(cfg, st, Turn(cfg, st, ready));
    } else {
      PollRefreshTrusted(cfg, st, ready);
      PollRefreshStays(cfg, st, ready);
      var polled := PollRefresh(cfg, st, ready).1;
      ScheduledTrusted(cfg, polled, GoRound(polled));
      TrustedRefresh(cfg, polled);
      CurrentProof(cfg, polled);
      PollRestStill(cfg, polled, ready);
      StillTrusted(cfg, polled, PollRest(polled, ready));
    }
  }

  lemma TrustedRefresh(cfg: Config, st: State)
    requires Trusted(cfg, st)
    ensures RefreshOk(cfg, st.refresh, st.now)
  {
  }

  /** Polling the refresh does not move the loop. */
  lemma PollRefreshStays(cfg: Config, st: State, ready: Ready)
    ensures PollRefresh(cfg, st, ready).1.position == st.position
  {
    hide Checked, RetryRefreshAt, RefreshAfterSuccessAt, Unix, Held;
  }

  /** Task `i` moves and may hand in the answer it was about to give. */
  predicate TaskFrame(st: State, st': State, i: nat) {
    && i < |st.tasks| && |st'.tasks| == |st.tasks| && st'.tasks == st.tasks[i := st'.tasks[i]]
    && st'.now == st.now && st'.identity == st.identity && st'.installs == st.installs && st'.refresh == st.refresh
    && st'.nextRefresh == st.nextRefresh && st'.slots == st.slots && st'.attempts == st.attempts
       && st'.ending == st.ending
    && st'.position == st.position
    && (|| st'.answers == st.answers
        || (st.tasks[i].phase.Answering? && st.tasks[i].phase.outcome.Some?
            && st'.answers == st.answers + [st.tasks[i].phase.outcome.value]))
  }

  predicate OfTask(a: Action) {
    !a.Tick? && !a.Proceed? && !a.ReadHead? && !a.Poll? && !a.ReadExpiry? && !a.JoinReady?
  }

  lemma {:induction false} ReapFrame(st: State, i: nat)
    requires Enabled(st, Reap(i))
    ensures TaskFrame(st, ApplyReap(st, i), i) && Harmless(ApplyReap(st, i).tasks[i])
  {
  }

  lemma {:induction false} ReplyFrame(st: State, i: nat, complete: bool)
    requires Enabled(st, Reply(i, complete))
    ensures TaskFrame(st, ApplyReply(st, i, complete), i) && Harmless(ApplyReply(st, i, complete).tasks[i])
  {
  }

  lemma {:induction false} OverFrame(st: State, i: nat)
    requires i < |st.tasks|
    ensures TaskFrame(st, Complete(st, i), i) && Harmless(Complete(st, i).tasks[i])
    ensures TaskFrame(st, Collapse(st, i), i) && Harmless(Collapse(st, i).tasks[i])
  {
  }

  lemma {:induction false} EndingActionFrame(cfg: Config, st: State, a: Action)
    requires Enabled(st, a) && (a.TimeOut? || a.Panic? || a.Reap? || a.ControlDone? || a.Reply?)
    ensures TaskFrame(st, Apply(cfg, st, a), a.task) && Harmless(Apply(cfg, st, a).tasks[a.task])
  {
    hide Turn, ApplyReap, ApplyReply, Complete, Collapse, Harmless;
    if a.Reap? {
      ReapFrame(st, a.task);
    } else if a.Reply? {
      ReplyFrame(st, a.task, a.complete);
    } else {
      OverFrame(st, a.task);
    }
  }

  lemma {:induction false} PhaseActionFrame(cfg: Config, st: State, a: Action)
    requires Enabled(st, a) && (a.Claim? || a.Receive? || a.Capture? || a.LetGo? || a.Begin? || a.Return?)
    ensures TaskFrame(st, Apply(cfg, st, a), a.task)
  {
    hide Turn, Unix;
  }

  /** The phase a handler moves to carries the current identity, or the one it had. */
  lemma {:induction false} PhaseActionOk(cfg: Config, st: State, a: Action)
    requires Enabled(st, a) && (a.Claim? || a.Receive? || a.Capture? || a.LetGo? || a.Begin? || a.Return?)
    requires TaskOk(st.installs, st.tasks[a.task], st.now) && Installed(st.installs, st.identity, st.now)
    ensures a.task < |Apply(cfg, st, a).tasks| && TaskOk(st.installs, Apply(cfg, st, a).tasks[a.task], st.now)
  {
    hide Turn, Installed, Unix;
  }

  lemma {:induction false} TaskTrusted(cfg: Config, st: State, st': State, i: nat)
    requires Trusted(cfg, st) && TaskFrame(st, st', i) && TaskOk(st.installs, st'.tasks[i], st.now)
    ensures Trusted(cfg, st')
  {
    hide InstallOk, AnswerOk, RefreshOk, Installed;
    assert TaskOk(st.installs, st.tasks[i], st.now);
  }

  lemma CurrentInstalled(cfg: Config, st: State)
    requires Trusted(cfg, st)
    ensures Installed(st.installs, st.identity, st.now)
  {
    hide Genuine, TasksOk, AnswersOk;
    assert InstallOk(cfg, st.installs[|st.installs| - 1], st.now);
  }

  lemma {:induction false} StepTrusted(cfg: Config, st: State, a: Action)
    requires Trusted(cfg, st) && Enabled(st, a)
    ensures Trusted(cfg, Apply(cfg, st, a))
  {
    hide Trusted, Turn, Installed, Reclaim, ApplyReap, ApplyReply, ApplyReturn, Complete, Collapse, Unix, InstantFor;
    match a
    case Tick(time) => TimePasses(cfg, st, st.now + time);
    case Proceed => ScheduledTrusted(cfg, st, Apply(cfg, st, a));
    case ReadHead(lag) =>
      TimePasses(cfg, st, st.now + lag);
      ScheduledTrusted(cfg, Later(st, lag), Arm(st, lag));
    case Poll(ready) => TurnTrusted(cfg, st, ready);
    case ReadExpiry => ScheduledTrusted(cfg, st, CheckExpiry(st));
    case JoinReady(i) => ReclaimTrusted(cfg, st, i);
    case _ => TaskStepTrusted(cfg, st, a);
  }

  lemma {:induction false} TaskStepTrusted(cfg: Config, st: State, a: Action)
    requires Trusted(cfg, st) && Enabled(st, a) && OfTask(a)
    ensures Trusted(cfg, Apply(cfg, st, a)) && TaskFrame(st, Apply(cfg, st, a), a.task)
  {
    hide Trusted, Apply, Installed, TaskFrame, Enabled;
    TaskNamed(st, a);
    CurrentInstalled(cfg, st);
    KnownTask(cfg, st, a.task);
    if a.TimeOut? || a.Panic? || a.Reap? || a.ControlDone? || a.Reply? {
      EndingActionFrame(cfg, st, a);
    } else {
      PhaseActionFrame(cfg, st, a);
      PhaseActionOk(cfg, st, a);
    }
    TaskTrusted(cfg, st, Apply(cfg, st, a), a.task);
  }

  lemma {:induction false} TaskActionFrame(cfg: Config, st: State, a: Action)
    requires Enabled(st, a) && OfTask(a)
    ensures TaskFrame(st, Apply(cfg, st, a), a.task)
  {
    hide Apply, TaskFrame, Enabled;
    if a.TimeOut? || a.Panic? || a.Reap? || a.ControlDone? || a.Reply? {
      EndingActionFrame(cfg, st, a);
    } else {
      PhaseActionFrame(cfg, st, a);
    }
  }

  lemma TaskNamed(st: State, a: Action)
    requires Enabled(st, a) && OfTask(a)
    ensures a.task < |st.tasks|
  {
  }

  lemma KnownTask(cfg: Config, st: State, i: nat)
    requires Trusted(cfg, st) && i < |st.tasks|
    ensures TaskOk(st.installs, st.tasks[i], st.now)
  {
  }

  lemma {:induction false} ReclaimTrusted(cfg: Config, st: State, i: nat)
    requires Trusted(cfg, st) && Joinable(st, i)
    ensures Trusted(cfg, Reclaim(st, i))
  {
    hide Trusted, RefreshOk;
    TrustedRefresh(cfg, st);
    IdleOk(cfg, st.now);
    StillTrusted(cfg, st, Reclaim(st, i));
  }

  lemma IdleOk(cfg: Config, now: nat)
    ensures RefreshOk(cfg, Idle, now)
  {
  }

  // --------------------------------------------------------------------------- schedule

  /** A slot as a clock reading of at most `clock` made it. */
  predicate SlotOk(slot: Slot, clock: nat) {
    && slot.madeAt <= clock && slot.madeAt <= slot.at < slot.validUntil
    && (slot.why.AfterSuccess? ==> slot.madeAt < slot.at)
    && (slot.why.AfterFailure? ==> slot.at == slot.madeAt + 1)
  }

  predicate Ascending(slots: seq<Slot>) {
    forall j, k :: 0 <= j < k < |slots| ==> slots[j].at < slots[k].at
  }

  /** Slots are well made and strictly later one after the other; the last is pending or
      past; one refresh is in flight at most and each slot is attempted once. */
  predicate OnSchedule(st: State) {
    && (forall k :: 0 <= k < |st.slots| ==> SlotOk(st.slots[k], Unix(st.now)))
    && Ascending(st.slots)
    && (st.nextRefresh.Some? ==>
          st.refresh.Idle? && |st.slots| > 0 && st.slots[|st.slots| - 1].at == st.nextRefresh.value)
    && (st.nextRefresh.None? ==> forall k :: 0 <= k < |st.slots| ==> st.slots[k].at <= Unix(st.now))
    && st.attempts + (if st.nextRefresh.Some? then 1 else 0) == |st.slots|
    && Armed(st)
  }

  /** The timers of the select fire no earlier than the seconds they are for. */
  predicate Armed(st: State) {
    st.position.Selecting? ==>
      && Unix(st.position.expiryAt) >= st.identity.validUntil
      && (st.nextRefresh.Some? ==> Unix(st.position.refreshAt) >= st.nextRefresh.value)
  }

  /** In the select the loop leaves by going round: what is scheduled there is armed anew. */
  lemma {:induction false} ScheduleNext(st: State, next: Option<nat>, why: Why)
    requires OnSchedule(st) && st.nextRefresh.None? && st.refresh.Idle?
    requires next.Some? ==>
             Unix(st.now) < next.value
             && SlotOk(Slot(next.value, Unix(st.now), st.identity.validUntil, why), Unix(st.now))
    ensures OnSchedule(GoRound(Schedule(st, next, why)))
  {
    hide Unix;
  }

  lemma {:induction false} ClockOnSchedule(st: State, later: nat)
    requires OnSchedule(st) && st.now <= later
    ensures OnSchedule(st.(now := later))
  {
    hide Unix;
    UnixGrows(st.now, later);
  }

  lemma SameOnSchedule(st: State, st': State)
    requires OnSchedule(st) && st'.now == st.now && st'.slots == st.slots
    requires st'.nextRefresh == st.nextRefresh && st'.attempts == st.attempts
    requires st'.refresh == st.refresh || st'.refresh.Idle? || (!st.refresh.Idle? && !st'.refresh.Idle?)
    requires !st'.position.Selecting? || (st'.position == st.position && st'.identity == st.identity)
    ensures OnSchedule(st')
  {
    hide Unix;
  }

  lemma {:induction false} FailsOnSchedule(cfg: Config, st: State)
    requires OnSchedule(st) && !st.refresh.Idle? && Genuine(cfg, st.identity)
    ensures OnSchedule(GoRound(RefreshFails(st)))
  {
    hide RetryRefreshAt, Unix, OnSchedule;
    RetryRefreshIff(st.identity.validUntil, Unix(st.now));
    InFlight(st);
    SameOnSchedule(st, st.(refresh := Idle));
    if Unix(st.now) >= st.identity.validUntil {
      SameOnSchedule(st, GoRound(RefreshFails(st)));
    } else {
      ScheduleNext(st.(refresh := Idle), RetryRefreshAt(st.identity.validUntil, Unix(st.now)), AfterFailure);
    }
  }

  lemma InFlight(st: State)
    requires OnSchedule(st) && !st.refresh.Idle?
    ensures st.nextRefresh.None?
  {
  }

  lemma {:induction false} InstallsOnSchedule(st: State, replacement: Identity, lag: nat)
    requires OnSchedule(st) && !st.refresh.Idle?
    ensures OnSchedule(GoRound(Installs(st, replacement, lag)))
  {
    hide RefreshAfterSuccessAt, Unix, OnSchedule;
    InFlight(st);
    var swapped := st.(refresh := Idle, identity := replacement,
                       installs := st.installs + [Install(replacement, st.now)]);
    var round := GoRound(swapped);
    SameOnSchedule(st, round);
    ClockOnSchedule(round, round.now + lag);
    var later := Later(round, lag);
    RefreshAfterSuccessIff(replacement.validUntil, Unix(later.now));
    ScheduleNext(later, RefreshAfterSuccessAt(replacement.validUntil, Unix(later.now)), AfterSuccess);
    assert GoRound(Schedule(later, RefreshAfterSuccessAt(replacement.validUntil, Unix(later.now)), AfterSuccess))
        == GoRound(Installs(st, replacement, lag));
  }

  /** After the poll of the refresh: its branch taken, or the select still on. */
  lemma {:induction false} PollRefreshOnSchedule(cfg: Config, st: State, ready: Ready)
    requires OnSchedule(st) && Trusted(cfg, st)
    ensures var (taken, polled) := PollRefresh(cfg, st, ready); OnSchedule(if taken then GoRound(polled) else polled)
  {
    hide Trusted, OnSchedule, Checked, RefreshFails, Installs, Held, Unix;
    CurrentProof(cfg, st);
    var checked := Later(st, ready.lags.check);
    ClockOnSchedule(st, checked.now);
    if st.refresh.Waiting? {
      ClockOnSchedule(st, st.now + ready.lags.store);
      InstallsOnSchedule(Later(st, ready.lags.store), st.refresh.replacement, ready.lags.schedule);
    } else if st.refresh.Fetching? {
      ClockOnSchedule(st, st.now + (ready.lags.check + ready.lags.schedule));
      FailsOnSchedule(cfg, Later(st, ready.lags.check + ready.lags.schedule));
      if Checked(cfg, st, ready).Some? {
        var replacement := Checked(cfg, st, ready).value;
        SameOnSchedule(checked, checked.(refresh := Waiting(replacement)));
        ClockOnSchedule(checked, checked.now + ready.lags.store);
        InstallsOnSchedule(Later(checked, ready.lags.store), replacement, ready.lags.schedule);
      }
    }
  }

  lemma {:induction false} TurnOnSchedule(cfg: Config, st: State, ready: Ready)
    requires st.position.Selecting? && Trusted(cfg, st) && OnSchedule(st)
    ensures OnSchedule(Turn(cfg, st, ready))
  {
    hide Trusted, OnSchedule, PollRefresh, PollRest;
    PollRefreshStays(cfg, st, ready);
    if ready.signal.Some? || st.shutdownSent || st.now >= st.position.expiryAt {
      SameOnSchedule(st, Turn(cfg, st, ready));
    } else {
      PollRefreshOnSchedule(cfg, st, ready);
      var (taken, polled) := PollRefresh(cfg, st, ready);
      if !taken {
        PollRestOnSchedule(polled, ready);
      }
    }
  }

  lemma {:induction false} PollRestOnSchedule(st: State, ready: Ready)
    requires st.position.Selecting? && OnSchedule(st)
    ensures OnSchedule(PollRest(st, ready))
  {
    hide TaskCount, OnSchedule;
    if st.nextRefresh.Some? && st.refresh.Idle? && st.now >= st.position.refreshAt {
      StartOnSchedule(st);
    } else {
      SameOnSchedule(st, PollRest(st, ready));
    }
  }

  lemma {:induction false} StartOnSchedule(st: State)
    requires OnSchedule(st) && st.position.Selecting? && st.nextRefresh.Some? && st.now >= st.position.refreshAt
    ensures OnSchedule(GoRound(st.(nextRefresh := None, refresh := Fetching(st.identity.proof.audience),
                                   attempts := st.attempts + 1)))
  {
    hide Unix;
    UnixGrows(st.position.refreshAt, st.now);
  }

  lemma {:induction false} ArmOnSchedule(st: State, lag: nat)
    requires OnSchedule(st)
    ensures OnSchedule(Arm(st, lag))
  {
    hide Unix, InstantFor;
    UnixGrows(st.now, st.now + lag);
    InstantBounds(st.identity.validUntil, st.now, st.now + lag);
    if st.nextRefresh.Some? {
      InstantBounds(st.nextRefresh.value, st.now, st.now + lag);
    }
  }

  lemma {:induction false} StepOnSchedule(cfg: Config, st: State, a: Action)
    requires Trusted(cfg, st) && OnSchedule(st) && Enabled(st, a)
    ensures OnSchedule(Apply(cfg, st, a))
  {
    hide Trusted, Turn, OnSchedule, Unix, Arm, Reclaim;
    if OfTask(a) {
      hide Apply;
      TaskStepTrusted(cfg, st, a);
      SameOnSchedule(st, Apply(cfg, st, a));
    } else {
      match a
      case Tick(time) => ClockOnSchedule(st, st.now + time);
      case Proceed => SameOnSchedule(st, Apply(cfg, st, a));
      case ReadHead(lag) => ArmOnSchedule(st, lag);
      case Poll(ready) => TurnOnSchedule(cfg, st, ready);
      case ReadExpiry => SameOnSchedule(st, CheckExpiry(st));
      case JoinReady(i) => ReclaimOnSchedule(st, i);
    }
  }

  lemma ReclaimOnSchedule(st: State, i: nat)
    requires OnSchedule(st) && Joinable(st, i)
    ensures OnSchedule(Reclaim(st, i))
  {
    hide OnSchedule;
    SameOnSchedule(st, Reclaim(st, i));
  }
}
