/** A CI identity session: the biased serve loop, the refresh it drives, the connection tasks
    it spawns and their permits, as steps over an explicit clock. */
module Session {
  import opened Bytes
  import opened RefreshSchedule

  const MAX_SESSION_CONNECTIONS: nat := 32
  const ADAPTER_SLOTS: nat := 1

  datatype Proof = Proof(jkt: ByteString, audience: ByteString)

  datatype Config = Config(maxAge: nat, proof: Proof)

  /** Times are in nanoseconds, except `validUntil` and the readings of the clock in seconds:
      `validatedAt` is the one that found the identity valid. */
  datatype Identity = Identity(token: Token, validUntil: nat, proof: Proof, validatedAt: nat)

  /** `SessionIdentity::new`. */
  function NewIdentity(token: Token, maxAge: nat, proof: Proof, now: nat): (r: Option<Identity>) {
    match EffectiveValidUntil(token, maxAge)
    case None => None
    case Some(validUntil) => if validUntil <= now then None else Some(Identity(token, validUntil, proof, now))
  }

  // ------------------------------------------------------------------------------ state

  datatype Phase =
    | Busy
    | Claiming
    | ReadingFrame
    | Capturing
    | Holding(identity: Identity)
    | Deciding(identity: Identity)
    | Invoking(identity: Identity)
    | Answering(outcome: Option<Answer>)
    | Finished
    | Panicked

  /** An OK answer: the identity the invocation ran under, and when it finished. */
  datatype Answer = Answer(identity: Identity, finishedAt: nat)

  datatype Task = Task(adapter: bool, phase: Phase, joined: bool)

  /** The refresh in flight; `Waiting` for the write lock, with the write queued on it. */
  datatype Refresh = Idle | Fetching(audience: ByteString) | Waiting(replacement: Identity)

  datatype Ending =
    | BySignal | SignalFailed | ByShutdown | Expired | ExpiredDuringRefresh | ListenerFailed | TaskFailed

  /** Where the loop stands: reclaiming tasks, reading the identity at its head, in the select with
      its two timers armed, or reading the identity in the expiry branch. */
  datatype Position = Head | Reading | Selecting(expiryAt: nat, refreshAt: nat) | ExpiryRead

  datatype Why = Initially | AfterSuccess | AfterFailure

  /** One scheduled refresh: its time, and the clock and expiry it was computed from. */
  datatype Slot = Slot(at: nat, madeAt: nat, validUntil: nat, why: Why)

  datatype Install = Install(identity: Identity, at: nat)

  datatype State = State(
    now: nat, position: Position, identity: Identity, nextRefresh: Option<nat>, refresh: Refresh,
    tasks: seq<Task>, freeConnections: nat, freeAdapter: nat, used: bool, shutdownSent: bool, ending: Option<Ending>,
    slots: seq<Slot>, attempts: nat, installs: seq<Install>, invocations: nat, answers: seq<Answer>,
    refusedControl: nat)

  /** The state in which `serve` enters its loop. */
  function Start(cfg: Config, first: Identity, now: nat): (r: State) {
    var scheduled := RefreshAt(first.validUntil, Unix(now));
    State(now, Head, first, scheduled, Idle, [], MAX_SESSION_CONNECTIONS, ADAPTER_SLOTS, false, false, None,
          if scheduled.Some? then [Slot(scheduled.value, Unix(now), first.validUntil, Initially)] else [],
          0, [Install(first, now)], 0, [], 0)
  }

  // ------------------------------------------------------------------------ the refresh

  function Schedule(st: State, next: Option<nat>, why: Why): (r: State) {
    st.(nextRefresh := next,
        slots := if next.Some? then st.slots + [Slot(next.value, Unix(st.now), st.identity.validUntil, why)]
          else st.slots)
  }

  function Later(st: State, time: nat): (r: State) {
    st.(now := st.now + time)
  }

  /** `schedule_after_refresh` on a failure. */
  function RefreshFails(st: State): (r: State) {
    var idle := st.(refresh := Idle);
    if Unix(st.now) >= st.identity.validUntil then idle.(ending := Some(ExpiredDuringRefresh))
    else Schedule(idle, RetryRefreshAt(st.identity.validUntil, Unix(st.now)), AfterFailure)
  }

  /** The write lock is held: the identity is replaced now and, when the clock is read again, the
      next refresh scheduled. */
  function Installs(st: State, replacement: Identity, untilSchedule: nat): (r: State) {
    var swapped := st.(refresh := Idle, identity := replacement,
                       installs := st.installs + [Install(replacement, st.now)]);
    var later := Later(swapped, untilSchedule);
    Schedule(later, RefreshAfterSuccessAt(replacement.validUntil, Unix(later.now)), AfterSuccess)
  }

  /** The time that passes inside one poll of the refresh: until the validity check reads the
      clock, from the check to the store, and until the scheduling reads the clock. */
  datatype Lags = Lags(check: nat, store: nat, schedule: nat)

  /** What the world has ready when the loop polls. */
  datatype Ready = Ready(
    signal: Option<bool>, fetched: Option<Result<Token, ()>>, lags: Lags,
    control: Option<bool>, adapter: Option<bool>, joinable: Option<nat>)

  /** Some handler holds the read guard of the identity. */
  predicate Held(tasks: seq<Task>) {
    exists i :: 0 <= i < |tasks| && tasks[i].phase.Holding?
  }

  /** The identity a fetched token makes, checked when the refresh reads the clock. */
  function Checked(cfg: Config, st: State, ready: Ready): (r: Option<Identity>) {
    match ready.fetched
    case Some(Success(token)) => NewIdentity(token, cfg.maxAge, st.identity.proof, Unix(st.now + ready.lags.check))
    case _ => None
  }

  /** Polling the refresh in flight: whether its branch of the select is taken, and the state. */
  function PollRefresh(cfg: Config, st: State, ready: Ready): (r: (bool, State)) {
    match st.refresh
    case Idle => (false, st)
    case Fetching(_) =>
      if ready.fetched.None? then (false, st)
      else (
        match Checked(cfg, st, ready)
        case None => (true, RefreshFails(Later(st, ready.lags.check + ready.lags.schedule)))
        case Some(replacement) =>
          var checked := Later(st, ready.lags.check);
          if Held(st.tasks) then (false, checked.(refresh := Waiting(replacement)))
          else (true, Installs(Later(checked, ready.lags.store), replacement, ready.lags.schedule)))
    case Waiting(replacement) =>
      if Held(st.tasks) then (false, st)
      else (true, Installs(Later(st, ready.lags.store), replacement, ready.lags.schedule))
  }

  // ---------------------------------------------------------------------------- the loop

  predicate Unjoined(t: Task) {
    !t.joined
  }

  /** `tasks.len()`. */
  function TaskCount(tasks: seq<Task>): (n: nat) {
    if tasks == [] then 0 else (if Unjoined(tasks[0]) then 1 else 0) + TaskCount(tasks[1..])
  }

  function End(st: State, ending: Ending): (r: State) {
    st.(ending := Some(ending), refresh := Idle)
  }

  function AcceptControl(st: State): (r: State) {
    if st.freeConnections == 0 then st.(refusedControl := st.refusedControl + 1)
    else st.(freeConnections := st.freeConnections - 1, tasks := st.tasks + [Task(false, Busy, false)])
  }

  /** `spawn_adapter_task`: the adapter permit first, then the connection permit. */
  function AcceptAdapter(st: State): (r: State) {
    if st.freeAdapter == 0 || st.freeConnections == 0 then st
    else st.(freeAdapter := st.freeAdapter - 1, freeConnections := st.freeConnections - 1,
             tasks := st.tasks + [Task(true, Claiming, false)])
  }

  predicate Joinable(st: State, i: nat) {
    i < |st.tasks| && !st.tasks[i].joined && (st.tasks[i].phase.Finished? || st.tasks[i].phase.Panicked?)
  }

  /** `reclaim_session_task`: a finished task hands its permit back, a panicked one ends the session. */
  function Reclaim(st: State, i: nat): (r: State)
    requires Joinable(st, i)
  {
    var joined := st.(tasks := st.tasks[i := st.tasks[i].(joined := true)]);
    if st.tasks[i].phase.Panicked? then End(joined, TaskFailed)
    else joined.(freeConnections := st.freeConnections + 1)
  }

  /** A branch is over and the loop goes round. */
  function GoRound(st: State): (r: State) {
    st.(position := Head)
  }

  /** The branches behind the refresh, in their order; with none ready the select goes on waiting. */
  function PollRest(st: State, ready: Ready): (r: State)
    requires st.position.Selecting?
  {
    if st.nextRefresh.Some? && st.refresh.Idle? && st.now >= st.position.refreshAt then
      GoRound(st.(nextRefresh := None, refresh := Fetching(st.identity.proof.audience), attempts := st.attempts + 1))
    else if ready.control.Some? && TaskCount(st.tasks) < MAX_SESSION_CONNECTIONS then
      if ready.control.value then GoRound(AcceptControl(st)) else End(st, ListenerFailed)
    else if ready.adapter.Some? && TaskCount(st.tasks) < MAX_SESSION_CONNECTIONS then
      if ready.adapter.value then GoRound(AcceptAdapter(st)) else End(st, ListenerFailed)
    else if ready.joinable.Some? && Joinable(st, ready.joinable.value) then GoRound(Reclaim(st, ready.joinable.value))
    else st
  }

  /** One poll of the biased select: the first ready branch is taken. */
  function Turn(cfg: Config, st: State, ready: Ready): (r: State)
    requires st.position.Selecting?
  {
    if ready.signal.Some? then End(st, if ready.signal.value then BySignal else SignalFailed)
    else if st.shutdownSent then End(st, ByShutdown)
    else if st.now >= st.position.expiryAt then st.(position := ExpiryRead)
    else
      var (taken, polled) := PollRefresh(cfg, st, ready);
      if taken then GoRound(polled) else PollRest(polled, ready)
  }

  /** The read at the head of the loop, and the two timers; `lag` passes between the reading of
      the clock and the instant it is added to. */
  function Arm(st: State, lag: nat): (r: State) {
    var refresh := if st.nextRefresh.Some? then st.nextRefresh.value else st.identity.validUntil;
    Later(st, lag).(position := Selecting(InstantFor(st.identity.validUntil, st.now, st.now + lag),
                                          InstantFor(refresh, st.now, st.now + lag)))
  }

  /** The read in the expiry branch, and its check of the clock. */
  function CheckExpiry(st: State): (r: State) {
    if Unix(st.now) >= st.identity.validUntil then End(st, Expired) else GoRound(st)
  }

  /** Readers queue behind a queued write. */
  predicate Readable(st: State) {
    !st.refresh.Waiting?
  }

  // --------------------------------------------------------------------------- the tasks

  function Put(st: State, i: nat, phase: Phase): (r: State)
    requires i < |st.tasks|
  {
    st.(tasks := st.tasks[i := st.tasks[i].(phase := phase)])
  }

  /** The task is over: an adapter task gives its adapter permit back; its connection permit
      is its output and stays with it until it is joined. */
  function Complete(st: State, i: nat): (r: State)
    requires i < |st.tasks|
  {
    var done := Put(st, i, Finished);
    if st.tasks[i].adapter then done.(freeAdapter := st.freeAdapter + 1) else done
  }

  /** The task's future is dropped, with every permit in it. */
  function Collapse(st: State, i: nat): (r: State)
    requires i < |st.tasks|
  {
    var dropped := Put(st, i, Panicked).(freeConnections := st.freeConnections + 1);
    if st.tasks[i].adapter then dropped.(freeAdapter := st.freeAdapter + 1) else dropped
  }

  predicate Over(t: Task) {
    t.phase.Finished? || t.phase.Panicked?
  }

  datatype Action =
    | Tick(time: nat)
    | JoinReady(task: nat)
    | Proceed
    | ReadHead(lag: nat)
    | Poll(ready: Ready)
    | ReadExpiry
    | ControlDone(task: nat, stop: bool)
    | Claim(task: nat)
    | Receive(task: nat, decoded: bool)
    | Capture(task: nat)
    | LetGo(task: nat)
    | Begin(task: nat)
    | Return(task: nat, ok: bool)
    | Reply(task: nat, complete: bool)
    | TimeOut(task: nat)
    | Panic(task: nat)
    | Reap(task: nat)

  predicate Serving(st: State) {
    st.ending.None?
  }

  predicate Live(st: State, i: nat) {
    i < |st.tasks| && !Over(st.tasks[i])
  }

  predicate Enabled(st: State, a: Action) {
    match a
    case Tick(_) => true
    case JoinReady(i) => Serving(st) && st.position.Head? && Joinable(st, i)
    case Proceed => Serving(st) && st.position.Head?
    case ReadHead(_) => Serving(st) && st.position.Reading? && Readable(st)
    case Poll(_) => Serving(st) && st.position.Selecting?
    case ReadExpiry => Serving(st) && st.position.ExpiryRead? && Readable(st)
    case ControlDone(i, _) => Live(st, i) && st.tasks[i].phase.Busy?
    case Claim(i) => Live(st, i) && st.tasks[i].phase.Claiming?
    case Receive(i, _) => Live(st, i) && st.tasks[i].phase.ReadingFrame?
    case Capture(i) => Live(st, i) && st.tasks[i].phase.Capturing? && Readable(st)
    case LetGo(i) => Live(st, i) && st.tasks[i].phase.Holding?
    case Begin(i) => Live(st, i) && st.tasks[i].phase.Deciding?
    case Return(i, _) => Live(st, i) && st.tasks[i].phase.Invoking?
    case Reply(i, _) => Live(st, i) && st.tasks[i].phase.Answering?
    case TimeOut(i) => Live(st, i)
    case Panic(i) => Live(st, i)
    case Reap(i) => !Serving(st) && i < |st.tasks| && !st.tasks[i].joined
  }

  /** After the loop: a task is aborted if it still runs, and joined. */
  function ApplyReap(st: State, i: nat): (r: State)
    requires Enabled(st, Reap(i))
  {
    var dropped := if Over(st.tasks[i]) then st else Collapse(st, i);
    var joined := dropped.(tasks := dropped.tasks[i := dropped.tasks[i].(joined := true)]);
    if st.tasks[i].phase.Finished? then joined.(freeConnections := st.freeConnections + 1) else joined
  }

  /** An invocation finishes: its value counts only while its own identity is unexpired. */
  function ApplyReturn(st: State, i: nat, ok: bool): (r: State)
    requires Enabled(st, Return(i, ok))
  {
    var identity := st.tasks[i].phase.identity;
    Put(st, i, Answering(if ok && Unix(st.now) < identity.validUntil then Some(Answer(identity, st.now)) else None))
  }

  function ApplyReply(st: State, i: nat, complete: bool): (r: State)
    requires Enabled(st, Reply(i, complete))
  {
    var outcome := st.tasks[i].phase.outcome;
    var done := Complete(st, i);
    if complete && outcome.Some? then done.(answers := st.answers + [outcome.value]) else done
  }

  function Apply(cfg: Config, st: State, a: Action): (r: State)
    requires Enabled(st, a)
  {
    match a
    case Tick(time) => Later(st, time)
    case JoinReady(i) => Reclaim(st, i)
    case Proceed => st.(position := Reading)
    case ReadHead(lag) => Arm(st, lag)
    case Poll(ready) => Turn(cfg, st, ready)
    case ReadExpiry => CheckExpiry(st)
    case ControlDone(i, stop) => Complete(st, i).(shutdownSent := st.shutdownSent || stop)
    case Claim(i) => if st.used then Put(st, i, Answering(None)) else Put(st, i, ReadingFrame).(used := true)
    case Receive(i, decoded) => Put(st, i, if decoded then Capturing else Answering(None))
    case Capture(i) => Put(st, i, Holding(st.identity))
    case LetGo(i) => Put(st, i, Deciding(st.tasks[i].phase.identity))
    case Begin(i) =>
      var identity := st.tasks[i].phase.identity;
      if Unix(st.now) < identity.validUntil then Put(st, i, Invoking(identity)).(invocations := st.invocations + 1)
      else Put(st, i, Answering(None))
    case Return(i, ok) => ApplyReturn(st, i, ok)
    case Reply(i, complete) => ApplyReply(st, i, complete)
    case TimeOut(i) => Complete(st, i)
    case Panic(i) => Collapse(st, i)
    case Reap(i) => ApplyReap(st, i)
  }

  function Run(cfg: Config, st: State, schedule: seq<Action>): (r: Option<State>)
    decreases |schedule|
  {
    if schedule == [] then Some(st)
    else if Enabled(st, schedule[0]) then Run(cfg, Apply(cfg, st, schedule[0]), schedule[1..])
    else None
  }

  lemma RunFirst(cfg: Config, st: State, a: Action, rest: seq<Action>)
    requires Enabled(st, a)
    ensures Run(cfg, st, [a] + rest) == Run(cfg, Apply(cfg, st, a), rest)
  {
    hide Apply, Enabled;
    assert ([a] + rest)[1..] == rest;
  }

  predicate Reaches(cfg: Config, first: Identity, start: nat, schedule: seq<Action>, st: State) {
    Run(cfg, Start(cfg, first, start), schedule) == Some(st)
  }

  // ------------------------------------------------------------------- one session's data

  const EXAMPLE: Config := Config(3600, Proof([1], [2]))
  const LONG: Identity := Identity(Claims(100, 0), 100, EXAMPLE.proof, 0)
  const NOTHING: Ready := Ready(None, None, Lags(0, 0, 0), None, None, None)
}
