/** From preparation to serving: `run_session` races preparation, publication and the
    bootstrap commit under biased selects. */
module SessionStart {
  import opened Bytes
  import opened Bootstrap

  /** What one read of the input yields. */
  datatype Input = GotByte(b: Byte) | EndOfInput | Broken

  /** How far `read_bootstrap_commit` has come. */
  datatype Commit = AwaitByte | AwaitEnd | Acknowledged | Refused

  function CommitStep(commit: Commit, input: Input): (r: Commit) {
    match (commit, input)
    case (AwaitByte, GotByte(b)) => if b == COMMIT then AwaitEnd else Refused
    case (AwaitByte, _) => Refused
    case (AwaitEnd, EndOfInput) => Acknowledged
    case (AwaitEnd, _) => Refused
    case (_, _) => commit
  }

  predicate Settled(commit: Commit) {
    commit.Acknowledged? || commit.Refused?
  }

  /** Everything the commit reads during one poll; it stops where it settles. */
  function CommitPoll(commit: Commit, inputs: seq<Input>): (r: (Commit, nat))
    ensures r.1 <= |inputs|
    ensures inputs == [] ==> r.0 == commit
    decreases |inputs|
  {
    if inputs == [] || Settled(commit) then (commit, 0)
    else
      var (last, taken) := CommitPoll(CommitStep(commit, inputs[0]), inputs[1..]);
      (last, taken + 1)
  }

  datatype Stage = Preparing | Prepared | Published | Serving | Stopped

  datatype Mark = MarkPublished | MarkAcknowledged | MarkServing

  /** `seen` is everything the commit has read, `marks` what happened in its order. */
  datatype State = State(stage: Stage, commit: Commit, seen: seq<Input>, marks: seq<Mark>)

  const INIT: State := State(Preparing, AwaitByte, [], [])

  datatype Ready = Ready(signal: bool, inputs: seq<Input>, prepared: Option<bool>, written: bool)

  function ReadMore(st: State, inputs: seq<Input>): (r: State) {
    var (commit, taken) := CommitPoll(st.commit, inputs);
    st.(commit := commit, seen := st.seen + inputs[..taken],
        marks := if commit.Acknowledged? && !st.commit.Acknowledged? then st.marks + [MarkAcknowledged] else st.marks)
  }

  /** One poll of the select of the current stage, or one synchronous step between them. */
  function Step(st: State, ready: Ready): (r: State) {
    match st.stage
    case Preparing =>
      if ready.signal then st.(stage := Stopped)
      else
        var read := ReadMore(st, ready.inputs);
        if Settled(read.commit) then read.(stage := Stopped)
        else (
          match ready.prepared
          case None => read
          case Some(false) => read.(stage := Stopped)
          case Some(true) => read.(stage := Prepared))
    case Prepared =>
      if ready.written then st.(stage := Published, marks := st.marks + [MarkPublished]) else st.(stage := Stopped)
    case Published =>
      if ready.signal then st.(stage := Stopped)
      else
        var read := ReadMore(st, ready.inputs);
        if read.commit.Refused? then read.(stage := Stopped)
        else if read.commit.Acknowledged? then read.(stage := Serving, marks := read.marks + [MarkServing])
        else read
    case Serving => st
    case Stopped => st
  }

  function Run(st: State, polls: seq<Ready>): (r: State)
    decreases |polls|
  {
    if polls == [] then st else Run(Step(st, polls[0]), polls[1..])
  }

  // --------------------------------------------------------------------------- the order

  /** What the commit has read decides where it stands. */
  predicate ReadSoFar(commit: Commit, seen: seq<Input>) {
    match commit
    case AwaitByte => seen == []
    case AwaitEnd => seen == [GotByte(COMMIT)]
    case Acknowledged => seen == [GotByte(COMMIT), EndOfInput]
    case Refused =>
      || (|seen| == 1 && seen[0] != GotByte(COMMIT))
      || (|seen| == 2 && seen[0] == GotByte(COMMIT) && seen[1] != EndOfInput)
  }

  lemma {:induction false} PollReads(commit: Commit, seen: seq<Input>, inputs: seq<Input>)
    requires ReadSoFar(commit, seen)
    ensures var (last, taken) := CommitPoll(commit, inputs); ReadSoFar(last, seen + inputs[..taken])
    decreases |inputs|
  {
    if inputs == [] || Settled(commit) {
      assert seen + inputs[..0] == seen;
    } else {
      var next, rest := CommitStep(commit, inputs[0]), inputs[1..];
      PollReads(next, seen + [inputs[0]], rest);
      var taken := CommitPoll(next, rest).1;
      assert seen + inputs[..taken + 1] == seen + [inputs[0]] + rest[..taken];
    }
  }

  predicate InOrder(st: State) {
    && ReadSoFar(st.commit, st.seen)
    && match st.stage
       case Preparing => !Settled(st.commit) && st.marks == []
       case Prepared => !Settled(st.commit) && st.marks == []
       case Published => !Settled(st.commit) && st.marks == [MarkPublished]
       case Serving => st.commit.Acknowledged? && st.marks == [MarkPublished, MarkAcknowledged, MarkServing]
       case Stopped => MarkServing !in st.marks
  }

  lemma {:induction false} StepInOrder(st: State, ready: Ready)
    requires InOrder(st)
    ensures InOrder(Step(st, ready))
  {
    hide CommitPoll;
    PollReads(st.commit, st.seen, ready.inputs);
  }

  lemma {:induction false} RunInOrder(st: State, polls: seq<Ready>)
    requires InOrder(st)
    ensures InOrder(Run(st, polls))
    decreases |polls|
  {
    hide Step, InOrder;
    if polls != [] {
      StepInOrder(st, polls[0]);
      RunInOrder(Step(st, polls[0]), polls[1..]);
    }
  }

  /** Serving begins only after the outputs were published and then the commit was observed
      complete, its byte and the end of the input and nothing else. */
  lemma {:induction false} ServesOnlyAfterCommit(polls: seq<Ready>)
    ensures var st := Run(INIT, polls);
            && (st.stage.Serving? ==>
                  st.marks == [MarkPublished, MarkAcknowledged, MarkServing]
                    && st.seen == [GotByte(COMMIT), EndOfInput])
            && (MarkServing in st.marks ==> st.stage.Serving?)
  {
    hide Run;
    RunInOrder(INIT, polls);
  }

  /** A commit observed complete before the outputs are out stops the session for good. */
  lemma {:induction false} EarlyCommitStops(polls: seq<Ready>, more: seq<Ready>)
    requires var st := Run(INIT, polls); Settled(st.commit) && MarkPublished !in st.marks
    ensures Run(Run(INIT, polls), more).stage.Stopped?
  {
    hide Run;
    RunInOrder(INIT, polls);
    StoppedStays(Run(INIT, polls), more);
  }

  lemma {:induction false} StoppedStays(st: State, polls: seq<Ready>)
    requires st.stage.Stopped?
    ensures Run(st, polls) == st
    decreases |polls|
  {
    if polls != [] {
      StoppedStays(Step(st, polls[0]), polls[1..]);
    }
  }

  // ------------------------------------------------------------------ exactly when it serves

  /** The input begins with the commit byte and its end. */
  predicate Full(inputs: seq<Input>) {
    |inputs| >= 2 && inputs[0] == GotByte(COMMIT) && inputs[1] == EndOfInput
  }

  /** The input so far is a proper beginning of that. */
  predicate Begun(inputs: seq<Input>) {
    inputs == [] || inputs == [GotByte(COMMIT)]
  }

  /** Where the commit stands after everything it was given: still a proper beginning of the full
      commit, or the full commit, or refused. */
  lemma {:induction false} PollSettlesIff(commit: Commit, seen: seq<Input>, inputs: seq<Input>)
    requires ReadSoFar(commit, seen) && !Settled(commit)
    ensures var last := CommitPoll(commit, inputs).0;
            && (last.Acknowledged? <==> Full(seen + inputs))
            && (!Settled(last) <==> Begun(seen + inputs))
            && (!Settled(last) ==> ReadSoFar(last, seen + inputs))
            && (!Settled(last) ==> CommitPoll(commit, inputs).1 == |inputs|)
    decreases |inputs|
  {
    if inputs == [] {
      assert seen + inputs == seen;
    } else {
      var next, rest := CommitStep(commit, inputs[0]), inputs[1..];
      assert seen + inputs == seen + [inputs[0]] + rest;
      if Settled(next) {
        assert CommitPoll(next, rest) == (next, 0);
        assert |seen + inputs| >= |seen| + 1 && (seen + inputs)[|seen|] == inputs[0];
      } else {
        PollSettlesIff(next, seen + [inputs[0]], rest);
      }
    }
  }

  /** Everything the polls offer to the commit. */
  function Offered(polls: seq<Ready>): (r: seq<Input>) {
    if polls == [] then [] else polls[0].inputs + Offered(polls[1..])
  }

  predicate NoSignal(polls: seq<Ready>) {
    forall k :: 0 <= k < |polls| ==> !polls[k].signal
  }

  /** After publication: some polls without a signal complete the commit. */
  ghost predicate Completes(seen: seq<Input>, polls: seq<Ready>) {
    exists q :: 0 <= q <= |polls| && NoSignal(polls[..q]) && Full(seen + Offered(polls[..q]))
  }

  /** Preparation succeeds at poll `p`, the commit still incomplete, and nothing stopped it before. */
  predicate PreparedAt(seen: seq<Input>, polls: seq<Ready>, p: nat) {
    && p < |polls| && NoSignal(polls[..p + 1])
    && (forall k :: 0 <= k < p ==> polls[k].prepared.None?) && polls[p].prepared == Some(true)
    && Begun(seen + Offered(polls[..p + 1]))
  }

  /** The outputs are written next, and then the commit is completed. */
  ghost predicate ServesAfter(seen: seq<Input>, polls: seq<Ready>, p: nat) {
    && PreparedAt(seen, polls, p) && p + 1 < |polls| && polls[p + 1].written
    && Completes(seen + Offered(polls[..p + 1]), polls[p + 2..])
  }

  lemma {:induction false} OfferedFirst(polls: seq<Ready>, q: nat)
    requires 0 < q <= |polls|
    ensures Offered(polls[..q]) == polls[0].inputs + Offered(polls[1..][..q - 1])
    ensures NoSignal(polls[..q]) <==> !polls[0].signal && NoSignal(polls[1..][..q - 1])
  {
    var first, rest := polls[..q], polls[1..][..q - 1];
    assert first[1..] == rest && first == [polls[0]] + rest;
    if NoSignal(first) {
      forall k | 0 <= k < |rest|
        ensures !rest[k].signal
      {
        assert rest[k] == first[k + 1];
      }
    }
  }

  /** A published session serves exactly when the commit is completed before a signal. */
  lemma {:induction false} PublishedServesIff(st: State, polls: seq<Ready>)
    requires st.stage.Published? && ReadSoFar(st.commit, st.seen) && !Settled(st.commit)
    ensures Run(st, polls).stage.Serving? <==> Completes(st.seen, polls)
    decreases |polls|
  {
    hide CommitPoll, ReadSoFar;
    PollReads(st.commit, st.seen, []);
    if polls == [] {
      IncompleteYet(st);
    } else {
      IncompleteYet(st);
      var after, rest := Step(st, polls[0]), polls[1..];
      if !polls[0].signal {
        PollSettlesIff(st.commit, st.seen, polls[0].inputs);
        PollReads(st.commit, st.seen, polls[0].inputs);
        if after.stage.Published? {
          assert polls[0].inputs[..|polls[0].inputs|] == polls[0].inputs;
          PublishedServesIff(after, rest);
        } else {
          EndedStays(after, rest);
        }
      } else {
        EndedStays(after, rest);
      }
      CompletesFirst(st.seen, polls);
    }
  }

  lemma IncompleteYet(st: State)
    requires ReadSoFar(st.commit, st.seen) && !Settled(st.commit)
    ensures Begun(st.seen)
  {
  }

  lemma {:induction false} EndedStays(st: State, polls: seq<Ready>)
    requires st.stage.Stopped? || st.stage.Serving?
    ensures Run(st, polls) == st
    decreases |polls|
  {
    if polls != [] {
      EndedStays(st, polls[1..]);
    }
  }

  /** Completing the commit, seen from its first poll. */
  lemma {:induction false} CompletesFirst(seen: seq<Input>, polls: seq<Ready>)
    requires polls != [] && Begun(seen)
    ensures Completes(seen, polls) <==>
            !polls[0].signal && (Full(seen + polls[0].inputs) || Completes(seen + polls[0].inputs, polls[1..]))
  {
    hide Full, NoSignal, Offered;
    var now, rest := seen + polls[0].inputs, polls[1..];
    if Completes(seen, polls) {
      var q :| 0 <= q <= |polls| && NoSignal(polls[..q]) && Full(seen + Offered(polls[..q]));
      NothingOffered(seen, polls);
      OfferedFirst(polls, q);
      assert seen + Offered(polls[..q]) == now + Offered(rest[..q - 1]);
    }
    if !polls[0].signal && Full(now) {
      OfferedFirst(polls, 1);
      NothingOffered(now, rest);
      assert seen + Offered(polls[..1]) == now + Offered(rest[..0]);
    }
    if !polls[0].signal && Completes(now, rest) {
      var q :| 0 <= q <= |rest| && NoSignal(rest[..q]) && Full(now + Offered(rest[..q]));
      OfferedFirst(polls, q + 1);
      assert seen + Offered(polls[..q + 1]) == now + Offered(rest[..q]);
    }
  }

  lemma NothingOffered(seen: seq<Input>, polls: seq<Ready>)
    ensures seen + Offered(polls[..0]) == seen && NoSignal(polls[..0])
    ensures Begun(seen) ==> !Full(seen)
  {
  }

  /** A session serves by these polls. */
  ghost predicate Serves(seen: seq<Input>, polls: seq<Ready>) {
    exists p: nat :: ServesAfter(seen, polls, p)
  }

  lemma {:induction false} ServesNow(seen: seq<Input>, polls: seq<Ready>)
    requires polls != []
    ensures ServesAfter(seen, polls, 0) <==>
            && !polls[0].signal && Begun(seen + polls[0].inputs) && polls[0].prepared == Some(true)
            && |polls| > 1 && polls[1].written && Completes(seen + polls[0].inputs, polls[2..])
  {
    hide Full, Begun, Completes, NoSignal;
    OfferedFirst(polls, 1);
    NothingOffered([], polls[1..]);
    assert polls[..1] == [polls[0]] && [] + Offered(polls[1..][..0]) == Offered(polls[1..][..0]);
    assert polls[0].inputs + [] == polls[0].inputs;
  }

  lemma {:induction false} ServesLater(seen: seq<Input>, polls: seq<Ready>, p: nat)
    requires polls != [] && p > 0
    ensures ServesAfter(seen, polls, p) <==>
            && !polls[0].signal && Begun(seen + polls[0].inputs) && polls[0].prepared.None?
            && ServesAfter(seen + polls[0].inputs, polls[1..], p - 1)
  {
    hide Full, Completes, NoSignal, Begun, Offered;
    var now, rest := seen + polls[0].inputs, polls[1..];
    if p < |polls| {
      OfferedFirst(polls, p + 1);
      assert seen + Offered(polls[..p + 1]) == now + Offered(rest[..p]);
      BegunBefore(now, Offered(rest[..p]));
      assert p + 2 <= |polls| ==> polls[p + 2..] == rest[p + 1..];
      if forall k :: 0 <= k < p ==> polls[k].prepared.None? {
        forall k | 0 <= k < p - 1
          ensures rest[k].prepared.None?
        {
          assert rest[k] == polls[k + 1];
        }
      }
    }
  }

  lemma BegunBefore(seen: seq<Input>, more: seq<Input>)
    ensures Begun(seen + more) ==> Begun(seen)
  {
    if Begun(seen + more) {
      assert |seen| <= |seen + more|;
      assert seen == (seen + more)[..|seen|];
    }
  }

  lemma {:induction false} PreparingServesIff(st: State, polls: seq<Ready>)
    requires st.stage.Preparing? && ReadSoFar(st.commit, st.seen) && !Settled(st.commit)
    ensures Run(st, polls).stage.Serving? <==> Serves(st.seen, polls)
    decreases |polls|
  {
    hide CommitPoll, ReadSoFar, ServesAfter, Begun, Full;
    if polls != [] {
      var after, rest := Step(st, polls[0]), polls[1..];
      ServesFirst(st.seen, polls);
      PollSettlesIff(st.commit, st.seen, polls[0].inputs);
      PollReads(st.commit, st.seen, polls[0].inputs);
      assert polls[0].inputs[..|polls[0].inputs|] == polls[0].inputs;
      if after.stage.Preparing? {
        PreparingServesIff(after, rest);
      } else if after.stage.Prepared? {
        WrittenServesIff(after, rest);
        assert |polls| > 1 ==> rest[1..] == polls[2..];
      } else {
        EndedStays(after, rest);
      }
    } else {
      NoPollsServe(st.seen, polls);
    }
  }

  lemma NoPollsServe(seen: seq<Input>, polls: seq<Ready>)
    requires polls == []
    ensures !Serves(seen, polls)
  {
  }

  lemma {:induction false} ServesFirst(seen: seq<Input>, polls: seq<Ready>)
    requires polls != []
    ensures Serves(seen, polls) <==>
            && !polls[0].signal && Begun(seen + polls[0].inputs)
            && (|| (&& polls[0].prepared == Some(true) && |polls| > 1 && polls[1].written
                    && Completes(seen + polls[0].inputs, polls[2..]))
                || (polls[0].prepared.None? && Serves(seen + polls[0].inputs, polls[1..])))
  {
    hide ServesAfter, Completes, Begun;
    var now, rest := seen + polls[0].inputs, polls[1..];
    ServesNow(seen, polls);
    if Serves(seen, polls) {
      var p: nat :| ServesAfter(seen, polls, p);
      if p > 0 { ServesLater(seen, polls, p); }
    }
    if Serves(now, rest) {
      var p: nat :| ServesAfter(now, rest, p);
      ServesLater(seen, polls, p + 1);
    }
  }

  lemma {:induction false} WrittenServesIff(st: State, polls: seq<Ready>)
    requires st.stage.Prepared? && ReadSoFar(st.commit, st.seen) && !Settled(st.commit)
    ensures Run(st, polls).stage.Serving? <==> |polls| > 0 && polls[0].written && Completes(st.seen, polls[1..])
  {
    hide ReadSoFar, Completes, ReadMore;
    if polls != [] {
      var after := Step(st, polls[0]);
      if polls[0].written {
        PublishedServesIff(after, polls[1..]);
      } else {
        EndedStays(after, polls[1..]);
      }
    }
  }

  /** A session comes to serve if and only if, without a signal, it is prepared while the commit is
      still incomplete, writes its outputs, and then reads the rest of the commit: the byte and the
      end of the input, however they are spread over the polls. */
  lemma {:induction false} ServesIff(polls: seq<Ready>)
    ensures Run(INIT, polls).stage.Serving? <==> Serves([], polls)
  {
    hide Run, Serves;
    PreparingServesIff(INIT, polls);
  }
}
