/** The audit trail of one cache mutation batch. */
module Audit {
  import opened Bytes

  type Id = ByteString

  const USIZE_MAX: nat := 0xFFFF_FFFF_FFFF_FFFF

  datatype MutationOp = OpSign | OpReplace | OpRemove

  datatype SignatureSource = NotApplicable | ProducedNow | Reused

  datatype Counts = Counts(
    selected: nat, durableCommits: nat, untouched: nat, previewChanges: nat,
    produced: nat, reused: nat, installed: nat)

  /** The fields every event carries. */
  datatype Header = Header(
    op: MutationOp, batchId: Id, dryRun: bool, selectAll: bool,
    keyId: Option<ByteString>, keyName: Option<ByteString>, backendVersion: Option<nat>)

  datatype Ending = Completed | Failed(reason: string) | CancelledBy(signal: string) | TaskCancelled

  datatype Body =
    | Started
    | PathCommit(storePath: ByteString, fingerprint: Option<ByteString>, requestId: Option<Id>,
                 source: SignatureSource, installed: bool)
    | Ended(how: Ending, counts: Counts)

  datatype Event = Event(header: Header, body: Body)

  datatype State = State(header: Header, counts: Counts, terminal: bool, events: seq<Event>)

  function SaturatingIncrement(n: nat): (r: nat) {
    if n < USIZE_MAX then n + 1 else n
  }

  function Emit(st: State, body: Body): (r: State) {
    st.(events := st.events + [Event(st.header, body)])
  }

  function Start(op: MutationOp, batchId: Id, dryRun: bool, selectAll: bool, keyId: Option<ByteString>): (r: State) {
    Emit(State(Header(op, batchId, dryRun, selectAll, keyId, None, None), Counts(0, 0, 0, 0, 0, 0, 0), false, []),
         Started)
  }

  function SetIdentity(st: State, keyName: ByteString, backendVersion: nat): (r: State) {
    st.(header := st.header.(keyName := Some(keyName), backendVersion := Some(backendVersion)))
  }

  function SetSelected(st: State, selected: nat): (r: State) {
    st.(counts := st.counts.(selected := selected))
  }

  function CountUnchanged(st: State): (r: State) {
    st.(counts := st.counts.(untouched := SaturatingIncrement(st.counts.untouched)))
  }

  function PreviewChange(st: State): (r: State) {
    st.(counts := st.counts.(previewChanges := SaturatingIncrement(st.counts.previewChanges)))
  }

  function SignatureObserved(st: State, source: SignatureSource): (r: State) {
    match source
    case NotApplicable => st
    case ProducedNow => st.(counts := st.counts.(produced := SaturatingIncrement(st.counts.produced)))
    case Reused => st.(counts := st.counts.(reused := SaturatingIncrement(st.counts.reused)))
  }

  function DurableCommit(st: State, commit: Body): (r: State)
    requires commit.PathCommit?
  {
    var counts := st.counts.(durableCommits := SaturatingIncrement(st.counts.durableCommits));
    Emit(st.(counts := if commit.installed then counts.(installed := SaturatingIncrement(counts.installed))
             else counts), commit)
  }

  function End(st: State, how: Ending): (r: State) {
    Emit(st, Ended(how, st.counts)).(terminal := true)
  }

  /** What dropping the audit does: the missing terminal event, and nothing if it was written. */
  function Drop(st: State): (r: State) {
    if st.terminal then st else End(st, TaskCancelled)
  }

  // ---------------------------------------------------------------- the trace grammar

  predicate IsCommit(e: Event) {
    e.body.PathCommit?
  }

  /** A trail still open: one start, then path commits only, as many as are counted. */
  predicate Open(st: State) {
    && !st.terminal
    && |st.events| >= 1 && st.events[0].body == Started
    && (forall i :: 1 <= i < |st.events| ==> IsCommit(st.events[i]))
    && st.counts.durableCommits == |st.events| - 1
    && (forall i :: 0 <= i < |st.events| ==> st.events[i].header.batchId == st.header.batchId)
  }

  /** A closed trail: one start, path commits, one terminal event that counts them. */
  predicate Closed(st: State) {
    && st.terminal
    && |st.events| >= 2 && st.events[0].body == Started
    && (forall i :: 1 <= i < |st.events| - 1 ==> IsCommit(st.events[i]))
    && (forall i :: 0 <= i < |st.events| ==> st.events[i].header.batchId == st.header.batchId)
    && st.counts.durableCommits == |st.events| - 2
    && st.events[|st.events| - 1].body.Ended?
    && st.events[|st.events| - 1].body.counts == st.counts
  }

  lemma CommitKeepsOpen(st: State, commit: Body)
    requires Open(st) && commit.PathCommit? && st.counts.durableCommits < USIZE_MAX
    ensures Open(DurableCommit(st, commit))
  {
  }

  /** Ending an open trail closes it, whatever the ending. */
  lemma EndCloses(st: State, how: Ending)
    requires Open(st)
    ensures Closed(End(st, how)) && Drop(End(st, how)) == End(st, how)
    ensures End(st, how).events[|st.events|].body == Ended(how, st.counts)
  {
  }

  /** Dropping adds a terminal event exactly when there is none. */
  lemma DropCloses(st: State)
    requires Open(st) || Closed(st)
    ensures Closed(Drop(st))
    ensures Open(st) ==> Drop(st) == End(st, TaskCancelled)
    ensures Closed(st) ==> Drop(st) == st
  {
    if Open(st) {
      EndCloses(st, TaskCancelled);
    }
  }

  // ---------------------------------------------------------------------- the object

  /** `BatchAudit`: the counters and identity fields, and the sink the events go to. */
  class BatchAudit {
    var header: Header
    var counts: Counts
    var terminal: bool
    var sink: seq<Event>

    function Value(): State
      reads this
    {
      State(header, counts, terminal, sink)
    }

    constructor (op: MutationOp, batchId: Id, dryRun: bool, selectAll: bool, keyId: Option<ByteString>)
      ensures Value() == Start(op, batchId, dryRun, selectAll, keyId)
      ensures Open(Value())
    {
      header := Header(op, batchId, dryRun, selectAll, keyId, None, None);
      counts := Counts(0, 0, 0, 0, 0, 0, 0);
      terminal := false;
      sink := [];
      new;
      EmitEvent(Started);
    }

    method EmitEvent(body: Body)
      modifies this
      ensures Value() == Emit(old(Value()), body)
    {
      sink := sink + [Event(header, body)];
    }

    method RecordIdentity(keyName: ByteString, backendVersion: nat)
      modifies this
      ensures Value() == SetIdentity(old(Value()), keyName, backendVersion)
    {
      header := header.(keyName := Some(keyName), backendVersion := Some(backendVersion));
    }

    method RecordSelected(selected: nat)
      modifies this
      ensures Value() == SetSelected(old(Value()), selected)
    {
      counts := counts.(selected := selected);
    }

    method RecordUnchanged()
      modifies this
      ensures Value() == CountUnchanged(old(Value()))
    {
      counts := counts.(untouched := SaturatingIncrement(counts.untouched));
    }

    method RecordPreviewChange()
      modifies this
      ensures Value() == PreviewChange(old(Value()))
    {
      counts := counts.(previewChanges := SaturatingIncrement(counts.previewChanges));
    }

    method RecordSignature(source: SignatureSource)
      modifies this
      ensures Value() == SignatureObserved(old(Value()), source)
    {
      match source
      case NotApplicable =>
      case ProducedNow => counts := counts.(produced := SaturatingIncrement(counts.produced));
      case Reused => counts := counts.(reused := SaturatingIncrement(counts.reused));
    }

    method RecordCommit(storePath: ByteString, fingerprint: Option<ByteString>, requestId: Option<Id>,
                        source: SignatureSource, installed: bool)
      modifies this
      ensures Value() == DurableCommit(old(Value()), PathCommit(storePath, fingerprint, requestId, source, installed))
      ensures old(Open(Value())) && old(counts.durableCommits) < USIZE_MAX ==> Open(Value())
    {
      counts := counts.(durableCommits := SaturatingIncrement(counts.durableCommits));
      if installed {
        counts := counts.(installed := SaturatingIncrement(counts.installed));
      }
      EmitEvent(PathCommit(storePath, fingerprint, requestId, source, installed));
    }

    method Terminate(how: Ending)
      modifies this
      ensures Value() == End(old(Value()), how)
      ensures old(Open(Value())) ==> Closed(Value())
    {
      EmitEvent(Ended(how, counts));
      terminal := true;
    }

    /** Run when the audit goes out of scope, at any await point or after the batch; a drop
        during a panic writes nothing. */
    method Release(panicking: bool)
      modifies this
      ensures Value() == if panicking then old(Value()) else Drop(old(Value()))
      ensures old(Open(Value()) || Closed(Value())) ==> (Closed(Value()) <==> old(terminal) || !panicking)
    {
      if !terminal && !panicking {
        Terminate(TaskCancelled);
      }
    }
  }
}
