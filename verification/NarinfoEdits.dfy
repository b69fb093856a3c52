/** What the `.narinfo` mutations do to a record, for every record and mutation. */
module NarinfoEdits {
  import opened Bytes
  import opened Sequences
  import opened Narinfo

  // ------------------------------------------------------------------- filtering

  lemma {:induction false} FilterIsLineSeq(p: ByteString -> bool, lines: seq<ByteString>)
    requires IsLineSeq(lines)
    ensures IsLineSeq(Filter(p, lines))
    decreases |lines|
  {
    if lines != [] {
      FilterIsLineSeq(p, lines[1..]);
      var rest := Filter(p, lines[1..]);
      if p(lines[0]) {
        assert Filter(p, lines) == [lines[0]] + rest;
        if |lines| == 1 {
          assert rest == [];
        }
      } else {
        assert Filter(p, lines) == rest;
      }
    }
  }

  lemma {:induction false} FilterShrinks(p: ByteString -> bool, lines: seq<ByteString>)
    ensures TotalLength(Filter(p, lines)) <= TotalLength(lines)
    decreases |lines|
  {
    if lines != [] {
      FilterShrinks(p, lines[1..]);
      if p(lines[0]) {
        assert Filter(p, lines)[1..] == Filter(p, lines[1..]);
      } else {
        assert Filter(p, lines) == Filter(p, lines[1..]);
      }
    }
  }

  lemma {:induction false} ContentsOfFilter(p: ByteString -> bool, lines: seq<ByteString>)
    ensures Contents(Filter(OnContent(p), lines)) == Filter(p, Contents(lines))
    decreases |lines|
  {
    hide Content;
    if lines != [] {
      ContentsOfFilter(p, lines[1..]);
      assert Contents(lines)[1..] == Contents(lines[1..]);
      var rest := Filter(OnContent(p), lines[1..]);
      if p(Content(lines[0])) {
        assert Filter(OnContent(p), lines) == [lines[0]] + rest;
        assert Contents([lines[0]] + rest) == [Content(lines[0])] + Contents(rest);
      } else {
        assert Filter(OnContent(p), lines) == rest;
      }
    }
  }

  lemma LinesFiltered(s: ByteString, names: seq<ByteString>)
    ensures Lines(Filtered(s, names)) == Keep(Lines(s), names)
    ensures Contents(Lines(Filtered(s, names))) == Filter(KeptBy(names), Contents(Lines(s)))
    ensures |Filtered(s, names)| <= |s|
  {
    hide KeptBy, OnContent, Lines, IsLineSeq;
    LinesPartition(s);
    FilterIsLineSeq(OnContent(KeptBy(names)), Lines(s));
    FilterShrinks(OnContent(KeptBy(names)), Lines(s));
    LinesOfFlatten(Keep(Lines(s), names));
    ContentsOfFilter(KeptBy(names), Lines(s));
  }

  /** Filtering drops the named keys' signatures, keeps every other key's, and keeps
      every line that is not a signature, in order. */
  lemma FilteredContents(s: ByteString, names: seq<ByteString>, key: ByteString)
    ensures var c, c' := Contents(Lines(s)), Contents(Lines(Filtered(s, names)));
            && UnsignedLines(c') == UnsignedLines(c)
            && SignaturesBy(c', key) == if key in names then [] else SignaturesBy(c, key)
  {
    hide SignatureKey, Lines, Contents, Filtered;
    var c := Contents(Lines(s));
    LinesFiltered(s, names);
    FilterImplied(UnsignedLine(), KeptBy(names), c);
    if key in names {
      FilterExcluded(SignedBy(key), KeptBy(names), c);
    } else {
      FilterImplied(SignedBy(key), KeptBy(names), c);
    }
  }

  lemma FilteredAllKept(s: ByteString, names: seq<ByteString>)
    ensures forall c :: c in Contents(Lines(Filtered(s, names))) ==> KeptBy(names)(c)
  {
    hide KeptBy, Lines, Contents, Filtered;
    LinesFiltered(s, names);
    FilterMember(KeptBy(names), Contents(Lines(s)));
  }

  /** A record all of whose lines are kept is its own filtered form. */
  lemma FilteredOfKept(s: ByteString, names: seq<ByteString>)
    requires forall c :: c in Contents(Lines(s)) ==> KeptBy(names)(c)
    ensures Filtered(s, names) == s
  {
    hide KeptBy, Lines;
    LinesPartition(s);
    var lines := Lines(s);
    forall l | l in lines
      ensures OnContent(KeptBy(names))(l)
    {
      var i :| 0 <= i < |lines| && lines[i] == l;
      assert Contents(lines)[i] == Content(l);
    }
    FilterAll(OnContent(KeptBy(names)), lines);
  }

  // ------------------------------------------------------------------- inserting

  function NewLine(signature: ByteString, terminated: bool): (r: ByteString) {
    SIG + signature + (if terminated then [NL] else [])
  }

  lemma NewLineIsLine(signature: ByteString, terminated: bool)
    requires NL !in signature
    ensures IsLine(NewLine(signature, terminated))
    ensures Terminated(NewLine(signature, terminated)) == terminated
    ensures Content(NewLine(signature, terminated)) == SIG + signature
  {
    var body := SIG + signature;
    assert forall i :: 0 <= i < |body| ==> body[i] != NL;
    assert (body + [NL])[..|body|] == body;
  }

  /** The lines with a newline put after the last one if it had none. */
  function Terminate(lines: seq<ByteString>): (r: seq<ByteString>)
    ensures |r| == |lines|
  {
    if lines == [] || Terminated(lines[|lines| - 1]) then lines
    else lines[..|lines| - 1] + [lines[|lines| - 1] + [NL]]
  }

  lemma TerminateLine(line: ByteString)
    requires IsLine(line) && !Terminated(line)
    ensures IsLine(line + [NL]) && Terminated(line + [NL])
    ensures Content(line + [NL]) == Content(line)
  {
  }

  lemma TerminateLines(lines: seq<ByteString>)
    requires IsLineSeq(lines)
    ensures Contents(Terminate(lines)) == Contents(lines)
    ensures IsLineSeq(Terminate(lines))
    ensures forall i :: 0 <= i < |lines| ==> Terminated(Terminate(lines)[i])
  {
    hide Content, IsLine, Terminated;
    if lines != [] && !Terminated(lines[|lines| - 1]) {
      TerminateLine(lines[|lines| - 1]);
    }
  }

  lemma TerminateBytes(lines: seq<ByteString>)
    requires IsLineSeq(lines)
    ensures Flatten(Terminate(lines))
            == Flatten(lines) + (if lines == [] || Terminated(Flatten(lines)) then [] else [NL])
  {
    if lines != [] {
      TerminatedByLastLine(lines);
      var n := |lines| - 1;
      var last := lines[n];
      if !Terminated(last) {
        FlattenSnoc(lines[..n], last + [NL]);
        FlattenSnoc(lines[..n], last);
        assert lines == lines[..n] + [last];
        assert Flatten(lines[..n]) + (last + [NL]) == (Flatten(lines[..n]) + last) + [NL];
      }
    }
  }

  /** The insertion point is the end of a record whose last line has no newline. */
  predicate InsertsAtOpenEnd(s: ByteString) {
    InsertAt(Lines(s)) == |Lines(s)| && !Terminated(s)
  }

  function InsertedLines(s: ByteString, signature: ByteString): (r: seq<ByteString>) {
    var lines := Lines(s);
    var k := InsertAt(lines);
    Terminate(lines[..k]) + [NewLine(signature, !InsertsAtOpenEnd(s))] + lines[k..]
  }

  lemma SplitLineSeq(lines: seq<ByteString>, k: nat)
    requires IsLineSeq(lines) && k <= |lines|
    ensures IsLineSeq(lines[..k]) && IsLineSeq(lines[k..])
    ensures Flatten(lines) == Flatten(lines[..k]) + Flatten(lines[k..])
    ensures Flatten(lines[k..]) == [] <==> k == |lines|
    ensures k < |lines| ==> Terminate(lines[..k]) == lines[..k]
  {
    hide IsLine, Terminated, Flatten;
    assert lines == lines[..k] + lines[k..];
    FlattenAppend(lines[..k], lines[k..]);
    if k < |lines| {
      TerminatedByLastLine(lines[k..]);
    } else {
      NoBytes(lines[k..]);
    }
  }

  lemma NoBytes(lines: seq<ByteString>)
    requires lines == []
    ensures Flatten(lines) == []
  {
  }

  lemma LinesNonEmpty(s: ByteString)
    requires s != []
    ensures Lines(s) != []
  {
  }

  lemma InsertionSplit(s: ByteString)
    ensures var lines, k := Lines(s), InsertAt(Lines(s));
            && s[..InsertionOffset(s)] == Flatten(lines[..k])
            && s[InsertionOffset(s)..] == Flatten(lines[k..])
            && (InsertionOffset(s) == |s| <==> k == |lines|)
  {
    hide InsertAt, Lines, IsLineSeq, Terminate;
    LinesPartition(s);
    SplitLineSeq(Lines(s), InsertAt(Lines(s)));
  }

  /** The byte-level insertion is exactly one line added to the line sequence. */
  lemma InsertedAsLines(s: ByteString, signature: ByteString)
    requires s != []
    ensures Inserted(s, signature) == Flatten(InsertedLines(s, signature))
  {
    hide InsertAt, Lines, IsLineSeq, Terminated, InsertionOffset, Terminate, Flatten;
    var lines, k := Lines(s), InsertAt(Lines(s));
    LinesPartition(s);
    InsertionSplit(s);
    SplitLineSeq(lines, k);
    TerminateBytes(lines[..k]);
    var line := NewLine(signature, !InsertsAtOpenEnd(s));
    FlattenAppend(Terminate(lines[..k]) + [line], lines[k..]);
    FlattenSnoc(Terminate(lines[..k]), line);
    LinesNonEmpty(s);
    if k == |lines| {
      assert lines[..k] == lines;
    }
  }

  lemma InsertedIsLineSeq(s: ByteString, signature: ByteString)
    requires NL !in signature
    ensures IsLineSeq(InsertedLines(s, signature))
  {
    hide InsertAt, Lines, Terminate, NewLine, IsLine, Terminated;
    var lines, k := Lines(s), InsertAt(Lines(s));
    LinesPartition(s);
    SplitLineSeq(lines, k);
    TerminateLines(lines[..k]);
    var open := InsertsAtOpenEnd(s);
    NewLineIsLine(signature, !open);
    var out := InsertedLines(s, signature);
    forall i | 0 <= i < |out|
      ensures IsLine(out[i]) && (i < |out| - 1 ==> Terminated(out[i]))
    {
      if i > k {
        assert out[i] == lines[k..][i - k - 1];
      }
    }
  }

  lemma ContentsAppend(a: seq<ByteString>, b: seq<ByteString>)
    ensures Contents(a + b) == Contents(a) + Contents(b)
  {
    hide Content;
  }

  lemma ContentsSplit(lines: seq<ByteString>, k: nat)
    requires k <= |lines|
    ensures Contents(lines)[..k] == Contents(lines[..k]) && Contents(lines)[k..] == Contents(lines[k..])
  {
    hide Content;
  }

  lemma ContentsOne(line: ByteString)
    ensures Contents([line]) == [Content(line)]
  {
    hide Content;
  }

  lemma InsertedContents(s: ByteString, signature: ByteString)
    requires s != [] && NL !in signature
    ensures Lines(Inserted(s, signature)) == InsertedLines(s, signature)
    ensures var c, k := Contents(Lines(s)), InsertAt(Lines(s));
            Contents(Lines(Inserted(s, signature))) == c[..k] + [SIG + signature] + c[k..]
  {
    hide InsertAt, Lines, Terminate, NewLine, IsLineSeq, Terminated, Content, Inserted, Contents, Flatten;
    var lines, k := Lines(s), InsertAt(Lines(s));
    LinesPartition(s);
    InsertedAsLines(s, signature);
    InsertedIsLineSeq(s, signature);
    LinesOfFlatten(InsertedLines(s, signature));
    SplitLineSeq(lines, k);
    TerminateLines(lines[..k]);
    var line := NewLine(signature, !InsertsAtOpenEnd(s));
    NewLineIsLine(signature, !InsertsAtOpenEnd(s));
    ContentsAppend(Terminate(lines[..k]) + [line], lines[k..]);
    ContentsAppend(Terminate(lines[..k]), [line]);
    ContentsOne(line);
    ContentsSplit(lines, k);
  }

  /** Inserting adds one signature after its key's others and touches no other key's. */
  lemma InsertedSignatures(s: ByteString, signature: ByteString, key: ByteString)
    requires s != [] && NL !in signature
    ensures var c, c' := Contents(Lines(s)), Contents(Lines(Inserted(s, signature)));
            && UnsignedLines(c') == UnsignedLines(c)
            && SignaturesBy(c', key)
               == SignaturesBy(c, key) + (if SignatureKey(signature) == Some(key) then [SIG + signature] else [])
  {
    hide Lines, Contents, Inserted, SignatureKey, InsertAt, Filter, InsertedLines;
    var c, k := Contents(Lines(s)), InsertAt(Lines(s));
    InsertedContents(s, signature);
    SplicedSignatures(c, k, signature, key);
    NoSignaturesAfterInsertion(s, key);
    assert Filter(SignedBy(key), c[..k]) + [] == Filter(SignedBy(key), c[..k]);
  }

  /** What a new signature line does to the lines of each kind, put in at `k`. */
  lemma SplicedSignatures(c: seq<ByteString>, k: nat, signature: ByteString, key: ByteString)
    requires k <= |c|
    ensures var c', before, after := c[..k] + [SIG + signature] + c[k..], SignaturesBy(c[..k], key),
            SignaturesBy(c[k..], key);
            && UnsignedLines(c') == UnsignedLines(c) && SignaturesBy(c, key) == before + after
            && SignaturesBy(c', key) == before
               + (if SignatureKey(signature) == Some(key) then [SIG + signature] else []) + after
  {
    hide SignatureKey, Filter;
    var line := SIG + signature;
    assert c == c[..k] + c[k..];
    FilterAppend(SignedBy(key), c[..k], c[k..]);
    FilterInsert(UnsignedLine(), c[..k], line, c[k..]);
    FilterInsert(SignedBy(key), c[..k], line, c[k..]);
    assert line[|SIG|..] == signature;
  }

  lemma NoSignaturesAfterInsertion(s: ByteString, key: ByteString)
    ensures SignaturesBy(Contents(Lines(s))[InsertAt(Lines(s))..], key) == []
  {
    hide Lines, SignatureKey, Content, Filter;
    var lines, k := Lines(s), InsertAt(Lines(s));
    var tail := Contents(lines)[k..];
    forall c | c in tail
      ensures !SignedBy(key)(c)
    {
      var i :| 0 <= i < |tail| && tail[i] == c;
      assert c == Content(lines[k + i]);
    }
    FilterNone(SignedBy(key), tail);
  }

  // ---------------------------------------------------------------- the mutations

  lemma InsertedLength(s: ByteString, signature: ByteString)
    requires s != []
    ensures |Inserted(s, signature)| == |s| + |signature| + 6
  {
  }

  lemma ValidIsNonEmpty(s: ByteString)
    requires ValidNarinfo(s)
    ensures s != []
  {
  }

  lemma NarHashesUnsigned(contents: seq<ByteString>)
    ensures Filter(NarHashLine(), contents) == Filter(NarHashLine(), UnsignedLines(contents))
  {
    forall c | c in contents && NarHashLine()(c)
      ensures UnsignedLine()(c)
    {
      assert c[0] == NAR_HASH[0] != SIG[0];
    }
    FilterImplied(NarHashLine(), UnsignedLine(), contents);
  }

  lemma {:induction false} FlattenBytes(lines: seq<ByteString>, b: Byte)
    ensures b in Flatten(lines) <==> exists l :: l in lines && b in l
    decreases |lines|
  {
    if lines != [] {
      FlattenBytes(lines[1..], b);
      assert forall l :: l in lines <==> l == lines[0] || l in lines[1..];
    }
  }

  lemma FilteredValid(s: ByteString, names: seq<ByteString>)
    requires ValidNarinfo(s)
    ensures ValidNarinfo(Filtered(s, names))
    ensures |Filtered(s, names)| <= |s|
  {
    hide Lines, Contents, Filtered, WellFormedLine, KeptBy, OnContent;
    var f, c := Filtered(s, names), Contents(Lines(s));
    LinesFiltered(s, names);
    FilteredContents(s, names, []);
    NarHashesUnsigned(c);
    NarHashesUnsigned(Contents(Lines(f)));
    FilterMember(KeptBy(names), c);
    FilterMember(OnContent(KeptBy(names)), Lines(s));
    forall i | 0 <= i < |Contents(Lines(f))|
      ensures WellFormedLine(Contents(Lines(f))[i])
    {
      assert Contents(Lines(f))[i] in c;
    }
    LinesPartition(s);
    LinesPartition(f);
    FlattenBytes(Lines(s), CR);
    FlattenBytes(Lines(f), CR);
  }

  lemma InsertedValid(s: ByteString, signature: ByteString)
    requires ValidNarinfo(s) && ValidSignatureArgument(signature)
    requires |s| + |signature| + 6 <= MAX_NARINFO_BYTES
    ensures ValidNarinfo(Inserted(s, signature))
  {
    hide Lines, Contents, InsertAt, SignatureKey, WellFormedLine, Inserted, SignaturesBy;
    ValidIsNonEmpty(s);
    InsertedLength(s, signature);
    InsertedContents(s, signature);
    InsertedSignatures(s, signature, []);
    var out := Inserted(s, signature);
    var c, c', k := Contents(Lines(s)), Contents(Lines(out)), InsertAt(Lines(s));
    NarHashesUnsigned(c);
    NarHashesUnsigned(c');
    SignatureIsWellFormed(signature);
    forall i | 0 <= i < |c'|
      ensures WellFormedLine(c'[i])
    {
      if i < k {
        assert c'[i] == c[i];
      } else if i > k {
        assert c'[i] == c[i - 1];
      }
    }
    InsertedBytes(s, signature, CR);
  }

  lemma InsertedBytes(s: ByteString, signature: ByteString, b: Byte)
    requires b != NL && b !in SIG && b !in s && b !in signature
    ensures b !in Inserted(s, signature)
  {
    hide InsertionOffset;
  }

  lemma SignatureIsWellFormed(signature: ByteString)
    requires SignatureKey(signature).Some?
    ensures WellFormedLine(SIG + signature)
  {
    var line := SIG + signature;
    assert line[0] == SIG[0] != NAR_HASH[0];
    assert line[|SIG|..] == signature;
  }

  /** Every accepted edit of a valid record yields a valid record, so the commit's own
      validation never refuses an edit. */
  lemma EditKeepsValidity(s: ByteString, m: Mutation)
    requires EditNarinfo(s, m).Success?
    ensures ValidNarinfo(s) && ValidNarinfo(Apply(EditNarinfo(s, m).value, s))
  {
    hide Lines, Contents, Filtered, Inserted, ValidNarinfo;
    match m
    case Add(signature) =>
      if AddSignature(s, signature).value.Changed? {
        InsertedValid(s, signature);
      }
    case Remove(names) =>
      FilteredValid(s, names);
    case Replace(names, signature) =>
      FilteredValid(s, names);
      var f := Filtered(s, names);
      if AddSignature(f, signature).value.Changed? {
        InsertedValid(f, signature);
      }
  }

  function RemovedNames(m: Mutation): seq<ByteString> {
    match m case Add(_) => [] case Replace(names, _) => names case Remove(names) => names
  }

  function AddedSignature(m: Mutation): Option<ByteString> {
    match m case Add(v) => Some(v) case Replace(_, v) => Some(v) case Remove(_) => None
  }

  lemma AddEffect(s: ByteString, signature: ByteString, key: ByteString)
    requires s != [] && AddSignature(s, signature).Success?
    ensures var c, c' := Contents(Lines(s)), Contents(Lines(Apply(AddSignature(s, signature).value, s)));
            && UnsignedLines(c') == UnsignedLines(c)
            && (if SignatureKey(signature) == Some(key) then
                  && SignaturesBy(c', key) != [] && AllEqual(SignaturesBy(c', key), SIG + signature)
                  && (SignaturesBy(c, key) == [] ==> SignaturesBy(c', key) == [SIG + signature])
                else SignaturesBy(c', key) == SignaturesBy(c, key))
  {
    hide Lines, Contents, Inserted, SignaturesBy, UnsignedLines, SignatureKey;
    if AddSignature(s, signature).value.Changed? {
      InsertedSignatures(s, signature, key);
    }
  }

  /** What an accepted edit does to the record, key by key: every line that is not a
      signature survives in order; a named key loses all its signatures; the added key
      ends up with nothing but the added value; any other key keeps its list. */
  lemma EditEffect(s: ByteString, m: Mutation, key: ByteString)
    requires EditNarinfo(s, m).Success?
    ensures var c, c' := Contents(Lines(s)), Contents(Lines(Apply(EditNarinfo(s, m).value, s)));
            var added := AddedSignature(m);
            && UnsignedLines(c') == UnsignedLines(c)
            && (if added.Some? && SignatureKey(added.value) == Some(key) then
                  && SignaturesBy(c', key) != [] && AllEqual(SignaturesBy(c', key), SIG + added.value)
                  && (key in RemovedNames(m) || SignaturesBy(c, key) == [] ==>
                        SignaturesBy(c', key) == [SIG + added.value])
                else if key in RemovedNames(m) then SignaturesBy(c', key) == []
                else SignaturesBy(c', key) == SignaturesBy(c, key))
  {
    hide Lines, Contents, Inserted, Filtered, SignaturesBy, UnsignedLines, SignatureKey, ValidNarinfo, AddSignature;
    ValidIsNonEmpty(s);
    match m
    case Add(signature) =>
      AddEffect(s, signature, key);
    case Remove(names) =>
      FilteredContents(s, names, key);
    case Replace(names, signature) =>
      FilteredValid(s, names);
      FilteredContents(s, names, key);
      ValidIsNonEmpty(Filtered(s, names));
      AddEffect(Filtered(s, names), signature, key);
  }

  // --------------------------------------------------------- idempotence, undoing

  /** Adding or removing a second time changes nothing. */
  lemma AddAndRemoveSettle(s: ByteString, m: Mutation)
    requires !m.Replace? && EditNarinfo(s, m).Success?
    ensures EditNarinfo(Apply(EditNarinfo(s, m).value, s), m) == Success(Unchanged)
  {
    hide Lines, Contents, Inserted, Filtered, SignaturesBy, UnsignedLines, SignatureKey, WellFormedLine;
    EditKeepsValidity(s, m);
    ValidIsKeyed(Apply(EditNarinfo(s, m).value, s));
    match m
    case Add(signature) =>
      EditEffect(s, m, SignatureKey(signature).value);
    case Remove(names) =>
      FilteredAllKept(s, names);
      FilteredOfKept(Filtered(s, names), names);
  }

  lemma ValidIsKeyed(s: ByteString)
    requires ValidNarinfo(s)
    ensures KeyedLines(Contents(Lines(s)))
    ensures |s| <= MAX_NARINFO_BYTES
  {
    hide Lines, Contents, LineKey;
  }

  /** Removing the key just added brings the record back, plus a newline when the
      insertion had to terminate its last line. */
  lemma FilteredInserted(s: ByteString, signature: ByteString, names: seq<ByteString>)
    requires s != [] && NL !in signature
    requires SignatureKey(signature).Some? && SignatureKey(signature).value in names
    requires forall c :: c in Contents(Lines(s)) ==> KeptBy(names)(c)
    ensures Filtered(Inserted(s, signature), names) == s + (if InsertsAtOpenEnd(s) then [NL] else [])
  {
    hide Lines, Inserted, InsertAt, SignatureKey, Terminate, NewLine, Content, Terminated, Contents, Flatten, Filter,
         KeptBy, IsLineSeq;
    var lines, k := Lines(s), InsertAt(Lines(s));
    LinesPartition(s);
    SplitLineSeq(lines, k);
    InsertedContents(s, signature);
    var line := NewLine(signature, !InsertsAtOpenEnd(s));
    NewLineDropped(signature, !InsertsAtOpenEnd(s), names);
    FilterInsert(OnContent(KeptBy(names)), Terminate(lines[..k]), line, lines[k..]);
    var rest := Terminate(lines[..k]) + lines[k..];
    RestContents(lines, k);
    AllKept(rest, Contents(lines), names);
    FilterAll(OnContent(KeptBy(names)), rest);
    FlattenAppend(Terminate(lines[..k]), lines[k..]);
    RestBytes(s);
  }

  lemma NewLineDropped(signature: ByteString, terminated: bool, names: seq<ByteString>)
    requires NL !in signature && SignatureKey(signature).Some? && SignatureKey(signature).value in names
    ensures !OnContent(KeptBy(names))(NewLine(signature, terminated))
  {
    hide NewLine, SignatureKey, Content;
    NewLineIsLine(signature, terminated);
    assert (SIG + signature)[|SIG|..] == signature;
  }

  lemma RestContents(lines: seq<ByteString>, k: nat)
    requires IsLineSeq(lines) && k <= |lines|
    ensures Contents(Terminate(lines[..k]) + lines[k..]) == Contents(lines)
  {
    hide Terminate, IsLineSeq, Contents, Flatten;
    SplitLineSeq(lines, k);
    TerminateLines(lines[..k]);
    ContentsAppend(Terminate(lines[..k]), lines[k..]);
    ContentsAppend(lines[..k], lines[k..]);
    assert lines == lines[..k] + lines[k..];
  }

  lemma AllKept(rest: seq<ByteString>, contents: seq<ByteString>, names: seq<ByteString>)
    requires Contents(rest) == contents && forall c :: c in contents ==> KeptBy(names)(c)
    ensures forall l :: l in rest ==> OnContent(KeptBy(names))(l)
  {
    hide Content, KeptBy;
    forall l | l in rest
      ensures OnContent(KeptBy(names))(l)
    {
      var i :| 0 <= i < |rest| && rest[i] == l;
      assert contents[i] in contents;
    }
  }

  /** The lines of a record with the last one before the insertion point terminated. */
  lemma RestBytes(s: ByteString)
    requires s != []
    ensures var lines, k := Lines(s), InsertAt(Lines(s));
            Flatten(Terminate(lines[..k])) + Flatten(lines[k..]) == s + (if InsertsAtOpenEnd(s) then [NL] else [])
  {
    hide Lines, InsertAt, Terminate, Terminated, Flatten, IsLineSeq;
    var lines, k := Lines(s), InsertAt(Lines(s));
    LinesPartition(s);
    LinesNonEmpty(s);
    SplitLineSeq(lines, k);
    if k == |lines| {
      assert lines[..k] == lines && lines[k..] == [];
      NoBytes(lines[k..]);
      TerminateBytes(lines);
    } else {
      assert s + [] == s;
    }
  }

  /** A record that a second replace leaves alone, checked on the record before the first. */
  predicate ReplaceSettles(s: ByteString, names: seq<ByteString>, key: ByteString) {
    key in names ==> !InsertsAtOpenEnd(Filtered(s, names))
  }

  /** Replacing a key by itself always inserts into the filtered record. */
  lemma ReplaceOfRemovedKey(s: ByteString, names: seq<ByteString>, signature: ByteString)
    requires ValidNarinfo(s) && ValidSignatureArgument(signature)
    requires SignatureKey(signature).value in names
    ensures var f := Filtered(s, names);
            AddSignature(f, signature)
            == if |f| + |signature| + 6 > MAX_NARINFO_BYTES then Failure(NarinfoTooLarge)
               else Success(Changed(Inserted(f, signature)))
  {
    hide Lines, Contents, Inserted, Filtered, SignaturesBy, UnsignedLines, SignatureKey, WellFormedLine;
    FilteredValid(s, names);
    ValidIsKeyed(Filtered(s, names));
    FilteredContents(s, names, SignatureKey(signature).value);
  }

  lemma ReplaceWhenKeyRemoved(s: ByteString, names: seq<ByteString>, signature: ByteString)
    requires SignatureKey(signature).Some? && SignatureKey(signature).value in names
    requires EditNarinfo(s, Replace(names, signature)).Success?
    ensures EditNarinfo(Apply(EditNarinfo(s, Replace(names, signature)).value, s), Replace(names, signature))
            == Success(Unchanged)
            <==> !InsertsAtOpenEnd(Filtered(s, names))
  {
    hide Lines, Contents, Filtered, SignatureKey, ValidNarinfo, AddSignature, Inserted, InsertsAtOpenEnd, KeptBy;
    var m := Replace(names, signature);
    var f := Filtered(s, names);
    FilteredValid(s, names);
    ValidIsNonEmpty(f);
    ReplaceOfRemovedKey(s, names, signature);
    var out := Inserted(f, signature);
    EditKeepsValidity(s, m);
    FilteredAllKept(s, names);
    FilteredInserted(f, signature, names);
    ReplaceOfRemovedKey(out, names, signature);
    ValidIsKeyed(out);
    if InsertsAtOpenEnd(f) {
      InsertedLength(f + [NL], signature);
      InsertedLength(f, signature);
    } else {
      assert f + [] == f;
    }
  }

  lemma InsertedAllKept(s: ByteString, signature: ByteString, names: seq<ByteString>)
    requires s != [] && NL !in signature
    requires SignatureKey(signature).Some? && SignatureKey(signature).value !in names
    requires forall c :: c in Contents(Lines(s)) ==> KeptBy(names)(c)
    ensures forall c :: c in Contents(Lines(Inserted(s, signature))) ==> KeptBy(names)(c)
  {
    hide Lines, Contents, Inserted, SignatureKey, InsertAt;
    InsertedContents(s, signature);
    assert (SIG + signature)[|SIG|..] == signature;
  }

  lemma ReplaceWhenKeyStays(s: ByteString, names: seq<ByteString>, signature: ByteString)
    requires SignatureKey(signature).Some? && SignatureKey(signature).value !in names
    requires EditNarinfo(s, Replace(names, signature)).Success?
    ensures EditNarinfo(Apply(EditNarinfo(s, Replace(names, signature)).value, s), Replace(names, signature))
            == Success(Unchanged)
  {
    hide Lines, Contents, Filtered, SignatureKey, ValidNarinfo, Inserted, KeptBy, SignaturesBy, UnsignedLines;
    var m, f := Replace(names, signature), Filtered(s, names);
    var out := Apply(EditNarinfo(s, m).value, s);
    EditKeepsValidity(s, m);
    ValidIsKeyed(out);
    EditEffect(s, m, SignatureKey(signature).value);
    FilteredValid(s, names);
    ValidIsNonEmpty(f);
    FilteredAllKept(s, names);
    if AddSignature(f, signature).value.Changed? {
      InsertedAllKept(f, signature, names);
    }
    FilteredOfKept(out, names);
  }

  /** Replace is idempotent exactly when the new key is not among the removed names or
      the filtered record does not end at an unterminated insertion point. */
  lemma ReplaceIdempotentIff(s: ByteString, names: seq<ByteString>, signature: ByteString)
    requires EditNarinfo(s, Replace(names, signature)).Success?
    ensures SignatureKey(signature).Some?
    ensures EditNarinfo(Apply(EditNarinfo(s, Replace(names, signature)).value, s), Replace(names, signature))
            == Success(Unchanged)
            <==> ReplaceSettles(s, names, SignatureKey(signature).value)
  {
    hide Lines, Contents, Filtered, SignatureKey, ValidNarinfo, AddSignature, Inserted;
    if SignatureKey(signature).value in names {
      ReplaceWhenKeyRemoved(s, names, signature);
    } else {
      ReplaceWhenKeyStays(s, names, signature);
    }
  }

  /** A third replace never changes what the second left. */
  lemma ReplaceTwiceSettles(s: ByteString, names: seq<ByteString>, signature: ByteString)
    requires EditNarinfo(s, Replace(names, signature)).Success?
    requires EditNarinfo(Apply(EditNarinfo(s, Replace(names, signature)).value, s), Replace(names, signature)).Success?
    ensures var m := Replace(names, signature);
            var once := Apply(EditNarinfo(s, m).value, s);
            var twice := Apply(EditNarinfo(once, m).value, once);
            EditNarinfo(twice, m) == Success(Unchanged)
  {
    hide Lines, Contents, Filtered, SignatureKey, ValidNarinfo, Inserted, KeptBy, AddSignature;
    var m, f := Replace(names, signature), Filtered(s, names);
    var once := Apply(EditNarinfo(s, m).value, s);
    ReplaceIdempotentIff(once, names, signature);
    if SignatureKey(signature).value in names {
      FilteredValid(s, names);
      ValidIsNonEmpty(f);
      ReplaceOfRemovedKey(s, names, signature);
      FilteredAllKept(s, names);
      FilteredInserted(f, signature, names);
      assert f + [] == f;
    }
  }

  // A record whose only signature line comes first and whose last line has no newline.
  const ZERO_HASH: ByteString := NAR_HASH + SHA256 + Repeat(48, 52)
  const EXAMPLE_KEY: ByteString := Ascii("k")
  const EXAMPLE: ByteString := SIG + Ascii("k:A") + [NL] + ZERO_HASH

  /** Replacing key `k` by itself in `EXAMPLE` succeeds, and so does repeating it, but the
      repetition rewrites the record again. */
  lemma ReplaceNotIdempotentOnExample()
    ensures var m := Replace([EXAMPLE_KEY], Ascii("k:B"));
            && EditNarinfo(EXAMPLE, m).Success?
            && EditNarinfo(Apply(EditNarinfo(EXAMPLE, m).value, EXAMPLE), m) != Success(Unchanged)
  {
    hide EditNarinfo, Filtered, InsertsAtOpenEnd, EXAMPLE, ZERO_HASH, SignatureKey, Apply;
    ExampleReplaced();
    ExampleFiltered();
    ExampleKey(Ascii("B"));
    assert Ascii("k:B") == EXAMPLE_KEY + [COLON] + Ascii("B");
    ReplaceIdempotentIff(EXAMPLE, [EXAMPLE_KEY], Ascii("k:B"));
  }

  lemma ExampleArguments()
    ensures ValidKeyNames([EXAMPLE_KEY]) && ValidSignatureArgument(Ascii("k:B"))
    ensures SignatureKey(Ascii("k:B")) == Some(EXAMPLE_KEY)
  {
    hide SignatureKey;
    ExampleKey(Ascii("B"));
    assert Ascii("k:B") == EXAMPLE_KEY + [COLON] + Ascii("B");
  }

  lemma ExampleReplaced()
    ensures EditNarinfo(EXAMPLE, Replace([EXAMPLE_KEY], Ascii("k:B"))).Success?
  {
    hide Lines, Contents, Inserted, AddSignature, WellFormedLine, EXAMPLE, ZERO_HASH, Filtered, SignatureKey,
         ValidNarinfo, ValidKeyNames, ValidSignatureArgument;
    ExampleArguments();
    ExampleLines();
    ValidIsKeyed(EXAMPLE);
    ReplaceOfRemovedKey(EXAMPLE, [EXAMPLE_KEY], Ascii("k:B"));
    FilteredValid(EXAMPLE, [EXAMPLE_KEY]);
    ExampleFiltered();
    ExampleBytes();
  }

  lemma ExampleKey(rest: ByteString)
    ensures SignatureKey(EXAMPLE_KEY + [COLON] + rest) == Some(EXAMPLE_KEY)
  {
    SignatureKeyOf(EXAMPLE_KEY, rest);
  }

  lemma ZeroHashLine()
    ensures IsLine(ZERO_HASH) && !Terminated(ZERO_HASH) && Content(ZERO_HASH) == ZERO_HASH
    ensures NAR_HASH <= ZERO_HASH && !(SIG <= ZERO_HASH) && !(SIG_FIELD <= ZERO_HASH)
    ensures WellFormedLine(ZERO_HASH)
  {
    var digest: ByteString := Repeat(48, 52);
    assert ZERO_HASH[0] == NAR_HASH[0] != SIG[0] == SIG_FIELD[0];
    assert ZERO_HASH[|NAR_HASH|..] == SHA256 + digest;
    assert (SHA256 + digest)[|SHA256|..] == digest;
  }

  lemma ExampleLines()
    ensures Lines(EXAMPLE) == [NewLine(Ascii("k:A"), true), ZERO_HASH]
    ensures Contents(Lines(EXAMPLE)) == [SIG + Ascii("k:A"), ZERO_HASH]
    ensures ValidNarinfo(EXAMPLE)
  {
    hide IsLine, Terminated, Content, Lines;
    var first := NewLine(Ascii("k:A"), true);
    var lines := [first, ZERO_HASH];
    NewLineIsLine(Ascii("k:A"), true);
    ZeroHashLine();
    assert lines[1..] == [ZERO_HASH];
    FlattenSingleton(ZERO_HASH);
    assert Flatten(lines) == EXAMPLE;
    LinesOfFlatten(lines);
    assert Contents(lines) == [SIG + Ascii("k:A"), ZERO_HASH];
    ExampleValid();
  }

  lemma ExampleValid()
    requires Contents(Lines(EXAMPLE)) == [SIG + Ascii("k:A"), ZERO_HASH]
    ensures ValidNarinfo(EXAMPLE)
  {
    hide Lines, Contents, WellFormedLine, WellFormedLines, SignatureKey, Filter, EXAMPLE, ZERO_HASH;
    ExampleKey(Ascii("A"));
    assert Ascii("k:A") == EXAMPLE_KEY + [COLON] + Ascii("A");
    SignatureIsWellFormed(Ascii("k:A"));
    ZeroHashLine();
    assert (SIG + Ascii("k:A"))[0] == SIG[0] != NAR_HASH[0];
    OneHashLine(SIG + Ascii("k:A"), ZERO_HASH);
    ExampleBytes();
  }

  lemma ExampleBytes()
    ensures |EXAMPLE| <= MAX_NARINFO_BYTES && CR !in EXAMPLE && |ZERO_HASH| < 100
  {
  }

  lemma OneHashLine(a: ByteString, b: ByteString)
    requires WellFormedLine(a) && WellFormedLine(b) && !(NAR_HASH <= a) && NAR_HASH <= b
    ensures WellFormedLines([a, b]) && |Filter(NarHashLine(), [a, b])| == 1
  {
    hide WellFormedLine;
    assert [a, b] == [a] + [b];
    FilterAppend(NarHashLine(), [a], [b]);
    FilterOne(NarHashLine(), a);
    FilterOne(NarHashLine(), b);
  }

  lemma ExampleFiltered()
    ensures Filtered(EXAMPLE, [EXAMPLE_KEY]) == ZERO_HASH
    ensures InsertsAtOpenEnd(ZERO_HASH)
  {
    hide SignatureKey, Lines, IsLine, Terminated, Content;
    ExampleLines();
    ExampleKey(Ascii("A"));
    ZeroHashLine();
    NewLineIsLine(Ascii("k:A"), true);
    var first, p := NewLine(Ascii("k:A"), true), OnContent(KeptBy([EXAMPLE_KEY]));
    var lines := [first, ZERO_HASH];
    assert (SIG + Ascii("k:A"))[|SIG|..] == Ascii("k:A") == EXAMPLE_KEY + [COLON] + Ascii("A");
    assert !p(first) && p(ZERO_HASH);
    assert lines[1..] == [ZERO_HASH];
    FilterOne(p, ZERO_HASH);
    FlattenSingleton(ZERO_HASH);
    LinesOfFlatten([ZERO_HASH]);
  }
}
