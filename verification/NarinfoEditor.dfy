/** The line-by-line loops of the narinfo editor, proved to compute the edits of `Narinfo`. */
module NarinfoEditor {
  import opened Bytes
  import opened Sequences
  import opened Narinfo
  import opened NarinfoEdits

  /** A loop over the lines of `input` stands at `start`, with the lines `done` behind it. */
  ghost predicate Stands(input: ByteString, start: nat, done: seq<ByteString>) {
    start <= |input| && Lines(input) == done + Lines(input[start..])
  }

  lemma StandsFirst(input: ByteString)
    ensures Stands(input, 0, [])
  {
    hide Lines;
    assert input[0..] == input;
  }

  lemma AppendAssociates(a: seq<ByteString>, b: seq<ByteString>, c: seq<ByteString>)
    ensures a + (b + c) == (a + b) + c
  {
  }

  lemma FirstLine(input: ByteString, start: nat)
    requires start < |input|
    ensures var e := start + LineEnd(input[start..]);
            e <= |input| && Lines(input[start..]) == [input[start..e]] + Lines(input[e..])
  {
    hide LineEnd;
    var rest := input[start..];
    var e := start + LineEnd(rest);
    assert rest[..LineEnd(rest)] == input[start..e] && rest[LineEnd(rest)..] == input[e..];
  }

  /** The next line, and the same line in the whole record. */
  lemma StandsNext(input: ByteString, start: nat, done: seq<ByteString>)
    requires Stands(input, start, done) && start < |input|
    ensures var e := start + LineEnd(input[start..]);
            && start < e <= |input| && Stands(input, e, done + [input[start..e]])
            && |done| < |Lines(input)| && Contents(Lines(input))[|done|] == Content(input[start..e])
  {
    hide Content, LineEnd, Lines;
    var e := start + LineEnd(input[start..]);
    FirstLine(input, start);
    AppendAssociates(done, [input[start..e]], Lines(input[e..]));
    LineAt(done, input[start..e], Lines(input[e..]));
  }

  lemma LineAt(done: seq<ByteString>, line: ByteString, rest: seq<ByteString>)
    ensures |done + [line] + rest| > |done| && (done + [line] + rest)[|done|] == line
  {
  }

  lemma StandsLast(input: ByteString, done: seq<ByteString>)
    requires Stands(input, |input|, done)
    ensures Lines(input) == done
  {
    assert input[|input|..] == [];
    assert Lines([]) == [];
    assert done + [] == done;
  }

  lemma ContentsSnoc(lines: seq<ByteString>, line: ByteString)
    ensures Contents(lines + [line]) == Contents(lines) + [Content(line)]
  {
    hide Content;
  }

  lemma SignaturesSnoc(contents: seq<ByteString>, content: ByteString, key: ByteString)
    ensures SignaturesBy(contents + [content], key)
            == SignaturesBy(contents, key) + (if LineKey(content) == Some(key) then [content] else [])
  {
    hide LineKey;
    FilterSnoc(SignedBy(key), contents, content);
  }

  lemma FilterSnoc(p: ByteString -> bool, xs: seq<ByteString>, x: ByteString)
    ensures Filter(p, xs + [x]) == Filter(p, xs) + (if p(x) then [x] else [])
  {
    FilterAppend(p, xs, [x]);
    FilterOne(p, x);
  }

  /** Check the mutation profile; the counter saturates at 255 as an octet does. */
  method Validate(input: ByteString) returns (r: Option<FileError>)
    ensures r == if |input| > MAX_NARINFO_BYTES then Some(NarinfoTooLarge)
                 else if ValidNarinfo(input) then None else Some(InvalidNarinfo)
  {
    hide Lines, LineKey, Content, Contents, IsNix32Sha256, Stands, Filter, WellFormedLines, NarHashLine;
    if |input| > MAX_NARINFO_BYTES { return Some(NarinfoTooLarge); }
    if CR in input { return Some(InvalidNarinfo); }
    var start, count := 0, 0;
    ghost var done: seq<ByteString> := [];
    StandsFirst(input);
    NothingYet();
    while start < |input|
      invariant start <= |input| && Stands(input, start, done)
      invariant WellFormedLines(Contents(done))
      invariant count == Saturated(|Filter(NarHashLine(), Contents(done))|)
    {
      var end := start + LineEnd(input[start..]);
      var content := Content(input[start..end]);
      StandsNext(input, start, done);
      if NAR_HASH <= content {
        count := if count < 255 then count + 1 else count;
        if !IsNix32Sha256(content[|NAR_HASH|..]) { IllFormedAt(input, |done|); return Some(InvalidNarinfo); }
      }
      if SIG_FIELD <= content && !(SIG <= content) { IllFormedAt(input, |done|); return Some(InvalidNarinfo); }
      if SIG <= content && LineKey(content).None? { IllFormedAt(input, |done|); return Some(InvalidNarinfo); }
      OneMoreLine(done, input[start..end]);
      done := done + [input[start..end]];
      start := end;
    }
    StandsLast(input, done);
    return if count == 1 then None else Some(InvalidNarinfo);
  }

  /** A counter held in an octet that does not wrap. */
  function Saturated(n: nat): nat {
    if n < 255 then n else 255
  }

  lemma NothingYet()
    ensures WellFormedLines(Contents([])) && Filter(NarHashLine(), Contents([])) == []
  {
    assert Contents([]) == [];
  }

  lemma IllFormedAt(input: ByteString, k: nat)
    requires k < |Lines(input)| && !WellFormedLine(Contents(Lines(input))[k])
    ensures !ValidNarinfo(input)
  {
    hide Lines, WellFormedLine;
  }

  lemma OneMoreLine(done: seq<ByteString>, line: ByteString)
    ensures WellFormedLines(Contents(done + [line])) <==>
            WellFormedLines(Contents(done)) && WellFormedLine(Content(line))
    ensures |Filter(NarHashLine(), Contents(done + [line]))|
            == |Filter(NarHashLine(), Contents(done))| + if NAR_HASH <= Content(line) then 1 else 0
  {
    hide Content, WellFormedLine, Contents, Filter;
    ContentsSnoc(done, line);
    FilterSnoc(NarHashLine(), Contents(done), Content(line));
    WellFormedSnoc(Contents(done), Content(line));
  }

  lemma WellFormedSnoc(contents: seq<ByteString>, content: ByteString)
    ensures WellFormedLines(contents + [content]) <==> WellFormedLines(contents) && WellFormedLine(content)
  {
    hide WellFormedLine;
    var all := contents + [content];
    assert all[|contents|] == content && forall i :: 0 <= i < |contents| ==> all[i] == contents[i];
  }

  /** Copy every line whose key is not named. */
  method FilterSignatures(input: ByteString, names: seq<ByteString>) returns (r: Result<ByteString, FileError>)
    ensures r == if KeyedLines(Contents(Lines(input))) then Success(Filtered(input, names)) else Failure(InvalidNarinfo)
  {
    hide Lines, LineKey, Content, Contents, Stands, KeyedLines, Keep, Flatten;
    var start, output: ByteString := 0, [];
    ghost var done: seq<ByteString> := [];
    StandsFirst(input);
    NothingKept(names);
    while start < |input|
      invariant start <= |input| && Stands(input, start, done)
      invariant KeyedLines(Contents(done))
      invariant output == Flatten(Keep(done, names))
    {
      var end := start + LineEnd(input[start..]);
      var line := input[start..end];
      StandsNext(input, start, done);
      OneMoreKept(done, line, names);
      var remove := false;
      if SIG <= Content(line) {
        var key := LineKey(Content(line));
        if key.None? { UnkeyedAt(input, |done|); return Failure(InvalidNarinfo); }
        remove := key.value in names;
      } else {
        UnsignedHasNoKey(Content(line));
      }
      if !remove { output := output + line; }
      done := done + [line];
      start := end;
    }
    StandsLast(input, done);
    return Success(output);
  }

  lemma NothingKept(names: seq<ByteString>)
    ensures KeyedLines(Contents([])) && Flatten(Keep([], names)) == []
  {
    assert Contents([]) == [];
  }

  lemma UnkeyedAt(input: ByteString, k: nat)
    requires k < |Lines(input)| && SIG <= Contents(Lines(input))[k] && LineKey(Contents(Lines(input))[k]).None?
    ensures !KeyedLines(Contents(Lines(input)))
  {
    hide Lines, LineKey;
  }

  lemma OneMoreKept(done: seq<ByteString>, line: ByteString, names: seq<ByteString>)
    ensures KeyedLines(Contents(done + [line]))
            <==> KeyedLines(Contents(done)) && (SIG <= Content(line) ==> LineKey(Content(line)).Some?)
    ensures Flatten(Keep(done + [line], names))
            == Flatten(Keep(done, names))
              + (if LineKey(Content(line)).None? || LineKey(Content(line)).value !in names then line else [])
  {
    hide Content, LineKey, Contents, Flatten, Filter;
    ContentsSnoc(done, line);
    KeyedSnoc(Contents(done), Content(line));
    FilterSnoc(OnContent(KeptBy(names)), done, line);
    FlattenSnoc(Keep(done, names), line);
    assert Keep(done, names) + [] == Keep(done, names) && Flatten(Keep(done, names)) + [] == Flatten(Keep(done, names));
  }

  lemma KeyedSnoc(contents: seq<ByteString>, content: ByteString)
    ensures KeyedLines(contents + [content]) <==> KeyedLines(contents) && (SIG <= content ==> LineKey(content).Some?)
  {
    hide LineKey;
    var all := contents + [content];
    assert all[|contents|] == content && forall i :: 0 <= i < |contents| ==> all[i] == contents[i];
  }

  lemma UnsignedHasNoKey(content: ByteString)
    requires !(SIG <= content)
    ensures LineKey(content).None?
  {
  }

  /** One pass decides between conflict, nothing to do, and inserting. */
  method Add(input: ByteString, signature: ByteString) returns (r: Result<Edit, FileError>)
    ensures r == AddSignature(input, signature)
  {
    hide Lines, Contents, Content, Inserted, LineKey, SignatureKey, SignaturesBy, Stands, KeyedLines, AllEqual;
    if !ValidSignatureArgument(signature) { return Failure(InvalidNarinfo); }
    var key := SignatureKey(signature).value;
    var start, identical, conflict := 0, false, false;
    ghost var done: seq<ByteString> := [];
    StandsFirst(input);
    NoSignatures(key, SIG + signature);
    while start < |input|
      invariant start <= |input| && Stands(input, start, done)
      invariant KeyedLines(Contents(done))
      invariant conflict <==> !AllEqual(SignaturesBy(Contents(done), key), SIG + signature)
      invariant identical <==> SIG + signature in SignaturesBy(Contents(done), key)
    {
      var end := start + LineEnd(input[start..]);
      var content := Content(input[start..end]);
      StandsNext(input, start, done);
      OneMoreSignature(done, input[start..end], key, SIG + signature);
      if SIG <= content {
        if LineKey(content).None? { UnkeyedAt(input, |done|); return Failure(InvalidNarinfo); }
        if LineKey(content) == Some(key) {
          var value := content[|SIG|..];
          SameValue(content, signature);
          identical := identical || value == signature;
          conflict := conflict || value != signature;
        }
      } else {
        UnsignedHasNoKey(content);
      }
      done := done + [input[start..end]];
      start := end;
    }
    StandsLast(input, done);
    NoneIdentical(SignaturesBy(Contents(done), key), SIG + signature);
    if conflict { return Failure(SignatureConflict); }
    if identical { return Success(Unchanged); }
    if |input| + |signature| + 6 > MAX_NARINFO_BYTES { return Failure(NarinfoTooLarge); }
    return Success(Changed(Inserted(input, signature)));
  }

  lemma SameValue(content: ByteString, signature: ByteString)
    requires SIG <= content
    ensures content == SIG + signature <==> content[|SIG|..] == signature
  {
    assert content == SIG + content[|SIG|..];
    assert (SIG + signature)[|SIG|..] == signature;
  }

  lemma NoneIdentical(xs: seq<ByteString>, y: ByteString)
    ensures AllEqual(xs, y) ==> (y in xs <==> xs != [])
  {
    if AllEqual(xs, y) && xs != [] {
      assert xs[0] in xs;
    }
  }

  lemma OneMoreSignature(done: seq<ByteString>, line: ByteString, key: ByteString, wanted: ByteString)
    ensures KeyedLines(Contents(done + [line]))
            <==> KeyedLines(Contents(done)) && (SIG <= Content(line) ==> LineKey(Content(line)).Some?)
    ensures var before, after := SignaturesBy(Contents(done), key), SignaturesBy(Contents(done + [line]), key);
            if LineKey(Content(line)) == Some(key) then
              && (AllEqual(after, wanted) <==> AllEqual(before, wanted) && Content(line) == wanted)
              && (wanted in after <==> wanted in before || Content(line) == wanted)
            else after == before
  {
    hide Content, LineKey, Contents, SignaturesBy, AllEqual;
    ContentsSnoc(done, line);
    KeyedSnoc(Contents(done), Content(line));
    SignaturesSnoc(Contents(done), Content(line), key);
    var before := SignaturesBy(Contents(done), key);
    assert before + [] == before;
    LastElement(before, Content(line), wanted);
  }

  lemma NoSignatures(key: ByteString, wanted: ByteString)
    ensures KeyedLines(Contents([])) && SignaturesBy(Contents([]), key) == [] && AllEqual([], wanted)
  {
    assert Contents([]) == [];
  }

  lemma LastElement(xs: seq<ByteString>, x: ByteString, y: ByteString)
    ensures AllEqual(xs + [x], y) <==> AllEqual(xs, y) && x == y
    ensures y in xs + [x] <==> y in xs || x == y
  {
    assert (xs + [x])[|xs|] == x;
    assert forall i :: 0 <= i < |xs| ==> (xs + [x])[i] == xs[i];
  }

  /** `edit_narinfo`: validate, then apply one mutation. */
  method EditRecord(input: ByteString, m: Mutation) returns (r: Result<Edit, FileError>)
    ensures r == EditNarinfo(input, m)
  {
    hide Lines, Contents, Inserted, Filtered, ValidNarinfo, AddSignature;
    var invalid := Validate(input);
    if invalid.Some? { return Failure(invalid.value); }
    match m
    case Add(signature) =>
      r := Add(input, signature);
    case Replace(names, signature) =>
      if !ValidKeyNames(names) || !ValidSignatureArgument(signature) { return Failure(InvalidNarinfo); }
      var filtered := FilterSignatures(input, names);
      if filtered.Failure? { return Failure(InvalidNarinfo); }
      var added := Add(filtered.value, signature);
      if added.Failure? { return added; }
      var output := Apply(added.value, filtered.value);
      return Success(if output == input then Unchanged else Changed(output));
    case Remove(names) =>
      if !ValidKeyNames(names) { return Failure(InvalidNarinfo); }
      var filtered := FilterSignatures(input, names);
      if filtered.Failure? { return Failure(InvalidNarinfo); }
      return Success(if filtered.value == input then Unchanged else Changed(filtered.value));
  }
}
