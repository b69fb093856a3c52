/** The scanning and rendering loops, proved to compute the fingerprint of `Fingerprint`. */
module FingerprintBuilder {
  import opened Bytes
  import opened Sequences
  import opened Ordering
  import opened Narinfo
  import opened Fingerprint
  import opened CanonicalFingerprint

  lemma FilterTake(p: ByteString -> bool, xs: seq<ByteString>, i: nat)
    requires i < |xs|
    ensures Filter(p, xs[..i + 1]) == Filter(p, xs[..i]) + (if p(xs[i]) then [xs[i]] else [])
    ensures |Filter(p, xs)| >= |Filter(p, xs[..i + 1])|
  {
    assert xs[..i + 1] == xs[..i] + [xs[i]];
    FilterAppend(p, xs[..i], [xs[i]]);
    FilterOne(p, xs[i]);
    assert xs == xs[..i + 1] + xs[i + 1..];
    FilterAppend(p, xs[..i + 1], xs[i + 1..]);
  }

  /** Scan for a field, stopping at the second occurrence. */
  method ExactlyOneField(narinfo: ByteString, prefix: ByteString) returns (r: Field)
    ensures r == ExactlyOne(narinfo, prefix)
  {
    var lines := Split(narinfo, NL);
    var found: Option<ByteString> := None;
    ghost var p := HasPrefix(prefix);
    for i := 0 to |lines|
      invariant Filter(p, lines[..i]) == if found.Some? then [prefix + found.value] else []
    {
      FilterTake(p, lines, i);
      if prefix <= lines[i] {
        assert lines[i] == prefix + lines[i][|prefix|..];
        if found.Some? { return Duplicated; }
        found := Some(lines[i][|prefix|..]);
      }
    }
    assert lines[..|lines|] == lines;
    if found.Some? {
      assert FieldLines(narinfo, prefix)[0] == prefix + found.value;
      assert (prefix + found.value)[|prefix|..] == found.value;
      return Found(found.value);
    }
    return Missing;
  }

  /** Split, bound, validate and sort the references. */
  method Collect(references: ByteString) returns (r: Option<seq<ByteString>>)
    ensures r == CollectReferences(references)
  {
    hide StoreBaseHash, Sort, Split;
    if references == [] {
      assert Sort([]) == [] by { SortSpec([]); }
      return Some([]);
    }
    var collected: seq<ByteString> := [];
    var tokens := Split(references, SPACE);
    for i := 0 to |tokens|
      invariant collected == tokens[..i] && AllStoreBases(collected) && |collected| <= MAX_REFERENCES
    {
      if |collected| >= MAX_REFERENCES { return None; }
      if !ValidStoreBase(tokens[i]) { return None; }
      collected := collected + [tokens[i]];
    }
    assert tokens[..|tokens|] == tokens;
    return Some(Sort(collected));
  }

  function CheckedAdd(a: Option<nat>, b: nat): (r: Option<nat>) {
    if a.Some? && a.value + b < USIZE_LIMIT then Some(a.value + b) else None
  }

  /** Sum the lengths with overflow checks. */
  method MeasureReferences(bases: seq<ByteString>) returns (length: Option<nat>)
    ensures length == if ReferencesLength(bases) < USIZE_LIMIT then Some(ReferencesLength(bases)) else None
  {
    length := Some(0);
    for i := 0 to |bases|
      invariant length == if ReferencesLength(bases[..i]) < USIZE_LIMIT then Some(ReferencesLength(bases[..i]))
                else None
    {
      assert bases[..i + 1][..i] == bases[..i];
      length := CheckedAdd(CheckedAdd(CheckedAdd(length, if i != 0 then 1 else 0), |STORE_PREFIX|), |bases[i]|);
    }
    assert bases[..|bases|] == bases;
  }

  method RenderLoop(path: ByteString, narHash: ByteString, narSize: ByteString, bases: seq<ByteString>)
    returns (rendered: ByteString)
    ensures rendered == Render(path, narHash, narSize, bases)
  {
    ghost var head := VERSION + [SEMICOLON] + path + [SEMICOLON] + narHash + [SEMICOLON] + narSize + [SEMICOLON];
    rendered := VERSION + [SEMICOLON] + path + [SEMICOLON] + narHash + [SEMICOLON] + narSize + [SEMICOLON];
    for i := 0 to |bases|
      invariant rendered == head + RenderReferences(bases[..i])
    {
      RenderSnoc(bases[..i], bases[i]);
      assert bases[..i + 1] == bases[..i] + [bases[i]];
      if i != 0 { rendered := rendered + [COMMA]; }
      rendered := rendered + STORE_PREFIX;
      rendered := rendered + bases[i];
    }
    assert bases[..|bases|] == bases;
    RenderHead(path, narHash, narSize, RenderReferences(bases));
  }

  lemma RenderHead(path: ByteString, narHash: ByteString, narSize: ByteString, references: ByteString)
    ensures Join([VERSION, path, narHash, narSize, references], SEMICOLON)
            == VERSION + [SEMICOLON] + path + [SEMICOLON] + narHash + [SEMICOLON] + narSize + [SEMICOLON] + references
  {
    var parts: seq<ByteString> := [VERSION, path, narHash, narSize, references];
    assert parts[1..] == [path, narHash, narSize, references];
    assert parts[1..][1..] == [narHash, narSize, references];
    assert parts[1..][1..][1..] == [narSize, references];
    assert parts[1..][1..][1..][1..] == [references];
    assert Join([references], SEMICOLON) == references;
    assert Join([narSize, references], SEMICOLON) == narSize + [SEMICOLON] + references;
    var three := narHash + [SEMICOLON] + (narSize + [SEMICOLON] + references);
    assert Join([narHash, narSize, references], SEMICOLON) == three;
    assert Join([path, narHash, narSize, references], SEMICOLON) == path + [SEMICOLON] + three;
    assert Join(parts, SEMICOLON) == VERSION + [SEMICOLON] + (path + [SEMICOLON] + three);
  }

  lemma {:induction false} JoinSnoc(pieces: seq<ByteString>, piece: ByteString, sep: Byte)
    requires |pieces| >= 1
    ensures Join(pieces + [piece], sep) == Join(pieces, sep) + [sep] + piece
    decreases |pieces|
  {
    var all := pieces + [piece];
    if |pieces| == 1 {
      assert all[1..] == [piece];
    } else {
      JoinSnoc(pieces[1..], piece, sep);
      assert all[1..] == pieces[1..] + [piece];
    }
  }

  lemma RenderSnoc(bases: seq<ByteString>, base: ByteString)
    ensures RenderReferences(bases + [base])
            == RenderReferences(bases) + (if bases == [] then [] else [COMMA]) + STORE_PREFIX + base
  {
    assert StorePaths(bases + [base]) == StorePaths(bases) + [STORE_PREFIX + base];
    if bases != [] {
      JoinSnoc(StorePaths(bases), STORE_PREFIX + base, COMMA);
    } else {
      assert StorePaths(bases + [base]) == [STORE_PREFIX + base];
    }
  }

  /** `fingerprint_from_narinfo`. */
  method BuildFingerprint(narinfo: ByteString, expectedPath: Option<ByteString>, expectedHash: ByteString)
    returns (r: Option<ByteString>)
    ensures r == FromNarinfo(narinfo, expectedPath, expectedHash)
  {
    hide ExactlyOne, CollectReferences, Render, IsPathInfoV1, StorePathHash, IsUtf8, AdjacentDuplicate,
         ReferencesLength;
    var path := ExactlyOneField(narinfo, STORE_PATH);
    var narHash := ExactlyOneField(narinfo, NAR_HASH);
    var narSize := ExactlyOneField(narinfo, NAR_SIZE);
    var references := ExactlyOneField(narinfo, REFERENCES);
    if !path.Found? || !narHash.Found? || !narSize.Found? || !references.Found? { return None; }
    if !IsUtf8(path.value) || (expectedPath.Some? && expectedPath.value != path.value) { return None; }
    if StorePathHash(path.value) != Some(expectedHash) { return None; }
    if !IsUtf8(narHash.value) || !IsUtf8(narSize.value) || !IsUtf8(references.value) { return None; }
    var collected := Collect(references.value);
    if collected.None? || AdjacentDuplicate(collected.value) { return None; }
    var length := MeasureReferences(collected.value);
    length := CheckedAdd(length, 5);
    length := CheckedAdd(CheckedAdd(CheckedAdd(length, |path.value|), |narHash.value|), |narSize.value|);
    if length.None? || length.value > MAX_PATH_INFO_V1_LEN { return None; }
    var rendered := RenderLoop(path.value, narHash.value, narSize.value, collected.value);
    return if IsPathInfoV1(rendered) then Some(rendered) else None;
  }
}
