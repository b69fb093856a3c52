/** What the fingerprint depends on, and that it determines what it was built from. */
module CanonicalFingerprint {
  import opened Bytes
  import opened Sequences
  import opened Ordering
  import opened Narinfo
  import opened Fingerprint

  // ------------------------------------------------------------------ rendering

  lemma {:induction false} StorePathsLength(bases: seq<ByteString>)
    ensures TotalLength(StorePaths(bases)) + (if bases == [] then 0 else |bases| - 1) == ReferencesLength(bases)
    decreases |bases|
  {
    if bases != [] {
      var n := |bases| - 1;
      StorePathsLength(bases[..n]);
      assert StorePaths(bases) == StorePaths(bases[..n]) + [STORE_PREFIX + bases[n]];
      FlattenSnoc(StorePaths(bases[..n]), STORE_PREFIX + bases[n]);
    }
  }

  /** The length computed before rendering is the length of the rendered fingerprint, so
      the size bound refuses exactly the fingerprints that exceed it. */
  lemma RenderedLengthExact(path: ByteString, narHash: ByteString, narSize: ByteString, bases: seq<ByteString>)
    ensures |Render(path, narHash, narSize, bases)| == RenderedLength(path, narHash, narSize, bases)
  {
    StorePathsLength(bases);
    if bases != [] {
      JoinLength(StorePaths(bases), COMMA);
    }
    var parts: seq<ByteString> := [VERSION, path, narHash, narSize, RenderReferences(bases)];
    JoinLength(parts, SEMICOLON);
    TotalLengthOfParts(path, narHash, narSize, RenderReferences(bases));
  }

  lemma TotalLengthOfParts(path: ByteString, narHash: ByteString, narSize: ByteString, references: ByteString)
    ensures TotalLength([VERSION, path, narHash, narSize, references])
            == 1 + |path| + |narHash| + |narSize| + |references|
  {
    var none: seq<ByteString> := [];
    TotalLengthCons(references, none);
    TotalLengthCons(narSize, [references] + none);
    TotalLengthCons(narHash, [narSize] + ([references] + none));
    TotalLengthCons(path, [narHash] + ([narSize] + ([references] + none)));
    TotalLengthCons(VERSION, [path] + ([narHash] + ([narSize] + ([references] + none))));
    assert [VERSION, path, narHash, narSize, references]
        == [VERSION] + ([path] + ([narHash] + ([narSize] + ([references] + none))));
  }

  lemma TotalLengthCons(piece: ByteString, rest: seq<ByteString>)
    ensures TotalLength([piece] + rest) == |piece| + TotalLength(rest)
  {
    assert ([piece] + rest)[1..] == rest;
  }

  /** Printable ASCII other than the field and reference separators. */
  predicate PlainByte(b: Byte) {
    33 <= b < 127 && b != SEMICOLON && b != COMMA
  }

  predicate Plain(s: ByteString) {
    forall i :: 0 <= i < |s| ==> PlainByte(s[i])
  }

  lemma StoreBasePlain(base: ByteString)
    requires ValidStoreBase(base)
    ensures Plain(base)
  {
    assert forall i :: 0 <= i < |base| ==> StoreNameByte(base[i]);
  }

  lemma StorePathPlain(path: ByteString)
    requires ValidStorePath(path)
    ensures Plain(path)
  {
    hide StoreBaseHash;
    var base := path[|STORE_PREFIX|..];
    StoreBasePlain(base);
    assert Plain(STORE_PREFIX);
    assert path == STORE_PREFIX + base;
  }

  lemma NarHashPlain(h: ByteString)
    requires IsNix32Sha256(h)
    ensures Plain(h)
  {
    assert h == SHA256 + h[|SHA256|..];
    assert Plain(SHA256);
  }

  lemma StorePathOfBase(base: ByteString)
    ensures ValidStorePath(STORE_PREFIX + base) == ValidStoreBase(base)
  {
    hide StoreBaseHash;
    assert (STORE_PREFIX + base)[|STORE_PREFIX|..] == base;
  }

  /** The fields a record must have for its fingerprint to exist. */
  predicate CanonicalParts(path: ByteString, narHash: ByteString, narSize: ByteString, bases: seq<ByteString>) {
    && ValidStorePath(path) && IsNix32Sha256(narHash) && ValidNarSize(narSize)
    && AllStoreBases(bases) && |bases| <= MAX_REFERENCES && StrictlyAscending(bases)
  }

  predicate FieldText(s: ByteString) {
    forall i :: 0 <= i < |s| ==> PlainByte(s[i]) || s[i] == COMMA
  }

  lemma StorePathsPlain(bases: seq<ByteString>)
    requires AllStoreBases(bases)
    ensures forall i :: 0 <= i < |bases| ==> Plain(StorePaths(bases)[i]) && ValidStorePath(StorePaths(bases)[i])
  {
    hide StoreBaseHash, ValidStorePath, Plain;
    forall i | 0 <= i < |bases|
      ensures Plain(StorePaths(bases)[i]) && ValidStorePath(StorePaths(bases)[i])
    {
      StorePathOfBase(bases[i]);
      StorePathPlain(STORE_PREFIX + bases[i]);
    }
  }

  lemma {:induction false} JoinText(pieces: seq<ByteString>)
    requires |pieces| >= 1 && forall i :: 0 <= i < |pieces| ==> Plain(pieces[i])
    ensures FieldText(Join(pieces, COMMA))
    decreases |pieces|
  {
    if |pieces| > 1 {
      JoinText(pieces[1..]);
    }
  }

  lemma StrictlyAscendingPaths(bases: seq<ByteString>)
    ensures StrictlyAscending(StorePaths(bases)) <==> StrictlyAscending(bases)
  {
    hide LexLe;
    forall i | 0 <= i < |bases| - 1
      ensures LexLess(STORE_PREFIX + bases[i], STORE_PREFIX + bases[i + 1]) == LexLess(bases[i], bases[i + 1])
    {
      LexPrefix(STORE_PREFIX, bases[i], bases[i + 1]);
      assert (STORE_PREFIX + bases[i])[|STORE_PREFIX|..] == bases[i];
      assert (STORE_PREFIX + bases[i + 1])[|STORE_PREFIX|..] == bases[i + 1];
    }
    if StrictlyAscending(StorePaths(bases)) {
      forall i | 0 <= i < |bases| - 1
        ensures LexLess(bases[i], bases[i + 1])
      {
        assert LexLess(StorePaths(bases)[i], StorePaths(bases)[i + 1]);
      }
    }
  }

  lemma RenderedReferences(bases: seq<ByteString>)
    requires AllStoreBases(bases)
    ensures FieldText(RenderReferences(bases))
    ensures bases != [] ==> RenderReferences(bases) != [] && Split(RenderReferences(bases), COMMA) == StorePaths(bases)
  {
    hide StoreBaseHash, ValidStorePath;
    if bases != [] {
      var paths := StorePaths(bases);
      StorePathsPlain(bases);
      JoinText(paths);
      assert forall i :: 0 <= i < |paths| ==> COMMA !in paths[i] by {
        assert forall i, j :: 0 <= i < |paths| && 0 <= j < |paths[i]| ==> PlainByte(paths[i][j]);
      }
      SplitJoin(paths, COMMA);
      JoinLength(paths, COMMA);
      StorePathsLength(bases);
    }
  }

  lemma ReferenceListOf(bases: seq<ByteString>)
    requires AllStoreBases(bases)
    ensures ValidReferenceList(RenderReferences(bases))
            <==> |bases| <= MAX_REFERENCES && StrictlyAscending(bases)
  {
    hide StoreBaseHash, ValidStorePath, StrictlyAscending;
    RenderedReferences(bases);
    StorePathsPlain(bases);
    StrictlyAscendingPaths(bases);
    if bases == [] {
      assert StrictlyAscending(bases) by { NoPairs(bases); }
    }
  }

  lemma NoPairs(bases: seq<ByteString>)
    requires bases == []
    ensures StrictlyAscending(bases)
  {
  }

  predicate SeparatorFree(s: ByteString) {
    forall i :: 0 <= i < |s| ==> s[i] != SEMICOLON
  }

  function Parts(path: ByteString, narHash: ByteString, narSize: ByteString, references: ByteString): seq<ByteString> {
    [VERSION, path, narHash, narSize, references]
  }

  lemma SplitParts(path: ByteString, narHash: ByteString, narSize: ByteString, references: ByteString)
    requires SeparatorFree(path) && SeparatorFree(narHash) && SeparatorFree(narSize) && SeparatorFree(references)
    ensures Split(Join(Parts(path, narHash, narSize, references), SEMICOLON), SEMICOLON)
            == Parts(path, narHash, narSize, references)
  {
    var parts := Parts(path, narHash, narSize, references);
    assert SeparatorFree(VERSION);
    assert forall i :: 0 <= i < |parts| ==> SeparatorFree(parts[i]);
    SplitJoin(parts, SEMICOLON);
  }

  predicate Printable(s: ByteString) {
    forall i :: 0 <= i < |s| ==> 32 <= s[i] < 127
  }

  lemma {:induction false} JoinPrintable(parts: seq<ByteString>)
    requires |parts| >= 1 && forall i :: 0 <= i < |parts| ==> Printable(parts[i])
    ensures Printable(Join(parts, SEMICOLON))
    decreases |parts|
  {
    if |parts| > 1 {
      JoinPrintable(parts[1..]);
    }
  }

  lemma DigitsPlain(s: ByteString)
    requires ValidNarSize(s)
    ensures Plain(s)
  {
  }

  lemma CanonicalPartsPlain(path: ByteString, narHash: ByteString, narSize: ByteString, bases: seq<ByteString>)
    requires CanonicalParts(path, narHash, narSize, bases)
    ensures Plain(path) && Plain(narHash) && Plain(narSize) && FieldText(RenderReferences(bases))
  {
    hide StoreBaseHash, ValidStorePath, IsNix32Sha256, ValidNarSize, RenderReferences, Plain;
    StorePathPlain(path);
    NarHashPlain(narHash);
    DigitsPlain(narSize);
    RenderedReferences(bases);
  }

  /** Canonical parts render to a fingerprint the strict parser accepts, if it is short enough. */
  lemma CanonicalPartsParse(path: ByteString, narHash: ByteString, narSize: ByteString, bases: seq<ByteString>)
    requires CanonicalParts(path, narHash, narSize, bases)
    requires RenderedLength(path, narHash, narSize, bases) <= MAX_PATH_INFO_V1_LEN
    ensures IsPathInfoV1(Render(path, narHash, narSize, bases))
  {
    hide StoreBaseHash, ValidStorePath, IsNix32Sha256, ValidNarSize, RenderReferences, StrictlyAscending;
    var references := RenderReferences(bases);
    CanonicalPartsPlain(path, narHash, narSize, bases);
    SplitParts(path, narHash, narSize, references);
    ReferenceListOf(bases);
    RenderedLengthExact(path, narHash, narSize, bases);
    RenderedText(path, narHash, narSize, references);
  }

  lemma RenderedText(path: ByteString, narHash: ByteString, narSize: ByteString, references: ByteString)
    requires Plain(path) && Plain(narHash) && Plain(narSize) && FieldText(references)
    ensures var s := Join(Parts(path, narHash, narSize, references), SEMICOLON);
            IsUtf8(s) && NoControl(s)
  {
    var parts := Parts(path, narHash, narSize, references);
    assert Printable(VERSION) && Printable(path) && Printable(narHash) && Printable(narSize) && Printable(references);
    assert forall i :: 0 <= i < |parts| ==> Printable(parts[i]);
    JoinPrintable(parts);
    AsciiIsUtf8(Join(parts, SEMICOLON));
  }

  /** A field holding a semicolon makes too many fields, so it is never taken for others. */
  lemma ParsedPartsSeparatorFree(path: ByteString, narHash: ByteString, narSize: ByteString, bases: seq<ByteString>)
    requires IsPathInfoV1(Render(path, narHash, narSize, bases))
    ensures SeparatorFree(narHash) && SeparatorFree(narSize)
  {
    var parts := Parts(path, narHash, narSize, RenderReferences(bases));
    SplitOfJoin(parts, SEMICOLON);
    NoHiddenSeparator(parts, SEMICOLON, 2);
    NoHiddenSeparator(parts, SEMICOLON, 3);
  }

  /** The strict parser accepts a rendering only if the rendered fields are canonical. */
  lemma ParsedPartsCanonical(path: ByteString, narHash: ByteString, narSize: ByteString, bases: seq<ByteString>)
    requires ValidStorePath(path) && AllStoreBases(bases)
    requires IsPathInfoV1(Render(path, narHash, narSize, bases))
    ensures CanonicalParts(path, narHash, narSize, bases)
  {
    hide StoreBaseHash, ValidStorePath, IsNix32Sha256, ValidNarSize, RenderReferences, StrictlyAscending;
    StorePathPlain(path);
    RenderedReferences(bases);
    ParsedPartsSeparatorFree(path, narHash, narSize, bases);
    SplitParts(path, narHash, narSize, RenderReferences(bases));
    ReferenceListOf(bases);
  }

  // ----------------------------------------------------------- what it depends on

  predicate Identifies(path: ByteString, expectedPath: Option<ByteString>, expectedHash: ByteString) {
    && (expectedPath.Some? ==> expectedPath.value == path)
    && StorePathHash(path) == Some(expectedHash)
  }

  lemma {:induction false} TokensUtf8(tokens: seq<ByteString>)
    requires |tokens| >= 1 && AllStoreBases(tokens)
    ensures IsAscii(Join(tokens, SPACE))
    decreases |tokens|
  {
    hide StoreBaseHash;
    StoreBasePlain(tokens[0]);
    if |tokens| > 1 {
      TokensUtf8(tokens[1..]);
    }
  }

  lemma CanonicalIsUtf8(path: ByteString, narHash: ByteString, narSize: ByteString)
    requires ValidStorePath(path) && IsNix32Sha256(narHash) && ValidNarSize(narSize)
    ensures IsUtf8(path) && IsUtf8(narHash) && IsUtf8(narSize)
  {
    hide ValidStorePath, IsNix32Sha256, ValidNarSize, IsUtf8;
    StorePathPlain(path);
    NarHashPlain(narHash);
    DigitsPlain(narSize);
    AsciiIsUtf8(path);
    AsciiIsUtf8(narHash);
    AsciiIsUtf8(narSize);
  }

  lemma ReferencesUtf8(references: ByteString)
    requires AllStoreBases(ReferenceTokens(references))
    ensures IsUtf8(references)
  {
    hide StoreBaseHash;
    if references != [] {
      JoinSplit(references, SPACE);
      TokensUtf8(Split(references, SPACE));
      AsciiIsUtf8(references);
    }
  }

  lemma {:induction false} SortedTokensValid(tokens: seq<ByteString>)
    ensures AllStoreBases(Sort(tokens)) <==> AllStoreBases(tokens)
    ensures |Sort(tokens)| == |tokens|
    ensures Distinct(Sort(tokens)) <==> StrictlyAscending(Sort(tokens))
    ensures AdjacentDuplicate(Sort(tokens)) <==> !StrictlyAscending(Sort(tokens))
  {
    hide StoreBaseHash, Sort, Ascending, LexLe;
    SortSpec(tokens);
    SameElements(Sort(tokens), tokens);
    SortedDistinct(Sort(tokens));
    var sorted := Sort(tokens);
    if AllStoreBases(tokens) {
      forall i | 0 <= i < |sorted|
        ensures ValidStoreBase(sorted[i])
      {
        assert sorted[i] in tokens;
      }
    }
    if AllStoreBases(sorted) {
      forall i | 0 <= i < |tokens|
        ensures ValidStoreBase(tokens[i])
      {
        assert tokens[i] in sorted;
      }
    }
  }

  /** Everything that must hold of the four fields. */
  predicate Acceptable(path: ByteString, narHash: ByteString, narSize: ByteString, references: ByteString,
                       expectedPath: Option<ByteString>, expectedHash: ByteString)
  {
    var bases := Sort(ReferenceTokens(references));
    && Identifies(path, expectedPath, expectedHash)
    && CanonicalParts(path, narHash, narSize, bases)
    && |Render(path, narHash, narSize, bases)| <= MAX_PATH_INFO_V1_LEN
  }

  lemma FromFieldsIff(path: ByteString, narHash: ByteString, narSize: ByteString, references: ByteString,
                      expectedPath: Option<ByteString>, expectedHash: ByteString)
    ensures FromFields(path, narHash, narSize, references, expectedPath, expectedHash)
            == if Acceptable(path, narHash, narSize, references, expectedPath, expectedHash)
               then Some(Render(path, narHash, narSize, Sort(ReferenceTokens(references)))) else None
  {
    hide StoreBaseHash, IsNix32Sha256, ValidNarSize, RenderReferences, StrictlyAscending, Sort, IsUtf8, Render,
         AdjacentDuplicate, ReferenceTokens, IsPathInfoV1, AllStoreBases, RenderedLength, StorePathHash;
    var tokens := ReferenceTokens(references);
    SortedTokensValid(tokens);
    RenderedLengthExact(path, narHash, narSize, Sort(tokens));
    if Acceptable(path, narHash, narSize, references, expectedPath, expectedHash) {
      CanonicalIsUtf8(path, narHash, narSize);
      ReferencesUtf8(references);
      CanonicalPartsParse(path, narHash, narSize, Sort(tokens));
    } else if FromFields(path, narHash, narSize, references, expectedPath, expectedHash).Some? {
      ParsedPartsCanonical(path, narHash, narSize, Sort(tokens));
      RenderedSize(Render(path, narHash, narSize, Sort(tokens)));
    }
  }

  lemma RenderedSize(s: ByteString)
    requires IsPathInfoV1(s)
    ensures |s| <= MAX_PATH_INFO_V1_LEN
  {
  }

  function FieldLine(): ByteString -> bool {
    (line: ByteString) => STORE_PATH <= line || NAR_HASH <= line || NAR_SIZE <= line || REFERENCES <= line
  }

  /** The lines of a record that carry one of the four fields. */
  function AllFieldLines(narinfo: ByteString): (r: seq<ByteString>) {
    Filter(FieldLine(), Split(narinfo, NL))
  }

  /** A record has a fingerprint exactly when each of the four fields is carried by exactly one line
      and their values are acceptable; it is the rendering of those values. */
  lemma FromNarinfoIff(s: ByteString, expectedPath: Option<ByteString>, expectedHash: ByteString, path: ByteString,
                       narHash: ByteString, narSize: ByteString, references: ByteString)
    requires FieldLines(s, STORE_PATH) == [STORE_PATH + path] && FieldLines(s, NAR_HASH) == [NAR_HASH + narHash]
    requires FieldLines(s, NAR_SIZE) == [NAR_SIZE + narSize] && FieldLines(s, REFERENCES) == [REFERENCES + references]
    ensures FromNarinfo(s, expectedPath, expectedHash)
            == if Acceptable(path, narHash, narSize, references, expectedPath, expectedHash)
               then Some(Render(path, narHash, narSize, Sort(ReferenceTokens(references)))) else None
  {
    hide FieldLines, FromFields, Acceptable, Render;
    FoundValue(s, STORE_PATH, path);
    FoundValue(s, NAR_HASH, narHash);
    FoundValue(s, NAR_SIZE, narSize);
    FoundValue(s, REFERENCES, references);
    FromFieldsIff(path, narHash, narSize, references, expectedPath, expectedHash);
  }

  lemma FoundValue(s: ByteString, prefix: ByteString, value: ByteString)
    requires FieldLines(s, prefix) == [prefix + value]
    ensures ExactlyOne(s, prefix) == Found(value)
  {
    hide FieldLines;
    assert (prefix + value)[|prefix|..] == value;
  }

  lemma MissingField(s: ByteString, expectedPath: Option<ByteString>, expectedHash: ByteString)
    requires || |FieldLines(s, STORE_PATH)| != 1 || |FieldLines(s, NAR_HASH)| != 1
             || |FieldLines(s, NAR_SIZE)| != 1 || |FieldLines(s, REFERENCES)| != 1
    ensures FromNarinfo(s, expectedPath, expectedHash).None?
  {
    hide FieldLines, FromFields;
  }

  lemma FieldPermuted(a: ByteString, b: ByteString, prefix: ByteString)
    requires prefix in {STORE_PATH, NAR_HASH, NAR_SIZE, REFERENCES}
    requires multiset(AllFieldLines(a)) == multiset(AllFieldLines(b))
    ensures ExactlyOne(a, prefix) == ExactlyOne(b, prefix)
  {
    hide Split, Filter;
    FilterImplied(HasPrefix(prefix), FieldLine(), Split(a, NL));
    FilterImplied(HasPrefix(prefix), FieldLine(), Split(b, NL));
    FilterPermuted(HasPrefix(prefix), AllFieldLines(a), AllFieldLines(b));
    SameElements(FieldLines(a, prefix), FieldLines(b, prefix));
    if |FieldLines(a, prefix)| == 1 {
      SingletonPermuted(FieldLines(a, prefix), FieldLines(b, prefix));
    }
  }

  /** The fingerprint, or its rejection, depends on nothing but the multiset of field lines:
      permuting lines, and adding or removing lines without the four prefixes, cannot change it. */
  lemma DependsOnFieldLines(a: ByteString, b: ByteString, expectedPath: Option<ByteString>, expectedHash: ByteString)
    requires multiset(AllFieldLines(a)) == multiset(AllFieldLines(b))
    ensures FromNarinfo(a, expectedPath, expectedHash) == FromNarinfo(b, expectedPath, expectedHash)
  {
    hide ExactlyOne, FromFields, AllFieldLines;
    FieldPermuted(a, b, STORE_PATH);
    FieldPermuted(a, b, NAR_HASH);
    FieldPermuted(a, b, NAR_SIZE);
    FieldPermuted(a, b, REFERENCES);
  }

  lemma LineOrderIrrelevant(a: ByteString, b: ByteString, expectedPath: Option<ByteString>, expectedHash: ByteString)
    requires multiset(Split(a, NL)) == multiset(Split(b, NL))
    ensures FromNarinfo(a, expectedPath, expectedHash) == FromNarinfo(b, expectedPath, expectedHash)
  {
    hide Split, Filter, FromNarinfo;
    FilterPermuted(FieldLine(), Split(a, NL), Split(b, NL));
    DependsOnFieldLines(a, b, expectedPath, expectedHash);
  }

  /** The order of the reference tokens does not matter either. */
  lemma ReferenceOrderIrrelevant(path: ByteString, narHash: ByteString, narSize: ByteString, references: ByteString,
                                 permuted: ByteString, expectedPath: Option<ByteString>, expectedHash: ByteString)
    requires multiset(ReferenceTokens(references)) == multiset(ReferenceTokens(permuted))
    ensures FromFields(path, narHash, narSize, references, expectedPath, expectedHash)
            == FromFields(path, narHash, narSize, permuted, expectedPath, expectedHash)
  {
    hide FromFields, Render, Sort, ReferenceTokens, CanonicalParts;
    FromFieldsIff(path, narHash, narSize, references, expectedPath, expectedHash);
    FromFieldsIff(path, narHash, narSize, permuted, expectedPath, expectedHash);
    SortPermuted(ReferenceTokens(references), ReferenceTokens(permuted));
  }

  // ------------------------------------------------------------- what it determines

  lemma RenderInjective(p1: ByteString, h1: ByteString, s1: ByteString, b1: seq<ByteString>, p2: ByteString,
                        h2: ByteString, s2: ByteString, b2: seq<ByteString>)
    requires CanonicalParts(p1, h1, s1, b1) && CanonicalParts(p2, h2, s2, b2)
    requires Render(p1, h1, s1, b1) == Render(p2, h2, s2, b2)
    ensures p1 == p2 && h1 == h2 && s1 == s2 && b1 == b2
  {
    hide ValidStorePath, IsNix32Sha256, ValidNarSize, RenderReferences, StrictlyAscending, StoreBaseHash;
    CanonicalPartsPlain(p1, h1, s1, b1);
    CanonicalPartsPlain(p2, h2, s2, b2);
    SplitParts(p1, h1, s1, RenderReferences(b1));
    SplitParts(p2, h2, s2, RenderReferences(b2));
    var l1, l2 := Parts(p1, h1, s1, RenderReferences(b1)), Parts(p2, h2, s2, RenderReferences(b2));
    assert l1 == l2;
    assert l1[1] == l2[1] && l1[2] == l2[2] && l1[3] == l2[3] && l1[4] == l2[4];
    ReferencesInjective(b1, b2);
  }

  lemma ReferencesInjective(a: seq<ByteString>, b: seq<ByteString>)
    requires AllStoreBases(a) && AllStoreBases(b) && RenderReferences(a) == RenderReferences(b)
    ensures a == b
  {
    hide StoreBaseHash;
    RenderedReferences(a);
    RenderedReferences(b);
    if a != [] && b != [] {
      var pa, pb := StorePaths(a), StorePaths(b);
      assert pa == pb;
      forall i | 0 <= i < |a|
        ensures a[i] == b[i]
      {
        assert pa[i][|STORE_PREFIX|..] == a[i] && pb[i][|STORE_PREFIX|..] == b[i];
      }
    }
  }

  /** Two records with the same fingerprint agree on store path, NAR hash, NAR size and
      the set of references: a signature over it can stand for no other record. */
  lemma FingerprintDetermines(a: ByteString, b: ByteString, pathA: Option<ByteString>, hashA: ByteString,
                              pathB: Option<ByteString>, hashB: ByteString)
    requires FromNarinfo(a, pathA, hashA).Some? && FromNarinfo(a, pathA, hashA) == FromNarinfo(b, pathB, hashB)
    ensures ExactlyOne(a, STORE_PATH) == ExactlyOne(b, STORE_PATH)
    ensures ExactlyOne(a, NAR_HASH) == ExactlyOne(b, NAR_HASH)
    ensures ExactlyOne(a, NAR_SIZE) == ExactlyOne(b, NAR_SIZE)
    ensures ExactlyOne(a, REFERENCES).Found? && ExactlyOne(b, REFERENCES).Found?
    ensures multiset(ReferenceTokens(ExactlyOne(a, REFERENCES).value))
            == multiset(ReferenceTokens(ExactlyOne(b, REFERENCES).value))
  {
    hide ExactlyOne, FromFields, CanonicalParts, Render, Sort, ReferenceTokens;
    var p1, h1, s1 := ExactlyOne(a, STORE_PATH), ExactlyOne(a, NAR_HASH), ExactlyOne(a, NAR_SIZE);
    var p2, h2, s2 := ExactlyOne(b, STORE_PATH), ExactlyOne(b, NAR_HASH), ExactlyOne(b, NAR_SIZE);
    var r1, r2 := ExactlyOne(a, REFERENCES), ExactlyOne(b, REFERENCES);
    FromFieldsIff(p1.value, h1.value, s1.value, r1.value, pathA, hashA);
    FromFieldsIff(p2.value, h2.value, s2.value, r2.value, pathB, hashB);
    var t1, t2 := ReferenceTokens(r1.value), ReferenceTokens(r2.value);
    RenderInjective(p1.value, h1.value, s1.value, Sort(t1), p2.value, h2.value, s2.value, Sort(t2));
    SortSpec(t1);
    SortSpec(t2);
  }

  // ---------------------------------------------------------------- edits and lines

  /** Splitting at newlines and iterating over lines see the same contents, up to the empty
      piece after a final newline. */
  lemma {:induction false} SplitIsContents(s: ByteString)
    ensures Split(s, NL) == Contents(Lines(s)) + (if s == [] || Terminated(s) then [[]] else [])
    decreases |s|
  {
    hide Position, Contents;
    var k := Position(s, NL);
    if s == [] {
      EmptyContents();
    } else if k < |s| {
      var line, rest := s[..k + 1], s[k + 1..];
      SplitIsContents(rest);
      assert Split(s, NL) == [s[..k]] + Split(rest, NL);
      assert Lines(s) == [line] + Lines(rest);
      ContentsCons(line, Lines(rest));
      assert Content(line) == s[..k];
      assert (rest == [] || Terminated(rest)) == Terminated(s);
    } else {
      assert s[..LineEnd(s)] == s && s[LineEnd(s)..] == [];
      assert Lines(s) == [s] + Lines([]) && Lines([]) == [];
      OneContent(s);
    }
  }

  lemma EmptyContents()
    ensures Contents([]) == []
  {
  }

  lemma ContentsCons(line: ByteString, lines: seq<ByteString>)
    ensures Contents([line] + lines) == [Content(line)] + Contents(lines)
  {
    hide Content;
  }

  lemma OneContent(s: ByteString)
    requires s != [] && NL !in s
    ensures Contents([s]) == [s] && !Terminated(s)
  {
    assert s[|s| - 1] in s;
  }

  lemma FieldIsUnsigned(line: ByteString)
    requires FieldLine()(line)
    ensures !(SIG <= line)
  {
    if STORE_PATH <= line {
      assert line[1] == STORE_PATH[1] != SIG[1];
    } else {
      assert line[0] == NAR_HASH[0] == NAR_SIZE[0] || line[0] == REFERENCES[0];
      assert line[0] != SIG[0];
    }
  }

  lemma FieldLinesUnsigned(s: ByteString)
    ensures AllFieldLines(s) == Filter(FieldLine(), UnsignedLines(Contents(Lines(s))))
  {
    hide Split, Lines, Contents;
    var c := Contents(Lines(s));
    SplitIsContents(s);
    var tail: seq<ByteString> := if s == [] || Terminated(s) then [[]] else [];
    FilterAppend(FieldLine(), c, tail);
    FilterNone(FieldLine(), tail);
    forall line | line in c && FieldLine()(line)
      ensures UnsignedLine()(line)
    {
      FieldIsUnsigned(line);
    }
    FilterImplied(FieldLine(), UnsignedLine(), c);
  }

  /** Records with the same non-signature lines have the same fingerprint. */
  lemma SignaturesIrrelevant(a: ByteString, b: ByteString, expectedPath: Option<ByteString>, expectedHash: ByteString)
    requires UnsignedLines(Contents(Lines(a))) == UnsignedLines(Contents(Lines(b)))
    ensures FromNarinfo(a, expectedPath, expectedHash) == FromNarinfo(b, expectedPath, expectedHash)
    ensures ExactlyOne(a, STORE_PATH) == ExactlyOne(b, STORE_PATH)
  {
    hide AllFieldLines, UnsignedLines, Lines, Contents, FromNarinfo, ExactlyOne;
    FieldLinesUnsigned(a);
    FieldLinesUnsigned(b);
    DependsOnFieldLines(a, b, expectedPath, expectedHash);
    FieldPermuted(a, b, STORE_PATH);
  }
}
