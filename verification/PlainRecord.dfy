/** A concrete family of records without signatures, used by the examples. */
module PlainRecord {
  import opened Bytes
  import opened Sequences
  import opened Ordering
  import opened Narinfo
  import opened NarinfoEdits
  import opened Fingerprint
  import opened CanonicalFingerprint
  import opened Signatures
  import opened SigningTarget

  const ZEROS: ByteString := Repeat(48, 32)
  const BASE: ByteString := ZEROS + Ascii("-x")
  const PATH: ByteString := STORE_PREFIX + BASE
  const PATH_LINE: ByteString := STORE_PATH + PATH
  const SIZE_LINE: ByteString := NAR_SIZE + Ascii("1")

  /** Length of the last line that fills the record to the limit. */
  const PADDING: nat := MAX_NARINFO_BYTES - |PATH_LINE| - |ZERO_HASH| - |SIZE_LINE| - |REFERENCES| - 4

  /** A record without signatures whose last line has `n` octets and no newline. */
  function PlainLines(n: nat): (r: seq<ByteString>) {
    [PATH_LINE, ZERO_HASH, SIZE_LINE, REFERENCES, Repeat(120, n)]
  }

  function PlainBytes(n: nat): (r: ByteString) { Join(PlainLines(n), NL) }

  const PLAIN_TARGET: Target := Target(ZEROS + Ascii(".narinfo"), None, ZEROS)

  lemma PlainLinesHaveNoNewline(n: nat)
    requires n > 3
    ensures forall i :: 0 <= i < |PlainLines(n)| ==> NL !in PlainLines(n)[i]
  {
    hide Repeat;
    assert forall i :: 0 <= i < |ZERO_HASH| ==> ZERO_HASH[i] != NL by { ZeroHashLine(); }
    assert NL !in PATH_LINE && NL !in SIZE_LINE && NL !in REFERENCES && NL !in Repeat(120, n);
  }

  lemma PlainLength(n: nat)
    requires n > 3
    ensures |PlainBytes(n)| == MAX_NARINFO_BYTES - PADDING + n && PlainBytes(n) != []
  {
    hide PATH_LINE, SIZE_LINE, REFERENCES, ZERO_HASH;
    JoinLength(PlainLines(n), NL);
    var none: seq<ByteString> := [];
    TotalLengthCons(Repeat(120, n), none);
    TotalLengthCons(REFERENCES, [Repeat(120, n)] + none);
    TotalLengthCons(SIZE_LINE, [REFERENCES] + ([Repeat(120, n)] + none));
    TotalLengthCons(ZERO_HASH, [SIZE_LINE] + ([REFERENCES] + ([Repeat(120, n)] + none)));
    TotalLengthCons(PATH_LINE, [ZERO_HASH] + ([SIZE_LINE] + ([REFERENCES] + ([Repeat(120, n)] + none))));
    assert PlainLines(n) == [PATH_LINE] + ([ZERO_HASH] + ([SIZE_LINE] + ([REFERENCES] + ([Repeat(120, n)] + none))));
  }

  lemma PlainContents(n: nat)
    requires n > 3
    ensures Split(PlainBytes(n), NL) == PlainLines(n) && Contents(Lines(PlainBytes(n))) == PlainLines(n)
  {
    hide Lines, Contents, Split;
    PlainLinesHaveNoNewline(n);
    SplitJoin(PlainLines(n), NL);
    PlainLength(n);
    SplitIsContents(PlainBytes(n));
    PlainIsOpen(n);
    assert Contents(Lines(PlainBytes(n))) + [] == Contents(Lines(PlainBytes(n)));
  }

  lemma PlainIsOpen(n: nat)
    requires n > 3
    ensures !Terminated(PlainBytes(n))
  {
    hide Repeat;
    JoinEnds(PlainLines(n), NL);
    assert Repeat(120, n)[n - 1] == 120;
    assert PlainLines(n)[4] == Repeat(120, n);
  }

  lemma {:induction false} JoinEnds(pieces: seq<ByteString>, sep: Byte)
    requires |pieces| >= 1 && pieces[|pieces| - 1] != []
    ensures var s, last := Join(pieces, sep), pieces[|pieces| - 1];
            s != [] && s[|s| - 1] == last[|last| - 1]
    decreases |pieces|
  {
    if |pieces| > 1 {
      JoinEnds(pieces[1..], sep);
    }
  }

  lemma OnlyLine(n: nat, p: ByteString -> bool, k: nat)
    requires n > 3
    requires k < 5 && p(PlainLines(n)[k])
    requires forall i :: 0 <= i < 5 && i != k ==> !p(PlainLines(n)[i])
    ensures Filter(p, PlainLines(n)) == [PlainLines(n)[k]]
  {
    var before, after := PlainLines(n)[..k], PlainLines(n)[k + 1..];
    assert PlainLines(n) == before + [PlainLines(n)[k]] + after;
    FilterInsert(p, before, PlainLines(n)[k], after);
    FilterNone(p, before);
    FilterNone(p, after);
  }

  /** First two bytes tell the five lines apart. */
  lemma LineHeads(n: nat)
    requires n > 3
    ensures PATH_LINE[0] == 83 && PATH_LINE[1] == 116
    ensures ZERO_HASH[0] == 78 && ZERO_HASH[3] == 72
    ensures SIZE_LINE[0] == 78 && SIZE_LINE[3] == 83
    ensures REFERENCES[0] == 82 && Repeat(120, n)[0] == 120
    ensures STORE_PATH[0] == 83 && STORE_PATH[1] == 116 && SIG[0] == 83 && SIG[1] == 105
    ensures NAR_HASH[0] == 78 && NAR_HASH[3] == 72 && NAR_SIZE[0] == 78 && NAR_SIZE[3] == 83
  {
    hide Repeat;
  }

  lemma PlainField(n: nat, prefix: ByteString, k: nat, value: ByteString)
    requires n > 3
    requires k < 5 && PlainLines(n)[k] == prefix + value
    requires forall i :: 0 <= i < 5 && i != k ==> !(prefix <= PlainLines(n)[i])
    ensures ExactlyOne(PlainBytes(n), prefix) == Found(value)
  {
    hide Split, PATH_LINE, SIZE_LINE, Repeat, ZERO_HASH;
    PlainContents(n);
    OnlyLine(n, HasPrefix(prefix), k);
    assert (prefix + value)[|prefix|..] == value;
  }

  lemma PlainFields(n: nat)
    requires n > 3
    ensures ExactlyOne(PlainBytes(n), STORE_PATH) == Found(PATH)
    ensures ExactlyOne(PlainBytes(n), NAR_HASH) == Found(SHA256 + Repeat(48, 52))
    ensures ExactlyOne(PlainBytes(n), NAR_SIZE) == Found(Ascii("1"))
    ensures ExactlyOne(PlainBytes(n), REFERENCES) == Found([])
  {
    hide Repeat, ExactlyOne, PlainBytes;
    LineHeads(n);
    PlainField(n, STORE_PATH, 0, PATH);
    assert ZERO_HASH == NAR_HASH + (SHA256 + Repeat(48, 52));
    PlainField(n, NAR_HASH, 1, SHA256 + Repeat(48, 52));
    PlainField(n, NAR_SIZE, 2, Ascii("1"));
    assert REFERENCES == REFERENCES + [];
    PlainField(n, REFERENCES, 3, []);
  }

  /** A line whose first bytes are those of no checked field. */
  lemma PlainLine(line: ByteString)
    requires |line| > 3 && !(line[0] == 78 && line[3] == 72) && !(line[0] == 83 && line[1] == 105)
    ensures WellFormedLine(line) && !(NAR_HASH <= line)
  {
    hide LineKey, IsNix32Sha256;
    assert NAR_HASH[0] == 78 && NAR_HASH[3] == 72;
    assert SIG_FIELD[0] == 83 && SIG_FIELD[1] == 105 && SIG[0] == 83 && SIG[1] == 105;
  }

  lemma FixedLinesPlain()
    ensures WellFormedLine(PATH_LINE) && !(NAR_HASH <= PATH_LINE)
    ensures WellFormedLine(SIZE_LINE) && !(NAR_HASH <= SIZE_LINE)
    ensures WellFormedLine(REFERENCES) && !(NAR_HASH <= REFERENCES)
  {
    hide WellFormedLine, Repeat, NAR_HASH;
    LineHeads(4);
    PlainLine(PATH_LINE);
    PlainLine(SIZE_LINE);
    PlainLine(REFERENCES);
  }

  lemma PaddingPlain(n: nat)
    requires n > 3
    ensures WellFormedLine(Repeat(120, n)) && !(NAR_HASH <= Repeat(120, n))
  {
    hide WellFormedLine, Repeat, NAR_HASH;
    PlainLine(Repeat(120, n));
  }

  lemma PlainWellFormed(n: nat)
    requires n > 3
    ensures forall i :: 0 <= i < |PlainLines(n)| ==> WellFormedLine(PlainLines(n)[i])
    ensures forall i :: 0 <= i < |PlainLines(n)| ==> (NAR_HASH <= PlainLines(n)[i] <==> i == 1)
  {
    hide WellFormedLine, Repeat, NAR_HASH, PATH_LINE, SIZE_LINE, REFERENCES, ZERO_HASH;
    ZeroHashLine();
    FixedLinesPlain();
    PaddingPlain(n);
  }

  lemma PlainValid(n: nat)
    requires 3 < n <= PADDING
    ensures ValidNarinfo(PlainBytes(n))
  {
    hide Lines, Contents, WellFormedLine, Filter, PlainBytes, PlainLines;
    PlainLength(n);
    PlainContents(n);
    PlainWellFormed(n);
    FiveLines(n);
    OnlyLine(n, NarHashLine(), 1);
    PlainHasNoReturn(n);
  }

  lemma FiveLines(n: nat)
    requires n > 3
    ensures |PlainLines(n)| == 5
  {
  }

  lemma PlainHasNoReturn(n: nat)
    requires n > 3
    ensures CR !in PlainBytes(n)
  {
    hide Repeat;
    assert CR !in ZERO_HASH by {
      assert CR !in NAR_HASH && CR !in SHA256;
    }
    assert CR !in PATH_LINE by {
      assert CR !in STORE_PATH && CR !in STORE_PREFIX && CR !in BASE;
    }
    JoinBytes(PlainLines(n), NL, CR);
  }

  lemma {:induction false} JoinBytes(pieces: seq<ByteString>, sep: Byte, b: Byte)
    requires |pieces| >= 1 && b != sep && forall i :: 0 <= i < |pieces| ==> b !in pieces[i]
    ensures b !in Join(pieces, sep)
    decreases |pieces|
  {
    if |pieces| > 1 {
      JoinBytes(pieces[1..], sep, b);
    }
  }

  lemma PlainPath()
    ensures StorePathHash(PATH) == Some(ZEROS)
  {
    hide Repeat;
    assert PATH[|STORE_PREFIX|..] == BASE;
    PositionUnique(BASE, DASH, 32);
    assert BASE[..32] == ZEROS && BASE[33..] == Ascii("x");
    assert Ascii("x")[0] == 120;
  }

  /** The fingerprint of the record, written out. */
  const PLAIN_TEXT: ByteString :=
    Ascii("1;/nix/store/") + ZEROS + Ascii("-x;sha256:") + Repeat(48, 52) + Ascii(";1;")

  lemma PlainFingerprint(n: nat)
    requires n > 3
    ensures FingerprintOf(PlainBytes(n), PLAIN_TARGET) == Some(PLAIN_TEXT)
  {
    hide Repeat, ExactlyOne, FromFields, StorePathHash, Render;
    var narHash, narSize, none: seq<ByteString> := SHA256 + Repeat(48, 52), Ascii("1"), [];
    PlainFields(n);
    PlainPath();
    ZeroHashLine();
    assert ZERO_HASH[|NAR_HASH|..] == narHash;
    assert ReferenceTokens([]) == none && Sort(none) == none;
    assert DecimalValue(narSize) == 1 by {
      assert narSize[..0] == [];
      assert DecimalValue([]) == 0;
    }
    RenderedLengthExact(PATH, narHash, narSize, none);
    FromFieldsIff(PATH, narHash, narSize, [], None, ZEROS);
    PlainRendering(narHash);
  }

  lemma PlainRendering(narHash: ByteString)
    requires narHash == SHA256 + Repeat(48, 52)
    ensures Render(PATH, narHash, Ascii("1"), []) == PLAIN_TEXT
  {
    hide Repeat, Join, PATH, VERSION;
    var size, none: ByteString := Ascii("1"), [];
    FiveJoined(VERSION, PATH, narHash, size, none);
    PlainSpelled(narHash);
    assert RenderReferences([]) == none;
  }

  lemma FiveJoined(a: ByteString, b: ByteString, c: ByteString, d: ByteString, e: ByteString)
    ensures Join([a, b, c, d, e], SEMICOLON)
            == a + [SEMICOLON] + (b + [SEMICOLON] + (c + [SEMICOLON] + (d + [SEMICOLON] + e)))
  {
    hide Join;
    JoinFirst(a, [b, c, d, e]);
    JoinFirst(b, [c, d, e]);
    JoinFirst(c, [d, e]);
    JoinFirst(d, [e]);
    JoinLast(e);
    assert [a] + [b, c, d, e] == [a, b, c, d, e] && [b] + [c, d, e] == [b, c, d, e];
    assert [c] + [d, e] == [c, d, e] && [d] + [e] == [d, e];
  }

  lemma JoinLast(last: ByteString)
    ensures Join([last], SEMICOLON) == last
  {
  }

  lemma PlainSpelled(narHash: ByteString)
    requires narHash == SHA256 + Repeat(48, 52)
    ensures VERSION + [SEMICOLON] + (PATH + [SEMICOLON] + (narHash + [SEMICOLON] + (Ascii("1") + [SEMICOLON] + [])))
            == PLAIN_TEXT
  {
    hide Repeat, ZEROS;
    assert Ascii("1;/nix/store/") == VERSION + [SEMICOLON] + STORE_PREFIX;
    assert Ascii("-x;sha256:") == Ascii("-x") + [SEMICOLON] + SHA256;
    assert Ascii(";1;") == [SEMICOLON] + Ascii("1") + [SEMICOLON];
  }

  lemma JoinFirst(first: ByteString, rest: seq<ByteString>)
    requires rest != []
    ensures Join([first] + rest, SEMICOLON) == first + [SEMICOLON] + Join(rest, SEMICOLON)
  {
    assert ([first] + rest)[1..] == rest;
  }

  /** Every key finds its signature missing. */
  lemma PlainNeedsSignature(c: Crypto, n: nat, id: Identity, oldNames: Option<seq<ByteString>>)
    requires 3 < n <= PADDING
    ensures Decide(c, PlainBytes(n), PLAIN_TARGET, id, oldNames) == Success(NeedSignature)
    ensures Preview(c, PlainBytes(n), PLAIN_TARGET, id, SignRecord) == WouldChange
  {
    hide FromNarinfo, Split, ValidateForMutation, ValidNarinfo, PlainBytes;
    PlainValid(n);
    ValidationIff(PlainBytes(n));
    PlainFingerprint(n);
    PlainContents(n);
    LineHeads(n);
    forall line | line in Split(PlainBytes(n), NL)
      ensures !(KeyPrefix(id) <= line)
    {
      assert KeyPrefix(id)[0] == SIG[0] && KeyPrefix(id)[1] == SIG[1];
    }
    AbsentIff(c, PlainBytes(n), id, FingerprintOf(PlainBytes(n), PLAIN_TARGET).value);
  }

  lemma PlainUnsigned(n: nat)
    requires n > 3
    ensures forall i :: 0 <= i < |PlainLines(n)| ==> !(SIG <= PlainLines(n)[i])
  {
    LineHeads(n);
  }
}
