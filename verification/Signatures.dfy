/** Classification of the signatures a record already carries for one cache key. */
module Signatures {
  import opened Bytes
  import opened Sequences
  import opened Narinfo
  import opened Fingerprint
  import opened FingerprintBuilder
  import opened CanonicalFingerprint

  const SIGNATURE_LEN: nat := 64

  datatype Identity = Identity(keyName: ByteString, publicKey: ByteString, backendVersion: nat)

  /** Ed25519 strict verification (false for an invalid key) and standard base64. */
  datatype Crypto = Crypto(
    verify: (ByteString, ByteString, ByteString) -> bool,
    encode64: ByteString -> ByteString,
    decode64: ByteString -> Option<ByteString>)

  /** The laws of base64 that the code relies on: decoding undoes encoding, and the
      alphabet has no line ending. */
  ghost predicate Lawful(c: Crypto) {
    forall s: ByteString :: |s| == SIGNATURE_LEN ==>
      && c.decode64(c.encode64(s)) == Some(s)
      && NL !in c.encode64(s) && CR !in c.encode64(s)
  }

  datatype Existing = Absent | Verified(value: ByteString) | Conflict

  function KeyPrefix(id: Identity): (r: ByteString) {
    SIG + id.keyName + [COLON]
  }

  /** A base64 text that is the canonical encoding of a verifying signature. */
  predicate GenuineText(c: Crypto, id: Identity, fingerprint: ByteString, encoded: ByteString) {
    var decoded := c.decode64(encoded);
    && decoded.Some? && |decoded.value| == SIGNATURE_LEN
    && c.verify(id.publicKey, fingerprint, decoded.value)
    && c.encode64(decoded.value) == encoded
  }

  predicate Genuine(c: Crypto, id: Identity, fingerprint: ByteString, line: ByteString) {
    KeyPrefix(id) <= line && GenuineText(c, id, fingerprint, line[|KeyPrefix(id)|..])
  }

  /** The value after `Sig: ` for a raw signature. */
  function SignatureValue(c: Crypto, id: Identity, signature: ByteString): (r: ByteString) {
    id.keyName + [COLON] + c.encode64(signature)
  }

  predicate AllGenuine(c: Crypto, id: Identity, fingerprint: ByteString, lines: seq<ByteString>) {
    forall i :: 0 <= i < |lines| ==> Genuine(c, id, fingerprint, lines[i])
  }

  /** The classification of the lines that carry the key name. */
  function Classify(c: Crypto, id: Identity, fingerprint: ByteString, lines: seq<ByteString>): (r: Existing) {
    if lines == [] then Absent
    else if AllGenuine(c, id, fingerprint, lines) && AllEqual(lines, lines[0]) then
      Verified(lines[0][|SIG|..])
    else Conflict
  }

  function Inspect(c: Crypto, narinfo: ByteString, id: Identity, fingerprint: ByteString): (r: Existing) {
    Classify(c, id, fingerprint, FieldLines(narinfo, KeyPrefix(id)))
  }

  lemma GenuineLine(c: Crypto, id: Identity, fingerprint: ByteString, line: ByteString)
    requires Genuine(c, id, fingerprint, line)
    ensures |SIG| <= |line| && line == SIG + line[|SIG|..]
    ensures var decoded := c.decode64(line[|KeyPrefix(id)|..]).value;
            line[|SIG|..] == SignatureValue(c, id, decoded)
  {
    var encoded := line[|KeyPrefix(id)|..];
    assert line == KeyPrefix(id) + encoded;
    assert KeyPrefix(id) + encoded == SIG + (id.keyName + [COLON] + encoded);
  }

  /** Two accumulators decide the classification in one pass. */
  method InspectExistingSignature(c: Crypto, narinfo: ByteString, id: Identity, fingerprint: ByteString)
    returns (r: Existing)
    ensures r == Inspect(c, narinfo, id, fingerprint)
  {
    hide GenuineText, Split;
    var prefix, lines := KeyPrefix(id), Split(narinfo, NL);
    var verified: Option<ByteString> := None;
    var conflict := false;
    ghost var p := HasPrefix(prefix);
    for i := 0 to |lines|
      invariant Progress(c, id, fingerprint, Filter(p, lines[..i]), verified, conflict)
    {
      FilterTake(p, lines, i);
      ghost var seen := Filter(p, lines[..i]);
      assert seen + [] == seen;
      if prefix <= lines[i] {
        var encoded := lines[i][|prefix|..];
        if GenuineText(c, id, fingerprint, encoded) {
          GenuineLine(c, id, fingerprint, lines[i]);
          var value := lines[i][|SIG|..];
          if verified.Some? && verified.value != value {
            ProgressClash(c, id, fingerprint, seen, lines[i], verified.value, conflict);
            conflict := true;
          } else {
            ProgressGenuine(c, id, fingerprint, seen, lines[i], verified, conflict);
            verified := Some(value);
          }
        } else {
          ProgressBad(c, id, fingerprint, seen, lines[i], verified, conflict);
          conflict := true;
        }
      }
    }
    assert lines[..|lines|] == lines;
    ProgressDone(c, id, fingerprint, FieldLines(narinfo, prefix), verified, conflict);
    return if conflict then Conflict else if verified.Some? then Verified(verified.value) else Absent;
  }

  /** What the two accumulators mean after some matching lines. */
  predicate Progress(c: Crypto, id: Identity, fingerprint: ByteString, seen: seq<ByteString>,
                     verified: Option<ByteString>, conflict: bool)
  {
    && (verified.Some? ==> SIG + verified.value in seen)
    && (!conflict ==> AllGenuine(c, id, fingerprint, seen))
    && (!conflict ==> if verified.Some? then AllEqual(seen, SIG + verified.value) else seen == [])
    && (conflict ==> exists i, j :: 0 <= i < |seen| && 0 <= j < |seen|
                       && (!Genuine(c, id, fingerprint, seen[i]) || seen[i] != seen[j]))
  }

  lemma ProgressGenuine(c: Crypto, id: Identity, fingerprint: ByteString, seen: seq<ByteString>, line: ByteString,
                        verified: Option<ByteString>, conflict: bool)
    requires Progress(c, id, fingerprint, seen, verified, conflict)
    requires Genuine(c, id, fingerprint, line) && SIG <= line
    requires verified.Some? ==> SIG + verified.value == line
    ensures Progress(c, id, fingerprint, seen + [line], Some(line[|SIG|..]), conflict)
  {
    hide Genuine;
    var seen' := seen + [line];
    assert line == SIG + line[|SIG|..];
    assert seen'[|seen|] == line;
    if conflict {
      var i, j :| 0 <= i < |seen| && 0 <= j < |seen|
                  && (!Genuine(c, id, fingerprint, seen[i]) || seen[i] != seen[j]);
      assert seen'[i] == seen[i] && seen'[j] == seen[j];
    }
  }

  lemma ProgressClash(c: Crypto, id: Identity, fingerprint: ByteString, seen: seq<ByteString>, line: ByteString,
                      current: ByteString, conflict: bool)
    requires Progress(c, id, fingerprint, seen, Some(current), conflict)
    requires SIG <= line && line[|SIG|..] != current
    ensures Progress(c, id, fingerprint, seen + [line], Some(current), true)
  {
    hide Genuine;
    var seen' := seen + [line];
    var k :| 0 <= k < |seen| && seen[k] == SIG + current;
    assert seen'[k] != seen'[|seen|] by {
      assert (SIG + current)[|SIG|..] == current;
    }
    assert seen'[k] in seen';
  }

  lemma ProgressBad(c: Crypto, id: Identity, fingerprint: ByteString, seen: seq<ByteString>, line: ByteString,
                    verified: Option<ByteString>, conflict: bool)
    requires Progress(c, id, fingerprint, seen, verified, conflict)
    requires !Genuine(c, id, fingerprint, line)
    ensures Progress(c, id, fingerprint, seen + [line], verified, true)
  {
    hide Genuine;
    var seen' := seen + [line];
    assert !Genuine(c, id, fingerprint, seen'[|seen|]);
  }

  lemma ProgressDone(c: Crypto, id: Identity, fingerprint: ByteString, lines: seq<ByteString>,
                     verified: Option<ByteString>, conflict: bool)
    requires Progress(c, id, fingerprint, lines, verified, conflict)
    ensures Classify(c, id, fingerprint, lines)
            == if conflict then Conflict else if verified.Some? then Verified(verified.value) else Absent
  {
    hide Genuine;
    if conflict {
      var i, j :| 0 <= i < |lines| && 0 <= j < |lines|
                  && (!Genuine(c, id, fingerprint, lines[i]) || lines[i] != lines[j]);
    } else if verified.Some? {
      assert lines[0] == SIG + verified.value;
      assert lines[0][|SIG|..] == verified.value;
    }
  }

  // ------------------------------------------------------------- what it means

  /** `Verified(v)` exactly when some line carries the key name and every such line is
      genuine and reads `Sig: v`. */
  lemma VerifiedIff(c: Crypto, narinfo: ByteString, id: Identity, fingerprint: ByteString, v: ByteString)
    ensures Inspect(c, narinfo, id, fingerprint) == Verified(v)
            <==> var lines := FieldLines(narinfo, KeyPrefix(id));
                 lines != [] && AllGenuine(c, id, fingerprint, lines) && AllEqual(lines, SIG + v)
  {
    hide GenuineText, Split, KeyPrefix, Filter;
    var lines := FieldLines(narinfo, KeyPrefix(id));
    if lines != [] && AllGenuine(c, id, fingerprint, lines) {
      GenuineLine(c, id, fingerprint, lines[0]);
      assert (SIG + v)[|SIG|..] == v;
    }
  }

  /** `Absent` exactly when no line carries the key name; every other case is a conflict. */
  lemma AbsentIff(c: Crypto, narinfo: ByteString, id: Identity, fingerprint: ByteString)
    ensures Inspect(c, narinfo, id, fingerprint) == Absent
            <==> forall line :: line in Split(narinfo, NL) ==> !(KeyPrefix(id) <= line)
  {
    hide GenuineText, Split, KeyPrefix, Filter;
    FilterEmptyIff(HasPrefix(KeyPrefix(id)), Split(narinfo, NL));
    CarriesKey(narinfo, KeyPrefix(id));
  }

  lemma CarriesKey(narinfo: ByteString, prefix: ByteString)
    ensures (forall line :: line in Split(narinfo, NL) ==> !HasPrefix(prefix)(line))
            <==> forall line :: line in Split(narinfo, NL) ==> !(prefix <= line)
  {
    hide Split;
    assert forall line :: HasPrefix(prefix)(line) <==> prefix <= line;
  }

  lemma ClassifyPermuted(c: Crypto, id: Identity, fingerprint: ByteString, a: seq<ByteString>, b: seq<ByteString>)
    requires multiset(a) == multiset(b)
    ensures Classify(c, id, fingerprint, a) == Classify(c, id, fingerprint, b)
  {
    hide Genuine;
    SameElements(a, b);
    if a != [] && AllGenuine(c, id, fingerprint, a) && AllEqual(a, a[0]) {
      ClassifyImplied(c, id, fingerprint, a, b);
    } else if b != [] && AllGenuine(c, id, fingerprint, b) && AllEqual(b, b[0]) {
      ClassifyImplied(c, id, fingerprint, b, a);
    }
  }

  lemma ClassifyImplied(c: Crypto, id: Identity, fingerprint: ByteString, a: seq<ByteString>, b: seq<ByteString>)
    requires a != [] && b != [] && forall x :: x in a <==> x in b
    requires AllGenuine(c, id, fingerprint, a) && AllEqual(a, a[0])
    ensures AllGenuine(c, id, fingerprint, b) && AllEqual(b, b[0]) && a[0] == b[0]
  {
    hide Genuine;
    assert a[0] in b && b[0] in a;
    forall i | 0 <= i < |b|
      ensures b[i] == a[0] && Genuine(c, id, fingerprint, b[i])
    {
      assert b[i] in a;
    }
  }

  /** The answer does not depend on the order of the lines. */
  lemma InspectOrderIrrelevant(c: Crypto, a: ByteString, b: ByteString, id: Identity, fingerprint: ByteString)
    requires multiset(Split(a, NL)) == multiset(Split(b, NL))
    ensures Inspect(c, a, id, fingerprint) == Inspect(c, b, id, fingerprint)
  {
    hide Split, Filter, Classify, KeyPrefix;
    FilterPermuted(HasPrefix(KeyPrefix(id)), Split(a, NL), Split(b, NL));
    ClassifyPermuted(c, id, fingerprint, FieldLines(a, KeyPrefix(id)), FieldLines(b, KeyPrefix(id)));
  }

  // ------------------------------------------------- agreement with the edit's view

  lemma KeyPrefixIsLineKey(id: Identity, line: ByteString)
    requires WellFormedKeyName(id.keyName)
    ensures KeyPrefix(id) <= line <==> LineKey(line) == Some(id.keyName)
  {
    if LineKey(line) == Some(id.keyName) {
      var value := line[|SIG|..];
      assert line == SIG + value;
      assert id.keyName + [COLON] <= value;
      assert KeyPrefix(id) == SIG + (id.keyName + [COLON]);
    }
    if KeyPrefix(id) <= line {
      var rest := line[|KeyPrefix(id)|..];
      assert line == SIG + (id.keyName + [COLON] + rest);
      assert line[|SIG|..] == id.keyName + [COLON] + rest;
      SignatureKeyOf(id.keyName, rest);
    }
  }

  /** The lines classified for a key are the lines an edit treats as signed by it. */
  lemma InspectedLines(narinfo: ByteString, id: Identity)
    requires WellFormedKeyName(id.keyName)
    ensures FieldLines(narinfo, KeyPrefix(id)) == SignaturesBy(Contents(Lines(narinfo)), id.keyName)
  {
    hide Split, Lines, Contents, LineKey, WellFormedKeyName;
    var p, q, c := HasPrefix(KeyPrefix(id)), SignedBy(id.keyName), Contents(Lines(narinfo));
    SplitIsContents(narinfo);
    var tail: seq<ByteString> := if narinfo == [] || Terminated(narinfo) then [[]] else [];
    FilterAppend(p, c, tail);
    FilterNone(p, tail);
    forall line | line in c
      ensures p(line) <==> q(line)
    {
      KeyPrefixIsLineKey(id, line);
    }
    FilterSame(p, q, c);
  }

  lemma {:induction false} FilterSame(p: ByteString -> bool, q: ByteString -> bool, xs: seq<ByteString>)
    requires forall x :: x in xs ==> (p(x) <==> q(x))
    ensures Filter(p, xs) == Filter(q, xs)
    decreases |xs|
  {
    if xs != [] {
      assert xs[0] in xs;
      assert forall x :: x in xs[1..] ==> x in xs;
      FilterSame(p, q, xs[1..]);
    }
  }
}
