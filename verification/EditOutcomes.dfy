/** When a narinfo edit is accepted, refused or without effect, read off the record's lines. */
module EditOutcomes {
  import opened Bytes
  import opened Sequences
  import opened Narinfo
  import opened NarinfoEdits

  /** The signatures of `key` that the edit leaves in place. */
  function KeptSignatures(s: ByteString, names: seq<ByteString>, key: ByteString): (r: seq<ByteString>) {
    if key in names then [] else SignaturesBy(Contents(Lines(s)), key)
  }

  predicate SoundArguments(m: Mutation) {
    ValidKeyNames(RemovedNames(m)) && (AddedSignature(m).Some? ==> ValidSignatureArgument(AddedSignature(m).value))
  }

  /** No signature of the same key that stays differs from the added one. */
  predicate NoRival(s: ByteString, m: Mutation)
    requires SoundArguments(m)
  {
    AddedSignature(m).Some? ==>
      var v := AddedSignature(m).value;
      AllEqual(KeptSignatures(s, RemovedNames(m), SignatureKey(v).value), SIG + v)
  }

  /** A line that has to be inserted fits. */
  predicate Room(s: ByteString, m: Mutation)
    requires SoundArguments(m)
  {
    AddedSignature(m).Some? ==>
      var v := AddedSignature(m).value;
      KeptSignatures(s, RemovedNames(m), SignatureKey(v).value) == [] ==>
        |Filtered(s, RemovedNames(m))| + |SIG + v + [NL]| <= MAX_NARINFO_BYTES
  }

  lemma {:induction false} AddOutcome(s: ByteString, v: ByteString)
    requires KeyedLines(Contents(Lines(s))) && ValidSignatureArgument(v)
    ensures var r, existing := AddSignature(s, v), SignaturesBy(Contents(Lines(s)), SignatureKey(v).value);
            && (r.Success? <==>
                  AllEqual(existing, SIG + v) && (existing == [] ==> |s| + |SIG + v + [NL]| <= MAX_NARINFO_BYTES))
            && (r == Failure(SignatureConflict) <==> !AllEqual(existing, SIG + v))
            && (r.Success? || r == Failure(SignatureConflict) || r == Failure(NarinfoTooLarge))
            && (r.Success? ==> (r.value.Unchanged? <==> existing != []))
  {
    hide Lines, Contents, SignaturesBy, SignatureKey, Inserted;
  }

  lemma UnsoundAdd(s: ByteString, v: ByteString)
    requires !ValidSignatureArgument(v)
    ensures AddSignature(s, v) == Failure(InvalidNarinfo)
  {
  }

  /** Each answer of the editor, from the record and the arguments alone. */
  lemma {:induction false} EditOutcomeIff(s: ByteString, m: Mutation)
    ensures var r := EditNarinfo(s, m);
            && (r.Success? <==> ValidNarinfo(s) && SoundArguments(m) && NoRival(s, m) && Room(s, m))
            && (r == Failure(SignatureConflict) <==> ValidNarinfo(s) && SoundArguments(m) && !NoRival(s, m))
            && (r == Failure(NarinfoTooLarge) <==>
                  || |s| > MAX_NARINFO_BYTES
                  || (ValidNarinfo(s) && SoundArguments(m) && NoRival(s, m) && !Room(s, m)))
            && (r == Failure(InvalidNarinfo) <==>
                  |s| <= MAX_NARINFO_BYTES && (!ValidNarinfo(s) || !SoundArguments(m)))
  {
    hide Lines, Contents, SignaturesBy, SignatureKey, Inserted, Filtered, AddSignature, WellFormedLine;
    if ValidNarinfo(s) {
      ValidIsKeyed(s);
      match m
      case Remove(_) =>
      case Add(v) =>
        NothingFiltered(s);
        if ValidSignatureArgument(v) {
          AddOutcome(s, v);
        } else {
          UnsoundAdd(s, v);
        }
      case Replace(names, v) =>
        if SoundArguments(m) {
          FilteredValid(s, names);
          ValidIsKeyed(Filtered(s, names));
          FilteredContents(s, names, SignatureKey(v).value);
          AddOutcome(Filtered(s, names), v);
        }
    }
  }

  lemma NothingFiltered(s: ByteString)
    ensures Filtered(s, []) == s
  {
    hide Lines, Contents;
    FilteredOfKept(s, []);
  }

  /** The records the editor takes: within the bound, without a carriage return, with one `NarHash: `
      line that is a nix32 SHA-256, and with no signature line but `Sig: ` and a key name of
      non-empty ASCII before a colon. */
  lemma {:induction false} TakenIff(s: ByteString)
    ensures EditNarinfo(s, Remove([])).Success?
            <==> && |s| <= 1_048_576 && 13 !in s
                 && |Filter(NarHashLine(), Contents(Lines(s)))| == 1
                 && forall line :: line in Contents(Lines(s)) ==>
                      && (Ascii("NarHash: ") <= line ==> IsNix32Sha256(line[9..]))
                      && (Ascii("Sig:") <= line ==>
                            exists k :: 5 < k < |line| && Ascii("Sig: ") <= line && line[k] == 58 && IsAscii(line[5..k])
                                        && 58 !in line[5..k] && 10 !in line[5..k] && 13 !in line[5..k])
  {
    hide Lines, Contents, EditNarinfo, WellFormedLine, Filter, IsNix32Sha256, IsAscii;
    EditOutcomeIff(s, Remove([]));
    forall line | line in Contents(Lines(s))
      ensures WellFormedLine(line)
              <==> && (Ascii("NarHash: ") <= line ==> IsNix32Sha256(line[9..]))
                   && (Ascii("Sig:") <= line ==>
                         exists k :: 5 < k < |line| && Ascii("Sig: ") <= line && line[k] == 58 && IsAscii(line[5..k])
                                     && 58 !in line[5..k] && 10 !in line[5..k] && 13 !in line[5..k])
    {
      LineTaken(line);
    }
  }

  lemma {:induction false} LineTaken(line: ByteString)
    ensures WellFormedLine(line)
            <==> && (Ascii("NarHash: ") <= line ==> IsNix32Sha256(line[9..]))
                 && (Ascii("Sig:") <= line ==>
                       exists k :: 5 < k < |line| && Ascii("Sig: ") <= line && line[k] == 58 && IsAscii(line[5..k])
                                   && 58 !in line[5..k] && 10 !in line[5..k] && 13 !in line[5..k])
  {
    hide IsNix32Sha256, IsAscii, SignatureKey;
    if SIG <= line {
      var value := line[5..];
      if SignatureKey(value).Some? {
        var k := 5 + |SignatureKey(value).value|;
        assert line[5..k] == SignatureKey(value).value;
        assert line[k] == COLON;
      }
      if k :| 5 < k < |line| && line[k] == 58 && IsAscii(line[5..k]) && 58 !in line[5..k] && 10 !in line[5..k]
              && 13 !in line[5..k] {
        assert value == line[5..k] + [COLON] + line[k + 1..];
        SignatureKeyOf(line[5..k], line[k + 1..]);
      }
      assert Ascii("Sig:") <= line;
    }
  }

  // ---------------------------------------------------------------- edits without effect

  /** Removing keys that have no line is the only removal without effect. */
  lemma {:induction false} FilteredSameIff(s: ByteString, names: seq<ByteString>)
    ensures Filtered(s, names) == s <==> forall k :: k in names ==> SignaturesBy(Contents(Lines(s)), k) == []
  {
    hide Lines, Contents, Filtered, SignatureKey;
    var c := Contents(Lines(s));
    if Filtered(s, names) == s {
      forall k | k in names
        ensures SignaturesBy(c, k) == []
      {
        FilteredContents(s, names, k);
      }
    } else if forall k :: k in names ==> SignaturesBy(c, k) == [] {
      forall line | line in c
        ensures KeptBy(names)(line)
      {
        if LineKey(line).Some? && LineKey(line).value in names {
          FilterMember(SignedBy(LineKey(line).value), c);
          assert false;
        }
      }
      FilteredOfKept(s, names);
    }
  }

  /** The lines decide: no named key has any, and the signature to add, if there is one, is there. */
  predicate NothingToDo(s: ByteString, m: Mutation)
    requires SoundArguments(m)
  {
    var c := Contents(Lines(s));
    && (forall k :: k in RemovedNames(m) ==> SignaturesBy(c, k) == [])
    && (AddedSignature(m).Some? ==>
          var v := AddedSignature(m).value;
          SIG + v in SignaturesBy(c, SignatureKey(v).value))
  }

  /** An accepted edit says that it changed the record exactly when it did; and unless it removes
      the key it adds, exactly when there was something to do. */
  lemma {:induction false} EditUnchangedIff(s: ByteString, m: Mutation)
    requires EditNarinfo(s, m).Success?
    ensures SoundArguments(m)
    ensures EditNarinfo(s, m).value.Unchanged? <==> Apply(EditNarinfo(s, m).value, s) == s
    ensures (AddedSignature(m).Some? ==> SignatureKey(AddedSignature(m).value).value !in RemovedNames(m)) ==>
              (EditNarinfo(s, m).value.Unchanged? <==> NothingToDo(s, m))
  {
    hide Lines, Contents, SignaturesBy, SignatureKey, Inserted, Filtered, AddSignature, WellFormedLine, ValidNarinfo;
    EditOutcomeIff(s, m);
    ValidIsNonEmpty(s);
    ValidIsKeyed(s);
    match m
    case Remove(names) =>
      FilteredSameIff(s, names);
    case Add(v) =>
      AddOutcome(s, v);
      AddedInserts(s, v);
      InsertedLength(s, v);
      var existing := SignaturesBy(Contents(Lines(s)), SignatureKey(v).value);
      assert existing != [] ==> existing[0] == SIG + v;
      assert NothingToDo(s, m) <==> SIG + v in existing;
    case Replace(names, v) =>
      ReplaceUnchangedIff(s, names, v);
  }

  lemma AddedInserts(s: ByteString, v: ByteString)
    requires AddSignature(s, v).Success?
    ensures AddSignature(s, v).value.Unchanged? || AddSignature(s, v).value == Changed(Inserted(s, v))
  {
    hide Lines, Contents, SignaturesBy, SignatureKey, Inserted;
  }

  lemma {:induction false} ReplaceUnchangedIff(s: ByteString, names: seq<ByteString>, v: ByteString)
    requires EditNarinfo(s, Replace(names, v)).Success?
    ensures ValidSignatureArgument(v)
    ensures var m := Replace(names, v);
            && (EditNarinfo(s, m).value.Unchanged? <==> Apply(EditNarinfo(s, m).value, s) == s)
            && (SignatureKey(v).value !in names ==>
                  (EditNarinfo(s, m).value.Unchanged? <==>
                     && (forall k :: k in names ==> SignaturesBy(Contents(Lines(s)), k) == [])
                     && SIG + v in SignaturesBy(Contents(Lines(s)), SignatureKey(v).value)))
  {
    hide Lines, Contents, SignaturesBy, SignatureKey, Inserted, Filtered, AddSignature, WellFormedLine, ValidNarinfo;
    var m, f, key := Replace(names, v), Filtered(s, names), SignatureKey(v).value;
    FilteredSameIff(s, names);
    FilteredValid(s, names);
    ValidIsKeyed(f);
    FilteredContents(s, names, key);
    AddOutcome(f, v);
    EditEffect(s, m, key);
    var existing := SignaturesBy(Contents(Lines(f)), key);
    if key !in names {
      assert existing == SignaturesBy(Contents(Lines(s)), key);
      assert existing != [] ==> existing[0] == SIG + v && SIG + v in existing;
      assert EditNarinfo(s, m).value.Unchanged? <==> existing != [] && f == s;
    }
  }
}
