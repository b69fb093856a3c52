/** One record of a signing batch: the real decision and edit, and the dry-run preview. */
module SigningTarget {
  import opened Bytes
  import opened Sequences
  import opened Narinfo
  import opened NarinfoEdits
  import opened Fingerprint
  import opened CanonicalFingerprint
  import opened Signatures

  datatype Target = Target(relative: ByteString, expectedPath: Option<ByteString>, expectedHash: ByteString)

  datatype TargetError =
    | BadRecord(error: FileError)
    | NoFingerprint
    | NotSelected
    | SignatureClash
    | EditRefused(reason: FileError)

  /** What to do about a record's signature. */
  datatype Decision = LeaveAlone | UseExisting(value: ByteString) | NeedSignature

  datatype Operation =
    | SignRecord
    | ReplaceKeys(oldNames: seq<ByteString>)
    | RemoveKeys(keyNames: seq<ByteString>)

  datatype PreviewOutcome = WouldNotChange | WouldChange | Refused(error: TargetError)

  /** The removal of no key, used as a check of the record. */
  function ValidateForMutation(bytes: ByteString): (r: Option<TargetError>) {
    match EditNarinfo(bytes, Remove([]))
    case Failure(e) => Some(BadRecord(e))
    case Success(Unchanged) => None
    case Success(Changed(_)) => Some(BadRecord(InvalidNarinfo))
  }

  function FingerprintOf(bytes: ByteString, target: Target): (r: Option<ByteString>) {
    FromNarinfo(bytes, target.expectedPath, target.expectedHash)
  }

  /** The choice `mutate_signing_target` makes before any RPC. */
  function Decide(c: Crypto, bytes: ByteString, target: Target, id: Identity, oldNames: Option<seq<ByteString>>)
    : (r: Result<Decision, TargetError>)
    ensures r.Success? ==> FingerprintOf(bytes, target).Some?
  {
    var invalid := ValidateForMutation(bytes);
    if invalid.Some? then Failure(invalid.value)
    else
      match FingerprintOf(bytes, target)
      case None => Failure(NoFingerprint)
      case Some(fingerprint) =>
        match Inspect(c, bytes, id, fingerprint)
        case Verified(v) => Success(if oldNames.None? then LeaveAlone else UseExisting(v))
        case Conflict =>
          if oldNames.None? || id.keyName !in oldNames.value then Failure(SignatureClash) else Success(NeedSignature)
        case Absent => Success(NeedSignature)
  }

  function MutationFor(oldNames: Option<seq<ByteString>>, value: ByteString): (r: Mutation) {
    if oldNames.None? then Add(value) else Replace(oldNames.value, value)
  }

  function EditWith(bytes: ByteString, oldNames: Option<seq<ByteString>>, value: ByteString)
    : (r: Result<Edit, TargetError>) {
    match EditNarinfo(bytes, MutationFor(oldNames, value))
    case Failure(e) => Failure(EditRefused(e))
    case Success(edit) => Success(edit)
  }

  /** The edit the real run makes, given the signature value it would obtain if it needs one. */
  function RealEdit(c: Crypto, bytes: ByteString, target: Target, id: Identity, oldNames: Option<seq<ByteString>>,
                    produced: ByteString): (r: Result<Edit, TargetError>)
  {
    match Decide(c, bytes, target, id, oldNames)
    case Failure(e) => Failure(e)
    case Success(LeaveAlone) => Success(Unchanged)
    case Success(UseExisting(v)) => EditWith(bytes, oldNames, v)
    case Success(NeedSignature) => EditWith(bytes, oldNames, produced)
  }

  /** The store path of a record selected for removal. */
  function SelectedStorePath(bytes: ByteString, target: Target): (r: Option<ByteString>) {
    match ExactlyOne(bytes, STORE_PATH)
    case Found(path) =>
      if IsUtf8(path) && Identifies(path, target.expectedPath, target.expectedHash) then Some(path) else None
    case _ => None
  }

  function RealRemove(bytes: ByteString, target: Target, names: seq<ByteString>): (r: Result<Edit, TargetError>) {
    var invalid := ValidateForMutation(bytes);
    if invalid.Some? then Failure(invalid.value)
    else if SelectedStorePath(bytes, target).None? then Failure(NotSelected)
    else
      match EditNarinfo(bytes, Remove(names))
      case Failure(e) => Failure(EditRefused(e))
      case Success(edit) => Success(edit)
  }

  function PreviewEdit(edit: Result<Edit, FileError>): (r: PreviewOutcome) {
    match edit
    case Failure(e) => Refused(EditRefused(e))
    case Success(Unchanged) => WouldNotChange
    case Success(Changed(_)) => WouldChange
  }

  /** `preview_target`. */
  function Preview(c: Crypto, bytes: ByteString, target: Target, id: Identity, op: Operation): (r: PreviewOutcome) {
    var invalid := ValidateForMutation(bytes);
    if invalid.Some? then Refused(invalid.value)
    else
      match op
      case RemoveKeys(names) => PreviewEdit(EditNarinfo(bytes, Remove(names)))
      case SignRecord => (
        match FingerprintOf(bytes, target)
        case None => Refused(NoFingerprint)
        case Some(fingerprint) =>
          match Inspect(c, bytes, id, fingerprint)
          case Verified(_) => WouldNotChange
          case Conflict => Refused(SignatureClash)
          case Absent => WouldChange)
      case ReplaceKeys(names) =>
        match FingerprintOf(bytes, target)
        case None => Refused(NoFingerprint)
        case Some(fingerprint) =>
          match Inspect(c, bytes, id, fingerprint)
          case Verified(v) => PreviewEdit(EditNarinfo(bytes, Replace(names, v)))
          case Conflict => if id.keyName !in names then Refused(SignatureClash) else WouldChange
          case Absent => WouldChange
  }

  function OperationOf(oldNames: Option<seq<ByteString>>): (r: Operation) {
    if oldNames.None? then SignRecord else ReplaceKeys(oldNames.value)
  }

  function OutcomeOf(edit: Result<Edit, TargetError>): (r: PreviewOutcome) {
    match edit
    case Failure(e) => Refused(e)
    case Success(Unchanged) => WouldNotChange
    case Success(Changed(_)) => WouldChange
  }

  // ---------------------------------------------------------- validation by removal

  lemma ValidationIff(bytes: ByteString)
    ensures ValidateForMutation(bytes).None? <==> ValidNarinfo(bytes)
    ensures ValidateForMutation(bytes).Some? ==> ValidateForMutation(bytes).value.BadRecord?
  {
    hide Lines, Contents, KeptBy, WellFormedLine, Filtered;
    if ValidNarinfo(bytes) {
      ValidIsKeyed(bytes);
      NothingRemoved(bytes);
    }
  }

  lemma NothingRemoved(bytes: ByteString)
    ensures Filtered(bytes, []) == bytes
  {
    hide Lines, Contents, LineKey;
    FilteredOfKept(bytes, []);
  }

  // ------------------------------------------------------------------ dry run

  /** The record a produced signature is inserted into. */
  function BaseRecord(bytes: ByteString, oldNames: Option<seq<ByteString>>): (r: ByteString) {
    if oldNames.None? then bytes else Filtered(bytes, oldNames.value)
  }

  /** Room for a new signature: the value and the grown record are within their bounds. */
  predicate Fits(bytes: ByteString, oldNames: Option<seq<ByteString>>, value: ByteString) {
    && |value| <= MAX_SIGNATURE_VALUE_BYTES
    && |BaseRecord(bytes, oldNames)| + |value| + 6 <= MAX_NARINFO_BYTES
  }

  /** A signature produced and verified for this record. */
  ghost predicate Produced(c: Crypto, id: Identity, fingerprint: ByteString, signature: ByteString) {
    |signature| == SIGNATURE_LEN && c.verify(id.publicKey, fingerprint, signature)
  }

  lemma ProducedIsGenuine(c: Crypto, id: Identity, fingerprint: ByteString, signature: ByteString)
    requires Lawful(c) && Produced(c, id, fingerprint, signature) && WellFormedKeyName(id.keyName)
    ensures Genuine(c, id, fingerprint, SIG + SignatureValue(c, id, signature))
    ensures SignatureKey(SignatureValue(c, id, signature)) == Some(id.keyName)
    ensures NL !in SignatureValue(c, id, signature) && CR !in SignatureValue(c, id, signature)
  {
    var encoded := c.encode64(signature);
    assert c.decode64(encoded) == Some(signature);
    var line := SIG + SignatureValue(c, id, signature);
    assert line == KeyPrefix(id) + encoded;
    assert line[|KeyPrefix(id)|..] == encoded;
    SignatureKeyOf(id.keyName, encoded);
  }

  /** A record needing a signature has no kept line of the key. */
  lemma NoKeptSignature(c: Crypto, bytes: ByteString, target: Target, id: Identity, oldNames: Option<seq<ByteString>>)
    requires WellFormedKeyName(id.keyName)
    requires Decide(c, bytes, target, id, oldNames) == Success(NeedSignature)
    ensures ValidNarinfo(bytes) && ValidNarinfo(BaseRecord(bytes, oldNames))
    ensures SignaturesBy(Contents(Lines(BaseRecord(bytes, oldNames))), id.keyName) == []
  {
    hide Lines, Contents, Filtered, SignaturesBy, UnsignedLines, FromNarinfo, WellFormedKeyName, ValidNarinfo,
         ValidateForMutation, FieldLines;
    ValidationIff(bytes);
    InspectedLines(bytes, id);
    if oldNames.Some? {
      FilteredValid(bytes, oldNames.value);
      FilteredContents(bytes, oldNames.value, id.keyName);
    }
  }

  /** Adding to a record without the key inserts, unless a bound is exceeded. */
  lemma AddToCleanRecord(base: ByteString, key: ByteString, value: ByteString)
    requires ValidNarinfo(base) && SignatureKey(value) == Some(key)
    requires NL !in value && CR !in value
    requires SignaturesBy(Contents(Lines(base)), key) == []
    ensures AddSignature(base, value)
            == if |value| > MAX_SIGNATURE_VALUE_BYTES then Failure(InvalidNarinfo)
               else if |base| + |value| + 6 > MAX_NARINFO_BYTES then Failure(NarinfoTooLarge)
               else Success(Changed(Inserted(base, value)))
  {
    hide Lines, Contents, SignaturesBy, Inserted, SignatureKey, ValidNarinfo;
    ValidIsKeyed(base);
  }

  /** The record with the signature inserted is not the record that needed it. */
  lemma InsertionChanges(c: Crypto, bytes: ByteString, target: Target, id: Identity, oldNames: Option<seq<ByteString>>,
                         value: ByteString)
    requires WellFormedKeyName(id.keyName)
    requires Decide(c, bytes, target, id, oldNames) == Success(NeedSignature)
    requires Genuine(c, id, FingerprintOf(bytes, target).value, SIG + value)
    requires NL !in value && SignatureKey(value) == Some(id.keyName)
    ensures Inserted(BaseRecord(bytes, oldNames), value) != bytes
  {
    hide Lines, Contents, Inserted, SignaturesBy, UnsignedLines, FromNarinfo, WellFormedKeyName, ValidNarinfo, Genuine,
         ValidateForMutation, BaseRecord, SignatureKey, Inspect;
    var base := BaseRecord(bytes, oldNames);
    NoKeptSignature(c, bytes, target, id, oldNames);
    ValidIsNonEmpty(base);
    InsertedSignatures(base, value, id.keyName);
    if Inserted(base, value) == bytes {
      assert SignaturesBy(Contents(Lines(bytes)), id.keyName) == [SIG + value];
      GenuineIsVerified(c, bytes, id, FingerprintOf(bytes, target).value, value);
    }
  }

  /** What the edit does with the signature a record needed. */
  lemma NeededSignatureEdit(c: Crypto, bytes: ByteString, target: Target, id: Identity,
                            oldNames: Option<seq<ByteString>>, signature: ByteString)
    requires Lawful(c) && WellFormedKeyName(id.keyName)
    requires oldNames.Some? ==> ValidKeyNames(oldNames.value)
    requires Decide(c, bytes, target, id, oldNames) == Success(NeedSignature)
    requires Produced(c, id, FingerprintOf(bytes, target).value, signature)
    ensures var value := SignatureValue(c, id, signature);
            EditWith(bytes, oldNames, value)
            == if |value| > MAX_SIGNATURE_VALUE_BYTES then Failure(EditRefused(InvalidNarinfo))
               else if !Fits(bytes, oldNames, value) then Failure(EditRefused(NarinfoTooLarge))
               else Success(Changed(Inserted(BaseRecord(bytes, oldNames), value)))
  {
    hide Lines, Contents, Inserted, Filtered, SignaturesBy, SignatureKey, FromNarinfo, WellFormedKeyName, ValidNarinfo,
         Genuine, Produced, SignatureValue, AddSignature, Decide, Lawful;
    var fingerprint, value := FingerprintOf(bytes, target).value, SignatureValue(c, id, signature);
    ProducedIsGenuine(c, id, fingerprint, signature);
    NoKeptSignature(c, bytes, target, id, oldNames);
    ValidIsKeyed(bytes);
    AddToCleanRecord(BaseRecord(bytes, oldNames), id.keyName, value);
    InsertionChanges(c, bytes, target, id, oldNames, value);
  }

  /** A record whose only line for the key is genuine classifies as verified. */
  lemma GenuineIsVerified(c: Crypto, bytes: ByteString, id: Identity, fingerprint: ByteString, value: ByteString)
    requires WellFormedKeyName(id.keyName) && Genuine(c, id, fingerprint, SIG + value)
    requires var lines := SignaturesBy(Contents(Lines(bytes)), id.keyName);
             lines != [] && AllEqual(lines, SIG + value)
    ensures Inspect(c, bytes, id, fingerprint) == Verified(value)
  {
    hide Lines, Contents, SignaturesBy, Genuine, WellFormedKeyName;
    InspectedLines(bytes, id);
    VerifiedIff(c, bytes, id, fingerprint, value);
  }

  /** The key's lines are there and all hold one signature that verifies over the fingerprint. */
  ghost predicate Carries(c: Crypto, id: Identity, fingerprint: ByteString, lines: seq<ByteString>) {
    && lines != []
    && exists signature :: && |signature| == SIGNATURE_LEN && c.verify(id.publicKey, fingerprint, signature)
                           && AllEqual(lines, SIG + id.keyName + [COLON] + c.encode64(signature))
  }

  /** What it means that a record is verified. */
  lemma {:induction false} VerifiedMeansIff(c: Crypto, bytes: ByteString, id: Identity, fingerprint: ByteString)
    requires Lawful(c) && WellFormedKeyName(id.keyName)
    ensures Inspect(c, bytes, id, fingerprint).Verified?
            <==> Carries(c, id, fingerprint, SignaturesBy(Contents(Lines(bytes)), id.keyName))
  {
    hide Lines, Contents, SignaturesBy, WellFormedKeyName, Lawful, Genuine, Inspect, FieldLines;
    var lines := SignaturesBy(Contents(Lines(bytes)), id.keyName);
    InspectedLines(bytes, id);
    if Inspect(c, bytes, id, fingerprint).Verified? {
      var v := Inspect(c, bytes, id, fingerprint).value;
      VerifiedIff(c, bytes, id, fingerprint, v);
      assert Genuine(c, id, fingerprint, lines[0]);
      GenuineHolds(c, id, fingerprint, lines[0]);
    }
    if Carries(c, id, fingerprint, lines) {
      var signature :| |signature| == SIGNATURE_LEN && c.verify(id.publicKey, fingerprint, signature)
                       && AllEqual(lines, SIG + id.keyName + [COLON] + c.encode64(signature));
      ProducedIsGenuine(c, id, fingerprint, signature);
      assert SIG + SignatureValue(c, id, signature) == SIG + id.keyName + [COLON] + c.encode64(signature);
      GenuineIsVerified(c, bytes, id, fingerprint, SignatureValue(c, id, signature));
    }
  }

  lemma GenuineHolds(c: Crypto, id: Identity, fingerprint: ByteString, line: ByteString)
    requires Genuine(c, id, fingerprint, line)
    ensures exists signature :: && |signature| == SIGNATURE_LEN && c.verify(id.publicKey, fingerprint, signature)
                                && line == SIG + id.keyName + [COLON] + c.encode64(signature)
  {
    var signature := c.decode64(line[|KeyPrefix(id)|..]).value;
    assert line == KeyPrefix(id) + c.encode64(signature);
  }

  /** For sign and replace the preview agrees with the real run exactly when the record
      either needs no new signature or has room for it. */
  lemma DryRunAgreesIff(c: Crypto, bytes: ByteString, target: Target, id: Identity, oldNames: Option<seq<ByteString>>,
                        signature: ByteString)
    requires Lawful(c) && WellFormedKeyName(id.keyName)
    requires oldNames.Some? ==> ValidKeyNames(oldNames.value)
    requires Decide(c, bytes, target, id, oldNames) == Success(NeedSignature) ==>
               Produced(c, id, FingerprintOf(bytes, target).value, signature)
    ensures var value := SignatureValue(c, id, signature);
            Preview(c, bytes, target, id, OperationOf(oldNames))
            == OutcomeOf(RealEdit(c, bytes, target, id, oldNames, value))
            <==> (Decide(c, bytes, target, id, oldNames) == Success(NeedSignature) ==> Fits(bytes, oldNames, value))
  {
    hide EditNarinfo, Inspect, FromNarinfo, ValidateForMutation, Lawful, Fits, Produced, SignatureValue,
         WellFormedKeyName;
    if Decide(c, bytes, target, id, oldNames) == Success(NeedSignature) {
      NeededSignatureEdit(c, bytes, target, id, oldNames, signature);
      FitsIsShort(bytes, oldNames, SignatureValue(c, id, signature));
    }
  }

  lemma FitsIsShort(bytes: ByteString, oldNames: Option<seq<ByteString>>, value: ByteString)
    ensures Fits(bytes, oldNames, value) ==> |value| <= MAX_SIGNATURE_VALUE_BYTES
  {
  }

  /** For remove they agree exactly when the record is refused anyway or its store path is
      the selected one, which only the real run checks. */
  lemma RemoveDryRunAgreesIff(c: Crypto, bytes: ByteString, target: Target, id: Identity, names: seq<ByteString>)
    requires ValidKeyNames(names)
    ensures Preview(c, bytes, target, id, RemoveKeys(names)) == OutcomeOf(RealRemove(bytes, target, names))
            <==> !ValidNarinfo(bytes) || SelectedStorePath(bytes, target).Some?
  {
    hide Lines, Contents, Filtered, ValidNarinfo, SelectedStorePath, ValidateForMutation, WellFormedKeyName;
    ValidationIff(bytes);
    if ValidNarinfo(bytes) {
      ValidIsKeyed(bytes);
    }
  }

  // ------------------------------------------------------------- after the edit

  /** Whatever a signing run writes: the fingerprint is unchanged, the record is valid, and
      its signature is now verified, so deciding again asks for no signature. */
  lemma EditedRecordSettles(c: Crypto, bytes: ByteString, target: Target, id: Identity,
                            oldNames: Option<seq<ByteString>>, value: ByteString)
    requires WellFormedKeyName(id.keyName)
    requires ValidateForMutation(bytes).None? && FingerprintOf(bytes, target).Some?
    requires Genuine(c, id, FingerprintOf(bytes, target).value, SIG + value)
    requires EditWith(bytes, oldNames, value).Success?
    ensures var out := Apply(EditWith(bytes, oldNames, value).value, bytes);
            && FingerprintOf(out, target) == FingerprintOf(bytes, target)
            && Inspect(c, out, id, FingerprintOf(bytes, target).value) == Verified(value)
            && Decide(c, out, target, id, oldNames)
               == Success(if oldNames.None? then LeaveAlone else UseExisting(value))
  {
    hide Lines, Contents, SignaturesBy, UnsignedLines, SignatureKey, FromNarinfo, EditNarinfo, ValidNarinfo, Inspect,
         ValidateForMutation, Genuine, WellFormedKeyName;
    var m, fingerprint := MutationFor(oldNames, value), FingerprintOf(bytes, target).value;
    var out := Apply(EditNarinfo(bytes, m).value, bytes);
    EditKeepsValidity(bytes, m);
    ValidationIff(out);
    EditEffect(bytes, m, id.keyName);
    GenuineKey(c, id, fingerprint, value);
    SignaturesIrrelevant(out, bytes, target.expectedPath, target.expectedHash);
    GenuineIsVerified(c, out, id, fingerprint, value);
  }

  lemma GenuineKey(c: Crypto, id: Identity, fingerprint: ByteString, value: ByteString)
    requires WellFormedKeyName(id.keyName) && Genuine(c, id, fingerprint, SIG + value)
    ensures SignatureKey(value) == Some(id.keyName)
  {
    hide SignatureKey, WellFormedKeyName, GenuineText;
    KeyPrefixIsLineKey(id, SIG + value);
    assert (SIG + value)[|SIG|..] == value;
  }
}
