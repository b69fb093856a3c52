/** A record with no room for a signature, on which the dry run and the real run disagree. */
module FullRecord {
  import opened Bytes
  import opened Narinfo
  import opened Fingerprint
  import opened Signatures
  import opened SigningTarget
  import opened PlainRecord

  const FULL: ByteString := PlainBytes(PADDING)

  /** The dry run announces a change, and the real run refuses the record as too large. */
  lemma DryRunDisagreesOnFullRecord(c: Crypto, id: Identity, signature: ByteString)
    requires Lawful(c) && WellFormedKeyName(id.keyName)
    requires FingerprintOf(FULL, PLAIN_TARGET).Some?
    requires Produced(c, id, FingerprintOf(FULL, PLAIN_TARGET).value, signature)
    ensures Preview(c, FULL, PLAIN_TARGET, id, SignRecord) == WouldChange
    ensures RealEdit(c, FULL, PLAIN_TARGET, id, None, SignatureValue(c, id, signature)).Failure?
  {
    hide FromNarinfo, Preview, Decide, EditWith, SignatureValue, Lawful, Produced, WellFormedKeyName, PlainBytes;
    PlainNeedsSignature(c, PADDING, id, None);
    NeededSignatureEdit(c, FULL, PLAIN_TARGET, id, None, signature);
    PlainLength(PADDING);
  }
}
