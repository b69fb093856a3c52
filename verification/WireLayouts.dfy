/** Where each part of a message lies on the wire, octet by octet, numbers most significant first. */
module WireLayouts {
  import opened Bytes
  import opened Signatures
  import opened NxsgCodec
  import Bootstrap

  predicate Number16(s: ByteString, at: nat, n: nat) {
    && at + 2 <= |s|
    && var hi: int, lo: int := s[at], s[at + 1];
       hi * 0x100 + lo == n
  }

  predicate Number32(s: ByteString, at: nat, n: nat) {
    && at + 4 <= |s|
    && var a: int, b: int, c: int, d: int := s[at], s[at + 1], s[at + 2], s[at + 3];
       a * 0x100_0000 + b * 0x1_0000 + c * 0x100 + d == n
  }

  /** `part` lies in `s` at `at`. */
  predicate Part(s: ByteString, at: nat, part: ByteString) {
    at + |part| <= |s| && s[at..at + |part|] == part
  }

  // ------------------------------------------------------------- at the end, and further on

  lemma PartEnd(s: ByteString, part: ByteString)
    ensures Part(s + part, |s|, part)
  {
  }

  lemma PartStays(s: ByteString, more: ByteString, at: nat, part: ByteString)
    requires Part(s, at, part)
    ensures Part(s + more, at, part)
  {
    assert (s + more)[at..at + |part|] == s[at..at + |part|];
  }

  lemma NumberEnd16(s: ByteString, n: nat)
    requires n < 0x1_0000
    ensures Number16(s + U16(n), |s|, n)
  {
    var t := s + U16(n);
    assert t[|s|] == U16(n)[0] && t[|s| + 1] == U16(n)[1];
  }

  lemma NumberStays16(s: ByteString, more: ByteString, at: nat, n: nat)
    requires Number16(s, at, n)
    ensures Number16(s + more, at, n)
  {
    assert (s + more)[at] == s[at] && (s + more)[at + 1] == s[at + 1];
  }

  lemma NumberEnd32(s: ByteString, n: nat)
    requires n < 0x1_0000_0000
    ensures Number32(s + U32(n), |s|, n)
  {
    var t := s + U32(n);
    assert t[|s|] == U32(n)[0] && t[|s| + 1] == U32(n)[1] && t[|s| + 2] == U32(n)[2] && t[|s| + 3] == U32(n)[3];
  }

  lemma NumberStays32(s: ByteString, more: ByteString, at: nat, n: nat)
    requires Number32(s, at, n)
    ensures Number32(s + more, at, n)
  {
    var t := s + more;
    assert t[at] == s[at] && t[at + 1] == s[at + 1] && t[at + 2] == s[at + 2] && t[at + 3] == s[at + 3];
  }

  // -------------------------------------------------------------------------- the messages

  lemma FrameStart(kind: MessageType, status: Byte)
    ensures var s := MAGIC + [MAJOR, MINOR, TypeCode(kind), status] + [0, 0, 0, 0];
            && |s| == 12 && Part(s, 0, Ascii("NXSG")) && Part(s, 4, [1, 0, TypeCode(kind), status])
            && Part(s, 8, [0, 0, 0, 0])
  {
    hide TypeCode;
    assert MAGIC == Ascii("NXSG");
  }

  /** An NXSG frame: magic, version 1.0, type, status, four zeros, length, the two IDs, and the body. */
  lemma {:induction false} FrameLayout(kind: MessageType, status: Byte, body: ByteString, batchId: ByteString,
                                       requestId: ByteString)
    requires |body| < 0x1_0000_0000 && |batchId| == 16 && |requestId| == 16
    ensures var s := FrameHeader(kind, status, |body|, batchId, requestId) + body;
            && |s| == 48 + |body| && Part(s, 0, Ascii("NXSG")) && Part(s, 4, [1, 0, TypeCode(kind), status])
            && Part(s, 8, [0, 0, 0, 0]) && Number32(s, 12, |body|)
            && Part(s, 16, batchId) && Part(s, 32, requestId) && Part(s, 48, body)
  {
    hide U32, TypeCode, Part, Number32;
    var s0 := MAGIC + [MAJOR, MINOR, TypeCode(kind), status] + [0, 0, 0, 0];
    FrameStart(kind, status);
    var s1 := s0 + U32(|body|);
    var s2, s3 := s1 + batchId, s1 + batchId + requestId;
    NumberEnd32(s0, |body|);
    NumberStays32(s1, batchId, 12, |body|);
    NumberStays32(s2, requestId, 12, |body|);
    NumberStays32(s3, body, 12, |body|);
    PartEnd(s1, batchId);
    PartStays(s2, requestId, 16, batchId);
    PartStays(s3, body, 16, batchId);
    PartEnd(s2, requestId);
    PartStays(s3, body, 32, requestId);
    PartEnd(s3, body);
    StartStays(s0, U32(|body|), kind, status);
    StartStays(s1, batchId, kind, status);
    StartStays(s2, requestId, kind, status);
    StartStays(s3, body, kind, status);
  }

  lemma StartStays(s: ByteString, more: ByteString, kind: MessageType, status: Byte)
    requires Part(s, 0, Ascii("NXSG")) && Part(s, 4, [1, 0, TypeCode(kind), status]) && Part(s, 8, [0, 0, 0, 0])
    ensures Part(s + more, 0, Ascii("NXSG")) && Part(s + more, 4, [1, 0, TypeCode(kind), status])
    ensures Part(s + more, 8, [0, 0, 0, 0])
  {
    hide Part, TypeCode;
    PartStays(s, more, 0, Ascii("NXSG"));
    PartStays(s, more, 4, [1, 0, TypeCode(kind), status]);
    PartStays(s, more, 8, [0, 0, 0, 0]);
  }

  /** A name with its length. */
  lemma NameLayout(name: ByteString, more: ByteString)
    requires |name| < 0x1_0000
    ensures var s := U16(|name|) + name + more;
            |s| == 2 + |name| + |more| && Number16(s, 0, |name|) && Part(s, 2, name)
  {
    hide U16, Part, Number16;
    var none: ByteString := [];
    NumberEnd16(none, |name|);
    assert none + U16(|name|) == U16(|name|);
    NumberStays16(U16(|name|), name, 0, |name|);
    NumberStays16(U16(|name|) + name, more, 0, |name|);
    PartEnd(U16(|name|), name);
    PartStays(U16(|name|) + name, more, 2, name);
  }

  lemma ThreeParts(s: ByteString, a: ByteString, b: ByteString, c: ByteString)
    ensures var t, n := s + a + b + c, |s|;
            Part(t, n, a) && Part(t, n + |a|, b) && Part(t, n + |a| + |b|, c) && |t| == n + |a| + |b| + |c|
  {
    hide Part;
    PartEnd(s, a);
    PartStays(s + a, b, |s|, a);
    PartStays(s + a + b, c, |s|, a);
    PartEnd(s + a, b);
    PartStays(s + a + b, c, |s| + |a|, b);
    PartEnd(s + a + b, c);
  }

  lemma NameStays(s: ByteString, more: ByteString, name: ByteString)
    requires Number16(s, 0, |name|) && Part(s, 2, name)
    ensures Number16(s + more, 0, |name|) && Part(s + more, 2, name)
  {
    hide Part, Number16;
    NumberStays16(s, more, 0, |name|);
    PartStays(s, more, 2, name);
  }

  /** A sign request: the key name with its length, the public key, the endpoint, and the fingerprint
      with its length. */
  lemma {:induction false} SignBodyLayout(b: SignBody)
    requires |b.keyName| < 0x1_0000 && |b.fingerprint| < 0x1_0000_0000 && |b.publicKey| == 32 && |b.endpoint| == 16
    ensures var s, n := EncodeSignBody(b), |b.keyName|;
            && |s| == 54 + n + |b.fingerprint| && Number16(s, 0, n) && Part(s, 2, b.keyName)
            && Part(s, 2 + n, b.publicKey) && Part(s, 34 + n, b.endpoint)
            && Number32(s, 50 + n, |b.fingerprint|) && Part(s, 54 + n, b.fingerprint)
  {
    hide U16, U32, Part, Number16, Number32;
    var named, length := U16(|b.keyName|) + b.keyName, U32(|b.fingerprint|);
    var none: ByteString := [];
    NameLayout(b.keyName, none);
    assert named + none == named;
    NameStays(named, b.publicKey, b.keyName);
    NameStays(named + b.publicKey, b.endpoint, b.keyName);
    NameStays(named + b.publicKey + b.endpoint, length, b.keyName);
    NameStays(named + b.publicKey + b.endpoint + length, b.fingerprint, b.keyName);
    ThreeParts(named, b.publicKey, b.endpoint, length);
    PartStays(named + b.publicKey + b.endpoint + length, b.fingerprint, |named|, b.publicKey);
    PartStays(named + b.publicKey + b.endpoint + length, b.fingerprint, |named| + 32, b.endpoint);
    NumberEnd32(named + b.publicKey + b.endpoint, |b.fingerprint|);
    NumberStays32(named + b.publicKey + b.endpoint + length, b.fingerprint, |named| + 48, |b.fingerprint|);
    PartEnd(named + b.publicKey + b.endpoint + length, b.fingerprint);
  }

  /** The OK reply to a describe request: the key name with its length, backend version 1, the public
      key and the endpoint. */
  lemma {:induction false} DescribeLayout(key: Identity, endpoint: ByteString)
    requires |key.keyName| < 0x1_0000 && |key.publicKey| == 32 && |endpoint| == 16
    ensures var s, n := DescribeBody(key, endpoint), |key.keyName|;
            && |s| == 51 + n && Number16(s, 0, n) && Part(s, 2, key.keyName) && Part(s, 2 + n, [1])
            && Part(s, 3 + n, key.publicKey) && Part(s, 35 + n, endpoint)
  {
    hide U16, Part, Number16;
    var named := U16(|key.keyName|) + key.keyName;
    var none: ByteString := [];
    NameLayout(key.keyName, none);
    assert named + none == named;
    ThreeParts(named, [1], key.publicKey, endpoint);
    NameStays(named, [1], key.keyName);
    NameStays(named + [1], key.publicKey, key.keyName);
    NameStays(named + [1] + key.publicKey, endpoint, key.keyName);
  }

  /** The OK reply to a sign request: the key name with its length, the public key, the endpoint and
      the signature. */
  lemma {:induction false} SignReplyLayout(key: Identity, endpoint: ByteString, signature: ByteString)
    requires |key.keyName| < 0x1_0000 && |key.publicKey| == 32 && |endpoint| == 16 && |signature| == 64
    ensures var s, n := SignReplyBody(key, endpoint, signature), |key.keyName|;
            && |s| == 114 + n && Number16(s, 0, n) && Part(s, 2, key.keyName)
            && Part(s, 2 + n, key.publicKey) && Part(s, 34 + n, endpoint) && Part(s, 50 + n, signature)
  {
    hide U16, Part, Number16;
    var named := U16(|key.keyName|) + key.keyName;
    var none: ByteString := [];
    NameLayout(key.keyName, none);
    assert named + none == named;
    ThreeParts(named, key.publicKey, endpoint, signature);
    NameStays(named, key.publicKey, key.keyName);
    NameStays(named + key.publicKey, endpoint, key.keyName);
    NameStays(named + key.publicKey + endpoint, signature, key.keyName);
  }

  predicate FourNumbers(s: ByteString, at: nat, a: nat, b: nat, c: nat, d: nat) {
    Number32(s, at, a) && Number32(s, at + 4, b) && Number32(s, at + 8, c) && Number32(s, at + 12, d)
  }

  lemma FourNumbersEnd(s: ByteString, a: nat, b: nat, c: nat, d: nat)
    requires a < 0x1_0000_0000 && b < 0x1_0000_0000 && c < 0x1_0000_0000 && d < 0x1_0000_0000
    ensures FourNumbers(s + U32(a) + U32(b) + U32(c) + U32(d), |s|, a, b, c, d)
  {
    hide U32, Number32;
    var s1, n := s + U32(a), |s|;
    var s2, s3 := s1 + U32(b), s1 + U32(b) + U32(c);
    NumberEnd32(s, a);
    NumberStays32(s1, U32(b), n, a);
    NumberStays32(s2, U32(c), n, a);
    NumberStays32(s3, U32(d), n, a);
    NumberEnd32(s1, b);
    NumberStays32(s2, U32(c), n + 4, b);
    NumberStays32(s3, U32(d), n + 4, b);
    NumberEnd32(s2, c);
    NumberStays32(s3, U32(d), n + 8, c);
    NumberEnd32(s3, d);
  }

  lemma FourNumbersStay(s: ByteString, more: ByteString, at: nat, a: nat, b: nat, c: nat, d: nat)
    requires FourNumbers(s, at, a, b, c, d)
    ensures FourNumbers(s + more, at, a, b, c, d)
  {
    hide Number32;
    NumberStays32(s, more, at, a);
    NumberStays32(s, more, at + 4, b);
    NumberStays32(s, more, at + 8, c);
    NumberStays32(s, more, at + 12, d);
  }

  /** The start of a bootstrap frame. */
  predicate BootstrapStart(s: ByteString, kind: nat, origin: nat, url: nat, token: nat) {
    Part(s, 0, Ascii("BASILCI") + [0, 1]) && FourNumbers(s, 9, kind, origin, url, token)
  }

  lemma BootstrapStarts(kind: nat, origin: nat, url: nat, token: nat)
    requires kind < 0x1_0000_0000 && origin < 0x1_0000_0000 && url < 0x1_0000_0000 && token < 0x1_0000_0000
    ensures var s := Bootstrap.MAGIC + [Bootstrap.VERSION] + U32(kind) + U32(origin) + U32(url) + U32(token);
            |s| == 25 && BootstrapStart(s, kind, origin, url, token)
  {
    hide U32, FourNumbers;
    var fixed := Bootstrap.MAGIC + [Bootstrap.VERSION];
    FourNumbersEnd(fixed, kind, origin, url, token);
    assert fixed == Ascii("BASILCI") + [0, 1];
    assert Part(fixed, 0, fixed);
    hide Part;
    PartStays(fixed, U32(kind), 0, fixed);
    PartStays(fixed + U32(kind), U32(origin), 0, fixed);
    PartStays(fixed + U32(kind) + U32(origin), U32(url), 0, fixed);
    PartStays(fixed + U32(kind) + U32(origin) + U32(url), U32(token), 0, fixed);
  }

  lemma BootstrapStays(s: ByteString, more: ByteString, kind: nat, origin: nat, url: nat, token: nat)
    requires BootstrapStart(s, kind, origin, url, token)
    ensures BootstrapStart(s + more, kind, origin, url, token)
  {
    hide Part, FourNumbers;
    PartStays(s, more, 0, Ascii("BASILCI") + [0, 1]);
    FourNumbersStay(s, more, 9, kind, origin, url, token);
  }

  lemma FieldBounds(f: Bootstrap.Frame)
    requires Bootstrap.ValidFrame(f)
    ensures |Bootstrap.KindName(f.kind)| < 100
    ensures |f.origin| <= 32_768 && |f.url| <= 32_768 && |f.token| <= 32_768
    ensures Bootstrap.KindName(f.kind) == if f.kind.Github? then Ascii("github") else Ascii("forgejoActions")
  {
  }

  /** The bootstrap frame: magic, version 1, the four lengths, and the four fields in their order. */
  lemma {:induction false} BootstrapLayout(f: Bootstrap.Frame)
    requires Bootstrap.ValidFrame(f)
    ensures var kind := if f.kind.Github? then Ascii("github") else Ascii("forgejoActions");
            var s := Bootstrap.EncodeFrame(f);
            && |s| == 25 + |kind| + |f.origin| + |f.url| + |f.token|
            && BootstrapStart(s, |kind|, |f.origin|, |f.url|, |f.token|)
            && Part(s, 25, kind) && Part(s, 25 + |kind|, f.origin) && Part(s, 25 + |kind| + |f.origin|, f.url)
            && Part(s, 25 + |kind| + |f.origin| + |f.url|, f.token)
  {
    hide U32, Part, BootstrapStart, Bootstrap.ValidFrame, Bootstrap.KindName;
    FieldBounds(f);
    var kind := Bootstrap.KindName(f.kind);
    var head := Bootstrap.MAGIC + [Bootstrap.VERSION] + U32(|kind|) + U32(|f.origin|) + U32(|f.url|) + U32(|f.token|);
    BootstrapStarts(|kind|, |f.origin|, |f.url|, |f.token|);
    BootstrapStays(head, kind, |kind|, |f.origin|, |f.url|, |f.token|);
    BootstrapStays(head + kind, f.origin, |kind|, |f.origin|, |f.url|, |f.token|);
    BootstrapStays(head + kind + f.origin, f.url, |kind|, |f.origin|, |f.url|, |f.token|);
    BootstrapStays(head + kind + f.origin + f.url, f.token, |kind|, |f.origin|, |f.url|, |f.token|);
    ThreeParts(head, kind, f.origin, f.url);
    PartStays(head + kind + f.origin + f.url, f.token, 25, kind);
    PartStays(head + kind + f.origin + f.url, f.token, 25 + |kind|, f.origin);
    PartStays(head + kind + f.origin + f.url, f.token, 25 + |kind| + |f.origin|, f.url);
    PartEnd(head + kind + f.origin + f.url, f.token);
  }
}
