/** Sealed Sign invocations over an untrusted carrier. Cryptography is ideal: the request hash
    is injective, sealing can be undone by the broker, and the verifier accepts only bytes the
    broker signed. Messages are COSE_Sign1 (section 4.2 of RFC 9052) over COSE_Encrypt
    (section 5 of RFC 9052). */
module Carrier {
  import opened Bytes

  const SIGN_RESPONSE: ByteString := [1]

  /** The body of a request as it is sealed. */
  datatype Sealed = Sealed(messageId: ByteString, keyName: ByteString, message: ByteString, responseKeyId: ByteString)

  datatype Ideal = Ideal(
    hash: ByteString -> ByteString, seal: Sealed -> ByteString, unseal: ByteString -> Option<Sealed>)

  ghost predicate Perfect(world: Ideal) {
    && (forall a: ByteString, b: ByteString :: world.hash(a) == world.hash(b) ==> a == b)
    && (forall body: Sealed :: world.unseal(world.seal(body)) == Some(body))
  }

  datatype Claims = Claims(
    issuedAt: int, expiresAt: Option<int>, audience: Option<ByteString>, senderKeyId: Option<ByteString>,
    inReplyTo: Option<ByteString>, requestHash: Option<ByteString>, requestOnlyClaims: bool)

  /** `code == 0` is the status OK. */
  datatype SignResponse = SignResponse(code: nat, signature: Option<ByteString>)

  /** What a broker-signed message says; `body` is what the recipient's key opens it to. */
  datatype Reply = Reply(
    signer: ByteString, claims: Claims, recipientKeyId: ByteString, anonymousParties: bool,
    contentType: ByteString, body: Option<SignResponse>)

  datatype Validation = Validation(now: int, skew: int, maxTtl: int, defaultTtl: int, audiences: set<ByteString>)

  datatype Rejected =
    | NotVerified | SenderMismatch | BadClaims | InReplyToMismatch | RequestHashMismatch
    | CannotOpen | UnexpectedContentType | BadBody | StatusNotOk | NoSignature | EmptySignature

  /** `Claims::validate` for a response. */
  predicate ValidResponseClaims(c: Claims, v: Validation) {
    && c.issuedAt <= v.now + v.skew
    && (c.expiresAt.Some? ==> 0 < c.expiresAt.value - c.issuedAt <= v.maxTtl)
    && v.now <= (if c.expiresAt.Some? then c.expiresAt.value else c.issuedAt + v.defaultTtl) + v.skew
    && (v.audiences != {} && c.audience.Some? ==> c.audience.value in v.audiences)
    && c.inReplyTo.Some? && c.requestHash.Some? && !c.requestOnlyClaims
  }

  datatype Prepared = Prepared(body: Sealed, bytes: ByteString, requestHash: ByteString)

  function Prepare(world: Ideal, body: Sealed): (r: Prepared) {
    var bytes := world.seal(body);
    Prepared(body, bytes, world.hash(bytes))
  }

  /** `verify_and_open_sign_response`, against the messages the broker has signed and the keys
      that are pinned. */
  function VerifyAndOpen(signed: map<ByteString, Reply>, pins: set<ByteString>, request: Prepared, response: ByteString,
                         v: Validation)
    : (r: Result<SignResponse, Rejected>)
  {
    if response !in signed || signed[response].signer !in pins then Failure(NotVerified)
    else
      var reply := signed[response];
      if reply.claims.senderKeyId != Some(reply.signer) then Failure(SenderMismatch)
      else if !ValidResponseClaims(reply.claims, v) then Failure(BadClaims)
      else if reply.claims.inReplyTo != Some(request.body.messageId) then Failure(InReplyToMismatch)
      else if reply.claims.requestHash != Some(request.requestHash) then Failure(RequestHashMismatch)
      else if reply.recipientKeyId != request.body.responseKeyId || !reply.anonymousParties then Failure(CannotOpen)
      else if reply.contentType != SIGN_RESPONSE then Failure(UnexpectedContentType)
      else if reply.body.None? then Failure(BadBody)
      else Success(reply.body.value)
  }

  /** The end of `CarrierSigner::sign`, on the bytes the carrier brought back. */
  function SignWith(signed: map<ByteString, Reply>, pins: set<ByteString>, request: Prepared, response: ByteString,
                    v: Validation)
    : (r: Result<ByteString, Rejected>)
  {
    match VerifyAndOpen(signed, pins, request, response, v)
    case Failure(e) => Failure(e)
    case Success(answer) =>
      if answer.code != 0 then Failure(StatusNotOk)
      else
        match answer.signature
        case None => Failure(NoSignature)
        case Some(signature) => if signature == [] then Failure(EmptySignature) else Success(signature)
  }

  /** A signature is returned exactly for an OK reply that a pinned broker key signed, that is
      valid now, and that is addressed to this request in every way a reply can be. */
  lemma SignSucceedsIff(signed: map<ByteString, Reply>, pins: set<ByteString>, request: Prepared, response: ByteString,
                        v: Validation, signature: ByteString)
    ensures SignWith(signed, pins, request, response, v) == Success(signature) <==>
              && response in signed && signed[response].signer in pins
              && var reply := signed[response];
                 && reply.claims.senderKeyId == Some(reply.signer) && ValidResponseClaims(reply.claims, v)
                 && reply.claims.inReplyTo == Some(request.body.messageId)
                    && reply.claims.requestHash == Some(request.requestHash)
                 && reply.recipientKeyId == request.body.responseKeyId && reply.anonymousParties
                 && reply.contentType == SIGN_RESPONSE
                 && reply.body == Some(SignResponse(0, Some(signature))) && signature != []
  {
    hide ValidResponseClaims;
  }

  // -------------------------------------------------------------------------- the system

  /** The broker answered `request`, whose sealed body it had opened, with `response`. */
  datatype Answer = Answer(request: ByteString, body: Sealed, response: SignResponse, reply: ByteString)

  /** What a caller made of the bytes it was handed, and the time and policy it judged them by. */
  datatype Outcome = Outcome(
    index: nat, bytes: ByteString, validation: Validation, result: Result<ByteString, Rejected>)

  datatype State = State(
    requests: seq<Prepared>, signed: map<ByteString, Reply>, answers: seq<Answer>, outcomes: seq<Outcome>)

  const INIT: State := State([], map[], [], [])

  /** One step of a caller, of the broker, or of the carrier, which hands any bytes to any
      waiting caller. */
  datatype Action =
    | Send(body: Sealed)
    | BrokerAnswers(request: ByteString, response: SignResponse, bytes: ByteString, signer: ByteString,
                    issuedAt: int, expiresAt: Option<int>, audience: Option<ByteString>)
    | BrokerSignsOther(bytes: ByteString, reply: Reply)
    | Deliver(index: nat, bytes: ByteString, validation: Validation)

  /** The reply an honest broker signs: it names the request by its id and by its hash. */
  function HonestReply(world: Ideal, request: ByteString, body: Sealed, response: SignResponse, signer: ByteString,
                       issuedAt: int, expiresAt: Option<int>, audience: Option<ByteString>): (r: Reply)
  {
    Reply(signer,
          Claims(issuedAt, expiresAt, audience, Some(signer), Some(body.messageId), Some(world.hash(request)), false),
          body.responseKeyId, true, SIGN_RESPONSE, Some(response))
  }

  predicate Enabled(world: Ideal, st: State, a: Action) {
    match a
    case Send(_) => true
    case BrokerAnswers(request, _, bytes, _, _, _, _) => world.unseal(request).Some? && bytes !in st.signed
    case BrokerSignsOther(bytes, reply) => bytes !in st.signed && reply.contentType != SIGN_RESPONSE
    case Deliver(index, _, _) => index < |st.requests|
  }

  function Apply(world: Ideal, pins: set<ByteString>, st: State, a: Action): (r: State)
    requires Enabled(world, st, a)
  {
    match a
    case Send(body) => st.(requests := st.requests + [Prepare(world, body)])
    case BrokerAnswers(request, response, bytes, signer, issuedAt, expiresAt, audience) =>
      var body := world.unseal(request).value;
      var reply := HonestReply(world, request, body, response, signer, issuedAt, expiresAt, audience);
      st.(signed := st.signed[bytes := reply],
          answers := st.answers + [Answer(request, body, response, bytes)])
    case BrokerSignsOther(bytes, reply) => st.(signed := st.signed[bytes := reply])
    case Deliver(index, bytes, v) =>
      st.(outcomes := st.outcomes + [Outcome(index, bytes, v, SignWith(st.signed, pins, st.requests[index], bytes, v))])
  }

  function Run(world: Ideal, pins: set<ByteString>, st: State, schedule: seq<Action>): (r: Option<State>)
    decreases |schedule|
  {
    if schedule == [] then Some(st)
    else if Enabled(world, st, schedule[0]) then Run(world, pins, Apply(world, pins, st, schedule[0]), schedule[1..])
    else None
  }

  // ---------------------------------------------------------------------- the correlation

  predicate IsAnswer(world: Ideal, answer: Answer, bytes: ByteString, reply: Reply) {
    && answer.reply == bytes && world.unseal(answer.request) == Some(answer.body)
    && reply.claims.requestHash == Some(world.hash(answer.request)) && reply.body == Some(answer.response)
  }

  /** Everything of the sign-response type that the broker signed is one of its answers. */
  predicate Accounted(world: Ideal, answers: seq<Answer>, bytes: ByteString, reply: Reply) {
    reply.contentType == SIGN_RESPONSE ==> exists k :: 0 <= k < |answers| && IsAnswer(world, answers[k], bytes, reply)
  }

  predicate AllAccounted(world: Ideal, st: State) {
    forall bytes :: bytes in st.signed ==> Accounted(world, st.answers, bytes, st.signed[bytes])
  }

  predicate AllPrepared(world: Ideal, st: State) {
    forall i :: 0 <= i < |st.requests| ==> st.requests[i] == Prepare(world, st.requests[i].body)
  }

  /** The broker answered exactly this request, and its message, with OK and this signature. */
  predicate Answered(answers: seq<Answer>, request: Prepared, signature: ByteString) {
    exists k :: 0 <= k < |answers| && answers[k].request == request.bytes && answers[k].body == request.body
                && answers[k].response == SignResponse(0, Some(signature))
  }

  /** The reply was issued, has not run out and is meant for this caller, within the allowed skew. */
  predicate Timely(c: Claims, v: Validation) {
    && c.issuedAt - v.skew <= v.now
    && (c.expiresAt.None? ==> v.now <= c.issuedAt + v.defaultTtl + v.skew)
    && (c.expiresAt.Some? ==>
          v.now <= c.expiresAt.value + v.skew && c.issuedAt < c.expiresAt.value <= c.issuedAt + v.maxTtl)
    && (c.audience.None? || v.audiences == {} || c.audience.value in v.audiences)
  }

  /** The bytes are a timely message of a pinned key, sealed to the caller that took them. */
  predicate Taken(signed: map<ByteString, Reply>, pins: set<ByteString>, request: Prepared, bytes: ByteString,
                  v: Validation)
  {
    && bytes in signed
    && var reply := signed[bytes];
       && reply.signer in pins && reply.claims.senderKeyId == Some(reply.signer) && Timely(reply.claims, v)
       && reply.claims.inReplyTo == Some(request.body.messageId) && reply.recipientKeyId == request.body.responseKeyId
  }

  predicate OutcomeOk(pins: set<ByteString>, st: State, outcome: Outcome) {
    && outcome.index < |st.requests|
    && (outcome.result.Success? ==>
          && Answered(st.answers, st.requests[outcome.index], outcome.result.value)
          && Taken(st.signed, pins, st.requests[outcome.index], outcome.bytes, outcome.validation))
  }

  predicate AllOutcomes(pins: set<ByteString>, st: State) {
    forall k :: 0 <= k < |st.outcomes| ==> OutcomeOk(pins, st, st.outcomes[k])
  }

  predicate Correlated(world: Ideal, pins: set<ByteString>, st: State) {
    AllAccounted(world, st) && AllPrepared(world, st) && AllOutcomes(pins, st)
  }

  /** What a successful sign rests on. */
  lemma {:induction false} SuccessIsAnswered(world: Ideal, pins: set<ByteString>, st: State, i: nat,
                                             response: ByteString, v: Validation)
    requires Perfect(world) && AllAccounted(world, st) && AllPrepared(world, st) && i < |st.requests|
    requires SignWith(st.signed, pins, st.requests[i], response, v).Success?
    ensures Answered(st.answers, st.requests[i], SignWith(st.signed, pins, st.requests[i], response, v).value)
    ensures Taken(st.signed, pins, st.requests[i], response, v)
  {
    hide SignWith;
    SignSucceedsIff(st.signed, pins, st.requests[i], response, v,
                    SignWith(st.signed, pins, st.requests[i], response, v).value);
    var request, reply := st.requests[i], st.signed[response];
    assert Accounted(world, st.answers, response, reply);
    var k :| 0 <= k < |st.answers| && IsAnswer(world, st.answers[k], response, reply);
    var answer := st.answers[k];
    assert request == Prepare(world, request.body);
    assert world.hash(answer.request) == world.hash(request.bytes);
    assert answer.request == request.bytes;
    assert world.unseal(world.seal(request.body)) == Some(request.body);
  }

  lemma {:induction false} AccountedStays(world: Ideal, answers: seq<Answer>, more: seq<Answer>, bytes: ByteString,
                                          reply: Reply)
    requires Accounted(world, answers, bytes, reply) && answers <= more
    ensures Accounted(world, more, bytes, reply)
  {
    hide IsAnswer;
    if reply.contentType == SIGN_RESPONSE {
      var k :| 0 <= k < |answers| && IsAnswer(world, answers[k], bytes, reply);
      assert more[k] == answers[k];
    }
  }

  lemma {:induction false} AnsweredStays(answers: seq<Answer>, more: seq<Answer>, request: Prepared,
                                         signature: ByteString)
    requires Answered(answers, request, signature) && answers <= more
    ensures Answered(more, request, signature)
  {
    var k :| 0 <= k < |answers| && answers[k].request == request.bytes && answers[k].body == request.body
             && answers[k].response == SignResponse(0, Some(signature));
    assert more[k] == answers[k];
  }

  lemma {:induction false} OutcomesStay(pins: set<ByteString>, st: State, st': State)
    requires AllOutcomes(pins, st) && st'.outcomes == st.outcomes
    requires st.requests <= st'.requests && st.answers <= st'.answers
    requires forall bytes :: bytes in st.signed ==> bytes in st'.signed && st'.signed[bytes] == st.signed[bytes]
    ensures AllOutcomes(pins, st')
  {
    hide Answered, Timely;
    forall k | 0 <= k < |st.outcomes|
      ensures OutcomeOk(pins, st', st'.outcomes[k])
    {
      var outcome := st.outcomes[k];
      assert OutcomeOk(pins, st, outcome);
      if outcome.result.Success? {
        AnsweredStays(st.answers, st'.answers, st.requests[outcome.index], outcome.result.value);
      }
    }
  }

  lemma {:induction false} AnswerAccounted(world: Ideal, st: State, a: Action)
    requires a.BrokerAnswers? && Enabled(world, st, a) && AllAccounted(world, st)
    ensures AllAccounted(world, Apply(world, {}, st, a))
  {
    hide IsAnswer;
    var st' := Apply(world, {}, st, a);
    forall bytes | bytes in st'.signed
      ensures Accounted(world, st'.answers, bytes, st'.signed[bytes])
    {
      if bytes == a.bytes {
        var last := st'.answers[|st.answers|];
        NewAnswer(world, last, bytes, st'.signed[bytes], a);
      } else {
        AccountedStays(world, st.answers, st'.answers, bytes, st.signed[bytes]);
      }
    }
  }

  lemma NewAnswer(world: Ideal, answer: Answer, bytes: ByteString, reply: Reply, a: Action)
    requires a.BrokerAnswers? && world.unseal(a.request).Some?
    requires answer == Answer(a.request, world.unseal(a.request).value, a.response, a.bytes) && bytes == a.bytes
    requires reply
             == HonestReply(world, a.request, answer.body, a.response, a.signer, a.issuedAt, a.expiresAt, a.audience)
    ensures IsAnswer(world, answer, bytes, reply)
  {
  }

  lemma {:induction false} OtherAccounted(world: Ideal, st: State, a: Action)
    requires a.BrokerSignsOther? && Enabled(world, st, a) && AllAccounted(world, st)
    ensures AllAccounted(world, Apply(world, {}, st, a))
  {
    hide IsAnswer;
  }

  lemma {:induction false} StepCorrelated(world: Ideal, pins: set<ByteString>, st: State, a: Action)
    requires Perfect(world) && Correlated(world, pins, st) && Enabled(world, st, a)
    ensures Correlated(world, pins, Apply(world, pins, st, a))
  {
    hide Perfect, SignWith, HonestReply, Accounted, Answered, Taken;
    var st' := Apply(world, pins, st, a);
    match a
    case Send(body) => OutcomesStay(pins, st, st');
    case BrokerAnswers(_, _, _, _, _, _, _) =>
      AnswerAccounted(world, st, a);
      OutcomesStay(pins, st, st');
    case BrokerSignsOther(_, _) =>
      OtherAccounted(world, st, a);
      OutcomesStay(pins, st, st');
    case Deliver(index, bytes, v) =>
      if SignWith(st.signed, pins, st.requests[index], bytes, v).Success? {
        SuccessIsAnswered(world, pins, st, index, bytes, v);
      }
      DeliveredOutcomes(pins, st, st');
  }

  lemma {:induction false} DeliveredOutcomes(pins: set<ByteString>, st: State, st': State)
    requires AllOutcomes(pins, st) && st' == st.(outcomes := st'.outcomes) && |st'.outcomes| == |st.outcomes| + 1
    requires st'.outcomes == st.outcomes + [st'.outcomes[|st.outcomes|]]
    requires OutcomeOk(pins, st, st'.outcomes[|st.outcomes|])
    ensures AllOutcomes(pins, st')
  {
    hide Answered, Taken;
    forall k | 0 <= k < |st'.outcomes|
      ensures OutcomeOk(pins, st', st'.outcomes[k])
    {
      if k < |st.outcomes| {
        assert OutcomeOk(pins, st, st.outcomes[k]);
      }
    }
  }

  lemma {:induction false} CorrelationOverRuns(world: Ideal, pins: set<ByteString>, st: State, schedule: seq<Action>)
    requires Perfect(world) && Correlated(world, pins, st) && Run(world, pins, st, schedule).Some?
    ensures Correlated(world, pins, Run(world, pins, st, schedule).value)
    decreases |schedule|
  {
    hide Perfect, Correlated, Apply, Enabled;
    if schedule != [] {
      StepCorrelated(world, pins, st, schedule[0]);
      CorrelationOverRuns(world, pins, Apply(world, pins, st, schedule[0]), schedule[1..]);
    }
  }

  /** With any number of outstanding requests and any carrier, a signature that `sign` returns is the
      broker's OK answer to exactly that request's bytes and message, taken from a message that a
      pinned key signed for this caller and that was timely when it was judged. */
  lemma {:induction false} SignaturesAreAnswers(world: Ideal, pins: set<ByteString>, schedule: seq<Action>, st: State)
    requires Perfect(world) && Run(world, pins, INIT, schedule) == Some(st)
    ensures forall k :: 0 <= k < |st.outcomes| && st.outcomes[k].result.Success? ==>
              && st.outcomes[k].index < |st.requests|
              && Answered(st.answers, st.requests[st.outcomes[k].index], st.outcomes[k].result.value)
              && Taken(st.signed, pins, st.requests[st.outcomes[k].index], st.outcomes[k].bytes,
                       st.outcomes[k].validation)
  {
    hide Run, Answered, Perfect, Accounted, Prepare, Taken;
    CorrelationOverRuns(world, pins, INIT, schedule);
  }

  /** A reply made for other request bytes is never taken: swapping responses gains nothing. */
  lemma {:induction false} NoCrossTalk(world: Ideal, pins: set<ByteString>, signed: map<ByteString, Reply>,
                                       request: Prepared, other: ByteString, response: ByteString, v: Validation)
    requires Perfect(world) && request == Prepare(world, request.body) && other != request.bytes
    requires response in signed && signed[response].claims.requestHash == Some(world.hash(other))
    ensures SignWith(signed, pins, request, response, v).Failure?
  {
    hide ValidResponseClaims;
  }

  /** And an honest carrier gets through: the broker's own OK answer to a request yields its signature
      exactly when it was signed under a pinned key, is not empty, and is timely on delivery. */
  lemma {:induction false} HonestAnswerAcceptedIff(world: Ideal, pins: set<ByteString>, st: State, body: Sealed,
                                                   signature: ByteString, bytes: ByteString, signer: ByteString,
                                                   issuedAt: int, expiresAt: Option<int>, audience: Option<ByteString>,
                                                   v: Validation)
    requires Perfect(world) && bytes !in st.signed
    ensures var a := BrokerAnswers(world.seal(body), SignResponse(0, Some(signature)), bytes, signer, issuedAt,
                                   expiresAt, audience);
            && Enabled(world, st, a)
            && var signed := Apply(world, pins, st, a).signed;
               && (SignWith(signed, pins, Prepare(world, body), bytes, v) == Success(signature) <==>
                     signer in pins && signature != [] && Timely(signed[bytes].claims, v))
               && signed[bytes].claims.issuedAt == issuedAt && signed[bytes].claims.expiresAt == expiresAt
               && signed[bytes].claims.audience == audience
  {
  }

  /** What a rejection tells: each check that failed, with those before it passed. */
  lemma {:induction false} RejectionTells(signed: map<ByteString, Reply>, pins: set<ByteString>, request: Prepared,
                                          response: ByteString, v: Validation)
    requires SignWith(signed, pins, request, response, v).Failure?
    ensures var e, known := SignWith(signed, pins, request, response, v).error,
                            response in signed && signed[response].signer in pins;
            && (e.NotVerified? <==> !known)
            && (known ==>
                  var reply := signed[response];
                  && (e.BadClaims? ==>
                        || !Timely(reply.claims, v) || reply.claims.inReplyTo.None?
                        || reply.claims.requestHash.None? || reply.claims.requestOnlyClaims)
                  && (e.InReplyToMismatch? ==> reply.claims.inReplyTo != Some(request.body.messageId))
                  && (e.RequestHashMismatch? ==> reply.claims.requestHash != Some(request.requestHash))
                  && (e.UnexpectedContentType? ==> reply.contentType != SIGN_RESPONSE)
                  && (e.StatusNotOk? ==> reply.body.Some? && reply.body.value.code != 0)
                  && (e.NoSignature? ==> reply.body == Some(SignResponse(0, None)))
                  && (e.EmptySignature? ==> reply.body == Some(SignResponse(0, Some([])))))
  {
  }

  // ------------------------------------------------------------------- the pinned verifier

  const MAX_KEY_ID_LEN: nat := 128
  const BROKER_KEY_LEN: nat := 32

  datatype PinError = BrokerPublicKeyLength(actual: nat) | KeyIdLength(length: nat)

  /** What is wrong with one entry, in the order it is looked at. */
  function EntryError(id: ByteString, key: ByteString, validPoint: ByteString -> bool): (r: Option<PinError>)
    ensures r.None? <==> |key| == BROKER_KEY_LEN && 1 <= |id| <= MAX_KEY_ID_LEN && validPoint(key)
  {
    if |key| != BROKER_KEY_LEN then Some(BrokerPublicKeyLength(|key|))
    else if id == [] || |id| > MAX_KEY_ID_LEN then Some(KeyIdLength(|id|))
    else if !validPoint(key) then Some(BrokerPublicKeyLength(32))
    else None
  }

  predicate DistinctIds(entries: seq<(ByteString, ByteString)>) {
    forall i, j :: 0 <= i < j < |entries| ==> entries[i].0 != entries[j].0
  }

  /** The verifier holds the keys of these entries and no others. */
  predicate Holds(keys: map<ByteString, ByteString>, entries: seq<(ByteString, ByteString)>) {
    && (forall i :: 0 <= i < |entries| ==> entries[i].0 in keys && keys[entries[i].0] == entries[i].1)
    && (forall id :: id in keys ==> exists i :: 0 <= i < |entries| && entries[i].0 == id)
  }

  lemma {:induction false} HoldsMore(keys: map<ByteString, ByteString>, entries: seq<(ByteString, ByteString)>, i: nat)
    requires DistinctIds(entries) && i < |entries| && Holds(keys, entries[..i])
    ensures Holds(keys[entries[i].0 := entries[i].1], entries[..i + 1])
  {
    var more, prefix := keys[entries[i].0 := entries[i].1], entries[..i + 1];
    assert prefix == entries[..i] + [entries[i]];
    forall k | 0 <= k < |prefix|
      ensures prefix[k].0 in more && more[prefix[k].0] == prefix[k].1
    {
      if k < i {
        assert entries[..i][k] == entries[k];
      }
    }
    forall id | id in more
      ensures exists k :: 0 <= k < |prefix| && prefix[k].0 == id
    {
      if id == entries[i].0 {
        assert prefix[i].0 == id;
      } else {
        var k :| 0 <= k < i && entries[..i][k].0 == id;
        assert prefix[k].0 == id;
      }
    }
  }

  /** `pinned_broker_verifier` over the entries of the map in their order: it is built exactly
      when there is a key and all are sound, it then holds exactly the supplied keys, and
      otherwise the error is that of the first bad entry. */
  method PinnedBrokerVerifier(entries: seq<(ByteString, ByteString)>, validPoint: ByteString -> bool)
    returns (r: Result<map<ByteString, ByteString>, PinError>)
    requires DistinctIds(entries)
    ensures r.Success? <==>
            entries != [] && forall i :: 0 <= i < |entries| ==> EntryError(entries[i].0, entries[i].1, validPoint).None?
    ensures r.Success? ==> Holds(r.value, entries)
    ensures r.Failure? && entries == [] ==> r.error == BrokerPublicKeyLength(0)
    ensures r.Failure? && entries != [] ==>
              exists i :: 0 <= i < |entries| && EntryError(entries[i].0, entries[i].1, validPoint) == Some(r.error)
                          && forall k :: 0 <= k < i ==> EntryError(entries[k].0, entries[k].1, validPoint).None?
  {
    hide EntryError, Holds;
    if entries == [] {
      return Failure(BrokerPublicKeyLength(0));
    }
    var keys: map<ByteString, ByteString> := map[];
    var i := 0;
    NothingHeld(entries);
    while i < |entries|
      invariant 0 <= i <= |entries| && Holds(keys, entries[..i])
      invariant forall k :: 0 <= k < i ==> EntryError(entries[k].0, entries[k].1, validPoint).None?
    {
      var (id, key) := entries[i];
      var problem := EntryError(id, key, validPoint);
      if problem.Some? {
        return Failure(problem.value);
      }
      HoldsMore(keys, entries, i);
      keys := keys[id := key];
      i := i + 1;
    }
    assert entries[..i] == entries;
    r := Success(keys);
  }

  lemma NothingHeld(entries: seq<(ByteString, ByteString)>)
    ensures Holds(map[], entries[..0])
  {
  }
}
