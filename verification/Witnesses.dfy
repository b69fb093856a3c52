/** The laws assumed of cryptography and of base64 can be met: toy primitives that obey them. */
module Witnesses {
  import opened Bytes
  import opened Signatures
  import opened Carrier

  const LOW: nat := 65

  /** Two letters for each byte. */
  function Letters(s: ByteString): (r: ByteString) {
    if s == [] then [] else
      var b: int := s[0];
      [LOW + b / 16, LOW + b % 16] + Letters(s[1..])
  }

  function FromLetters(t: ByteString): (r: Option<ByteString>)
    decreases |t|
  {
    if t == [] then Some([])
    else if |t| < 2 || !(LOW <= t[0] < LOW + 16) || !(LOW <= t[1] < LOW + 16) then None
    else
      match FromLetters(t[2..])
      case None => None
      case Some(rest) =>
        var hi: int, lo: int := t[0], t[1];
        Some([(hi - LOW) * 16 + (lo - LOW)] + rest)
  }

  lemma {:induction false} LettersRoundTrip(s: ByteString)
    ensures FromLetters(Letters(s)) == Some(s)
    decreases |s|
  {
    if s != [] {
      LettersRoundTrip(s[1..]);
      assert Letters(s)[2..] == Letters(s[1..]);
      assert s == [s[0]] + s[1..];
    }
  }

  lemma {:induction false} LettersAreLetters(s: ByteString, b: Byte)
    requires b < LOW
    ensures b !in Letters(s)
    decreases |s|
  {
    if s != [] {
      LettersAreLetters(s[1..], b);
    }
  }

  function ToyCrypto(): Crypto {
    Crypto((key, message, signature) => key == signature, Letters, FromLetters)
  }

  lemma {:induction false} LawfulIsPossible()
    ensures Lawful(ToyCrypto())
  {
    forall s: ByteString | |s| == SIGNATURE_LEN
      ensures var c := ToyCrypto(); c.decode64(c.encode64(s)) == Some(s) && NL !in c.encode64(s) && CR !in c.encode64(s)
    {
      LettersRoundTrip(s);
      LettersAreLetters(s, NL);
      LettersAreLetters(s, CR);
    }
  }

  function ToySeal(body: Sealed): (r: ByteString) {
    Join([Letters(body.messageId), Letters(body.keyName), Letters(body.message), Letters(body.responseKeyId)], 0)
  }

  function ToyUnseal(bytes: ByteString): (r: Option<Sealed>) {
    var pieces := Split(bytes, 0);
    if |pieces| != 4 then None
    else
      match (FromLetters(pieces[0]), FromLetters(pieces[1]), FromLetters(pieces[2]), FromLetters(pieces[3]))
      case (Some(id), Some(name), Some(message), Some(key)) => Some(Sealed(id, name, message, key))
      case _ => None
  }

  lemma {:induction false} ToyRoundTrip(body: Sealed)
    ensures ToyUnseal(ToySeal(body)) == Some(body)
  {
    hide Split, Join, Letters, FromLetters;
    LettersRoundTrip(body.messageId);
    LettersRoundTrip(body.keyName);
    LettersRoundTrip(body.message);
    LettersRoundTrip(body.responseKeyId);
    LettersAreLetters(body.messageId, 0);
    LettersAreLetters(body.keyName, 0);
    LettersAreLetters(body.message, 0);
    LettersAreLetters(body.responseKeyId, 0);
    SplitJoin([Letters(body.messageId), Letters(body.keyName), Letters(body.message), Letters(body.responseKeyId)], 0);
  }

  function ToyIdeal(): Ideal {
    Ideal(s => s, ToySeal, ToyUnseal)
  }

  lemma {:induction false} PerfectIsPossible()
    ensures Perfect(ToyIdeal())
  {
    hide ToySeal, ToyUnseal;
    forall body: Sealed
      ensures ToyIdeal().unseal(ToyIdeal().seal(body)) == Some(body)
    {
      ToyRoundTrip(body);
    }
  }
}
