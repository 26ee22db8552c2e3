/**
 The token that goes out by mail: base64url of the addressee's 16-byte id
 followed by a 32-byte secret. Only a digest of the secret is ever stored.
 */
module MailTokens {
  import opened Basics
  import opened Base64Url
  import opened Users

  const ID_BYTES := 16
  const SECRET_BYTES := 32

  type Id = b: seq<Byte> | |b| == ID_BYTES witness seq(ID_BYTES, _ => 0)
  type Secret = b: seq<Byte> | |b| == SECRET_BYTES witness seq(SECRET_BYTES, _ => 0)
  type Hash = seq<Byte> -> Digest

  /** Whom a token addresses, and the digest its secret must match. */
  datatype Claim = Claim(user: UserId, digest: Digest)

  /** The key of the row an id names: one character a byte. */
  function Name(id: Id): UserId {
    seq(|id|, k requires 0 <= k < |id| => id[k] as char)
  }

  /** The text to mail and the digest to store. */
  function NewEmailToken(id: Id, secret: Secret, hash: Hash): (string, Digest) {
    (Encode(id + secret), hash(secret))
  }

  /** None for anything malformed. */
  function ParseEmailToken(token: string, hash: Hash): Option<Claim> {
    var payload := Decode(token);
    if payload.None? || |payload.value| != ID_BYTES + SECRET_BYTES then None
    else Some(Claim(Name(payload.value[..ID_BYTES]), hash(payload.value[ID_BYTES..])))
  }

  /** What was mailed reads back as the user it was made for and the digest that was stored. */
  lemma MailedTokenReadsBack(id: Id, secret: Secret, hash: Hash)
    ensures var (token, digest) := NewEmailToken(id, secret, hash);
            ParseEmailToken(token, hash) == Some(Claim(Name(id), digest))
  {
    DecodingUndoesEncoding(id + secret);
    assert (id + secret)[..ID_BYTES] == id && (id + secret)[ID_BYTES..] == secret;
  }

  /** Nothing else is accepted, line breaks inserted in transit aside. */
  lemma AcceptedExactlyWhenMailed(token: string, hash: Hash, claim: Claim)
    ensures ParseEmailToken(token, hash) == Some(claim)
       <==> exists id: Id, secret: Secret ::
              Unbroken(token) == NewEmailToken(id, secret, hash).0 && claim == Claim(Name(id), hash(secret))
  {
    if ParseEmailToken(token, hash) == Some(claim) {
      var payload := Decode(token).value;
      OneSpellingPerPayload(token, payload);
      var id: Id, secret: Secret := payload[..ID_BYTES], payload[ID_BYTES..];
      assert payload == id + secret;
      assert Unbroken(token) == NewEmailToken(id, secret, hash).0;
    }
    if id: Id, secret: Secret :|
      Unbroken(token) == NewEmailToken(id, secret, hash).0 && claim == Claim(Name(id), hash(secret))
    {
      OneSpellingPerPayload(token, id + secret);
      assert (id + secret)[..ID_BYTES] == id && (id + secret)[ID_BYTES..] == secret;
    }
  }

  /** No two mailed tokens share a spelling. */
  lemma MailedTokensAreDistinct(id: Id, secret: Secret, id': Id, secret': Secret, hash: Hash)
    ensures NewEmailToken(id, secret, hash).0 == NewEmailToken(id', secret', hash).0 ==> id == id' && secret == secret'
  {
    DecodingUndoesEncoding(id + secret);
    DecodingUndoesEncoding(id' + secret');
    assert (id + secret)[..ID_BYTES] == id && (id + secret)[ID_BYTES..] == secret;
    assert (id' + secret')[..ID_BYTES] == id' && (id' + secret')[ID_BYTES..] == secret';
  }
}
