/**
 * DocumentoSecurityService: the secure_documents table. A signed document,
 * its signature and public key are stored encrypted under a key derived from
 * the signer's matricula and CPF; the record is found again by id, the
 * signer's hash gates it, and every failure reads as "no such document".
 */
module DocumentSecurity {
  import opened Wrappers
  import opened Text
  import opened Platform

  /** $userInfo['matricula'] and $userInfo['cpf']; a null field reads as ''. */
  datatype Identity = Identity(matricula: string, cpf: string)

  /** A row of secure_documents; the three encrypted columns hold base64 text. */
  datatype SecureRecord = SecureRecord(
    encryptedDocument: string,
    encryptedSignature: string,
    encryptedPublicKey: string,
    userHash: string,
    documentHash: string,
    createdAt: int,
    expiresAt: int)

  /** The array retrieveDocument returns. */
  datatype Retrieved = Retrieved(document: string, signature: string, publicKey: string, documentHash: string)

  /** IV length of AES-256-CBC */
  const IV_LENGTH: nat := 16
  const KEY_VERSION: string := "document_encryption_v1"
  /** now()->addYears(10) */
  const RETENTION_YEARS: int := 10

  /** The user_hash column: the SHA-256 of matricula and CPF run together, with no separator. */
  function UserHash(p: Primitives, u: Identity): (h: string)
    ensures IsLowerHex(h)
  {
    Sha256Hex(p, u.matricula + u.cpf)
  }

  /** The text generateUserKey hashes: matricula, CPF, app key and version joined by '|'. */
  function UserKeyMaterial(p: Primitives, u: Identity): string {
    u.matricula + "|" + u.cpf + "|" + p.appKey + "|" + KEY_VERSION
  }

  /** generateUserKey: the raw SHA-256 of the key material. */
  function GenerateUserKey(p: Primitives, u: Identity): (key: string)
    ensures DigestLength(p) ==> |key| == 32
  {
    p.sha256(UserKeyMaterial(p, u))
  }

  /** encryptWithUserKey: the IV, then the CBC ciphertext. */
  function EncryptWithUserKey(p: Primitives, data: string, key: string, iv: string): (framed: string)
    requires |iv| == IV_LENGTH
    ensures Take(framed, IV_LENGTH) == iv
  {
    iv + p.aesCbcEncrypt(key, iv, data)
  }

  /** decryptWithUserKey: the first 16 bytes are the IV, the rest the ciphertext; None is the thrown exception. */
  function DecryptWithUserKey(p: Primitives, framed: string, key: string): Option<string> {
    p.aesCbcDecrypt(key, Take(framed, IV_LENGTH), Drop(framed, IV_LENGTH))
  }

  /** Decrypting a framed ciphertext under the key that made it gives back the data. */
  lemma FramingRoundTrip(p: Primitives, data: string, key: string, iv: string)
    requires CbcRoundTrip(p) && |iv| == IV_LENGTH
    ensures DecryptWithUserKey(p, EncryptWithUserKey(p, data, key, iv), key) == Some(data)
  {
    var framed := EncryptWithUserKey(p, data, key, iv);
    assert Take(framed, IV_LENGTH) == iv;
    assert Drop(framed, IV_LENGTH) == p.aesCbcEncrypt(key, iv, data);
  }

  /** The row secureDocument inserts. */
  function NewRecord(p: Primitives, content: string, u: Identity, signature: string, publicKey: string,
                     ivDocument: string, ivSignature: string, ivPublicKey: string, now: int): SecureRecord
    requires |ivDocument| == |ivSignature| == |ivPublicKey| == IV_LENGTH
  {
    var key := GenerateUserKey(p, u);
    SecureRecord(
      p.base64Encode(EncryptWithUserKey(p, content, key, ivDocument)),
      p.base64Encode(EncryptWithUserKey(p, signature, key, ivSignature)),
      p.base64Encode(EncryptWithUserKey(p, publicKey, key, ivPublicKey)),
      UserHash(p, u),
      Sha256Hex(p, content),
      now,
      p.addYears(now, RETENTION_YEARS))
  }

  /** 'doc_' . bin2hex(random_bytes(16)) */
  function DocumentId(randomBytes: string): string
    requires |randomBytes| == 16
  {
    PrefixedHexId("doc_", randomBytes)
  }

  /** The record filter of retrieveDocument and verifyDocumentIntegrity: expires_at > now. */
  function Unexpired(record: Option<SecureRecord>, now: int): Option<SecureRecord> {
    if record.Some? && record.value.expiresAt > now then record else None
  }

  /**
   * retrieveDocument on the looked-up row: null when there is no unexpired
   * row, when the signer hash differs, or when any of the three decryptions
   * fails.
   */
  function Retrieve(p: Primitives, record: Option<SecureRecord>, u: Identity, now: int): (r: Option<Retrieved>)
    ensures r.Some? ==> Unexpired(record, now).Some? && record.value.userHash == UserHash(p, u)
    ensures r.Some? ==> r.value.documentHash == record.value.documentHash
  {
    match Unexpired(record, now)
    case None => None
    case Some(rec) =>
      if rec.userHash != UserHash(p, u) then None
      else
        var key := GenerateUserKey(p, u);
        match DecryptWithUserKey(p, p.base64Decode(rec.encryptedDocument), key)
        case None => None
        case Some(document) =>
          match DecryptWithUserKey(p, p.base64Decode(rec.encryptedSignature), key)
          case None => None
          case Some(signature) =>
            match DecryptWithUserKey(p, p.base64Decode(rec.encryptedPublicKey), key)
            case None => None
            case Some(publicKey) => Some(Retrieved(document, signature, publicKey, rec.documentHash))
  }

  /**
   * A wrong signer, an expired row and a failed decryption all answer
   * exactly as a missing row does.
   */
  lemma FailuresLookMissing(p: Primitives, rec: SecureRecord, u: Identity, now: int)
    ensures rec.expiresAt <= now ==> Retrieve(p, Some(rec), u, now) == Retrieve(p, None, u, now) == None
    ensures rec.userHash != UserHash(p, u) ==> Retrieve(p, Some(rec), u, now) == None
    ensures DecryptWithUserKey(p, p.base64Decode(rec.encryptedDocument), GenerateUserKey(p, u)).None?
            ==> Retrieve(p, Some(rec), u, now) == None
    ensures DecryptWithUserKey(p, p.base64Decode(rec.encryptedSignature), GenerateUserKey(p, u)).None?
            ==> Retrieve(p, Some(rec), u, now) == None
    ensures DecryptWithUserKey(p, p.base64Decode(rec.encryptedPublicKey), GenerateUserKey(p, u)).None?
            ==> Retrieve(p, Some(rec), u, now) == None
  {
  }

  /**
   * The signer gets back exactly what was stored, and the hash of the
   * document, at any time before the ten years are up.
   */
  lemma StoredDocumentRoundTrip(p: Primitives, content: string, u: Identity, signature: string, publicKey: string,
                                ivDocument: string, ivSignature: string, ivPublicKey: string, created: int, now: int)
    requires CbcRoundTrip(p) && Base64RoundTrip(p)
    requires |ivDocument| == |ivSignature| == |ivPublicKey| == IV_LENGTH
    requires now < p.addYears(created, RETENTION_YEARS)
    ensures Retrieve(p, Some(NewRecord(p, content, u, signature, publicKey, ivDocument, ivSignature, ivPublicKey,
                                       created)), u, now)
            == Some(Retrieved(content, signature, publicKey, Sha256Hex(p, content)))
  {
    var key := GenerateUserKey(p, u);
    FramingRoundTrip(p, content, key, ivDocument);
    FramingRoundTrip(p, signature, key, ivSignature);
    FramingRoundTrip(p, publicKey, key, ivPublicKey);
  }

  /**
   * ("12", "3") and ("1", "23") share a user hash, so either passes the
   * other's hash check; their keys are hashed from different texts, so with
   * SHA-256 collision-free there the keys differ.
   */
  lemma SeparatorlessHashCollides(p: Primitives)
    ensures UserHash(p, Identity("12", "3")) == UserHash(p, Identity("1", "23"))
    ensures UserKeyMaterial(p, Identity("12", "3")) != UserKeyMaterial(p, Identity("1", "23"))
    ensures CollisionFree(p, UserKeyMaterial(p, Identity("12", "3")), UserKeyMaterial(p, Identity("1", "23"))) ==>
            GenerateUserKey(p, Identity("12", "3")) != GenerateUserKey(p, Identity("1", "23"))
  {
    assert "12" + "3" == "1" + "23";
    assert UserKeyMaterial(p, Identity("12", "3"))[2] == '|';
    assert UserKeyMaterial(p, Identity("1", "23"))[2] == '2';
  }

  /** The secure_documents table, keyed by its unique document_id. */
  class SecureDocumentStore {
    var rows: map<string, SecureRecord>

    constructor()
      ensures rows == map[]
    {
      rows := map[];
    }

    function Lookup(documentId: string): Option<SecureRecord>
      reads this
    {
      if documentId in rows then Some(rows[documentId]) else None
    }

    /**
     * secureDocument: one row under a fresh 'doc_' id, expiring ten years on;
     * an id already present violates the unique key and nothing is stored.
     */
    method SecureDocument(p: Primitives, content: string, u: Identity, signature: string, publicKey: string,
                          ivDocument: string, ivSignature: string, ivPublicKey: string, idBytes: string, now: int)
      returns (r: Result<string>)
      requires |ivDocument| == |ivSignature| == |ivPublicKey| == IV_LENGTH && |idBytes| == 16
      modifies this
      ensures r.Ok? <==> DocumentId(idBytes) !in old(rows)
      ensures r.Ok? ==> (r.value == DocumentId(idBytes)
        && rows == old(rows)[r.value := NewRecord(p, content, u, signature, publicKey, ivDocument, ivSignature,
                                                  ivPublicKey, now)])
      ensures r.Err? ==> rows == old(rows)
    {
      var userKey := GenerateUserKey(p, u);
      var encryptedDocument := EncryptWithUserKey(p, content, userKey, ivDocument);
      var encryptedSignature := EncryptWithUserKey(p, signature, userKey, ivSignature);
      var encryptedPublicKey := EncryptWithUserKey(p, publicKey, userKey, ivPublicKey);
      var documentId := DocumentId(idBytes);
      if documentId in rows {
        return Err("Duplicate entry for key 'secure_documents_document_id_unique'");
      }
      rows := rows[documentId := SecureRecord(
        p.base64Encode(encryptedDocument), p.base64Encode(encryptedSignature), p.base64Encode(encryptedPublicKey),
        UserHash(p, u), Sha256Hex(p, content), now, p.addYears(now, RETENTION_YEARS))];
      return Ok(documentId);
    }

    /** retrieveDocument */
    function RetrieveDocument(p: Primitives, documentId: string, u: Identity, now: int): (r: Option<Retrieved>)
      reads this
      ensures r.Some? ==> documentId in rows && rows[documentId].expiresAt > now
      ensures r == Retrieve(p, Lookup(documentId), u, now)
    {
      Retrieve(p, Lookup(documentId), u, now)
    }

    /** verifyDocumentIntegrity: an unexpired row with this id exists; no identity, no decryption. */
    function VerifyDocumentIntegrity(documentId: string, now: int): (ok: bool)
      reads this
      ensures ok <==> documentId in rows && rows[documentId].expiresAt > now
    {
      Unexpired(Lookup(documentId), now).Some?
    }
  }

  /** Whatever the signer may retrieve, the public check also accepts. */
  lemma RetrievableIsIntact(store: SecureDocumentStore, p: Primitives, documentId: string, u: Identity, now: int)
    requires store.RetrieveDocument(p, documentId, u, now).Some?
    ensures store.VerifyDocumentIntegrity(documentId, now)
  {
  }
}
