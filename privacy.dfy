/**
 * PrivacyService: the acl_secure_token table behind the QR code. The QR
 * payload is stored encrypted under a random 'tk_' token; verifySignature
 * later resolves the token with no look at the expiry.
 */
module Privacy {
  import opened Wrappers
  import opened Text
  import opened Platform

  /** The array index() hands to secureData; each entry may be null. */
  datatype QrPayload = QrPayload(
    nome: Option<string>,
    entidade: Option<string>,
    chavePublica: Option<string>,
    documentId: Option<string>,
    codigoTransacao: string,
    dtaAss: string)

  /** A row of acl_secure_token; Crypt::encrypt is transparent here, so the payload is kept as it is. */
  datatype TokenRow = TokenRow(encryptedData: QrPayload, createdAt: int, expiresAt: int)

  /** now()->addYears(100) */
  const TOKEN_YEARS: int := 100

  /** The exception verifySignature throws for an unknown token. */
  const NOT_FOUND: string := "Documento não encontrado"

  /** 'tk_' . bin2hex(random_bytes(16)) */
  function SecureToken(randomBytes: string): string
    requires |randomBytes| == 16
  {
    PrefixedHexId("tk_", randomBytes)
  }

  class SecureTokenStore {
    var rows: map<string, TokenRow>

    constructor()
      ensures rows == map[]
    {
      rows := map[];
    }

    /**
     * verifySignature's lookup and Crypt::decrypt: the payload of any stored
     * row, expired or not; an unknown token is an error.
     */
    function Resolve(token: string): (r: Result<QrPayload>)
      reads this
      ensures r.Ok? <==> token in rows
      ensures r.Ok? ==> r.value == rows[token].encryptedData
      ensures r.Err? ==> r.message == NOT_FOUND
    {
      if token in rows then Ok(rows[token].encryptedData) else Err(NOT_FOUND)
    }

    /**
     * secureData: one row under a fresh token, expiring a hundred years on;
     * a token already present violates the unique key and nothing is stored.
     */
    method SecureData(p: Primitives, data: QrPayload, randomBytes: string, now: int) returns (r: Result<string>)
      requires |randomBytes| == 16
      modifies this
      ensures r.Ok? <==> SecureToken(randomBytes) !in old(rows)
      ensures r.Ok? ==> (r.value == SecureToken(randomBytes)
        && rows == old(rows)[r.value := TokenRow(data, now, p.addYears(now, TOKEN_YEARS))])
      ensures r.Ok? ==> Resolve(r.value) == Ok(data)
      ensures r.Err? ==> rows == old(rows)
    {
      var token := SecureToken(randomBytes);
      if token in rows {
        return Err("Duplicate entry for key 'acl_secure_token_token_unique'");
      }
      rows := rows[token := TokenRow(data, now, p.addYears(now, TOKEN_YEARS))];
      return Ok(token);
    }

    /** Every other token resolves as before. */
    ghost predicate SameElsewhere(before: map<string, TokenRow>, token: string)
      reads this
    {
      forall t :: t != token ==> (t in rows <==> t in before) && (t in rows ==> rows[t] == before[t])
    }
  }

  /**
   * After an insertion the new token gives back its payload, every other
   * token is untouched, and the row outlives its creation time.
   */
  lemma StoredPayloadResolves(store: SecureTokenStore, before: map<string, TokenRow>, p: Primitives,
                              token: string, data: QrPayload, now: int)
    requires token !in before && YearsAdvance(p)
    requires store.rows == before[token := TokenRow(data, now, p.addYears(now, TOKEN_YEARS))]
    ensures store.Resolve(token) == Ok(data)
    ensures store.SameElsewhere(before, token)
    ensures store.rows[token].expiresAt > store.rows[token].createdAt
  {
  }
}
