/**
 * The primitives the services call but whose code is not part of this model:
 * SHA-256, HMAC, AES-256-CBC and AES-256-GCM (OpenSSL), PBKDF2, base64, RSA
 * signing and Carbon's calendar-year arithmetic. They are injected as one
 * configuration value together with the application key (config('app.key')),
 * and only the laws a proof needs are assumed, each as a named predicate.
 */
module Platform {
  import opened Wrappers
  import Text

  datatype Primitives = Primitives(
    /** config('app.key') */
    appKey: string,
    /** hash('sha256', $x, true): the raw digest */
    sha256: string -> string,
    /** openssl_encrypt($plain, 'AES-256-CBC', $key, OPENSSL_RAW_DATA, $iv) */
    aesCbcEncrypt: (string, string, string) -> string,
    /** openssl_decrypt($cipher, 'AES-256-CBC', $key, OPENSSL_RAW_DATA, $iv); None is `false` */
    aesCbcDecrypt: (string, string, string) -> Option<string>,
    /** openssl_decrypt($cipher, 'aes-256-gcm', $key, OPENSSL_RAW_DATA, $iv, $tag) */
    aesGcmDecrypt: (string, string, string, string) -> Option<string>,
    /** hash_pbkdf2('sha256', $password, $salt, $iterations, $length, true) */
    pbkdf2Sha256: (string, string, int, int) -> string,
    /** openssl_sign($data, $sig, $privateKey, OPENSSL_ALGO_SHA256) */
    rsaSign: (string, string) -> string,
    base64Encode: string -> string,
    base64Decode: string -> string,
    /** Carbon's addYears($n) on a unix time */
    addYears: (int, int) -> int)

  /** hash('sha256', $x): the lower-case hexadecimal digest */
  function Sha256Hex(p: Primitives, x: string): (h: string)
    ensures Text.IsLowerHex(h) && |h| == 2 * |p.sha256(x)|
  {
    Text.Bin2Hex(p.sha256(x))
  }

  /** SHA-256 digests are 32 bytes long. */
  ghost predicate DigestLength(p: Primitives) {
    forall x :: |p.sha256(x)| == 32
  }

  /** SHA-256 digests are byte strings: every char code is below 256. */
  ghost predicate DigestBytes(p: Primitives) {
    forall x, i {:trigger p.sha256(x)[i]} :: 0 <= i < |p.sha256(x)| ==> p.sha256(x)[i] as int < 256
  }

  /** Equal hex digests of byte digests mean equal digests, hence equal inputs where SHA-256 does not collide. */
  lemma Sha256HexInjective(p: Primitives, x: string, y: string)
    requires DigestBytes(p) && CollisionFree(p, x, y)
    ensures Sha256Hex(p, x) == Sha256Hex(p, y) ==> x == y
  {
    if Sha256Hex(p, x) == Sha256Hex(p, y) {
      Text.Bin2HexInjective(p.sha256(x), p.sha256(y));
    }
  }

  /** No SHA-256 collision between these two inputs. */
  predicate CollisionFree(p: Primitives, x: string, y: string) {
    p.sha256(x) == p.sha256(y) ==> x == y
  }

  /** Decrypting under the key and IV used for encryption gives back the plaintext. */
  ghost predicate CbcRoundTrip(p: Primitives) {
    forall key, iv, x :: p.aesCbcDecrypt(key, iv, p.aesCbcEncrypt(key, iv, x)) == Some(x)
  }

  /** base64_decode undoes base64_encode. */
  ghost predicate Base64RoundTrip(p: Primitives) {
    forall x :: p.base64Decode(p.base64Encode(x)) == x
  }

  /** Adding a positive number of calendar years moves time forward. */
  ghost predicate YearsAdvance(p: Primitives) {
    forall t, n :: n >= 1 ==> p.addYears(t, n) > t
  }

  const SECONDS_PER_HOUR: int := 3600
  const SECONDS_PER_DAY: int := 86400

  // ------------------------------------------------------- PHP serialize

  /** PHP's serialize() of one string, `s:<length>:"<bytes>";` */
  function SerializeString(s: string): string {
    "s:" + Text.NatToString(|s|) + ":\"" + s + "\";"
  }

  /** A value of a flat string array: a string or null (`N;`). */
  function SerializeValue(v: Option<string>): string {
    match v
    case Some(s) => SerializeString(s)
    case None => "N;"
  }

  function SerializeEntries(kvs: seq<(string, Option<string>)>): string {
    if kvs == [] then ""
    else SerializeEntries(kvs[..|kvs| - 1])
         + SerializeString(kvs[|kvs| - 1].0) + SerializeValue(kvs[|kvs| - 1].1)
  }

  /** serialize() of an associative array whose keys are strings and values strings or null */
  function SerializeArray(kvs: seq<(string, Option<string>)>): (r: string)
    ensures Text.StartsWith(r, "a:" + Text.NatToString(|kvs|) + ":{")
  {
    "a:" + Text.NatToString(|kvs|) + ":{" + SerializeEntries(kvs) + "}"
  }
}
