/**
 * DocumentoBindingService's binding half: the contextual snapshot taken when a
 * document is signed, the HMAC binding over fingerprint, user, context and
 * nonce, the suspicion level between two snapshots, the ordered reject chain
 * of validateDocumentIntegrity, the readable validation code, the
 * document_bindings table, and the hash of the PDF's /Producer and
 * /CreationDate entries.
 *
 * The HMAC (hash_hmac over serialize() under the application key) is the
 * parameter `mac`; SHA-256 comes from Platform.Primitives. Laravel's Crypt is
 * transparent: a stored binding is the binding value itself.
 */
module DocumentBinding {
  import opened Wrappers
  import opened Text
  import opened Sequences
  import opened Platform

  // ------------------------------------------------------------ the data

  /** The identity array the controller passes in: cpf, matricula, nome (each may be null). */
  datatype UserInfo = UserInfo(cpf: Option<string>, matricula: Option<string>, nome: Option<string>)

  /** What one request shows of its environment; every field an input. */
  datatype ServerRequest = ServerRequest(
    /** microtime(true), in microseconds */
    microtime: int,
    httpUserAgent: Option<string>,
    remoteAddr: Option<string>,
    sessionId: string,
    httpReferer: Option<string>,
    /** $_SERVER['REQUEST_TIME_FLOAT'], in microseconds */
    requestTimeFloat: Option<int>,
    /** generateServerSignature(): a hash of host, server software, uname and pid */
    serverSignature: string)

  /** The contextual_data array. Timestamps are in microseconds. */
  datatype Context = Context(
    timestamp: int,
    userAgent: string,
    ipAddress: string,
    sessionId: string,
    referrer: Option<string>,
    requestTime: int,
    serverSignature: string,
    customContext: seq<(string, Option<string>)>)

  /** The array the HMAC signs. */
  datatype BindingData = BindingData(fingerprint: string, user: UserInfo, context: Context, nonce: string)

  datatype CryptoBinding = CryptoBinding(data: BindingData, signature: string)

  /**
   * The binding array of createDocumentBinding. createdAt and expiresAt are
   * Carbon instants, kept to the microsecond as the encrypted array keeps them.
   */
  datatype Binding = Binding(
    fingerprint: string,
    contextualData: Context,
    cryptographicBinding: CryptoBinding,
    invisibleWatermark: string,
    integrityToken: string,
    createdAt: int,
    expiresAt: int)

  /** A row of document_bindings. */
  /** A row of document_bindings; its two time columns are the microsecond instants inserted. */
  datatype StoredBinding = StoredBinding(encryptedBinding: Binding, createdAt: int, expiresAt: int)

  datatype CreatedBinding = CreatedBinding(bindingId: string, validationCode: string, bindingData: Binding)

  /** The array validateDocumentIntegrity returns; levels are in hundredths. */
  datatype Validation =
    | Invalid(reason: string, reportedLevel: Option<int>)
    | Valid(level: int)

  const NOT_FOUND: string := "Binding não encontrado"
  const EXPIRED: string := "Binding expirado"
  const ALTERED: string := "Documento foi alterado"
  const SUSPICIOUS_CONTEXT: string := "Contexto suspeito detectado"
  const TEMPORAL_COMPROMISED: string := "Integridade temporal comprometida"
  const CRYPTO_INVALID: string := "Binding criptográfico inválido"

  const MICROS_PER_SECOND: int := 1000000
  /** now()->addDays(30) */
  const BINDING_LIFETIME: int := 30 * SECONDS_PER_DAY

  /** The HMAC is collision-free on this pair of inputs. */
  predicate MacInjectiveAt(mac: BindingData -> string, x: BindingData, y: BindingData) {
    mac(x) == mac(y) ==> x == y
  }

  // ----------------------------------------------------- context capture

  /** captureContextualData: missing headers become 'unknown', a missing REQUEST_TIME_FLOAT the current time. */
  function CaptureContextualData(req: ServerRequest, custom: seq<(string, Option<string>)>): Context {
    Context(
      req.microtime,
      req.httpUserAgent.GetOr("unknown"),
      req.remoteAddr.GetOr("unknown"),
      req.sessionId,
      req.httpReferer,
      req.requestTimeFloat.GetOr(req.microtime),
      req.serverSignature,
      custom)
  }

  /**
   * Two requests that both lack the User-Agent and REMOTE_ADDR values agree
   * on both, so neither the IP nor the user-agent factor fires between them.
   */
  lemma MissingHeadersCompareEqual(r1: ServerRequest, r2: ServerRequest, c1: seq<(string, Option<string>)>,
                                   c2: seq<(string, Option<string>)>)
    requires r1.httpUserAgent == None && r2.httpUserAgent == None
    requires r1.remoteAddr == None && r2.remoteAddr == None
    ensures !IpChanged(CaptureContextualData(r1, c1), CaptureContextualData(r2, c2))
    ensures !UserAgentChanged(CaptureContextualData(r1, c1), CaptureContextualData(r2, c2))
  {
  }

  // ----------------------------------------------------- suspicion level

  const IP_FACTOR: nat := 30
  const USER_AGENT_FACTOR: nat := 20
  const QUICK_ACCESS_FACTOR: nat := 40
  const SESSION_FACTOR: nat := 25
  /** min(1.0, ...) in hundredths */
  const LEVEL_CAP: nat := 100
  /** the `> 0.7` threshold in hundredths */
  const SUSPICION_THRESHOLD: nat := 70

  predicate IpChanged(original: Context, current: Context) {
    original.ipAddress != current.ipAddress
  }

  predicate UserAgentChanged(original: Context, current: Context) {
    original.userAgent != current.userAgent
  }

  /** Less than five seconds between the two snapshots (or a clock going backwards). */
  predicate QuickAccess(original: Context, current: Context) {
    current.timestamp - original.timestamp < 5 * MICROS_PER_SECOND
  }

  predicate SessionChanged(original: Context, current: Context) {
    original.sessionId != current.sessionId
  }

  /** The $suspicionFactors list, in the order the checks append to it. */
  function Factors(original: Context, current: Context): seq<nat> {
    Pick(IpChanged(original, current), IP_FACTOR)
    + Pick(UserAgentChanged(original, current), USER_AGENT_FACTOR)
    + Pick(QuickAccess(original, current), QUICK_ACCESS_FACTOR)
    + Pick(SessionChanged(original, current), SESSION_FACTOR)
  }

  /** array_sum */
  function Sum(s: seq<nat>): nat {
    if s == [] then 0 else Sum(s[..|s| - 1]) + s[|s| - 1]
  }

  lemma SumAppendOne(s: seq<nat>, x: nat)
    ensures Sum(s + [x]) == Sum(s) + x
  {
    assert (s + [x])[..|s|] == s;
  }

  lemma {:induction false} SumConcat(a: seq<nat>, b: seq<nat>)
    ensures Sum(a + b) == Sum(a) + Sum(b)
    decreases |b|
  {
    if b != [] {
      var b' := b[..|b| - 1];
      assert a + b == (a + b') + [b[|b| - 1]];
      assert b == b' + [b[|b| - 1]];
      SumConcat(a, b');
      SumAppendOne(a + b', b[|b| - 1]);
      SumAppendOne(b', b[|b| - 1]);
    } else {
      assert a + b == a;
    }
  }

  /** min(1.0, array_sum($suspicionFactors)), in hundredths. */
  function SuspicionLevel(original: Context, current: Context): (level: nat)
    ensures level <= LEVEL_CAP
  {
    var total := Sum(Factors(original, current));
    if total < LEVEL_CAP then total else LEVEL_CAP
  }

  /** The uncapped sum is the sum of the weights of the checks that fired. */
  lemma FactorSum(original: Context, current: Context)
    ensures Sum(Factors(original, current)) ==
      (if IpChanged(original, current) then IP_FACTOR else 0)
      + (if UserAgentChanged(original, current) then USER_AGENT_FACTOR else 0)
      + (if QuickAccess(original, current) then QUICK_ACCESS_FACTOR else 0)
      + (if SessionChanged(original, current) then SESSION_FACTOR else 0)
  {
    var a := Pick(IpChanged(original, current), IP_FACTOR);
    var b := Pick(UserAgentChanged(original, current), USER_AGENT_FACTOR);
    var c := Pick(QuickAccess(original, current), QUICK_ACCESS_FACTOR);
    var d := Pick(SessionChanged(original, current), SESSION_FACTOR);
    SumConcat(a, b);
    SumConcat(a + b, c);
    SumConcat(a + b + c, d);
    assert Sum([IP_FACTOR]) == IP_FACTOR by { SumAppendOne([], IP_FACTOR); }
    assert Sum([USER_AGENT_FACTOR]) == USER_AGENT_FACTOR by { SumAppendOne([], USER_AGENT_FACTOR); }
    assert Sum([QUICK_ACCESS_FACTOR]) == QUICK_ACCESS_FACTOR by { SumAppendOne([], QUICK_ACCESS_FACTOR); }
    assert Sum([SESSION_FACTOR]) == SESSION_FACTOR by { SumAppendOne([], SESSION_FACTOR); }
  }

  /** calculateSuspicionLevel: the factors are appended one check at a time, then summed and capped. */
  method CalculateSuspicionLevel(original: Context, current: Context) returns (level: nat)
    ensures level == SuspicionLevel(original, current)
  {
    var suspicionFactors: seq<nat> := [];
    if original.ipAddress != current.ipAddress {
      suspicionFactors := suspicionFactors + [IP_FACTOR];
    }
    if original.userAgent != current.userAgent {
      suspicionFactors := suspicionFactors + [USER_AGENT_FACTOR];
    }
    var timeDiff := current.timestamp - original.timestamp;
    if timeDiff < 5 * MICROS_PER_SECOND {
      suspicionFactors := suspicionFactors + [QUICK_ACCESS_FACTOR];
    }
    if original.sessionId != current.sessionId {
      suspicionFactors := suspicionFactors + [SESSION_FACTOR];
    }
    assert suspicionFactors == Factors(original, current);
    var total := Sum(suspicionFactors);
    level := if total < LEVEL_CAP then total else LEVEL_CAP;
  }

  /** The level is zero exactly when IP, user agent and session agree and at least five seconds passed. */
  lemma SuspicionZeroIff(original: Context, current: Context)
    ensures SuspicionLevel(original, current) == 0 <==>
      (original.ipAddress == current.ipAddress && original.userAgent == current.userAgent
       && current.timestamp - original.timestamp >= 5 * MICROS_PER_SECOND
       && original.sessionId == current.sessionId)
  {
    FactorSum(original, current);
  }

  /**
   * The level exceeds 0.7 exactly when at least three of the four factors
   * fire: the two heaviest alone (IP and quick access) make exactly 0.7.
   */
  lemma SuspiciousIffThreeFactors(original: Context, current: Context)
    ensures SuspicionLevel(original, current) > SUSPICION_THRESHOLD <==> |Factors(original, current)| >= 3
  {
    FactorSum(original, current);
  }

  /** Below the cap the level is the plain sum of the fired weights; all four fired it is capped at 1.0. */
  lemma SuspicionLevelIsCappedSum(original: Context, current: Context)
    ensures |Factors(original, current)| < 4 ==> SuspicionLevel(original, current) == Sum(Factors(original, current))
    ensures |Factors(original, current)| == 4 ==> SuspicionLevel(original, current) == LEVEL_CAP
  {
    FactorSum(original, current);
  }

  // ------------------------------------------------ cryptographic binding

  /** createCryptographicBinding: the nonce is random_bytes(32) rendered by bin2hex. */
  function CreateCryptographicBinding(fingerprint: string, user: UserInfo, context: Context, nonceBytes: string,
                                      mac: BindingData -> string): (b: CryptoBinding)
    ensures |b.data.nonce| == 2 * |nonceBytes| && IsLowerHex(b.data.nonce)
  {
    var data := BindingData(fingerprint, user, context, Bin2Hex(nonceBytes));
    CryptoBinding(data, mac(data))
  }

  /** verifyCryptographicBinding: re-sign the given fingerprint, user and context with the stored nonce. */
  predicate VerifyCryptographicBinding(original: CryptoBinding, fingerprint: string, user: UserInfo, context: Context,
                                       mac: BindingData -> string) {
    original.signature == mac(BindingData(fingerprint, user, context, original.data.nonce))
  }

  /** A binding verifies against the fingerprint, user and context it was made from. */
  lemma CreatedBindingVerifies(fingerprint: string, user: UserInfo, context: Context, nonceBytes: string,
                               mac: BindingData -> string)
    ensures VerifyCryptographicBinding(CreateCryptographicBinding(fingerprint, user, context, nonceBytes, mac),
                                       fingerprint, user, context, mac)
  {
  }

  /**
   * With a collision-free HMAC, a correctly signed binding verifies exactly
   * when fingerprint, user and context are the signed ones.
   */
  lemma VerifyIff(original: CryptoBinding, fingerprint: string, user: UserInfo, context: Context,
                  mac: BindingData -> string)
    requires original.signature == mac(original.data)
    requires MacInjectiveAt(mac, BindingData(fingerprint, user, context, original.data.nonce), original.data)
    ensures VerifyCryptographicBinding(original, fingerprint, user, context, mac) <==>
      (fingerprint == original.data.fingerprint && user == original.data.user && context == original.data.context)
  {
  }

  /** verifyTemporalIntegrity accepts every token. */
  predicate VerifyTemporalIntegrity(integrityToken: string, current: Context) {
    true
  }

  // ---------------------------------------------------------- validation

  /**
   * validateDocumentIntegrity as written, given the retrieved binding: the
   * first failing check names the reason, and the HMAC is recomputed over the
   * CURRENT context. `now` is the clock in microseconds; the binding is past
   * when its expiry lies strictly before it.
   */
  function Validate(original: Option<Binding>, fingerprint: string, user: UserInfo, current: Context, now: int,
                    mac: BindingData -> string): (v: Validation)
    ensures v.Valid? <==>
      (original.Some? && now <= original.value.expiresAt && fingerprint == original.value.fingerprint
       && SuspicionLevel(original.value.contextualData, current) <= SUSPICION_THRESHOLD
       && VerifyCryptographicBinding(original.value.cryptographicBinding, fingerprint, user, current, mac))
    ensures v.Valid? ==> v.level == SuspicionLevel(original.value.contextualData, current)
  {
    match original
    case None => Invalid(NOT_FOUND, None)
    case Some(b) =>
      if b.expiresAt < now then Invalid(EXPIRED, None)
      else if fingerprint != b.fingerprint then Invalid(ALTERED, None)
      else
        var level := SuspicionLevel(b.contextualData, current);
        if level > SUSPICION_THRESHOLD then Invalid(SUSPICIOUS_CONTEXT, Some(level))
        else if !VerifyTemporalIntegrity(b.integrityToken, current) then Invalid(TEMPORAL_COMPROMISED, None)
        else if !VerifyCryptographicBinding(b.cryptographicBinding, fingerprint, user, current, mac) then
          Invalid(CRYPTO_INVALID, None)
        else Valid(level)
  }

  /**
   * Each rejection reason means every earlier check passed: missing, then
   * expired, then altered, then suspicious context, then the HMAC. The
   * temporal check never rejects.
   */
  lemma RejectionOrder(original: Option<Binding>, fingerprint: string, user: UserInfo, current: Context, now: int,
                       mac: BindingData -> string)
    ensures var v := Validate(original, fingerprint, user, current, now, mac);
      && (v == Invalid(NOT_FOUND, None) <==> original.None?)
      && (v == Invalid(EXPIRED, None) <==> original.Some? && original.value.expiresAt < now)
      && (v == Invalid(ALTERED, None) <==>
            original.Some? && now <= original.value.expiresAt && fingerprint != original.value.fingerprint)
      && (v.Invalid? && v.reason == SUSPICIOUS_CONTEXT <==>
            original.Some? && now <= original.value.expiresAt && fingerprint == original.value.fingerprint
            && SuspicionLevel(original.value.contextualData, current) > SUSPICION_THRESHOLD)
      && v != Invalid(TEMPORAL_COMPROMISED, None)
      && (v == Invalid(CRYPTO_INVALID, None) <==>
            original.Some? && now <= original.value.expiresAt && fingerprint == original.value.fingerprint
            && SuspicionLevel(original.value.contextualData, current) <= SUSPICION_THRESHOLD
            && !VerifyCryptographicBinding(original.value.cryptographicBinding, fingerprint, user, current, mac))
  {
  }

  /** A rejection for suspicious context reports the level, which is above 0.7. */
  lemma SuspiciousReportsLevel(original: Option<Binding>, fingerprint: string, user: UserInfo, current: Context,
                               now: int, mac: BindingData -> string)
    requires Validate(original, fingerprint, user, current, now, mac).Invalid?
    requires Validate(original, fingerprint, user, current, now, mac).reason == SUSPICIOUS_CONTEXT
    ensures var v := Validate(original, fingerprint, user, current, now, mac);
      v.reportedLevel.Some? && v.reportedLevel.value > SUSPICION_THRESHOLD
      && v.reportedLevel.value == SuspicionLevel(original.value.contextualData, current)
  {
  }

  /**
   * The binding array of createDocumentBinding, from its already computed
   * parts. Its `now()` is the instant the context was captured at, so the
   * binding is created at the context's microsecond timestamp and expires
   * 30 days later to the microsecond.
   */
  function NewBinding(fingerprint: string, user: UserInfo, context: Context, nonceBytes: string, watermark: string,
                      integrityToken: string, mac: BindingData -> string): (b: Binding)
    ensures b.createdAt == context.timestamp
    ensures b.expiresAt == b.createdAt + BINDING_LIFETIME * MICROS_PER_SECOND
    ensures b.cryptographicBinding.data.context == b.contextualData
  {
    Binding(fingerprint, context, CreateCryptographicBinding(fingerprint, user, context, nonceBytes, mac),
            watermark, integrityToken, context.timestamp, context.timestamp + BINDING_LIFETIME * MICROS_PER_SECOND)
  }

  /**
   * validateDocumentIntegrity for one request: the context it checks is
   * captured from that request, and Carbon's isPast() compares the stored
   * microsecond expiry with the same clock.
   */
  function ValidateRequest(original: Option<Binding>, fingerprint: string, user: UserInfo, req: ServerRequest,
                           custom: seq<(string, Option<string>)>, mac: BindingData -> string): (v: Validation)
    ensures v.Valid? <==>
      (original.Some? && req.microtime <= original.value.expiresAt
       && fingerprint == original.value.fingerprint
       && SuspicionLevel(original.value.contextualData, CaptureContextualData(req, custom)) <= SUSPICION_THRESHOLD
       && VerifyCryptographicBinding(original.value.cryptographicBinding, fingerprint, user,
                                     CaptureContextualData(req, custom), mac))
  {
    Validate(original, fingerprint, user, CaptureContextualData(req, custom), req.microtime, mac)
  }

  /**
   * A fresh binding expires exactly 30 days after the microsecond it was
   * created at: made at 1000.5 s, it is still current at 2593000.3 s.
   */
  lemma ExpiresToTheMicrosecond(fingerprint: string, user: UserInfo, context: Context, nonceBytes: string,
                                watermark: string, integrityToken: string, presented: string, claimed: UserInfo,
                                req: ServerRequest, custom: seq<(string, Option<string>)>, mac: BindingData -> string)
    ensures var b := NewBinding(fingerprint, user, context, nonceBytes, watermark, integrityToken, mac);
      ValidateRequest(Some(b), presented, claimed, req, custom, mac) == Invalid(EXPIRED, None)
      <==> context.timestamp + BINDING_LIFETIME * MICROS_PER_SECOND < req.microtime
    ensures context.timestamp == 1000 * MICROS_PER_SECOND + 500000 ==>
      var b := NewBinding(fingerprint, user, context, nonceBytes, watermark, integrityToken, mac);
      req.microtime == 2593000 * MICROS_PER_SECOND + 300000 ==>
      ValidateRequest(Some(b), presented, claimed, req, custom, mac) != Invalid(EXPIRED, None)
  {
    var b := NewBinding(fingerprint, user, context, nonceBytes, watermark, integrityToken, mac);
    RejectionOrder(Some(b), presented, claimed, CaptureContextualData(req, custom), req.microtime, mac);
  }

  /**
   * As written, with a collision-free HMAC, a fresh binding validates for
   * its signer and document only on a request whose captured context is the
   * one of creation, microtime included; it then reports level 0.4, the
   * timestamp being zero seconds from itself. Replaying the creation request
   * itself validates.
   */
  lemma ValidatesOnlyAtCreationInstant(fingerprint: string, user: UserInfo, req0: ServerRequest,
                                       custom0: seq<(string, Option<string>)>, nonceBytes: string,
                                       watermark: string, integrityToken: string,
                                       req: ServerRequest, custom: seq<(string, Option<string>)>,
                                       mac: BindingData -> string)
    requires MacInjectiveAt(mac,
                            BindingData(fingerprint, user, CaptureContextualData(req, custom), Bin2Hex(nonceBytes)),
                            BindingData(fingerprint, user, CaptureContextualData(req0, custom0), Bin2Hex(nonceBytes)))
    ensures var b := NewBinding(fingerprint, user, CaptureContextualData(req0, custom0), nonceBytes, watermark,
                                integrityToken, mac);
      var v := ValidateRequest(Some(b), fingerprint, user, req, custom, mac);
      && (v.Valid? <==> CaptureContextualData(req, custom) == CaptureContextualData(req0, custom0))
      && (v.Valid? ==> req.microtime == req0.microtime && v == Valid(QUICK_ACCESS_FACTOR))
      && ValidateRequest(Some(b), fingerprint, user, req0, custom0, mac) == Valid(QUICK_ACCESS_FACTOR)
  {
    var c0 := CaptureContextualData(req0, custom0);
    var b := NewBinding(fingerprint, user, c0, nonceBytes, watermark, integrityToken, mac);
    VerifyIff(b.cryptographicBinding, fingerprint, user, CaptureContextualData(req, custom), mac);
    FactorSum(c0, c0);
  }

  /**
   * As written, with a collision-free HMAC, no request whose context differs
   * in any field from the signed one (a later microtime, say) validates.
   */
  lemma AsWrittenNeedsIdenticalContext(b: Binding, fingerprint: string, user: UserInfo, current: Context, now: int,
                                       mac: BindingData -> string)
    requires b.cryptographicBinding.signature == mac(b.cryptographicBinding.data)
    requires MacInjectiveAt(mac, BindingData(fingerprint, user, current, b.cryptographicBinding.data.nonce),
                            b.cryptographicBinding.data)
    requires current != b.cryptographicBinding.data.context
    ensures Validate(Some(b), fingerprint, user, current, now, mac) == Invalid(CRYPTO_INVALID, None)
            || Validate(Some(b), fingerprint, user, current, now, mac).reason in
               {EXPIRED, ALTERED, SUSPICIOUS_CONTEXT}
  {
    VerifyIff(b.cryptographicBinding, fingerprint, user, current, mac);
  }

  /**
   * validateDocumentIntegrity as evidently intended: the HMAC is rebuilt
   * over the STORED context, so the context check is the suspicion level
   * alone.
   */
  function ValidateIntended(original: Option<Binding>, fingerprint: string, user: UserInfo, current: Context, now: int,
                            mac: BindingData -> string): (v: Validation)
    ensures v.Valid? ==> original.Some? && v.level == SuspicionLevel(original.value.contextualData, current)
                         && v.level <= SUSPICION_THRESHOLD
  {
    match original
    case None => Invalid(NOT_FOUND, None)
    case Some(b) =>
      if b.expiresAt < now then Invalid(EXPIRED, None)
      else if fingerprint != b.fingerprint then Invalid(ALTERED, None)
      else
        var level := SuspicionLevel(b.contextualData, current);
        if level > SUSPICION_THRESHOLD then Invalid(SUSPICIOUS_CONTEXT, Some(level))
        else if !VerifyTemporalIntegrity(b.integrityToken, current) then Invalid(TEMPORAL_COMPROMISED, None)
        else if !VerifyCryptographicBinding(b.cryptographicBinding, fingerprint, user, b.contextualData, mac) then
          Invalid(CRYPTO_INVALID, None)
        else Valid(level)
  }

  /**
   * With the intended check, a binding made by createDocumentBinding for a
   * user validates for that user and document, before expiry, exactly when
   * the suspicion level is at most 0.7; with a collision-free HMAC any other
   * user is rejected.
   */
  lemma IntendedValidIff(fingerprint: string, user: UserInfo, context: Context, nonceBytes: string,
                         watermark: string, integrityToken: string,
                         claimed: UserInfo, current: Context, now: int, mac: BindingData -> string)
    requires now <= context.timestamp + BINDING_LIFETIME * MICROS_PER_SECOND
    requires MacInjectiveAt(mac, BindingData(fingerprint, claimed, context, Bin2Hex(nonceBytes)),
                            BindingData(fingerprint, user, context, Bin2Hex(nonceBytes)))
    ensures var b := NewBinding(fingerprint, user, context, nonceBytes, watermark, integrityToken, mac);
      ValidateIntended(Some(b), fingerprint, claimed, current, now, mac).Valid? <==>
        claimed == user && SuspicionLevel(context, current) <= SUSPICION_THRESHOLD
  {
  }

  /** The scenario of an IP change two seconds after signing: level exactly 0.7. */
  function ScenarioSigned(): Context {
    Context(1000 * MICROS_PER_SECOND, "UA", "10.0.0.1", "s1", None, 1000 * MICROS_PER_SECOND, "srv", [])
  }

  function ScenarioLater(): Context {
    ScenarioSigned().(timestamp := 1002 * MICROS_PER_SECOND, ipAddress := "10.0.0.2")
  }

  /**
   * IP changed, same user agent and session, two seconds later: the level is
   * 0.3 + 0.4 = 0.7, which passes the strict `> 0.7` test. As written the
   * HMAC over the new context then fails, so the request is rejected; the
   * intended check accepts it with level 0.7.
   */
  lemma IpChangeWithinFiveSeconds(fingerprint: string, user: UserInfo, nonceBytes: string, mac: BindingData -> string)
    requires MacInjectiveAt(mac, BindingData(fingerprint, user, ScenarioLater(), Bin2Hex(nonceBytes)),
                            BindingData(fingerprint, user, ScenarioSigned(), Bin2Hex(nonceBytes)))
    ensures var b := NewBinding(fingerprint, user, ScenarioSigned(), nonceBytes, "", "", mac);
      && SuspicionLevel(ScenarioSigned(), ScenarioLater()) == SUSPICION_THRESHOLD
      && Validate(Some(b), fingerprint, user, ScenarioLater(), 1002 * MICROS_PER_SECOND, mac) == Invalid(CRYPTO_INVALID, None)
      && ValidateIntended(Some(b), fingerprint, user, ScenarioLater(), 1002 * MICROS_PER_SECOND, mac) == Valid(SUSPICION_THRESHOLD)
  {
    assert ScenarioLater() != ScenarioSigned() by {
      assert ScenarioLater().ipAddress != ScenarioSigned().ipAddress;
    }
    FactorSum(ScenarioSigned(), ScenarioLater());
  }

  // ------------------------------------------------------- readable code

  predicate IsUpperHexChar(c: char) {
    '0' <= c <= '9' || 'A' <= c <= 'F'
  }

  predicate IsUpperHex(s: string) {
    forall i :: 0 <= i < |s| ==> IsUpperHexChar(s[i])
  }

  /** generateValidationCode: the first 8 hex digits of sha256(bindingId . app.key), upper-cased. */
  function GenerateValidationCode(p: Primitives, bindingId: string): (code: string)
    ensures IsUpperHex(code) && |code| <= 8
    ensures DigestLength(p) ==> |code| == 8
  {
    Upper(Take(Sha256Hex(p, bindingId + p.appKey), 8))
  }

  /** Lower-casing the code gives back the digest's first eight hex digits. */
  lemma ValidationCodeIsDigestPrefix(p: Primitives, bindingId: string)
    requires DigestLength(p)
    ensures Lower(GenerateValidationCode(p, bindingId)) == Sha256Hex(p, bindingId + p.appKey)[..8]
  {
    var h := Take(Sha256Hex(p, bindingId + p.appKey), 8);
    var code := GenerateValidationCode(p, bindingId);
    assert forall i | 0 <= i < 8 :: Lower(code)[i] == h[i];
  }

  // -------------------------------------------------- document_bindings

  /** 'bind_' . bin2hex(random_bytes(16)) */
  function BindingId(randomBytes: string): string
    requires |randomBytes| == 16
  {
    PrefixedHexId("bind_", randomBytes)
  }

  /** The document_bindings table, keyed by its unique binding_id. */
  class BindingStore {
    var rows: map<string, StoredBinding>

    constructor()
      ensures rows == map[]
    {
      rows := map[];
    }

    /** retrieveSecureBinding: the decrypted binding, or null; expiry is not looked at here. */
    function RetrieveSecureBinding(bindingId: string): (r: Option<Binding>)
      reads this
      ensures r.Some? <==> bindingId in rows
      ensures r.Some? ==> r.value == rows[bindingId].encryptedBinding
    {
      if bindingId in rows then Some(rows[bindingId].encryptedBinding) else None
    }

    /**
     * storeSecureBinding: one row under a fresh 'bind_' id, stamped `now`
     * (microseconds) and carrying the binding's expiry; an id already present
     * violates the unique key and the insert fails with nothing stored.
     */
    method StoreSecureBinding(binding: Binding, randomBytes: string, now: int) returns (r: Result<string>)
      requires |randomBytes| == 16
      modifies this
      ensures r.Ok? <==> BindingId(randomBytes) !in old(rows)
      ensures r.Ok? ==> r.value == BindingId(randomBytes)
                        && rows == old(rows)[r.value := StoredBinding(binding, now, binding.expiresAt)]
                        && RetrieveSecureBinding(r.value) == Some(binding)
      ensures r.Err? ==> rows == old(rows)
    {
      var bindingId := BindingId(randomBytes);
      if bindingId in rows {
        return Err("Duplicate entry for key 'document_bindings_binding_id_unique'");
      }
      rows := rows[bindingId := StoredBinding(binding, now, binding.expiresAt)];
      return Ok(bindingId);
    }

    /**
     * createDocumentBinding, given the fingerprint, the captured context, the
     * watermark and integrity token, and the random bytes of nonce and id.
     */
    method CreateDocumentBinding(p: Primitives, mac: BindingData -> string, fingerprint: string, user: UserInfo,
                                 context: Context, nonceBytes: string, watermark: string, integrityToken: string,
                                 idBytes: string)
      returns (r: Result<CreatedBinding>)
      requires |nonceBytes| == 32 && |idBytes| == 16
      modifies this
      ensures r.Ok? <==> BindingId(idBytes) !in old(rows)
      ensures r.Ok? ==>
        var b := NewBinding(fingerprint, user, context, nonceBytes, watermark, integrityToken, mac);
        && r.value == CreatedBinding(BindingId(idBytes), GenerateValidationCode(p, BindingId(idBytes)), b)
        && rows == old(rows)[BindingId(idBytes) := StoredBinding(b, context.timestamp,
                                                                  context.timestamp + BINDING_LIFETIME * MICROS_PER_SECOND)]
      ensures r.Err? ==> rows == old(rows)
    {
      var binding := NewBinding(fingerprint, user, context, nonceBytes, watermark, integrityToken, mac);
      var stored := StoreSecureBinding(binding, idBytes, context.timestamp);
      match stored
      case Err(e) =>
        r := Err(e);
      case Ok(bindingId) =>
        r := Ok(CreatedBinding(bindingId, GenerateValidationCode(p, bindingId), binding));
    }

    /** validateDocumentIntegrity over this table, for the request being served. */
    function ValidateDocumentIntegrity(bindingId: string, fingerprint: string, user: UserInfo, req: ServerRequest,
                                       custom: seq<(string, Option<string>)>, mac: BindingData -> string)
      : (v: Validation)
      reads this
      ensures bindingId !in rows ==> v == Invalid(NOT_FOUND, None)
      ensures bindingId in rows ==>
        v == ValidateRequest(Some(rows[bindingId].encryptedBinding), fingerprint, user, req, custom, mac)
    {
      ValidateRequest(RetrieveSecureBinding(bindingId), fingerprint, user, req, custom, mac)
    }
  }

  // ------------------------------------------------- creation patterns

  /** End of the maximal run of characters other than ')' starting at `j` (`[^)]*`). */
  function SkipNonClose(s: string, j: nat): (k: nat)
    requires j <= |s|
    ensures j <= k <= |s|
    ensures forall m :: j <= m < k ==> s[m] != ')'
    ensures k < |s| ==> s[k] == ')'
    decreases |s| - j
  {
    if j < |s| && s[j] != ')' then SkipNonClose(s, j + 1) else j
  }

  /**
   * A match of `key\s*\(([^)]+)\)` starting at `i`, and its capture. The
   * greedy runs cannot give back: a shorter `\s*` leaves a space where `(`
   * is needed, and a shorter `[^)]+` leaves a non-`)` where `)` is needed.
   */
  function ParenValueAt(s: string, key: string, i: nat): (r: Option<string>)
    ensures r.Some? ==> OccursAt(s, key, i) && |r.value| >= 1 && ')' !in r.value
  {
    if !OccursAt(s, key, i) then None
    else
      var j := SkipSpaces(s, i + |key|);
      if j < |s| && s[j] == '(' then
        var e := SkipNonClose(s, j + 1);
        if j + 1 < e < |s| then Some(s[j + 1..e]) else None
      else None
  }

  /** preg_match's capture: the leftmost offset at or after `i` where the whole pattern matches. */
  function FirstParenValue(s: string, key: string, i: nat): (r: Option<string>)
    ensures r.Some? ==> |r.value| >= 1 && ')' !in r.value
    decreases |s| - i
  {
    if i > |s| then None
    else if ParenValueAt(s, key, i).Some? then ParenValueAt(s, key, i)
    else FirstParenValue(s, key, i + 1)
  }

  /** A match needs the key as a substring, so no `key` means no capture. */
  lemma {:induction false} FirstParenValueNeedsKey(s: string, key: string, i: nat)
    requires FirstParenValue(s, key, i).Some?
    ensures Contains(s, key)
    decreases |s| - i
  {
    if ParenValueAt(s, key, i).Some? {
      assert OccursAt(s, key, i);
    } else {
      FirstParenValueNeedsKey(s, key, i + 1);
    }
  }

  /** One entry of $patterns: set when strpos finds the key, to the capture or 'unknown'. */
  function PatternEntry(content: string, key: string, name: string): seq<(string, Option<string>)> {
    if Contains(content, key) then [(name, Some(FirstParenValue(content, key, 0).GetOr("unknown")))] else []
  }

  /** The $patterns array of extractCreationPatterns. */
  function CreationPatterns(content: string): seq<(string, Option<string>)> {
    PatternEntry(content, "/Producer", "producer") + PatternEntry(content, "/CreationDate", "creation_date")
  }

  /**
   * The array holds `producer` exactly when the content contains /Producer
   * and `creation_date` exactly when it contains /CreationDate, in that
   * order; each value is the parenthesised text, or 'unknown' when the key
   * appears without a well-formed `( … )` after it.
   */
  lemma CreationPatternsShape(content: string)
    ensures var ps := CreationPatterns(content);
      && |ps| == (if Contains(content, "/Producer") then 1 else 0)
                 + (if Contains(content, "/CreationDate") then 1 else 0)
      && (Contains(content, "/Producer") <==> |ps| >= 1 && ps[0].0 == "producer")
      && (Contains(content, "/CreationDate") <==> |ps| >= 1 && ps[|ps| - 1].0 == "creation_date")
      && (Contains(content, "/Producer") ==>
            ps[0].1 == Some(FirstParenValue(content, "/Producer", 0).GetOr("unknown")))
      && (!Contains(content, "/Producer") ==> FirstParenValue(content, "/Producer", 0).None?)
  {
    if FirstParenValue(content, "/Producer", 0).Some? {
      FirstParenValueNeedsKey(content, "/Producer", 0);
    }
  }

  /** extractCreationPatterns: hash('sha256', serialize($patterns)). */
  function ExtractCreationPatterns(p: Primitives, content: string): (h: string)
    ensures IsLowerHex(h)
    ensures DigestLength(p) ==> |h| == 64
  {
    Sha256Hex(p, SerializeArray(CreationPatterns(content)))
  }

  /** A document without either key hashes the empty array `a:0:{}`. */
  lemma NoMetadataHashesEmptyArray(p: Primitives, content: string)
    requires !Contains(content, "/Producer") && !Contains(content, "/CreationDate")
    ensures ExtractCreationPatterns(p, content) == Sha256Hex(p, "a:0:{}")
  {
    assert CreationPatterns(content) == [];
    assert SerializeEntries([]) == "";
    assert NatToString(0) == "0";
    assert SerializeArray([]) == "a:0:{}";
  }
}
