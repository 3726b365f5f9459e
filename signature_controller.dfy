/**
 * SignatureController: the pieces of the signing pipeline in index() that
 * decide anything, and the pipeline itself in the order the code runs it:
 * signer data, identity token, device gate, PDF pre-check, signing and
 * storage, forgery gate, document binding and device enhancement, QR token,
 * and the mapping of every failure to a JSON error.
 */
module SignatureController {
  import opened Wrappers
  import opened Text
  import opened Platform
  import opened Sequences
  import opened CopyPasteDetection
  import opened DeviceBinding
  import DocumentBinding
  import DocumentSecurity
  import ZeroKnowledge
  import Privacy
  import SignatureServices

  // ---------------------------------------------------- suspicion score

  /** $patternScores[$pattern] ?? 1 */
  function Weight(tag: string): (w: nat)
    ensures 1 <= w <= 3
  {
    if tag == "capture_tool_detected" then 3
    else if tag in ["suspicious_filename", "image_conversion_tool", "image_only_pdf", "image_heavy_pdf",
                    "screen_resolution_match", "scanned_document_characteristics"] then 2
    else 1
  }

  /** The weight each detector pattern is given, by pattern. */
  function PatternWeight(t: Pattern): nat {
    match t
    case CaptureToolDetected => 3
    case SuspiciousFilename | ImageConversionTool | ImageOnlyPdf | ImageHeavyPdf | ScreenResolution
       | ScannedDocumentCharacteristics => 2
    case FileTooRecent | LowQualityImage | RecentCreationTimestamp | DownloadIndicators => 1
  }

  /** The table lists every detector tag: no tag falls back to the default weight by accident. */
  lemma WeightOfPattern(t: Pattern)
    ensures Weight(t.Name()) == PatternWeight(t)
  {
  }

  /** Sum of the weights, added up in list order. */
  function Score(tags: seq<string>): nat {
    if tags == [] then 0 else Score(tags[..|tags| - 1]) + Weight(tags[|tags| - 1])
  }

  /** calculateSuspicionScore */
  method CalculateSuspicionScore(patterns: seq<string>) returns (score: nat)
    ensures score == Score(patterns)
  {
    score := 0;
    for i := 0 to |patterns|
      invariant score == Score(patterns[..i])
    {
      assert patterns[..i + 1][..i] == patterns[..i];
      score := score + Weight(patterns[i]);
    }
    assert patterns[..|patterns|] == patterns;
  }

  /** Every tag weighs at least 1 and at most 3. */
  lemma {:induction false} ScoreBounds(tags: seq<string>)
    ensures |tags| <= Score(tags) <= 3 * |tags|
  {
    if tags != [] {
      ScoreBounds(tags[..|tags| - 1]);
    }
  }

  /**
   * The gate's `>= 2`: two or more tags always reject, a single tag rejects
   * exactly when it weighs 2 or 3, and no tag at all passes.
   */
  lemma ScoreRejectsIff(tags: seq<string>)
    ensures Score(tags) >= 2 <==> |tags| >= 2 || (|tags| == 1 && Weight(tags[0]) >= 2)
  {
    ScoreBounds(tags);
    if |tags| == 1 {
      assert tags[..0] == [];
    }
  }

  /** implode(', ', $patterns) */
  function JoinComma(tags: seq<string>): string {
    if tags == [] then ""
    else if |tags| == 1 then tags[0]
    else JoinComma(tags[..|tags| - 1]) + ", " + tags[|tags| - 1]
  }

  /** The tag strings of detected patterns. */
  function Names(ps: seq<Pattern>): (r: seq<string>)
    ensures |r| == |ps| && forall i :: 0 <= i < |ps| ==> r[i] == ps[i].Name()
  {
    seq(|ps|, i requires 0 <= i < |ps| => ps[i].Name())
  }

  const FORGERY_PREFIX: string := REJECTED_MARK + ": Detectadas características de print/screenshot ou documento não original. Este sistema não aceita documentos capturados de tela. Padrões detectados: "
  const FORGERY_SUFFIX: string := ". Envie o documento PDF original."

  function ForgeryMessage(ps: seq<Pattern>): string {
    FORGERY_PREFIX + JoinComma(Names(ps)) + FORGERY_SUFFIX
  }

  /**
   * The forgery gate over the detected patterns: rejected exactly when the
   * weights reach 2, naming every pattern.
   */
  function ForgeryGate(ps: seq<Pattern>): (r: Result<()>)
    ensures r.Err? <==> Score(Names(ps)) >= 2
    ensures r.Err? ==> r.message == ForgeryMessage(ps)
  {
    if ps != [] && Score(Names(ps)) >= 2 then Err(ForgeryMessage(ps)) else Ok(())
  }

  /**
   * On what the detector can report: a capture tool, any single weight-2
   * pattern, an image-only PDF (which always comes with image_heavy_pdf)
   * and any two patterns reject; one weight-1 pattern alone passes.
   */
  lemma ForgeryGateOnDetected(f: UploadedFile, now: int, strtotime: string -> Option<int>)
    ensures var ps := Detected(f, now, strtotime);
      && (|ps| >= 2 ==> ForgeryGate(ps).Err?)
      && (|ps| == 1 ==> (ForgeryGate(ps).Err? <==> PatternWeight(ps[0]) >= 2))
      && (CaptureToolDetected in ps || ImageOnlyPdf in ps ==> ForgeryGate(ps).Err?)
  {
    var ps := Detected(f, now, strtotime);
    ScoreRejectsIff(Names(ps));
    if |ps| == 1 {
      WeightOfPattern(ps[0]);
    }
    ImageOnlyImpliesHeavy(f, now, strtotime);
    DetectedDistinct(f, now, strtotime);
    if ImageOnlyPdf in ps {
      var a := IndexOf(ps, ImageOnlyPdf);
      var b := IndexOf(ps, ImageHeavyPdf);
      assert a != b;
    } else if CaptureToolDetected in ps && |ps| == 1 {
      assert ps[0] == CaptureToolDetected;
    }
  }

  /**
   * The controller hands the detector the upload's temporary file, whose
   * modification time is the upload instant: on such a fresh file
   * file_too_recent always fires, so the gate rejects exactly when any
   * other check fires as well.
   */
  lemma FreshUploadRejectsOnAnyOtherTag(f: UploadedFile, now: int, strtotime: string -> Option<int>)
    requires now - f.mtime < 30
    ensures var ps := Detected(f, now, strtotime);
      ForgeryGate(ps).Err? <==> exists j | 0 <= j < |ps| :: ps[j] != FileTooRecent
  {
    var ps := Detected(f, now, strtotime);
    FileTooRecentIff(f, now, strtotime);
    ForgeryGateOnDetected(f, now, strtotime);
    DetectedDistinct(f, now, strtotime);
    if |ps| == 1 {
      assert ps[0] == FileTooRecent;
    } else {
      assert ps[0] != FileTooRecent || ps[1] != FileTooRecent;
    }
  }

  // ------------------------------------------------------ PDF pre-check

  const NOT_A_PDF: string := "Arquivo não é um PDF válido"
  const IMAGES_ONLY: string := REJECTED_MARK + ": PDF contém apenas imagens sem texto. Isso indica um print/screenshot. Envie o documento PDF original com texto selecionável."
  const LARGE_PREFIX: string := REJECTED_MARK + ": PDF muito grande ("
  const LARGE_SUFFIX: string := "MB) sem texto. Isso indica conversão de imagem/print para PDF. Envie o documento original."
  /** 5 * 1024 * 1024 */
  const MAX_TEXTLESS_SIZE: int := 5 * 1024 * 1024
  /** the `$fileAge < 60` warning */
  const FRESH_FILE_AGE: int := 60

  const ImageConversionTools: seq<string> :=
    ["Microsoft Print to PDF", "Chrome", "Chromium", "Edge", "ImageToPDF", "CamScanner", "Adobe Scan", "PDFCreator"]

  /** What validatePdfIntegrity logs without rejecting. */
  datatype PdfNote = ConversionTool(tool: string) | FreshFile(ageSeconds: int)

  predicate HasImages(content: string) {
    Contains(content, "/Image")
  }

  predicate HasText(content: string) {
    Contains(content, "/Font") || Contains(content, "/Text")
  }

  /** What validatePdfIntegrity lets through: a PDF header, and text unless it is small and has no images. */
  predicate PdfAcceptable(content: string, fileSize: int) {
    StartsWith(content, "%PDF-") && (HasText(content) || (!HasImages(content) && fileSize <= MAX_TEXTLESS_SIZE))
  }

  /** The first listed tool, from position `k` on, that the content names in any case. */
  function FirstTool(content: string, k: nat): (r: Option<string>)
    requires k <= |ImageConversionTools|
    ensures r.Some? ==> r.value in ImageConversionTools && ContainsCI(content, r.value)
    ensures r.None? <==> forall j :: k <= j < |ImageConversionTools| ==> !ContainsCI(content, ImageConversionTools[j])
    decreases |ImageConversionTools| - k
  {
    if k == |ImageConversionTools| then None
    else if ContainsCI(content, ImageConversionTools[k]) then Some(ImageConversionTools[k])
    else FirstTool(content, k + 1)
  }

  /**
   * validatePdfIntegrity on the file's content, size and age. It rejects in
   * three cases only; the converter list and the age are logged and never
   * decide. `sizeLabel` is the size in MiB as round(..., 1) prints it.
   */
  method ValidatePdfIntegrity(content: string, fileSize: int, fileAge: int, sizeLabel: string)
    returns (r: Result<()>, notes: seq<PdfNote>)
    ensures !StartsWith(content, "%PDF-") ==> r == Err(NOT_A_PDF) && notes == []
    ensures StartsWith(content, "%PDF-") && HasImages(content) && !HasText(content) ==> r == Err(IMAGES_ONLY)
    ensures StartsWith(content, "%PDF-") && !HasText(content) && !HasImages(content) && fileSize > MAX_TEXTLESS_SIZE
            ==> r == Err(LARGE_PREFIX + sizeLabel + LARGE_SUFFIX)
    ensures r.Ok? <==> PdfAcceptable(content, fileSize)
    ensures StartsWith(content, "%PDF-") ==>
      && (FirstTool(content, 0).Some? ==> |notes| >= 1 && notes[0] == ConversionTool(FirstTool(content, 0).value))
      && (FirstTool(content, 0).None? ==> forall i :: 0 <= i < |notes| ==> notes[i].FreshFile?)
      && (FreshFile(fileAge) in notes <==> r.Ok? && fileAge < FRESH_FILE_AGE)
  {
    notes := [];
    if !StartsWith(content, "%PDF-") {
      return Err(NOT_A_PDF), notes;
    }
    var i := 0;
    while i < |ImageConversionTools|
      invariant 0 <= i <= |ImageConversionTools|
      invariant notes == [] && FirstTool(content, 0) == FirstTool(content, i)
      decreases |ImageConversionTools| - i
    {
      if ContainsCI(content, ImageConversionTools[i]) {
        notes := [ConversionTool(ImageConversionTools[i])];
        break;
      }
      i := i + 1;
    }
    var hasImages := HasImages(content);
    var hasText := HasText(content);
    if hasImages && !hasText {
      return Err(IMAGES_ONLY), notes;
    }
    if fileSize > MAX_TEXTLESS_SIZE && !hasText {
      return Err(LARGE_PREFIX + sizeLabel + LARGE_SUFFIX), notes;
    }
    if fileAge < FRESH_FILE_AGE {
      notes := notes + [FreshFile(fileAge)];
    }
    return Ok(()), notes;
  }

  // ------------------------------------------------------ error mapping

  /** The JSON body and status of a failed request. */
  datatype ErrorBody = ErrorBody(status: int, error: string, kind: Option<string>, reason: Option<string>)

  const DOCUMENT_REJECTED: string := "document_rejected"
  const SUSPICIOUS_CONTENT: string := "suspicious_content_detected"
  const PROCESSING_ERROR: string := "Error processing PDF: "

  /** The outer catch of index(). */
  function ErrorResponse(message: string): (r: ErrorBody)
    ensures r.status == 400 <==> Contains(message, REJECTED_MARK)
    ensures r.status == 400 ==> r == ErrorBody(400, message, Some(DOCUMENT_REJECTED), Some(SUSPICIOUS_CONTENT))
    ensures r.status != 400 ==> r == ErrorBody(500, PROCESSING_ERROR + message, None, None)
  {
    if Contains(message, REJECTED_MARK) then ErrorBody(400, message, Some(DOCUMENT_REJECTED), Some(SUSPICIOUS_CONTENT))
    else ErrorBody(500, PROCESSING_ERROR + message, None, None)
  }

  /** Every rejection the pipeline raises opens with the marker. */
  lemma RejectionsStartMarked(ps: seq<Pattern>, sizeLabel: string, reason: string)
    ensures StartsWith(ForgeryMessage(ps), REJECTED_MARK)
    ensures StartsWith(IMAGES_ONLY, REJECTED_MARK)
    ensures StartsWith(LARGE_PREFIX + sizeLabel + LARGE_SUFFIX, REJECTED_MARK)
    ensures StartsWith(DEVICE_REJECTED, REJECTED_MARK)
    ensures StartsWith(REJECTED_UNTRUSTED + reason, REJECTED_MARK)
    ensures StartsWith(REJECTED_CROSS_DEVICE, REJECTED_MARK)
  {
    assert ForgeryMessage(ps)[..|REJECTED_MARK|] == REJECTED_MARK;
    assert IMAGES_ONLY[..|REJECTED_MARK|] == REJECTED_MARK;
    assert (LARGE_PREFIX + sizeLabel + LARGE_SUFFIX)[..|REJECTED_MARK|] == REJECTED_MARK;
    assert DEVICE_REJECTED[..|REJECTED_MARK|] == REJECTED_MARK;
    assert (REJECTED_UNTRUSTED + reason)[..|REJECTED_MARK|] == REJECTED_MARK;
    assert REJECTED_CROSS_DEVICE[..|REJECTED_MARK|] == REJECTED_MARK;
  }

  /** A message that opens with the marker is answered 400 document_rejected, with the message itself. */
  lemma MarkedIs400(message: string)
    requires StartsWith(message, REJECTED_MARK)
    ensures ErrorResponse(message) == ErrorBody(400, message, Some(DOCUMENT_REJECTED), Some(SUSPICIOUS_CONTENT))
  {
    MarkedPrefix(message[|REJECTED_MARK|..]);
    assert message == REJECTED_MARK + message[|REJECTED_MARK|..];
  }

  /** A file that is not a PDF at all is a processing error, not a rejection. */
  lemma NotAPdfIs500()
    ensures ErrorResponse(NOT_A_PDF) == ErrorBody(500, PROCESSING_ERROR + NOT_A_PDF, None, None)
  {
    forall i | 0 <= i <= |NOT_A_PDF| - |REJECTED_MARK|
      ensures !OccursAt(NOT_A_PDF, REJECTED_MARK, i)
    {
      assert NOT_A_PDF[i] != 'D';
      assert NOT_A_PDF[i..i + |REJECTED_MARK|][0] == NOT_A_PDF[i];
    }
  }

  // ---------------------------------------------------- AES-GCM framing

  /** The 12-byte IV, the ciphertext and the 16-byte tag, as the substr calls cut them. */
  datatype GcmParts = GcmParts(iv: string, ciphertext: string, tag: string)

  const GCM_IV_LENGTH: nat := 12
  const GCM_TAG_LENGTH: nat := 16
  const PBKDF2_SALT: string := "f891350c35fb47cc1557f441b5fdfa04"
  const PBKDF2_ITERATIONS: int := 100000
  const PBKDF2_KEY_LENGTH: int := 32

  /**
   * substr($d, 0, 12), then substr($rest, 0, -16) and substr($rest, -16);
   * PHP clamps every cut, so a short input gives empty pieces.
   */
  function SplitGcm(data: string): (g: GcmParts)
    ensures g.iv + g.ciphertext + g.tag == data
    ensures |data| >= GCM_IV_LENGTH ==> |g.iv| == GCM_IV_LENGTH
    ensures |data| >= GCM_IV_LENGTH + GCM_TAG_LENGTH ==>
              |g.tag| == GCM_TAG_LENGTH && |g.ciphertext| == |data| - GCM_IV_LENGTH - GCM_TAG_LENGTH
    ensures |data| < GCM_IV_LENGTH + GCM_TAG_LENGTH ==> g.ciphertext == ""
  {
    var iv := Take(data, GCM_IV_LENGTH);
    var rest := Drop(data, GCM_IV_LENGTH);
    var cut := if |rest| >= GCM_TAG_LENGTH then |rest| - GCM_TAG_LENGTH else 0;
    var ciphertext, tag := Take(rest, cut), Drop(rest, cut);
    assert iv + ciphertext + tag == data by {
      assert ciphertext + tag == rest && iv + rest == data;
      assert iv + ciphertext + tag == iv + (ciphertext + tag);
    }
    GcmParts(iv, ciphertext, tag)
  }

  /** chr() of each array entry: the value modulo 256. */
  function Chr(bytes: seq<int>): (s: string)
    ensures |s| == |bytes| && forall i :: 0 <= i < |bytes| ==> s[i] as int == bytes[i] % 256
  {
    seq(|bytes|, i requires 0 <= i < |bytes| => (bytes[i] % 256) as char)
  }

  /** The `foreach ($array as $byte) $s .= chr($byte)` loops. */
  method BytesToString(bytes: seq<int>) returns (s: string)
    ensures s == Chr(bytes)
  {
    s := "";
    for i := 0 to |bytes|
      invariant s == Chr(bytes[..i])
    {
      s := s + [(bytes[i] % 256) as char];
    }
    assert bytes[..|bytes|] == bytes;
  }

  /** Byte values already in 0..255 come back unchanged. */
  lemma ChrOfBytes(bytes: seq<int>)
    requires forall i :: 0 <= i < |bytes| ==> 0 <= bytes[i] < 256
    ensures forall i :: 0 <= i < |bytes| ==> Chr(bytes)[i] as int == bytes[i]
  {
  }

  /** The fields index() reads from the signer data. */
  datatype SignerFields = SignerFields(
    nome: Option<string>,
    cpf: string,
    cargo: Option<string>,
    secretaria: Option<string>,
    matricula: string,
    entidade: Option<string>)

  const DECRYPT_ERROR: string := "Erro na descriptografia: "
  const GCM_FAILED: string := "Falha na descriptografia - dados ou senha inválidos"

  /** descriptografarDados on the joined bytes: PBKDF2 key, GCM open, then json_decode. */
  function Decrypt(p: Primitives, data: string, senha: string, decodeJson: string -> Result<SignerFields>)
    : (r: Result<SignerFields>)
    ensures r.Err? ==> StartsWith(r.message, DECRYPT_ERROR)
  {
    var g := SplitGcm(data);
    var chave := p.pbkdf2Sha256(senha, PBKDF2_SALT, PBKDF2_ITERATIONS, PBKDF2_KEY_LENGTH);
    match p.aesGcmDecrypt(g.ciphertext, chave, g.iv, g.tag)
    case None => Err(DECRYPT_ERROR + GCM_FAILED)
    case Some(plain) =>
      match decodeJson(plain)
      case Err(e) => Err(DECRYPT_ERROR + "Erro ao decodificar JSON: " + e)
      case Ok(fields) => Ok(fields)
  }

  /** descriptografarDados */
  method DescriptografarDados(p: Primitives, dados: seq<int>, senha: string,
                              decodeJson: string -> Result<SignerFields>)
    returns (r: Result<SignerFields>)
    ensures r == Decrypt(p, Chr(dados), senha, decodeJson)
  {
    var dadosCriptografados := BytesToString(dados);
    r := Decrypt(p, dadosCriptografados, senha, decodeJson);
  }

  /** Where index() takes the signer from: the plain request fields, or the two encrypted arrays. */
  datatype SignerInput =
    | Plain(fields: SignerFields)
    /** json_decode of 'dados' and 'iv'; None when the value is not an array */
    | Encrypted(dados: Option<seq<int>>, iv: Option<seq<int>>)

  const BAD_ENCRYPTED_FORMAT: string := "Dados criptografados inválidos - formato incorreto"

  /**
   * The signer index() works with: the plain fields as given, or the
   * decrypted JSON, where the IV array's bytes are the password.
   */
  function SignerOf(p: Primitives, input: SignerInput, decodeJson: string -> Result<SignerFields>)
    : (r: Result<SignerFields>)
    ensures input.Plain? ==> r == Ok(input.fields)
    ensures input.Encrypted? && (input.dados.None? || input.iv.None?) ==> r == Err(BAD_ENCRYPTED_FORMAT)
    ensures r.Err? ==> input.Encrypted? && (r.message == BAD_ENCRYPTED_FORMAT || StartsWith(r.message, DECRYPT_ERROR))
  {
    match input
    case Plain(fields) => Ok(fields)
    case Encrypted(dados, iv) =>
      if dados.None? || iv.None? then Err(BAD_ENCRYPTED_FORMAT)
      else Decrypt(p, Chr(dados.value), Chr(iv.value), decodeJson)
  }

  /** The first block of index(). */
  method ReadSigner(p: Primitives, input: SignerInput, decodeJson: string -> Result<SignerFields>)
    returns (r: Result<SignerFields>)
    ensures r == SignerOf(p, input, decodeJson)
  {
    if input.Plain? {
      return Ok(input.fields);
    }
    if input.dados.None? || input.iv.None? {
      return Err(BAD_ENCRYPTED_FORMAT);
    }
    var senha := BytesToString(input.iv.value);
    r := DescriptografarDados(p, input.dados.value, senha, decodeJson);
  }

  // -------------------------------------------------------- device gate

  /** $deviceInfo once set: a known device, or the record the catch leaves after another exception. */
  datatype DeviceInfo =
    | Known(deviceId: string, trustLevel: int, newlyRegistered: bool, indicators: seq<Indicator>)
    | Failed(deviceId: string, errorMessage: string)
  {
    /** $deviceInfo['trust_level']: 0 for the error record */
    function TrustLevel(): int {
      if Known? then trustLevel else 0
    }

    /**
     * $deviceInfo['trust_level'] as a PHP value: the literal 1.0 of a new
     * registration, the decimal(3,2) column's string for a known device, the
     * integer 0 for the error record.
     */
    function TrustLevelValue(): PhpValue {
      match this
      case Known(_, level, newly, _) => if newly then PhpWholeFloat(1) else PhpDecimalString(level)
      case Failed(_, _) => PhpInt(0)
    }

    /** $deviceInfo['newly_registered']: a bool, absent from the error record */
    function NewlyRegisteredValue(): Option<PhpValue> {
      if Known? then Some(PhpBool(newlyRegistered)) else None
    }
  }

  /** The PHP values the device headers are set to. */
  datatype PhpValue =
    | PhpInt(i: int)
    | PhpBool(b: bool)
    | PhpStr(s: string)
    /** a float with no fractional part, such as the literal 1.0 */
    | PhpWholeFloat(w: int)
    /** the string a decimal(3,2) column is read as, holding this many hundredths */
    | PhpDecimalString(hundredths: int)

  function DigitChar(d: int): char
    requires 0 <= d < 10
  {
    ('0' as int + d) as char
  }

  /**
   * A decimal(3,2) column as the database driver hands it over: a string
   * with the integer part, a dot and exactly two decimals.
   */
  function DecimalColumn(hundredths: int): (s: string)
    ensures |s| >= 4 && s[|s| - 3] == '.'
    ensures 0 <= hundredths ==> AllDigits(s[..|s| - 3]) && AllDigits(s[|s| - 2..])
  {
    var n := if hundredths < 0 then -hundredths else hundredths;
    (if hundredths < 0 then "-" else "") + NatToString(n / 100) + "." + [DigitChar(n % 100 / 10), DigitChar(n % 10)]
  }

  /** The (string) conversion a header value undergoes when the response is sent. */
  function StringCast(v: PhpValue): (s: string)
    ensures v.PhpBool? ==> (v.b <==> s == "1") && (!v.b <==> s == "")
    ensures v.PhpInt? || v.PhpWholeFloat? ==> |s| >= 1
  {
    match v
    case PhpInt(i) => IntToString(i)
    case PhpBool(b) => if b then "1" else ""
    case PhpStr(t) => t
    case PhpWholeFloat(w) => IntToString(w)
    case PhpDecimalString(h) => DecimalColumn(h)
  }

  const DEVICE_REJECTED: string := REJECTED_MARK + ": Atividade suspeita detectada no dispositivo. Múltiplos indicadores de segurança foram acionados. Entre em contato com o suporte se você acredita que isso é um erro."
  const AUTO_SIGNATURE: string := "auto_signature"

  /** The registration context the controller stores. */
  function SignatureContext(h: DeviceHeaders, entidade: Option<string>, now: int): RegistrationContext {
    RegistrationContext(h.ipAddress, h.userAgent, now, AUTO_SIGNATURE,
                        [("document_type", Some("pdf_signature")), ("entidade", entidade)])
  }

  /** $deviceInfo after the trust check: new registrations get full trust, low trust leaves it null. */
  function InfoAfterTrust(trust: TrustResult, newId: string): Option<DeviceInfo> {
    match trust
    case NotRegistered => Some(Known(newId, FULL_TRUST, true, []))
    case LowTrust(_) => None
    case Trusted(id, level, _) => Some(Known(id, level, false, []))
  }

  /** `if ($deviceInfo) $deviceInfo['suspicious_indicators'] = ...` for a non-empty list. */
  function WithIndicators(info: Option<DeviceInfo>, activity: seq<Indicator>): Option<DeviceInfo> {
    if info.Some? && info.value.Known? && activity != [] then Some(info.value.(indicators := activity)) else info
  }

  /** 'ERROR_' . time() */
  function ErrorId(now: int): string {
    "ERROR_" + IntToString(now)
  }

  /** Whether a row of the device table already holds this device_id. */
  predicate IdTaken(rows: seq<Device>, id: string) {
    exists j | 0 <= j < |rows| :: rows[j].deviceId == id
  }

  /**
   * What the device block leaves, from the table `rows` as it was before:
   * the new table `rows'` and the result. The activity check reads the table
   * after the trust check's stamp or the registration.
   */
  predicate GateOutcome(r: Result<Option<DeviceInfo>>, rows: seq<Device>, nextRowId: nat, rows': seq<Device>,
                        matricula: string, fingerprint: string, headers: DeviceHeaders, entidade: Option<string>,
                        randomBytes: string, now: int)
    requires |randomBytes| == 16
  {
    var trust := TrustOf(rows, matricula, fingerprint);
    var registrationFails := trust.NotRegistered? && IdTaken(rows, DeviceId(randomBytes));
    var activity := Activity(rows', matricula, headers.ipAddress, headers.userAgent, now);
    && (registrationFails ==>
          rows' == rows && r.Ok? && r.value.Some? && r.value.value.Failed?
          && r.value.value.deviceId == ErrorId(now) && r.value.value.TrustLevel() == 0)
    && (trust.NotRegistered? && !registrationFails ==>
          rows' == rows + [Device(nextRowId, DeviceId(randomBytes), matricula, fingerprint, now, now, FULL_TRUST,
                                  SignatureContext(headers, entidade, now), Active)])
    && (!trust.NotRegistered? ==> rows' == Touched(rows, matricula, fingerprint, now))
    && (!registrationFails && |activity| >= 2 ==> r == Err(DEVICE_REJECTED))
    && (!registrationFails && |activity| < 2 ==>
          r == Ok(WithIndicators(InfoAfterTrust(trust, DeviceId(randomBytes)), activity)))
  }

  /**
   * The trust check and the auto-registration of the device block (lines
   * 150-196). A registration that fails throws, and the block's catch turns
   * that into the error record.
   */
  method TrustAndRegister(reg: DeviceRegistry, matricula: string, fingerprint: string, headers: DeviceHeaders,
                          entidade: Option<string>, randomBytes: string, now: int)
    returns (r: Result<Option<DeviceInfo>>)
    requires reg.Valid() && |randomBytes| == 16
    modifies reg
    ensures reg.Valid()
    ensures var trust := TrustOf(old(reg.rows), matricula, fingerprint);
      var registrationFails := trust.NotRegistered? && IdTaken(old(reg.rows), DeviceId(randomBytes));
      && (registrationFails ==> reg.rows == old(reg.rows) && r.Err?)
      && (trust.NotRegistered? && !registrationFails ==>
            reg.rows == old(reg.rows) + [Device(old(reg.nextRowId), DeviceId(randomBytes), matricula, fingerprint,
                                                now, now, FULL_TRUST, SignatureContext(headers, entidade, now),
                                                Active)])
      && (!trust.NotRegistered? ==> reg.rows == Touched(old(reg.rows), matricula, fingerprint, now))
      && (!registrationFails ==> r == Ok(InfoAfterTrust(trust, DeviceId(randomBytes))))
  {
    var trustResult := reg.VerifyDeviceTrust(matricula, fingerprint, now);
    if trustResult.Trusted? {
      return Ok(Some(Known(trustResult.deviceId, trustResult.trustLevel, false, [])));
    }
    if trustResult.Reason() != "device_not_registered" {
      return Ok(None);
    }
    var context := SignatureContext(headers, entidade, now);
    var deviceId := reg.RegisterDevide(matricula, fingerprint, context, randomBytes, now);
    if deviceId.Err? {
      return Err(deviceId.message);
    }
    return Ok(Some(Known(deviceId.value, FULL_TRUST, true, [])));
  }

  /**
   * The device block of index() (lines 138-242). Two or more indicators
   * reject and the error propagates; a failed registration is caught and
   * leaves the error record with trust 0, skipping the activity check.
   */
  method DeviceGate(reg: DeviceRegistry, p: Primitives, matricula: string, headers: DeviceHeaders,
                    entidade: Option<string>, randomBytes: string, now: int)
    returns (r: Result<Option<DeviceInfo>>, fingerprint: string)
    requires reg.Valid() && |randomBytes| == 16
    modifies reg
    ensures reg.Valid()
    ensures fingerprint == CreateDevice(p, headers)
    ensures GateOutcome(r, old(reg.rows), old(reg.nextRowId), reg.rows, matricula, fingerprint, headers, entidade,
                        randomBytes, now)
  {
    var deviceFingerprint := CreateDevice(p, headers);
    fingerprint := deviceFingerprint;
    var trusted := TrustAndRegister(reg, matricula, deviceFingerprint, headers, entidade, randomBytes, now);
    if trusted.Err? {
      // the catch: not a rejection, so the error record is kept
      return Ok(Some(Failed(ErrorId(now), trusted.message))), fingerprint;
    }
    var deviceInfo := trusted.value;
    var suspiciousActivity := reg.DetectSuspiciousDeviceActivity(matricula, deviceFingerprint,
                                                                  headers.ipAddress, headers.userAgent, now);
    if suspiciousActivity != [] {
      if |suspiciousActivity| >= 2 {
        return Err(DEVICE_REJECTED), fingerprint;
      }
      if deviceInfo.Some? && deviceInfo.value.Known? {
        deviceInfo := Some(deviceInfo.value.(indicators := suspiciousActivity));
      }
    }
    return Ok(deviceInfo), fingerprint;
  }

  /** The condition for enhanceDocumentBinding: a device id, not empty(), and no error record. */
  predicate ShouldEnhance(info: Option<DeviceInfo>) {
    info.Some? && info.value.Known? && info.value.deviceId != "" && info.value.deviceId != "0"
  }

  /**
   * A low-trust device leaves no device record, so it is neither rejected
   * nor enhanced; a registered or trusted one is enhanced, the error record
   * never.
   */
  lemma EnhancementFollowsTrust(trust: TrustResult, newId: string, activity: seq<Indicator>, now: int, msg: string)
    requires |newId| == 36
    requires trust.Trusted? ==> trust.deviceId != "" && trust.deviceId != "0"
    ensures trust.LowTrust? ==> WithIndicators(InfoAfterTrust(trust, newId), activity) == None
    ensures !trust.LowTrust? ==> ShouldEnhance(WithIndicators(InfoAfterTrust(trust, newId), activity))
    ensures !ShouldEnhance(Some(Failed(ErrorId(now), msg)))
  {
  }

  // ----------------------------------------------------------- pipeline

  /** Everything index() draws from the clock, the random sources and the external tools. */
  datatype Environment = Environment(
    now: int,
    zkNonce: string,
    zkTokenBytes: string,
    zkChallengeBytes: string,
    deviceIdBytes: string,
    /** the PDF upload: None when the request has no 'pdf' file */
    pdf: Option<UploadedFile>,
    sizeLabel: string,
    /** the exit status of pdftk */
    pdftkStatus: int,
    /** the RSA key pair openssl_pkey_new makes */
    privateKey: string,
    publicKey: string,
    docIvs: (string, string, string),
    docIdBytes: string,
    uuid: string,
    /** what createDocumentBinding reads from the file and the server */
    pdfFingerprint: string,
    server: DocumentBinding.ServerRequest,
    bindingNonce: string,
    watermark: string,
    integrityToken: string,
    bindingIdBytes: string,
    /** the six rand() draws of randomCode */
    codeDraws: (int, int, int, int, int, int),
    tokenBytes: string,
    dataAssinatura: string)

  predicate WellFormed(env: Environment) {
    && |env.zkNonce| == 32 && |env.zkTokenBytes| == 16 && |env.deviceIdBytes| == 16
    && |env.docIvs.0| == 16 && |env.docIvs.1| == 16 && |env.docIvs.2| == 16 && |env.docIdBytes| == 16
    && |env.bindingNonce| == 32 && |env.bindingIdBytes| == 16 && |env.tokenBytes| == 16
    && 10 <= env.codeDraws.0 <= 99 && 65 <= env.codeDraws.1 <= 90
    && 10 <= env.codeDraws.2 <= 99 && 65 <= env.codeDraws.3 <= 90
    && 10 <= env.codeDraws.4 <= 99 && 65 <= env.codeDraws.5 <= 90
  }

  /** The 200 response's headers; the PDF body itself is not modelled. */
  datatype SignedHeaders = SignedHeaders(
    verificationCode: string,
    idDocumento: string,
    documentBindingId: string,
    validationCode: string,
    deviceId: string,
    /** the values as set; the response sends them through StringCast */
    deviceTrustLevel: PhpValue,
    deviceNewlyRegistered: PhpValue)

  datatype Response = SignedPdf(headers: SignedHeaders) | Json(body: ErrorBody)

  /** How index() ends before the outer catch: the signed PDF, the missing-file answer, or an exception. */
  datatype Outcome = Sealed(headers: SignedHeaders) | NoPdfFile | Thrown(message: string)

  /** The response index() sends for an outcome: the outer catch maps every exception. */
  function Respond(o: Outcome): (resp: Response)
    ensures resp.SignedPdf? <==> o.Sealed?
    ensures resp.Json? ==> resp.body.status == 400 || resp.body.status == 500
    ensures o.NoPdfFile? ==> resp == Json(ErrorBody(400, NO_PDF, None, None))
  {
    match o
    case Sealed(h) => SignedPdf(h)
    case NoPdfFile => Json(ErrorBody(400, NO_PDF, None, None))
    case Thrown(message) => Json(ErrorResponse(message))
  }

  /** Exceptions that open with the marker are answered 400 document_rejected. */
  lemma RejectedOutcomeIs400(message: string)
    requires StartsWith(message, REJECTED_MARK)
    ensures Respond(Thrown(message)) == Json(ErrorBody(400, message, Some(DOCUMENT_REJECTED), Some(SUSPICIOUS_CONTENT)))
  {
    MarkedIs400(message);
  }

  /** How far index() got; a ghost trace of the run. */
  datatype Stage =
    | SignerUnreadable | ZkFailed | DeviceRejected | NoPdf | IntegrityRejected | PdftkFailed | StoreFailed
    | ForgeryRejected | EnhancementRejected | TokenFailed | Signed

  const NO_PDF: string := "No PDF file provided"
  const ERROR_CODE: string := "ERROR"
  const PDFTK_FAILED: string := "Failed to process PDF with pdftk"

  /** The forgery gate of index(): detect, score, and reject at 2. */
  method CheckForgery(pdf: UploadedFile, now: int, strtotime: string -> Option<int>)
    returns (r: Result<()>, suspiciousPatterns: seq<Pattern>)
    ensures suspiciousPatterns == Detected(pdf, now, strtotime)
    ensures r == ForgeryGate(suspiciousPatterns)
  {
    suspiciousPatterns := DetectCopyPastePatterns(pdf, now, strtotime);
    r := Ok(());
    if suspiciousPatterns != [] {
      var suspicionScore := CalculateSuspicionScore(Names(suspiciousPatterns));
      if suspicionScore >= 2 {
        r := Err(ForgeryMessage(suspiciousPatterns));
      }
    }
  }

  /** The document_bindings row createDocumentBinding writes for the signer. */
  function SignerBinding(mac: DocumentBinding.BindingData -> string, signer: SignerFields, env: Environment)
    : DocumentBinding.StoredBinding
  {
    var user := DocumentBinding.UserInfo(Some(signer.cpf), Some(signer.matricula), signer.nome);
    var context := DocumentBinding.CaptureContextualData(env.server,
                     [("entidade", signer.entidade), ("cargo", signer.cargo)]);
    DocumentBinding.StoredBinding(
      DocumentBinding.NewBinding(env.pdfFingerprint, user, context, env.bindingNonce, env.watermark,
                                 env.integrityToken, mac),
      env.server.microtime, env.server.microtime + DocumentBinding.BINDING_LIFETIME * DocumentBinding.MICROS_PER_SECOND)
  }

  /** Whether the drawn binding id is already in document_bindings, so that the insert fails. */
  predicate BindingTaken(rows: map<string, DocumentBinding.StoredBinding>, env: Environment)
    requires WellFormed(env)
  {
    DocumentBinding.BindingId(env.bindingIdBytes) in rows
  }

  /** document_bindings after the binding block: one new row, unless the drawn id is taken. */
  function BoundRows(rows: map<string, DocumentBinding.StoredBinding>, mac: DocumentBinding.BindingData -> string,
                     signer: SignerFields, env: Environment): map<string, DocumentBinding.StoredBinding>
    requires WellFormed(env)
  {
    if BindingTaken(rows, env) then rows
    else rows[DocumentBinding.BindingId(env.bindingIdBytes) := SignerBinding(mac, signer, env)]
  }

  /** The Document-Binding-Id and Validation-Code pair: the new binding's, or the placeholder of the catch. */
  function BindingPair(p: Primitives, rows: map<string, DocumentBinding.StoredBinding>, env: Environment)
    : (string, string)
    requires WellFormed(env)
  {
    var id := DocumentBinding.BindingId(env.bindingIdBytes);
    if BindingTaken(rows, env) then (ErrorId(env.now), ERROR_CODE)
    else (id, DocumentBinding.GenerateValidationCode(p, id))
  }

  /**
   * The device table after the binding block: enhanceDocumentBinding stamps
   * last_seen when it runs, which is only once the binding was created and
   * for a device record that qualifies.
   */
  function EnhancedRows(rows: seq<Device>, bindingRows: map<string, DocumentBinding.StoredBinding>,
                        info: Option<DeviceInfo>, signer: SignerFields, fingerprint: string, env: Environment)
    : seq<Device>
    requires WellFormed(env)
  {
    if !BindingTaken(bindingRows, env) && ShouldEnhance(info) then Touched(rows, signer.matricula, fingerprint, env.now)
    else rows
  }

  /**
   * The binding part of the try block (lines 318-367): a failed binding is
   * swallowed into the placeholder pair, a failed enhancement is always a
   * rejection and propagates.
   */
  method BindingStep(bindings: DocumentBinding.BindingStore, reg: DeviceRegistry, p: Primitives,
                     mac: DocumentBinding.BindingData -> string, signer: SignerFields,
                     deviceInfo: Option<DeviceInfo>, fingerprint: string, headers: DeviceHeaders, env: Environment)
    returns (r: Result<(string, string)>)
    requires reg.Valid() && WellFormed(env)
    modifies bindings, reg
    ensures reg.Valid()
    ensures r.Err? ==> ShouldEnhance(deviceInfo) && StartsWith(r.message, REJECTED_MARK)
    ensures BindingTaken(old(bindings.rows), env) ==> r.Ok?
    ensures r.Ok? ==> r.value == BindingPair(p, old(bindings.rows), env)
    ensures bindings.rows == BoundRows(old(bindings.rows), mac, signer, env)
    ensures reg.rows == EnhancedRows(old(reg.rows), old(bindings.rows), deviceInfo, signer, fingerprint, env)
  {
    var user := DocumentBinding.UserInfo(Some(signer.cpf), Some(signer.matricula), signer.nome);
    var context := DocumentBinding.CaptureContextualData(env.server,
                     [("entidade", signer.entidade), ("cargo", signer.cargo)]);
    var created := bindings.CreateDocumentBinding(p, mac, env.pdfFingerprint, user, context, env.bindingNonce,
                                                  env.watermark, env.integrityToken, env.bindingIdBytes);
    assert bindings.rows == BoundRows(old(bindings.rows), mac, signer, env);
    if created.Err? {
      // caught: not a rejection, so the placeholder binding is kept
      return Ok((ErrorId(env.now), ERROR_CODE));
    }
    if ShouldEnhance(deviceInfo) {
      var enhancement := reg.EnhanceDocumentBinding(signer.matricula, fingerprint, headers.ipAddress,
                                                    headers.userAgent, env.now);
      if enhancement.Err? {
        // every rejection of enhanceDocumentBinding carries the marker, so it propagates
        var trust := TrustOf(old(reg.rows), signer.matricula, fingerprint);
        RejectionsStartMarked([], "", if trust.Trusted? then "" else trust.Reason());
        return Err(enhancement.message);
      }
    }
    return Ok((created.value.bindingId, created.value.validationCode));
  }

  /** What index() has once the signer, the identity token and the device gate are through. */
  datatype Admitted = Admitted(signer: SignerFields, deviceInfo: Option<DeviceInfo>, fingerprint: string)

  /**
   * The device table after the device block (lines 138-242): a known device
   * gets its last_seen stamp, an unknown one a new full-trust row under the
   * drawn id, unless that id is taken and the registration fails.
   */
  function GateRows(rows: seq<Device>, nextRowId: nat, signer: SignerFields, fingerprint: string,
                    headers: DeviceHeaders, env: Environment): seq<Device>
    requires WellFormed(env)
  {
    var id := DeviceId(env.deviceIdBytes);
    if !TrustOf(rows, signer.matricula, fingerprint).NotRegistered? then
      Touched(rows, signer.matricula, fingerprint, env.now)
    else if IdTaken(rows, id) then rows
    else rows + [Device(nextRowId, id, signer.matricula, fingerprint, env.now, env.now, FULL_TRUST,
                        SignatureContext(headers, signer.entidade, env.now), Active)]
  }

  /**
   * $deviceInfo when the device block lets the request through: the error
   * record of a failed registration, or else the record the trust check
   * leaves, carrying the activity indicators, of which there are fewer than
   * two.
   */
  predicate AdmittedDevice(info: Option<DeviceInfo>, rows: seq<Device>, nextRowId: nat, signer: SignerFields,
                           fingerprint: string, headers: DeviceHeaders, env: Environment)
    requires WellFormed(env)
  {
    var trust := TrustOf(rows, signer.matricula, fingerprint);
    if trust.NotRegistered? && IdTaken(rows, DeviceId(env.deviceIdBytes)) then
      info.Some? && info.value.Failed? && info.value.deviceId == ErrorId(env.now)
    else
      var activity := Activity(GateRows(rows, nextRowId, signer, fingerprint, headers, env), signer.matricula,
                               headers.ipAddress, headers.userAgent, env.now);
      |activity| < 2 && info == WithIndicators(InfoAfterTrust(trust, DeviceId(env.deviceIdBytes)), activity)
  }

  /** A device block that lets the request through leaves GateRows and an AdmittedDevice record. */
  lemma GateAdmits(r: Result<Option<DeviceInfo>>, rows: seq<Device>, nextRowId: nat, rows': seq<Device>,
                   signer: SignerFields, fingerprint: string, headers: DeviceHeaders, env: Environment)
    requires WellFormed(env) && r.Ok?
    requires GateOutcome(r, rows, nextRowId, rows', signer.matricula, fingerprint, headers, signer.entidade,
                         env.deviceIdBytes, env.now)
    ensures rows' == GateRows(rows, nextRowId, signer, fingerprint, headers, env)
    ensures AdmittedDevice(r.value, rows, nextRowId, signer, fingerprint, headers, env)
  {
  }

  /**
   * An admitted request: the signer read from the input, the identity row
   * stored under the fresh zk_ token, and the device fingerprint and record
   * of the device block, from the device table as it was before.
   */
  predicate AdmittedBy(a: Admitted, p: Primitives, input: SignerInput, decodeJson: string -> Result<SignerFields>,
                       senha: Option<string>, headers: DeviceHeaders, env: Environment,
                       zkRows: map<string, ZeroKnowledge.ZkRecord>, oldZk: map<string, ZeroKnowledge.ZkRecord>,
                       oldReg: seq<Device>, oldNextRowId: nat)
    requires WellFormed(env)
  {
    && SignerOf(p, input, decodeJson) == Ok(a.signer)
    && ZeroKnowledge.ZkToken(env.zkTokenBytes) !in oldZk
    && zkRows == oldZk[ZeroKnowledge.ZkToken(env.zkTokenBytes) :=
                       ZeroKnowledge.NewZkRecord(p, a.signer.matricula, a.signer.cpf, senha, env.zkNonce, env.now,
                                                 env.now)]
    && a.fingerprint == CreateDevice(p, headers)
    && AdmittedDevice(a.deviceInfo, oldReg, oldNextRowId, a.signer, a.fingerprint, headers, env)
  }

  /** The steps of index() before the PDF is looked at (lines 74-242). */
  method Admit(zk: ZeroKnowledge.ZkStore, reg: DeviceRegistry, p: Primitives,
               decodeJson: string -> Result<SignerFields>, input: SignerInput, senha: Option<string>,
               headers: DeviceHeaders, env: Environment)
    returns (r: Result<Admitted>, ghost stage: Stage)
    requires reg.Valid() && WellFormed(env)
    modifies zk, reg
    ensures reg.Valid()
    ensures r.Err? <==> (stage.SignerUnreadable? || stage.ZkFailed? || stage.DeviceRejected?)
    ensures (stage.SignerUnreadable? || stage.ZkFailed?) ==> reg.rows == old(reg.rows)
    ensures stage == SignerUnreadable ==> zk.rows == old(zk.rows)
    ensures stage == DeviceRejected ==> r == Err(DEVICE_REJECTED) && StartsWith(r.message, REJECTED_MARK)
    ensures r.Ok? ==> stage == Signed
    ensures r.Ok? ==>
              && AdmittedBy(r.value, p, input, decodeJson, senha, headers, env, zk.rows, old(zk.rows), old(reg.rows),
                            old(reg.nextRowId))
              && reg.rows == GateRows(old(reg.rows), old(reg.nextRowId), r.value.signer, r.value.fingerprint, headers,
                                      env)
  {
    var signerRead := ReadSigner(p, input, decodeJson);
    if signerRead.Err? {
      return Err(signerRead.message), SignerUnreadable;
    }
    var signer := signerRead.value;
    var zkAuth := zk.CreateUserProof(p, signer.matricula, signer.cpf, senha, env.zkNonce, env.zkTokenBytes,
                                     env.zkChallengeBytes, env.now, env.now);
    if zkAuth.Err? {
      return Err(zkAuth.message), ZkFailed;
    }
    var gate, fingerprint := DeviceGate(reg, p, signer.matricula, headers, signer.entidade, env.deviceIdBytes,
                                        env.now);
    if gate.Err? {
      RejectionsStartMarked([], "", "");
      return Err(gate.message), DeviceRejected;
    }
    GateAdmits(gate, old(reg.rows), old(reg.nextRowId), reg.rows, signer, fingerprint, headers, env);
    return Ok(Admitted(signer, gate.value, fingerprint)), Signed;
  }

  /**
   * The 200 response's headers. The device headers read $deviceInfo through
   * `?? 'not-available'`, `?? '0'` and `?? 'false'`, and the response sends
   * each value as text.
   */
  function ResponseHeaders(code: string, uuid: string, binding: (string, string), device: Option<DeviceInfo>)
    : SignedHeaders
  {
    SignedHeaders(code, uuid, binding.0, binding.1,
                  if device.Some? then device.value.deviceId else "not-available",
                  if device.Some? then device.value.TrustLevelValue() else PhpStr("0"),
                  if device.Some? && device.value.NewlyRegisteredValue().Some? then
                    device.value.NewlyRegisteredValue().value
                  else PhpStr("false"))
  }

  /** The text the client reads in Device-Id, Device-Trust-Level and Device-Newly-Registered. */
  function DeviceHeaderTexts(h: SignedHeaders): (string, string, string) {
    (h.deviceId, StringCast(h.deviceTrustLevel), StringCast(h.deviceNewlyRegistered))
  }

  /**
   * What the client reads in Device-Id, Device-Trust-Level and
   * Device-Newly-Registered for each outcome of the device block: a new
   * registration sends "1" and "1", a trusted device its stored decimal (such
   * as "0.80") and "", a low-trust device the fallbacks, and the error record
   * of a failed registration "0" and the literal "false".
   */
  lemma DeviceHeaderTextsByOutcome(trust: TrustResult, newId: string, activity: seq<Indicator>, now: int,
                                   msg: string, code: string, uuid: string, binding: (string, string))
    ensures var h := ResponseHeaders(code, uuid, binding, WithIndicators(InfoAfterTrust(trust, newId), activity));
      && (trust.NotRegistered? ==> DeviceHeaderTexts(h) == (newId, "1", "1"))
      && (trust.Trusted? ==> DeviceHeaderTexts(h) == (trust.deviceId, DecimalColumn(trust.trustLevel), ""))
      && (trust.Trusted? && trust.trustLevel == 80 ==> DeviceHeaderTexts(h).1 == "0.80")
      && (trust.Trusted? && trust.trustLevel == FULL_TRUST ==> DeviceHeaderTexts(h).1 == "1.00")
      && (trust.LowTrust? ==> DeviceHeaderTexts(h) == ("not-available", "0", "false"))
    ensures DeviceHeaderTexts(ResponseHeaders(code, uuid, binding, Some(Failed(ErrorId(now), msg))))
            == (ErrorId(now), "0", "false")
  {
    HeaderDigits();
  }

  /** The digit strings the header lemma needs, worked out once. */
  lemma HeaderDigits()
    ensures NatToString(0) == "0" && NatToString(1) == "1"
    ensures DecimalColumn(80) == "0.80" && DecimalColumn(FULL_TRUST) == "1.00"
  {
    assert NatToString(0) == "0" && NatToString(1) == "1";
    assert DecimalColumn(80) == "0.80";
  }

  /** The QR payload index() hands to secureData. */
  function QrPayloadFor(p: Primitives, a: Admitted, documentId: string, env: Environment): Privacy.QrPayload {
    Privacy.QrPayload(a.signer.nome, a.signer.entidade, Some(p.base64Encode(env.publicKey)), Some(documentId),
                      env.uuid, env.dataAssinatura)
  }

  /** The secure_documents row openSSL() writes for the admitted signer. */
  function SignedRecord(p: Primitives, a: Admitted, pdf: UploadedFile, env: Environment): DocumentSecurity.SecureRecord
    requires WellFormed(env)
  {
    DocumentSecurity.NewRecord(p, pdf.content, DocumentSecurity.Identity(a.signer.matricula, a.signer.cpf),
                               p.rsaSign(pdf.content, env.privateKey), env.publicKey, env.docIvs.0, env.docIvs.1,
                               env.docIvs.2, env.now)
  }

  /**
   * The 200 response's headers for this run: the drawn verification code,
   * the binding pair (the new binding's, or the placeholder when the drawn id
   * was taken in `bindingRows`) and the admitted device record.
   */
  predicate SealedHeaders(h: SignedHeaders, p: Primitives, a: Admitted, env: Environment,
                          bindingRows: map<string, DocumentBinding.StoredBinding>)
    requires WellFormed(env)
  {
    && h == ResponseHeaders(SignatureServices.RandomCode(env.codeDraws.0, env.codeDraws.1, env.codeDraws.2,
                                                         env.codeDraws.3, env.codeDraws.4, env.codeDraws.5),
                            env.uuid, BindingPair(p, bindingRows, env), a.deviceInfo)
  }

  /** The binding block's writes: the signer's binding row, and the enhancement's last_seen stamp. */
  predicate BindingState(bindingRows: map<string, DocumentBinding.StoredBinding>, regRows: seq<Device>,
                         mac: DocumentBinding.BindingData -> string, a: Admitted, env: Environment,
                         oldBindings: map<string, DocumentBinding.StoredBinding>, oldReg: seq<Device>)
    requires WellFormed(env)
  {
    && bindingRows == BoundRows(oldBindings, mac, a.signer, env)
    && regRows == EnhancedRows(oldReg, oldBindings, a.deviceInfo, a.signer, a.fingerprint, env)
  }

  /**
   * The steps after the forgery gate (lines 318-470): binding and
   * enhancement, the verification code and the QR token.
   */
  method BindAndIssue(bindings: DocumentBinding.BindingStore, reg: DeviceRegistry, tokens: Privacy.SecureTokenStore,
                      p: Primitives, mac: DocumentBinding.BindingData -> string, a: Admitted, headers: DeviceHeaders,
                      documentId: string, env: Environment)
    returns (r: Result<SignedHeaders>, ghost stage: Stage)
    requires reg.Valid() && WellFormed(env)
    modifies bindings, reg, tokens
    ensures reg.Valid()
    ensures stage.EnhancementRejected? || stage.TokenFailed? || stage.Signed?
    ensures r.Ok? <==> stage.Signed?
    ensures stage.EnhancementRejected? ==> r.Err? && StartsWith(r.message, REJECTED_MARK)
    ensures BindingState(bindings.rows, reg.rows, mac, a, env, old(bindings.rows), old(reg.rows))
    ensures !stage.Signed? ==> tokens.rows == old(tokens.rows)
    ensures stage.Signed? ==>
              && SealedHeaders(r.value, p, a, env, old(bindings.rows))
              && tokens.Resolve(Privacy.SecureToken(env.tokenBytes)) == Ok(QrPayloadFor(p, a, documentId, env))
  {
    var binding := BindingStep(bindings, reg, p, mac, a.signer, a.deviceInfo, a.fingerprint, headers, env);
    if binding.Err? {
      return Err(binding.message), EnhancementRejected;
    }
    var codigoVerificao := SignatureServices.RandomCode(env.codeDraws.0, env.codeDraws.1, env.codeDraws.2,
                                                        env.codeDraws.3, env.codeDraws.4, env.codeDraws.5);
    var token := tokens.SecureData(p, QrPayloadFor(p, a, documentId, env), env.tokenBytes, env.now);
    if token.Err? {
      return Err(token.message), TokenFailed;
    }
    return Ok(ResponseHeaders(codigoVerificao, env.uuid, binding.value, a.deviceInfo)), Signed;
  }

  /**
   * The steps after the document is stored (lines 277-470): the forgery
   * gate, then binding and token issue.
   */
  method Seal(bindings: DocumentBinding.BindingStore, reg: DeviceRegistry, tokens: Privacy.SecureTokenStore,
              p: Primitives, mac: DocumentBinding.BindingData -> string, strtotime: string -> Option<int>,
              a: Admitted, headers: DeviceHeaders, pdf: UploadedFile, documentId: string, env: Environment)
    returns (r: Result<SignedHeaders>, ghost stage: Stage)
    requires reg.Valid() && WellFormed(env)
    modifies bindings, reg, tokens
    ensures reg.Valid()
    ensures stage.ForgeryRejected? || stage.EnhancementRejected? || stage.TokenFailed? || stage.Signed?
    ensures r.Ok? <==> stage.Signed?
    ensures stage.ForgeryRejected? <==> ForgeryGate(Detected(pdf, env.now, strtotime)).Err?
    ensures stage.ForgeryRejected? ==>
              r == Err(ForgeryMessage(Detected(pdf, env.now, strtotime)))
              && bindings.rows == old(bindings.rows) && tokens.rows == old(tokens.rows) && reg.rows == old(reg.rows)
    ensures stage.ForgeryRejected? || stage.EnhancementRejected? ==> r.Err? && StartsWith(r.message, REJECTED_MARK)
    ensures !stage.ForgeryRejected? ==> BindingState(bindings.rows, reg.rows, mac, a, env, old(bindings.rows), old(reg.rows))
    ensures !stage.Signed? ==> tokens.rows == old(tokens.rows)
    ensures stage.Signed? ==>
              && SealedHeaders(r.value, p, a, env, old(bindings.rows))
              && tokens.Resolve(Privacy.SecureToken(env.tokenBytes)) == Ok(QrPayloadFor(p, a, documentId, env))
  {
    var forgery, patterns := CheckForgery(pdf, env.now, strtotime);
    if forgery.Err? {
      RejectionsStartMarked(patterns, "", "");
      return Err(forgery.message), ForgeryRejected;
    }
    r, stage := BindAndIssue(bindings, reg, tokens, p, mac, a, headers, documentId, env);
  }

  /** The doc_ row of this run is new and is the only change to secure_documents. */
  predicate DocStored(docRows: map<string, DocumentSecurity.SecureRecord>, p: Primitives, a: Admitted,
                      pdf: UploadedFile, env: Environment, oldDocs: map<string, DocumentSecurity.SecureRecord>)
    requires WellFormed(env)
  {
    && DocumentSecurity.DocumentId(env.docIdBytes) !in oldDocs
    && docRows == oldDocs[DocumentSecurity.DocumentId(env.docIdBytes) := SignedRecord(p, a, pdf, env)]
  }

  /**
   * What a signed run leaves behind: the doc_ row written for the signer,
   * the binding row and the enhancement's stamp, the response headers built
   * from the binding pair and the admitted device record, and the QR token
   * resolving to the payload that names the stored document.
   */
  predicate SignedState(docRows: map<string, DocumentSecurity.SecureRecord>, tokenRows: map<string, Privacy.TokenRow>,
                        bindingRows: map<string, DocumentBinding.StoredBinding>, regRows: seq<Device>, p: Primitives,
                        mac: DocumentBinding.BindingData -> string, a: Admitted, pdf: UploadedFile, h: SignedHeaders,
                        env: Environment, oldDocs: map<string, DocumentSecurity.SecureRecord>,
                        oldBindings: map<string, DocumentBinding.StoredBinding>, oldReg: seq<Device>)
    requires WellFormed(env)
  {
    && DocStored(docRows, p, a, pdf, env, oldDocs)
    && BindingState(bindingRows, regRows, mac, a, env, oldBindings, oldReg)
    && SealedHeaders(h, p, a, env, oldBindings)
    && Privacy.SecureToken(env.tokenBytes) in tokenRows
    && tokenRows[Privacy.SecureToken(env.tokenBytes)].encryptedData
       == QrPayloadFor(p, a, DocumentSecurity.DocumentId(env.docIdBytes), env)
  }

  /**
   * What a run that stopped short of signing leaves behind, by the stage it
   * stopped at: a PDF check or the store failing changes nothing; a forgery
   * rejection leaves only the doc_ row; an enhancement rejection or a failed
   * token insert also leaves the binding row and the enhancement's stamp.
   * No token is written in any of them.
   */
  predicate Unsealed(stage: Stage, docRows: map<string, DocumentSecurity.SecureRecord>,
                     tokenRows: map<string, Privacy.TokenRow>,
                     bindingRows: map<string, DocumentBinding.StoredBinding>, regRows: seq<Device>, p: Primitives,
                     mac: DocumentBinding.BindingData -> string, a: Admitted, pdf: UploadedFile, env: Environment,
                     oldDocs: map<string, DocumentSecurity.SecureRecord>, oldTokens: map<string, Privacy.TokenRow>,
                     oldBindings: map<string, DocumentBinding.StoredBinding>, oldReg: seq<Device>)
    requires WellFormed(env)
  {
    match stage
    case IntegrityRejected | PdftkFailed | StoreFailed =>
      docRows == oldDocs && tokenRows == oldTokens && bindingRows == oldBindings && regRows == oldReg
    case ForgeryRejected =>
      DocStored(docRows, p, a, pdf, env, oldDocs) && tokenRows == oldTokens && bindingRows == oldBindings
      && regRows == oldReg
    case EnhancementRejected | TokenFailed =>
      DocStored(docRows, p, a, pdf, env, oldDocs) && tokenRows == oldTokens
      && BindingState(bindingRows, regRows, mac, a, env, oldBindings, oldReg)
    case _ => true
  }

  /**
   * The steps of index() from openSSL() on (lines 268-470): the document is
   * signed and stored before the forgery gate runs, so a forged upload still
   * leaves its secure_documents row behind.
   */
  method SignAndSeal(docs: DocumentSecurity.SecureDocumentStore, bindings: DocumentBinding.BindingStore,
                     reg: DeviceRegistry, tokens: Privacy.SecureTokenStore, p: Primitives,
                     mac: DocumentBinding.BindingData -> string, strtotime: string -> Option<int>,
                     a: Admitted, headers: DeviceHeaders, pdf: UploadedFile, env: Environment)
    returns (r: Result<SignedHeaders>, ghost stage: Stage)
    requires reg.Valid() && WellFormed(env)
    modifies docs, bindings, reg, tokens
    ensures reg.Valid()
    ensures (stage.StoreFailed? || stage.ForgeryRejected? || stage.EnhancementRejected? || stage.TokenFailed?
             || stage.Signed?)
    ensures r.Ok? <==> stage == Signed
    ensures Unsealed(stage, docs.rows, tokens.rows, bindings.rows, reg.rows, p, mac, a, pdf, env,
                     old(docs.rows), old(tokens.rows), old(bindings.rows), old(reg.rows))
    ensures stage == ForgeryRejected ==> r == Err(ForgeryMessage(Detected(pdf, env.now, strtotime)))
    ensures (stage.ForgeryRejected? || stage.EnhancementRejected?) ==> r.Err? && StartsWith(r.message, REJECTED_MARK)
    ensures stage == Signed ==>
              SignedState(docs.rows, tokens.rows, bindings.rows, reg.rows, p, mac, a, pdf, r.value, env, old(docs.rows),
                          old(bindings.rows), old(reg.rows))
  {
    // openSSL(): sign with the fresh key pair and store the document
    var assinatura := p.rsaSign(pdf.content, env.privateKey);
    var documentId := docs.SecureDocument(p, pdf.content, DocumentSecurity.Identity(a.signer.matricula, a.signer.cpf),
                                          assinatura, env.publicKey, env.docIvs.0, env.docIvs.1, env.docIvs.2,
                                          env.docIdBytes, env.now);
    if documentId.Err? {
      return Err(documentId.message), StoreFailed;
    }
    r, stage := Seal(bindings, reg, tokens, p, mac, strtotime, a, headers, pdf, documentId.value, env);
  }

  /** validatePdfIntegrity, then the pdftk run (lines 250-266); filesize() of the upload is its content's length. */
  method CheckPdf(pdf: UploadedFile, env: Environment) returns (r: Result<()>, ghost stage: Stage)
    ensures r.Ok? <==> PdfAcceptable(pdf.content, |pdf.content|) && env.pdftkStatus == 0
    ensures r.Err? ==> (stage.IntegrityRejected? || stage.PdftkFailed?)
    ensures stage == IntegrityRejected ==>
              !PdfAcceptable(pdf.content, |pdf.content|)
              && (r.message == NOT_A_PDF || StartsWith(r.message, REJECTED_MARK))
    ensures stage == PdftkFailed ==>
              PdfAcceptable(pdf.content, |pdf.content|) && r == Err(PDFTK_FAILED + IntToString(env.pdftkStatus))
  {
    stage := Signed;
    var integrity, notes := ValidatePdfIntegrity(pdf.content, |pdf.content|, env.now - pdf.mtime, env.sizeLabel);
    if integrity.Err? {
      RejectionsStartMarked([], env.sizeLabel, "");
      return integrity, IntegrityRejected;
    }
    if env.pdftkStatus != 0 {
      return Err(PDFTK_FAILED + IntToString(env.pdftkStatus)), PdftkFailed;
    }
    return Ok(()), stage;
  }

  /** The uploaded PDF's way through index(): the PDF checks, then signing and sealing. */
  method ProcessPdf(docs: DocumentSecurity.SecureDocumentStore, bindings: DocumentBinding.BindingStore,
                    reg: DeviceRegistry, tokens: Privacy.SecureTokenStore, p: Primitives,
                    mac: DocumentBinding.BindingData -> string, strtotime: string -> Option<int>,
                    a: Admitted, headers: DeviceHeaders, pdf: UploadedFile, env: Environment)
    returns (out: Outcome, ghost stage: Stage)
    requires reg.Valid() && WellFormed(env)
    modifies docs, bindings, reg, tokens
    ensures reg.Valid()
    ensures (stage.IntegrityRejected? || stage.PdftkFailed? || stage.StoreFailed? || stage.ForgeryRejected?
             || stage.EnhancementRejected? || stage.TokenFailed? || stage.Signed?)
    ensures out.Sealed? <==> stage == Signed
    ensures !out.NoPdfFile?
    ensures (stage.ForgeryRejected? || stage.EnhancementRejected?) ==>
              out.Thrown? && StartsWith(out.message, REJECTED_MARK)
    ensures stage == IntegrityRejected ==>
              out.Thrown? && (out.message == NOT_A_PDF || StartsWith(out.message, REJECTED_MARK))
    ensures Unsealed(stage, docs.rows, tokens.rows, bindings.rows, reg.rows, p, mac, a, pdf, env,
                     old(docs.rows), old(tokens.rows), old(bindings.rows), old(reg.rows))
    ensures stage == Signed ==>
              out.Sealed? && SignedState(docs.rows, tokens.rows, bindings.rows, reg.rows, p, mac, a, pdf, out.headers, env, old(docs.rows),
                                         old(bindings.rows), old(reg.rows))
  {
    var checked, checkStage := CheckPdf(pdf, env);
    if checked.Err? {
      return Thrown(checked.message), checkStage;
    }
    var sealed, sealStage := SignAndSeal(docs, bindings, reg, tokens, p, mac, strtotime, a, headers, pdf, env);
    if sealed.Err? {
      return Thrown(sealed.message), sealStage;
    }
    return Sealed(sealed.value), Signed;
  }

  /** index() once the signer is admitted: the missing-file answer, or the PDF's way through. */
  method Process(docs: DocumentSecurity.SecureDocumentStore, bindings: DocumentBinding.BindingStore,
                 reg: DeviceRegistry, tokens: Privacy.SecureTokenStore, p: Primitives,
                 mac: DocumentBinding.BindingData -> string, strtotime: string -> Option<int>,
                 a: Admitted, headers: DeviceHeaders, env: Environment)
    returns (out: Outcome, ghost stage: Stage)
    requires reg.Valid() && WellFormed(env)
    modifies docs, bindings, reg, tokens
    ensures reg.Valid()
    ensures (stage.NoPdf? || stage.IntegrityRejected? || stage.PdftkFailed? || stage.StoreFailed?
             || stage.ForgeryRejected? || stage.EnhancementRejected? || stage.TokenFailed? || stage.Signed?)
    ensures out.Sealed? <==> stage == Signed
    ensures out.NoPdfFile? <==> stage == NoPdf
    ensures out.NoPdfFile? <==> env.pdf.None?
    ensures (stage.ForgeryRejected? || stage.EnhancementRejected?) ==>
              out.Thrown? && StartsWith(out.message, REJECTED_MARK)
    ensures stage == IntegrityRejected ==>
              out.Thrown? && (out.message == NOT_A_PDF || StartsWith(out.message, REJECTED_MARK))
    ensures stage.NoPdf? ==>
              docs.rows == old(docs.rows) && bindings.rows == old(bindings.rows) && tokens.rows == old(tokens.rows)
              && reg.rows == old(reg.rows)
    ensures env.pdf.Some? ==>
              Unsealed(stage, docs.rows, tokens.rows, bindings.rows, reg.rows, p, mac, a, env.pdf.value, env,
                       old(docs.rows), old(tokens.rows), old(bindings.rows), old(reg.rows))
    ensures stage == Signed ==>
              env.pdf.Some? && out.Sealed?
              && SignedState(docs.rows, tokens.rows, bindings.rows, reg.rows, p, mac, a, env.pdf.value, out.headers, env, old(docs.rows),
                             old(bindings.rows), old(reg.rows))
  {
    if env.pdf.None? {
      return NoPdfFile, NoPdf;
    }
    out, stage := ProcessPdf(docs, bindings, reg, tokens, p, mac, strtotime, a, headers, env.pdf.value, env);
  }

  /**
   * index(), in the order of the code, up to the outer catch (see Respond):
   * the identity token and the device registration happen even when the
   * request turns out to carry no PDF.
   */
  method Index(zk: ZeroKnowledge.ZkStore, reg: DeviceRegistry, docs: DocumentSecurity.SecureDocumentStore,
               bindings: DocumentBinding.BindingStore, tokens: Privacy.SecureTokenStore,
               p: Primitives, mac: DocumentBinding.BindingData -> string, strtotime: string -> Option<int>,
               decodeJson: string -> Result<SignerFields>,
               input: SignerInput, senha: Option<string>, headers: DeviceHeaders, env: Environment)
    returns (out: Outcome, ghost stage: Stage, ghost admitted: Admitted, ghost admittedRows: seq<Device>)
    requires reg.Valid() && WellFormed(env)
    modifies zk, reg, docs, bindings, tokens
    ensures reg.Valid()
    ensures out.Sealed? <==> stage == Signed
    ensures out.NoPdfFile? <==> stage == NoPdf
    ensures (stage.DeviceRejected? || stage.ForgeryRejected? || stage.EnhancementRejected?) ==>
              out.Thrown? && StartsWith(out.message, REJECTED_MARK)
    ensures stage == IntegrityRejected ==>
              out.Thrown? && (out.message == NOT_A_PDF || StartsWith(out.message, REJECTED_MARK))
    ensures stage.SignerUnreadable? || stage.ZkFailed? || stage.DeviceRejected? ==>
              docs.rows == old(docs.rows) && bindings.rows == old(bindings.rows) && tokens.rows == old(tokens.rows)
    // AdmittedBy, Unsealed and SignedState are each compared with true so that
    // each is proved as one goal rather than one goal per conjunct.
    ensures !stage.SignerUnreadable? && !stage.ZkFailed? && !stage.DeviceRejected? ==>
              AdmittedBy(admitted, p, input, decodeJson, senha, headers, env, zk.rows, old(zk.rows), old(reg.rows),
                         old(reg.nextRowId)) == true
    ensures !stage.SignerUnreadable? && !stage.ZkFailed? && !stage.DeviceRejected? ==>
              admittedRows == GateRows(old(reg.rows), old(reg.nextRowId), admitted.signer, admitted.fingerprint,
                                       headers, env)
    ensures stage.NoPdf? ==>
              docs.rows == old(docs.rows) && bindings.rows == old(bindings.rows) && tokens.rows == old(tokens.rows)
              && reg.rows == admittedRows
    ensures env.pdf.Some? ==>
              Unsealed(stage, docs.rows, tokens.rows, bindings.rows, reg.rows, p, mac, admitted, env.pdf.value, env,
                       old(docs.rows), old(tokens.rows), old(bindings.rows), admittedRows) == true
    ensures stage == Signed ==>
              && env.pdf.Some? && out.Sealed?
              && SignedState(docs.rows, tokens.rows, bindings.rows, reg.rows, p, mac, admitted, env.pdf.value, out.headers, env,
                             old(docs.rows), old(bindings.rows), admittedRows) == true
  {
    var admittedRun, admitStage := Admit(zk, reg, p, decodeJson, input, senha, headers, env);
    if admittedRun.Err? {
      return Thrown(admittedRun.message), admitStage, Admitted(SignerFields(None, "", None, None, "", None), None, ""),
             reg.rows;
    }
    admitted := admittedRun.value;
    admittedRows := reg.rows;
    out, stage := Process(docs, bindings, reg, tokens, p, mac, strtotime, admittedRun.value, headers, env);
  }
}
