# iSignature core, modelled in Dafny

iSignature is a Laravel API that stamps a PDF with a QR code and a printed
verification code, signs it with a fresh RSA key, and keeps the signed
document in an encrypted store. Before it signs, it tries to refuse forged
uploads: screenshots, pictures printed to PDF, or files downloaded a moment
ago. It also binds the document to the signer's device. This project models
the decision rules and the record stores behind that pipeline:

- the forgery heuristics of `detectCopyPastePatterns` and the weighted score
  that turns their tags into a rejection (`CopyPasteDetection`,
  `SignatureController`);
- the PDF pre-check `validatePdfIntegrity`, the AES-GCM framing of
  encrypted signer data, and the mapping of exceptions to HTTP 400 or 500
  (`SignatureController`);
- the document binding: the context suspicion level, the cryptographic
  binding, the ordered validation chain, the validation code and the
  binding table (`DocumentBinding`);
- the device registry of `DeviceBindingService` as a class over its table
  rows, and the two gates that use it: the middleware and the controller's
  device block (`DeviceBinding`, `DeviceMiddleware`, `SignatureController`);
- the `secure_documents` store with its user-hash gate and IV-prefixed CBC
  framing (`DocumentSecurity`);
- the zero-knowledge token table and the Merkle root loop (`ZeroKnowledge`);
- the `acl_secure_token` table behind the QR code (`Privacy`);
- the stamp layout, verification code, CPF/CNPJ and phone masks and accent
  stripping (`SignatureServices`);
- the `index` pipeline itself, in the order the code runs it
  (`SignatureController.Index`).

Hashes, ciphers, RSA, PBKDF2, base64 and calendar arithmetic are inputs: a
`Platform.Primitives` value holds them as functions. Lemmas that need an
algebraic fact about them ask for it by name: `CbcRoundTrip`,
`Base64RoundTrip`, `DigestLength`, `YearsAdvance`, or collision-freeness of
SHA-256 on one named pair. The binding HMAC is a `mac` function. Random
bytes, the clock, file metadata, the parsed CreationDate (`strtotime`) and
the JSON decoder are parameters. PHP strings are Dafny strings with one
character per byte. The one exception is `removeCaracteresEspeciais`, where
an accented letter is one character. Database tables are `map`s or `seq`s
held by classes. An insert whose unique key already exists fails and leaves
the table as it was. Laravel's `Crypt` is modelled as transparent: a row
holds the value it would encrypt.

Where the code and its stated design differ, the model follows the code:

- "Arquivo não é um PDF válido" lacks the `DOCUMENTO REJEITADO` marker, so
  a non-PDF upload is answered with HTTP 500, not 400
  (`SignatureController.NotAPdfIs500`).
- `index` signs the PDF and stores it in `secure_documents` before the
  forgery gate runs, so a rejected forgery leaves a stored document behind
  (`SignatureController.Index`).
- `validateDocumentIntegrity` rebuilds the HMAC from the current request's
  context, so any change of context fails the cryptographic check (see
  Findings).

## Model

| member | source | states |
|---|---|---|
| CopyPasteDetection.DetectCopyPastePatterns | app/Services/DocumentoBindingService.php:391-507 | the loop-and-append method returns exactly the tag list of the eleven checks, in check order |
| CopyPasteDetection.AppendOnFirstHit | app/Services/DocumentoBindingService.php:417-422 | the `foreach`/`break` scan over a needle list appends its tag once iff some needle occurs case-insensitively |
| CopyPasteDetection.ImageMarkerChecks | app/Services/DocumentoBindingService.php:425-437 | the image marker block appends image_only_pdf and then image_heavy_pdf exactly when their predicates hold |
| CopyPasteDetection.ScreenResolutionCheck | app/Services/DocumentoBindingService.php:440-458 | the resolution loop appends screen_resolution_match once iff the first /Width and /Height are near one listed pair |
| CopyPasteDetection.BitDepthCheck | app/Services/DocumentoBindingService.php:461-466 | appends low_quality_image iff the first /BitsPerComponent value is at most 8 |
| CopyPasteDetection.CreationDateCheck | app/Services/DocumentoBindingService.php:469-478 | appends recent_creation_timestamp iff a 14-digit CreationDate parses within 300 s of now |
| CopyPasteDetection.DownloadCheck | app/Services/DocumentoBindingService.php:494-499 | appends download_indicators iff "download" or "temp" occurs in the content or the file name |
| CopyPasteDetection.ScanCheck | app/Services/DocumentoBindingService.php:502-505 | appends scanned_document_characteristics iff /ColorSpace /DeviceRGB occurs and /Font does not |
| CopyPasteDetection.KeyNumberAt | app/Services/DocumentoBindingService.php:440-441 | a `/Key\s+(\d+)` match at one position yields a non-empty run of digits after that key |
| CopyPasteDetection.FirstKeyNumber | app/Services/DocumentoBindingService.php:440-444 | the first such match anywhere, when there is one, is a non-empty run of digits |
| CopyPasteDetection.CreationDateAt | app/Services/DocumentoBindingService.php:469 | a `/CreationDate\s*(D:` match at one position yields exactly 14 digits |
| CopyPasteDetection.FirstCreationDate | app/Services/DocumentoBindingService.php:469-473 | the first CreationDate match, when there is one, is exactly 14 digits |
| CopyPasteDetection.CreationTime | app/Services/DocumentoBindingService.php:470-473 | strtotime of "YYYYMMDD HH:MM:SS" built from the 14 digits, with a failed parse counting as 0; RecentCreationIff states the check built on it |
| Text.IntVal | app/Services/DocumentoBindingService.php:443-444 | intval of a digit string: its decimal value, saturated at PHP_INT_MAX |
| CopyPasteDetection.CountZeroIffAbsent | app/Services/DocumentoBindingService.php:427-430 | `substr_count` is zero iff the marker does not occur, so `$imageCount > 0` means "/Image occurs" |
| CopyPasteDetection.Flags | app/Services/DocumentoBindingService.php:395-505 | one decision per check, eleven in all |
| CopyPasteDetection.DetectedSteps | app/Services/DocumentoBindingService.php:395-505 | the tag list is the eleven conditional appends, in source order, each with its own condition |
| CopyPasteDetection.DetectedShape | app/Services/DocumentoBindingService.php:391-507 | every tag is one of the eleven literals, there are at most eleven, and they come in check order |
| CopyPasteDetection.DetectedDistinct | app/Services/DocumentoBindingService.php:391-507 | no tag appears twice |
| CopyPasteDetection.TagFiresIff | app/Services/DocumentoBindingService.php:395-505 | the i-th tag is in the result iff the i-th check's condition holds |
| CopyPasteDetection.FileTooRecentIff | app/Services/DocumentoBindingService.php:396-399 | file_too_recent fires iff the file is less than 30 s old |
| CopyPasteDetection.ImageOnlyIff | app/Services/DocumentoBindingService.php:425-432 | image_only_pdf fires iff /XObject and /Image occur and /Text does not |
| CopyPasteDetection.ImageOnlyImpliesHeavy | app/Services/DocumentoBindingService.php:425-437 | image_only_pdf always comes with image_heavy_pdf, and image_heavy_pdf needs both /XObject and /Image |
| CopyPasteDetection.LowQualityIff | app/Services/DocumentoBindingService.php:461-466 | low_quality_image fires iff the first /BitsPerComponent exists and its value is at most 8 |
| CopyPasteDetection.RecentCreationIff | app/Services/DocumentoBindingService.php:469-477 | recent_creation_timestamp fires iff the first CreationDate exists and lies strictly within 300 s of now |
| CopyPasteDetection.ScreenResolutionIff | app/Services/DocumentoBindingService.php:440-458 | screen_resolution_match fires iff the first /Width and first /Height are each within 49 of one of the eight listed pairs |
| CopyPasteDetection.NameChecksCase | app/Services/DocumentoBindingService.php:402-405 | the file-name keyword check ignores case; the download/temp check is case-sensitive over content and name |
| CopyPasteDetection.CaseExample | app/Services/DocumentoBindingService.php:494-499 | "SCREEN.pdf" is a suspicious name, while "TEMP.pdf" raises no download indicator |
| CopyPasteDetection.AllTagsDistinct | app/Services/DocumentoBindingService.php:398-504 | the eleven tag literals are pairwise different |
| CopyPasteDetection.TagsAt | app/Services/DocumentoBindingService.php:398-504 | the tag table lists the eleven tags in the order the checks append them |
| SignatureController.Weight | app/Http/Controllers/SignatureController.php:711-735 | every tag weighs 1, 2 or 3; a tag outside the table weighs 1 |
| SignatureController.Score | app/Http/Controllers/SignatureController.php:711-735 | the weighted sum of the tags; CalculateSuspicionScore computes it and ScoreBounds bounds it |
| SignatureController.WeightOfPattern | app/Http/Controllers/SignatureController.php:716-731 | capture_tool_detected weighs 3, the six listed tags weigh 2, every other detector tag weighs 1 |
| SignatureController.CalculateSuspicionScore | app/Http/Controllers/SignatureController.php:711-735 | the `foreach` accumulator returns the weighted sum of the tags |
| SignatureController.ScoreBounds | app/Http/Controllers/SignatureController.php:711-735 | the score lies between the number of tags and three times that number |
| SignatureController.ScoreRejectsIff | app/Http/Controllers/SignatureController.php:288-298 | a score of 2 or more means two tags or more, or one tag of weight 2 or 3 |
| SignatureController.Names | app/Http/Controllers/SignatureController.php:280-297 | the detector's tags as the strings the score and the message use |
| SignatureController.ForgeryMessage | app/Http/Controllers/SignatureController.php:296 | the marked rejection text with the tags joined by ", "; ForgeryGate rejects with it |
| SignatureController.ForgeryGate | app/Http/Controllers/SignatureController.php:285-298 | rejects iff the score is at least 2, with the marked message that lists the tags; a score of 1 passes |
| SignatureController.ForgeryGateOnDetected | app/Http/Controllers/SignatureController.php:280-298 | on detector output: two tags always reject, one tag rejects iff it weighs 2 or more, capture tools and image-only PDFs always reject |
| SignatureController.FreshUploadRejectsOnAnyOtherTag | app/Http/Controllers/SignatureController.php:251-298 | on a file less than 30 seconds old, such as the upload's temporary file, the gate rejects exactly when any tag other than file_too_recent fires |
| SignatureController.FirstTool | app/Http/Controllers/SignatureController.php:751-770 | the first converter tool found case-insensitively, or none iff no listed tool occurs |
| SignatureController.PdfAcceptable | app/Http/Controllers/SignatureController.php:740-800 | a %PDF- prefix, and either text or, without text, no images and at most 5 MiB; ValidatePdfIntegrity succeeds iff it holds |
| SignatureController.ValidatePdfIntegrity | app/Http/Controllers/SignatureController.php:740-800 | the three rejections (no %PDF- prefix, images without text, over 5 MiB without text), success iff none applies, and tool or file-age notes that never reject |
| SignatureController.ErrorResponse | app/Http/Controllers/SignatureController.php:466-488 | 400 with type document_rejected iff the message contains DOCUMENTO REJEITADO; otherwise 500 with "Error processing PDF: " in front |
| SignatureController.RejectionsStartMarked | app/Http/Controllers/SignatureController.php:215 | every rejection message of the pipeline (forgery, images only, large textless, device activity, untrusted device, cross-device) starts with the marker |
| SignatureController.MarkedIs400 | app/Http/Controllers/SignatureController.php:471-476 | a message that starts with the marker maps to the 400 body |
| SignatureController.NotAPdfIs500 | app/Http/Controllers/SignatureController.php:747 | the not-a-PDF message maps to 500 |
| SignatureController.SplitGcm | app/Http/Controllers/SignatureController.php:808-827 | the IV, ciphertext and tag joined again give back the input; 12-byte IV and 16-byte tag when the input is long enough; an empty ciphertext when it is too short |
| SignatureController.Chr | app/Http/Controllers/SignatureController.php:105-107 | one character per byte, each `chr($byte)`, the byte taken modulo 256 |
| SignatureController.BytesToString | app/Http/Controllers/SignatureController.php:105-107 | the loop that builds a string byte by byte returns that per-byte string |
| SignatureController.ChrOfBytes | app/Http/Controllers/SignatureController.php:105-107 | byte values 0..255 come through unchanged |
| SignatureController.Decrypt | app/Http/Controllers/SignatureController.php:805-860 | every failure (GCM, JSON) comes back as one error prefixed "Erro na descriptografia: " |
| SignatureController.DescriptografarDados | app/Http/Controllers/SignatureController.php:805-860 | the method turns the byte array into a string and then decrypts, matching the decryption function |
| SignatureController.ReadSigner | app/Http/Controllers/SignatureController.php:93-127 | the method that reads the signer gives exactly SignerOf |
| SignatureController.SignerOf | app/Http/Controllers/SignatureController.php:93-127 | plain fields pass through; a missing dados or iv gives the format error; otherwise the iv bytes are the password for decryption, and any failure is the format error or a decryption error |
| SignatureController.DeviceGate | app/Http/Controllers/SignatureController.php:138-242 | the device block: the fingerprint of the headers, then GateOutcome: a failed registration leaves the table as it was and is swallowed into an ERROR_<now> record with trust 0; otherwise a new device is appended with trust 1.0, or the stored row is touched; two or more activity indicators reject with the device-activity message; fewer leave the device info after the trust check, with the indicators attached |
| SignatureController.TrustAndRegister | app/Http/Controllers/SignatureController.php:150-196 | the trust check and auto-registration: a stored row is touched, an unregistered device is appended with full trust unless its id is taken, which fails with the table unchanged; on success the device info after the trust check |
| SignatureController.GateAdmits | app/Http/Controllers/SignatureController.php:138-242 | when the device gate admits, the device table is GateRows and the device info is AdmittedDevice: the ERROR_<now> record for a taken id, otherwise fewer than two indicators and the trust-check info with them attached |
| SignatureController.EnhancementFollowsTrust | app/Http/Controllers/SignatureController.php:178-196 | low trust leaves the device info null so enhancement is skipped; trusted and new devices are enhanced; an error record never is |
| SignatureController.InfoAfterTrust | app/Http/Controllers/SignatureController.php:153-196 | the device info after the trust check: a new device's id with trust 1.0 and newly registered, a trusted row's id and level, nothing at low trust; DeviceHeaderTextsByOutcome gives its headers |
| SignatureController.QrPayloadFor | app/Http/Controllers/SignatureController.php:380-389 | the payload behind the QR token: name, entity, public key, document id, transaction code and signing date; Seal states that the token resolves to it |
| SignatureController.CheckForgery | app/Http/Controllers/SignatureController.php:278-298 | the detector's tags and the score gate on them |
| SignatureController.BindingStep | app/Http/Controllers/SignatureController.php:310-374 | the binding block: a fresh binding id stores the signer's binding (BoundRows) and yields the id and its validation code; a taken id leaves the table as it was and falls back to ERROR_<now> and "ERROR" (BindingPair); the device row is touched exactly when the binding is fresh and the device info is enhanceable (EnhancedRows); an enhancement rejection propagates with the marker |
| SignatureController.Admit | app/Http/Controllers/SignatureController.php:93-242 | signer data, ZK proof and device gate run in order; which step failed decides the error and which tables changed; on success (AdmittedBy) the signer is SignerOf the input, the ZK token was fresh and now holds the new record, the fingerprint is that of the headers, the device info is the one the gate computes over the device table (AdmittedDevice), and the device table is GateRows |
| SignatureController.ResponseHeaders | app/Http/Controllers/SignatureController.php:453-461 | the seven headers with the device values as PHP values: float 1.0 for a new device, the decimal column for a stored one, int 0 for the error record, the boolean newly_registered; "not-available", '0' and 'false' without device info |
| SignatureController.DecimalColumn | app/Http/Controllers/SignatureController.php:188-193 | the decimal(3,2) trust column as it comes back from the database: digits, a point, two digits |
| SignatureController.StringCast | app/Http/Controllers/SignatureController.php:459-461 | the string a header value becomes: true is "1", false is "", numbers print at least one digit |
| SignatureController.DeviceHeaderTextsByOutcome | app/Http/Controllers/SignatureController.php:153-242 | the Device-Id, Device-Trust-Level and Device-Newly-Registered texts for each device outcome: a new device sends its id, "1" and "1"; a trusted one its id, its stored decimal (such as "0.80") and ""; low trust sends "not-available", "0" and "false"; a failed registration sends its ERROR_ id, "0" and "false" |
| SignatureController.BindAndIssue | app/Http/Controllers/SignatureController.php:310-389 | after the forgery gate: the binding table is BoundRows and the device table EnhancedRows whatever the outcome; an enhancement rejection keeps the marker; on success the headers are ResponseHeaders of the verification code, the uuid, the BindingPair of the old binding table and the admitted device info, and the QR token resolves to the payload |
| SignatureController.Seal | app/Http/Controllers/SignatureController.php:278-389 | the forgery gate rejects with nothing stored after it; past the gate the binding and device tables are BoundRows and EnhancedRows; on success the QR token resolves to the payload, and the headers are ResponseHeaders of the verification code, the uuid, the BindingPair and the admitted device info |
| SignatureController.SignAndSeal | app/Http/Controllers/SignatureController.php:267-389 | every stage it stops at leaves the tables Unsealed describes: a store failure changes nothing; a forgery rejection (with the forgery message) adds only the doc_ row of the signed record; an enhancement rejection or a failed token insert also leaves the BindingState binding and device tables; none writes a token. A signed outcome is SignedState: that row, the BoundRows binding table, the EnhancedRows device table, the sealed headers with the BindingPair, and a QR token that resolves to the payload |
| SignatureController.CheckPdf | app/Http/Controllers/SignatureController.php:253-263 | passes iff the pre-check, given the upload's content length as its file size, accepts and pdftk exits 0; a pdftk failure carries its exit status |
| SignatureController.ProcessPdf | app/Http/Controllers/SignatureController.php:250-465 | a pre-check or pdftk failure writes nothing; every later stage leaves the tables Unsealed describes for it; a signed outcome is SignedState (document row, binding and device tables, sealed headers, resolving QR token) |
| SignatureController.Process | app/Http/Controllers/SignatureController.php:244-465 | no file gives the 400 "No PDF file provided" and writes nothing; rejections keep the marker; with a file, each stage short of signing leaves the tables Unsealed describes; a signed outcome is SignedState |
| SignatureController.Index | app/Http/Controllers/SignatureController.php:74-488 | the whole pipeline: device, forgery and enhancement rejections are marked; a failure before admission changes no document, binding or token row; every run that gets past admission was admitted (AdmittedBy: signer, ZK record, fingerprint, device info) and its device table went through GateRows; a missing file then writes nothing more; each later stage short of signing leaves, over the admitted device table, the tables Unsealed describes; a signed outcome is SignedState: the doc_ row of the signed record, the signer's binding, the EnhancedRows device table, ResponseHeaders with the BindingPair and the device info, and a QR token that resolves to the payload |
| SignatureController.Respond | app/Http/Controllers/SignatureController.php:244-249 | only a sealed document gets the PDF response; every error is a 400 or a 500 body |
| SignatureController.RejectedOutcomeIs400 | app/Http/Controllers/SignatureController.php:466-476 | a marked exception escaping index becomes the 400 document_rejected body |
| DocumentBinding.MissingHeadersCompareEqual | app/Services/DocumentoBindingService.php:129-138 | two requests without User-Agent and without remote address never count as an IP or user-agent change |
| DocumentBinding.CaptureContextualData | app/Services/DocumentoBindingService.php:127-139 | the request's microtime, 'unknown' for a missing user agent or address, the request time falling back to the microtime, and the custom context; ValidatesOnlyAtCreationInstant states what its timestamp implies |
| DocumentBinding.CalculateSuspicionLevel | app/Services/DocumentoBindingService.php:194-220 | the factor-appending method returns the capped sum of the fired factors |
| DocumentBinding.SuspicionLevel | app/Services/DocumentoBindingService.php:194-220 | the level never exceeds 1 (100 hundredths) |
| DocumentBinding.FactorSum | app/Services/DocumentoBindingService.php:198-217 | the factors add up to 0.3 for an IP change, 0.2 for a user-agent change, 0.4 for an access within 5 s and 0.25 for a session change |
| DocumentBinding.SuspicionLevelIsCappedSum | app/Services/DocumentoBindingService.php:219 | the level is the plain sum below four factors and exactly 1 with all four |
| DocumentBinding.SuspicionZeroIff | app/Services/DocumentoBindingService.php:194-220 | the level is 0 iff IP, user agent and session match and at least 5 s have passed |
| DocumentBinding.SuspiciousIffThreeFactors | app/Services/DocumentoBindingService.php:74-80 | the level exceeds 0.7 iff three or more factors fire; 0.3 + 0.4 = 0.7 passes |
| DocumentBinding.SumConcat | app/Services/DocumentoBindingService.php:219 | `array_sum` of a concatenation is the sum of the parts |
| DocumentBinding.CreateCryptographicBinding | app/Services/DocumentoBindingService.php:144-159 | the nonce is the hex text of the random bytes, twice their length |
| DocumentBinding.CreatedBindingVerifies | app/Services/DocumentoBindingService.php:144-159 | a fresh binding verifies against its own fingerprint, user and context |
| DocumentBinding.VerifyCryptographicBinding | app/Services/DocumentoBindingService.php:366-378 | the HMAC over the given fingerprint, user and context with the stored nonce equals the stored signature; VerifyIff states when that holds |
| DocumentBinding.VerifyTemporalIntegrity | app/Services/DocumentoBindingService.php:358-361 | accepts every token; RejectionOrder states that the temporal rejection never happens |
| DocumentBinding.VerifyIff | app/Services/DocumentoBindingService.php:366-378 | with the HMAC injective on the pair at hand, verification passes iff fingerprint, user and context equal the stored ones |
| DocumentBinding.Validate | app/Services/DocumentoBindingService.php:55-101 | valid iff present, unexpired, same fingerprint, level at most 0.7 and the HMAC rebuilt from the current context matches; a valid answer reports the level |
| DocumentBinding.RejectionOrder | app/Services/DocumentoBindingService.php:55-101 | missing, expired, altered, suspicious context and invalid binding each answer exactly when every earlier check passed; the temporal check never fires |
| DocumentBinding.SuspiciousReportsLevel | app/Services/DocumentoBindingService.php:74-80 | a suspicious-context rejection reports the level, which exceeds 0.7 |
| DocumentBinding.NewBinding | app/Services/DocumentoBindingService.php:15-50 | created at the context's microsecond timestamp, expires exactly 30 days later to the microsecond, and signs the context it records |
| DocumentBinding.ExpiresToTheMicrosecond | app/Services/DocumentoBindingService.php:39-64 | a fresh binding is rejected as expired iff its creation instant plus 30 days lies strictly before the request's microtime, microseconds included: made at 1000.5 s it is still current at 2593000.3 s |
| DocumentBinding.ValidateRequest | app/Services/DocumentoBindingService.php:55-101 | the chain for one request: the context is captured from the request and the expiry test compares the microsecond expiry with the request's microtime; valid iff present, not past expiry, same fingerprint, level at most 0.7 and the HMAC over the captured context matches |
| DocumentBinding.ValidatesOnlyAtCreationInstant | app/Services/DocumentoBindingService.php:55-101 | as written, with a collision-free HMAC, a fresh binding validates for its signer iff the captured context equals the creation one, same microtime included, and then at level 0.4; replaying the creation request validates |
| DocumentBinding.AsWrittenNeedsIdenticalContext | app/Services/DocumentoBindingService.php:89-98 | as written, any context other than the stored one fails, at the crypto check or earlier |
| DocumentBinding.IpChangeWithinFiveSeconds | app/Services/DocumentoBindingService.php:89-98 | an IP change 2 s after signing sits at level 0.7, fails as written and is valid under the intended check |
| DocumentBinding.ValidateIntended | app/Services/DocumentoBindingService.php:55-101 | the validation chain with the HMAC rebuilt from the stored context; valid only with a level of at most 0.7 |
| DocumentBinding.IntendedValidIff | app/Services/DocumentoBindingService.php:55-101 | under the intended check a fresh binding, checked no later than its microsecond expiry, validates iff the claimed user is the signer and the context level is at most 0.7 |
| DocumentBinding.GenerateValidationCode | app/Services/DocumentoBindingService.php:383-386 | at most 8 characters from 0-9A-F, exactly 8 for a 32-byte digest |
| DocumentBinding.ValidationCodeIsDigestPrefix | app/Services/DocumentoBindingService.php:383-386 | lower-cased, the code is the first 8 hex digits of SHA-256 of the id and the app key |
| Text.PrefixedHexId | app/Services/DeviceBindingService.php:25 | an identifier is its prefix followed by 32 lower-case hex digits; DeviceId (dev_), DocumentId (doc_, DocumentoSecurityService.php:21), BindingId (bind_, DocumentoBindingService.php:327), ZkToken (zk_, ZeroKnowlegdeService.php:26) and SecureToken (tk_, PrivacyService.php:13) are this function with their prefix |
| Text.PrefixedHexIdInjective | app/Services/DeviceBindingService.php:25 | two identifiers with the same prefix are equal exactly when they were drawn from the same 16 random bytes |
| DocumentBinding.BindingStore.RetrieveSecureBinding | app/Services/DocumentoBindingService.php:342-353 | the stored binding iff the id is present |
| DocumentBinding.BindingStore.StoreSecureBinding | app/Services/DocumentoBindingService.php:325-337 | one new row under a fresh id, which gives the binding back; a taken id stores nothing |
| DocumentBinding.BindingStore.CreateDocumentBinding | app/Services/DocumentoBindingService.php:15-50 | stores the new binding under a fresh bind_ id with the creation instant and its 30-day expiry, both in microseconds, and returns id, validation code and binding |
| DocumentBinding.BindingStore.ValidateDocumentIntegrity | app/Services/DocumentoBindingService.php:55-101 | "binding not found" for an unknown id, otherwise the validation chain on the stored binding for the request being served, context and clock taken from it |
| DocumentBinding.SkipNonClose | app/Services/DocumentoBindingService.php:232 | the `[^)]+` scan stops at the first ')' |
| DocumentBinding.ParenValueAt | app/Services/DocumentoBindingService.php:232 | a `/Key\s*\(([^)]+)` match at one position yields a non-empty value without ')' |
| DocumentBinding.FirstParenValue | app/Services/DocumentoBindingService.php:231-240 | the first such value is non-empty and holds no ')' |
| DocumentBinding.FirstParenValueNeedsKey | app/Services/DocumentoBindingService.php:231-240 | a value is found only when the key occurs |
| DocumentBinding.CreationPatternsShape | app/Services/DocumentoBindingService.php:225-243 | one entry per present key, producer first, with "unknown" when the value does not parse |
| DocumentBinding.ExtractCreationPatterns | app/Services/DocumentoBindingService.php:225-243 | a lower-case hex digest, 64 digits for a 32-byte hash |
| DocumentBinding.NoMetadataHashesEmptyArray | app/Services/DocumentoBindingService.php:225-243 | without /Producer and /CreationDate the result is the hash of the serialized empty array |
| DeviceBinding.CreateDevice | app/Services/DeviceBindingService.php:11-22 | the fingerprint is lower-case hex, 64 digits for a 32-byte hash |
| DeviceBinding.FindActive | app/Services/DeviceBindingService.php:49-53 | the first active row of that user and fingerprint, or none iff there is none |
| DeviceBinding.TrustOf | app/Services/DeviceBindingService.php:47-86 | the verdict of the first active row of that user and fingerprint; TrustOfIff states it |
| DeviceBinding.Touched | app/Services/DeviceBindingService.php:63-67 | the table with that row's last_seen set to now; TouchedOnlyStampsLastSeen states it |
| DeviceBinding.TrustOfIff | app/Services/DeviceBindingService.php:47-86 | not registered iff no active row matches; trusted with the row's id and level at 0.5 or above; low trust below it |
| DeviceBinding.HalfTrustIsTrusted | app/Services/DeviceBindingService.php:69-83 | a trust level of exactly 0.5 is trusted |
| DeviceBinding.TouchedOnlyStampsLastSeen | app/Services/DeviceBindingService.php:63-67 | the trust check changes only last_seen, of the first matching row only |
| DeviceBinding.CountRecentUpTo | app/Services/DeviceBindingService.php:95-102 | the count of recent registrations never exceeds the rows scanned |
| DeviceBinding.CountRecent | app/Services/DeviceBindingService.php:95-98 | the number of the user's rows first seen within the last hour, over the whole table |
| DeviceBinding.CountRecentUpToAgrees | app/Services/DeviceBindingService.php:95-102 | the count depends only on each row's user and first_seen |
| DeviceBinding.ActiveDevices | app/Services/DeviceBindingService.php:105-108 | exactly the user's active rows |
| DeviceBinding.DetectSuspiciousLocation | app/Services/DeviceBindingService.php:159-170 | the device loop answers true iff some device's registration IP exists and differs from the current one |
| DeviceBinding.IsSuspiciousUserAgent | app/Services/DeviceBindingService.php:175-211 | the pattern loop answers true iff the UA is empty or falsy or matches one of the listed patterns |
| DeviceBinding.CurlIsSuspicious | app/Services/DeviceBindingService.php:175-211 | "curl/7.68.0" is flagged |
| DeviceBinding.LongUaIsSuspicious | app/Services/DeviceBindingService.php:175-211 | a one-line UA of 500 characters or more is flagged |
| DeviceBinding.ZeroUaIsSuspicious | app/Services/DeviceBindingService.php:177-179 | a missing header, "" and "0" are flagged as empty |
| DeviceBinding.MarkupUaIsSuspicious | app/Services/DeviceBindingService.php:175-211 | any of the characters `<>{}` flags the UA |
| DeviceBinding.Activity | app/Services/DeviceBindingService.php:90-123 | the three indicators in append order, each on its own condition; ActivityFacts states them |
| DeviceBinding.ActivityFacts | app/Services/DeviceBindingService.php:90-123 | at most three distinct indicators: many devices iff more than 2 registrations in the last hour, location iff an active device's IP differs, user agent iff it is suspicious |
| DeviceBinding.ActivityIgnoresLastSeen | app/Services/DeviceBindingService.php:90-123 | stamping last_seen does not change the indicators |
| DeviceBinding.SameButLastSeenAt | app/Services/DeviceBindingService.php:63-67 | rows that differ only in last_seen agree on user, first_seen, status and context |
| DeviceBinding.LocationIgnoresLastSeen | app/Services/DeviceBindingService.php:104-114 | stamping last_seen does not change the location verdict |
| DeviceBinding.DeviceRegistry.RegisterDevide | app/Services/DeviceBindingService.php:24-41 | appends exactly one active row with a dev_ id, trust 1.0 and first_seen equal to last_seen; a taken id appends nothing |
| DeviceBinding.DeviceRegistry.VerifyDeviceTrust | app/Services/DeviceBindingService.php:47-86 | returns the trust verdict on the old rows and stamps last_seen on the matching row, even at low trust |
| DeviceBinding.DeviceRegistry.DetectSuspiciousDeviceActivity | app/Services/DeviceBindingService.php:90-123 | the indicators of the activity function, whatever the fingerprint |
| DeviceBinding.DeviceRegistry.EnhanceDocumentBinding | app/Services/DeviceBindingService.php:128-157 | rejects an untrusted device with its reason, rejects many devices plus a location change, otherwise returns id, level and indicators |
| DeviceBinding.RejectionsAreMarked | app/Services/DeviceBindingService.php:132-149 | both enhancement rejections contain DOCUMENTO REJEITADO |
| DeviceMiddleware.LookUpOrRegister | app/Http/Middleware/DeviceVerificationMiddleware.php:38-65 | the trust verdict on the old table; a known device gets last_seen stamped; an unknown one gets exactly one new auto-registered row with trust 1.0, unless its id is taken, which fails and changes nothing |
| DeviceMiddleware.Handle | app/Http/Middleware/DeviceVerificationMiddleware.php:27-108 | a guest passes with no device work; unregistered devices are auto-registered; two or more indicators give 403 SUSPICIOUS_DEVICE_ACTIVITY; a failed registration still passes; otherwise the request carries the device attributes |
| DeviceMiddleware.MergedDefaults | app/Http/Middleware/DeviceVerificationMiddleware.php:89-94 | device_id is set only for a trusted device; trust level defaults to 0, even for a device just registered |
| DeviceMiddleware.RefusalNeedsTwoIndicators | app/Http/Middleware/DeviceVerificationMiddleware.php:79-85 | a 403 needs two of: many recent devices, a location change, a suspicious user agent |
| DocumentSecurity.UserHash | app/Services/DocumentoSecurityService.php:28 | lower-case hex of SHA-256 over matricula and CPF run together |
| DocumentSecurity.GenerateUserKey | app/Services/DocumentoSecurityService.php:94-103 | a 32-byte key when SHA-256 gives 32 bytes |
| DocumentSecurity.EncryptWithUserKey | app/Services/DocumentoSecurityService.php:105-109 | the framed text starts with the IV |
| DocumentSecurity.DecryptWithUserKey | app/Services/DocumentoSecurityService.php:111-122 | the first 16 bytes are the IV and the rest the ciphertext; FramingRoundTrip gives the data back |
| DocumentSecurity.FramingRoundTrip | app/Services/DocumentoSecurityService.php:105-122 | decrypting the framed text under the same key gives the data back |
| DocumentSecurity.Retrieve | app/Services/DocumentoSecurityService.php:40-80 | a result needs an unexpired row whose user hash matches, and carries the row's document hash |
| DocumentSecurity.FailuresLookMissing | app/Services/DocumentoSecurityService.php:41-79 | an expired row, a wrong signer and each failed decryption all answer null, as a missing row does |
| DocumentSecurity.StoredDocumentRoundTrip | app/Services/DocumentoSecurityService.php:14-80 | the signer gets back the stored document, signature and public key, and the document hash, until the ten years are up |
| DocumentSecurity.SeparatorlessHashCollides | app/Services/DocumentoSecurityService.php:28 | ("12","3") and ("1","23") share a user hash, while their key material differs |
| DocumentSecurity.SecureDocumentStore.SecureDocument | app/Services/DocumentoSecurityService.php:14-35 | inserts one row under a fresh doc_ id with user hash, document hash and a ten-year expiry; a taken id stores nothing |
| DocumentSecurity.SecureDocumentStore.RetrieveDocument | app/Services/DocumentoSecurityService.php:40-80 | a result means an unexpired row with that id exists |
| DocumentSecurity.SecureDocumentStore.VerifyDocumentIntegrity | app/Services/DocumentoSecurityService.php:85-92 | true iff an unexpired row with that id exists |
| DocumentSecurity.RetrievableIsIntact | app/Services/DocumentoSecurityService.php:40-92 | whatever the signer can retrieve also passes the public integrity check |
| ZeroKnowledge.GenerateUserSecret | app/Services/ZeroKnowlegdeService.php:82-88 | a lower-case hex digest |
| ZeroKnowledge.FalsyPasswordIsNoPassword | app/Services/ZeroKnowlegdeService.php:82-88 | "0" and "" count as no password; a truthy password adds a third component |
| ZeroKnowledge.NextLevel | app/Services/ZeroKnowlegdeService.php:94-100 | one level up has half the nodes, rounded up |
| ZeroKnowledge.FoldSize | app/Services/ZeroKnowlegdeService.php:93-101 | repeated pairing ends in one root, or in nothing for no leaves |
| ZeroKnowledge.Leaves | app/Services/ZeroKnowlegdeService.php:91 | one leaf hash per datum |
| ZeroKnowledge.BuildLevel | app/Services/ZeroKnowlegdeService.php:94-100 | the inner `for` loop builds one level, the last node paired with itself when the count is odd |
| ZeroKnowledge.BuildMerkleTree | app/Services/ZeroKnowlegdeService.php:90-104 | the `while` loop ends with the fold of the leaf hashes: one root, or an empty array for no data |
| ZeroKnowledge.SmallTrees | app/Services/ZeroKnowlegdeService.php:90-104 | the roots of two and three leaves, the odd third leaf duplicated |
| ZeroKnowledge.GenerateMerkleProof | app/Services/ZeroKnowlegdeService.php:106-112 | the root is the tree's first node or "", and the path has one entry |
| ZeroKnowledge.VerifyMerkleProof | app/Services/ZeroKnowlegdeService.php:114-116 | a non-empty root and path, the data hash unread; MerkleProofIgnoresData states the consequence |
| ZeroKnowledge.MerkleProofIgnoresData | app/Services/ZeroKnowlegdeService.php:114-116 | a proof of a non-empty tree verifies against any hash |
| ZeroKnowledge.FoldHashes | app/Services/ZeroKnowlegdeService.php:90-104 | every node of the tree is a 64-digit hash |
| ZeroKnowledge.NewZkRecord | app/Services/ZeroKnowlegdeService.php:15-37 | the row stores the hash of the user secret, not the secret, and expires 24 hours later |
| ZeroKnowledge.VerifyRecord | app/Services/ZeroKnowlegdeService.php:47-66 | false for a missing or expired row; a non-empty claim must hash to the stored secret hash; otherwise true; OwnClaimVerifies, WrongClaimRefused and EmptyClaimAcceptsAnyToken state its cases |
| ZeroKnowledge.OwnClaimVerifies | app/Services/ZeroKnowlegdeService.php:47-66 | the signer's own claim verifies iff the token is not past its expiry, so it still verifies at the expiry instant |
| ZeroKnowledge.WrongClaimRefused | app/Services/ZeroKnowlegdeService.php:54-63 | a non-empty claim whose secret differs from the stored one fails, given SHA-256 collision-free on that pair |
| ZeroKnowledge.EmptyClaimAcceptsAnyToken | app/Services/ZeroKnowlegdeService.php:54-65 | with no claim or an empty one, any unexpired token verifies |
| ZeroKnowledge.ZkStore.CreateUserProof | app/Services/ZeroKnowlegdeService.php:13-44 | inserts one row under a fresh zk_ token and returns it with proof_required; a taken token stores nothing |
| ZeroKnowledge.ZkStore.VerifyProof | app/Services/ZeroKnowlegdeService.php:47-66 | true only for a present, unexpired token, and then by the claim rule |
| Privacy.SecureTokenStore.SecureData | app/Services/PrivacyService.php:12-23 | inserts exactly one row, expiring in 100 years, and the token resolves to the payload; a taken token stores nothing |
| Privacy.SecureTokenStore.Resolve | app/Http/Controllers/SignatureController.php:502-507 | the payload of any stored token, with no expiry check; "Documento não encontrado" otherwise |
| Privacy.StoredPayloadResolves | app/Services/PrivacyService.php:12-23 | after an insert the new token resolves to its payload, every other token is unchanged, and the row expires after it was created |
| SignatureServices.GeneratePosition | app/Services/SignatureServices.php:9-43 | text x is always qr x + qrWidth + 5; qr x is 10 except for "right" |
| SignatureServices.PositionFacts | app/Services/SignatureServices.php:9-43 | left and right center the QR vertically; an unknown position gets the default layout; on the right the text ends 10 points from the edge |
| SignatureServices.RandomCode | app/Services/SignatureServices.php:45-53 | DDL-DDL-DDL: 11 characters, digits, capital letters and dashes at 3 and 7 |
| SignatureServices.Group | app/Services/SignatureServices.php:47-48 | one group is the two-digit number and the letter drawn |
| SignatureServices.RandomCodeDraws | app/Services/SignatureServices.php:45-53 | the code spells out the six draws |
| SignatureServices.CpfMask | app/Services/SignatureServices.php:181 | the CPF mask puts '.', '.' and '-' at 3, 7 and 11 |
| SignatureServices.CnpjMask | app/Services/SignatureServices.php:183 | the CNPJ mask puts '.', '.', '/' and '-' at 2, 6, 10 and 15 |
| SignatureServices.FormataCnpjCpf | app/Services/SignatureServices.php:177-184 | non-digits stripped, 11 digits masked as a CPF, other counts in CNPJ blocks; CnpjCpfShapes and CnpjCpfKeepsDigits state the results |
| SignatureServices.CnpjCpfShapes | app/Services/SignatureServices.php:177-184 | 11 digits give ddd.ddd.ddd-dd, 14 digits give dd.ddd.ddd/dddd-dd, other counts under 14 are the bare digits |
| SignatureServices.CnpjCpfKeepsDigits | app/Services/SignatureServices.php:177-184 | the mask keeps the digits, in order |
| SignatureServices.CpfMaskDigits | app/Services/SignatureServices.php:181 | removing the mask's separators gives the 11 digits back |
| SignatureServices.CnpjMaskDigits | app/Services/SignatureServices.php:183 | removing the mask's separators gives the 14 digits back |
| SignatureServices.CnpjBlocksDigits | app/Services/SignatureServices.php:183 | grouping longer numbers keeps their digits |
| SignatureServices.DigitsOnlyConcat | app/Services/SignatureServices.php:179 | stripping non-digits distributes over concatenation |
| SignatureServices.MobileMask | app/Services/SignatureServices.php:190 | "(dd) ddddd.dddd" has '(' ')' ' ' '.' at 0, 3, 4 and 10 |
| SignatureServices.LandlineMask | app/Services/SignatureServices.php:192 | "(dd) dddd.dddd" has '(' ')' ' ' '.' at 0, 3, 4 and 9 |
| SignatureServices.FormataTelefone | app/Services/SignatureServices.php:186-193 | non-digits stripped, 11 digits masked as a mobile number, other counts in landline blocks; TelefoneShapes states the results |
| SignatureServices.TelefoneShapes | app/Services/SignatureServices.php:186-193 | 11 digits give (dd) ddddd.dddd, 10 digits give (dd) dddd.dddd, fewer are the bare digits |
| SignatureServices.Entrada | app/Services/SignatureServices.php:198-206 | the replace list has 26 characters plus the spacer |
| SignatureServices.ReplaceChar | app/Services/SignatureServices.php:213 | one `str_replace` replaces every occurrence of one character and only those |
| SignatureServices.OneCharSpacer | app/Services/SignatureServices.php:208-215 | after n rounds of the loop every character is replaced by the first n map entries |
| SignatureServices.StripPartialAccents | app/Services/SignatureServices.php:208-215 | within the first 26 rounds an accented letter maps to its plain letter |
| SignatureServices.StripPartialIsStripChar | app/Services/SignatureServices.php:208-215 | 27 rounds give the full per-character map |
| SignatureServices.SkipTrim | app/Services/SignatureServices.php:225 | the front trim stops at the first character outside the trim set |
| SignatureServices.BackTrim | app/Services/SignatureServices.php:225 | the back trim stops at the last character outside the trim set |
| SignatureServices.Trim | app/Services/SignatureServices.php:225 | the trimmed text neither starts nor ends with a trim character and takes its characters from the input |
| SignatureServices.FoldAccents | app/Services/SignatureServices.php:218-223 | the accent fold maps each character on its own |
| SignatureServices.FinishedChar | app/Services/SignatureServices.php:217-227 | a finished character is no lower-case ASCII letter and is stable under the fold |
| SignatureServices.FinishFacts | app/Services/SignatureServices.php:217-227 | the result holds no lower-case letter, is folded and is trimmed |
| SignatureServices.RemoveCaracteresEspeciais | app/Services/SignatureServices.php:195-228 | the loop's result is the finished text after 26 + strlen(espaco) rounds; a spacer too long for the map is an error, exactly when strlen(entrada) exceeds the 30 entries, and its message is "Undefined array key 30" (line 211) |
| SignatureServices.OneCharSpacerResult | app/Services/SignatureServices.php:202-215 | with a one-character spacer, 27 rounds run and each character goes through the per-character map |
| SignatureServices.StripCharPunctuation | app/Services/SignatureServices.php:202-215 | spaces become the spacer, while '(' ')' '.' are never replaced |
| SignatureServices.StripCharAccent | app/Services/SignatureServices.php:202-204 | 'ã' becomes 'a' |

## Left out

- Cryptographic primitives are inputs, not models: RSA key generation and signing (PKCS#1 v1.5 with SHA-256, section 8.2 of RFC 8017), AES-256-CBC, AES-256-GCM, PBKDF2, HMAC, SHA-256 and base64. Only the properties a lemma names are assumed of them.
- Laravel `Crypt` is transparent: token payloads, stored bindings and registration contexts are kept as values.
- The document fingerprint's ingredients (file hash, metadata hash with atime, entropy-based structural signature), the watermark, the integrity token and the server signature are opaque inputs, because they read the filesystem and use floating point.
- The daily sequence counter (`Cache::increment`) is an opaque input, because it is a shared atomic counter.
- `microtime` is an integer number of microseconds and `time()` an integer number of seconds; `strtotime`, `json_decode` and the `round()` size label are parameters.
- A null matricula or CPF is stored as the empty string.
- One request reads one clock: the context's `microtime(true)` and Carbon's `now()` at creation and in the expiry test are taken as the same instant (`DocumentBinding.ServerRequest.microtime`), kept in microseconds. The `created_at`/`expires_at` columns of document_bindings are kept at the same precision; their database rounding is not modelled, because validation reads the expiry from the encrypted binding array, not from the columns.
- A database insert fails only on a duplicate unique key; no other database error is modelled.
- `createSignatureProof`, `generateSignatureZKProof`, `calculateMerklePath` and `generateChallenge` are left out, because they are time-salted hashes with no stated behaviour.
- The filesystem helpers of SignatureServices (`isProtected`, `validatePassword`, `readProtectedFile`, `verifySignature`) and `encryptData`/`decryptData` are left out, because they are disk reads, `echo` output and crypto wrappers.
- Views, routes, CORS headers, `Log` calls, the console command and the migrations' schema are left out, because they hold no decision logic.
- `verifySignature` is modelled only as its secure-token lookup (`Privacy.SecureTokenStore.Resolve`); its ZK token expiry check, RSA verification and comparison of the claimed CPF and matricula are left out, because the controller's other views are outside this model.
- pdftk is modelled by its exit status. FPDI, QR image generation, page stamping and `PDF_Rotate` are left out, because they render output. The 200 response's PDF body is not modelled, only its headers.
- SignatureServices.GeneratePosition: computes over Dafny reals, not floating point.
- SignatureController.DeviceGate: the only exception modelled inside the device block is a failed registration; other exceptions thrown there are not.
- The copy-paste checks read whatever path the controller passes, and it passes the upload's temporary file (`getPathname()`, SignatureController.php:251). So suspicious_filename and the download/temp name check see the temporary name, not the client's file name, and the file's mtime is the upload instant, so file_too_recent fires on every fresh upload. The model takes the name and mtime as inputs (`CopyPasteDetection.UploadedFile`) and does not model PHP's temporary-file naming; `SignatureController.FreshUploadRejectsOnAnyOtherTag` states the consequence for the gate.
- DocumentBinding.SuspicionLevel: the level is in integer hundredths, not floating point. The only sum on the 0.7 boundary is 0.3 + 0.4, which IEEE doubles give exactly, so the decisions agree.
- SignatureServices.RemoveCaracteresEspeciais: the text is modelled as Unicode characters, so byte-level replacement inside a multi-byte sequence is not modelled.

## Findings

| source | as written | input that shows it | evidently intended | confidence | as-written member | corrected member |
|---|---|---|---|---|---|---|
| app/Services/DocumentoBindingService.php:89-98 | the HMAC is rebuilt from the current request's context, so the check fails whenever the context differs from the stored one, even when the context check just passed | a binding made at IP A; 2 s later the same user validates from IP B: level 0.3 + 0.4 = 0.7 passes the context check, then the crypto check fails | rebuild the HMAC from the stored context, so the binding rejects only a changed fingerprint, user or nonce and leaves context to the suspicion level | not executed | DocumentBinding.IpChangeWithinFiveSeconds | DocumentBinding.IntendedValidIff |
