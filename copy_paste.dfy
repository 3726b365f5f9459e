/**
 * The copy-paste / screenshot heuristics of DocumentoBindingService: eleven
 * independent checks over an uploaded PDF's bytes, its file name and its age,
 * each appending at most one literal tag.
 */
module CopyPasteDetection {
  import opened Wrappers
  import opened Text
  import opened Sequences

  // ------------------------------------------------------------ vocabulary

  /** The eleven patterns, one per check. */
  datatype Pattern =
    | FileTooRecent | SuspiciousFilename | ImageConversionTool | ImageOnlyPdf
    | ImageHeavyPdf | ScreenResolution | LowQualityImage | RecentCreationTimestamp
    | CaptureToolDetected | DownloadIndicators | ScannedDocumentCharacteristics
  {
    /** The tag string appended to $patterns. */
    function Name(): string {
      match this
      case FileTooRecent => "file_too_recent"
      case SuspiciousFilename => "suspicious_filename"
      case ImageConversionTool => "image_conversion_tool"
      case ImageOnlyPdf => "image_only_pdf"
      case ImageHeavyPdf => "image_heavy_pdf"
      case ScreenResolution => "screen_resolution_match"
      case LowQualityImage => "low_quality_image"
      case RecentCreationTimestamp => "recent_creation_timestamp"
      case CaptureToolDetected => "capture_tool_detected"
      case DownloadIndicators => "download_indicators"
      case ScannedDocumentCharacteristics => "scanned_document_characteristics"
    }
  }

  /** The patterns in the order the checks run. */
  const AllTags: seq<Pattern> := [
    FileTooRecent, SuspiciousFilename, ImageConversionTool, ImageOnlyPdf,
    ImageHeavyPdf, ScreenResolution, LowQualityImage, RecentCreationTimestamp,
    CaptureToolDetected, DownloadIndicators, ScannedDocumentCharacteristics]

  /** The alternatives of /copy|copia|duplicate|screen|print|captura|foto|image/i */
  const FilenameKeywords: seq<string> :=
    ["copy", "copia", "duplicate", "screen", "print", "captura", "foto", "image"]

  const SuspiciousProducers: seq<string> := [
    "ImageToPDF", "CamScanner", "Adobe Scan", "PDFCreator", "PDFill",
    "doPDF", "Win2PDF", "PrimoPDF", "Foxit Reader", "Microsoft Print to PDF",
    "Chrome", "Chromium", "Edge", "Firefox", "Safari"]

  const ScreenResolutions: seq<(int, int)> := [
    (1920, 1080), (1366, 768), (1536, 864), (1440, 900),
    (1280, 720), (1024, 768), (800, 600), (1600, 900)]

  const CaptureIndicators: seq<string> := [
    "Snipping Tool", "Screenshot", "Print Screen", "Captura",
    "LightShot", "Greenshot", "Snagit", "CloudShot"]

  /**
   * What the checks read from the upload: basename($documentPath), the file's
   * bytes and its filemtime().
   */
  datatype UploadedFile = UploadedFile(fileName: string, content: string, mtime: int)

  function Abs(x: int): nat {
    if x < 0 then -x else x
  }

  // ------------------------------------------------------- regex matchers

  /** `key\s+(\d+)` matched at offset `i`: the captured digits, if any. */
  function KeyNumberAt(s: string, key: string, i: nat): (r: Option<string>)
    ensures r.Some? ==> OccursAt(s, key, i) && |r.value| >= 1 && AllDigits(r.value)
  {
    if !OccursAt(s, key, i) then None
    else
      var j := i + |key|;
      var k := SkipSpaces(s, j);
      var e := SkipDigits(s, k);
      if k > j && e > k then Some(s[k..e]) else None
  }

  /** preg_match('/key\s+(\d+)/') from offset `i` on: the leftmost match's digits. */
  function FirstKeyNumber(s: string, key: string, i: nat): (r: Option<string>)
    ensures r.Some? ==> |r.value| >= 1 && AllDigits(r.value)
    decreases |s| - i
  {
    if i > |s| then None
    else if KeyNumberAt(s, key, i).Some? then KeyNumberAt(s, key, i)
    else FirstKeyNumber(s, key, i + 1)
  }

  /** `/CreationDate\s*\(D:(\d{14})` matched at offset `i`. */
  function CreationDateAt(s: string, i: nat): (r: Option<string>)
    ensures r.Some? ==> |r.value| == 14 && AllDigits(r.value)
  {
    if !OccursAt(s, "/CreationDate", i) then None
    else
      var k := SkipSpaces(s, i + |"/CreationDate"|);
      if OccursAt(s, "(D:", k) && k + 3 + 14 <= |s| && AllDigits(s[k + 3..k + 17])
      then Some(s[k + 3..k + 17]) else None
  }

  /** The 14 digits of the leftmost `/CreationDate (D:YYYYMMDDHHMMSS` from offset `i` on. */
  function FirstCreationDate(s: string, i: nat): (r: Option<string>)
    ensures r.Some? ==> |r.value| == 14 && AllDigits(r.value)
    decreases |s| - i
  {
    if i > |s| then None
    else if CreationDateAt(s, i).Some? then CreationDateAt(s, i)
    else FirstCreationDate(s, i + 1)
  }

  /** The string handed to strtotime: "YYYYMMDD HH:MM:SS". */
  function CreationDateText(d: string): string
    requires |d| == 14
  {
    d[..8] + " " + d[8..10] + ":" + d[10..12] + ":" + d[12..14]
  }

  /** `/ColorSpace\s+/DeviceRGB` matched at offset `i`. */
  predicate DeviceRgbAt(s: string, i: nat) {
    OccursAt(s, "/ColorSpace", i) &&
    var j := i + |"/ColorSpace"|;
    var k := SkipSpaces(s, j);
    k > j && OccursAt(s, "/DeviceRGB", k)
  }

  predicate HasDeviceRgb(s: string) {
    exists i | 0 <= i <= |s| :: DeviceRgbAt(s, i)
  }

  /** substr_count($s, $p): non-overlapping occurrences, scanning left to right. */
  function CountOccurrences(s: string, p: string): nat
    requires |p| > 0
    decreases |s|
  {
    if |s| < |p| then 0
    else if s[..|p|] == p then 1 + CountOccurrences(s[|p|..], p)
    else CountOccurrences(s[1..], p)
  }

  /** Past a non-occurrence at offset 0, strpos looks in the tail. */
  lemma ContainsTail(s: string, p: string)
    requires |p| <= |s| && !OccursAt(s, p, 0)
    ensures Contains(s, p) <==> Contains(s[1..], p)
  {
    if Contains(s, p) {
      var i :| 0 <= i <= |s| - |p| && OccursAt(s, p, i);
      assert s[1..][i - 1..i - 1 + |p|] == s[i..i + |p|];
      assert OccursAt(s[1..], p, i - 1);
    }
    if Contains(s[1..], p) {
      var i :| 0 <= i <= |s[1..]| - |p| && OccursAt(s[1..], p, i);
      assert s[i + 1..i + 1 + |p|] == s[1..][i..i + |p|];
      assert OccursAt(s, p, i + 1);
    }
  }

  /** substr_count is zero exactly when strpos finds nothing. */
  lemma {:induction false} CountZeroIffAbsent(s: string, p: string)
    requires |p| > 0
    ensures CountOccurrences(s, p) == 0 <==> !Contains(s, p)
    decreases |s|
  {
    if |s| < |p| {
    } else if s[..|p|] == p {
      assert OccursAt(s, p, 0);
    } else {
      assert !OccursAt(s, p, 0);
      CountZeroIffAbsent(s[1..], p);
      ContainsTail(s, p);
    }
  }

  // ------------------------------------------------------------ the checks

  predicate AnyContainsCI(s: string, needles: seq<string>) {
    exists j | 0 <= j < |needles| :: ContainsCI(s, needles[j])
  }

  predicate NearResolution(width: int, height: int, res: (int, int)) {
    Abs(width - res.0) < 50 && Abs(height - res.1) < 50
  }

  predicate HasImageMarkers(s: string) {
    Contains(s, "/XObject") && Contains(s, "/Image")
  }

  predicate ImageOnly(s: string) {
    HasImageMarkers(s) && CountOccurrences(s, "/Image") > 0 && CountOccurrences(s, "/Text") == 0
  }

  predicate ImageHeavy(s: string) {
    HasImageMarkers(s) && CountOccurrences(s, "/Image") > CountOccurrences(s, "/Text") * 2
  }

  predicate ScreenResolutionMatch(s: string) {
    var w := FirstKeyNumber(s, "/Width", 0);
    var h := FirstKeyNumber(s, "/Height", 0);
    w.Some? && h.Some? &&
    exists j | 0 <= j < |ScreenResolutions| ::
      NearResolution(IntVal(w.value), IntVal(h.value), ScreenResolutions[j])
  }

  predicate LowBitDepth(s: string) {
    var b := FirstKeyNumber(s, "/BitsPerComponent", 0);
    b.Some? && IntVal(b.value) <= 8
  }

  /** strtotime's `false` is the integer 0 in `time() - $creationTime`. */
  function CreationTime(d: string, strtotime: string -> Option<int>): int
    requires |d| == 14
  {
    strtotime(CreationDateText(d)).GetOr(0)
  }

  predicate RecentCreation(s: string, now: int, strtotime: string -> Option<int>) {
    var d := FirstCreationDate(s, 0);
    d.Some? && Abs(now - CreationTime(d.value, strtotime)) < 300
  }

  predicate HasDownloadMarkers(f: UploadedFile) {
    Contains(f.content, "download") || Contains(f.content, "temp") ||
    Contains(f.fileName, "download") || Contains(f.fileName, "temp")
  }

  predicate ScannedCharacteristics(s: string) {
    HasDeviceRgb(s) && !Contains(s, "/Font")
  }

  /** Which of the eleven checks fire, in check order. */
  function Flags(f: UploadedFile, now: int, strtotime: string -> Option<int>): (fs: seq<bool>)
    ensures |fs| == |AllTags|
  {
    [ now - f.mtime < 30,
      AnyContainsCI(f.fileName, FilenameKeywords),
      AnyContainsCI(f.content, SuspiciousProducers),
      ImageOnly(f.content),
      ImageHeavy(f.content),
      ScreenResolutionMatch(f.content),
      LowBitDepth(f.content),
      RecentCreation(f.content, now, strtotime),
      AnyContainsCI(f.content, CaptureIndicators),
      HasDownloadMarkers(f),
      ScannedCharacteristics(f.content) ]
  }

  /** The patterns whose flag is set, in check order. */
  function Select(fs: seq<bool>): seq<Pattern>
    requires |fs| == |AllTags|
  {
    Filter(fs, AllTags)
  }

  /** The patterns detectCopyPastePatterns returns. */
  function Detected(f: UploadedFile, now: int, strtotime: string -> Option<int>): seq<Pattern> {
    Select(Flags(f, now, strtotime))
  }

  lemma AllTagsDistinct()
    ensures Distinct(AllTags)
  {
  }

  lemma TagsAt()
    ensures AllTags[0] == FileTooRecent && AllTags[1] == SuspiciousFilename
    ensures AllTags[2] == ImageConversionTool && AllTags[3] == ImageOnlyPdf
    ensures AllTags[4] == ImageHeavyPdf && AllTags[5] == ScreenResolution
    ensures AllTags[6] == LowQualityImage && AllTags[7] == RecentCreationTimestamp
    ensures AllTags[8] == CaptureToolDetected && AllTags[9] == DownloadIndicators
    ensures AllTags[10] == ScannedDocumentCharacteristics
  {
  }

  /** The first six steps of Select. */
  lemma SelectFirstSteps(fs: seq<bool>)
    requires |fs| == |AllTags|
    ensures FilterUpTo(fs, AllTags, 6) ==
      [] + Pick(fs[0], FileTooRecent) + Pick(fs[1], SuspiciousFilename)
         + Pick(fs[2], ImageConversionTool) + Pick(fs[3], ImageOnlyPdf)
         + Pick(fs[4], ImageHeavyPdf) + Pick(fs[5], ScreenResolution)
  {
    TagsAt();
    assert FilterUpTo(fs, AllTags, 2) == [] + Pick(fs[0], FileTooRecent) + Pick(fs[1], SuspiciousFilename);
    assert FilterUpTo(fs, AllTags, 4) == FilterUpTo(fs, AllTags, 2)
      + Pick(fs[2], ImageConversionTool) + Pick(fs[3], ImageOnlyPdf);
  }

  /** Select, unrolled into the eleven conditional appends. */
  lemma SelectSteps(fs: seq<bool>)
    requires |fs| == |AllTags|
    ensures Select(fs) ==
      [] + Pick(fs[0], FileTooRecent) + Pick(fs[1], SuspiciousFilename)
         + Pick(fs[2], ImageConversionTool) + Pick(fs[3], ImageOnlyPdf)
         + Pick(fs[4], ImageHeavyPdf) + Pick(fs[5], ScreenResolution)
         + Pick(fs[6], LowQualityImage) + Pick(fs[7], RecentCreationTimestamp)
         + Pick(fs[8], CaptureToolDetected) + Pick(fs[9], DownloadIndicators)
         + Pick(fs[10], ScannedDocumentCharacteristics)
  {
    TagsAt();
    SelectFirstSteps(fs);
    assert FilterUpTo(fs, AllTags, 8) == FilterUpTo(fs, AllTags, 6)
      + Pick(fs[6], LowQualityImage) + Pick(fs[7], RecentCreationTimestamp);
    assert FilterUpTo(fs, AllTags, 10) == FilterUpTo(fs, AllTags, 8)
      + Pick(fs[8], CaptureToolDetected) + Pick(fs[9], DownloadIndicators);
  }

  /** Detected, unrolled into the eleven conditional appends of the method. */
  lemma DetectedSteps(f: UploadedFile, now: int, strtotime: string -> Option<int>)
    ensures Detected(f, now, strtotime) ==
      [] + Pick(now - f.mtime < 30, FileTooRecent)
         + Pick(AnyContainsCI(f.fileName, FilenameKeywords), SuspiciousFilename)
         + Pick(AnyContainsCI(f.content, SuspiciousProducers), ImageConversionTool)
         + Pick(ImageOnly(f.content), ImageOnlyPdf)
         + Pick(ImageHeavy(f.content), ImageHeavyPdf)
         + Pick(ScreenResolutionMatch(f.content), ScreenResolution)
         + Pick(LowBitDepth(f.content), LowQualityImage)
         + Pick(RecentCreation(f.content, now, strtotime), RecentCreationTimestamp)
         + Pick(AnyContainsCI(f.content, CaptureIndicators), CaptureToolDetected)
         + Pick(HasDownloadMarkers(f), DownloadIndicators)
         + Pick(ScannedCharacteristics(f.content), ScannedDocumentCharacteristics)
  {
    SelectSteps(Flags(f, now, strtotime));
  }

  /** The detected list holds only vocabulary tags, each once, in check order. */
  lemma DetectedShape(f: UploadedFile, now: int, strtotime: string -> Option<int>)
    ensures forall t :: t in Detected(f, now, strtotime) ==> t in AllTags
    ensures |Detected(f, now, strtotime)| <= |AllTags|
    ensures forall a, b :: 0 <= a < b < |Detected(f, now, strtotime)| ==>
              IndexOf(AllTags, Detected(f, now, strtotime)[a]) <
              IndexOf(AllTags, Detected(f, now, strtotime)[b])
  {
    AllTagsDistinct();
    FilterFacts(Flags(f, now, strtotime), AllTags);
  }


  // ------------------------------------------------------------ the method

  /**
   * A foreach over `needles` that appends `tag` and stops at the first
   * stripos hit (blocks 2, 4 and 9; block 2's alternation behaves the same).
   */
  method AppendOnFirstHit(s: string, needles: seq<string>, tag: Pattern, patterns: seq<Pattern>)
    returns (r: seq<Pattern>)
    ensures r == patterns + Pick(AnyContainsCI(s, needles), tag)
  {
    r := patterns;
    for j := 0 to |needles|
      invariant r == patterns
      invariant forall m :: 0 <= m < j ==> !ContainsCI(s, needles[m])
    {
      if ContainsCI(s, needles[j]) {
        r := r + [tag];
        break;
      }
    }
  }

  /** Block 5: the /XObject and /Image markers, then substr_count of /Image and /Text. */
  method ImageMarkerChecks(content: string, patterns: seq<Pattern>) returns (r: seq<Pattern>)
    ensures r == patterns + Pick(ImageOnly(content), ImageOnlyPdf) + Pick(ImageHeavy(content), ImageHeavyPdf)
  {
    r := patterns;
    if Contains(content, "/XObject") && Contains(content, "/Image") {
      var imageCount := CountOccurrences(content, "/Image");
      var textCount := CountOccurrences(content, "/Text");
      if imageCount > 0 && textCount == 0 {
        r := r + [ImageOnlyPdf];
      }
      if imageCount > textCount * 2 {
        r := r + [ImageHeavyPdf];
      }
    }
  }

  /** Block 6: the first /Width and /Height values against the screen resolutions. */
  method ScreenResolutionCheck(content: string, patterns: seq<Pattern>) returns (r: seq<Pattern>)
    ensures r == patterns + Pick(ScreenResolutionMatch(content), ScreenResolution)
  {
    r := patterns;
    var widthMatch := FirstKeyNumber(content, "/Width", 0);
    var heightMatch := FirstKeyNumber(content, "/Height", 0);
    if widthMatch.Some? && heightMatch.Some? {
      var width := IntVal(widthMatch.value);
      var height := IntVal(heightMatch.value);
      for j := 0 to |ScreenResolutions|
        invariant r == patterns
        invariant forall m :: 0 <= m < j ==> !NearResolution(width, height, ScreenResolutions[m])
      {
        var (w, h) := ScreenResolutions[j];
        if Abs(width - w) < 50 && Abs(height - h) < 50 {
          r := r + [ScreenResolution];
          break;
        }
      }
    }
  }

  /** Block 7: the first /BitsPerComponent value. */
  method BitDepthCheck(content: string, patterns: seq<Pattern>) returns (r: seq<Pattern>)
    ensures r == patterns + Pick(LowBitDepth(content), LowQualityImage)
  {
    r := patterns;
    var bitsMatch := FirstKeyNumber(content, "/BitsPerComponent", 0);
    if bitsMatch.Some? {
      var bits := IntVal(bitsMatch.value);
      if bits <= 8 {
        r := r + [LowQualityImage];
      }
    }
  }

  /** Block 8: the embedded creation date, parsed by strtotime, against time(). */
  method CreationDateCheck(content: string, now: int, strtotime: string -> Option<int>,
                           patterns: seq<Pattern>) returns (r: seq<Pattern>)
    ensures r == patterns + Pick(RecentCreation(content, now, strtotime), RecentCreationTimestamp)
  {
    r := patterns;
    var dateMatch := FirstCreationDate(content, 0);
    if dateMatch.Some? {
      var creationTime := CreationTime(dateMatch.value, strtotime);
      if Abs(now - creationTime) < 300 {
        r := r + [RecentCreationTimestamp];
      }
    }
  }

  /** Block 10: "download" or "temp" in the bytes or the name, case-sensitive. */
  method DownloadCheck(f: UploadedFile, patterns: seq<Pattern>) returns (r: seq<Pattern>)
    ensures r == patterns + Pick(HasDownloadMarkers(f), DownloadIndicators)
  {
    r := patterns;
    if Contains(f.content, "download") || Contains(f.content, "temp") ||
       Contains(f.fileName, "download") || Contains(f.fileName, "temp") {
      r := r + [DownloadIndicators];
    }
  }

  /** Block 11: an RGB colour space and no font. */
  method ScanCheck(content: string, patterns: seq<Pattern>) returns (r: seq<Pattern>)
    ensures r == patterns + Pick(ScannedCharacteristics(content), ScannedDocumentCharacteristics)
  {
    r := patterns;
    if HasDeviceRgb(content) && !Contains(content, "/Font") {
      r := r + [ScannedDocumentCharacteristics];
    }
  }

  /**
   * detectCopyPastePatterns: `now` is time(), `strtotime` parses the
   * embedded creation date. Each numbered block appends its pattern when
   * its check fires, so the result is the fired patterns in check order.
   */
  method DetectCopyPastePatterns(f: UploadedFile, now: int, strtotime: string -> Option<int>)
    returns (patterns: seq<Pattern>)
    ensures patterns == Detected(f, now, strtotime)
  {
    var content := f.content;
    patterns := [];
    // 1. file age
    var fileAge := now - f.mtime;
    if fileAge < 30 {
      patterns := patterns + [FileTooRecent];
    }
    assert patterns == [] + Pick(now - f.mtime < 30, FileTooRecent);
    // 2. file name keywords
    patterns := AppendOnFirstHit(f.fileName, FilenameKeywords, SuspiciousFilename, patterns);
    // 4. image-to-PDF producers
    patterns := AppendOnFirstHit(content, SuspiciousProducers, ImageConversionTool, patterns);
    // 5. image versus text markers
    patterns := ImageMarkerChecks(content, patterns);
    // 6. screen resolutions
    patterns := ScreenResolutionCheck(content, patterns);
    // 7. bits per component
    patterns := BitDepthCheck(content, patterns);
    // 8. embedded creation date close to now
    patterns := CreationDateCheck(content, now, strtotime, patterns);
    // 9. capture tools
    patterns := AppendOnFirstHit(content, CaptureIndicators, CaptureToolDetected, patterns);
    // 10. download or temporary files
    patterns := DownloadCheck(f, patterns);
    // 11. scanned or photographed pages
    patterns := ScanCheck(content, patterns);
    DetectedSteps(f, now, strtotime);
  }

  // ------------------------------------------------------------ properties

  /** Tag `i` of the vocabulary is reported exactly when check `i` fires. */
  lemma TagFiresIff(f: UploadedFile, now: int, strtotime: string -> Option<int>, i: int)
    requires 0 <= i < |AllTags|
    ensures AllTags[i] in Detected(f, now, strtotime) <==> Flags(f, now, strtotime)[i]
  {
    AllTagsDistinct();
    FilterFacts(Flags(f, now, strtotime), AllTags);
  }

  /** The result has no duplicates. */
  lemma DetectedDistinct(f: UploadedFile, now: int, strtotime: string -> Option<int>)
    ensures Distinct(Detected(f, now, strtotime))
  {
    var r := Detected(f, now, strtotime);
    AllTagsDistinct();
    FilterFacts(Flags(f, now, strtotime), AllTags);
    forall a, b | 0 <= a < b < |r| ensures r[a] != r[b] {
      assert IndexOf(AllTags, r[a]) < IndexOf(AllTags, r[b]);
    }
  }

  /** file_too_recent fires iff the file is less than 30 seconds old. */
  lemma FileTooRecentIff(f: UploadedFile, now: int, strtotime: string -> Option<int>)
    ensures FileTooRecent in Detected(f, now, strtotime) <==> now - f.mtime < 30
  {
    TagFiresIff(f, now, strtotime, 0);
  }

  /** image_only_pdf fires iff /XObject and /Image occur and /Text does not. */
  lemma ImageOnlyIff(f: UploadedFile, now: int, strtotime: string -> Option<int>)
    ensures ImageOnlyPdf in Detected(f, now, strtotime) <==>
            Contains(f.content, "/XObject") && Contains(f.content, "/Image") &&
            !Contains(f.content, "/Text")
  {
    TagFiresIff(f, now, strtotime, 3);
    CountZeroIffAbsent(f.content, "/Image");
    CountZeroIffAbsent(f.content, "/Text");
  }

  /** image_only_pdf never comes without image_heavy_pdf; both need /XObject and /Image. */
  lemma ImageOnlyImpliesHeavy(f: UploadedFile, now: int, strtotime: string -> Option<int>)
    ensures ImageOnlyPdf in Detected(f, now, strtotime) ==> ImageHeavyPdf in Detected(f, now, strtotime)
    ensures ImageHeavyPdf in Detected(f, now, strtotime) ==> HasImageMarkers(f.content)
  {
    TagFiresIff(f, now, strtotime, 3);
    TagFiresIff(f, now, strtotime, 4);
  }

  /** low_quality_image fires iff the first /BitsPerComponent value is at most 8. */
  lemma LowQualityIff(f: UploadedFile, now: int, strtotime: string -> Option<int>)
    ensures LowQualityImage in Detected(f, now, strtotime) <==>
            var b := FirstKeyNumber(f.content, "/BitsPerComponent", 0);
            b.Some? && IntVal(b.value) <= 8
  {
    TagFiresIff(f, now, strtotime, 6);
  }

  /** recent_creation_timestamp fires iff the parsed creation date is within 300 s of now. */
  lemma RecentCreationIff(f: UploadedFile, now: int, strtotime: string -> Option<int>)
    ensures RecentCreationTimestamp in Detected(f, now, strtotime) <==>
            var d := FirstCreationDate(f.content, 0);
            d.Some? && -300 < now - CreationTime(d.value, strtotime) < 300
  {
    TagFiresIff(f, now, strtotime, 7);
  }

  /** screen_resolution_match fires iff the first /Width and /Height are each within 49 of a listed pair. */
  lemma ScreenResolutionIff(f: UploadedFile, now: int, strtotime: string -> Option<int>)
    ensures ScreenResolution in Detected(f, now, strtotime) <==>
            var w := FirstKeyNumber(f.content, "/Width", 0);
            var h := FirstKeyNumber(f.content, "/Height", 0);
            w.Some? && h.Some? &&
            exists j | 0 <= j < |ScreenResolutions| ::
              -49 <= IntVal(w.value) - ScreenResolutions[j].0 <= 49 &&
              -49 <= IntVal(h.value) - ScreenResolutions[j].1 <= 49
  {
    TagFiresIff(f, now, strtotime, 5);
  }

  /**
   * The file-name keywords are matched case-insensitively, while the
   * download/temp markers are case-sensitive and are looked for in both the
   * bytes and the file name.
   */
  lemma NameChecksCase(f: UploadedFile, now: int, strtotime: string -> Option<int>)
    ensures SuspiciousFilename in Detected(f, now, strtotime) <==>
            exists j | 0 <= j < |FilenameKeywords| :: Contains(Lower(f.fileName), FilenameKeywords[j])
    ensures DownloadIndicators in Detected(f, now, strtotime) <==>
            Contains(f.content, "download") || Contains(f.content, "temp") ||
            Contains(f.fileName, "download") || Contains(f.fileName, "temp")
  {
    TagFiresIff(f, now, strtotime, 1);
    TagFiresIff(f, now, strtotime, 9);
    forall j | 0 <= j < |FilenameKeywords| ensures Lower(FilenameKeywords[j]) == FilenameKeywords[j] {
    }
  }

  /** An upper-case "SCREEN" in the name is a hit; an upper-case "TEMP" is not a download marker. */
  lemma CaseExample()
    ensures SuspiciousFilename in Detected(UploadedFile("SCREEN.pdf", "", 0), 100, _ => None)
    ensures DownloadIndicators !in Detected(UploadedFile("TEMP.pdf", "", 0), 100, _ => None)
  {
    var f1 := UploadedFile("SCREEN.pdf", "", 0);
    assert Lower("SCREEN.pdf") == "screen.pdf";
    assert Lower("screen") == "screen";
    assert OccursAt(Lower(f1.fileName), Lower("screen"), 0);
    assert ContainsCI(f1.fileName, FilenameKeywords[3]);
    TagFiresIff(f1, 100, _ => None, 1);
    var f2 := UploadedFile("TEMP.pdf", "", 0);
    NotContainsTempMarkers();
    TagFiresIff(f2, 100, _ => None, 9);
  }

  lemma NotContainsTempMarkers()
    ensures !Contains("TEMP.pdf", "download") && !Contains("TEMP.pdf", "temp")
  {
    assert "TEMP.pdf"[0] != "download"[0];
    assert !OccursAt("TEMP.pdf", "download", 0);
    forall i | 0 <= i <= 4 ensures !OccursAt("TEMP.pdf", "temp", i) {
      assert "TEMP.pdf"[i] != 't';
    }
  }
}
