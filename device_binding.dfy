/**
 * DeviceBindingService: the acl_usuario_device table of (user, device
 * fingerprint) registrations, the trust check that stamps last_seen, the
 * suspicious-activity indicators, the user-agent denylist, and the gate that
 * decides whether a device may be attached to a document binding.
 */
module DeviceBinding {
  import opened Wrappers
  import opened Text
  import opened Sequences
  import opened Platform

  // ------------------------------------------------------------ the data

  datatype Status = Active | Inactive | Blocked

  /**
   * The registration_context array: the request IP and user agent (either
   * may be null), the registration time, how the device was registered, and
   * any further caller-supplied entries.
   */
  datatype RegistrationContext = RegistrationContext(
    ipAddress: Option<string>,
    userAgent: Option<string>,
    timestamp: int,
    registrationMethod: string,
    extra: seq<(string, Option<string>)>)

  /** A row of acl_usuario_device; trust_level is decimal(3,2), kept in hundredths. */
  datatype Device = Device(
    rowId: nat,
    deviceId: string,
    userMatricula: string,
    fingerprint: string,
    firstSeen: int,
    lastSeen: int,
    trustLevel: int,
    registrationContext: RegistrationContext,
    status: Status)

  /** The headers createDevice hashes. */
  datatype DeviceHeaders = DeviceHeaders(
    userAgent: Option<string>,
    ipAddress: Option<string>,
    deviceId: Option<string>,
    deviceType: Option<string>,
    deviceModel: Option<string>,
    deviceOs: Option<string>,
    deviceOsVersion: Option<string>)

  /** The array verifyDeviceTrust returns. */
  datatype TrustResult =
    | NotRegistered
    | LowTrust(trustLevel: int)
    | Trusted(deviceId: string, trustLevel: int, lastSeen: int)
  {
    function Reason(): string
      requires !Trusted?
    {
      if NotRegistered? then "device_not_registered" else "low_trust_level"
    }
  }

  datatype Indicator = MultipleDevicesShortTime | SuspiciousLocation | SuspiciousUserAgent
  {
    function Name(): string {
      match this
      case MultipleDevicesShortTime => "multiple_devices_short_time"
      case SuspiciousLocation => "suspicious_location"
      case SuspiciousUserAgent => "suspicious_user_agent"
    }
  }

  /** The array enhanceDocumentBinding returns. */
  datatype Enhancement = Enhancement(deviceId: string, trustLevel: int, suspiciousIndicators: seq<Indicator>)

  /** trust_level of a new registration, 1.0 */
  const FULL_TRUST: int := 100
  /** the `< 0.5` threshold of verifyDeviceTrust */
  const MIN_TRUST: int := 50
  /** now()->subHours(1) */
  const RECENT_WINDOW: int := SECONDS_PER_HOUR

  /** The marker by which callers recognise a rejection. */
  const REJECTED_MARK: string := "DOCUMENTO REJEITADO"
  const REJECTED_UNTRUSTED: string := REJECTED_MARK + ": Dispositivo não confiável detectado. Razão: "
  const REJECTED_CROSS_DEVICE: string :=
    REJECTED_MARK + ": Padrão de uso suspeito detectado - possível fraude cross-device"

  // -------------------------------------------------------- fingerprint

  /** createDevice: the SHA-256 of the serialized seven-header array. */
  function CreateDevice(p: Primitives, h: DeviceHeaders): (fingerprint: string)
    ensures IsLowerHex(fingerprint)
    ensures DigestLength(p) ==> |fingerprint| == 64
  {
    Sha256Hex(p, SerializeArray([
      ("user_agent", h.userAgent), ("ip_address", h.ipAddress), ("device_id", h.deviceId),
      ("device_type", h.deviceType), ("device_model", h.deviceModel), ("device_os", h.deviceOs),
      ("device_os_version", h.deviceOsVersion)]))
  }

  /** 'dev_' . bin2hex(random_bytes(16)) */
  function DeviceId(randomBytes: string): string
    requires |randomBytes| == 16
  {
    PrefixedHexId("dev_", randomBytes)
  }

  // ------------------------------------------------------ trust lookup

  /** The where-clause of verifyDeviceTrust. */
  predicate MatchesActive(d: Device, matricula: string, fingerprint: string) {
    d.userMatricula == matricula && d.fingerprint == fingerprint && d.status == Active
  }

  /** ->first(): the first row that matches. */
  function FindActive(rows: seq<Device>, matricula: string, fingerprint: string): (r: Option<nat>)
    ensures r.Some? ==> r.value < |rows| && MatchesActive(rows[r.value], matricula, fingerprint)
    ensures r.Some? ==> forall j :: 0 <= j < r.value ==> !MatchesActive(rows[j], matricula, fingerprint)
    ensures r.None? ==> forall j :: 0 <= j < |rows| ==> !MatchesActive(rows[j], matricula, fingerprint)
  {
    if rows == [] then None
    else if MatchesActive(rows[0], matricula, fingerprint) then Some(0)
    else match FindActive(rows[1..], matricula, fingerprint)
      case None => None
      case Some(i) => Some(i + 1)
  }

  /** The verdict of verifyDeviceTrust; the last_seen it reports is the one read before the update. */
  function TrustOf(rows: seq<Device>, matricula: string, fingerprint: string): TrustResult {
    match FindActive(rows, matricula, fingerprint)
    case None => NotRegistered
    case Some(i) =>
      if rows[i].trustLevel < MIN_TRUST then LowTrust(rows[i].trustLevel)
      else Trusted(rows[i].deviceId, rows[i].trustLevel, rows[i].lastSeen)
  }

  /** The table after verifyDeviceTrust: the found row's last_seen set to now. */
  function Touched(rows: seq<Device>, matricula: string, fingerprint: string, now: int): seq<Device> {
    match FindActive(rows, matricula, fingerprint)
    case None => rows
    case Some(i) => rows[i := rows[i].(lastSeen := now)]
  }

  /**
   * Not registered exactly when no active row has this user and
   * fingerprint; otherwise the verdict is the first such row's, trusted
   * from 0.5 up.
   */
  lemma TrustOfIff(rows: seq<Device>, matricula: string, fingerprint: string)
    ensures TrustOf(rows, matricula, fingerprint).NotRegistered? <==>
      forall j :: 0 <= j < |rows| ==> !MatchesActive(rows[j], matricula, fingerprint)
    ensures TrustOf(rows, matricula, fingerprint).Trusted? ==>
      exists j :: 0 <= j < |rows| && MatchesActive(rows[j], matricula, fingerprint)
        && rows[j].trustLevel >= MIN_TRUST
        && TrustOf(rows, matricula, fingerprint) == Trusted(rows[j].deviceId, rows[j].trustLevel, rows[j].lastSeen)
    ensures TrustOf(rows, matricula, fingerprint).LowTrust? ==>
      exists j :: 0 <= j < |rows| && MatchesActive(rows[j], matricula, fingerprint)
        && rows[j].trustLevel < MIN_TRUST
  {
    match FindActive(rows, matricula, fingerprint)
    case None =>
    case Some(i) =>
  }

  /** A matching row at exactly 0.5 is trusted. */
  lemma HalfTrustIsTrusted(rows: seq<Device>, matricula: string, fingerprint: string)
    requires |rows| >= 1 && MatchesActive(rows[0], matricula, fingerprint) && rows[0].trustLevel == MIN_TRUST
    ensures TrustOf(rows, matricula, fingerprint) == Trusted(rows[0].deviceId, MIN_TRUST, rows[0].lastSeen)
  {
  }

  /** Rows that agree on everything but last_seen. */
  predicate SameButLastSeen(a: seq<Device>, b: seq<Device>) {
    |a| == |b| && forall j :: 0 <= j < |a| ==> a[j].(lastSeen := 0) == b[j].(lastSeen := 0)
  }

  /**
   * The trust check changes at most one row, the matched one, and in that
   * row only last_seen.
   */
  lemma TouchedOnlyStampsLastSeen(rows: seq<Device>, matricula: string, fingerprint: string, now: int)
    ensures var t := Touched(rows, matricula, fingerprint, now);
      && SameButLastSeen(rows, t)
      && (forall j :: 0 <= j < |rows| && t[j] != rows[j] ==>
            MatchesActive(rows[j], matricula, fingerprint) && t[j].lastSeen == now)
      && (forall j, k :: 0 <= j < k < |rows| && t[j] != rows[j] ==> t[k] == rows[k])
  {
  }

  // ------------------------------------------------- activity indicators

  /** The user's rows of any status with first_seen strictly within the last hour, among the first k. */
  function CountRecentUpTo(rows: seq<Device>, matricula: string, now: int, k: nat): (n: nat)
    requires k <= |rows|
    ensures n <= k
  {
    if k == 0 then 0
    else CountRecentUpTo(rows, matricula, now, k - 1)
         + (if rows[k - 1].userMatricula == matricula && rows[k - 1].firstSeen > now - RECENT_WINDOW then 1 else 0)
  }

  function CountRecent(rows: seq<Device>, matricula: string, now: int): nat {
    CountRecentUpTo(rows, matricula, now, |rows|)
  }

  /** The count reads only the user and first_seen of each row. */
  lemma {:induction false} CountRecentUpToAgrees(a: seq<Device>, b: seq<Device>, matricula: string, now: int, k: nat)
    requires k <= |a| == |b|
    requires forall j :: 0 <= j < |a| ==> a[j].userMatricula == b[j].userMatricula && a[j].firstSeen == b[j].firstSeen
    ensures CountRecentUpTo(a, matricula, now, k) == CountRecentUpTo(b, matricula, now, k)
  {
    if k > 0 {
      CountRecentUpToAgrees(a, b, matricula, now, k - 1);
    }
  }

  /** $userDevices: the user's active rows, in table order. */
  function ActiveDevices(rows: seq<Device>, matricula: string): (r: seq<Device>)
    ensures forall d :: d in r <==> d in rows && d.userMatricula == matricula && d.status == Active
  {
    if rows == [] then []
    else (if rows[0].userMatricula == matricula && rows[0].status == Active then [rows[0]] else [])
         + ActiveDevices(rows[1..], matricula)
  }

  /**
   * isset($context['ip_address']) && $context['ip_address'] !== $currentIP:
   * a registration IP that is set and differs (a null current IP differs
   * from every set one).
   */
  predicate LocationDiffers(d: Device, currentIp: Option<string>) {
    d.registrationContext.ipAddress.Some? && d.registrationContext.ipAddress != currentIp
  }

  predicate LocationSuspicious(devices: seq<Device>, currentIp: Option<string>) {
    exists d | d in devices :: LocationDiffers(d, currentIp)
  }

  /** detectSuspiciousLocation: the first device registered from another IP decides. */
  method DetectSuspiciousLocation(currentIp: Option<string>, userDevices: seq<Device>) returns (r: bool)
    ensures r == LocationSuspicious(userDevices, currentIp)
  {
    for k := 0 to |userDevices|
      invariant forall j :: 0 <= j < k ==> !LocationDiffers(userDevices[j], currentIp)
    {
      if userDevices[k].registrationContext.ipAddress.Some?
         && userDevices[k].registrationContext.ipAddress != currentIp {
        assert userDevices[k] in userDevices;
        return true;
      }
    }
    return false;
  }

  // ---------------------------------------------------- user-agent list

  /** The kinds of pattern in isSuspiciousUserAgent's list. */
  datatype UaPattern =
    /** /^Mozilla\/5\.0$/i */
    | BareMozilla
    /** a literal under /i */
    | Literal(text: string)
    /** /MSIE [1-6]\./i */
    | OldMsie
    /** /[<>{}]/i */
    | MarkupChar
    /** /.{500,}/ */
    | LongLine

  const UaPatterns: seq<UaPattern> := [
    BareMozilla, Literal("curl"), Literal("wget"), Literal("python"), Literal("bot"),
    Literal("crawl"), Literal("spider"), Literal("scraper"), OldMsie, MarkupChar, LongLine,
    Literal("PostmanRuntime"), Literal("Insomnia"), Literal("HTTPie"), Literal("Apache-HttpClient")]

  const LONG_LINE: nat := 500

  predicate OldMsieAt(s: string, i: int) {
    OccursAt(Lower(s), "msie ", i) && i + 6 < |s| && '1' <= s[i + 5] <= '6' && s[i + 6] == '.'
  }

  /** 500 characters other than a newline starting at `i` (`.` does not match `\n`). */
  predicate LongLineAt(s: string, i: int) {
    0 <= i && i + LONG_LINE <= |s| && '\n' !in s[i..i + LONG_LINE]
  }

  predicate UaMatches(p: UaPattern, ua: string) {
    match p
    // `$` also matches before a final newline
    case BareMozilla => Lower(ua) == "mozilla/5.0" || Lower(ua) == "mozilla/5.0\n"
    case Literal(t) => ContainsCI(ua, t)
    case OldMsie => exists i | 0 <= i < |ua| :: OldMsieAt(ua, i)
    case MarkupChar => exists i | 0 <= i < |ua| :: ua[i] in "<>{}"
    case LongLine => exists i | 0 <= i <= |ua| - LONG_LINE :: LongLineAt(ua, i)
  }

  /** PHP's empty() on a header value: null, '' and '0'. */
  predicate EmptyHeader(ua: Option<string>) {
    ua.None? || ua.value == "" || ua.value == "0"
  }

  predicate IsSuspiciousUa(ua: Option<string>) {
    EmptyHeader(ua) || exists k | 0 <= k < |UaPatterns| :: UaMatches(UaPatterns[k], ua.value)
  }

  /** isSuspiciousUserAgent: empty, or the first pattern of the list that matches. */
  method IsSuspiciousUserAgent(ua: Option<string>) returns (r: bool)
    ensures r == IsSuspiciousUa(ua)
  {
    if ua.None? || ua.value == "" || ua.value == "0" {
      return true;
    }
    for k := 0 to |UaPatterns|
      invariant forall j :: 0 <= j < k ==> !UaMatches(UaPatterns[j], ua.value)
    {
      if UaMatches(UaPatterns[k], ua.value) {
        return true;
      }
    }
    return false;
  }

  /** The curl client's own user agent is flagged. */
  lemma CurlIsSuspicious()
    ensures IsSuspiciousUa(Some("curl/7.68.0"))
  {
    var ua := "curl/7.68.0";
    assert Lower(ua)[0..4] == "curl";
    assert OccursAt(Lower(ua), Lower("curl"), 0);
    assert UaMatches(UaPatterns[1], ua);
  }

  /** A user agent carrying 500 or more characters without a newline is flagged, whatever they are. */
  lemma LongUaIsSuspicious(ua: string)
    requires |ua| >= LONG_LINE && '\n' !in ua
    ensures IsSuspiciousUa(Some(ua))
  {
    assert '\n' !in ua[0..LONG_LINE];
    assert LongLineAt(ua, 0);
    assert UaMatches(UaPatterns[10], ua);
  }

  /** A header consisting of "0" counts as empty and is flagged. */
  lemma ZeroUaIsSuspicious()
    ensures IsSuspiciousUa(Some("0")) && IsSuspiciousUa(None) && IsSuspiciousUa(Some(""))
  {
  }

  /** Any of `<`, `>`, `{`, `}` anywhere flags the header. */
  lemma MarkupUaIsSuspicious(ua: string, i: int)
    requires 0 <= i < |ua| && ua[i] in "<>{}"
    ensures IsSuspiciousUa(Some(ua))
  {
    assert UaMatches(UaPatterns[9], ua);
  }

  // -------------------------------------------- the indicators together

  /**
   * detectSuspiciousDeviceActivity, in append order: more than two of the
   * user's rows first seen in the last hour, a registration IP other than
   * the current one among the user's active rows, a suspicious user agent.
   */
  function Activity(rows: seq<Device>, matricula: string, currentIp: Option<string>, ua: Option<string>, now: int)
    : seq<Indicator>
  {
    Pick(CountRecent(rows, matricula, now) > 2, MultipleDevicesShortTime)
    + Pick(LocationSuspicious(ActiveDevices(rows, matricula), currentIp), SuspiciousLocation)
    + Pick(IsSuspiciousUa(ua), SuspiciousUserAgent)
  }

  /**
   * The indicators repeat nothing, keep their order, and each fires exactly on
   * its own condition; suspicious_location looks only at the user's active
   * rows whose registration IP is set.
   */
  lemma ActivityFacts(rows: seq<Device>, matricula: string, currentIp: Option<string>, ua: Option<string>, now: int)
    ensures var a := Activity(rows, matricula, currentIp, ua, now);
      && |a| <= 3 && Distinct(a)
      && (MultipleDevicesShortTime in a <==> CountRecent(rows, matricula, now) > 2)
      && (SuspiciousLocation in a <==>
            exists j :: 0 <= j < |rows| && rows[j].userMatricula == matricula && rows[j].status == Active
              && LocationDiffers(rows[j], currentIp))
      && (SuspiciousUserAgent in a <==> IsSuspiciousUa(ua))
  {
    var a := Activity(rows, matricula, currentIp, ua, now);
    var active := ActiveDevices(rows, matricula);
    if LocationSuspicious(active, currentIp) {
      var d :| d in active && LocationDiffers(d, currentIp);
      var j :| 0 <= j < |rows| && rows[j] == d;
    }
    if exists j :: 0 <= j < |rows| && rows[j].userMatricula == matricula && rows[j].status == Active
                   && LocationDiffers(rows[j], currentIp) {
      var j :| 0 <= j < |rows| && rows[j].userMatricula == matricula && rows[j].status == Active
               && LocationDiffers(rows[j], currentIp);
      assert rows[j] in active;
    }
  }

  /**
   * Stamping last_seen leaves the indicators as they were, so it does not
   * matter that the trust check runs first.
   */
  lemma ActivityIgnoresLastSeen(a: seq<Device>, b: seq<Device>, matricula: string, currentIp: Option<string>,
                                ua: Option<string>, now: int)
    requires SameButLastSeen(a, b)
    ensures Activity(a, matricula, currentIp, ua, now) == Activity(b, matricula, currentIp, ua, now)
  {
    forall j | 0 <= j < |a|
      ensures a[j].userMatricula == b[j].userMatricula && a[j].firstSeen == b[j].firstSeen
    {
      SameButLastSeenAt(a, b, j);
    }
    CountRecentUpToAgrees(a, b, matricula, now, |a|);
    LocationIgnoresLastSeen(a, b, matricula, currentIp);
    LocationIgnoresLastSeen(b, a, matricula, currentIp);
  }

  lemma SameButLastSeenAt(a: seq<Device>, b: seq<Device>, j: int)
    requires SameButLastSeen(a, b) && 0 <= j < |a|
    ensures a[j].userMatricula == b[j].userMatricula && a[j].firstSeen == b[j].firstSeen
    ensures a[j].status == b[j].status && a[j].registrationContext == b[j].registrationContext
  {
    assert a[j].(lastSeen := 0) == b[j].(lastSeen := 0);
  }

  lemma LocationIgnoresLastSeen(a: seq<Device>, b: seq<Device>, matricula: string, currentIp: Option<string>)
    requires SameButLastSeen(a, b)
    ensures LocationSuspicious(ActiveDevices(a, matricula), currentIp) ==>
            LocationSuspicious(ActiveDevices(b, matricula), currentIp)
  {
    var da := ActiveDevices(a, matricula);
    var db := ActiveDevices(b, matricula);
    if LocationSuspicious(da, currentIp) {
      var d :| d in da && LocationDiffers(d, currentIp);
      var j :| 0 <= j < |a| && a[j] == d;
      SameButLastSeenAt(a, b, j);
      assert b[j] in db;
      assert LocationDiffers(b[j], currentIp);
    }
  }

  // ------------------------------------------------------------ the table

  /** acl_usuario_device, with its auto-increment id counter. */
  class DeviceRegistry {
    var rows: seq<Device>
    var nextRowId: nat

    /** The unique columns: id and device_id. */
    predicate Valid()
      reads this
    {
      (forall j :: 0 <= j < |rows| ==> rows[j].rowId < nextRowId)
      && (forall j, k :: 0 <= j < k < |rows| ==> rows[j].rowId != rows[k].rowId && rows[j].deviceId != rows[k].deviceId)
    }

    constructor()
      ensures Valid() && rows == [] && nextRowId == 0
    {
      rows := [];
      nextRowId := 0;
    }

    predicate HasDeviceId(id: string)
      reads this
    {
      exists j | 0 <= j < |rows| :: rows[j].deviceId == id
    }

    /**
     * registerDevide: one active row with trust 1.0 and first_seen =
     * last_seen = now; a device_id already present violates the unique key
     * and nothing is stored.
     */
    method RegisterDevide(matricula: string, fingerprint: string, context: RegistrationContext,
                          randomBytes: string, now: int)
      returns (r: Result<string>)
      requires Valid() && |randomBytes| == 16
      modifies this
      ensures Valid()
      ensures r.Ok? <==> !old(HasDeviceId(DeviceId(randomBytes)))
      ensures r.Ok? ==> (r.value == DeviceId(randomBytes)
        && rows == old(rows) + [Device(old(nextRowId), r.value, matricula, fingerprint, now, now, FULL_TRUST,
                                       context, Active)])
      ensures r.Err? ==> rows == old(rows)
    {
      var dvcId := DeviceId(randomBytes);
      if exists j | 0 <= j < |rows| :: rows[j].deviceId == dvcId {
        return Err("Duplicate entry for key 'acl_usuario_device_device_id_unique'");
      }
      rows := rows + [Device(nextRowId, dvcId, matricula, fingerprint, now, now, FULL_TRUST, context, Active)];
      nextRowId := nextRowId + 1;
      return Ok(dvcId);
    }

    /**
     * verifyDeviceTrust: the first active row of this user and fingerprint
     * gets last_seen = now, then its trust level decides.
     */
    method VerifyDeviceTrust(matricula: string, fingerprint: string, now: int) returns (r: TrustResult)
      requires Valid()
      modifies this
      ensures Valid() && nextRowId == old(nextRowId)
      ensures r == TrustOf(old(rows), matricula, fingerprint)
      ensures rows == Touched(old(rows), matricula, fingerprint, now)
    {
      var found := FindActive(rows, matricula, fingerprint);
      if found.None? {
        return NotRegistered;
      }
      var device := rows[found.value];
      // update ... where id = $device->id: the row ids are unique, so this is the one row
      rows := rows[found.value := device.(lastSeen := now)];
      if device.trustLevel < MIN_TRUST {
        return LowTrust(device.trustLevel);
      }
      return Trusted(device.deviceId, device.trustLevel, device.lastSeen);
    }

    /**
     * detectSuspiciousDeviceActivity. The fingerprint argument is never read:
     * the result is the same for every fingerprint.
     */
    method DetectSuspiciousDeviceActivity(matricula: string, fingerprint: string, currentIp: Option<string>,
                                          ua: Option<string>, now: int)
      returns (indicators: seq<Indicator>)
      ensures indicators == Activity(rows, matricula, currentIp, ua, now)
    {
      indicators := [];
      var recentDevices := CountRecent(rows, matricula, now);
      if recentDevices > 2 {
        indicators := indicators + [MultipleDevicesShortTime];
      }
      var userDevices := ActiveDevices(rows, matricula);
      var suspiciousLocation := DetectSuspiciousLocation(currentIp, userDevices);
      if suspiciousLocation {
        indicators := indicators + [SuspiciousLocation];
      }
      var suspiciousUa := IsSuspiciousUserAgent(ua);
      if suspiciousUa {
        indicators := indicators + [SuspiciousUserAgent];
      }
    }

    /**
     * enhanceDocumentBinding: an untrusted device is rejected naming the
     * reason, then a device that is both one of several recent ones and
     * registered elsewhere is rejected; otherwise the device, its trust and
     * the indicators are returned. The trust check's last_seen stamp stays
     * even when the call rejects.
     */
    method EnhanceDocumentBinding(matricula: string, fingerprint: string, currentIp: Option<string>,
                                  ua: Option<string>, now: int)
      returns (r: Result<Enhancement>)
      requires Valid()
      modifies this
      ensures Valid()
      ensures rows == Touched(old(rows), matricula, fingerprint, now)
      ensures var trust := TrustOf(old(rows), matricula, fingerprint);
        var activity := Activity(old(rows), matricula, currentIp, ua, now);
        && (!trust.Trusted? ==> r == Err(REJECTED_UNTRUSTED + trust.Reason()))
        && (trust.Trusted? && MultipleDevicesShortTime in activity && SuspiciousLocation in activity ==>
              r == Err(REJECTED_CROSS_DEVICE))
        && (trust.Trusted? && !(MultipleDevicesShortTime in activity && SuspiciousLocation in activity) ==>
              r == Ok(Enhancement(trust.deviceId, trust.trustLevel, activity)))
    {
      var deviceTrust := VerifyDeviceTrust(matricula, fingerprint, now);
      if !deviceTrust.Trusted? {
        return Err(REJECTED_UNTRUSTED + deviceTrust.Reason());
      }
      TouchedOnlyStampsLastSeen(old(rows), matricula, fingerprint, now);
      ActivityIgnoresLastSeen(old(rows), rows, matricula, currentIp, ua, now);
      var suspiciousActivity := DetectSuspiciousDeviceActivity(matricula, fingerprint, currentIp, ua, now);
      if suspiciousActivity != [] {
        if MultipleDevicesShortTime in suspiciousActivity && SuspiciousLocation in suspiciousActivity {
          return Err(REJECTED_CROSS_DEVICE);
        }
      }
      return Ok(Enhancement(deviceTrust.deviceId, deviceTrust.trustLevel, suspiciousActivity));
    }
  }

  /** Every rejection of enhanceDocumentBinding carries the marker the controller looks for. */
  lemma RejectionsAreMarked(reason: string)
    ensures Contains(REJECTED_UNTRUSTED + reason, REJECTED_MARK)
    ensures Contains(REJECTED_CROSS_DEVICE, REJECTED_MARK)
  {
    MarkedPrefix(REJECTED_UNTRUSTED[|REJECTED_MARK|..] + reason);
    assert REJECTED_UNTRUSTED + reason == REJECTED_MARK + (REJECTED_UNTRUSTED[|REJECTED_MARK|..] + reason);
    MarkedPrefix(REJECTED_CROSS_DEVICE[|REJECTED_MARK|..]);
    assert REJECTED_CROSS_DEVICE == REJECTED_MARK + REJECTED_CROSS_DEVICE[|REJECTED_MARK|..];
  }

  lemma MarkedPrefix(rest: string)
    ensures Contains(REJECTED_MARK + rest, REJECTED_MARK)
  {
    assert (REJECTED_MARK + rest)[0..|REJECTED_MARK|] == REJECTED_MARK;
    assert OccursAt(REJECTED_MARK + rest, REJECTED_MARK, 0);
  }
}
