/**
 * DeviceVerificationMiddleware::handle: for an authenticated user, look the
 * request's device up in the registry, register it when unknown, refuse the
 * request on two or more suspicious indicators, and otherwise pass it on with
 * the device attributes merged in. An exception inside the check lets the
 * request through unchanged.
 */
module DeviceMiddleware {
  import opened Wrappers
  import opened Platform
  import opened DeviceBinding

  datatype AuthUser = AuthUser(id: int, matricula: string)

  /** Auth::user() (None when Auth::check() fails) and the request's headers. */
  datatype MiddlewareRequest = MiddlewareRequest(user: Option<AuthUser>, headers: DeviceHeaders)

  /** The four keys $request->merge adds. */
  datatype DeviceAttributes = DeviceAttributes(
    deviceFingerprint: string,
    deviceTrustLevel: int,
    deviceId: Option<string>,
    suspiciousIndicators: seq<Indicator>)

  datatype Outcome =
    /** $next($request), with the merged attributes when the merge was reached */
    | PassedOn(merged: Option<DeviceAttributes>)
    /** response()->json([...], 403) */
    | Refused(status: int, code: string)

  const SUSPICIOUS_DEVICE_ACTIVITY: string := "SUSPICIOUS_DEVICE_ACTIVITY"
  const AUTO_REGISTRATION: string := "auto"

  /** $trustResult['trust_level'] ?? 0 */
  function TrustLevelOrZero(t: TrustResult): int {
    match t
    case NotRegistered => 0
    case LowTrust(level) => level
    case Trusted(_, level, _) => level
  }

  /** $trustResult['device_id'] ?? null */
  function DeviceIdOrNull(t: TrustResult): Option<string> {
    if t.Trusted? then Some(t.deviceId) else None
  }

  /** Only a trusted device is merged with its id; an unknown one is merged with trust 0 even once registered. */
  lemma MergedDefaults(t: TrustResult)
    ensures DeviceIdOrNull(t).Some? <==> t.Trusted?
    ensures t.NotRegistered? ==> TrustLevelOrZero(t) == 0
    ensures t.Trusted? || t.LowTrust? ==> TrustLevelOrZero(t) == t.trustLevel
  {
  }

  /** The registration context the middleware stores. */
  function AutoContext(h: DeviceHeaders, now: int): RegistrationContext {
    RegistrationContext(h.ipAddress, h.userAgent, now, AUTO_REGISTRATION, [])
  }

  /**
   * The trust check and the auto-registration of handle(): the verdict on
   * the table as it was, last_seen stamped on a known device, and one new
   * row for an unknown one. `failed` is the registration's unique-key
   * violation, which leaves the table as it was.
   */
  method LookUpOrRegister(reg: DeviceRegistry, m: string, fp: string, headers: DeviceHeaders,
                          randomBytes: string, now: int)
    returns (trust: TrustResult, failed: bool)
    requires reg.Valid() && |randomBytes| == 16
    modifies reg
    ensures reg.Valid()
    ensures trust == TrustOf(old(reg.rows), m, fp)
    ensures failed <==> trust.NotRegistered? && old(reg.HasDeviceId(DeviceId(randomBytes)))
    ensures failed ==> reg.rows == old(reg.rows)
    ensures trust.NotRegistered? && !failed ==>
              reg.rows == old(reg.rows) + [Device(old(reg.nextRowId), DeviceId(randomBytes), m, fp, now, now,
                                                 FULL_TRUST, AutoContext(headers, now), Active)]
    ensures !trust.NotRegistered? ==> reg.rows == Touched(old(reg.rows), m, fp, now)
  {
    failed := false;
    trust := reg.VerifyDeviceTrust(m, fp, now);
    if !trust.Trusted? {
      if trust.Reason() == "device_not_registered" {
        var context := AutoContext(headers, now);
        var deviceId := reg.RegisterDevide(m, fp, context, randomBytes, now);
        failed := deviceId.Err?;
      }
    }
  }

  /**
   * handle. The only exception modelled inside the try block is the
   * registration's unique-key violation, which the catch turns into passing
   * the request on without the merge.
   */
  method Handle(reg: DeviceRegistry, p: Primitives, req: MiddlewareRequest, randomBytes: string, now: int)
    returns (out: Outcome)
    requires reg.Valid() && |randomBytes| == 16
    modifies reg
    ensures reg.Valid()
    ensures req.user.None? ==> out == PassedOn(None) && reg.rows == old(reg.rows)
    ensures req.user.Some? ==>
      var m := req.user.value.matricula;
      var fp := CreateDevice(p, req.headers);
      var trust := TrustOf(old(reg.rows), m, fp);
      var registrationFails := trust.NotRegistered? && old(reg.HasDeviceId(DeviceId(randomBytes)));
      var activity := Activity(reg.rows, m, req.headers.ipAddress, req.headers.userAgent, now);
      && (registrationFails ==> out == PassedOn(None) && reg.rows == old(reg.rows))
      && (trust.NotRegistered? && !registrationFails ==>
            reg.rows == old(reg.rows) + [Device(old(reg.nextRowId), DeviceId(randomBytes), m, fp, now, now,
                                                FULL_TRUST, AutoContext(req.headers, now), Active)])
      && (!trust.NotRegistered? ==> reg.rows == Touched(old(reg.rows), m, fp, now))
      && (!registrationFails && |activity| >= 2 ==> out == Refused(403, SUSPICIOUS_DEVICE_ACTIVITY))
      && (!registrationFails && |activity| < 2 ==>
            out == PassedOn(Some(DeviceAttributes(fp, TrustLevelOrZero(trust), DeviceIdOrNull(trust), activity))))
  {
    if req.user.None? {
      return PassedOn(None);
    }
    var user := req.user.value;
    var deviceFingerprint := CreateDevice(p, req.headers);
    var trustResult, registrationFailed := LookUpOrRegister(reg, user.matricula, deviceFingerprint, req.headers,
                                                            randomBytes, now);
    if registrationFailed {
      // caught and logged; the request goes on
      return PassedOn(None);
    }
    var suspiciousActivity := reg.DetectSuspiciousDeviceActivity(user.matricula, deviceFingerprint,
                                                                  req.headers.ipAddress, req.headers.userAgent, now);
    if suspiciousActivity != [] {
      if |suspiciousActivity| >= 2 {
        return Refused(403, SUSPICIOUS_DEVICE_ACTIVITY);
      }
    }
    return PassedOn(Some(DeviceAttributes(deviceFingerprint, TrustLevelOrZero(trustResult),
                                          DeviceIdOrNull(trustResult), suspiciousActivity)));
  }

  /**
   * The request is refused only when at least two of the three indicators
   * fire on the table as it stands after the lookup (and registration).
   */
  lemma RefusalNeedsTwoIndicators(rows: seq<Device>, m: string, ip: Option<string>, ua: Option<string>, now: int)
    requires |Activity(rows, m, ip, ua, now)| >= 2
    ensures (CountRecent(rows, m, now) > 2 && IsSuspiciousUa(ua))
            || (CountRecent(rows, m, now) > 2 && LocationSuspicious(ActiveDevices(rows, m), ip))
            || (LocationSuspicious(ActiveDevices(rows, m), ip) && IsSuspiciousUa(ua))
  {
  }
}
