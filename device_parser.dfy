/** Device description from a User-Agent (lib/utils/device-parser.ts).

    The User-Agent parser itself is not modelled: its result is the input
    `UAResult`, each field `None` where the parser leaves it undefined. */
module DeviceParser {
  import opened Base
  import opened Types

  /** The fields of the parser's result the device description reads. */
  datatype UAResult = UAResult(
    deviceType: Option<string>,
    browserName: Option<string>,
    browserVersion: Option<string>,
    osName: Option<string>,
    osVersion: Option<string>)

  /** A JavaScript-truthy string: present and non-empty. */
  predicate Given(s: Option<string>) {
    s.Some? && s.value != ""
  }

  /** `s || 'Unknown'` */
  function OrUnknown(s: Option<string>): string {
    if Given(s) then s.value else "Unknown"
  }

  /** The device type: the parser's `mobile` and `tablet` are kept, no type
      with a known OS is taken as a desktop, anything else is unknown. */
  function Classify(ua: UAResult): DeviceType {
    if ua.deviceType == Some("mobile") then Mobile
    else if ua.deviceType == Some("tablet") then Tablet
    else if ua.deviceType.None? && Given(ua.osName) then Desktop
    else Unknown
  }

  /** `parseUserAgent(userAgent)` given the parser's result for it. */
  function ParseUserAgent(userAgent: string, ua: UAResult): DeviceInfo {
    DeviceInfo(Classify(ua), OrUnknown(ua.browserName), OrUnknown(ua.browserVersion),
               OrUnknown(ua.osName), OrUnknown(ua.osVersion), userAgent)
  }

  /** Each type and exactly the parser results that give it; in particular
      every other parser device type (`console`, `smarttv`, `wearable`,
      `embedded`, ...) is unknown whatever the OS. */
  lemma ClassifyIff(ua: UAResult)
    ensures Classify(ua) == Mobile <==> ua.deviceType == Some("mobile")
    ensures Classify(ua) == Tablet <==> ua.deviceType == Some("tablet")
    ensures Classify(ua) == Desktop <==> ua.deviceType.None? && Given(ua.osName)
    ensures Classify(ua) == Unknown <==>
      (ua.deviceType.Some? && ua.deviceType.value != "mobile" && ua.deviceType.value != "tablet")
      || (ua.deviceType.None? && !Given(ua.osName))
  {
  }

  /** The description keeps the User-Agent verbatim and each name or
      version the parser found; the ones it did not find read `Unknown`.
      A desktop always carries the parser's OS name. */
  lemma ParsedFields(userAgent: string, ua: UAResult)
    ensures var info := ParseUserAgent(userAgent, ua);
      && info.userAgent == userAgent
      && (Given(ua.browserName) ==> info.browser == ua.browserName.value)
      && (!Given(ua.browserName) ==> info.browser == "Unknown")
      && (Given(ua.browserVersion) ==> info.browserVersion == ua.browserVersion.value)
      && (!Given(ua.browserVersion) ==> info.browserVersion == "Unknown")
      && (Given(ua.osName) ==> info.os == ua.osName.value)
      && (!Given(ua.osName) ==> info.os == "Unknown")
      && (Given(ua.osVersion) ==> info.osVersion == ua.osVersion.value)
      && (!Given(ua.osVersion) ==> info.osVersion == "Unknown")
      && (info.deviceType == Desktop ==> info.os == ua.osName.value)
      && info.browser != "" && info.os != "" && info.browserVersion != "" && info.osVersion != ""
  {
  }

  /** `getDeviceTypeLabel(type)` */
  function DeviceTypeLabel(t: DeviceType): string {
    match t
    case Mobile => "Mobile"
    case Tablet => "Tablet"
    case Desktop => "Desktop"
    case Unknown => "Unknown"
  }

  /** Every type has a label, capitalised, and no two types share one. */
  lemma LabelsDistinct(s: DeviceType, t: DeviceType)
    ensures DeviceTypeLabel(s) == DeviceTypeLabel(t) <==> s == t
    ensures |DeviceTypeLabel(t)| >= 6 && 'A' <= DeviceTypeLabel(t)[0] <= 'Z'
  {
  }

  /** `formatDeviceInfo(device)`: `<browser> on <os> (<label>)` */
  function FormatDeviceInfo(device: DeviceInfo): string {
    device.browser + " on " + device.os + " (" + DeviceTypeLabel(device.deviceType) + ")"
  }

  /** The description ends with the label in parentheses, so two devices
      with the same browser and OS read the same exactly when their types agree. */
  lemma FormatShowsType(d1: DeviceInfo, d2: DeviceInfo)
    requires d1.browser == d2.browser && d1.os == d2.os
    ensures FormatDeviceInfo(d1) == FormatDeviceInfo(d2) <==> d1.deviceType == d2.deviceType
    ensures var f := FormatDeviceInfo(d1); |f| > 0 && f[|f| - 1] == ')'
  {
    var prefix := d1.browser + " on " + d1.os + " (";
    var l1, l2 := DeviceTypeLabel(d1.deviceType), DeviceTypeLabel(d2.deviceType);
    assert FormatDeviceInfo(d1) == prefix + l1 + ")";
    assert FormatDeviceInfo(d2) == prefix + l2 + ")";
    if FormatDeviceInfo(d1) == FormatDeviceInfo(d2) {
      assert |l1| == |l2|;
      assert l1 == (prefix + l1 + ")")[|prefix|..|prefix| + |l1|];
      assert l2 == (prefix + l2 + ")")[|prefix|..|prefix| + |l2|];
      LabelsDistinct(d1.deviceType, d2.deviceType);
    }
  }
}
