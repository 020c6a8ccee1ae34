/** The user-agent classifier (src/utils/deviceUtils.ts): three labels, each
    chosen by the first of a fixed list of substring tests on the
    lower-cased user agent that succeeds. */
module DeviceInfo {
  import JsString

  /** `DeviceInfo`: `device_type`, `browser` and `os`. */
  datatype Info = Info(deviceType: string, browser: string, os: string)

  predicate Has(ua: string, keyword: string) {
    JsString.Includes(ua, keyword)
  }

  /** The alternatives of the phone pattern. */
  predicate MobileKeyword(ua: string) {
    || Has(ua, "mobile") || Has(ua, "android") || Has(ua, "iphone") || Has(ua, "ipad")
    || Has(ua, "ipod") || Has(ua, "blackberry") || Has(ua, "windows phone")
  }

  /** `device_type` of a lower-cased user agent. The patterns are
      case-insensitive, which adds nothing once the text is lower case. */
  function DeviceType(ua: string): string {
    if MobileKeyword(ua) then "mobile"
    else if Has(ua, "tablet") || Has(ua, "ipad") then "tablet"
    else "desktop"
  }

  /** `browser` of a lower-cased user agent. */
  function Browser(ua: string): string {
    if Has(ua, "chrome") && !Has(ua, "edg") then "chrome"
    else if Has(ua, "firefox") then "firefox"
    else if Has(ua, "safari") && !Has(ua, "chrome") then "safari"
    else if Has(ua, "edge") then "edge"
    else if Has(ua, "opera") then "opera"
    else "unknown"
  }

  /** `os` of a lower-cased user agent. */
  function Os(ua: string): string {
    if Has(ua, "windows") then "windows"
    else if Has(ua, "mac") then "macos"
    else if Has(ua, "linux") then "linux"
    else if Has(ua, "android") then "android"
    else if Has(ua, "ios") || Has(ua, "iphone") || Has(ua, "ipad") then "ios"
    else "unknown"
  }

  /** `getDeviceInfo`. */
  function GetDeviceInfo(userAgent: string): Info {
    var ua := JsString.ToLower(userAgent);
    Info(DeviceType(ua), Browser(ua), Os(ua))
  }

  /** Only the lower-cased user agent matters: upper and lower case
      spellings of the same agent are classified alike. */
  lemma DependsOnLowerCase(a: string, b: string)
    ensures GetDeviceInfo(JsString.ToLower(a)) == GetDeviceInfo(a)
    ensures JsString.ToLower(a) == JsString.ToLower(b) ==> GetDeviceInfo(a) == GetDeviceInfo(b)
  {
    JsString.ToLowerIdempotent(a);
  }

  /** An iPad is always a phone here: the `ipad` test of the tablet pattern
      is shadowed by the phone pattern. */
  lemma IpadNeverTablet(userAgent: string)
    requires Has(JsString.ToLower(userAgent), "ipad")
    ensures GetDeviceInfo(userAgent).deviceType == "mobile"
  {
  }

  /** Legacy Edge, which contains "chrome" and "edge", is never taken for
      Chrome. */
  lemma EdgeNotChrome(userAgent: string)
    requires Has(JsString.ToLower(userAgent), "edge")
    ensures GetDeviceInfo(userAgent).browser != "chrome"
  {
    EdgeHasEdg(JsString.ToLower(userAgent));
  }

  /** A user agent with "edge" has "edg" too. */
  lemma EdgeHasEdg(ua: string)
    requires Has(ua, "edge")
    ensures Has(ua, "edg")
  {
    assert JsString.Includes("edge", "edg") by {
      JsString.IncludesInfix("", "edg", "e");
    }
    JsString.IncludesTransitive(ua, "edge", "edg");
  }

  /** Windows wins over every other system, "mac" over everything but
      Windows; so a user agent with "linux" is never `android` and one with
      "mac" is never `ios`. */
  lemma OsPrecedence(userAgent: string)
    ensures var ua := JsString.ToLower(userAgent);
      var os := GetDeviceInfo(userAgent).os;
      && (Has(ua, "windows") ==> os == "windows")
      && (Has(ua, "mac") && !Has(ua, "windows") ==> os == "macos")
      && (Has(ua, "linux") ==> os != "android")
      && (Has(ua, "mac") ==> os != "ios")
  {
  }

  /** A user agent without any keyword is a desktop of unknown browser and
      system. */
  lemma NoKeywordDefaults(userAgent: string)
    requires var ua := JsString.ToLower(userAgent);
      && !MobileKeyword(ua) && !Has(ua, "tablet")
      && !Has(ua, "chrome") && !Has(ua, "firefox") && !Has(ua, "safari")
      && !Has(ua, "edge") && !Has(ua, "opera")
      && !Has(ua, "windows") && !Has(ua, "mac") && !Has(ua, "linux")
      && !Has(ua, "ios")
    ensures GetDeviceInfo(userAgent) == Info("desktop", "unknown", "unknown")
  {
  }

  // Findings: what the tests as written report for current phones and for
  // Chromium-based Edge, and a corrected classifier.

  /** Every iPhone user agent says "like Mac OS X", so as written an iPhone
      is reported as `macos`. */
  lemma IphoneReportedAsMac(userAgent: string)
    requires var ua := JsString.ToLower(userAgent);
      Has(ua, "iphone") && Has(ua, "mac") && !Has(ua, "windows")
    ensures GetDeviceInfo(userAgent).os == "macos"
  {
  }

  /** Every Android user agent says "Linux; Android", so as written an
      Android phone is reported as `linux`. */
  lemma AndroidReportedAsLinux(userAgent: string)
    requires var ua := JsString.ToLower(userAgent);
      Has(ua, "android") && Has(ua, "linux") && !Has(ua, "windows") && !Has(ua, "mac")
    ensures GetDeviceInfo(userAgent).os == "linux"
  {
  }

  /** Chromium-based Edge writes "Edg/" next to "Chrome/" and "Safari/":
      as written it is neither Chrome (because of "edg") nor Edge (no
      "edge"), so it is reported as `unknown`. */
  lemma ChromiumEdgeReportedUnknown(userAgent: string)
    requires var ua := JsString.ToLower(userAgent);
      && Has(ua, "chrome") && Has(ua, "edg") && Has(ua, "safari")
      && !Has(ua, "edge") && !Has(ua, "firefox") && !Has(ua, "opera")
    ensures GetDeviceInfo(userAgent).browser == "unknown"
  {
  }

  /** `browser` with Edge recognised by "edg", which both the legacy
      ("Edge/") and the Chromium ("Edg/") tokens contain. */
  function BrowserCorrected(ua: string): string {
    if Has(ua, "edg") then "edge"
    else if Has(ua, "chrome") then "chrome"
    else if Has(ua, "firefox") then "firefox"
    else if Has(ua, "safari") then "safari"
    else if Has(ua, "opera") then "opera"
    else "unknown"
  }

  /** `os` with the phone systems tested before the desktop systems their
      user agents mention. */
  function OsCorrected(ua: string): string {
    if Has(ua, "windows") then "windows"
    else if Has(ua, "ios") || Has(ua, "iphone") || Has(ua, "ipad") then "ios"
    else if Has(ua, "mac") then "macos"
    else if Has(ua, "android") then "android"
    else if Has(ua, "linux") then "linux"
    else "unknown"
  }

  /** The classifier with both corrections. */
  function GetDeviceInfoCorrected(userAgent: string): Info {
    var ua := JsString.ToLower(userAgent);
    Info(DeviceType(ua), BrowserCorrected(ua), OsCorrected(ua))
  }

  /** The corrected classifier reports iPhones and iPads as `ios`, Android
      devices as `android` and every Edge as `edge`, and agrees with the
      original on every user agent that has none of the keywords involved. */
  lemma CorrectedClassifies(userAgent: string)
    ensures var ua := JsString.ToLower(userAgent);
      var info := GetDeviceInfoCorrected(userAgent);
      && ((Has(ua, "iphone") || Has(ua, "ipad")) && !Has(ua, "windows") ==> info.os == "ios")
      && (Has(ua, "android") && !Has(ua, "windows") && !Has(ua, "ios") && !Has(ua, "iphone") && !Has(ua, "ipad") && !Has(ua, "mac") ==> info.os == "android")
      && (Has(ua, "edg") ==> info.browser == "edge")
      && (!Has(ua, "edg") ==> info.browser == GetDeviceInfo(userAgent).browser)
      && (!Has(ua, "ios") && !Has(ua, "iphone") && !Has(ua, "ipad") && !Has(ua, "android") ==> info.os == GetDeviceInfo(userAgent).os)
      && info.deviceType == GetDeviceInfo(userAgent).deviceType
  {
    var ua := JsString.ToLower(userAgent);
    if Has(ua, "edge") {
      EdgeHasEdg(ua);
    }
  }
}
