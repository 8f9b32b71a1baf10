/**
 * utils/device_info.go: a platform and a browser label read off a User-Agent
 * header by two priority chains of case-insensitive (`(?i)`) substring tests.
 */
module DeviceInfo {
  import opened Strings

  /**
   * Go's `(?i)` compares characters by simple case folding. The patterns here
   * are ASCII, and the characters that fold together with an ASCII letter are
   * its other case plus KELVIN SIGN (U+212A) for 'k' and LATIN SMALL LETTER
   * LONG S (U+017F) for 's'; every other character only matches itself.
   */
  function Fold(c: char): char
  {
    if 'A' <= c <= 'Z' then (c as int + 32) as char
    else if c == 0x212A as char then 'k'
    else if c == 0x017F as char then 's'
    else c
  }

  function FoldAll(s: string): (r: string)
    ensures |r| == |s|
    ensures forall k :: 0 <= k < |s| ==> r[k] == Fold(s[k])
  {
    seq(|s|, k requires 0 <= k < |s| => Fold(s[k]))
  }

  /** `regexp.MatchString("(?i)" + pattern, text)` for a pattern without metacharacters. */
  predicate Matches(text: string, pattern: string)
  {
    Contains(FoldAll(text), FoldAll(pattern))
  }

  const Platforms: set<string> := {"Android", "Linux", "iPhone", "iPad", "iPod", "Mac", "Windows", ""}
  const Browsers: set<string> := {"Opera", "Microsoft Edge", "Mozilla Firefox", "Google Chrome", "Safari", ""}

  datatype Device = Device(platform: string, browser: string)

  /** `GetDeviceInfo(userAgent)`: the two chains, each label from its fixed set. */
  function GetDeviceInfo(userAgent: string): (d: Device)
    ensures d.platform in Platforms && d.browser in Browsers
  {
    var platform :=
      if Matches(userAgent, "Android") then "Android"
      else if Matches(userAgent, "Linux") then "Linux"
      else if Matches(userAgent, "iPhone") then "iPhone"
      else if Matches(userAgent, "iPad") then "iPad"
      else if Matches(userAgent, "iPod") then "iPod"
      else if Matches(userAgent, "Macintosh") || Matches(userAgent, "Mac OS X") then "Mac"
      else if Matches(userAgent, "Windows") || Matches(userAgent, "Win32") || Matches(userAgent, "Win64") then "Windows"
      else "";
    var browser :=
      if Matches(userAgent, "OPR") then "Opera"
      else if Matches(userAgent, "Edg") then "Microsoft Edge"
      else if Matches(userAgent, "FxiOS") || Matches(userAgent, "Firefox") then "Mozilla Firefox"
      else if Matches(userAgent, "CriOS") || Matches(userAgent, "Chrome") then "Google Chrome"
      else if Matches(userAgent, "Version") then (if Matches(userAgent, "Safari") then "Safari" else "")
      else "";
    Device(platform, browser)
  }

  /** "Android" beats "Linux", which Android user agents also carry. */
  lemma AndroidOverLinux(userAgent: string)
    requires Matches(userAgent, "Android") && Matches(userAgent, "Linux")
    ensures GetDeviceInfo(userAgent).platform == "Android"
  {
  }

  /** Without "Android" or "Linux", "iPhone" beats "Mac OS X", which iPhone user agents also carry. */
  lemma IPhoneOverMac(userAgent: string)
    requires !Matches(userAgent, "Android") && !Matches(userAgent, "Linux")
    requires Matches(userAgent, "iPhone") && Matches(userAgent, "Mac OS X")
    ensures GetDeviceInfo(userAgent).platform == "iPhone"
  {
  }

  /** "Safari" exactly when "Version" and "Safari" occur and no earlier browser pattern does. */
  lemma SafariIff(userAgent: string)
    ensures GetDeviceInfo(userAgent).browser == "Safari" <==>
      && Matches(userAgent, "Version") && Matches(userAgent, "Safari")
      && !Matches(userAgent, "OPR") && !Matches(userAgent, "Edg")
      && !Matches(userAgent, "FxiOS") && !Matches(userAgent, "Firefox")
      && !Matches(userAgent, "CriOS") && !Matches(userAgent, "Chrome")
  {
  }

  /** "Version" without "Safari" and without an earlier browser gives no browser at all. */
  lemma VersionWithoutSafari(userAgent: string)
    requires !Matches(userAgent, "OPR") && !Matches(userAgent, "Edg")
    requires !Matches(userAgent, "FxiOS") && !Matches(userAgent, "Firefox")
    requires !Matches(userAgent, "CriOS") && !Matches(userAgent, "Chrome")
    requires Matches(userAgent, "Version") && !Matches(userAgent, "Safari")
    ensures GetDeviceInfo(userAgent).browser == ""
  {
  }

  /** The patterns each chain reads. */
  const PlatformPatterns: seq<string> := ["Android", "Linux", "iPhone", "iPad", "iPod", "Macintosh", "Mac OS X", "Windows", "Win32", "Win64"]
  const BrowserPatterns: seq<string> := ["OPR", "Edg", "FxiOS", "Firefox", "CriOS", "Chrome", "Version", "Safari"]

  predicate AgreeOn(a: string, b: string, patterns: seq<string>)
  {
    forall k :: 0 <= k < |patterns| ==> (Matches(a, patterns[k]) <==> Matches(b, patterns[k]))
  }

  /** The platform depends only on the platform patterns, the browser only on the browser patterns. */
  lemma Separation(a: string, b: string)
    ensures AgreeOn(a, b, PlatformPatterns) ==> GetDeviceInfo(a).platform == GetDeviceInfo(b).platform
    ensures AgreeOn(a, b, BrowserPatterns) ==> GetDeviceInfo(a).browser == GetDeviceInfo(b).browser
  {
    if AgreeOn(a, b, PlatformPatterns) {
      var p := PlatformPatterns;
      assert Matches(a, p[0]) <==> Matches(b, p[0]);
      assert Matches(a, p[1]) <==> Matches(b, p[1]);
      assert Matches(a, p[2]) <==> Matches(b, p[2]);
      assert Matches(a, p[3]) <==> Matches(b, p[3]);
      assert Matches(a, p[4]) <==> Matches(b, p[4]);
      assert Matches(a, p[5]) <==> Matches(b, p[5]);
      assert Matches(a, p[6]) <==> Matches(b, p[6]);
      assert Matches(a, p[7]) <==> Matches(b, p[7]);
      assert Matches(a, p[8]) <==> Matches(b, p[8]);
      assert Matches(a, p[9]) <==> Matches(b, p[9]);
    }
    if AgreeOn(a, b, BrowserPatterns) {
      var p := BrowserPatterns;
      assert Matches(a, p[0]) <==> Matches(b, p[0]);
      assert Matches(a, p[1]) <==> Matches(b, p[1]);
      assert Matches(a, p[2]) <==> Matches(b, p[2]);
      assert Matches(a, p[3]) <==> Matches(b, p[3]);
      assert Matches(a, p[4]) <==> Matches(b, p[4]);
      assert Matches(a, p[5]) <==> Matches(b, p[5]);
      assert Matches(a, p[6]) <==> Matches(b, p[6]);
      assert Matches(a, p[7]) <==> Matches(b, p[7]);
    }
  }

  lemma FoldTwice(c: char)
    ensures Fold(Fold(c)) == Fold(c)
  {
  }

  /** Folding the header first changes nothing: every test ignores case. */
  lemma CaseInsensitive(userAgent: string)
    ensures GetDeviceInfo(FoldAll(userAgent)) == GetDeviceInfo(userAgent)
  {
    var f := FoldAll(userAgent);
    assert FoldAll(f) == FoldAll(userAgent) by {
      forall k | 0 <= k < |f|
        ensures FoldAll(f)[k] == FoldAll(userAgent)[k]
      {
        FoldTwice(userAgent[k]);
      }
    }
  }
}
