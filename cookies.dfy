/** Cookie configuration of the media resolver: the `browser[:profile]`
    setting, the yt-dlp option set built from the environment, and the
    normalisation of an uploaded Netscape cookie file. */
module Cookies {
  import opened Wrappers
  import opened Text

  /** The tuple handed to yt-dlp as `cookiesfrombrowser`: `(browser,)` or `(browser, profile)`. */
  datatype CookieSource = Browser(browser: string) | BrowserProfile(browser: string, profile: string)

  /** The part of a setting before its first colon (all of it when there is none). */
  function BrowserPart(v: string): string {
    match IndexOf(v, ':')
    case None => v
    case Some(i) => v[..i]
  }

  /** The part of a setting after its first colon, if it has one. */
  function ProfilePart(v: string): Option<string> {
    match IndexOf(v, ':')
    case None => None
    case Some(i) => Some(v[i + 1..])
  }

  /** parse_cookies_from_browser. `None` stands for a missing or non-string
      value. The browser is the stripped text before the first colon, and there
      is no source when it is blank; the profile is the stripped text after
      that colon, present only when it is not blank. */
  function ParseCookiesFromBrowser(value: Option<string>): (r: Option<CookieSource>)
    ensures value.None? || value.value == [] ==> r.None?
    ensures value.Some? ==> (r.None? <==> AllSpace(BrowserPart(value.value)))
    ensures r.Some? ==> r.value.browser == Strip(BrowserPart(value.value))
    ensures r.Some? ==>
      (r.value.BrowserProfile? <==> ProfilePart(value.value).Some? && !AllSpace(ProfilePart(value.value).value))
    ensures r.Some? && r.value.BrowserProfile? ==> r.value.profile == Strip(ProfilePart(value.value).value)
    ensures r.Some? ==> r.value.browser != [] && IsStripped(r.value.browser)
    ensures r.Some? && r.value.BrowserProfile? ==> r.value.profile != [] && IsStripped(r.value.profile)
  {
    if value.None? || value.value == [] then None
    else
      var v := value.value;
      match IndexOf(v, ':')
      case None =>
        var browser := Strip(v);
        if browser == [] then None else Some(Browser(browser))
      case Some(i) =>
        var browser := Strip(v[..i]);
        var profile := Strip(v[i + 1..]);
        if browser == [] then None
        else if profile == [] then Some(Browser(browser))
        else Some(BrowserProfile(browser, profile))
  }

  /** A setting without a colon names a browser and no profile. */
  lemma WholeSettingIsBrowser(v: string)
    requires ':' !in v && !AllSpace(v)
    ensures ParseCookiesFromBrowser(Some(v)) == Some(Browser(Strip(v)))
  {
    assert IndexOf(v, ':') == None;
  }

  /** The setting is split at its FIRST colon only: the profile keeps any later
      colons, a blank browser gives no source, and a blank profile gives the
      one-element form. */
  lemma SplitsAtFirstColon(b: string, p: string)
    requires ':' !in b
    ensures ParseCookiesFromBrowser(Some(b + ":" + p)) ==
      if Strip(b) == [] then None
      else if Strip(p) == [] then Some(Browser(Strip(b)))
      else Some(BrowserProfile(Strip(b), Strip(p)))
  {
    var v := b + ":" + p;
    assert IndexOf(v, ':') == Some(|b|) by {
      assert v[..|b|] == b;
      IndexOfFirst(v, ':', |b|);
    }
    assert v[..|b|] == b && v[|b| + 1..] == p;
  }

  /** Values of the yt-dlp option dictionary. */
  datatype OptValue = Flag(on: bool) | Str(text: string) | FromBrowser(source: CookieSource)

  /** The four environment variables read by build_ydl_opts (`None` when unset). */
  datatype CookieEnv = CookieEnv(
    instagramCookiesFromBrowser: Option<string>,
    ytdlpCookiesFromBrowser: Option<string>,
    instagramCookiesFile: Option<string>,
    ytdlpCookiesFile: Option<string>)

  const CookiesDefaultPath: string := "cookies.txt"

  /** The option keys build_ydl_opts can produce. */
  const OptionKeys: set<string> :=
    {"quiet", "no_warnings", "extract_flat", "format", "cookiefile", "cookiesfrombrowser"}

  /** Python's `a or b` on two optional strings. */
  function Or(a: Option<string>, b: Option<string>): (r: Option<string>)
    ensures Truthy(r) <==> Truthy(a) || Truthy(b)
    ensures Truthy(a) ==> r == a
    ensures !Truthy(a) ==> r == b
  {
    if Truthy(a) then a else b
  }

  /** The cookie file the environment names, if any. */
  function ConfiguredCookieFile(env: CookieEnv): Option<string> {
    Or(env.instagramCookiesFile, env.ytdlpCookiesFile)
  }

  /** The browser setting the environment names, if any. */
  function ConfiguredBrowser(env: CookieEnv): Option<string> {
    Or(env.instagramCookiesFromBrowser, env.ytdlpCookiesFromBrowser)
  }

  /** build_ydl_opts. The set of existing paths stands for `os.path.exists`.
      A cookie file is used only if it exists: the configured one when there
      is one, otherwise cookies.txt; the browser source is used only when no
      cookie file was set, and only if its setting parses. */
  method BuildYdlOpts(env: CookieEnv, existing: set<string>) returns (opts: map<string, OptValue>)
    ensures opts.Keys <= OptionKeys
    ensures "quiet" in opts && opts["quiet"] == Flag(true)
    ensures "no_warnings" in opts && opts["no_warnings"] == Flag(true)
    ensures "extract_flat" in opts && opts["extract_flat"] == Flag(false)
    ensures "format" in opts && opts["format"] == Str("best")
    ensures var f := ConfiguredCookieFile(env);
      if Truthy(f) then
        ("cookiefile" in opts <==> f.value in existing) &&
        ("cookiefile" in opts ==> opts["cookiefile"] == Str(f.value))
      else
        ("cookiefile" in opts <==> CookiesDefaultPath in existing) &&
        ("cookiefile" in opts ==> opts["cookiefile"] == Str(CookiesDefaultPath))
    ensures var b := ParseCookiesFromBrowser(ConfiguredBrowser(env));
      ("cookiesfrombrowser" in opts <==> "cookiefile" !in opts && b.Some?) &&
      ("cookiesfrombrowser" in opts ==> opts["cookiesfrombrowser"] == FromBrowser(b.value))
  {
    var cookiesFromBrowser := Or(env.instagramCookiesFromBrowser, env.ytdlpCookiesFromBrowser);
    var cookiesFile := Or(env.instagramCookiesFile, env.ytdlpCookiesFile);
    if !Truthy(cookiesFile) && CookiesDefaultPath in existing {
      cookiesFile := Some(CookiesDefaultPath);
    }

    opts := map[
      "quiet" := Flag(true),
      "no_warnings" := Flag(true),
      "extract_flat" := Flag(false),
      "format" := Str("best")];

    if Truthy(cookiesFile) {
      if cookiesFile.value in existing {
        opts := opts["cookiefile" := Str(cookiesFile.value)];
      }
    }

    if "cookiefile" !in opts && Truthy(cookiesFromBrowser) {
      var parsed := ParseCookiesFromBrowser(cookiesFromBrowser);
      if parsed.Some? {
        opts := opts["cookiesfrombrowser" := FromBrowser(parsed.value)];
      }
    }
  }

  const NetscapeHeader: string := "# Netscape HTTP Cookie File"

  /** The two rejections of update_cookies_file; both are answered with status 400. */
  datatype CookieError = MissingContent | NotNetscapeFormat

  /** Line endings made uniform: `\r\n` and then any lone `\r` become `\n`. */
  function UnifyLineEnds(s: string): string {
    ReplaceAll(ReplaceAll(s, "\r\n", "\n"), "\r", "\n")
  }

  /** The content check and normalisation of update_cookies_file, for a
      given header line. `None` stands for a missing or non-string `content`
      field. Accepted content is its unified, stripped text plus one line feed. */
  function NormalizeWith(header: string, content: Option<string>): (r: Result<string, CookieError>)
    requires header != [] && !IsSpace(header[0])
    ensures content.None? || content.value == [] ==> r == Failure(MissingContent)
    ensures content.Some? && content.value != [] ==>
      (r.Failure? <==> !(header <= Strip(UnifyLineEnds(content.value))))
    ensures r.Failure? && content.Some? && content.value != [] ==> r.error == NotNetscapeFormat
    ensures r.Success? ==> r.value == Strip(UnifyLineEnds(content.value)) + "\n"
  {
    if content.None? || content.value == [] then Failure(MissingContent)
    else
      var normalized := Strip(UnifyLineEnds(content.value));
      if !(header <= normalized) then Failure(NotNetscapeFormat)
      else
        assert normalized[0] == header[0];
        StrippedEndsWithoutLineFeed(normalized);
        if normalized[|normalized| - 1] == '\n' then Success(normalized)
        else Success(normalized + "\n")
  }

  /** A stripped text never ends with a line feed. */
  lemma StrippedEndsWithoutLineFeed(n: string)
    requires n != [] && IsStripped(n)
    ensures n[|n| - 1] != '\n'
  {
  }

  /** update_cookies_file's check and normalisation of the uploaded content:
      rejected when missing or empty, or when it does not begin with the
      Netscape header once line ends are unified and whitespace stripped;
      otherwise that text plus one line feed, which is in normal form. */
  function NormalizeCookieContent(content: Option<string>): (r: Result<string, CookieError>)
    ensures content.None? || content.value == [] ==> r == Failure(MissingContent)
    ensures content.Some? && content.value != [] ==>
      (r.Failure? <==> !(NetscapeHeader <= Strip(UnifyLineEnds(content.value))))
    ensures r.Failure? && content.Some? && content.value != [] ==> r.error == NotNetscapeFormat
    ensures r.Success? ==> r.value == Strip(UnifyLineEnds(content.value)) + "\n"
    ensures r.Success? ==> IsNormalizedCookieFile(r.value)
  {
    var r := NormalizeWith(NetscapeHeader, content);
    if r.Success? then
      AcceptedIsNormalized(NetscapeHeader, content.value);
      r
    else
      r
  }

  /** What NormalizeWith accepts is in normal form. */
  lemma AcceptedIsNormalized(header: string, content: string)
    requires header != [] && !IsSpace(header[0])
    requires NormalizeWith(header, Some(content)).Success?
    ensures IsNormalizedWith(header, NormalizeWith(header, Some(content)).value)
  {
    UnifiedHasNoCarriageReturn(content);
    AcceptedShape(header, UnifyLineEnds(content));
  }

  lemma UnifiedHasNoCarriageReturn(s: string)
    ensures '\r' !in UnifyLineEnds(s)
  {
    ReplaceAllRemoves(ReplaceAll(s, "\r\n", "\n"), '\r', "\n");
  }

  /** The shape of an accepted cookie file, for a given header line: the header
      first, no carriage return, and exactly one line feed at the end with no
      whitespace before it. */
  predicate IsNormalizedWith(header: string, s: string) {
    && header <= s
    && '\r' !in s
    && |s| > |header| && |s| >= 2
    && s[|s| - 1] == '\n'
    && !IsSpace(s[|s| - 2])
  }

  predicate IsNormalizedCookieFile(s: string) {
    IsNormalizedWith(NetscapeHeader, s)
  }

  /** A stripped text that starts with the header, plus one line feed, is in normal form. */
  lemma AcceptedShape(header: string, unified: string)
    requires header != [] && !IsSpace(header[0])
    requires '\r' !in unified
    requires header <= Strip(unified)
    ensures var n := Strip(unified);
      n[|n| - 1] != '\n' && IsNormalizedWith(header, n + "\n")
  {
    var n := Strip(unified);
    StripKeepsAbsent(unified, '\r');
    var s := n + "\n";
    assert s[..|header|] == n[..|header|];
  }

  /** Unifying line ends and stripping a text already in normal form leaves
      it without its final line feed. */
  lemma NormalFormBody(header: string, s: string)
    requires header != [] && !IsSpace(header[0])
    requires IsNormalizedWith(header, s)
    ensures UnifyLineEnds(s) == s
    ensures Strip(s) == s[..|s| - 1]
    ensures header <= s[..|s| - 1]
  {
    assert UnifyLineEnds(s) == s by {
      ReplaceAllAbsent(s, "\r\n", "\n");
      ReplaceAllAbsent(s, "\r", "\n");
    }
    var body := s[..|s| - 1];
    assert s == body + ['\n'] && header <= body by {
      LastLineFeed(s);
      assert body[..|header|] == s[..|header|];
    }
    assert IsStripped(body) by {
      assert body[0] == header[0];
    }
    StripDropsTrailingSpace(body, '\n');
  }

  /** Content already in normal form is accepted unchanged. */
  lemma NormalizeWithKeepsNormalized(header: string, s: string)
    requires header != [] && !IsSpace(header[0])
    requires IsNormalizedWith(header, s)
    ensures NormalizeWith(header, Some(s)) == Success(s)
  {
    var body := s[..|s| - 1];
    assert s == body + "\n" by {
      LastLineFeed(s);
    }
    assert Strip(UnifyLineEnds(s)) == body && header <= body by {
      NormalFormBody(header, s);
    }
    AcceptedAs(header, s, body);
  }

  /** Content whose unified, stripped text is `body` and starts with the
      header is accepted as `body` plus one line feed. */
  lemma AcceptedAs(header: string, content: string, body: string)
    requires header != [] && !IsSpace(header[0])
    requires content != [] && Strip(UnifyLineEnds(content)) == body && header <= body
    ensures NormalizeWith(header, Some(content)) == Success(body + "\n")
  {
    var r := NormalizeWith(header, Some(content));
    assert r.Success? && r.value == body + "\n";
  }

  lemma LastLineFeed(s: string)
    requires s != [] && s[|s| - 1] == '\n'
    ensures s == s[..|s| - 1] + "\n"
  {
  }

  /** Normalising an accepted cookie file a second time changes nothing. */
  lemma NormalizeIdempotent(content: Option<string>)
    requires NormalizeCookieContent(content).Success?
    ensures var once := NormalizeCookieContent(content).value;
      NormalizeCookieContent(Some(once)) == Success(once)
  {
    NormalizeWithKeepsNormalized(NetscapeHeader, NormalizeCookieContent(content).value);
  }
}
