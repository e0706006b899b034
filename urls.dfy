/** The two Instagram URL helpers: extract_shortcode, which searches for the
    first of four fixed patterns, and validate_instagram_url, which anchors
    two fixed patterns at the start of the URL. Both are written as matchers
    for their fixed regular expressions and related to a declarative reading
    of those expressions. */
module InstagramUrls {
  import opened Wrappers

  /** The class `[a-zA-Z0-9_-]` of a shortcode. */
  predicate IsCodeChar(c: char) {
    ('a' <= c <= 'z') || ('A' <= c <= 'Z') || ('0' <= c <= '9') || c == '_' || c == '-'
  }

  /** The class `[a-zA-Z0-9._]` of a story owner's name. */
  predicate IsStoryChar(c: char) {
    ('a' <= c <= 'z') || ('A' <= c <= 'Z') || ('0' <= c <= '9') || c == '.' || c == '_'
  }

  predicate IsDigit(c: char) {
    '0' <= c <= '9'
  }

  /** The length of the longest run of `p`-characters of `s` from index `j`:
      what a greedy `[...]*` consumes there. */
  function RunLength(s: string, j: nat, p: char -> bool): (n: nat)
    requires j <= |s|
    ensures j + n <= |s|
    ensures forall i :: j <= i < j + n ==> p(s[i])
    ensures j + n == |s| || !p(s[j + n])
    decreases |s| - j
  {
    if j < |s| && p(s[j]) then 1 + RunLength(s, j + 1, p) else 0
  }

  /** A run that is followed by a character outside the class, or by the end,
      is exactly what the greedy run consumes. */
  lemma RunLengthExact(s: string, j: nat, p: char -> bool, n: nat)
    requires j + n <= |s|
    requires forall i :: j <= i < j + n ==> p(s[i])
    requires j + n == |s| || !p(s[j + n])
    ensures RunLength(s, j, p) == n
  {
  }

  // ---------------------------------------------------------------------
  // extract_shortcode

  /** The literal parts of the four search patterns, in the order tried. */
  const ShortcodePrefixes: seq<string> :=
    ["instagram.com/p/", "instagram.com/reel/", "instagram.com/tv/", "instagram.com/share/reel/"]

  /** `prefix[a-zA-Z0-9_-]+` matches `url` at index `k`. */
  predicate MatchesAt(url: string, prefix: string, k: nat) {
    k + |prefix| < |url| && url[k..k + |prefix|] == prefix && IsCodeChar(url[k + |prefix|])
  }

  ghost predicate Occurs(url: string, prefix: string) {
    exists k: nat :: MatchesAt(url, prefix, k)
  }

  /** `k` is where `re.search` finds the pattern: the first index where it matches. */
  ghost predicate LeftmostMatch(url: string, prefix: string, k: nat) {
    MatchesAt(url, prefix, k) && forall j: nat :: j < k ==> !MatchesAt(url, prefix, j)
  }

  /** The greedy group `([a-zA-Z0-9_-]+)` of a match at `k`. */
  function CodeAfter(url: string, prefix: string, k: nat): (code: string)
    requires k + |prefix| <= |url|
  {
    var j := k + |prefix|;
    url[j..j + RunLength(url, j, IsCodeChar)]
  }

  /** The first index at or after `from` where the pattern matches. */
  function FindMatch(url: string, prefix: string, from: nat): (r: Option<nat>)
    ensures r.Some? ==> from <= r.value && MatchesAt(url, prefix, r.value)
    ensures r.Some? ==> forall j: nat :: from <= j < r.value ==> !MatchesAt(url, prefix, j)
    ensures r.None? ==> forall j: nat :: from <= j ==> !MatchesAt(url, prefix, j)
    decreases |url| - from
  {
    if from + |prefix| >= |url| then None
    else if MatchesAt(url, prefix, from) then Some(from)
    else FindMatch(url, prefix, from + 1)
  }

  /** `re.search(prefix + '([a-zA-Z0-9_-]+)', url)`, giving group 1. */
  function SearchShortcode(url: string, prefix: string): (r: Option<string>)
    ensures r.None? <==> !Occurs(url, prefix)
    ensures r.Some? ==> exists k: nat :: LeftmostMatch(url, prefix, k) && r.value == CodeAfter(url, prefix, k)
    ensures r.Some? ==> r.value != [] && forall i :: 0 <= i < |r.value| ==> IsCodeChar(r.value[i])
  {
    match FindMatch(url, prefix, 0)
    case None => None
    case Some(k) =>
      CodeAfterIsShortcode(url, prefix, k);
      Some(CodeAfter(url, prefix, k))
  }

  /** The found group is a non-empty run of shortcode characters. */
  lemma CodeAfterIsShortcode(url: string, prefix: string, k: nat)
    requires MatchesAt(url, prefix, k)
    ensures var code := CodeAfter(url, prefix, k);
      code != [] && forall i :: 0 <= i < |code| ==> IsCodeChar(code[i])
  {
  }

  /** Pattern `j` is the first one from index `from` on that occurs in `url`,
      and `code` is its group at its leftmost match. */
  ghost predicate FirstPatternGives(url: string, from: nat, code: string) {
    exists j: nat, k: nat ::
      && from <= j < |ShortcodePrefixes|
      && (forall j' :: from <= j' < j ==> !Occurs(url, ShortcodePrefixes[j']))
      && LeftmostMatch(url, ShortcodePrefixes[j], k)
      && code == CodeAfter(url, ShortcodePrefixes[j], k)
  }

  /** The patterns from index `i` on, tried in order. */
  function ExtractFrom(url: string, i: nat): (r: Option<string>)
    requires i <= |ShortcodePrefixes|
    ensures r.None? <==> forall j :: i <= j < |ShortcodePrefixes| ==> !Occurs(url, ShortcodePrefixes[j])
    ensures r.Some? ==> FirstPatternGives(url, i, r.value)
    ensures r.Some? ==> r.value != [] && forall c :: 0 <= c < |r.value| ==> IsCodeChar(r.value[c])
    decreases |ShortcodePrefixes| - i
  {
    if i == |ShortcodePrefixes| then None
    else match SearchShortcode(url, ShortcodePrefixes[i])
      case Some(code) =>
        FirstPatternHere(url, i, code);
        Some(code)
      case None =>
        var r := ExtractFrom(url, i + 1);
        if r.Some? then
          FirstPatternLater(url, i, r.value);
          r
        else
          r
  }

  /** A pattern that occurs is the first one from its own index on. */
  lemma FirstPatternHere(url: string, i: nat, code: string)
    requires i < |ShortcodePrefixes|
    requires SearchShortcode(url, ShortcodePrefixes[i]) == Some(code)
    ensures FirstPatternGives(url, i, code)
  {
  }

  /** A pattern that does not occur can be skipped. */
  lemma FirstPatternLater(url: string, i: nat, code: string)
    requires i < |ShortcodePrefixes|
    requires !Occurs(url, ShortcodePrefixes[i])
    requires FirstPatternGives(url, i + 1, code)
    ensures FirstPatternGives(url, i, code)
  {
  }

  /** extract_shortcode: the group of the first pattern, in the order p, reel,
      tv, share/reel, that occurs anywhere in the URL, taken at its leftmost
      match; `None` when none of them occurs. */
  function ExtractShortcode(url: string): (r: Option<string>)
    ensures r.None? <==> forall j :: 0 <= j < |ShortcodePrefixes| ==> !Occurs(url, ShortcodePrefixes[j])
    ensures r.Some? ==> FirstPatternGives(url, 0, r.value)
    ensures r.Some? ==> r.value != [] && forall i :: 0 <= i < |r.value| ==> IsCodeChar(r.value[i])
  {
    ExtractFrom(url, 0)
  }

  /** When the first character of the pattern's literal part does not occur
      before it, the search finds the code right after it. */
  lemma {:induction false} SearchFindsFirst(lead: string, prefix: string, code: string, rest: string)
    requires prefix != [] && prefix[0] !in lead
    requires code != [] && forall i :: 0 <= i < |code| ==> IsCodeChar(code[i])
    requires rest == [] || !IsCodeChar(rest[0])
    ensures SearchShortcode(lead + prefix + code + rest, prefix) == Some(code)
  {
    var url := lead + prefix + code + rest;
    var k := |lead|;
    var j := k + |prefix|;
    assert url[k..j] == prefix;
    assert url[j..j + |code|] == code;
    assert MatchesAt(url, prefix, k) by {
      assert url[j] == code[0];
    }
    forall k': nat | k' < k
      ensures !MatchesAt(url, prefix, k')
    {
      assert url[k'] == lead[k'];
      if k' + |prefix| < |url| {
        assert url[k'..k' + |prefix|][0] == url[k'];
      }
    }
    assert FindMatch(url, prefix, 0) == Some(k) by {
      var f := FindMatch(url, prefix, 0);
      assert f.Some?;
      assert !(f.value < k);
      assert !(f.value > k);
    }
    assert j + |code| == |url| || url[j + |code|] == rest[0];
    RunLengthExact(url, j, IsCodeChar, |code|);
  }

  /** A post URL whose part before `instagram.com` has no letter `i` (as in
      `https://www.`) yields exactly its shortcode, whatever follows it. */
  lemma PostUrlShortcode(lead: string, code: string, rest: string)
    requires 'i' !in lead
    requires code != [] && forall i :: 0 <= i < |code| ==> IsCodeChar(code[i])
    requires rest == [] || !IsCodeChar(rest[0])
    ensures ExtractShortcode(lead + ShortcodePrefixes[0] + code + rest) == Some(code)
  {
    assert ShortcodePrefixes[0][0] == 'i';
    SearchFindsFirst(lead, ShortcodePrefixes[0], code, rest);
  }

  // ---------------------------------------------------------------------
  // validate_instagram_url

  const Schemes: seq<string> := ["http://", "https://"]
  const Subdomains: seq<string> := ["", "www."]
  const Host: string := "instagram.com/"
  const PostKinds: seq<string> := ["p", "reel", "tv", "share"]
  const StoriesDir: string := "stories/"

  /** The literal text the first pattern requires for one choice of each
      alternative: scheme, optional `www.`, and post kind. */
  function PostPrefix(a: nat, b: nat, c: nat): string
    requires a < |Schemes| && b < |Subdomains| && c < |PostKinds|
  {
    Schemes[a] + Subdomains[b] + Host + PostKinds[c] + "/"
  }

  /** The literal text the second pattern requires up to the `/` after the name. */
  function StoryPath(a: nat, b: nat, name: string): string
    requires a < |Schemes| && b < |Subdomains|
  {
    Schemes[a] + Subdomains[b] + Host + StoriesDir + name + "/"
  }

  predicate IsStoryName(name: string) {
    name != [] && forall i :: 0 <= i < |name| ==> IsStoryChar(name[i])
  }

  /** `re.match(r'^https?://(www\.)?instagram\.com/(p|reel|tv|share)/[a-zA-Z0-9_-]+', url)`. */
  ghost predicate MatchesPostPattern(url: string) {
    exists a: nat, b: nat, c: nat ::
      a < |Schemes| && b < |Subdomains| && c < |PostKinds| &&
      PostPrefix(a, b, c) <= url && |PostPrefix(a, b, c)| < |url| && IsCodeChar(url[|PostPrefix(a, b, c)|])
  }

  /** `re.match(r'^https?://(www\.)?instagram\.com/stories/[a-zA-Z0-9._]+/[0-9]+', url)`. */
  ghost predicate MatchesStoryPattern(url: string) {
    exists a: nat, b: nat, name: string ::
      a < |Schemes| && b < |Subdomains| && IsStoryName(name) &&
      StoryPath(a, b, name) <= url && |StoryPath(a, b, name)| < |url| && IsDigit(url[|StoryPath(a, b, name)|])
  }

  /** The scheme `url` starts with, trying `https://` first as `https?` does. */
  function SchemeIndex(url: string): (r: Option<nat>)
    ensures r.Some? ==> r.value < |Schemes| && Schemes[r.value] <= url
  {
    if Schemes[1] <= url then Some(1)
    else if Schemes[0] <= url then Some(0)
    else None
  }

  /** Whether `www.` precedes the host, trying `www.` first as `(www\.)?` does. */
  function SubdomainIndex(rest: string): (r: Option<nat>)
    ensures r.Some? ==> r.value < |Subdomains| && Subdomains[r.value] + Host <= rest
  {
    if Subdomains[1] + Host <= rest then Some(1)
    else if Subdomains[0] + Host <= rest then Some(0)
    else None
  }

  /** The post kind the path starts with, trying the alternatives in order. */
  function KindIndex(path: string): (r: Option<nat>)
    ensures r.Some? ==> r.value < |PostKinds| && PostKinds[r.value] + "/" <= path
  {
    if PostKinds[0] + "/" <= path then Some(0)
    else if PostKinds[1] + "/" <= path then Some(1)
    else if PostKinds[2] + "/" <= path then Some(2)
    else if PostKinds[3] + "/" <= path then Some(3)
    else None
  }

  /** The rest of the first pattern after the host: `(p|reel|tv|share)/[a-zA-Z0-9_-]`. */
  predicate PostPathMatches(path: string) {
    match KindIndex(path)
    case None => false
    case Some(c) => |PostKinds[c]| + 1 < |path| && IsCodeChar(path[|PostKinds[c]| + 1])
  }

  /** The rest of the second pattern after the host: `stories/[a-zA-Z0-9._]+/[0-9]`. */
  predicate StoryPathMatches(path: string) {
    && StoriesDir <= path
    && var n := RunLength(path, |StoriesDir|, IsStoryChar);
    && n > 0
    && |StoriesDir| + n + 1 < |path|
    && path[|StoriesDir| + n] == '/'
    && IsDigit(path[|StoriesDir| + n + 1])
  }

  /** The two anchored patterns, matched by hand. */
  function MatchesValidUrl(url: string): bool {
    match SchemeIndex(url)
    case None => false
    case Some(a) =>
      var rest := url[|Schemes[a]|..];
      match SubdomainIndex(rest)
      case None => false
      case Some(b) =>
        var path := rest[|Subdomains[b] + Host|..];
        PostPathMatches(path) || StoryPathMatches(path)
  }

  /** validate_instagram_url. `None` stands for a missing or non-string value.
      Accepted exactly when one of the two patterns matches at the start; text
      after the matched part is allowed. */
  function ValidateInstagramUrl(url: Option<string>): (r: bool)
    ensures r <==> url.Some? && (MatchesPostPattern(url.value) || MatchesStoryPattern(url.value))
  {
    if url.None? then false
    else
      MatcherAgreesWithPatterns(url.value);
      if url.value == [] then false else MatchesValidUrl(url.value)
  }

  lemma PrefixOfConcat(u: string, v: string, s: string)
    requires u <= s && v <= s[|u|..]
    ensures u + v <= s
  {
    assert (u + v) == s[..|u| + |v|] by {
      assert s[..|u| + |v|] == s[..|u|] + s[|u|..][..|v|];
    }
  }

  lemma PrefixSplit(u: string, v: string, s: string)
    requires u + v <= s
    ensures u <= s && v <= s[|u|..]
  {
    assert s[..|u|] == (u + v)[..|u|];
    assert s[|u|..][..|v|] == (u + v)[|u|..];
  }

  /** The scheme and the `www.` choice are determined by the URL. */
  lemma HostDetermined(url: string, a: nat, b: nat)
    requires a < |Schemes| && b < |Subdomains|
    requires Schemes[a] + Subdomains[b] + Host <= url
    ensures SchemeIndex(url) == Some(a)
    ensures SubdomainIndex(url[|Schemes[a]|..]) == Some(b)
  {
    PrefixSplit(Schemes[a] + Subdomains[b], Host, url);
    PrefixSplit(Schemes[a], Subdomains[b], url);
    var rest := url[|Schemes[a]|..];
    PrefixOfConcat(Subdomains[b], Host, rest) by {
      assert rest[|Subdomains[b]|..] == url[|Schemes[a] + Subdomains[b]|..];
    }
    if a == 0 {
      assert url[4] == ':';
    }
    if b == 0 {
      assert rest[0] == 'i';
    }
  }

  /** The post kind is determined by the path. */
  lemma KindDetermined(path: string, c: nat)
    requires c < |PostKinds| && PostKinds[c] + "/" <= path
    ensures KindIndex(path) == Some(c)
  {
    assert path[0] == (PostKinds[c] + "/")[0];
  }

  lemma MatcherAgreesWithPatterns(url: string)
    ensures MatchesValidUrl(url) <==> MatchesPostPattern(url) || MatchesStoryPattern(url)
  {
    if MatchesValidUrl(url) {
      MatcherSound(url);
    }
    if MatchesPostPattern(url) {
      var a: nat, b: nat, c: nat :| a < |Schemes| && b < |Subdomains| && c < |PostKinds| &&
        PostPrefix(a, b, c) <= url && |PostPrefix(a, b, c)| < |url| && IsCodeChar(url[|PostPrefix(a, b, c)|]);
      PostPatternMatched(url, a, b, c);
    }
    if MatchesStoryPattern(url) {
      var a: nat, b: nat, name :| a < |Schemes| && b < |Subdomains| && IsStoryName(name) &&
        StoryPath(a, b, name) <= url && |StoryPath(a, b, name)| < |url| && IsDigit(url[|StoryPath(a, b, name)|]);
      StoryPatternMatched(url, a, b, name);
    }
  }

  /** The scheme and host part the matcher found, as one literal prefix of the URL. */
  lemma MatchedHost(url: string) returns (a: nat, b: nat)
    requires SchemeIndex(url).Some? && SubdomainIndex(url[|Schemes[SchemeIndex(url).value]|..]).Some?
    ensures a == SchemeIndex(url).value && a < |Schemes|
    ensures b == SubdomainIndex(url[|Schemes[a]|..]).value && b < |Subdomains|
    ensures Schemes[a] + Subdomains[b] + Host <= url
    ensures url[|Schemes[a]|..][|Subdomains[b] + Host|..] == url[|Schemes[a] + Subdomains[b] + Host|..]
  {
    a := SchemeIndex(url).value;
    var rest := url[|Schemes[a]|..];
    b := SubdomainIndex(rest).value;
    PrefixOfConcat(Schemes[a], Subdomains[b] + Host, url);
    assert Schemes[a] + Subdomains[b] + Host == Schemes[a] + (Subdomains[b] + Host);
  }

  /** What the matcher accepts matches one of the patterns. */
  lemma MatcherSound(url: string)
    requires MatchesValidUrl(url)
    ensures MatchesPostPattern(url) || MatchesStoryPattern(url)
  {
    var a, b := MatchedHost(url);
    var host := Schemes[a] + Subdomains[b] + Host;
    var path := url[|host|..];
    if PostPathMatches(path) {
      PostPathSound(url, a, b);
    } else {
      StoryPathSound(url, a, b);
    }
  }

  lemma PostPathSound(url: string, a: nat, b: nat)
    requires a < |Schemes| && b < |Subdomains|
    requires Schemes[a] + Subdomains[b] + Host <= url
    requires PostPathMatches(url[|Schemes[a] + Subdomains[b] + Host|..])
    ensures MatchesPostPattern(url)
  {
    var host := Schemes[a] + Subdomains[b] + Host;
    var path := url[|host|..];
    var c := KindIndex(path).value;
    PrefixOfConcat(host, PostKinds[c] + "/", url);
    assert PostPrefix(a, b, c) == host + (PostKinds[c] + "/");
    assert url[|PostPrefix(a, b, c)|] == path[|PostKinds[c]| + 1];
  }

  lemma StoryPathSound(url: string, a: nat, b: nat)
    requires a < |Schemes| && b < |Subdomains|
    requires Schemes[a] + Subdomains[b] + Host <= url
    requires StoryPathMatches(url[|Schemes[a] + Subdomains[b] + Host|..])
    ensures MatchesStoryPattern(url)
  {
    var host := Schemes[a] + Subdomains[b] + Host;
    var path := url[|host|..];
    var name := StoryPathParts(path);
    var tail := StoriesDir + (name + "/");
    PrefixOfConcat(host, tail, url);
    assert StoryPath(a, b, name) == host + tail;
    assert url[|StoryPath(a, b, name)|] == path[|tail|];
  }

  /** The story path the matcher accepted: the literal `stories/<name>/`, then a digit. */
  lemma StoryPathParts(path: string) returns (name: string)
    requires StoryPathMatches(path)
    ensures IsStoryName(name)
    ensures StoriesDir + (name + "/") <= path
    ensures |StoriesDir + (name + "/")| < |path| && IsDigit(path[|StoriesDir + (name + "/")|])
  {
    var d := |StoriesDir|;
    var n := RunLength(path, d, IsStoryChar);
    name := path[d..d + n];
    assert path[d..][..n + 1] == name + "/";
    PrefixOfConcat(StoriesDir, name + "/", path);
  }

  /** A URL matching the first pattern is accepted by the matcher. */
  lemma PostPatternMatched(url: string, a: nat, b: nat, c: nat)
    requires a < |Schemes| && b < |Subdomains| && c < |PostKinds|
    requires PostPrefix(a, b, c) <= url && |PostPrefix(a, b, c)| < |url|
    requires IsCodeChar(url[|PostPrefix(a, b, c)|])
    ensures MatchesValidUrl(url)
  {
    var host := Schemes[a] + Subdomains[b] + Host;
    assert PostPrefix(a, b, c) == host + (PostKinds[c] + "/");
    PrefixSplit(host, PostKinds[c] + "/", url);
    HostDetermined(url, a, b);
    var rest := url[|Schemes[a]|..];
    var path := rest[|Subdomains[b] + Host|..];
    assert path == url[|host|..];
    KindDetermined(path, c);
    assert path[|PostKinds[c]| + 1] == url[|PostPrefix(a, b, c)|];
  }

  /** A URL matching the second pattern is accepted by the matcher. */
  lemma StoryPatternMatched(url: string, a: nat, b: nat, name: string)
    requires a < |Schemes| && b < |Subdomains| && IsStoryName(name)
    requires StoryPath(a, b, name) <= url && |StoryPath(a, b, name)| < |url|
    requires IsDigit(url[|StoryPath(a, b, name)|])
    ensures MatchesValidUrl(url)
  {
    var host := Schemes[a] + Subdomains[b] + Host;
    assert StoryPath(a, b, name) == host + (StoriesDir + name + "/");
    PrefixSplit(host, StoriesDir + name + "/", url);
    HostDetermined(url, a, b);
    var path := url[|host|..];
    assert path[|StoriesDir + name + "/"|] == url[|StoryPath(a, b, name)|];
    StoryTailAccepted(path, name);
  }

  /** `stories/<name>/<digit>` at the start of the path is accepted, the greedy
      name run stopping at the `/`. */
  lemma StoryTailAccepted(path: string, name: string)
    requires IsStoryName(name)
    requires StoriesDir + name + "/" <= path && |StoriesDir + name + "/"| < |path|
    requires IsDigit(path[|StoriesDir + name + "/"|])
    ensures StoryPathMatches(path)
  {
    PrefixSplit(StoriesDir, name + "/", path);
    var d := |StoriesDir|;
    assert path[d..d + |name|] == name;
    assert path[d + |name|] == '/';
    RunLengthExact(path, d, IsStoryChar, |name|);
  }

  /** Text after the matched part never changes the verdict from accepted. */
  lemma TrailingTextAllowed(url: string, tail: string)
    requires ValidateInstagramUrl(Some(url))
    ensures ValidateInstagramUrl(Some(url + tail))
  {
    if MatchesPostPattern(url) {
      PostPatternExtends(url, tail);
    } else {
      StoryPatternExtends(url, tail);
    }
  }

  lemma PostPatternExtends(url: string, tail: string)
    requires MatchesPostPattern(url)
    ensures MatchesPostPattern(url + tail)
  {
    var u := url + tail;
    var a: nat, b: nat, c: nat :| a < |Schemes| && b < |Subdomains| && c < |PostKinds| &&
      PostPrefix(a, b, c) <= url && |PostPrefix(a, b, c)| < |url| && IsCodeChar(url[|PostPrefix(a, b, c)|]);
    assert PostPrefix(a, b, c) <= u && u[|PostPrefix(a, b, c)|] == url[|PostPrefix(a, b, c)|];
  }

  lemma StoryPatternExtends(url: string, tail: string)
    requires MatchesStoryPattern(url)
    ensures MatchesStoryPattern(url + tail)
  {
    var u := url + tail;
    var a: nat, b: nat, name :| a < |Schemes| && b < |Subdomains| && IsStoryName(name) &&
      StoryPath(a, b, name) <= url && |StoryPath(a, b, name)| < |url| && IsDigit(url[|StoryPath(a, b, name)|]);
    assert StoryPath(a, b, name) <= u && u[|StoryPath(a, b, name)|] == url[|StoryPath(a, b, name)|];
  }
}
