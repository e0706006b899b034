/** Media-list selection of fetch_instagram_media: the best-format choice over
    the format records yt-dlp reports, and the scraping fallback's pass that
    cleans, de-duplicates and truncates the URLs its patterns found. The
    extraction itself and the page download are inputs here. */
module Media {
  import opened Wrappers
  import opened Text

  datatype MediaKind = Video | Photo

  /** The `quality` field of an entry: `"<height>p"`, `"HDp"` (a chosen
      format without a height), `"HD"` or `"thumbnail"`. */
  datatype Quality = Pixels(height: int) | HdP | Hd | ThumbnailQuality

  /** One element of the `media` list of the response; `ext` is absent for photos
      and for the fallback's entries. */
  datatype MediaEntry = MediaEntry(kind: MediaKind, url: string, quality: Quality, ext: Option<string>)

  /** One element of `info['formats']`; `None` for a key that is absent. */
  datatype Format = Format(url: string, height: Option<int>, vcodec: Option<string>, acodec: Option<string>, ext: Option<string>)

  /** The parts of yt-dlp's `info` dictionary the selection reads. */
  datatype VideoInfo = VideoInfo(formats: Option<seq<Format>>, url: Option<string>, ext: Option<string>, thumbnail: Option<string>)

  datatype ResolveError = NoInfo | NoDirectUrl | NoMediaFound

  /** `f.get('vcodec') != 'none' and f.get('acodec') != 'none'`. */
  predicate HasAudioAndVideo(f: Format) {
    f.vcodec != Some("none") && f.acodec != Some("none")
  }

  /** `f.get('height', 0)`. */
  function HeightKey(f: Format): int {
    match f.height
    case None => 0
    case Some(h) => h
  }

  /** `x.get('ext', 'mp4')`. */
  function ExtOrMp4(ext: Option<string>): string {
    match ext
    case None => "mp4"
    case Some(e) => e
  }

  /** The list comprehension keeping the formats with both audio and video. */
  function PlayableFormats(fs: seq<Format>): (r: seq<Format>)
    ensures |r| <= |fs|
    ensures forall f :: f in r <==> f in fs && HasAudioAndVideo(f)
  {
    if fs == [] then []
    else
      var last := fs[|fs| - 1];
      PlayableFormats(fs[..|fs| - 1]) + (if HasAudioAndVideo(last) then [last] else [])
  }

  /** The filter keeps the formats in their order: the `k`-th kept format
      sits at some index `i` of `fs`, and the formats kept before it are
      exactly those kept from `fs[..i]`. */
  lemma {:induction false} PlayableFormatsKeepOrder(fs: seq<Format>, k: nat)
    requires k < |PlayableFormats(fs)|
    ensures exists i :: 0 <= i < |fs| && fs[i] == PlayableFormats(fs)[k] && PlayableFormats(fs[..i]) == PlayableFormats(fs)[..k]
  {
    var init := fs[..|fs| - 1];
    var p := PlayableFormats(init);
    var all := PlayableFormats(fs);
    assert all[..|p|] == p;
    if k < |p| {
      PlayableFormatsKeepOrder(init, k);
      var i :| 0 <= i < |init| && init[i] == p[k] && PlayableFormats(init[..i]) == p[..k];
      assert init[..i] == fs[..i];
      assert all[..k] == p[..k];
      assert fs[i] == all[k];
    } else {
      assert fs[..|fs| - 1] == init;
      assert all[k] == fs[|fs| - 1];
    }
  }

  /** `max(fs, key=height)`: the index of the FIRST format of greatest height,
      as Python's `max` keeps its candidate unless a later key is strictly larger. */
  function BestIndex(fs: seq<Format>): (k: nat)
    requires fs != []
    ensures k < |fs|
    ensures forall j :: 0 <= j < |fs| ==> HeightKey(fs[j]) <= HeightKey(fs[k])
    ensures forall j :: 0 <= j < k ==> HeightKey(fs[j]) < HeightKey(fs[k])
  {
    if |fs| == 1 then 0
    else
      var k := BestIndex(fs[..|fs| - 1]);
      if HeightKey(fs[|fs| - 1]) > HeightKey(fs[k]) then |fs| - 1 else k
  }

  /** `f` occurs in `fs`, and at its first such place every earlier format
      with audio and video is strictly lower. */
  ghost predicate FirstBest(fs: seq<Format>, f: Format) {
    exists i :: 0 <= i < |fs| && fs[i] == f && forall j :: 0 <= j < i && HasAudioAndVideo(fs[j]) ==> HeightKey(fs[j]) < HeightKey(f)
  }

  /** The format fetch_instagram_media takes the video from, if any qualifies:
      one with audio and video whose height is at least every other such
      format's, and the first of those in the list. */
  function ChosenFormat(fs: seq<Format>): (r: Option<Format>)
    ensures r.None? <==> forall f :: f in fs ==> !HasAudioAndVideo(f)
    ensures r.Some? ==> r.value in fs && HasAudioAndVideo(r.value)
    ensures r.Some? ==> forall f :: f in fs && HasAudioAndVideo(f) ==> HeightKey(f) <= HeightKey(r.value)
    ensures r.Some? ==> FirstBest(fs, r.value)
  {
    var playable := PlayableFormats(fs);
    if playable == [] then None
    else
      var k := BestIndex(playable);
      assert forall f :: f in playable ==> exists j :: 0 <= j < |playable| && playable[j] == f;
      assert playable[k] in playable;
      BestPlayableIsFirst(fs, k);
      Some(playable[k])
  }

  /** The `k`-th playable format, when every playable format before it is
      strictly lower, is the first best one of `fs`. */
  lemma BestPlayableIsFirst(fs: seq<Format>, k: nat)
    requires k < |PlayableFormats(fs)|
    requires forall j :: 0 <= j < k ==> HeightKey(PlayableFormats(fs)[j]) < HeightKey(PlayableFormats(fs)[k])
    ensures FirstBest(fs, PlayableFormats(fs)[k])
  {
    var all := PlayableFormats(fs);
    PlayableFormatsKeepOrder(fs, k);
    var i :| 0 <= i < |fs| && fs[i] == all[k] && PlayableFormats(fs[..i]) == all[..k];
    forall j | 0 <= j < i && HasAudioAndVideo(fs[j])
      ensures HeightKey(fs[j]) < HeightKey(all[k])
    {
      assert fs[j] == fs[..i][j];
      assert fs[j] in all[..k];
      var m :| 0 <= m < k && all[..k][m] == fs[j];
      assert all[m] == fs[j];
    }
  }

  /** The video entry built from a chosen format. */
  function FormatEntry(f: Format): MediaEntry {
    MediaEntry(Video, f.url, match f.height case Some(h) => Pixels(h) case None => HdP, Some(ExtOrMp4(f.ext)))
  }

  predicate HasFormats(info: VideoInfo) {
    info.formats.Some? && info.formats.value != []
  }

  /** The media list of the yt-dlp path of fetch_instagram_media. `None` for
      an extraction that gave nothing; a failure here makes the caller try
      the scraping fallback. */
  function SelectMedia(extracted: Option<VideoInfo>): (r: Result<seq<MediaEntry>, ResolveError>)
    ensures extracted.None? ==> r == Failure(NoInfo)
    ensures r.Success? ==> |r.value| <= 2
    ensures r.Success? ==>
      |r.value| == (if HasFormats(extracted.value) then 1 else 0) + (if Truthy(extracted.value.thumbnail) then 1 else 0)
    ensures r.Success? ==>
      ((r.value != [] && r.value[0].kind == Video) <==> HasFormats(extracted.value))
    ensures r.Success? ==>
      if Truthy(extracted.value.thumbnail) then
        r.value != [] && r.value[|r.value| - 1] == MediaEntry(Photo, extracted.value.thumbnail.value, ThumbnailQuality, None)
      else
        forall e :: e in r.value ==> e.kind == Video
    ensures extracted.Some? && HasFormats(extracted.value) ==>
      var f := ChosenFormat(extracted.value.formats.value);
      f.Some? ==> r.Success? && r.value[0] == FormatEntry(f.value)
    ensures extracted.Some? && !HasFormats(extracted.value) ==> r.Success?
    ensures extracted.Some? && HasFormats(extracted.value) ==>
      var info := extracted.value;
      ChosenFormat(info.formats.value).None? ==>
        (r.Success? <==> info.url.Some?) &&
        (r.Success? ==> r.value[0] == MediaEntry(Video, info.url.value, Hd, Some(ExtOrMp4(info.ext))))
  {
    if extracted.None? then Failure(NoInfo)
    else
      var info := extracted.value;
      var video: Result<seq<MediaEntry>, ResolveError> :=
        if HasFormats(info) then
          match ChosenFormat(info.formats.value)
          case Some(best) => Success([FormatEntry(best)])
          case None =>
            if info.url.None? then Failure(NoDirectUrl)
            else Success([MediaEntry(Video, info.url.value, Hd, Some(ExtOrMp4(info.ext)))])
        else
          Success([]);
      match video
      case Failure(e) => Failure(e)
      case Success(v) =>
        if Truthy(info.thumbnail) then Success(v + [MediaEntry(Photo, info.thumbnail.value, ThumbnailQuality, None)])
        else Success(v)
  }

  // ---------------------------------------------------------------------
  // The scraping fallback

  /** The kinds of the four page patterns, in the order they are tried:
      `"video_url"`, `"display_url"`, `og:video`, `og:image`. */
  const FallbackKinds: seq<MediaKind> := [Video, Photo, Video, Photo]

  const MaxFallbackItems: nat := 5

  /** `match.replace('\\u0026', '&').replace('\\', '')`. */
  function CleanUrl(m: string): (r: string)
    ensures '\\' !in r
  {
    ReplaceAllRemoves(ReplaceAll(m, "\\u0026", "&"), '\\', "");
    ReplaceAll(ReplaceAll(m, "\\u0026", "&"), "\\", "")
  }

  /** The entries one pattern contributes, before the duplicate check. */
  function PatternEntries(kind: MediaKind, matches: seq<string>): (r: seq<MediaEntry>)
    ensures |r| == |matches|
    ensures forall i :: 0 <= i < |r| ==> r[i] == MediaEntry(kind, CleanUrl(matches[i]), Hd, None)
  {
    if matches == [] then []
    else PatternEntries(kind, matches[..|matches| - 1]) + [MediaEntry(kind, CleanUrl(matches[|matches| - 1]), Hd, None)]
  }

  /** All candidate entries: pattern order first, then match order. */
  function Candidates(found: seq<seq<string>>): seq<MediaEntry>
    requires |found| <= |FallbackKinds|
  {
    if found == [] then []
    else Candidates(found[..|found| - 1]) + PatternEntries(FallbackKinds[|found| - 1], found[|found| - 1])
  }

  predicate HasUrl(media: seq<MediaEntry>, url: string) {
    exists i :: 0 <= i < |media| && media[i].url == url
  }

  /** No URL appears twice in `media`. */
  predicate DistinctUrls(media: seq<MediaEntry>) {
    forall i, j :: 0 <= i < j < |media| ==> media[i].url != media[j].url
  }

  /** One step of the loop: append unless the URL is empty or already listed. */
  function Admit(media: seq<MediaEntry>, e: MediaEntry): seq<MediaEntry> {
    if e.url != [] && !HasUrl(media, e.url) then media + [e] else media
  }

  /** The list the fallback's loop builds from a sequence of candidates. */
  function KeepFirst(cs: seq<MediaEntry>): seq<MediaEntry> {
    if cs == [] then [] else Admit(KeepFirst(cs[..|cs| - 1]), cs[|cs| - 1])
  }

  /** The media list of fetch_instagram_media_fallback: the kept entries, at
      most five of them, or an error when none was found. */
  function FallbackResult(found: seq<seq<string>>): Result<seq<MediaEntry>, ResolveError>
    requires |found| <= |FallbackKinds|
  {
    var media := KeepFirst(Candidates(found));
    if media == [] then Failure(NoMediaFound)
    else if |media| <= MaxFallbackItems then Success(media)
    else Success(media[..MaxFallbackItems])
  }

  /** The loop of fetch_instagram_media_fallback over the `re.findall` results
      of the four patterns (`found[i]` for pattern `i`), then the empty check
      and the `[:5]` truncation. */
  method CollectFallbackMedia(found: seq<seq<string>>) returns (r: Result<seq<MediaEntry>, ResolveError>)
    requires |found| == |FallbackKinds|
    ensures r == FallbackResult(found)
    ensures r.Success? ==> 1 <= |r.value| <= MaxFallbackItems
    ensures r.Success? ==> forall i :: 0 <= i < |r.value| ==> r.value[i].url != [] && '\\' !in r.value[i].url
    ensures r.Success? ==> DistinctUrls(r.value)
    ensures r.Failure? <==> forall c :: c in Candidates(found) ==> c.url == []
  {
    var media: seq<MediaEntry> := [];
    var p := 0;
    while p < |found|
      invariant 0 <= p <= |found|
      invariant media == KeepFirst(Candidates(found[..p]))
    {
      var kind := FallbackKinds[p];
      var matches := found[p];
      var m := 0;
      assert Candidates(found[..p]) + PatternEntries(kind, matches[..0]) == Candidates(found[..p]);
      while m < |matches|
        invariant 0 <= m <= |matches|
        invariant media == KeepFirst(Candidates(found[..p]) + PatternEntries(kind, matches[..m]))
      {
        var cleanUrl := CleanUrl(matches[m]);
        AdmitStep(Candidates(found[..p]), kind, matches, m);
        if cleanUrl != [] && !HasUrl(media, cleanUrl) {
          media := media + [MediaEntry(kind, cleanUrl, Hd, None)];
        }
        m := m + 1;
      }
      assert matches[..m] == matches;
      assert found[..p + 1][..p] == found[..p];
      p := p + 1;
    }
    assert found[..p] == found;
    FallbackResultShape(found);
    if media == [] {
      r := Failure(NoMediaFound);
    } else if |media| <= MaxFallbackItems {
      r := Success(media);
    } else {
      r := Success(media[..MaxFallbackItems]);
    }
  }

  /** One turn of the inner loop is one `Admit` step on the candidates seen so far. */
  lemma AdmitStep(prefix: seq<MediaEntry>, kind: MediaKind, matches: seq<string>, m: nat)
    requires m < |matches|
    ensures KeepFirst(prefix + PatternEntries(kind, matches[..m + 1])) ==
      Admit(KeepFirst(prefix + PatternEntries(kind, matches[..m])), MediaEntry(kind, CleanUrl(matches[m]), Hd, None))
  {
    var cs := prefix + PatternEntries(kind, matches[..m + 1]);
    assert matches[..m + 1][..m] == matches[..m];
    assert cs == (prefix + PatternEntries(kind, matches[..m])) + [MediaEntry(kind, CleanUrl(matches[m]), Hd, None)];
    assert cs[..|cs| - 1] == prefix + PatternEntries(kind, matches[..m]);
  }

  /** What the fallback promises about its list: one to five entries, each with a
      non-empty URL free of backslashes, no URL twice; an error exactly when no
      pattern found a non-empty URL. */
  lemma FallbackResultShape(found: seq<seq<string>>)
    requires |found| <= |FallbackKinds|
    ensures var r := FallbackResult(found);
      && (r.Success? ==> 1 <= |r.value| <= MaxFallbackItems)
      && (r.Success? ==> forall i :: 0 <= i < |r.value| ==> r.value[i].url != [] && '\\' !in r.value[i].url)
      && (r.Success? ==> DistinctUrls(r.value))
      && (r.Failure? <==> forall c :: c in Candidates(found) ==> c.url == [])
  {
    var cs := Candidates(found);
    var media := KeepFirst(cs);
    CandidatesClean(found);
    KeptEntriesWellFormed(cs);
    KeptEntriesDistinct(cs);
    KeepsEveryUrl(cs);
    assert forall i :: 0 <= i < |media| ==> media[i] in media;
    if media != [] {
      assert media[0] in cs;
      if |media| > MaxFallbackItems {
        var t := media[..MaxFallbackItems];
        forall i, j | 0 <= i < j < |t|
          ensures t[i].url != t[j].url
        {
          assert t[i] == media[i] && t[j] == media[j];
        }
      }
    }
  }

  /** Every candidate URL is free of backslashes. */
  lemma {:induction false} CandidatesClean(found: seq<seq<string>>)
    requires |found| <= |FallbackKinds|
    ensures forall c :: c in Candidates(found) ==> '\\' !in c.url
  {
    if found != [] {
      CandidatesClean(found[..|found| - 1]);
      var es := PatternEntries(FallbackKinds[|found| - 1], found[|found| - 1]);
      assert forall c :: c in es ==> '\\' !in c.url;
    }
  }

  /** The kept entries are candidates with a non-empty URL. */
  lemma {:induction false} KeptEntriesWellFormed(cs: seq<MediaEntry>)
    ensures forall e :: e in KeepFirst(cs) ==> e in cs && e.url != []
  {
    if cs != [] {
      KeptEntriesWellFormed(cs[..|cs| - 1]);
    }
  }

  /** No URL is listed twice. */
  lemma {:induction false} KeptEntriesDistinct(cs: seq<MediaEntry>)
    ensures DistinctUrls(KeepFirst(cs))
  {
    if cs != [] {
      var prev := KeepFirst(cs[..|cs| - 1]);
      KeptEntriesDistinct(cs[..|cs| - 1]);
      var e := cs[|cs| - 1];
      if e.url != [] && !HasUrl(prev, e.url) {
        var r := prev + [e];
        assert KeepFirst(cs) == r;
        forall i, j | 0 <= i < j < |r|
          ensures r[i].url != r[j].url
        {
          assert r[i] == prev[i];
          if j == |prev| {
            assert r[j] == e;
            assert !(0 <= i < |prev| && prev[i].url == e.url);
          } else {
            assert r[j] == prev[j];
          }
        }
      }
    }
  }

  /** Every non-empty candidate URL is listed. */
  lemma {:induction false} KeepsEveryUrl(cs: seq<MediaEntry>)
    ensures forall c :: c in cs && c.url != [] ==> HasUrl(KeepFirst(cs), c.url)
  {
    if cs != [] {
      var prev := cs[..|cs| - 1];
      var last := cs[|cs| - 1];
      KeepsEveryUrl(prev);
      var r := KeepFirst(prev);
      var out := KeepFirst(cs);
      assert out == Admit(r, last);
      assert forall i :: 0 <= i < |r| ==> out[i] == r[i];
      forall c | c in cs && c.url != []
        ensures HasUrl(out, c.url)
      {
        if c in prev {
          var i :| 0 <= i < |r| && r[i].url == c.url;
          assert out[i].url == c.url;
        } else {
          assert c == last;
          if HasUrl(r, c.url) {
            var i :| 0 <= i < |r| && r[i].url == c.url;
            assert out[i].url == c.url;
          } else {
            assert out[|r|] == c;
          }
        }
      }
    }
  }

  /** `e` is the first of `cs` to carry its URL. */
  ghost predicate FirstWithUrl(cs: seq<MediaEntry>, e: MediaEntry) {
    exists i ::
      && 0 <= i < |cs|
      && cs[i] == e
      && forall j :: 0 <= j < i ==> cs[j].url != e.url
  }

  /** Each kept entry is the FIRST candidate carrying its URL. */
  lemma {:induction false} KeepsFirstOccurrence(cs: seq<MediaEntry>, k: nat)
    requires k < |KeepFirst(cs)|
    ensures FirstWithUrl(cs, KeepFirst(cs)[k])
  {
    var prev := cs[..|cs| - 1];
    var last := cs[|cs| - 1];
    var r := KeepFirst(prev);
    assert KeepFirst(cs) == Admit(r, last);
    if k < |r| {
      KeepsFirstOccurrence(prev, k);
      var i :| 0 <= i < |prev| && prev[i] == r[k] && forall j :: 0 <= j < i ==> prev[j].url != r[k].url;
      assert cs[i] == prev[i];
      assert KeepFirst(cs)[k] == r[k];
      assert forall j :: 0 <= j < i ==> cs[j] == prev[j];
    } else {
      assert KeepFirst(cs)[k] == last;
      assert !HasUrl(r, last.url);
      KeepsEveryUrl(prev);
      forall j | 0 <= j < |prev|
        ensures cs[j].url != last.url
      {
        assert cs[j] == prev[j];
        assert prev[j] in prev;
      }
      assert cs[|prev|] == last;
    }
  }

  /** `cs[i]` is the first candidate that carries its URL. */
  ghost predicate FirstOfItsUrl(cs: seq<MediaEntry>, i: int) {
    0 <= i < |cs| && forall m :: 0 <= m < i ==> cs[m].url != cs[i].url
  }

  /** The kept entries come in the order of the candidates they were taken
      from, each being the first candidate that carries its URL. */
  lemma {:induction false} KeptInCandidateOrder(cs: seq<MediaEntry>, a: nat, b: nat)
    requires a < b < |KeepFirst(cs)|
    ensures exists i, j ::
      && 0 <= i < j < |cs|
      && cs[i] == KeepFirst(cs)[a] && cs[j] == KeepFirst(cs)[b]
      && FirstOfItsUrl(cs, i) && FirstOfItsUrl(cs, j)
  {
    var prev := cs[..|cs| - 1];
    var last := cs[|cs| - 1];
    var r := KeepFirst(prev);
    var out := KeepFirst(cs);
    assert out == Admit(r, last);
    assert out[a] == r[a];
    if b < |r| {
      KeptInCandidateOrder(prev, a, b);
      var i, j :| 0 <= i < j < |prev| && prev[i] == r[a] && prev[j] == r[b] && FirstOfItsUrl(prev, i) && FirstOfItsUrl(prev, j);
      FirstInPrefix(cs, i);
      FirstInPrefix(cs, j);
      assert out[b] == r[b];
    } else {
      assert out[b] == last;
      KeepsFirstOccurrence(prev, a);
      var i :| 0 <= i < |prev| && prev[i] == r[a] && forall m :: 0 <= m < i ==> prev[m].url != r[a].url;
      FirstInPrefix(cs, i);
      AdmittedIsFirst(cs);
    }
  }

  /** Being first with one's URL among all but the last candidate carries over to all of them. */
  lemma FirstInPrefix(cs: seq<MediaEntry>, i: int)
    requires cs != [] && FirstOfItsUrl(cs[..|cs| - 1], i)
    ensures FirstOfItsUrl(cs, i) && cs[i] == cs[..|cs| - 1][i]
  {
    assert forall m :: 0 <= m <= i ==> cs[m] == cs[..|cs| - 1][m];
  }

  /** A last candidate that the loop admits is the first with its URL. */
  lemma AdmittedIsFirst(cs: seq<MediaEntry>)
    requires cs != [] && |KeepFirst(cs)| > |KeepFirst(cs[..|cs| - 1])|
    ensures FirstOfItsUrl(cs, |cs| - 1)
  {
    var prev := cs[..|cs| - 1];
    var last := cs[|cs| - 1];
    assert last.url != [] && !HasUrl(KeepFirst(prev), last.url);
    KeepsEveryUrl(prev);
    forall m | 0 <= m < |prev|
      ensures cs[m].url != last.url
    {
      assert cs[m] == prev[m] && prev[m] in prev;
    }
  }

  /** How fetch_instagram_media resolves: the yt-dlp selection when it
      succeeds, otherwise the scraping fallback over the patterns found on
      the page (`None` when the page could not be fetched). */
  datatype Resolved = Resolved(viaFallback: bool, media: seq<MediaEntry>)

  function ResolveMedia(extracted: Option<VideoInfo>, page: Option<seq<seq<string>>>): (r: Result<Resolved, ResolveError>)
    requires page.Some? ==> |page.value| == |FallbackKinds|
    ensures SelectMedia(extracted).Success? ==> r == Success(Resolved(false, SelectMedia(extracted).value))
    ensures SelectMedia(extracted).Failure? && page.Some? ==>
      (r.Success? <==> FallbackResult(page.value).Success?) &&
      (r.Success? ==> r.value == Resolved(true, FallbackResult(page.value).value))
    ensures SelectMedia(extracted).Failure? && page.None? ==> r.Failure?
    ensures r.Failure? ==> SelectMedia(extracted).Failure? && r.error == SelectMedia(extracted).error
    ensures r.Success? && r.value.viaFallback ==> 1 <= |r.value.media| <= MaxFallbackItems
  {
    match SelectMedia(extracted)
    case Success(media) => Success(Resolved(false, media))
    case Failure(e) =>
      if page.None? then Failure(e)
      else
        match FallbackResult(page.value)
        case Success(media) => Success(Resolved(true, media))
        case Failure(_) => Failure(e)
  }
}
