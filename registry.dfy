/** The server's artifact registry: the MP3 files made by convert_video_to_mp3
    (`mp3_files`), the transcription cache (`transcriptions`) and the files of
    the temporary directory, with the two ways entries expire (the half-hourly
    sweep of cleanup_old_files, which drops files older than an hour, and the per-file schedule_cleanup). Clocks,
    downloads, ffmpeg and the speech recogniser are inputs. */
module Registry {
  import opened Wrappers
  import opened Text

  /** Seconds since the epoch, as `int(time.time())`. */
  type Time = nat

  /** A registry entry: where the MP3 is, the name it is served under, and when it was made. */
  datatype Mp3Info = Mp3Info(path: string, filename: string, created: Time)

  /** What transcribe_audio returns: `success` true with a text, or false with an error. */
  datatype AudioResult = Transcribed(text: string, language: string) | TranscribeFailed(error: string)

  /** The whole server state: both dictionaries, and the files of the
      temporary directory with their modification times. */
  datatype Store = Store(mp3Files: map<string, Mp3Info>, transcriptions: map<string, AudioResult>, disk: map<string, Time>)

  /** Why a conversion answered 500: one of the three steps before the
      registration failed, or a step after it raised. */
  datatype ConvertFailure = DownloadFailed | FileTooLarge | FfmpegFailed | FailedAfterRegistration

  /** The answers of the four endpoints. */
  datatype Reply =
    | Converted(mp3Id: string, filename: string, quality: string)
    | MissingVideoUrl
    | ConversionFailed(reason: ConvertFailure)
    | NotFoundOrExpired
    | FileNotFound
    | SendFile(path: string, downloadName: string)
    | Transcription(result: AudioResult, cached: bool)

  /** The HTTP status of a reply; a failed transcription is still answered with 200. */
  function StatusCode(r: Reply): (code: int)
    ensures code == 200 <==> r.Converted? || r.SendFile? || r.Transcription?
    ensures code == 404 <==> r.NotFoundOrExpired? || r.FileNotFound?
  {
    match r
    case Converted(_, _, _) => 200
    case MissingVideoUrl => 400
    case ConversionFailed(_) => 500
    case NotFoundOrExpired => 404
    case FileNotFound => 404
    case SendFile(_, _) => 200
    case Transcription(_, _) => 200
  }

  /** One hour: files and entries strictly older than this are swept. */
  const Ttl: nat := 3600

  /** The size limit, 300 MB, in hundredths of a megabyte. */
  const MaxSizeCentiMb: nat := 30000

  const ValidQualities: seq<string> := ["128", "192", "320"]

  /** The name of a downloaded video inside the temporary directory. */
  function VideoPath(id: string): string {
    "video_" + id + ".mp4"
  }

  /** The name of a converted MP3 inside the temporary directory. */
  function Mp3Path(id: string): string {
    "audio_" + id + ".mp3"
  }

  /** The name the MP3 is served under. */
  function AudioFilename(now: Time): string {
    "instagram_audio_" + NatToString(now) + ".mp3"
  }

  /** A video and an MP3 never share a name, and no two ids share an MP3. */
  lemma PathsDistinct(id: string, other: string)
    ensures VideoPath(id) != Mp3Path(other)
    ensures Mp3Path(id) == Mp3Path(other) ==> id == other
  {
    assert VideoPath(id)[0] != Mp3Path(other)[0];
    if Mp3Path(id) == Mp3Path(other) {
      assert |id| == |other|;
      assert id == Mp3Path(id)[6..6 + |id|];
      assert other == Mp3Path(other)[6..6 + |other|];
    }
  }

  /** The requested bitrate, or "192" when it is missing or not one of the three offered. */
  function NormalizeQuality(quality: Option<string>): (r: string)
    ensures r in ValidQualities
    ensures quality.Some? && quality.value in ValidQualities ==> r == quality.value
    ensures quality.None? || quality.value !in ValidQualities ==> r == "192"
  {
    if quality.Some? && quality.value in ValidQualities then quality.value else "192"
  }

  /** The outcome of the outside steps of one conversion: whether the download
      worked, the size of the video (rounded to hundredths of a megabyte),
      whether ffmpeg worked, how many seconds the size and duration probes
      take after ffmpeg has written the MP3, and whether the removal of the
      video or the start of the eviction timer raises after the registration. */
  datatype ConvertRun = ConvertRun(downloadOk: bool, sizeCentiMb: nat, ffmpegOk: bool, afterEncode: nat, failsAfterRegistration: bool)

  /** The time a successful conversion registers its MP3, when ffmpeg wrote
      it at `now`: the probes run in between, so the entry is younger than its file. */
  function CreatedAt(now: Time, run: ConvertRun): (created: Time)
    ensures created >= now
  {
    now + run.afterEncode
  }

  /** convert_video_to_mp3 with the new id `id`, where `now` is the time
      ffmpeg writes the MP3. A failure before the registration deletes both
      temporary files and leaves the dictionaries alone; a success registers
      the MP3 (named and dated by the registration time), keeps it on disk and
      deletes the video; a failure after the registration deletes both files
      but keeps the entry. */
  function ConvertSpec(s: Store, videoUrl: Option<string>, quality: Option<string>, id: string, now: Time, run: ConvertRun): (Store, Reply) {
    if !Truthy(videoUrl) then (s, MissingVideoUrl)
    else
      var failed := s.(disk := s.disk - {VideoPath(id), Mp3Path(id)});
      if !run.downloadOk then (failed, ConversionFailed(DownloadFailed))
      else if run.sizeCentiMb > MaxSizeCentiMb then (failed, ConversionFailed(FileTooLarge))
      else if !run.ffmpegOk then (failed, ConversionFailed(FfmpegFailed))
      else RegisterSpec(s.(disk := s.disk[VideoPath(id) := now][Mp3Path(id) := now]), id, NormalizeQuality(quality), now, run)
  }

  /** The steps of convert_video_to_mp3 after ffmpeg has written the MP3 at
      `now`: the registration, then the removal of the video, or the error
      handler's removal of both files when a step after the registration raises. */
  function RegisterSpec(s: Store, id: string, quality: string, now: Time, run: ConvertRun): (Store, Reply) {
    var created := CreatedAt(now, run);
    var info := Mp3Info(Mp3Path(id), AudioFilename(created), created);
    if run.failsAfterRegistration then
      (Store(s.mp3Files[id := info], s.transcriptions, s.disk - {VideoPath(id), Mp3Path(id)}),
       ConversionFailed(FailedAfterRegistration))
    else
      (Store(s.mp3Files[id := info], s.transcriptions, s.disk - {VideoPath(id)}), Converted(id, info.filename, quality))
  }

  /** Strictly older than an hour at `now`. */
  predicate Expired(now: Time, t: Time) {
    now - t > Ttl
  }

  /** cleanup_old_files at time `now`: expired files and expired entries go;
      the transcription cache is not touched. */
  function SweepSpec(s: Store, now: Time): Store {
    Store(
      map id | id in s.mp3Files && !Expired(now, s.mp3Files[id].created) :: s.mp3Files[id],
      s.transcriptions,
      map p | p in s.disk && !Expired(now, s.disk[p]) :: s.disk[p])
  }

  /** schedule_cleanup for `id`: its MP3 and its entry go, if still there. */
  function EvictSpec(s: Store, id: string): Store {
    Store(s.mp3Files - {id}, s.transcriptions, s.disk - {Mp3Path(id)})
  }

  /** The two checks download_mp3_file and transcribe_file start with: the id
      must be registered, and its file must still exist (if not, the entry is
      dropped). */
  function CheckArtifact(s: Store, id: string): (Store, Result<Mp3Info, Reply>) {
    if id !in s.mp3Files then (s, Failure(NotFoundOrExpired))
    else if s.mp3Files[id].path !in s.disk then (s.(mp3Files := s.mp3Files - {id}), Failure(FileNotFound))
    else (s, Success(s.mp3Files[id]))
  }

  /** download_mp3_file. */
  function DownloadSpec(s: Store, id: string): (Store, Reply) {
    var checked := CheckArtifact(s, id);
    match checked.1
    case Failure(r) => (checked.0, r)
    case Success(info) => (checked.0, SendFile(info.path, info.filename))
  }

  /** The `language` field of a transcription request: absent, JSON `null`,
      or a string. */
  datatype LanguageField = Absent | Null | Given(language: string)

  /** `data.get('language', 'pt')`: "pt" only when the field is absent; a
      `null` reaches the recogniser as `None`. */
  function LanguageOrDefault(field: LanguageField): (r: Option<string>)
    ensures field.Absent? ==> r == Some("pt")
    ensures field.Null? ==> r.None?
    ensures field.Given? ==> r == Some(field.language)
  {
    match field
    case Absent => Some("pt")
    case Null => None
    case Given(language) => Some(language)
  }

  /** transcribe_file, with `transcribe` standing for transcribe_audio. The
      cache is consulted only after both checks, and only a successful result
      is stored. */
  function TranscribeSpec(s: Store, id: string, language: LanguageField, transcribe: (string, Option<string>) -> AudioResult): (Store, Reply) {
    var checked := CheckArtifact(s, id);
    var s1 := checked.0;
    match checked.1
    case Failure(r) => (s1, r)
    case Success(info) =>
      if id in s1.transcriptions then (s1, Transcription(s1.transcriptions[id], true))
      else
        var result := transcribe(info.path, LanguageOrDefault(language));
        if result.Transcribed? then (s1.(transcriptions := s1.transcriptions[id := result]), Transcription(result, false))
        else (s1, Transcription(result, false))
  }

  /** The server object holding the two dictionaries and the temporary directory. */
  class Server {
    var mp3Files: map<string, Mp3Info>
    var transcriptions: map<string, AudioResult>
    var disk: map<string, Time>

    function State(): Store
      reads this
    {
      Store(mp3Files, transcriptions, disk)
    }

    /** Both dictionaries start empty; the temporary directory is created if
        missing and keeps whatever files `listing` says it already holds. */
    constructor(listing: map<string, Time>)
      ensures State() == Store(map[], map[], listing)
      ensures Invariant(State())
    {
      mp3Files := map[];
      transcriptions := map[];
      disk := listing;
    }

    /** convert_video_to_mp3: download, size check, ffmpeg, registration,
        removal of the video, and the clean-up of both files on error (which
        does not undo a registration already made). */
    method Convert(videoUrl: Option<string>, quality: Option<string>, id: string, now: Time, run: ConvertRun) returns (reply: Reply)
      modifies this
      ensures (State(), reply) == ConvertSpec(old(State()), videoUrl, quality, id, now, run)
    {
      if !Truthy(videoUrl) {
        return MissingVideoUrl;
      }
      var q := NormalizeQuality(quality);
      var videoPath := VideoPath(id);
      var mp3Path := Mp3Path(id);
      PathsDistinct(id, id);
      var failure: ConvertFailure;
      if !run.downloadOk {
        failure := DownloadFailed;
      } else {
        disk := disk[videoPath := now];
        if run.sizeCentiMb > MaxSizeCentiMb {
          failure := FileTooLarge;
        } else if !run.ffmpegOk {
          failure := FfmpegFailed;
        } else {
          disk := disk[mp3Path := now];
          reply := Register(id, q, now, run);
          return;
        }
      }
      DiscardFiles([videoPath, mp3Path]);
      assert disk == old(disk) - {videoPath, mp3Path};
      reply := ConversionFailed(failure);
    }

    /** The steps after ffmpeg: registration, removal of the video, and the
        error handler when the removal or the timer start raises. */
    method Register(id: string, quality: string, now: Time, run: ConvertRun) returns (reply: Reply)
      modifies this
      ensures (State(), reply) == RegisterSpec(old(State()), id, quality, now, run)
    {
      var videoPath := VideoPath(id);
      var created := CreatedAt(now, run);
      var info := Mp3Info(Mp3Path(id), AudioFilename(created), created);
      mp3Files := mp3Files[id := info];
      if videoPath in disk {
        disk := disk - {videoPath};
      }
      if run.failsAfterRegistration {
        DiscardFiles([videoPath, Mp3Path(id)]);
        assert disk == old(disk) - {videoPath, Mp3Path(id)};
        return ConversionFailed(FailedAfterRegistration);
      }
      assert disk == old(disk) - {videoPath};
      reply := Converted(id, info.filename, quality);
    }

    /** The clean-up of convert_video_to_mp3's error handler: each of the
        paths that still exists is deleted; the dictionaries are not touched. */
    method DiscardFiles(paths: seq<string>)
      modifies this
      ensures disk == old(disk) - set p | p in paths
      ensures mp3Files == old(mp3Files) && transcriptions == old(transcriptions)
    {
      var i := 0;
      while i < |paths|
        invariant 0 <= i <= |paths|
        invariant disk == old(disk) - set p | p in paths[..i]
        invariant mp3Files == old(mp3Files) && transcriptions == old(transcriptions)
      {
        if paths[i] in disk {
          disk := disk - {paths[i]};
        }
        assert paths[..i + 1] == paths[..i] + [paths[i]];
        i := i + 1;
      }
      assert paths[..i] == paths;
    }

    /** cleanup_old_files: one pass over the directory listing deleting
        expired files, then one over the registry collecting expired ids,
        then their deletion. */
    method Sweep(now: Time)
      modifies this
      ensures State() == SweepSpec(old(State()), now)
    {
      var listing := disk.Keys;
      while listing != {}
        invariant listing <= old(disk).Keys
        invariant mp3Files == old(mp3Files) && transcriptions == old(transcriptions)
        invariant disk == map p | p in old(disk) && (p in listing || !Expired(now, old(disk)[p])) :: old(disk)[p]
        decreases listing
      {
        var name :| name in listing;
        if Expired(now, disk[name]) {
          disk := disk - {name};
        }
        listing := listing - {name};
      }

      ghost var sweptDisk := disk;
      var toDelete: set<string> := {};
      var entries := mp3Files.Keys;
      while entries != {}
        invariant entries <= mp3Files.Keys
        invariant mp3Files == old(mp3Files) && transcriptions == old(transcriptions) && disk == sweptDisk
        invariant forall id :: id in toDelete <==> id in mp3Files && id !in entries && Expired(now, mp3Files[id].created)
        decreases entries
      {
        var id :| id in entries;
        if Expired(now, mp3Files[id].created) {
          toDelete := toDelete + {id};
        }
        entries := entries - {id};
      }

      ghost var registered := mp3Files;
      while toDelete != {}
        invariant toDelete <= mp3Files.Keys
        invariant registered == old(mp3Files) && transcriptions == old(transcriptions) && disk == sweptDisk
        invariant forall id :: id in toDelete ==> Expired(now, registered[id].created)
        invariant mp3Files == map id | id in registered && (id in toDelete || !Expired(now, registered[id].created)) :: registered[id]
        decreases toDelete
      {
        var id :| id in toDelete;
        mp3Files := mp3Files - {id};
        toDelete := toDelete - {id};
      }
    }

    /** The body of schedule_cleanup, once its hour has passed. */
    method ScheduledEvict(id: string)
      modifies this
      ensures State() == EvictSpec(old(State()), id)
    {
      var mp3Path := Mp3Path(id);
      if mp3Path in disk {
        disk := disk - {mp3Path};
      }
      if id in mp3Files {
        mp3Files := mp3Files - {id};
      }
    }

    /** The checks shared by DownloadMp3 and Transcribe. */
    method Check(id: string) returns (checked: Result<Mp3Info, Reply>)
      modifies this
      ensures (State(), checked) == CheckArtifact(old(State()), id)
    {
      if id !in mp3Files {
        return Failure(NotFoundOrExpired);
      }
      var info := mp3Files[id];
      if info.path !in disk {
        mp3Files := mp3Files - {id};
        return Failure(FileNotFound);
      }
      checked := Success(info);
    }

    /** download_mp3_file. */
    method DownloadMp3(id: string) returns (reply: Reply)
      modifies this
      ensures (State(), reply) == DownloadSpec(old(State()), id)
    {
      var checked := Check(id);
      if checked.Failure? {
        return checked.error;
      }
      reply := SendFile(checked.value.path, checked.value.filename);
    }

    /** transcribe_file. */
    method Transcribe(id: string, language: LanguageField, transcribe: (string, Option<string>) -> AudioResult) returns (reply: Reply)
      modifies this
      ensures (State(), reply) == TranscribeSpec(old(State()), id, language, transcribe)
    {
      var checked := Check(id);
      if checked.Failure? {
        return checked.error;
      }
      if id in transcriptions {
        return Transcription(transcriptions[id], true);
      }
      var result := transcribe(checked.value.path, LanguageOrDefault(language));
      if result.Transcribed? {
        transcriptions := transcriptions[id := result];
      }
      reply := Transcription(result, false);
    }
  }

  // ---------------------------------------------------------------------
  // Properties of the registry

  /** The sweep's cut-off is strict, for entries by their creation time and
      for files by their modification time, each on its own: exactly one hour
      old stays, one second older goes. */
  lemma SweepCutoffIsStrict(s: Store, now: Time, id: string, p: string)
    requires id in s.mp3Files && p in s.disk
    ensures now == s.mp3Files[id].created + Ttl ==> id in SweepSpec(s, now).mp3Files
    ensures now == s.mp3Files[id].created + Ttl + 1 ==> id !in SweepSpec(s, now).mp3Files
    ensures now == s.disk[p] + Ttl ==> p in SweepSpec(s, now).disk
    ensures now == s.disk[p] + Ttl + 1 ==> p !in SweepSpec(s, now).disk
  {
  }

  /** Sweeping twice at the same time is sweeping once. */
  lemma SweepIdempotent(s: Store, now: Time)
    ensures SweepSpec(SweepSpec(s, now), now) == SweepSpec(s, now)
  {
  }

  /** A later sweep subsumes an earlier one. */
  lemma SweepSubsumesEarlier(s: Store, earlier: Time, later: Time)
    requires earlier <= later
    ensures SweepSpec(SweepSpec(s, earlier), later) == SweepSpec(s, later)
  {
  }

  /** Evicting twice is evicting once, so a scheduled eviction that runs
      after the sweep already removed everything is harmless. */
  lemma EvictIdempotent(s: Store, id: string)
    ensures EvictSpec(EvictSpec(s, id), id) == EvictSpec(s, id)
  {
  }

  /** The sweep and a scheduled eviction give the same state in either order. */
  lemma EvictCommutesWithSweep(s: Store, id: string, now: Time)
    ensures EvictSpec(SweepSpec(s, now), id) == SweepSpec(EvictSpec(s, id), now)
  {
  }

  /** After its eviction an id is unknown to both endpoints, even when its
      transcription is still cached: the cache is never reached. */
  lemma EvictedIdNotFound(s: Store, id: string, language: LanguageField, transcribe: (string, Option<string>) -> AudioResult)
    ensures var e := EvictSpec(s, id);
      && e.transcriptions == s.transcriptions
      && DownloadSpec(e, id) == (e, NotFoundOrExpired)
      && TranscribeSpec(e, id, language, transcribe) == (e, NotFoundOrExpired)
  {
  }

  /** A registered id whose file has vanished is answered 404 and dropped from
      the registry, by either endpoint; nothing else changes. */
  lemma VanishedFileDropped(s: Store, id: string, language: LanguageField, transcribe: (string, Option<string>) -> AudioResult)
    requires id in s.mp3Files && s.mp3Files[id].path !in s.disk
    ensures var dropped := s.(mp3Files := s.mp3Files - {id});
      && DownloadSpec(s, id) == (dropped, FileNotFound)
      && TranscribeSpec(s, id, language, transcribe) == (dropped, FileNotFound)
      && StatusCode(FileNotFound) == 404
  {
  }

  /** A cached transcription is served as it is: whatever the recogniser or the
      requested language, the reply is the cached result and nothing changes. */
  lemma CacheHitIgnoresRecogniser(s: Store, id: string,
                                  language1: LanguageField, transcribe1: (string, Option<string>) -> AudioResult,
                                  language2: LanguageField, transcribe2: (string, Option<string>) -> AudioResult)
    requires id in s.mp3Files && s.mp3Files[id].path in s.disk && id in s.transcriptions
    ensures TranscribeSpec(s, id, language1, transcribe1) == (s, Transcription(s.transcriptions[id], true))
    ensures TranscribeSpec(s, id, language1, transcribe1) == TranscribeSpec(s, id, language2, transcribe2)
  {
  }

  /** On a cache miss the recogniser is asked once, for the registered path and
      the requested language ("pt" when the field is absent); a failure leaves
      the cache as it was, so the next request asks again. */
  lemma CacheMissAsksRecogniser(s: Store, id: string, language: LanguageField, transcribe: (string, Option<string>) -> AudioResult)
    requires id in s.mp3Files && s.mp3Files[id].path in s.disk && id !in s.transcriptions
    ensures var result := transcribe(s.mp3Files[id].path, LanguageOrDefault(language));
      var after := TranscribeSpec(s, id, language, transcribe);
      && after.1 == Transcription(result, false)
      && after.0.mp3Files == s.mp3Files && after.0.disk == s.disk
      && (result.Transcribed? ==> after.0.transcriptions == s.transcriptions[id := result])
      && (result.TranscribeFailed? ==> after.0.transcriptions == s.transcriptions)
  {
  }

  /** A successful conversion can be downloaded straight away, under its
      `instagram_audio_<time>.mp3` name, and its video is gone. */
  lemma ConvertThenDownload(s: Store, videoUrl: Option<string>, quality: Option<string>, id: string, now: Time, run: ConvertRun)
    requires ConvertSpec(s, videoUrl, quality, id, now, run).1.Converted?
    ensures var after := ConvertSpec(s, videoUrl, quality, id, now, run).0;
      && VideoPath(id) !in after.disk
      && DownloadSpec(after, id) == (after, SendFile(Mp3Path(id), AudioFilename(CreatedAt(now, run))))
  {
    PathsDistinct(id, id);
  }

  /** A failed conversion is answered 500 and leaves neither of its temporary
      files behind. Before the registration it leaves both dictionaries alone;
      after it, the entry stays with its MP3 gone, so the next download of the
      id answers "file not found" and drops it. */
  lemma FailedConvertLeavesNoFiles(s: Store, videoUrl: Option<string>, quality: Option<string>, id: string, now: Time, run: ConvertRun)
    requires ConvertSpec(s, videoUrl, quality, id, now, run).1.ConversionFailed?
    ensures var (after, reply) := ConvertSpec(s, videoUrl, quality, id, now, run);
      && after.transcriptions == s.transcriptions
      && VideoPath(id) !in after.disk && Mp3Path(id) !in after.disk
      && StatusCode(reply) == 500
      && (reply.reason != FailedAfterRegistration ==> after.mp3Files == s.mp3Files)
      && (reply.reason == FailedAfterRegistration ==>
            && after.mp3Files.Keys == s.mp3Files.Keys + {id}
            && DownloadSpec(after, id) == (after.(mp3Files := after.mp3Files - {id}), FileNotFound))
  {
  }

  // ---------------------------------------------------------------------
  // Invariants kept by every operation

  /** Every entry points at its own MP3, and an MP3 still on disk was
      written no later than its entry was created. */
  ghost predicate Consistent(s: Store) {
    forall id :: id in s.mp3Files ==>
      && s.mp3Files[id].path == Mp3Path(id)
      && (Mp3Path(id) in s.disk ==> s.disk[Mp3Path(id)] <= s.mp3Files[id].created)
  }

  /** Only successful transcriptions are ever cached. */
  ghost predicate OnlySuccessesCached(s: Store) {
    forall id :: id in s.transcriptions ==> s.transcriptions[id].Transcribed?
  }

  ghost predicate Invariant(s: Store) {
    Consistent(s) && OnlySuccessesCached(s)
  }

  /** One request or timer event. */
  datatype Event =
    | ConvertEvent(videoUrl: Option<string>, quality: Option<string>, id: string, now: Time, run: ConvertRun)
    | SweepEvent(now: Time)
    | EvictEvent(id: string)
    | DownloadEvent(id: string)
    | TranscribeEvent(id: string, language: LanguageField, transcribe: (string, Option<string>) -> AudioResult)

  function Step(s: Store, e: Event): Store {
    match e
    case ConvertEvent(videoUrl, quality, id, now, run) => ConvertSpec(s, videoUrl, quality, id, now, run).0
    case SweepEvent(now) => SweepSpec(s, now)
    case EvictEvent(id) => EvictSpec(s, id)
    case DownloadEvent(id) => DownloadSpec(s, id).0
    case TranscribeEvent(id, language, transcribe) => TranscribeSpec(s, id, language, transcribe).0
  }

  lemma ConvertKeepsInvariant(s: Store, videoUrl: Option<string>, quality: Option<string>, id: string, now: Time, run: ConvertRun)
    requires Invariant(s)
    ensures Invariant(ConvertSpec(s, videoUrl, quality, id, now, run).0)
  {
    var after := ConvertSpec(s, videoUrl, quality, id, now, run).0;
    forall other | other in after.mp3Files
      ensures after.mp3Files[other].path == Mp3Path(other)
      ensures Mp3Path(other) in after.disk ==> after.disk[Mp3Path(other)] <= after.mp3Files[other].created
    {
      PathsDistinct(id, other);
      PathsDistinct(other, id);
    }
  }

  /** Every event keeps both invariants. */
  lemma StepKeepsInvariant(s: Store, e: Event)
    requires Invariant(s)
    ensures Invariant(Step(s, e))
  {
    match e
    case ConvertEvent(videoUrl, quality, id, now, run) =>
      ConvertKeepsInvariant(s, videoUrl, quality, id, now, run);
    case SweepEvent(now) =>
    case EvictEvent(id) =>
    case DownloadEvent(id) =>
    case TranscribeEvent(id, language, transcribe) =>
  }

  /** The invariants hold after any sequence of events from a store that has
      them, such as the empty one the server starts with. */
  lemma {:induction false} RunKeepsInvariant(s: Store, events: seq<Event>)
    requires Invariant(s)
    ensures Invariant(Run(s, events))
  {
    if events != [] {
      RunKeepsInvariant(s, events[..|events| - 1]);
      StepKeepsInvariant(Run(s, events[..|events| - 1]), events[|events| - 1]);
    }
  }

  function Run(s: Store, events: seq<Event>): Store {
    if events == [] then s else Step(Run(s, events[..|events| - 1]), events[|events| - 1])
  }

  /** In a consistent store an MP3 the sweep keeps still has its entry: the
      file is never younger than the entry. */
  lemma SweepKeepsEntryOfSurvivingFile(s: Store, now: Time, id: string)
    requires Consistent(s)
    requires id in s.mp3Files && Mp3Path(id) in SweepSpec(s, now).disk
    ensures id in SweepSpec(s, now).mp3Files
  {
  }

  /** The other direction fails: the sweep compares the MP3's own time, which
      precedes its entry's by the probes' duration, so a sweep in between
      deletes the file of a fresh conversion but keeps its entry, and the
      download then answers "file not found". */
  lemma SweepCanOrphanEntry(s: Store, videoUrl: Option<string>, quality: Option<string>, id: string, now: Time, run: ConvertRun)
    requires ConvertSpec(s, videoUrl, quality, id, now, run).1.Converted?
    requires run.afterEncode > 0
    ensures var swept := SweepSpec(ConvertSpec(s, videoUrl, quality, id, now, run).0, now + Ttl + 1);
      && id in swept.mp3Files && Mp3Path(id) !in swept.disk
      && DownloadSpec(swept, id).1 == FileNotFound
  {
  }
}
