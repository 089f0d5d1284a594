/**
 * The main process's recording side: file names for new recordings, the
 * registry of running ffmpeg jobs keyed by stream URL (`activeRecordings`),
 * the IPC handlers that change it, and the reconnect counter each live
 * recording keeps while ffmpeg reports `start`, `error` and `end`.
 *
 * The ffmpeg processes themselves are not modelled: a launch is a `Job`
 * value, and the events ffmpeg would raise are calls to the handlers below.
 */
module Recorder {
  import opened Wrappers
  import opened JsStrings
  import opened OrderedMaps

  // ---------------------------------------------------------------------
  // generateFilename

  const FilePrefix := "KickClient_"
  const FileExtension := ".mp4"

  predicate IsAlphanumeric(c: char) {
    ('a' <= c <= 'z') || ('A' <= c <= 'Z') || ('0' <= c <= '9')
  }

  /** The character `/[^a-zA-Z0-9]/g` leaves in place of `c`. */
  function SafeChar(c: char): char {
    if IsAlphanumeric(c) then c else '_'
  }

  /** The character `/[:.]/g` leaves in place of `c`. */
  function TimeChar(c: char): char {
    if c == ':' || c == '.' then '-' else c
  }

  /** A global character-by-character replacement: `s` with each character `c` turned into `f(c)`. */
  function MapChars(s: string, f: char -> char): (r: string)
    ensures |r| == |s|
    ensures forall i :: 0 <= i < |s| ==> r[i] == f(s[i])
    decreases |s|
  {
    if s == [] then [] else [f(s[0])] + MapChars(s[1..], f)
  }

  /** `streamName.replace(/[^a-zA-Z0-9]/g, '_')` */
  function Sanitize(name: string): string {
    MapChars(name, SafeChar)
  }

  /** `toISOString().replace(/[:.]/g, '-')` applied to the given ISO time. */
  function FileTimestamp(isoTime: string): string {
    MapChars(isoTime, TimeChar)
  }

  /**
   * A sanitized name keeps every letter and digit in place and has `_` at
   * every other position; sanitizing it again changes nothing.
   */
  lemma SanitizeSafe(name: string)
    ensures |Sanitize(name)| == |name|
    ensures forall i :: 0 <= i < |name| ==>
              (IsAlphanumeric(name[i]) ==> Sanitize(name)[i] == name[i])
              && (!IsAlphanumeric(name[i]) ==> Sanitize(name)[i] == '_')
    ensures Sanitize(Sanitize(name)) == Sanitize(name)
  {
  }

  /**
   * Two names give the same sanitized name exactly when they have the same
   * length and agree wherever either of them has a letter or digit; so, for
   * instance, `a b` and `a_b` are written to the same file name.
   */
  lemma {:induction false} SanitizeCollides(a: string, b: string)
    ensures Sanitize(a) == Sanitize(b) <==>
              |a| == |b| && forall i :: 0 <= i < |a| && (IsAlphanumeric(a[i]) || IsAlphanumeric(b[i])) ==> a[i] == b[i]
  {
    var sa, sb := Sanitize(a), Sanitize(b);
    if sa == sb {
      forall i | 0 <= i < |a| && (IsAlphanumeric(a[i]) || IsAlphanumeric(b[i])) ensures a[i] == b[i] {
        assert sa[i] == sb[i];
      }
    }
    if |a| == |b| && forall i :: 0 <= i < |a| && (IsAlphanumeric(a[i]) || IsAlphanumeric(b[i])) ==> a[i] == b[i] {
      forall i | 0 <= i < |a| ensures sa[i] == sb[i] {
      }
    }
  }

  /**
   * `generateFilename(name)` with the current time passed in: the prefix,
   * the sanitized name, `_`, the time with `:` and `.` turned into `-`, and
   * the `.mp4` extension.
   */
  function GenerateFilename(name: string, isoTime: string): (f: string)
    ensures |f| == |FilePrefix| + |name| + 1 + |isoTime| + |FileExtension|
    ensures f[..|FilePrefix|] == FilePrefix && f[|f| - |FileExtension|..] == FileExtension
    ensures forall i :: 0 <= i < |name| ==> f[|FilePrefix| + i] == SafeChar(name[i])
    ensures f[|FilePrefix| + |name|] == '_'
    ensures forall j :: 0 <= j < |isoTime| ==> f[|FilePrefix| + |name| + 1 + j] == TimeChar(isoTime[j])
  {
    FilePrefix + Sanitize(name) + "_" + FileTimestamp(isoTime) + FileExtension
  }

  /**
   * A file name has no `:` and only the one `.` of its extension, and it has
   * no `/` when the time has none, so joining it to the downloads folder
   * names a file directly inside that folder.
   */
  lemma FilenameCharacters(name: string, isoTime: string)
    ensures var f := GenerateFilename(name, isoTime);
            && ':' !in f
            && (forall i :: 0 <= i < |f| - |FileExtension| ==> f[i] != '.')
            && ('/' !in isoTime ==> '/' !in f)
  {
    var f := GenerateFilename(name, isoTime);
    var n := |FilePrefix| + |name| + 1;
    forall i | 0 <= i < |f| ensures f[i] != ':' && (i < |f| - |FileExtension| ==> f[i] != '.')
                                    && ('/' !in isoTime ==> f[i] != '/') {
      if i < |FilePrefix| {
        assert f[i] == f[..|FilePrefix|][i];
      } else if i < n - 1 {
        assert f[i] == SafeChar(name[i - |FilePrefix|]);
      } else if n <= i < |f| - |FileExtension| {
        assert f[i] == TimeChar(isoTime[i - n]);
        assert isoTime[i - n] in isoTime;
      } else if i >= |f| - |FileExtension| {
        assert f[i] == f[|f| - |FileExtension|..][i - (|f| - |FileExtension|)];
      }
    }
  }

  /** `streamName || fallback`: an absent or empty name is replaced by `fallback`. */
  function NameOrDefault(name: Option<string>, fallback: string): (r: string)
    ensures name.Some? && name.value != [] ==> r == name.value
    ensures name.None? || name.value == [] ==> r == fallback
  {
    match name
    case Some(n) => if n != [] then n else fallback
    case None => fallback
  }

  // ---------------------------------------------------------------------
  // The reconnect counter, as a function of the events ffmpeg reports

  const MaxReconnectAttempts := 5
  const ReconnectDelayMs := 3000

  /** Whether an error message looks like a dropped connection (the test is case-sensitive). */
  function IsTransient(message: string): (r: bool)
    ensures r <==> exists i :: OccursAt(message, "Connection", i) || OccursAt(message, "timeout", i)
                               || OccursAt(message, "end of file", i)
  {
    Includes(message, "Connection") || Includes(message, "timeout") || Includes(message, "end of file")
  }

  datatype Decision = Retry | GiveUp

  /** What the `error` handler does after `attempts` reconnects since the last `start`. */
  function ErrorDecision(attempts: nat, message: string): (d: Decision)
    ensures d == Retry <==> attempts < MaxReconnectAttempts && IsTransient(message)
  {
    if attempts < MaxReconnectAttempts && IsTransient(message) then Retry else GiveUp
  }

  datatype FfmpegEvent = Started | Failed(message: string) | Ended

  /** The counter after one event: `start` resets it, a retried error adds one. */
  function AttemptsAfter(attempts: nat, e: FfmpegEvent): (n: nat)
    ensures e.Started? ==> n == 0
    ensures e.Failed? && ErrorDecision(attempts, e.message) == Retry ==> n == attempts + 1
    ensures e.Failed? && ErrorDecision(attempts, e.message) == GiveUp ==> n == attempts
    ensures e.Ended? ==> n == attempts
  {
    match e
    case Started => 0
    case Failed(m) => if ErrorDecision(attempts, m) == Retry then attempts + 1 else attempts
    case Ended => attempts
  }

  /** The counter after a sequence of events, starting from `attempts`. */
  function Replay(attempts: nat, events: seq<FfmpegEvent>): nat
    decreases |events|
  {
    if events == [] then attempts else Replay(AttemptsAfter(attempts, events[0]), events[1..])
  }

  /** The counter never leaves `0..5`, whatever ffmpeg reports. */
  lemma {:induction false} ReplayBounded(attempts: nat, events: seq<FfmpegEvent>)
    requires attempts <= MaxReconnectAttempts
    ensures Replay(attempts, events) <= MaxReconnectAttempts
    decreases |events|
  {
    if events != [] {
      ReplayBounded(AttemptsAfter(attempts, events[0]), events[1..]);
    }
  }

  function CountFailures(events: seq<FfmpegEvent>): nat
    decreases |events|
  {
    if events == [] then 0 else (if events[0].Failed? then 1 else 0) + CountFailures(events[1..])
  }

  /**
   * The counter grows only by errors: it never exceeds the start value plus
   * the number of errors, so giving up on a transient error needs at least
   * five errors in a row since the start.
   */
  lemma {:induction false} ReplayCountsFailures(attempts: nat, events: seq<FfmpegEvent>)
    ensures Replay(attempts, events) <= attempts + CountFailures(events)
    decreases |events|
  {
    if events != [] {
      ReplayCountsFailures(AttemptsAfter(attempts, events[0]), events[1..]);
    }
  }

  /** `n` copies of the same error. */
  function Failures(message: string, n: nat): (r: seq<FfmpegEvent>)
    ensures |r| == n && forall k :: 0 <= k < n ==> r[k] == Failed(message)
  {
    if n == 0 then [] else [Failed(message)] + Failures(message, n - 1)
  }

  /**
   * From a fresh start, up to five transient errors are all retried and
   * leave the counter at their number; the sixth is not retried.
   */
  lemma {:induction false} FiveRetriesThenGiveUp(message: string, attempts: nat, n: nat)
    requires IsTransient(message) && attempts + n <= MaxReconnectAttempts
    ensures Replay(attempts, Failures(message, n)) == attempts + n
    ensures attempts + n == MaxReconnectAttempts ==>
              ErrorDecision(Replay(attempts, Failures(message, n)), message) == GiveUp
    decreases n
  {
    if n > 0 {
      FiveRetriesThenGiveUp(message, attempts + 1, n - 1);
      assert Failures(message, n)[1..] == Failures(message, n - 1);
    }
  }

  /** `n` rounds of a transient error followed by a successful relaunch. */
  function FlappingRounds(message: string, n: nat): (r: seq<FfmpegEvent>)
    ensures |r| == 2 * n
  {
    if n == 0 then [] else [Failed(message), Started] + FlappingRounds(message, n - 1)
  }

  /**
   * Since every `start` resets the counter, a stream whose connection keeps
   * dropping and coming back is retried without end: after any number of
   * such rounds the counter is back at 0 and the next error is retried.
   */
  lemma {:induction false} FlappingNeverGivesUp(message: string, n: nat)
    requires IsTransient(message)
    ensures Replay(0, FlappingRounds(message, n)) == 0
    ensures ErrorDecision(Replay(0, FlappingRounds(message, n)), message) == Retry
    decreases n
  {
    if n > 0 {
      FlappingNeverGivesUp(message, n - 1);
      var r := FlappingRounds(message, n);
      assert r[1..][1..] == FlappingRounds(message, n - 1);
    }
  }

  // ---------------------------------------------------------------------
  // The registry and its handlers

  datatype JobKind = Live | Vod

  /** One ffmpeg command: the `serial`-th launched, reading `input` and writing `output`. */
  datatype Job = Job(serial: nat, input: string, output: string, kind: JobKind)

  /** What an IPC handler resolves with. */
  datatype Reply = Success(message: string, path: Option<string>) | Failure(error: string)

  /** The messages the main process sends to the window. */
  datatype Notice =
    | RecordingError(message: string)
    | RecordingComplete(path: string, filename: string)
    | DownloadError(message: string)
    | DownloadComplete(path: string, filename: string)

  /** A started VOD download, as its `end` handler sees it. */
  datatype Download = Download(vodUrl: string, filename: string, outputPath: string)

  /** `path.join(folder, file)` for a folder without a trailing separator. */
  function JoinPath(folder: string, file: string): string {
    folder + "/" + file
  }

  /** The variables one `start-recording` call's callbacks share. */
  class LiveRecording {
    const streamUrl: string
    const filename: string
    const outputPath: string
    /** The `reconnectAttempts` counter. */
    var reconnectAttempts: nat
    /** Relaunch timers set by the `error` handler and not yet fired. */
    var pendingRelaunches: nat

    predicate Valid()
      reads this
    {
      reconnectAttempts <= MaxReconnectAttempts
    }

    constructor(streamUrl: string, filename: string, outputPath: string)
      ensures Valid()
      ensures this.streamUrl == streamUrl && this.filename == filename && this.outputPath == outputPath
      ensures reconnectAttempts == 0 && pendingRelaunches == 0
    {
      this.streamUrl := streamUrl;
      this.filename := filename;
      this.outputPath := outputPath;
      reconnectAttempts := 0;
      pendingRelaunches := 0;
    }
  }

  /** The jobs a shutdown signals: those whose kill does not throw, in key order. */
  function ShutdownSignals(keys: seq<string>, jobs: map<string, Job>, failing: set<string>): (r: seq<Job>)
    requires forall k :: k in keys ==> k in jobs
    decreases |keys|
  {
    if keys == [] then []
    else
      var last := keys[|keys| - 1];
      ShutdownSignals(keys[..|keys| - 1], jobs, failing) + (if last in failing then [] else [jobs[last]])
  }

  /**
   * A shutdown signals the job of every key whose kill does not throw, and
   * nothing else.
   */
  lemma {:induction false} ShutdownSignalsSpec(keys: seq<string>, jobs: map<string, Job>, failing: set<string>)
    requires forall k :: k in keys ==> k in jobs
    ensures forall k :: k in keys && k !in failing ==> jobs[k] in ShutdownSignals(keys, jobs, failing)
    ensures forall j :: j in ShutdownSignals(keys, jobs, failing) ==>
              exists k :: k in keys && k !in failing && jobs[k] == j
    decreases |keys|
  {
    if keys != [] {
      var init := keys[..|keys| - 1];
      var last := keys[|keys| - 1];
      ShutdownSignalsSpec(init, jobs, failing);
      forall k | k in keys && k !in failing ensures jobs[k] in ShutdownSignals(keys, jobs, failing) {
        if k != last {
          var i :| 0 <= i < |keys| && keys[i] == k;
          assert init[i] == k;
        }
      }
      forall j | j in ShutdownSignals(keys, jobs, failing)
        ensures exists k :: k in keys && k !in failing && jobs[k] == j
      {
        if j in ShutdownSignals(init, jobs, failing) {
          var k :| k in init && k !in failing && jobs[k] == j;
          var i :| 0 <= i < |init| && init[i] == k;
          assert keys[i] == k;
        } else {
          assert keys[|keys| - 1] == last;
        }
      }
    }
  }

  /** The main process: the registry and what it has sent out. */
  class MainProcess {
    /** The user's downloads folder. */
    const downloads: string
    /** `activeRecordings`: stream or VOD URL to the ffmpeg job last launched for it. */
    var activeRecordings: OrderedMap<Job>
    /** The jobs sent SIGINT, oldest first. */
    var interrupted: seq<Job>
    /** The messages sent to the window, oldest first. */
    var notices: seq<Notice>
    /** How many ffmpeg jobs have been launched. */
    var launches: nat

    ghost predicate Valid()
      reads this
    {
      activeRecordings.Valid()
    }

    constructor(downloads: string)
      ensures Valid() && this.downloads == downloads
      ensures activeRecordings.keys == [] && interrupted == [] && notices == [] && launches == 0
    {
      this.downloads := downloads;
      activeRecordings := OrderedMap.Empty();
      interrupted := [];
      notices := [];
      launches := 0;
    }

    /** Starts a new ffmpeg job on `input` and files it under `input`, replacing any job there. */
    method Launch(input: string, output: string, kind: JobKind)
      requires Valid()
      modifies this
      ensures Valid()
      ensures launches == old(launches) + 1
      ensures activeRecordings == old(activeRecordings).Set(input, Job(old(launches), input, output, kind))
      ensures interrupted == old(interrupted) && notices == old(notices)
    {
      activeRecordings := activeRecordings.Set(input, Job(launches, input, output, kind));
      launches := launches + 1;
    }

    /**
     * The `start-recording` handler: launches a job for `streamUrl`, with no
     * check for one already running, and answers with the file name and path.
     */
    method StartRecording(streamUrl: string, streamName: Option<string>, isoTime: string)
      returns (reply: Reply, rec: LiveRecording)
      requires Valid()
      modifies this
      ensures Valid() && fresh(rec) && rec.Valid()
      ensures rec.streamUrl == streamUrl && rec.reconnectAttempts == 0 && rec.pendingRelaunches == 0
      ensures rec.filename == GenerateFilename(NameOrDefault(streamName, "stream"), isoTime)
      ensures rec.outputPath == JoinPath(downloads, rec.filename)
      ensures reply == Success("Recording started: " + rec.filename, Some(rec.outputPath))
      ensures launches == old(launches) + 1
      ensures activeRecordings == old(activeRecordings).Set(streamUrl, Job(old(launches), streamUrl, rec.outputPath, Live))
      ensures interrupted == old(interrupted) && notices == old(notices)
    {
      var filename := GenerateFilename(NameOrDefault(streamName, "stream"), isoTime);
      var outputPath := JoinPath(downloads, filename);
      rec := new LiveRecording(streamUrl, filename, outputPath);
      Launch(streamUrl, outputPath, Live);
      reply := Success("Recording started: " + filename, Some(outputPath));
    }

    /** ffmpeg's `start` event for a live recording: the counter goes back to 0. */
    method OnStart(rec: LiveRecording)
      modifies rec
      ensures rec.reconnectAttempts == AttemptsAfter(old(rec.reconnectAttempts), Started)
      ensures rec.Valid() && rec.pendingRelaunches == old(rec.pendingRelaunches)
    {
      rec.reconnectAttempts := 0;
    }

    /**
     * ffmpeg's `error` event for a live recording. A transient error with
     * fewer than five reconnects behind it counts one more and sets a
     * relaunch timer of 3000 ms, leaving the registry as it is; any other
     * error removes the stream from the registry and reports the message.
     */
    method OnError(rec: LiveRecording, message: string) returns (relaunchDelay: Option<nat>)
      requires Valid() && rec.Valid()
      modifies this, rec
      ensures Valid() && rec.Valid()
      ensures rec.reconnectAttempts == AttemptsAfter(old(rec.reconnectAttempts), Failed(message))
      ensures ErrorDecision(old(rec.reconnectAttempts), message) == Retry ==>
                && relaunchDelay == Some(ReconnectDelayMs)
                && rec.pendingRelaunches == old(rec.pendingRelaunches) + 1
                && activeRecordings == old(activeRecordings) && notices == old(notices)
      ensures ErrorDecision(old(rec.reconnectAttempts), message) == GiveUp ==>
                && relaunchDelay == None
                && rec.pendingRelaunches == old(rec.pendingRelaunches)
                && activeRecordings == old(activeRecordings).Delete(rec.streamUrl)
                && notices == old(notices) + [RecordingError(message)]
      ensures interrupted == old(interrupted) && launches == old(launches)
    {
      if rec.reconnectAttempts < MaxReconnectAttempts && IsTransient(message) {
        rec.reconnectAttempts := rec.reconnectAttempts + 1;
        rec.pendingRelaunches := rec.pendingRelaunches + 1;
        relaunchDelay := Some(ReconnectDelayMs);
      } else {
        activeRecordings := activeRecordings.Delete(rec.streamUrl);
        notices := notices + [RecordingError(message)];
        relaunchDelay := None;
      }
    }

    /** ffmpeg's `end` event for a live recording: the stream leaves the registry and completion is reported. */
    method OnEnd(rec: LiveRecording)
      requires Valid()
      modifies this
      ensures Valid()
      ensures activeRecordings == old(activeRecordings).Delete(rec.streamUrl)
      ensures notices == old(notices) + [RecordingComplete(rec.outputPath, rec.filename)]
      ensures interrupted == old(interrupted) && launches == old(launches)
    {
      activeRecordings := activeRecordings.Delete(rec.streamUrl);
      notices := notices + [RecordingComplete(rec.outputPath, rec.filename)];
    }

    /**
     * A relaunch timer fires: a new job for the stream is launched and filed
     * under its URL, whether or not the recording was stopped meanwhile.
     */
    method RelaunchTimerFired(rec: LiveRecording)
      requires Valid() && rec.pendingRelaunches > 0
      modifies this, rec
      ensures Valid()
      ensures rec.pendingRelaunches == old(rec.pendingRelaunches) - 1
      ensures rec.reconnectAttempts == old(rec.reconnectAttempts)
      ensures launches == old(launches) + 1
      ensures activeRecordings == old(activeRecordings).Set(rec.streamUrl, Job(old(launches), rec.streamUrl, rec.outputPath, Live))
      ensures interrupted == old(interrupted) && notices == old(notices)
    {
      rec.pendingRelaunches := rec.pendingRelaunches - 1;
      Launch(rec.streamUrl, rec.outputPath, Live);
    }

    /**
     * The `stop-recording` handler, with the error `kill` throws (if any) passed
     * in: a registered stream whose job takes the SIGINT leaves the registry;
     * when the kill throws, or nothing is registered, the registry stays as it is.
     */
    method StopRecording(streamUrl: string, killError: Option<string>) returns (reply: Reply)
      requires Valid()
      modifies this
      ensures Valid()
      ensures streamUrl in old(activeRecordings.values) && killError.None? ==>
                && reply == Success("Recording stopped", None)
                && interrupted == old(interrupted) + [old(activeRecordings.values[streamUrl])]
                && activeRecordings == old(activeRecordings).Delete(streamUrl)
      ensures streamUrl in old(activeRecordings.values) && killError.Some? ==>
                && reply == Failure(killError.value)
                && interrupted == old(interrupted) && activeRecordings == old(activeRecordings)
      ensures streamUrl !in old(activeRecordings.values) ==>
                && reply == Failure("No active recording found")
                && interrupted == old(interrupted) && activeRecordings == old(activeRecordings)
      ensures notices == old(notices) && launches == old(launches)
    {
      match activeRecordings.Get(streamUrl)
      case Some(job) =>
        match killError {
          case None =>
            interrupted := interrupted + [job];
            activeRecordings := activeRecordings.Delete(streamUrl);
            reply := Success("Recording stopped", None);
          case Some(e) =>
            reply := Failure(e);
        }
      case None =>
        reply := Failure("No active recording found");
    }

    /** The `get-active-recordings` handler: the registered URLs, each once, in insertion order. */
    method GetActiveRecordings() returns (urls: seq<string>)
      requires Valid()
      ensures urls == activeRecordings.keys
      ensures Distinct(urls) && |urls| == |activeRecordings.values|
      ensures forall u :: u in urls <==> u in activeRecordings.values
    {
      SizeAgrees(activeRecordings);
      urls := activeRecordings.keys;
    }

    /**
     * The `download-vod` handler: launches a job for `vodUrl`, replacing any
     * job filed there, and answers with the file name (but no path).
     */
    method DownloadVod(vodUrl: string, vodName: Option<string>, isoTime: string)
      returns (reply: Reply, download: Download)
      requires Valid()
      modifies this
      ensures Valid()
      ensures download.vodUrl == vodUrl
      ensures download.filename == GenerateFilename(NameOrDefault(vodName, "vod"), isoTime)
      ensures download.outputPath == JoinPath(downloads, download.filename)
      ensures reply == Success("Download started: " + download.filename, None)
      ensures launches == old(launches) + 1
      ensures activeRecordings == old(activeRecordings).Set(vodUrl, Job(old(launches), vodUrl, download.outputPath, Vod))
      ensures interrupted == old(interrupted) && notices == old(notices)
    {
      var filename := GenerateFilename(NameOrDefault(vodName, "vod"), isoTime);
      var outputPath := JoinPath(downloads, filename);
      Launch(vodUrl, outputPath, Vod);
      download := Download(vodUrl, filename, outputPath);
      reply := Success("Download started: " + filename, None);
    }

    /** ffmpeg's `error` event for a VOD download: reported, and the URL stays registered. */
    method OnDownloadError(download: Download, message: string)
      requires Valid()
      modifies this
      ensures Valid()
      ensures notices == old(notices) + [DownloadError(message)]
      ensures activeRecordings == old(activeRecordings)
      ensures interrupted == old(interrupted) && launches == old(launches)
    {
      notices := notices + [DownloadError(message)];
    }

    /** ffmpeg's `end` event for a VOD download: reported, and the URL stays registered. */
    method OnDownloadEnd(download: Download)
      requires Valid()
      modifies this
      ensures Valid()
      ensures notices == old(notices) + [DownloadComplete(download.outputPath, download.filename)]
      ensures activeRecordings == old(activeRecordings)
      ensures interrupted == old(interrupted) && launches == old(launches)
    {
      notices := notices + [DownloadComplete(download.outputPath, download.filename)];
    }

    /**
     * The `window-all-closed` handler, with the URLs whose `kill` throws
     * passed in: every other job is sent SIGINT in key order, the errors are
     * swallowed, and the registry ends up empty.
     */
    method WindowAllClosed(failing: set<string>)
      requires Valid()
      modifies this
      ensures Valid() && activeRecordings.keys == [] && activeRecordings.values == map[]
      ensures interrupted == old(interrupted)
                             + ShutdownSignals(old(activeRecordings.keys), old(activeRecordings.values), failing)
      ensures notices == old(notices) && launches == old(launches)
    {
      var keys := activeRecordings.keys;
      var jobs := activeRecordings.values;
      for i := 0 to |keys|
        invariant activeRecordings == old(activeRecordings) && notices == old(notices) && launches == old(launches)
        invariant interrupted == old(interrupted) + ShutdownSignals(keys[..i], jobs, failing)
      {
        assert keys[..i + 1][..i] == keys[..i];
        if keys[i] !in failing {
          interrupted := interrupted + [jobs[keys[i]]];
        }
      }
      assert keys[..|keys|] == keys;
      activeRecordings := OrderedMap.Empty();
    }
  }

  // ---------------------------------------------------------------------
  // Consequences of the handlers, for a freshly started main process

  /**
   * Stopping a recording while it waits to reconnect does not end it: the
   * pending relaunch puts the stream back into the registry.
   */
  method StopDuringReconnect(downloads: string, streamUrl: string, isoTime: string, message: string)
    returns (urls: seq<string>)
    requires IsTransient(message)
    ensures urls == [streamUrl]
  {
    var process := new MainProcess(downloads);
    var reply, rec := process.StartRecording(streamUrl, None, isoTime);
    process.OnStart(rec);
    var delay := process.OnError(rec, message);
    reply := process.StopRecording(streamUrl, None);
    process.RelaunchTimerFired(rec);
    urls := process.GetActiveRecordings();
  }

  /**
   * Starting the same stream twice leaves one registry entry, holding the
   * second job; the first is never signalled.
   */
  method StartTwice(downloads: string, streamUrl: string, isoTime: string)
    returns (urls: seq<string>, job: Job, signalled: seq<Job>)
    ensures urls == [streamUrl]
    ensures job.serial == 1
    ensures signalled == [job]
  {
    var process := new MainProcess(downloads);
    var reply, first := process.StartRecording(streamUrl, Some("a"), isoTime);
    assert process.activeRecordings.keys == [streamUrl] && process.launches == 1;
    var second;
    reply, second := process.StartRecording(streamUrl, Some("a"), isoTime);
    assert process.activeRecordings.keys == [streamUrl];
    urls := process.GetActiveRecordings();
    job := process.activeRecordings.values[streamUrl];
    assert job.serial == 1 && process.interrupted == [];
    process.WindowAllClosed({});
    signalled := process.interrupted;
  }

  /** A finished VOD download stays listed as active. */
  method FinishedDownloadStaysListed(downloads: string, vodUrl: string, isoTime: string)
    returns (urls: seq<string>, notices: seq<Notice>)
    ensures urls == [vodUrl]
    ensures |notices| == 1 && notices[0].DownloadComplete?
  {
    var process := new MainProcess(downloads);
    var reply, download := process.DownloadVod(vodUrl, None, isoTime);
    process.OnDownloadEnd(download);
    urls := process.GetActiveRecordings();
    notices := process.notices;
  }
}
