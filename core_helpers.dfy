/** The small helpers of the core problem type: the debug files of a build
    id, the crash-thread path matcher, and the choice of the stored thread
    that is handed to the satyr library for comparison. */
module CoreHelpers {
  import opened Wrappers
  import opened CoreReport
  import opened Storage

  // ---------------------------------------------------------------------
  // `_build_id_to_debug_files`

  /** Python's `s[:2]` and `s[2:]`. */
  function Head2(s: string): string
  {
    if |s| >= 2 then s[..2] else s
  }

  function Tail2(s: string): string
  {
    if |s| >= 2 then s[2..] else ""
  }

  const DebugPrefix := "/usr/lib/debug/.build-id/"
  const BuildIdPrefix := "/usr/lib/.build-id/"

  /** The separate debuginfo file and the build-id link of a binary, named
      by the first two characters of the build id as a directory. */
  function DebugFiles(buildId: string): (r: seq<string>)
    ensures |r| == 2
  {
    [DebugPrefix + Head2(buildId) + "/" + Tail2(buildId) + ".debug",
     BuildIdPrefix + Head2(buildId) + "/" + Tail2(buildId)]
  }

  /** The build id a build-id link names: the two-character directory and
      the file name after it. */
  function BuildIdOfLink(path: string): (r: Option<string>)
    ensures r.Some? ==> |r.value| >= 2
  {
    var n := |BuildIdPrefix|;
    if |path| >= n + 3 && path[..n] == BuildIdPrefix && path[n + 2] == '/' then
      Some(path[n..n + 2] + path[n + 3..])
    else None
  }

  /** The build id is recovered from its link, so no two build ids (of at
      least two characters) share their debug files. */
  lemma BuildIdRoundTrip(buildId: string)
    requires |buildId| >= 2
    ensures BuildIdOfLink(DebugFiles(buildId)[1]) == Some(buildId)
  {
    var path := DebugFiles(buildId)[1];
    var n := |BuildIdPrefix|;
    assert path == BuildIdPrefix + buildId[..2] + "/" + buildId[2..];
    assert path[..n] == BuildIdPrefix;
    assert path[n..n + 2] == buildId[..2];
    assert path[n + 2] == '/';
    assert path[n + 3..] == buildId[2..];
    assert buildId[..2] + buildId[2..] == buildId;
  }

  lemma DebugFilesInjective(a: string, b: string)
    requires |a| >= 2 && |b| >= 2 && DebugFiles(a) == DebugFiles(b)
    ensures a == b
  {
    BuildIdRoundTrip(a);
    BuildIdRoundTrip(b);
  }

  // ---------------------------------------------------------------------
  // `check_btpath_match`

  /** The last flagged thread, as the first loop leaves `crash_thread`. */
  function LastCrashThread(ts: seq<RawThread>): (r: Option<RawThread>)
  {
    if |ts| == 0 then None
    else if IsCrashThread(ts[|ts| - 1]) then Some(ts[|ts| - 1])
    else LastCrashThread(ts[..|ts| - 1])
  }

  /** It is the flagged thread after which no thread is flagged, and there
      is none exactly when no thread is flagged. */
  lemma {:induction false} LastCrashThreadSpec(ts: seq<RawThread>)
    ensures LastCrashThread(ts).None? <==> forall i :: 0 <= i < |ts| ==> !IsCrashThread(ts[i])
    ensures LastCrashThread(ts).Some? ==>
              exists i :: 0 <= i < |ts| && ts[i] == LastCrashThread(ts).value && IsCrashThread(ts[i])
                          && forall j :: i < j < |ts| ==> !IsCrashThread(ts[j])
  {
    if |ts| > 0 && !IsCrashThread(ts[|ts| - 1]) {
      var init := ts[..|ts| - 1];
      LastCrashThreadSpec(init);
      if LastCrashThread(init).Some? {
        var i :| 0 <= i < |init| && init[i] == LastCrashThread(init).value && IsCrashThread(init[i])
                 && forall j :: i < j < |init| ==> !IsCrashThread(init[j]);
        assert ts[i] == init[i];
        forall j | i < j < |ts| ensures !IsCrashThread(ts[j]) {
          if j < |init| {
            assert ts[j] == init[j];
          }
        }
      } else {
        forall i | 0 <= i < |ts| ensures !IsCrashThread(ts[i]) {
          if i < |init| {
            assert ts[i] == init[i];
          }
        }
      }
    }
  }

  /** On a report with a single crash thread, it is that thread. */
  lemma LastCrashThreadOnly(ts: seq<RawThread>, i: nat)
    requires OnlyCrashThread(ts, i)
    ensures LastCrashThread(ts) == Some(ts[i])
  {
    LastCrashThreadSpec(ts);
    var k :| 0 <= k < |ts| && ts[k] == LastCrashThread(ts).value && IsCrashThread(ts[k])
             && forall j :: k < j < |ts| ==> !IsCrashThread(ts[j]);
    assert k == i;
  }

  /** `frame["file_name"]` on a frame without one. */
  const MissingFileName := "KeyError: 'file_name'"
  /** `crash_thread["frames"]` when no thread is flagged. */
  const NoCrashThread := "TypeError: 'NoneType' object is not subscriptable"
  /** `ureport["stacktrace"]` on a report without one. */
  const MissingStacktrace := "KeyError: 'stacktrace'"

  /** The second loop: true at the first frame whose file name matches. */
  function MatchFrames(fs: seq<RawFrame>, matches: string -> bool): (r: Result<bool>)
  {
    if |fs| == 0 then Ok(false)
    else if fs[0].fileName.None? then Err(MissingFileName)
    else if matches(fs[0].fileName.value) then Ok(true)
    else MatchFrames(fs[1..], matches)
  }

  /** The frame at `i` has a file name and it matches. */
  predicate MatchesAt(fs: seq<RawFrame>, matches: string -> bool, i: int)
  {
    0 <= i < |fs| && fs[i].fileName.Some? && matches(fs[i].fileName.value)
  }

  /** Every frame before `i` has a file name that does not match. */
  predicate NoMatchBefore(fs: seq<RawFrame>, matches: string -> bool, i: int)
    requires i <= |fs|
  {
    forall j :: 0 <= j < i ==> fs[j].fileName.Some? && !matches(fs[j].fileName.value)
  }

  /** True exactly at a matching frame reached without a missing file
      name. */
  lemma {:induction false} MatchFramesTrue(fs: seq<RawFrame>, matches: string -> bool)
    ensures MatchFrames(fs, matches) == Ok(true) <==>
              exists i :: MatchesAt(fs, matches, i) && NoMatchBefore(fs, matches, i)
  {
    if |fs| > 0 && fs[0].fileName.Some? && !matches(fs[0].fileName.value) {
      var rest := fs[1..];
      MatchFramesTrue(rest, matches);
      if exists i :: MatchesAt(rest, matches, i) && NoMatchBefore(rest, matches, i) {
        var i :| MatchesAt(rest, matches, i) && NoMatchBefore(rest, matches, i);
        assert MatchesAt(fs, matches, i + 1) && NoMatchBefore(fs, matches, i + 1);
      }
      if exists i :: MatchesAt(fs, matches, i) && NoMatchBefore(fs, matches, i) {
        var i :| MatchesAt(fs, matches, i) && NoMatchBefore(fs, matches, i);
        assert MatchesAt(rest, matches, i - 1) && NoMatchBefore(rest, matches, i - 1);
      }
    } else if |fs| > 0 && fs[0].fileName.Some? {
      assert MatchesAt(fs, matches, 0) && NoMatchBefore(fs, matches, 0);
    }
  }

  /** False exactly when every frame has a file name and none matches. */
  lemma {:induction false} MatchFramesFalse(fs: seq<RawFrame>, matches: string -> bool)
    ensures MatchFrames(fs, matches) == Ok(false) <==> NoMatchBefore(fs, matches, |fs|)
  {
    if |fs| > 0 && fs[0].fileName.Some? && !matches(fs[0].fileName.value) {
      var rest := fs[1..];
      MatchFramesFalse(rest, matches);
      assert NoMatchBefore(fs, matches, |fs|) <==> NoMatchBefore(rest, matches, |rest|) by {
        if NoMatchBefore(rest, matches, |rest|) {
          forall j | 0 <= j < |fs| ensures fs[j].fileName.Some? && !matches(fs[j].fileName.value) {
            if j > 0 {
              assert fs[j] == rest[j - 1];
            }
          }
        }
        if NoMatchBefore(fs, matches, |fs|) {
          forall j | 0 <= j < |rest| ensures rest[j].fileName.Some? && !matches(rest[j].fileName.value) {
            assert rest[j] == fs[j + 1];
          }
        }
      }
    }
  }

  /** The `KeyError` exactly at a frame without a file name reached before
      any match. */
  lemma {:induction false} MatchFramesErr(fs: seq<RawFrame>, matches: string -> bool)
    ensures MatchFrames(fs, matches).Err? <==>
              exists i :: 0 <= i < |fs| && fs[i].fileName.None? && NoMatchBefore(fs, matches, i)
    ensures MatchFrames(fs, matches).Err? ==> MatchFrames(fs, matches).msg == MissingFileName
  {
    if |fs| > 0 && fs[0].fileName.Some? && !matches(fs[0].fileName.value) {
      var rest := fs[1..];
      MatchFramesErr(rest, matches);
      if exists i :: 0 <= i < |rest| && rest[i].fileName.None? && NoMatchBefore(rest, matches, i) {
        var i :| 0 <= i < |rest| && rest[i].fileName.None? && NoMatchBefore(rest, matches, i);
        assert NoMatchBefore(fs, matches, i + 1);
      }
      if exists i :: 0 <= i < |fs| && fs[i].fileName.None? && NoMatchBefore(fs, matches, i) {
        var i :| 0 <= i < |fs| && fs[i].fileName.None? && NoMatchBefore(fs, matches, i);
        assert NoMatchBefore(rest, matches, i - 1);
      }
    } else if |fs| > 0 && fs[0].fileName.None? {
      assert NoMatchBefore(fs, matches, 0);
    }
  }

  /** `check_btpath_match` with the path parser's `match` as `matches`. */
  function BtpathMatch(report: RawReport, matches: string -> bool): (r: Result<bool>)
  {
    if report.stacktrace.None? then Err(MissingStacktrace)
    else
      match LastCrashThread(report.stacktrace.value)
      case None => Err(NoCrashThread)
      case Some(t) => MatchFrames(t.frames, matches)
  }

  /** On a report that passed validation, the matcher never fails and is
      true exactly when some frame of the crash thread matches. */
  lemma BtpathMatchValidated(report: RawReport, lim: Limits, matches: string -> bool)
    requires SchemaOk(report, lim) && GetCrashThread(report.stacktrace.value).Ok?
    ensures BtpathMatch(report, matches).Ok?
    ensures BtpathMatch(report, matches).value <==>
              exists j :: MatchesAt(GetCrashThread(report.stacktrace.value).value, matches, j)
  {
    var ts := report.stacktrace.value;
    GetCrashThreadFound(ts);
    var i: nat :| OnlyCrashThread(ts, i);
    LastCrashThreadOnly(ts, i);
    var fs := ts[i].frames;
    assert ThreadSchemaOk(ts[i], lim);
    assert forall j :: 0 <= j < |fs| ==> FrameSchemaOk(fs[j], lim);
    MatchFramesTrue(fs, matches);
    MatchFramesErr(fs, matches);
    if exists j :: MatchesAt(fs, matches, j) {
      var j :| MatchesAt(fs, matches, j);
      var k := FirstMatch(fs, matches, j);
      assert NoMatchBefore(fs, matches, k);
    }
  }

  /** The first matching frame at or before `j`, when every frame has a
      file name. */
  lemma {:induction false} FirstMatchExists(fs: seq<RawFrame>, matches: string -> bool, j: int)
    requires MatchesAt(fs, matches, j)
    requires forall k :: 0 <= k < |fs| ==> fs[k].fileName.Some?
    ensures exists k :: MatchesAt(fs, matches, k) && NoMatchBefore(fs, matches, k)
    decreases j
  {
    if !NoMatchBefore(fs, matches, j) {
      var k :| 0 <= k < j && !(fs[k].fileName.Some? && !matches(fs[k].fileName.value));
      FirstMatchExists(fs, matches, k);
    }
  }

  function FirstMatch(fs: seq<RawFrame>, matches: string -> bool, j: int): (k: int)
    requires MatchesAt(fs, matches, j)
    requires forall k :: 0 <= k < |fs| ==> fs[k].fileName.Some?
    ensures MatchesAt(fs, matches, k) && NoMatchBefore(fs, matches, k)
  {
    FirstMatchExists(fs, matches, j);
    var k :| MatchesAt(fs, matches, k) && NoMatchBefore(fs, matches, k);
    k
  }

  /** The two loops of `check_btpath_match`. */
  method CheckBtpathMatch(report: RawReport, matches: string -> bool) returns (r: Result<bool>)
    ensures r == BtpathMatch(report, matches)
  {
    if report.stacktrace.None? {
      return Err(MissingStacktrace);
    }
    var ts := report.stacktrace.value;
    var crash: Option<RawThread> := None;
    for i := 0 to |ts|
      invariant crash == LastCrashThread(ts[..i])
    {
      assert ts[..i + 1][..i] == ts[..i];
      if IsCrashThread(ts[i]) {
        crash := Some(ts[i]);
      }
    }
    assert ts[..|ts|] == ts;
    if crash.None? {
      return Err(NoCrashThread);
    }
    var fs := crash.value.frames;
    for k := 0 to |fs|
      invariant MatchFrames(fs[k..], matches) == MatchFrames(fs, matches)
    {
      assert fs[k..][1..] == fs[k + 1..];
      if fs[k].fileName.None? {
        return Err(MissingFileName);
      }
      if matches(fs[k].fileName.value) {
        return Ok(true);
      }
    }
    r := Ok(false);
  }

  // ---------------------------------------------------------------------
  // `_db_thread_validate` and `db_report_to_satyr`

  /** The placeholder the repair pass leaves on a frame without a function
      name, once stored. */
  predicate PlaceholderSymbol(s: Symbol?)
  {
    s != null && s.name == AnonymousFunction && s.normalizedPath == UnknownFilename
  }

  /** `_db_thread_validate`: a thread is rejected exactly when its only
      frame has the placeholder symbol. */
  predicate ThreadValid(t: Thread)
    reads t, if |t.frames| == 1 then {t.frames[0].symbolSource} else {}
  {
    !(|t.frames| == 1 && PlaceholderSymbol(t.frames[0].symbolSource.symbol))
  }

  /** The position of the first flagged thread. */
  function FirstCrashThread(ths: seq<Thread>): (r: Option<nat>)
    ensures r.Some? ==> r.value < |ths| && ths[r.value].crashThread
    ensures r.Some? ==> forall j :: 0 <= j < r.value ==> !ths[j].crashThread
    ensures r.None? ==> forall j :: 0 <= j < |ths| ==> !ths[j].crashThread
  {
    if |ths| == 0 then None
    else if ths[0].crashThread then Some(0)
    else
      match FirstCrashThread(ths[1..])
      case None => None
      case Some(k) => Some(k + 1)
  }

  /** The thread `db_report_to_satyr` converts: the first flagged thread of
      the first backtrace, when it passes `_db_thread_validate`; none when
      there is no backtrace, the first one has no threads, none of its
      threads is flagged, or the first flagged one is rejected (later
      flagged threads are not tried). */
  method SatyrThread(report: Report) returns (r: Option<Thread>)
    ensures |report.backtraces| == 0 ==> r.None?
    ensures |report.backtraces| > 0 ==>
              var ths := report.backtraces[0].threads;
              var first := FirstCrashThread(ths);
              && (r.Some? <==> first.Some? && ThreadValid(ths[first.value]))
              && (r.Some? ==> r.value == ths[first.value])
  {
    if |report.backtraces| == 0 {
      return None;
    }
    var ths := report.backtraces[0].threads;
    if |ths| == 0 {
      return None;
    }
    for i := 0 to |ths|
      invariant forall j :: 0 <= j < i ==> !ths[j].crashThread
    {
      if !ths[i].crashThread {
        continue;
      }
      if ThreadValid(ths[i]) {
        return Some(ths[i]);
      }
      return None;
    }
    return None;
  }
}
