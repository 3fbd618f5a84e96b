/** The user-space crash ("core") uReport as submitted: its shape, the
    selection of the crash thread, the repair pass for frames that call
    JIT-compiled code, and `validate_ureport`. */
module CoreReport {
  import opened Wrappers
  import opened Text

  // ---------------------------------------------------------------------
  // Data model: a JSON object in which any key may be missing

  datatype RawFrame = RawFrame(
    address: Option<int>,
    buildIdOffset: Option<int>,
    fileName: Option<string>,
    buildId: Option<string>,
    fingerprint: Option<string>,
    functionName: Option<string>)

  datatype RawThread = RawThread(crashThread: Option<bool>, frames: seq<RawFrame>)

  datatype User = User(root: Option<bool>, local: Option<bool>)

  datatype RawReport = RawReport(
    signal: Option<int>,
    component: Option<string>,
    executable: Option<string>,
    user: Option<User>,
    stacktrace: Option<seq<RawThread>>)

  // ---------------------------------------------------------------------
  // The schema (`CoredumpProblem.checker`)

  /** The storage column lengths the string checkers are configured with. */
  datatype Limits = Limits(
    componentLen: nat,    // OpSysComponent.name
    executableLen: nat,   // ReportExecutable.path
    pathLen: nat,         // SymbolSource.path
    buildIdLen: nat,      // SymbolSource.build_id
    hashLen: nat,         // ReportBtHash.hash
    niceNameLen: nat)     // Symbol.nice_name

  /** `^[a-zA-Z0-9\-\._]+$` */
  predicate IsComponentName(s: string)
  {
    |s| > 0 && forall i :: 0 <= i < |s| ==> IsWordChar(s[i]) || s[i] == '-' || s[i] == '.'
  }

  /** `^[a-fA-F0-9]+$` */
  predicate IsHex(s: string)
  {
    |s| > 0 && forall i :: 0 <= i < |s| ==> IsDigit(s[i]) || 'a' <= s[i] <= 'f' || 'A' <= s[i] <= 'F'
  }

  predicate NonNegative(v: Option<int>)
  {
    v.Some? && v.value >= 0
  }

  predicate StringWithin(v: Option<string>, maxLen: nat)
  {
    v.Some? && |v.value| <= maxLen
  }

  predicate OptionalHexWithin(v: Option<string>, maxLen: nat)
  {
    v.None? || (IsHex(v.value) && |v.value| <= maxLen)
  }

  predicate FrameSchemaOk(f: RawFrame, lim: Limits)
  {
    && NonNegative(f.address)
    && NonNegative(f.buildIdOffset)
    && StringWithin(f.fileName, lim.pathLen)
    && OptionalHexWithin(f.buildId, lim.buildIdLen)
    && OptionalHexWithin(f.fingerprint, lim.hashLen)
    && (f.functionName.None? || |f.functionName.value| <= lim.niceNameLen)
  }

  predicate ThreadSchemaOk(t: RawThread, lim: Limits)
  {
    |t.frames| >= 1 && forall j :: 0 <= j < |t.frames| ==> FrameSchemaOk(t.frames[j], lim)
  }

  /** The declarative checker of the core problem type. */
  predicate SchemaOk(r: RawReport, lim: Limits)
  {
    && NonNegative(r.signal)
    && r.component.Some? && IsComponentName(r.component.value) && |r.component.value| <= lim.componentLen
    && StringWithin(r.executable, lim.executableLen)
    && r.user.Some? && r.user.value.root.Some? && r.user.value.local.Some?
    && r.stacktrace.Some? && |r.stacktrace.value| >= 1
    && forall i :: 0 <= i < |r.stacktrace.value| ==> ThreadSchemaOk(r.stacktrace.value[i], lim)
  }

  // ---------------------------------------------------------------------
  // Crash thread (`_get_crash_thread`)

  /** `"crash_thread" in t and t["crash_thread"]` */
  predicate IsCrashThread(t: RawThread)
  {
    t.crashThread == Some(true)
  }

  /** `[t for t in stacktrace if "crash_thread" in t and t["crash_thread"]]` */
  function CrashThreads(ts: seq<RawThread>): seq<RawThread>
  {
    if |ts| == 0 then []
    else (if IsCrashThread(ts[0]) then [ts[0]] else []) + CrashThreads(ts[1..])
  }

  /** The frames of the single crash thread, or the error `_get_crash_thread` raises. */
  function GetCrashThread(ts: seq<RawThread>): Result<seq<RawFrame>>
  {
    var crash := CrashThreads(ts);
    if |crash| == 0 then Err("No crash thread found")
    else if |crash| > 1 then Err("Multiple crash threads found")
    else Ok(crash[0].frames)
  }

  lemma {:induction false} CrashThreadsEmpty(ts: seq<RawThread>)
    ensures |CrashThreads(ts)| == 0 <==> forall i :: 0 <= i < |ts| ==> !IsCrashThread(ts[i])
  {
    if |ts| > 0 {
      CrashThreadsEmpty(ts[1..]);
      if forall i :: 0 <= i < |ts| - 1 ==> !IsCrashThread(ts[1..][i]) {
        forall i | 1 <= i < |ts| ensures !IsCrashThread(ts[i]) {
          assert ts[i] == ts[1..][i - 1];
        }
      }
    }
  }

  lemma {:induction false} CrashThreadsSingle(ts: seq<RawThread>, i: nat)
    requires i < |ts| && IsCrashThread(ts[i])
    requires forall j :: 0 <= j < |ts| && j != i ==> !IsCrashThread(ts[j])
    ensures CrashThreads(ts) == [ts[i]]
  {
    if i == 0 {
      CrashThreadsEmpty(ts[1..]);
    } else {
      CrashThreadsSingle(ts[1..], i - 1);
    }
  }

  lemma {:induction false} CrashThreadsTwo(ts: seq<RawThread>, i: nat, j: nat)
    requires i < j < |ts| && IsCrashThread(ts[i]) && IsCrashThread(ts[j])
    ensures |CrashThreads(ts)| >= 2
  {
    if i == 0 {
      CrashThreadsEmpty(ts[1..]);
      assert ts[1..][j - 1] == ts[j];
    } else {
      CrashThreadsTwo(ts[1..], i - 1, j - 1);
    }
  }

  lemma {:induction false} CrashThreadsMember(ts: seq<RawThread>, k: nat)
    requires k < |CrashThreads(ts)|
    ensures exists i :: 0 <= i < |ts| && ts[i] == CrashThreads(ts)[k] && IsCrashThread(ts[i])
  {
    if |ts| > 0 {
      if IsCrashThread(ts[0]) && k == 0 {
        assert ts[0] == CrashThreads(ts)[0];
      } else {
        var k' := if IsCrashThread(ts[0]) then k - 1 else k;
        CrashThreadsMember(ts[1..], k');
        var i :| 0 <= i < |ts| - 1 && ts[1..][i] == CrashThreads(ts[1..])[k'] && IsCrashThread(ts[1..][i]);
        assert ts[i + 1] == CrashThreads(ts)[k];
      }
    }
  }

  /** With at least two entries in `CrashThreads`, two distinct positions are flagged. */
  lemma {:induction false} DistinctCrashPositions(ts: seq<RawThread>)
    requires |CrashThreads(ts)| >= 2
    ensures exists i, j :: 0 <= i < j < |ts| && IsCrashThread(ts[i]) && IsCrashThread(ts[j])
  {
    if IsCrashThread(ts[0]) {
      CrashThreadsEmpty(ts[1..]);
      var j :| 0 <= j < |ts| - 1 && IsCrashThread(ts[1..][j]);
      assert IsCrashThread(ts[j + 1]);
    } else {
      DistinctCrashPositions(ts[1..]);
      var i, j :| 0 <= i < j < |ts| - 1 && IsCrashThread(ts[1..][i]) && IsCrashThread(ts[1..][j]);
      assert IsCrashThread(ts[i + 1]) && IsCrashThread(ts[j + 1]);
    }
  }

  lemma SeveralCrashThreads(ts: seq<RawThread>)
    ensures |CrashThreads(ts)| >= 2
            <==> exists i, j :: 0 <= i < j < |ts| && IsCrashThread(ts[i]) && IsCrashThread(ts[j])
  {
    if |CrashThreads(ts)| >= 2 {
      DistinctCrashPositions(ts);
    }
    if exists i, j :: 0 <= i < j < |ts| && IsCrashThread(ts[i]) && IsCrashThread(ts[j]) {
      var i, j :| 0 <= i < j < |ts| && IsCrashThread(ts[i]) && IsCrashThread(ts[j]);
      CrashThreadsTwo(ts, i, j);
    }
  }

  lemma OneCrashThread(ts: seq<RawThread>, i: nat)
    requires i < |ts| && IsCrashThread(ts[i])
    ensures |CrashThreads(ts)| == 1 <==> forall j :: 0 <= j < |ts| && j != i ==> !IsCrashThread(ts[j])
    ensures |CrashThreads(ts)| == 1 ==> CrashThreads(ts) == [ts[i]]
  {
    if forall j :: 0 <= j < |ts| && j != i ==> !IsCrashThread(ts[j]) {
      CrashThreadsSingle(ts, i);
    } else {
      var j :| 0 <= j < |ts| && j != i && IsCrashThread(ts[j]);
      if i < j {
        CrashThreadsTwo(ts, i, j);
      } else {
        CrashThreadsTwo(ts, j, i);
      }
    }
  }

  /** `_get_crash_thread` reports a missing crash thread exactly when no
      thread is flagged. */
  lemma GetCrashThreadNone(ts: seq<RawThread>)
    ensures GetCrashThread(ts) == Err("No crash thread found")
            <==> forall i :: 0 <= i < |ts| ==> !IsCrashThread(ts[i])
  {
    CrashThreadsEmpty(ts);
  }

  /** It reports several crash threads exactly when two threads are flagged. */
  lemma GetCrashThreadMultiple(ts: seq<RawThread>)
    ensures GetCrashThread(ts) == Err("Multiple crash threads found")
            <==> exists i, j :: 0 <= i < j < |ts| && IsCrashThread(ts[i]) && IsCrashThread(ts[j])
  {
    SeveralCrashThreads(ts);
  }

  /** Thread `i` is the only flagged thread. */
  predicate OnlyCrashThread(ts: seq<RawThread>, i: nat)
  {
    i < |ts| && IsCrashThread(ts[i]) && forall j :: 0 <= j < |ts| && j != i ==> !IsCrashThread(ts[j])
  }

  /** It succeeds exactly when one thread is flagged, and then returns that
      thread's frames. */
  lemma GetCrashThreadFound(ts: seq<RawThread>)
    ensures GetCrashThread(ts).Ok? <==> exists i: nat :: OnlyCrashThread(ts, i)
    ensures forall i: nat :: OnlyCrashThread(ts, i) ==> GetCrashThread(ts) == Ok(ts[i].frames)
  {
    if |CrashThreads(ts)| == 1 {
      CrashThreadsMember(ts, 0);
      var a :| 0 <= a < |ts| && ts[a] == CrashThreads(ts)[0] && IsCrashThread(ts[a]);
      OneCrashThread(ts, a);
      assert OnlyCrashThread(ts, a);
    }
    forall i: nat | OnlyCrashThread(ts, i) ensures GetCrashThread(ts) == Ok(ts[i].frames) {
      OneCrashThread(ts, i);
    }
  }

  // ---------------------------------------------------------------------
  // Repair pass for frames that call JIT-compiled code

  const AnonymousFunction := "anonymous function"
  const UnknownFilename := "unknown filename"
  /** The placeholder the reporting tools use for an unknown function. */
  const UnknownFunction := "??"

  /** The frame has a file name and a function name containing "jit",
      ignoring case. */
  predicate CallsJit(f: RawFrame)
  {
    f.fileName.Some? && f.functionName.Some? && Contains(Lower(f.functionName.value), "jit")
  }

  /** The function name is missing or is the "??" placeholder. */
  predicate LacksFunctionName(f: RawFrame)
  {
    f.functionName.None? || f.functionName == Some(UnknownFunction)
  }

  /** The file name of the last frame before position `k` that calls JIT
      code, if there is one. */
  function JitFileBefore(fs: seq<RawFrame>, k: nat): Option<string>
    requires k <= |fs|
  {
    if k == 0 then None
    else if CallsJit(fs[k - 1]) then fs[k - 1].fileName
    else JitFileBefore(fs, k - 1)
  }

  /** `JitFileBefore` finds the latest JIT caller: it is that caller's file
      name, and no frame between the caller and `k` calls JIT code; it is
      `None` exactly when no frame before `k` calls JIT code. */
  lemma {:induction false} JitFileBeforeSpec(fs: seq<RawFrame>, k: nat)
    requires k <= |fs|
    ensures JitFileBefore(fs, k).None? <==> forall j :: 0 <= j < k ==> !CallsJit(fs[j])
    ensures JitFileBefore(fs, k).Some? ==>
              exists j :: 0 <= j < k && CallsJit(fs[j]) && fs[j].fileName == JitFileBefore(fs, k)
                          && forall m :: j < m < k ==> !CallsJit(fs[m])
  {
    if k > 0 {
      JitFileBeforeSpec(fs, k - 1);
      if !CallsJit(fs[k - 1]) && JitFileBefore(fs, k).Some? {
        var j :| 0 <= j < k - 1 && CallsJit(fs[j]) && fs[j].fileName == JitFileBefore(fs, k - 1)
                 && forall m :: j < m < k - 1 ==> !CallsJit(fs[m]);
        assert forall m :: j < m < k ==> !CallsJit(fs[m]);
      }
    }
  }

  /** A frame without a file name takes the JIT caller's file name, and a
      function name only when it lacks one. */
  function FillFromJit(f: RawFrame, jit: Option<string>): RawFrame
  {
    if f.fileName.None? && jit.Some? then
      f.(fileName := jit,
         functionName := if LacksFunctionName(f) then Some(AnonymousFunction) else f.functionName)
    else f
  }

  /** The last frame gets "unknown filename" when it has no file name and
      "anonymous function" when it lacks a function name. */
  function FixLastFrame(f: RawFrame): RawFrame
  {
    var g := if f.fileName.None? then f.(fileName := Some(UnknownFilename)) else f;
    if LacksFunctionName(g) then g.(functionName := Some(AnonymousFunction)) else g
  }

  /** Frame `i` of a thread after the repair pass. */
  function RepairedFrame(fs: seq<RawFrame>, i: nat): RawFrame
    requires i < |fs|
  {
    var filled := FillFromJit(fs[i], JitFileBefore(fs, i));
    if i == |fs| - 1 then FixLastFrame(filled) else filled
  }

  /** The frames of one thread after the repair pass. */
  function RepairFrames(fs: seq<RawFrame>): (r: seq<RawFrame>)
    ensures |r| == |fs|
  {
    seq(|fs|, i requires 0 <= i < |fs| => RepairedFrame(fs, i))
  }

  /** Only the file name and the function name of a frame ever change. */
  predicate SameButNames(a: RawFrame, b: RawFrame)
  {
    a.(fileName := b.fileName, functionName := b.functionName) == b
  }

  /** What the repair pass does to each frame of a thread. */
  lemma RepairFramesSpec(fs: seq<RawFrame>, i: nat)
    requires i < |fs|
    ensures SameButNames(RepairFrames(fs)[i], fs[i])
    // frames that already have a file name are untouched, except the last
    // frame's missing or "??" function name
    ensures fs[i].fileName.Some? && i < |fs| - 1 ==> RepairFrames(fs)[i] == fs[i]
    ensures fs[i].fileName.Some? ==> RepairFrames(fs)[i].fileName == fs[i].fileName
    // a frame without a file name after a JIT caller takes the latest
    // caller's file name, and "anonymous function" only when it lacks a name
    ensures fs[i].fileName.None? && JitFileBefore(fs, i).Some? ==>
              && RepairFrames(fs)[i].fileName == JitFileBefore(fs, i)
              && RepairFrames(fs)[i].functionName ==
                   (if LacksFunctionName(fs[i]) then Some(AnonymousFunction) else fs[i].functionName)
    // a frame without a file name and without an earlier JIT caller is
    // untouched unless it is the last one
    ensures fs[i].fileName.None? && JitFileBefore(fs, i).None? && i < |fs| - 1 ==>
              RepairFrames(fs)[i] == fs[i]
    // the last frame ends up with a file name and a usable function name
    ensures i == |fs| - 1 ==>
              RepairFrames(fs)[i].fileName.Some? && !LacksFunctionName(RepairFrames(fs)[i])
    ensures i == |fs| - 1 && fs[i].fileName.None? && JitFileBefore(fs, i).None? ==>
              RepairFrames(fs)[i].fileName == Some(UnknownFilename)
  {
    assert RepairFrames(fs)[i] == RepairedFrame(fs, i);
  }

  /** A frame of the repaired thread that calls JIT code. */
  lemma RepairedJitCaller(fs: seq<RawFrame>, j: nat, i: nat)
    requires j < i < |fs| && JitFileBefore(fs, i).None?
    ensures !CallsJit(RepairFrames(fs)[j])
  {
    RepairFramesSpec(fs, j);
    JitFileBeforeSpec(fs, i);
    JitFileBeforeSpec(fs, j);
  }

  /** Running the repair pass on its own output changes nothing. */
  lemma RepairIdempotent(fs: seq<RawFrame>)
    ensures RepairFrames(RepairFrames(fs)) == RepairFrames(fs)
  {
    var x := RepairFrames(fs);
    var n := |fs|;
    forall i | 0 <= i < n
      ensures RepairedFrame(x, i) == x[i]
    {
      RepairFramesSpec(fs, i);
      if x[i].fileName.None? {
        assert i < n - 1 && fs[i].fileName.None? && JitFileBefore(fs, i).None?;
        forall j | 0 <= j < i ensures !CallsJit(x[j]) {
          RepairedJitCaller(fs, j, i);
        }
        JitFileBeforeSpec(x, i);
      }
    }
    assert RepairFrames(x) == x;
  }

  /** The loop of `validate_ureport` over one thread's frames, carrying the
      JIT caller's file name from frame to frame. */
  method RepairThreadFrames(frames: seq<RawFrame>) returns (out: seq<RawFrame>)
    ensures out == RepairFrames(frames)
  {
    out := frames;
    var jit: Option<string> := None;
    var i := 0;
    while i < |frames|
      invariant 0 <= i <= |frames| && |out| == |frames|
      invariant jit == JitFileBefore(frames, i)
      invariant forall k :: 0 <= k < i ==> out[k] == FillFromJit(frames[k], JitFileBefore(frames, k))
      invariant forall k :: i <= k < |frames| ==> out[k] == frames[k]
    {
      var frame := out[i];
      if frame.fileName.Some? && frame.functionName.Some?
         && Contains(Lower(frame.functionName.value), "jit") {
        jit := frame.fileName;
      }
      assert jit == JitFileBefore(frames, i + 1);
      if frame.fileName.None? && jit.Some? {
        frame := frame.(fileName := jit);
        if frame.functionName.None? || frame.functionName.value == UnknownFunction {
          frame := frame.(functionName := Some(AnonymousFunction));
        }
      }
      assert frame == FillFromJit(frames[i], JitFileBefore(frames, i));
      out := out[i := frame];
      i := i + 1;
    }
    if |out| > 0 {
      var last := out[|out| - 1];
      if last.fileName.None? {
        last := last.(fileName := Some(UnknownFilename));
      }
      if last.functionName.None? || last.functionName.value == UnknownFunction {
        last := last.(functionName := Some(AnonymousFunction));
      }
      assert last == RepairedFrame(frames, |frames| - 1);
      out := out[|out| - 1 := last];
    }
    assert forall k :: 0 <= k < |frames| ==> out[k] == RepairedFrame(frames, k);
  }

  /** Every thread with its frames repaired. */
  function RepairThreads(ts: seq<RawThread>): (r: seq<RawThread>)
    ensures |r| == |ts|
  {
    seq(|ts|, i requires 0 <= i < |ts| => ts[i].(frames := RepairFrames(ts[i].frames)))
  }

  /** The loop of `validate_ureport` over the threads of the stack trace. */
  method RepairStacktrace(ts: seq<RawThread>) returns (fixed: seq<RawThread>)
    ensures fixed == RepairThreads(ts)
  {
    fixed := ts;
    var i := 0;
    while i < |ts|
      invariant 0 <= i <= |ts| && |fixed| == |ts|
      invariant forall k :: 0 <= k < i ==> fixed[k] == ts[k].(frames := RepairFrames(ts[k].frames))
      invariant forall k :: i <= k < |ts| ==> fixed[k] == ts[k]
    {
      var frames := RepairThreadFrames(ts[i].frames);
      fixed := fixed[i := ts[i].(frames := frames)];
      i := i + 1;
    }
  }

  /** The report after the repair pass. */
  function RepairReport(r: RawReport): RawReport
  {
    match r.stacktrace
    case None => r
    case Some(ts) => r.(stacktrace := Some(RepairThreads(ts)))
  }

  /** After the repair pass the last frame of every non-empty thread has a
      file name and a usable function name, and nothing but frame names changed. */
  lemma RepairReportSpec(r: RawReport)
    ensures RepairReport(r).(stacktrace := r.stacktrace) == r
    ensures RepairReport(r).stacktrace.Some? <==> r.stacktrace.Some?
    ensures r.stacktrace.Some? ==>
              var ts, fixed := r.stacktrace.value, RepairReport(r).stacktrace.value;
              && |fixed| == |ts|
              && forall i :: 0 <= i < |ts| ==>
                   && fixed[i].crashThread == ts[i].crashThread
                   && |fixed[i].frames| == |ts[i].frames|
                   && (|ts[i].frames| > 0 ==>
                         var last := fixed[i].frames[|ts[i].frames| - 1];
                         last.fileName.Some? && !LacksFunctionName(last))
  {
    if r.stacktrace.Some? {
      var ts := r.stacktrace.value;
      forall i | 0 <= i < |ts| && |ts[i].frames| > 0
        ensures var last := RepairFrames(ts[i].frames)[|ts[i].frames| - 1];
                last.fileName.Some? && !LacksFunctionName(last)
      {
        RepairFramesSpec(ts[i].frames, |ts[i].frames| - 1);
      }
    }
  }

  /** Repairing a repaired report changes nothing. */
  lemma RepairReportIdempotent(r: RawReport)
    ensures RepairReport(RepairReport(r)) == RepairReport(r)
  {
    if r.stacktrace.Some? {
      var ts := r.stacktrace.value;
      var once := RepairThreads(ts);
      forall i | 0 <= i < |ts| ensures RepairThreads(once)[i] == once[i] {
        RepairIdempotent(ts[i].frames);
      }
      assert RepairThreads(once) == once;
    }
  }

  // ---------------------------------------------------------------------
  // validate_ureport

  const SchemaViolation := "uReport does not match the core schema"

  /** The repair pass over every thread, then the schema, then the crash
      thread check. `repaired` is the report as the caller sees it afterwards. */
  method ValidateUreport(report: RawReport, lim: Limits) returns (repaired: RawReport, r: Result<bool>)
    ensures repaired == RepairReport(report)
    ensures r.Ok? <==> SchemaOk(repaired, lim) && GetCrashThread(repaired.stacktrace.value).Ok?
    ensures r.Ok? ==> r.value
    ensures r.Err? && !SchemaOk(repaired, lim) ==> r.msg == SchemaViolation
    ensures r.Err? && SchemaOk(repaired, lim) ==> r.msg == GetCrashThread(repaired.stacktrace.value).msg
  {
    repaired := report;
    if report.stacktrace.Some? {
      var fixed := RepairStacktrace(report.stacktrace.value);
      repaired := report.(stacktrace := Some(fixed));
    }
    if !SchemaOk(repaired, lim) {
      return repaired, Err(SchemaViolation);
    }
    var crash := GetCrashThread(repaired.stacktrace.value);
    if crash.Err? {
      return repaired, Err(crash.msg);
    }
    r := Ok(true);
  }
}
