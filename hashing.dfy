/** Fingerprints of a core uReport: the backtrace hashes (one per frame key
    that every frame carries) and the short hash of the crash thread.
    `hash_list` and the rendering of a file name as ASCII-filtered bytes are
    not visible here and are passed in as functions. */
module Hashing {
  import opened Wrappers
  import opened Text
  import opened CoreReport

  /** The frame keys `_hash_backtrace` tries, in this order. */
  datatype HashKey = FunctionName | Fingerprint | BuildIdOffset

  const HashKeys: seq<HashKey> := [FunctionName, Fingerprint, BuildIdOffset]

  /** `"{0}".format(frame[key])`, or None when the frame lacks the key. */
  function KeyText(f: RawFrame, k: HashKey): Option<string>
  {
    match k
    case FunctionName => f.functionName
    case Fingerprint => f.fingerprint
    case BuildIdOffset => if f.buildIdOffset.Some? then Some(IntToString(f.buildIdOffset.value)) else None
  }

  predicate HasKey(f: RawFrame, k: HashKey)
  {
    KeyText(f, k).Some?
  }

  /** Every frame of every thread carries the key. */
  predicate KeyUsable(ts: seq<RawThread>, k: HashKey)
  {
    forall i, j :: 0 <= i < |ts| && 0 <= j < |ts[i].frames| ==> HasKey(ts[i].frames[j], k)
  }

  predicate AnyKeyUsable(ts: seq<RawThread>)
  {
    KeyUsable(ts, FunctionName) || KeyUsable(ts, Fingerprint) || KeyUsable(ts, BuildIdOffset)
  }

  /** Every frame of every thread has a file name. */
  predicate AllFramesNamed(ts: seq<RawThread>)
  {
    forall i, j :: 0 <= i < |ts| && 0 <= j < |ts[i].frames| ==> ts[i].frames[j].fileName.Some?
  }

  /** The frames can be rendered with key `k`: every frame has the key and a file name. */
  predicate Renderable(fs: seq<RawFrame>, k: HashKey)
  {
    forall j :: 0 <= j < |fs| ==> HasKey(fs[j], k) && fs[j].fileName.Some?
  }

  // ---------------------------------------------------------------------
  // _hash_backtrace

  function ThreadHeader(t: RawThread): (h: string)
    ensures h == "Crash Thread" <==> IsCrashThread(t)
  {
    if IsCrashThread(t) then "Crash Thread" else assert "Thread"[0] != "Crash Thread"[0]; "Thread"
  }

  /** `"{0}".format(build_id)`: the build id, or "None" when absent. */
  function BuildIdText(f: RawFrame): string
  {
    if f.buildId.Some? then f.buildId.value else "None"
  }

  /** `"  {0} @ {1} ({2})"` */
  function FrameLine(f: RawFrame, k: HashKey, render: string -> string): string
    requires HasKey(f, k) && f.fileName.Some?
  {
    "  " + KeyText(f, k).value + " @ " + render(f.fileName.value) + " (" + BuildIdText(f) + ")"
  }

  function FrameLines(fs: seq<RawFrame>, k: HashKey, render: string -> string): (lines: seq<string>)
    requires Renderable(fs, k)
    ensures |lines| == |fs|
  {
    seq(|fs|, j requires 0 <= j < |fs| => FrameLine(fs[j], k, render))
  }

  /** The hash input for one key: a header per thread followed by one line per frame. */
  function HashBase(ts: seq<RawThread>, k: HashKey, render: string -> string): seq<string>
    requires KeyUsable(ts, k) && AllFramesNamed(ts)
  {
    if |ts| == 0 then []
    else
      assert forall i :: 0 <= i < |ts| - 1 ==> ts[1..][i] == ts[i + 1];
      [ThreadHeader(ts[0])] + FrameLines(ts[0].frames, k, render) + HashBase(ts[1..], k, render)
  }

  /** The keys that every frame carries, in `_hash_backtrace`'s order. */
  function UsableKeys(ts: seq<RawThread>): seq<HashKey>
  {
    (if KeyUsable(ts, FunctionName) then [FunctionName] else [])
    + (if KeyUsable(ts, Fingerprint) then [Fingerprint] else [])
    + (if KeyUsable(ts, BuildIdOffset) then [BuildIdOffset] else [])
  }

  /** `_hash_backtrace`: one hash per usable key. */
  function HashBacktrace(ts: seq<RawThread>, hashList: seq<string> -> string,
                         render: string -> string): seq<string>
    requires AnyKeyUsable(ts) ==> AllFramesNamed(ts)
  {
    var keys := UsableKeys(ts);
    seq(|keys|, m requires 0 <= m < |keys| => hashList(HashBase(ts, keys[m], render)))
  }

  function KeyRank(k: HashKey): nat
  {
    match k
    case FunctionName => 0
    case Fingerprint => 1
    case BuildIdOffset => 2
  }

  /** One hash per key that every frame carries, in the fixed key order:
      a key missing from a single frame anywhere gets no hash. */
  lemma HashBacktraceKeys(ts: seq<RawThread>, hashList: seq<string> -> string, render: string -> string)
    requires AnyKeyUsable(ts) ==> AllFramesNamed(ts)
    ensures var r, keys := HashBacktrace(ts, hashList, render), UsableKeys(ts);
            && |r| == |keys| <= 3
            && (forall k :: k in keys <==> KeyUsable(ts, k))
            && (forall m, n :: 0 <= m < n < |keys| ==> KeyRank(keys[m]) < KeyRank(keys[n]))
            && (forall m :: 0 <= m < |keys| ==> r[m] == hashList(HashBase(ts, keys[m], render)))
    ensures forall i, j, k :: 0 <= i < |ts| && 0 <= j < |ts[i].frames| && !HasKey(ts[i].frames[j], k)
              ==> k !in UsableKeys(ts)
  {
    var keys := UsableKeys(ts);
    forall k ensures k in keys <==> KeyUsable(ts, k) {
      match k
      case FunctionName =>
      case Fingerprint =>
        assert Fingerprint != FunctionName && Fingerprint != BuildIdOffset;
      case BuildIdOffset =>
    }
  }

  function TotalFrames(ts: seq<RawThread>): nat
  {
    if |ts| == 0 then 0 else |ts[0].frames| + TotalFrames(ts[1..])
  }

  /** The position of thread `i`'s header in the hash input. */
  function HeaderPosition(ts: seq<RawThread>, i: nat): nat
    requires i <= |ts|
  {
    if i == 0 then 0 else 1 + |ts[0].frames| + HeaderPosition(ts[1..], i - 1)
  }

  lemma {:induction false} HeaderPositionBound(ts: seq<RawThread>, i: nat)
    requires i < |ts|
    ensures HeaderPosition(ts, i) + 1 + |ts[i].frames| <= |ts| + TotalFrames(ts)
  {
    if i > 0 {
      HeaderPositionBound(ts[1..], i - 1);
    }
  }

  /** The hash input has one line per thread and one per frame. */
  lemma {:induction false} HashBaseLength(ts: seq<RawThread>, k: HashKey, render: string -> string)
    requires KeyUsable(ts, k) && AllFramesNamed(ts)
    ensures |HashBase(ts, k, render)| == |ts| + TotalFrames(ts)
  {
    if |ts| > 0 {
      assert forall i :: 0 <= i < |ts| - 1 ==> ts[1..][i] == ts[i + 1];
      HashBaseLength(ts[1..], k, render);
    }
  }

  /** The hash input splits into the first thread's lines and the rest. */
  lemma HashBaseUnfold(ts: seq<RawThread>, k: HashKey, render: string -> string)
    requires KeyUsable(ts, k) && AllFramesNamed(ts) && |ts| > 0
    ensures KeyUsable(ts[1..], k) && AllFramesNamed(ts[1..])
    ensures HashBase(ts, k, render)
            == [ThreadHeader(ts[0])] + FrameLines(ts[0].frames, k, render) + HashBase(ts[1..], k, render)
  {
    assert forall m :: 0 <= m < |ts| - 1 ==> ts[1..][m] == ts[m + 1];
  }

  /** Thread `i` contributes, at its header position, its header ("Crash
      Thread" exactly for a flagged crash thread, see `ThreadHeader`)
      followed by one line per frame, in order. */
  lemma {:induction false} HashBaseThread(ts: seq<RawThread>, k: HashKey, render: string -> string, i: nat)
    requires KeyUsable(ts, k) && AllFramesNamed(ts) && i < |ts|
    ensures HeaderPosition(ts, i) + 1 + |ts[i].frames| <= |HashBase(ts, k, render)|
    ensures HashBase(ts, k, render)[HeaderPosition(ts, i)..HeaderPosition(ts, i) + 1 + |ts[i].frames|]
            == [ThreadHeader(ts[i])] + FrameLines(ts[i].frames, k, render)
  {
    HashBaseLength(ts, k, render);
    HeaderPositionBound(ts, i);
    HashBaseUnfold(ts, k, render);
    var first := [ThreadHeader(ts[0])] + FrameLines(ts[0].frames, k, render);
    var rest := HashBase(ts[1..], k, render);
    if i == 0 {
      assert HashBase(ts, k, render)[..|first|] == first;
    } else {
      HashBaseThread(ts[1..], k, render, i - 1);
      assert ts[1..][i - 1] == ts[i];
      var p := HeaderPosition(ts[1..], i - 1);
      var n := |ts[i].frames|;
      assert HashBase(ts, k, render)[|first| + p..|first| + p + 1 + n] == rest[p..p + 1 + n];
    }
  }

  /** A report that passed validation always has a backtrace hash: every
      frame carries a build-id offset and a file name. */
  lemma ValidatedReportHashes(r: RawReport, lim: Limits, hashList: seq<string> -> string,
                              render: string -> string)
    requires SchemaOk(r, lim)
    ensures AllFramesNamed(r.stacktrace.value) && KeyUsable(r.stacktrace.value, BuildIdOffset)
    ensures |HashBacktrace(r.stacktrace.value, hashList, render)| >= 1
  {
    var ts := r.stacktrace.value;
    assert forall i :: 0 <= i < |ts| ==> ThreadSchemaOk(ts[i], lim);
    assert KeyUsable(ts, BuildIdOffset);
    assert BuildIdOffset in UsableKeys(ts);
  }

  // ---------------------------------------------------------------------
  // hash_ureport

  /** The key of the short hash: function names if every crash-thread
      frame has one, else fingerprints if every frame has one, else
      build-id offsets. */
  function ShortHashKey(fs: seq<RawFrame>): HashKey
  {
    if forall j :: 0 <= j < |fs| ==> HasKey(fs[j], FunctionName) then FunctionName
    else if forall j :: 0 <= j < |fs| ==> HasKey(fs[j], Fingerprint) then Fingerprint
    else BuildIdOffset
  }

  /** How many frames the short hash takes: `hashframes` caps the count,
      and a cap of zero or less takes none. */
  function FramesTaken(n: nat, hashframes: int): nat
  {
    if hashframes <= 0 then 0 else if hashframes < n then hashframes else n
  }

  /** The frames the short hash reads carry its key and a file name. */
  predicate ShortRenderable(fs: seq<RawFrame>, hashframes: int)
  {
    Renderable(fs[..FramesTaken(|fs|, hashframes)], ShortHashKey(fs))
  }

  /** `"{0} @ {1}"`, with the file name as is. */
  function ShortLine(f: RawFrame, k: HashKey): string
    requires HasKey(f, k) && f.fileName.Some?
  {
    KeyText(f, k).value + " @ " + f.fileName.value
  }

  /** The short hash input: the component, then a line per taken frame. */
  function ShortHashBase(component: string, fs: seq<RawFrame>, hashframes: int): seq<string>
    requires ShortRenderable(fs, hashframes)
  {
    var k := ShortHashKey(fs);
    var taken := fs[..FramesTaken(|fs|, hashframes)];
    [component] + seq(|taken|, j requires 0 <= j < |taken| => ShortLine(taken[j], k))
  }

  /** `hash_ureport`: the crash thread's short hash, or the crash thread error. */
  function HashUreport(r: RawReport, hashframes: int, hashList: seq<string> -> string): Result<string>
    requires r.stacktrace.Some? && r.component.Some?
    requires GetCrashThread(r.stacktrace.value).Ok? ==>
               ShortRenderable(GetCrashThread(r.stacktrace.value).value, hashframes)
  {
    var crash := GetCrashThread(r.stacktrace.value);
    if crash.Err? then Err(crash.msg)
    else Ok(hashList(ShortHashBase(r.component.value, crash.value, hashframes)))
  }

  /** The short hash input starts with the component and lists the top
      `min(#frames, hashframes)` crash-thread frames in order. */
  lemma ShortHashBaseShape(component: string, fs: seq<RawFrame>, hashframes: int)
    requires ShortRenderable(fs, hashframes)
    ensures var base := ShortHashBase(component, fs, hashframes);
            && |base| == 1 + FramesTaken(|fs|, hashframes)
            && base[0] == component
            && (forall j :: 0 <= j < FramesTaken(|fs|, hashframes) ==>
                  base[j + 1] == ShortLine(fs[j], ShortHashKey(fs)))
    ensures hashframes >= |fs| ==> |ShortHashBase(component, fs, hashframes)| == 1 + |fs|
    ensures 0 <= hashframes <= |fs| ==> |ShortHashBase(component, fs, hashframes)| == 1 + hashframes
  {
  }

  /** `hash_ureport` fails exactly when the crash thread search fails, with
      its message; otherwise it hashes the short hash input of the one
      thread flagged as the crash thread. */
  lemma HashUreportResult(r: RawReport, hashframes: int, hashList: seq<string> -> string)
    requires r.stacktrace.Some? && r.component.Some?
    requires GetCrashThread(r.stacktrace.value).Ok? ==>
               ShortRenderable(GetCrashThread(r.stacktrace.value).value, hashframes)
    ensures var h := HashUreport(r, hashframes, hashList);
            && (h.Err? <==> GetCrashThread(r.stacktrace.value).Err?)
            && (h.Err? ==> h.msg == "No crash thread found" || h.msg == "Multiple crash threads found")
    ensures HashUreport(r, hashframes, hashList).Ok? ==>
              && (exists i: nat :: OnlyCrashThread(r.stacktrace.value, i)
                                   && r.stacktrace.value[i].frames == GetCrashThread(r.stacktrace.value).value)
              && HashUreport(r, hashframes, hashList).value
                 == hashList(ShortHashBase(r.component.value, GetCrashThread(r.stacktrace.value).value, hashframes))
  {
    GetCrashThreadFound(r.stacktrace.value);
  }

  /** The key preference of the short hash. */
  lemma ShortHashKeyChoice(fs: seq<RawFrame>)
    ensures ShortHashKey(fs) == FunctionName <==> forall j :: 0 <= j < |fs| ==> HasKey(fs[j], FunctionName)
    ensures ShortHashKey(fs) == Fingerprint <==>
              && (exists j :: 0 <= j < |fs| && !HasKey(fs[j], FunctionName))
              && (forall j :: 0 <= j < |fs| ==> HasKey(fs[j], Fingerprint))
    ensures ShortHashKey(fs) == BuildIdOffset <==>
              && (exists j :: 0 <= j < |fs| && !HasKey(fs[j], FunctionName))
              && (exists j :: 0 <= j < |fs| && !HasKey(fs[j], Fingerprint))
  {
  }

  /** A frame below the cut still decides the key: the short hash of a
      thread whose last frame lacks a function name uses another key even
      when that frame is not hashed. */
  lemma ShortHashKeySeesAllFrames(f: RawFrame, g: RawFrame)
    requires HasKey(f, FunctionName) && !HasKey(g, FunctionName) && HasKey(g, Fingerprint) && HasKey(f, Fingerprint)
    ensures FramesTaken(2, 1) == 1
    ensures ShortHashKey([f]) == FunctionName
    ensures ShortHashKey([f, g]) == Fingerprint
  {
    assert !HasKey([f, g][1], FunctionName);
  }

  /** For a validated report whose crash thread was found, `hash_ureport`
      reads nothing that is missing, whatever `hashframes` is. */
  lemma ValidatedReportShortHash(r: RawReport, lim: Limits, hashframes: int)
    requires SchemaOk(r, lim) && GetCrashThread(r.stacktrace.value).Ok?
    ensures ShortRenderable(GetCrashThread(r.stacktrace.value).value, hashframes)
  {
    var ts := r.stacktrace.value;
    GetCrashThreadFound(ts);
    var i: nat :| OnlyCrashThread(ts, i);
    var fs := ts[i].frames;
    assert ThreadSchemaOk(ts[i], lim);
    assert Renderable(fs, BuildIdOffset);
    var taken := fs[..FramesTaken(|fs|, hashframes)];
    assert forall j :: 0 <= j < |taken| ==> taken[j] == fs[j];
  }
}
