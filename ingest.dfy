/** `save_ureport`: storing a validated core uReport as a backtrace of
    threads and frames, with symbols and symbol sources shared through the
    store and the call's pending rows. */
module Ingest {
  import opened Wrappers
  import opened Text
  import opened CoreReport
  import opened Hashing
  import opened Environment
  import opened Storage

  /** The frame keys `save_ureport` reads unconditionally. */
  predicate Storable(f: RawFrame)
  {
    f.fileName.Some? && f.buildIdOffset.Some?
  }

  predicate AllStorable(fs: seq<RawFrame>)
  {
    forall j :: 0 <= j < |fs| ==> Storable(fs[j])
  }

  /** (build id, absolute path, build-id offset) */
  function SourceKeyOf(f: RawFrame, ext: Externals): SourceKey
    requires Storable(f)
  {
    (f.buildId, ext.absPath(f.fileName.value), f.buildIdOffset.value)
  }

  /** (function name, library name of the absolute path), for a frame with a function name. */
  function SymbolKeyOf(f: RawFrame, ext: Externals): SymbolKey
    requires Storable(f) && f.functionName.Some?
  {
    (f.functionName.value, ext.libname(ext.absPath(f.fileName.value)))
  }

  /** All frames of all threads, thread by thread. */
  function Flatten(ts: seq<RawThread>): seq<RawFrame>
  {
    if |ts| == 0 then [] else ts[0].frames + Flatten(ts[1..])
  }

  ghost function SourceKeys(fs: seq<RawFrame>, ext: Externals): set<SourceKey>
    requires AllStorable(fs)
  {
    set j | 0 <= j < |fs| :: SourceKeyOf(fs[j], ext)
  }

  ghost function SymbolKeys(fs: seq<RawFrame>, ext: Externals): set<SymbolKey>
    requires AllStorable(fs)
  {
    set j | 0 <= j < |fs| && fs[j].functionName.Some? :: SymbolKeyOf(fs[j], ext)
  }

  /** The first frame with source key `k`. */
  function FirstWithKey(fs: seq<RawFrame>, k: SourceKey, ext: Externals): (r: Option<RawFrame>)
    requires AllStorable(fs)
    ensures r.Some? ==> Storable(r.value) && SourceKeyOf(r.value, ext) == k
  {
    if |fs| == 0 then None
    else if SourceKeyOf(fs[0], ext) == k then Some(fs[0])
    else FirstWithKey(fs[1..], k, ext)
  }

  /** The symbol a frame refers to once its symbol key has been looked up. */
  function SymbolFor(f: RawFrame, store: Store, syms: map<SymbolKey, Symbol>, ext: Externals): Symbol?
    requires Storable(f)
  {
    if f.functionName.Some? && SymbolKeyOf(f, ext) in store.symbols + syms
    then (store.symbols + syms)[SymbolKeyOf(f, ext)]
    else null
  }

  // ---------------------------------------------------------------------
  // The state the frame loop keeps

  /** The pending rows are exactly those for the keys seen so far that the
      store does not have. */
  ghost predicate Deduplicated(store: Store, seen: seq<RawFrame>, syms: map<SymbolKey, Symbol>,
                               srcs: map<SourceKey, SymbolSource>, ext: Externals)
    requires AllStorable(seen)
  {
    && PendingSymbols(store, syms) && PendingSources(store, srcs)
    && syms.Keys == SymbolKeys(seen, ext) - store.symbols.Keys
    && srcs.Keys == SourceKeys(seen, ext) - store.sources.Keys
  }

  /** Each pending source was made from the first frame with its key. */
  ghost predicate MadeFromFirst(store: Store, seen: seq<RawFrame>, syms: map<SymbolKey, Symbol>,
                                srcs: map<SourceKey, SymbolSource>, ext: Externals)
    requires AllStorable(seen)
    reads Values(srcs)
  {
    forall k :: k in srcs ==>
      FirstWithKey(seen, k, ext).Some? && SourceMadeFrom(srcs[k], FirstWithKey(seen, k, ext).value, store, syms, ext)
  }

  /** The bookkeeping of the frame loops after the frames `seen`. */
  ghost predicate Tracked(store: Store, seen: seq<RawFrame>, syms: map<SymbolKey, Symbol>,
                          srcs: map<SourceKey, SymbolSource>, ext: Externals)
    reads Values(srcs)
  {
    && AllStorable(seen)
    && Deduplicated(store, seen, syms, srcs, ext)
    && MadeFromFirst(store, seen, syms, srcs, ext)
  }

  /** A symbol source as `save_ureport` creates it from frame `x`. */
  ghost predicate SourceMadeFrom(s: SymbolSource, x: RawFrame, store: Store, syms: map<SymbolKey, Symbol>,
                                 ext: Externals)
    requires Storable(x)
    reads s
  {
    && s.hash == x.fingerprint
    && s.symbol == SymbolFor(x, store, syms, ext)
    && s.sourcePath == None && s.lineNumber == None && s.retraceFailCount == 0
  }

  /** A stored frame of thread `t` made from `raw` with the given order. */
  ghost predicate FrameSaved(f: Frame, t: Thread, raw: RawFrame, order: int,
                             sources: map<SourceKey, SymbolSource>, ext: Externals)
    requires Storable(raw)
  {
    && f.thread == t && f.order == order && !f.inlined
    && SourceKeyOf(raw, ext) in sources && f.symbolSource == sources[SourceKeyOf(raw, ext)]
  }

  lemma {:induction false} FirstWithKeyAppend(seen: seq<RawFrame>, x: RawFrame, ext: Externals)
    requires AllStorable(seen) && Storable(x)
    ensures AllStorable(seen + [x])
    ensures forall k :: FirstWithKey(seen, k, ext).Some? ==>
              FirstWithKey(seen + [x], k, ext) == FirstWithKey(seen, k, ext)
    ensures FirstWithKey(seen, SourceKeyOf(x, ext), ext).None? ==>
              FirstWithKey(seen + [x], SourceKeyOf(x, ext), ext) == Some(x)
  {
    if |seen| > 0 {
      assert (seen + [x])[1..] == seen[1..] + [x];
      FirstWithKeyAppend(seen[1..], x, ext);
    } else {
      assert seen + [x] == [x];
    }
  }

  /** `FirstWithKey` finds a frame with the key exactly when one is there. */
  lemma {:induction false} FirstWithKeyFound(fs: seq<RawFrame>, k: SourceKey, ext: Externals)
    requires AllStorable(fs)
    ensures FirstWithKey(fs, k, ext).Some? <==> k in SourceKeys(fs, ext)
    ensures FirstWithKey(fs, k, ext).Some? ==>
              FirstWithKey(fs, k, ext).value in fs && SourceKeyOf(FirstWithKey(fs, k, ext).value, ext) == k
  {
    if |fs| > 0 {
      FirstWithKeyFound(fs[1..], k, ext);
      assert forall j :: 0 <= j < |fs| - 1 ==> fs[1..][j] == fs[j + 1];
      if k in SourceKeys(fs, ext) && SourceKeyOf(fs[0], ext) != k {
        var j :| 0 <= j < |fs| && SourceKeyOf(fs[j], ext) == k;
        assert SourceKeyOf(fs[1..][j - 1], ext) == k;
      }
    }
  }

  // ---------------------------------------------------------------------
  // The frame loop of one thread

  /** The symbol of a frame already seen does not change as pending symbols are added. */
  lemma SymbolForStable(store: Store, seen: seq<RawFrame>, x: RawFrame, syms: map<SymbolKey, Symbol>,
                        syms': map<SymbolKey, Symbol>, srcs: map<SourceKey, SymbolSource>, ext: Externals)
    requires AllStorable(seen) && Deduplicated(store, seen, syms, srcs, ext)
    requires PendingSymbols(store, syms') && Extends(syms, syms')
    requires x in seen
    ensures Storable(x) && SymbolFor(x, store, syms', ext) == SymbolFor(x, store, syms, ext)
  {
    var j :| 0 <= j < |seen| && seen[j] == x;
    if x.functionName.Some? {
      var k := SymbolKeyOf(x, ext);
      assert k in SymbolKeys(seen, ext) by {
        assert SymbolKeyOf(seen[j], ext) in SymbolKeys(seen, ext);
      }
      if k in store.symbols {
        assert k !in syms' && k !in syms;
      } else {
        assert k in syms;
      }
    }
  }

  /** A symbol source found in the store, else in the pending sources,
      else a new one with the given symbol and hash, which joins them. */
  method GetOrCreateSource(store: Store, pending: map<SourceKey, SymbolSource>, key: SourceKey,
                           symbol: Symbol?, hash: Option<string>)
    returns (ss: SymbolSource, pending': map<SourceKey, SymbolSource>)
    requires store.Valid() && PendingSources(store, pending)
    ensures PendingSources(store, pending') && Extends(pending, pending')
    ensures key in store.sources + pending' && ss == (store.sources + pending')[key] && ss.Key() == key
    ensures key in store.sources || key in pending ==> pending' == pending
    ensures key !in store.sources && key !in pending ==>
              && fresh(ss) && pending' == pending[key := ss]
              && ss.symbol == symbol && ss.hash == hash && ss.sourcePath == None && ss.lineNumber == None
              && ss.retraceFailCount == 0
  {
    if key in store.sources {
      return store.sources[key], pending;
    }
    if key in pending {
      return pending[key], pending;
    }
    ss := new SymbolSource(symbol, key.0, key.1, key.2, hash, None, None);
    pending' := pending[key := ss];
  }

  /** The symbol lookup of one pass of the frame loop: for a frame with a
      function name, the symbol from the store, else from the pending
      symbols, else new; none for a frame without one. */
  method FindSymbol(store: Store, raw: RawFrame, ghost before: seq<RawFrame>,
                    syms: map<SymbolKey, Symbol>, ext: Externals)
    returns (symbol: Symbol?, syms': map<SymbolKey, Symbol>, ghost made: set<object>)
    requires store.Valid() && AllStorable(before) && Storable(raw)
    requires PendingSymbols(store, syms) && syms.Keys == SymbolKeys(before, ext) - store.symbols.Keys
    ensures AllStorable(before + [raw])
    ensures PendingSymbols(store, syms') && Extends(syms, syms')
    ensures syms'.Keys == SymbolKeys(before + [raw], ext) - store.symbols.Keys
    ensures fresh(made) && forall k :: k in syms' && k !in syms ==> syms'[k] in made
    ensures symbol == SymbolFor(raw, store, syms', ext)
  {
    SymbolKeysAppend(before, raw, ext);
    symbol, syms', made := null, syms, {};
    if raw.functionName.Some? {
      var path := ext.absPath(raw.fileName.value);
      var key := (raw.functionName.value, ext.libname(path));
      var s;
      s, syms' := GetOrCreateSymbol(store, syms, key);
      symbol := s;
      if key !in store.symbols && key !in syms {
        made := {s};
      }
    }
  }

  /** The lookups of one pass of the frame loop: the symbol, then the
      symbol source, from the store, else from the pending rows, else new. */
  method FindOrCreateSource(store: Store, raw: RawFrame, ghost before: seq<RawFrame>,
                            syms: map<SymbolKey, Symbol>, srcs: map<SourceKey, SymbolSource>, ext: Externals)
    returns (syms': map<SymbolKey, Symbol>, srcs': map<SourceKey, SymbolSource>, ss: SymbolSource,
             ghost made: set<object>)
    requires store.Valid() && Storable(raw) && Tracked(store, before, syms, srcs, ext)
    ensures Tracked(store, before + [raw], syms', srcs', ext)
    ensures Extends(syms, syms') && Extends(srcs, srcs')
    ensures fresh(made) && MadeIn(syms, srcs, syms', srcs', made)
    ensures SourceKeyOf(raw, ext) in store.sources + srcs'
    ensures ss == (store.sources + srcs')[SourceKeyOf(raw, ext)]
  {
    var symbol;
    symbol, syms', made := FindSymbol(store, raw, before, syms, ext);
    var key := (raw.buildId, ext.absPath(raw.fileName.value), raw.buildIdOffset.value);
    ss, srcs' := GetOrCreateSource(store, srcs, key, symbol, raw.fingerprint);
    SourceStep(store, before, raw, syms, syms', srcs, srcs', ext);
    if key !in store.sources && key !in srcs {
      made := made + {ss};
    }
  }

  lemma SourceKeysAppend(seen: seq<RawFrame>, x: RawFrame, ext: Externals)
    requires AllStorable(seen) && Storable(x)
    ensures AllStorable(seen + [x])
    ensures SourceKeys(seen + [x], ext) == SourceKeys(seen, ext) + {SourceKeyOf(x, ext)}
  {
    var s' := seen + [x];
    assert forall j :: 0 <= j < |seen| ==> s'[j] == seen[j];
    assert s'[|seen|] == x;
  }

  lemma SymbolKeysAppend(seen: seq<RawFrame>, x: RawFrame, ext: Externals)
    requires AllStorable(seen) && Storable(x)
    ensures AllStorable(seen + [x])
    ensures SymbolKeys(seen + [x], ext)
            == SymbolKeys(seen, ext) + (if x.functionName.Some? then {SymbolKeyOf(x, ext)} else {})
  {
    var s' := seen + [x];
    assert forall j :: 0 <= j < |seen| ==> s'[j] == seen[j];
    assert s'[|seen|] == x;
  }

  /** The source lookup of one frame keeps the pending sources deduplicated
      and made from the first frame with their key. */
  lemma SourceStep(store: Store, before: seq<RawFrame>, raw: RawFrame,
                   syms: map<SymbolKey, Symbol>, syms': map<SymbolKey, Symbol>,
                   srcs: map<SourceKey, SymbolSource>, srcs': map<SourceKey, SymbolSource>, ext: Externals)
    requires AllStorable(before) && Storable(raw) && AllStorable(before + [raw])
    requires Deduplicated(store, before, syms, srcs, ext) && MadeFromFirst(store, before, syms, srcs, ext)
    requires PendingSymbols(store, syms') && Extends(syms, syms')
    requires syms'.Keys == SymbolKeys(before + [raw], ext) - store.symbols.Keys
    requires PendingSources(store, srcs') && Extends(srcs, srcs')
    requires SourceKeyOf(raw, ext) in store.sources || SourceKeyOf(raw, ext) in srcs ==> srcs' == srcs
    requires SourceKeyOf(raw, ext) !in store.sources && SourceKeyOf(raw, ext) !in srcs ==>
               SourceKeyOf(raw, ext) in srcs' && srcs' == srcs[SourceKeyOf(raw, ext) := srcs'[SourceKeyOf(raw, ext)]]
               && SourceMadeFrom(srcs'[SourceKeyOf(raw, ext)], raw, store, syms', ext)
    ensures Deduplicated(store, before + [raw], syms', srcs', ext)
    ensures MadeFromFirst(store, before + [raw], syms', srcs', ext)
  {
    SourceKeysAppend(before, raw, ext);
    var key := SourceKeyOf(raw, ext);
    if key !in store.sources && key !in srcs {
      FirstWithKeyFound(before, key, ext);
    }
    MadeFromFirstStep(store, before, raw, syms, syms', srcs, srcs', ext);
  }

  lemma MadeFromFirstStep(store: Store, before: seq<RawFrame>, raw: RawFrame,
                          syms: map<SymbolKey, Symbol>, syms': map<SymbolKey, Symbol>,
                          srcs: map<SourceKey, SymbolSource>, srcs': map<SourceKey, SymbolSource>, ext: Externals)
    requires AllStorable(before) && Storable(raw)
    requires Deduplicated(store, before, syms, srcs, ext) && MadeFromFirst(store, before, syms, srcs, ext)
    requires PendingSymbols(store, syms') && Extends(syms, syms') && Extends(srcs, srcs')
    requires forall k :: k in srcs' && k !in srcs ==>
               k == SourceKeyOf(raw, ext) && k !in SourceKeys(before, ext)
               && SourceMadeFrom(srcs'[k], raw, store, syms', ext)
    ensures AllStorable(before + [raw])
    ensures MadeFromFirst(store, before + [raw], syms', srcs', ext)
  {
    FirstWithKeyAppend(before, raw, ext);
    forall k | k in srcs'
      ensures FirstWithKey(before + [raw], k, ext).Some?
      ensures SourceMadeFrom(srcs'[k], FirstWithKey(before + [raw], k, ext).value, store, syms', ext)
    {
      FirstWithKeyFound(before, k, ext);
      if k in srcs {
        SymbolForStable(store, before, FirstWithKey(before, k, ext).value, syms, syms', srcs, ext);
        assert SourceMadeFrom(srcs[k], FirstWithKey(before, k, ext).value, store, syms, ext);
      }
    }
  }

  /** One pass of the frame loop: the lookups, then a new frame attached to
      the thread. */
  method SaveFrame(store: Store, t: Thread, raw: RawFrame, order: int, ghost before: seq<RawFrame>,
                   syms: map<SymbolKey, Symbol>, srcs: map<SourceKey, SymbolSource>, ext: Externals)
    returns (syms': map<SymbolKey, Symbol>, srcs': map<SourceKey, SymbolSource>, f: Frame, ghost made: set<object>)
    requires store.Valid() && Storable(raw) && Tracked(store, before, syms, srcs, ext)
    modifies t
    ensures Tracked(store, before + [raw], syms', srcs', ext)
    ensures Extends(syms, syms') && Extends(srcs, srcs')
    ensures fresh(made) && MadeIn(syms, srcs, syms', srcs', made)
    ensures f in made && FrameSaved(f, t, raw, order, store.sources + srcs', ext)
    ensures t.frames == old(t.frames) + [f]
  {
    var ss;
    syms', srcs', ss, made := FindOrCreateSource(store, raw, before, syms, srcs, ext);
    f := AttachFrame(t, order, ss, false);
    made := made + {f};
  }

  /** The frames `tf` of thread `t` are the frames `pre` it had, then new
      frames, among `made`, saved from `raws`. */
  ghost predicate FramesAdded(tf: seq<Frame>, pre: seq<Frame>, t: Thread, raws: seq<RawFrame>,
                              sources: map<SourceKey, SymbolSource>, ext: Externals, made: set<object>)
  {
    && |tf| == |pre| + |raws| && tf[..|pre|] == pre
    && (forall m :: |pre| <= m < |tf| ==> tf[m] in made)
    && FramesSaved(tf[|pre|..], t, raws, sources, ext)
  }

  lemma FramesAddedStep(tf: seq<Frame>, f: Frame, pre: seq<Frame>, t: Thread, raws: seq<RawFrame>, raw: RawFrame,
                        store: Store, srcs: map<SourceKey, SymbolSource>, srcs': map<SourceKey, SymbolSource>,
                        ext: Externals, made: set<object>, madeNow: set<object>)
    requires FramesAdded(tf, pre, t, raws, store.sources + srcs, ext, made)
    requires Storable(raw) && FrameSaved(f, t, raw, 10 * (|raws| + 1), store.sources + srcs', ext) && f in madeNow
    requires PendingSources(store, srcs') && Extends(srcs, srcs')
    ensures FramesAdded(tf + [f], pre, t, raws + [raw], store.sources + srcs', ext, made + madeNow)
  {
    assert (tf + [f])[|pre|..] == tf[|pre|..] + [f];
    assert (tf + [f])[..|pre|] == tf[..|pre|];
    FramesSavedStep(tf[|pre|..], f, t, raws, raw, store, srcs, srcs', ext);
  }

  lemma PrefixStep(seen: seq<RawFrame>, frames: seq<RawFrame>, j: nat)
    requires j < |frames|
    ensures frames[..j + 1] == frames[..j] + [frames[j]]
    ensures seen + frames[..j + 1] == (seen + frames[..j]) + [frames[j]]
  {
    assert frames[..j + 1] == frames[..j] + [frames[j]];
  }

  /** The frame loop of one thread: frame orders 10, 20, 30, ... */
  method SaveThreadFrames(store: Store, t: Thread, frames: seq<RawFrame>, ghost seen: seq<RawFrame>,
                          syms: map<SymbolKey, Symbol>, srcs: map<SourceKey, SymbolSource>, ext: Externals)
    returns (syms': map<SymbolKey, Symbol>, srcs': map<SourceKey, SymbolSource>, ghost made: set<object>)
    requires store.Valid() && AllStorable(frames) && Tracked(store, seen, syms, srcs, ext)
    modifies t
    ensures Tracked(store, seen + frames, syms', srcs', ext)
    ensures Extends(syms, syms') && Extends(srcs, srcs')
    ensures fresh(made) && MadeIn(syms, srcs, syms', srcs', made)
    ensures FramesAdded(t.frames, old(t.frames), t, frames, store.sources + srcs', ext, made)
  {
    syms', srcs', made := syms, srcs, {};
    ghost var cur := seen;
    var fid := 0;
    var j := 0;
    while j < |frames|
      invariant 0 <= j <= |frames| && fid == 10 * j && cur == seen + frames[..j]
      invariant Tracked(store, cur, syms', srcs', ext)
      invariant Extends(syms, syms') && Extends(srcs, srcs')
      invariant fresh(made) && MadeIn(syms, srcs, syms', srcs', made)
      invariant FramesAdded(t.frames, old(t.frames), t, frames[..j], store.sources + srcs', ext, made)
    {
      ghost var syms0, srcs0, frames0 := syms', srcs', t.frames;
      PrefixStep(seen, frames, j);
      fid := fid + 10;
      var f;
      ghost var madeNow;
      syms', srcs', f, madeNow := SaveFrame(store, t, frames[j], fid, cur, syms', srcs', ext);
      cur := cur + [frames[j]];
      FramesAddedStep(frames0, f, old(t.frames), t, frames[..j], frames[j], store, srcs0, srcs', ext, made, madeNow);
      MadeInTrans(syms, srcs, syms0, srcs0, syms', srcs', made, madeNow);
      made := made + madeNow;
      j := j + 1;
    }
    assert frames[..j] == frames;
  }

  /** The stored frames `fs` of thread `t` were made from `raws`, in order,
      with orders 10, 20, 30, ... */
  ghost predicate FramesSaved(fs: seq<Frame>, t: Thread, raws: seq<RawFrame>,
                              sources: map<SourceKey, SymbolSource>, ext: Externals)
  {
    && |fs| == |raws| && AllStorable(raws)
    && forall m :: 0 <= m < |fs| ==> FrameSaved(fs[m], t, raws[m], 10 * (m + 1), sources, ext)
  }

  /** Saved frames stay saved as pending sources are added. */
  lemma FramesSavedStable(fs: seq<Frame>, t: Thread, raws: seq<RawFrame>, store: Store,
                          srcs: map<SourceKey, SymbolSource>, srcs': map<SourceKey, SymbolSource>, ext: Externals)
    requires FramesSaved(fs, t, raws, store.sources + srcs, ext)
    requires PendingSources(store, srcs') && Extends(srcs, srcs')
    ensures FramesSaved(fs, t, raws, store.sources + srcs', ext)
  {
    forall m | 0 <= m < |fs|
      ensures FrameSaved(fs[m], t, raws[m], 10 * (m + 1), store.sources + srcs', ext)
    {
      FrameSavedStable(fs[m], t, raws[m], 10 * (m + 1), store, srcs, srcs', ext);
    }
  }

  lemma FramesSavedStep(fs: seq<Frame>, f: Frame, t: Thread, raws: seq<RawFrame>, raw: RawFrame, store: Store,
                        srcs: map<SourceKey, SymbolSource>, srcs': map<SourceKey, SymbolSource>, ext: Externals)
    requires FramesSaved(fs, t, raws, store.sources + srcs, ext)
    requires Storable(raw) && FrameSaved(f, t, raw, 10 * (|fs| + 1), store.sources + srcs', ext)
    requires PendingSources(store, srcs') && Extends(srcs, srcs')
    ensures FramesSaved(fs + [f], t, raws + [raw], store.sources + srcs', ext)
  {
    forall m | 0 <= m < |fs|
      ensures FrameSaved(fs[m], t, raws[m], 10 * (m + 1), store.sources + srcs', ext)
    {
      FrameSavedStable(fs[m], t, raws[m], 10 * (m + 1), store, srcs, srcs', ext);
    }
    assert forall m :: 0 <= m < |fs| ==> (fs + [f])[m] == fs[m] && (raws + [raw])[m] == raws[m];
  }

  /** A saved frame stays saved as pending sources are added. */
  lemma FrameSavedStable(f: Frame, t: Thread, raw: RawFrame, order: int, store: Store,
                         srcs: map<SourceKey, SymbolSource>, srcs': map<SourceKey, SymbolSource>, ext: Externals)
    requires Storable(raw) && FrameSaved(f, t, raw, order, store.sources + srcs, ext)
    requires PendingSources(store, srcs') && Extends(srcs, srcs')
    ensures FrameSaved(f, t, raw, order, store.sources + srcs', ext)
  {
    var k := SourceKeyOf(raw, ext);
    if k in srcs {
      assert (store.sources + srcs')[k] == srcs[k];
    } else {
      assert k !in srcs';
    }
  }

  // ---------------------------------------------------------------------
  // save_ureport

  const NoBacktraceHash := "Unable to get backtrace hash"

  /** The frame keys `save_ureport` reads are there: the keys
      `_hash_backtrace` reads when some frame key is usable, and a file name
      and build-id offset in every frame. */
  predicate SaveableReport(u: RawReport)
  {
    && u.signal.Some? && u.executable.Some? && u.stacktrace.Some?
    && (AnyKeyUsable(u.stacktrace.value) ==> AllFramesNamed(u.stacktrace.value))
    && AllStorable(Flatten(u.stacktrace.value))
  }

  /** The report's executable row, found or new, with its counter increased. */
  method CountExecutable(store: Store, report: Report, path: string, count: int) returns (exe: ReportExecutable)
    requires store.Valid()
    modifies store.ExecutableObjects()
    ensures (report, path) in store.executables ==>
              exe == store.executables[(report, path)] && exe.count == old(exe.count) + count
    ensures (report, path) !in store.executables ==> fresh(exe) && exe.path == path && exe.count == count
    ensures forall e :: e in store.ExecutableObjects() && e != exe ==> e.count == old(e.count)
  {
    if (report, path) in store.executables {
      exe := store.executables[(report, path)];
    } else {
      exe := new ReportExecutable(path);
    }
    exe.count := exe.count + count;
  }

  /** A new backtrace for a report without one: its hashes, all of type
      `NAMES`, then its threads and frames. */
  method NewBacktrace(store: Store, report: Report, ts: seq<RawThread>, hashes: seq<string>, ext: Externals)
    returns (bt: Backtrace, syms: map<SymbolKey, Symbol>, srcs: map<SourceKey, SymbolSource>)
    requires store.Valid() && AllStorable(Flatten(ts)) && report.backtraces == []
    modifies report
    ensures fresh(bt) && report.backtraces == [bt] && report.errname == old(report.errname)
    ensures bt.hashes == seq(|hashes|, m requires 0 <= m < |hashes| => BtHash("NAMES", hashes[m]))
    ensures |bt.threads| == |ts| && ThreadsSaved(bt.threads, ts, store.sources + srcs, ext)
    ensures ThreadsFresh(bt.threads)
    ensures Tracked(store, Flatten(ts), syms, srcs, ext)
    ensures forall k :: k in syms ==> fresh(syms[k])
    ensures forall k :: k in srcs ==> fresh(srcs[k])
  {
    bt := new Backtrace();
    report.backtraces := report.backtraces + [bt];
    var m := 0;
    while m < |hashes|
      invariant 0 <= m <= |hashes|
      invariant bt.hashes == seq(m, n requires 0 <= n < m => BtHash("NAMES", hashes[n]))
      invariant bt.threads == [] && report.backtraces == [bt]
      invariant report.errname == old(report.errname)
    {
      bt.hashes := bt.hashes + [BtHash("NAMES", hashes[m])];
      m := m + 1;
    }
    syms, srcs := SaveThreads(store, bt, ts, ext);
  }

  method SaveUreport(store: Store, report: Report, u: RawReport, count: int, ext: Externals)
    returns (r: Result<()>, exe: ReportExecutable, bt: Backtrace?,
             syms: map<SymbolKey, Symbol>, srcs: map<SourceKey, SymbolSource>)
    requires store.Valid() && SaveableReport(u)
    modifies report, store.ExecutableObjects()
    // the error name and the executable counter are updated first
    ensures report.errname == Some(IntToString(u.signal.value))
    ensures (report, u.executable.value) in store.executables ==>
              exe == store.executables[(report, u.executable.value)] && exe.count == old(exe.count) + count
    ensures (report, u.executable.value) !in store.executables ==>
              fresh(exe) && exe.path == u.executable.value && exe.count == count
    ensures forall e :: e in store.ExecutableObjects() && e != exe ==> e.count == old(e.count)
    // no backtrace hash: the error, and no backtrace
    ensures HashBacktrace(u.stacktrace.value, ext.hashList, ext.renderAscii) == [] ==>
              r == Err(NoBacktraceHash) && report.backtraces == old(report.backtraces) && bt == null
    // a report that has a backtrace keeps it
    ensures HashBacktrace(u.stacktrace.value, ext.hashList, ext.renderAscii) != [] && old(report.backtraces) != [] ==>
              r == Ok(()) && report.backtraces == old(report.backtraces) && bt == null
    ensures bt == null ==> syms == map[] && srcs == map[]
    // otherwise a new backtrace with its hashes, threads and frames
    ensures HashBacktrace(u.stacktrace.value, ext.hashList, ext.renderAscii) != [] && old(report.backtraces) == [] ==>
              r == Ok(()) && bt != null && fresh(bt) && report.backtraces == [bt]
    ensures bt != null ==>
              var ts, hashes := u.stacktrace.value, HashBacktrace(u.stacktrace.value, ext.hashList, ext.renderAscii);
              && bt.hashes == seq(|hashes|, m requires 0 <= m < |hashes| => BtHash("NAMES", hashes[m]))
              // thread `i` numbered `i + 1`, its frames saved in order
              && |bt.threads| == |ts| && ThreadsSaved(bt.threads, ts, store.sources + srcs, ext)
              && ThreadsFresh(bt.threads)
              // symbols and sources are shared across the store and the call
              && Deduplicated(store, Flatten(ts), syms, srcs, ext)
              && MadeFromFirst(store, Flatten(ts), syms, srcs, ext)
              && (forall k :: k in syms ==> fresh(syms[k]))
              && (forall k :: k in srcs ==> fresh(srcs[k]))
  {
    report.errname := Some(IntToString(u.signal.value));
    exe := CountExecutable(store, report, u.executable.value, count);

    var ts := u.stacktrace.value;
    var hashes := HashBacktrace(ts, ext.hashList, ext.renderAscii);
    syms, srcs, bt := map[], map[], null;
    if |hashes| == 0 {
      return Err(NoBacktraceHash), exe, bt, syms, srcs;
    }
    if report.backtraces != [] {
      return Ok(()), exe, bt, syms, srcs;
    }
    var b;
    b, syms, srcs := NewBacktrace(store, report, ts, hashes, ext);
    bt := b;
    r := Ok(());
  }

  lemma {:induction false} FlattenConcat(a: seq<RawThread>, b: seq<RawThread>)
    ensures Flatten(a + b) == Flatten(a) + Flatten(b)
  {
    if |a| > 0 {
      assert (a + b)[1..] == a[1..] + b;
      FlattenConcat(a[1..], b);
    } else {
      assert a + b == b;
    }
  }

  lemma FlattenStep(ts: seq<RawThread>, i: nat)
    requires i < |ts|
    ensures Flatten(ts[..i + 1]) == Flatten(ts[..i]) + ts[i].frames
    ensures Flatten(ts) == Flatten(ts[..i]) + ts[i].frames + Flatten(ts[i + 1..])
  {
    assert ts[..i + 1] == ts[..i] + [ts[i]];
    FlattenConcat(ts[..i], [ts[i]]);
    assert Flatten([ts[i]]) == ts[i].frames + Flatten([]);
    assert ts == ts[..i + 1] + ts[i + 1..];
    FlattenConcat(ts[..i + 1], ts[i + 1..]);
  }

  lemma StorableParts(a: seq<RawFrame>, b: seq<RawFrame>)
    requires AllStorable(a + b)
    ensures AllStorable(a) && AllStorable(b)
  {
    assert forall j :: 0 <= j < |a| ==> (a + b)[j] == a[j];
    assert forall j :: 0 <= j < |b| ==> (a + b)[|a| + j] == b[j];
  }

  /** Thread `p` of the report was saved as `th`, whose frames are `tf`. */
  ghost predicate ThreadSaved(th: Thread, tf: seq<Frame>, p: int, raw: RawThread,
                              sources: map<SourceKey, SymbolSource>, ext: Externals)
  {
    && th.number == p + 1 && th.crashThread == IsCrashThread(raw)
    && FramesSaved(tf, th, raw.frames, sources, ext)
  }

  /** The saved threads `ths` are the first threads of `ts`. */
  ghost predicate ThreadsSaved(ths: seq<Thread>, ts: seq<RawThread>, sources: map<SourceKey, SymbolSource>,
                               ext: Externals)
    reads ths
  {
    && |ths| <= |ts|
    && forall p :: 0 <= p < |ths| ==> ThreadSaved(ths[p], ths[p].frames, p, ts[p], sources, ext)
  }

  /** Thread `th` and its frames are among `made`. */
  ghost predicate ThreadIn(th: Thread, made: set<object>)
    reads th
  {
    th in made && forall j :: 0 <= j < |th.frames| ==> th.frames[j] in made
  }

  /** The saved threads and their frames are new objects. */
  twostate predicate ThreadsFresh(new ths: seq<Thread>)
    reads ths
  {
    forall p :: 0 <= p < |ths| ==>
      fresh(ths[p]) && forall j :: 0 <= j < |ths[p].frames| ==> fresh(ths[p].frames[j])
  }

  /** Saved threads stay saved as pending sources are added. */
  lemma ThreadsSavedStable(ths: seq<Thread>, ts: seq<RawThread>, store: Store,
                           srcs: map<SourceKey, SymbolSource>, srcs': map<SourceKey, SymbolSource>, ext: Externals)
    requires ThreadsSaved(ths, ts, store.sources + srcs, ext)
    requires PendingSources(store, srcs') && Extends(srcs, srcs')
    ensures ThreadsSaved(ths, ts, store.sources + srcs', ext)
  {
    forall p | 0 <= p < |ths|
      ensures ThreadSaved(ths[p], ths[p].frames, p, ts[p], store.sources + srcs', ext)
    {
      FramesSavedStable(ths[p].frames, ths[p], ts[p].frames, store, srcs, srcs', ext);
    }
  }

  lemma ThreadsSavedStep(ths: seq<Thread>, t: Thread, ts: seq<RawThread>, store: Store,
                          srcs: map<SourceKey, SymbolSource>, srcs': map<SourceKey, SymbolSource>, ext: Externals)
    requires ThreadsSaved(ths, ts, store.sources + srcs, ext) && |ths| < |ts|
    requires PendingSources(store, srcs') && Extends(srcs, srcs')
    requires ThreadSaved(t, t.frames, |ths|, ts[|ths|], store.sources + srcs', ext)
    ensures ThreadsSaved(ths + [t], ts, store.sources + srcs', ext)
  {
    ThreadsSavedStable(ths, ts, store, srcs, srcs', ext);
    assert forall p :: 0 <= p < |ths| ==> (ths + [t])[p] == ths[p];
  }

  /** One pass of the thread loop: thread `tid` is created from `ts[i]`,
      appended to the backtrace and given its frames. */
  method SaveThread(store: Store, bt: Backtrace, ts: seq<RawThread>, i: int, tid: int,
                    syms: map<SymbolKey, Symbol>, srcs: map<SourceKey, SymbolSource>, ext: Externals)
    returns (t: Thread, syms': map<SymbolKey, Symbol>, srcs': map<SourceKey, SymbolSource>, ghost made: set<object>)
    requires store.Valid() && AllStorable(Flatten(ts)) && 0 <= i < |ts| && tid == i + 1
    requires Tracked(store, Flatten(ts[..i]), syms, srcs, ext)
    requires |bt.threads| == i && ThreadsSaved(bt.threads, ts, store.sources + srcs, ext)
    modifies bt
    ensures bt.hashes == old(bt.hashes) && bt.threads == old(bt.threads) + [t]
    ensures ThreadSaved(t, t.frames, i, ts[i], store.sources + srcs', ext)
    ensures ThreadsSaved(bt.threads, ts, store.sources + srcs', ext)
    ensures Tracked(store, Flatten(ts[..i + 1]), syms', srcs', ext)
    ensures Extends(syms, syms') && Extends(srcs, srcs')
    ensures fresh(made) && MadeIn(syms, srcs, syms', srcs', made) && ThreadIn(t, made)
  {
    FlattenStep(ts, i);
    StorableParts(Flatten(ts[..i]) + ts[i].frames, Flatten(ts[i + 1..]));
    StorableParts(Flatten(ts[..i]), ts[i].frames);
    t := new Thread(tid, IsCrashThread(ts[i]));
    bt.threads := bt.threads + [t];
    syms', srcs', made := SaveThreadFrames(store, t, ts[i].frames, Flatten(ts[..i]), syms, srcs, ext);
    made := made + {t};
    assert t.frames[0..] == t.frames;
    ThreadsSavedStep(old(bt.threads), t, ts, store, srcs, srcs', ext);
  }

  lemma ThreadInStep(ths: seq<Thread>, t: Thread, made: set<object>, madeNow: set<object>)
    requires forall p :: 0 <= p < |ths| ==> ThreadIn(ths[p], made)
    requires ThreadIn(t, madeNow)
    ensures forall p :: 0 <= p < |ths| + 1 ==> ThreadIn((ths + [t])[p], made + madeNow)
  {
    assert forall p :: 0 <= p < |ths| ==> (ths + [t])[p] == ths[p];
  }

  /** The thread loop of `save_ureport`: threads numbered from 1, each with
      its frames. */
  method SaveThreads(store: Store, bt: Backtrace, ts: seq<RawThread>, ext: Externals)
    returns (syms: map<SymbolKey, Symbol>, srcs: map<SourceKey, SymbolSource>)
    requires store.Valid() && AllStorable(Flatten(ts)) && bt.threads == []
    modifies bt
    ensures bt.hashes == old(bt.hashes)
    ensures |bt.threads| == |ts| && ThreadsSaved(bt.threads, ts, store.sources + srcs, ext)
    ensures ThreadsFresh(bt.threads)
    ensures Tracked(store, Flatten(ts), syms, srcs, ext)
    ensures forall k :: k in syms ==> fresh(syms[k])
    ensures forall k :: k in srcs ==> fresh(srcs[k])
  {
    syms, srcs := map[], map[];
    ghost var made: set<object> := {};
    var tid := 0;
    var i := 0;
    while i < |ts|
      invariant 0 <= i <= |ts| && tid == i && |bt.threads| == i
      invariant bt.hashes == old(bt.hashes)
      invariant Tracked(store, Flatten(ts[..i]), syms, srcs, ext)
      invariant fresh(made) && MadeIn(map[], map[], syms, srcs, made)
      invariant ThreadsSaved(bt.threads, ts, store.sources + srcs, ext)
      invariant forall p :: 0 <= p < i ==> ThreadIn(bt.threads[p], made)
    {
      tid := tid + 1;
      ghost var symsPrev, srcsPrev, ths := syms, srcs, bt.threads;
      var t;
      ghost var madeNow;
      t, syms, srcs, madeNow := SaveThread(store, bt, ts, i, tid, syms, srcs, ext);
      ThreadInStep(ths, t, made, madeNow);
      MadeInTrans(map[], map[], symsPrev, srcsPrev, syms, srcs, made, madeNow);
      made := made + madeNow;
      i := i + 1;
    }
    assert ts[..i] == ts;
  }
}
