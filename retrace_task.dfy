/** `retrace` over a whole task: every symbol source of every binary
    package, in turn, then the list of unpacked directories to remove. */
module RetraceTasks {
  import opened Wrappers
  import opened Environment
  import opened Storage
  import opened Retrace

  /** A package of a retrace task and where it is unpacked, if it is. */
  datatype Package = Package(nvra: string, unpackedPath: Option<string>)

  /** A symbol source to retrace and the frames that use it. */
  datatype Item = Item(source: SymbolSource, frames: seq<Frame>)

  /** A retrace task: the debuginfo package, the source package if there is
      one, and the symbol sources to retrace per binary package, in the
      order of `task.binary_packages`. */
  datatype Task = Task(debuginfo: Package, source: Option<Package>, binaryPackages: seq<(Package, seq<Item>)>)

  /** How a task ends: aborted by an empty `addr2line` result (the
      `results.pop()` on an empty list is not caught), or completed with the
      unpacked directories it removes, in order. */
  datatype Outcome = Aborted | Completed(removed: seq<string>)

  // ---------------------------------------------------------------------
  // Cleanup

  /** The unpacked directories of the binary packages, in order. */
  function UnpackedPaths(pkgs: seq<(Package, seq<Item>)>): (r: seq<string>)
    ensures |r| <= |pkgs|
  {
    if |pkgs| == 0 then []
    else
      (if pkgs[0].0.unpackedPath.Some? then [pkgs[0].0.unpackedPath.value] else [])
      + UnpackedPaths(pkgs[1..])
  }

  lemma {:induction false} UnpackedPathsMembers(pkgs: seq<(Package, seq<Item>)>, p: string)
    ensures p in UnpackedPaths(pkgs) <==> exists i :: 0 <= i < |pkgs| && pkgs[i].0.unpackedPath == Some(p)
    decreases |pkgs|
  {
    if |pkgs| > 0 {
      UnpackedPathsMembers(pkgs[1..], p);
      if exists i :: 0 <= i < |pkgs| && pkgs[i].0.unpackedPath == Some(p) {
        var i :| 0 <= i < |pkgs| && pkgs[i].0.unpackedPath == Some(p);
        if i > 0 {
          assert pkgs[1..][i - 1] == pkgs[i];
        }
      }
      if p in UnpackedPaths(pkgs[1..]) {
        var i :| 0 <= i < |pkgs[1..]| && pkgs[1..][i].0.unpackedPath == Some(p);
        assert pkgs[i + 1] == pkgs[1..][i];
      }
    }
  }

  /** The directories the task removes after retracing: the debuginfo
      package's, the source package's, then each binary package's, each
      only when it was unpacked. */
  function CleanupPaths(task: Task): (r: seq<string>)
  {
    (if task.debuginfo.unpackedPath.Some? then [task.debuginfo.unpackedPath.value] else [])
    + (if task.source.Some? && task.source.value.unpackedPath.Some? then [task.source.value.unpackedPath.value] else [])
    + UnpackedPaths(task.binaryPackages)
  }

  /** A directory is removed exactly when it is where one of the task's
      packages is unpacked. */
  lemma CleanupPathsMembers(task: Task, p: string)
    ensures p in CleanupPaths(task) <==>
              || task.debuginfo.unpackedPath == Some(p)
              || (task.source.Some? && task.source.value.unpackedPath == Some(p))
              || exists i :: 0 <= i < |task.binaryPackages| && task.binaryPackages[i].0.unpackedPath == Some(p)
  {
    UnpackedPathsMembers(task.binaryPackages, p);
  }

  // ---------------------------------------------------------------------
  // The frames of the task's threads

  /** The frames of each thread of `ths`. */
  ghost function Snapshot(ths: set<Thread>): (snap: map<Thread, seq<Frame>>)
    reads ths
    ensures snap.Keys == ths && forall t :: t in snap ==> snap[t] == t.frames
  {
    map t | t in ths :: t.frames
  }

  /** Each of the frames is listed by its thread in the snapshot. */
  ghost predicate ListedIn(frames: seq<Frame>, snap: map<Thread, seq<Frame>>)
  {
    forall i :: 0 <= i < |frames| ==> frames[i].thread in snap && frames[i] in snap[frames[i].thread]
  }

  /** Every thread of the snapshot kept its frames then as a prefix. */
  ghost predicate GrownSince(snap: map<Thread, seq<Frame>>)
    reads snap.Keys
  {
    forall t :: t in snap ==> GrownFrom(t, t.frames, snap[t])
  }

  lemma GrownTrans(t: Thread, a: seq<Frame>, b: seq<Frame>, c: seq<Frame>)
    requires GrownFrom(t, a, b) && GrownFrom(t, b, c)
    ensures GrownFrom(t, a, c)
  {
    assert a[..|c|] == a[..|b|][..|c|];
  }

  /** Frames listed in a snapshot are still listed once the threads have
      only grown. */
  lemma ListedNow(frames: seq<Frame>, snap: map<Thread, seq<Frame>>)
    requires ListedIn(frames, snap) && GrownSince(snap)
    ensures Listed(frames) && ThreadsOf(frames) <= snap.Keys
  {
    forall i | 0 <= i < |frames|
      ensures frames[i] in frames[i].thread.frames
    {
      var t := frames[i].thread;
      var p :| 0 <= p < |snap[t]| && snap[t][p] == frames[i];
      assert t.frames[p] == t.frames[..|snap[t]|][p];
    }
  }

  lemma ListedSnapshot(frames: seq<Frame>, snap: map<Thread, seq<Frame>>)
    requires Listed(frames) && ThreadsOf(frames) <= snap.Keys
    requires forall t :: t in snap ==> snap[t] == t.frames
    ensures ListedIn(frames, snap)
  {
    forall i | 0 <= i < |frames|
      ensures frames[i].thread in snap && frames[i] in snap[frames[i].thread]
    {
      assert frames[i].thread in ThreadsOf(frames);
    }
  }

  // ---------------------------------------------------------------------
  // The loops

  /** The `addr2line` result of the item's location, if it has one. */
  function ItemLocations(pkg: Package, item: Item, debuginfo: Option<string>, ext: Externals): Option<seq<SourceLocation>>
  {
    Locate(pkg.unpackedPath, item.source.path, item.source.offset, debuginfo, ext)
  }

  /** The location of the item has an empty `addr2line` result. */
  predicate EmptyResult(pkg: Package, item: Item, debuginfo: Option<string>, ext: Externals)
  {
    ItemLocations(pkg, item, debuginfo, ext) == Some([])
  }

  /** What retracing sets on a symbol source. */
  datatype SourceState = SourceState(symbol: Symbol?, sourcePath: Option<string>, lineNumber: Option<int>,
                                     retraceFailCount: int)

  function StateOf(ss: SymbolSource): SourceState
    reads ss
  {
    SourceState(ss.symbol, ss.sourcePath, ss.lineNumber, ss.retraceFailCount)
  }

  /** A symbol source of library `lib` retraced once, from `before` to
      `after`: a location that fails counts one more failure and changes
      nothing else; a location with a result takes the symbol of its
      outermost entry's function in `lib`, and that entry's file and line,
      and keeps the failure count. */
  predicate Retraced(before: SourceState, after: SourceState, located: Option<seq<SourceLocation>>, lib: string)
  {
    match located
    case None => after == before.(retraceFailCount := before.retraceFailCount + 1)
    case Some(locs) =>
      && |locs| > 0
      && after.symbol != null && after.symbol.Key() == (locs[|locs| - 1].funcName, lib)
      && after.sourcePath == Some(locs[|locs| - 1].sourceFile)
      && after.lineNumber == Some(locs[|locs| - 1].line)
      && after.retraceFailCount == before.retraceFailCount
  }

  /** The source of item `k` is the source of no other item. */
  predicate SoleSource(items: seq<Item>, k: nat)
    requires k < |items|
  {
    forall m :: 0 <= m < |items| && m != k ==> items[m].source != items[k].source
  }

  ghost predicate NoEmptyBefore(pkg: Package, items: seq<Item>, k: nat, debuginfo: Option<string>, ext: Externals)
    requires k <= |items|
  {
    forall m :: 0 <= m < k ==> !EmptyResult(pkg, items[m], debuginfo, ext)
  }

  lemma NoEmptyStep(pkg: Package, items: seq<Item>, k: nat, debuginfo: Option<string>, ext: Externals)
    requires k < |items| && NoEmptyBefore(pkg, items, k, debuginfo, ext)
    requires Locate(pkg.unpackedPath, items[k].source.path, items[k].source.offset, debuginfo, ext) != Some([])
    ensures NoEmptyBefore(pkg, items, k + 1, debuginfo, ext)
  {
  }

  /** The symbol sources of the items. */
  function ItemSources(items: seq<Item>): set<SymbolSource>
  {
    set k | 0 <= k < |items| :: items[k].source
  }

  /** The states of the items' symbol sources, in order. */
  function States(items: seq<Item>): (r: seq<SourceState>)
    reads ItemSources(items)
    ensures |r| == |items| && forall m :: 0 <= m < |items| ==> r[m] == StateOf(items[m].source)
  {
    seq(|items|, m requires 0 <= m < |items| reads ItemSources(items) => StateOf(items[m].source))
  }

  /** After the first `k` items, from states `init` to states `now`: each
      of them whose source no other item has was retraced once, and the
      sources of the others not yet reached are as they were. */
  ghost predicate Progress(pkg: Package, items: seq<Item>, init: seq<SourceState>, now: seq<SourceState>, k: nat,
                           debuginfo: Option<string>, ext: Externals)
  {
    && |init| == |items| && |now| == |items| && k <= |items|
    && (forall m :: 0 <= m < k && SoleSource(items, m) ==>
          Retraced(init[m], now[m], ItemLocations(pkg, items[m], debuginfo, ext), ext.libname(items[m].source.path)))
    && (forall m :: k <= m < |items| && SoleSource(items, m) ==> now[m] == init[m])
  }

  lemma ProgressStep(pkg: Package, items: seq<Item>, init: seq<SourceState>, pre: seq<SourceState>,
                     now: seq<SourceState>, k: nat, debuginfo: Option<string>, ext: Externals)
    requires Progress(pkg, items, init, pre, k, debuginfo, ext) && k < |items| && |now| == |items|
    requires forall m :: 0 <= m < |items| && items[m].source != items[k].source ==> now[m] == pre[m]
    requires Retraced(pre[k], now[k], ItemLocations(pkg, items[k], debuginfo, ext), ext.libname(items[k].source.path))
    ensures Progress(pkg, items, init, now, k + 1, debuginfo, ext)
  {
  }

  /** The pending symbols grown since the start are the first ones or new. */
  twostate lemma GrownValues(syms: map<SymbolKey, Symbol>, new syms': map<SymbolKey, Symbol>)
    requires Extends(syms, syms') && forall k :: k in syms' && k !in syms ==> fresh(syms'[k])
    ensures forall s :: s in Values(syms') ==> s in Values(syms) || fresh(s)
  {
    forall s | s in Values(syms')
      ensures s in Values(syms) || fresh(s)
    {
      var k :| k in syms' && syms'[k] == s;
      if k in syms {
        assert s == syms[k];
      }
    }
  }

  /** One item retraced: the threads of its frames only grow, and its
      symbol source was retraced once against the item's location. */
  method RetraceOne(store: Store, syms: map<SymbolKey, Symbol>, srcs: map<SourceKey, SymbolSource>,
                    pkg: Package, item: Item, debuginfo: Option<string>, ext: Externals,
                    ghost snap: map<Thread, seq<Frame>>)
    returns (done: bool, syms': map<SymbolKey, Symbol>, srcs': map<SourceKey, SymbolSource>)
    requires store.Valid() && PendingSymbols(store, syms) && PendingSources(store, srcs)
    requires ListedIn(item.frames, snap) && GrownSince(snap)
    modifies item.source, snap.Keys, store.SymbolObjects(), Values(syms)
    ensures PendingGrew(store, syms, srcs, syms', srcs') && FreshRows(syms, srcs, syms', srcs')
    ensures GrownSince(snap)
    ensures done <==> !EmptyResult(pkg, item, debuginfo, ext)
    ensures done ==> Retraced(old(StateOf(item.source)), StateOf(item.source), ItemLocations(pkg, item, debuginfo, ext),
                              ext.libname(item.source.path))
  {
    ListedNow(item.frames, snap);
    ghost var mid := Snapshot(snap.Keys);
    done, syms', srcs' := RetraceSource(store, syms, srcs, item.source, item.frames, pkg.unpackedPath,
                                        debuginfo, ext, snap.Keys);
    forall t | t in snap
      ensures GrownFrom(t, t.frames, snap[t])
    {
      GrownTrans(t, t.frames, mid[t], snap[t]);
    }
  }

  /** Item `k` of a binary package, retraced: the threads of its frames only
      grow, and the symbol sources of the other items are untouched. */
  method RetraceItem(store: Store, syms: map<SymbolKey, Symbol>, srcs: map<SourceKey, SymbolSource>,
                     pkg: Package, items: seq<Item>, k: nat, debuginfo: Option<string>, ext: Externals,
                     ghost snap: map<Thread, seq<Frame>>)
    returns (done: bool, syms': map<SymbolKey, Symbol>, srcs': map<SourceKey, SymbolSource>)
    requires store.Valid() && PendingSymbols(store, syms) && PendingSources(store, srcs)
    requires k < |items| && ListedIn(items[k].frames, snap) && GrownSince(snap)
    modifies items[k].source, snap.Keys, store.SymbolObjects(), Values(syms)
    ensures PendingGrew(store, syms, srcs, syms', srcs') && FreshRows(syms, srcs, syms', srcs')
    ensures GrownSince(snap)
    ensures done <==> !EmptyResult(pkg, items[k], debuginfo, ext)
    ensures done ==> Retraced(old(States(items))[k], States(items)[k], ItemLocations(pkg, items[k], debuginfo, ext),
                              ext.libname(items[k].source.path))
    ensures forall m :: 0 <= m < |items| && items[m].source != items[k].source ==>
              States(items)[m] == old(States(items))[m]
  {
    var item := items[k];
    done, syms', srcs' := RetraceOne(store, syms, srcs, pkg, item, debuginfo, ext, snap);
    forall m | 0 <= m < |items| && items[m].source != item.source
      ensures StateOf(items[m].source) == old(StateOf(items[m].source))
    {
    }
  }

  /** The inner loop over the symbol sources of one binary package: each
      is retraced in turn, and the first empty `addr2line` result ends the
      task. The threads of the frames only grow, and when the package
      completes, every symbol source that only one item has was retraced
      once. */
  method RetracePackage(store: Store, syms: map<SymbolKey, Symbol>, srcs: map<SourceKey, SymbolSource>,
                        pkg: Package, items: seq<Item>, debuginfo: Option<string>, ext: Externals,
                        ghost snap: map<Thread, seq<Frame>>)
    returns (ok: bool, syms': map<SymbolKey, Symbol>, srcs': map<SourceKey, SymbolSource>)
    requires store.Valid() && PendingSymbols(store, syms) && PendingSources(store, srcs)
    requires forall k :: 0 <= k < |items| ==> ListedIn(items[k].frames, snap)
    requires GrownSince(snap)
    modifies ItemSources(items), snap.Keys, store.SymbolObjects(), Values(syms)
    ensures PendingGrew(store, syms, srcs, syms', srcs') && FreshRows(syms, srcs, syms', srcs')
    ensures GrownSince(snap)
    ensures ok <==> forall k :: 0 <= k < |items| ==> !EmptyResult(pkg, items[k], debuginfo, ext)
    ensures ok ==> Progress(pkg, items, old(States(items)), States(items), |items|, debuginfo, ext)
  {
    ghost var init := States(items);
    syms', srcs' := syms, srcs;
    var k := 0;
    while k < |items|
      invariant 0 <= k <= |items|
      invariant PendingGrew(store, syms, srcs, syms', srcs') && FreshRows(syms, srcs, syms', srcs')
      invariant GrownSince(snap)
      invariant NoEmptyBefore(pkg, items, k, debuginfo, ext)
      invariant Progress(pkg, items, init, States(items), k, debuginfo, ext)
    {
      ghost var syms1, srcs1, pre := syms', srcs', States(items);
      GrownValues(syms, syms');
      var done;
      done, syms', srcs' := RetraceItem(store, syms', srcs', pkg, items, k, debuginfo, ext, snap);
      PendingGrewTrans(store, syms, srcs, syms1, srcs1, syms', srcs');
      if !done {
        return false, syms', srcs';
      }
      ProgressStep(pkg, items, init, pre, States(items), k, debuginfo, ext);
      NoEmptyStep(pkg, items, k, debuginfo, ext);
      k := k + 1;
    }
    ok := true;
  }

  /** The threads of the frames of the items. */
  function ItemThreads(items: seq<Item>): set<Thread>
  {
    set k, j | 0 <= k < |items| && 0 <= j < |items[k].frames| :: items[k].frames[j].thread
  }

  /** The symbol sources of the task. */
  function TaskSources(task: Task): set<SymbolSource>
  {
    set i, k | 0 <= i < |task.binaryPackages| && 0 <= k < |task.binaryPackages[i].1|
             :: task.binaryPackages[i].1[k].source
  }

  /** The threads of the frames of the task. */
  function TaskThreads(task: Task): set<Thread>
  {
    set i, k, j | 0 <= i < |task.binaryPackages| && 0 <= k < |task.binaryPackages[i].1|
                  && 0 <= j < |task.binaryPackages[i].1[k].frames|
                :: task.binaryPackages[i].1[k].frames[j].thread
  }

  /** Some symbol source of the task has an empty `addr2line` result. */
  predicate SomeEmptyResult(task: Task, ext: Externals)
  {
    exists i, k :: 0 <= i < |task.binaryPackages| && 0 <= k < |task.binaryPackages[i].1| &&
      EmptyResult(task.binaryPackages[i].0, task.binaryPackages[i].1[k], task.debuginfo.unpackedPath, ext)
  }

  ghost predicate NoEmptyPackageBefore(task: Task, i: nat, ext: Externals)
    requires i <= |task.binaryPackages|
  {
    forall p, k :: 0 <= p < i && 0 <= k < |task.binaryPackages[p].1| ==>
      !EmptyResult(task.binaryPackages[p].0, task.binaryPackages[p].1[k], task.debuginfo.unpackedPath, ext)
  }

  lemma NoEmptyPackageStep(task: Task, i: nat, ext: Externals)
    requires i < |task.binaryPackages| && NoEmptyPackageBefore(task, i, ext)
    requires forall k :: 0 <= k < |task.binaryPackages[i].1| ==>
               !EmptyResult(task.binaryPackages[i].0, task.binaryPackages[i].1[k], task.debuginfo.unpackedPath, ext)
    ensures NoEmptyPackageBefore(task, i + 1, ext)
  {
  }

  lemma AbortedBy(task: Task, i: nat, ext: Externals)
    requires i < |task.binaryPackages|
    requires !forall k :: 0 <= k < |task.binaryPackages[i].1| ==>
               !EmptyResult(task.binaryPackages[i].0, task.binaryPackages[i].1[k], task.debuginfo.unpackedPath, ext)
    ensures SomeEmptyResult(task, ext)
  {
  }

  /** The source of item `k` of binary package `i` is the source of no
      other item of the task. */
  predicate SoleInTask(task: Task, i: nat, k: nat)
    requires i < |task.binaryPackages| && k < |task.binaryPackages[i].1|
  {
    forall j, m :: 0 <= j < |task.binaryPackages| && 0 <= m < |task.binaryPackages[j].1| && (j != i || m != k) ==>
      task.binaryPackages[j].1[m].source != task.binaryPackages[i].1[k].source
  }

  /** The states of the symbol sources of each binary package. */
  function TaskStates(task: Task): (r: seq<seq<SourceState>>)
    reads TaskSources(task)
    ensures |r| == |task.binaryPackages|
    ensures forall i :: 0 <= i < |task.binaryPackages| ==> r[i] == States(task.binaryPackages[i].1)
  {
    seq(|task.binaryPackages|, i requires 0 <= i < |task.binaryPackages| reads TaskSources(task) =>
      States(task.binaryPackages[i].1))
  }

  /** After the first `i` binary packages, from states `init` to states
      `now`: each of their items whose source no other item of the task
      has was retraced once, and the sources of the others not yet reached
      are as they were. */
  ghost predicate TaskProgress(task: Task, init: seq<seq<SourceState>>, now: seq<seq<SourceState>>, i: nat, ext: Externals)
  {
    var pkgs := task.binaryPackages;
    && |init| == |pkgs| && |now| == |pkgs| && i <= |pkgs|
    && (forall p :: 0 <= p < |pkgs| ==> |init[p]| == |pkgs[p].1| && |now[p]| == |pkgs[p].1|)
    && (forall p, k :: 0 <= p < i && 0 <= k < |pkgs[p].1| && SoleInTask(task, p, k) ==>
          Retraced(init[p][k], now[p][k], ItemLocations(pkgs[p].0, pkgs[p].1[k], task.debuginfo.unpackedPath, ext),
                   ext.libname(pkgs[p].1[k].source.path)))
    && (forall p, k :: i <= p < |pkgs| && 0 <= k < |pkgs[p].1| && SoleInTask(task, p, k) ==> now[p][k] == init[p][k])
  }

  lemma TaskProgressStep(task: Task, init: seq<seq<SourceState>>, pre: seq<seq<SourceState>>,
                         now: seq<seq<SourceState>>, i: nat, ext: Externals)
    requires TaskProgress(task, init, pre, i, ext) && i < |task.binaryPackages| && |now| == |pre|
    requires Progress(task.binaryPackages[i].0, task.binaryPackages[i].1, pre[i], now[i],
                      |task.binaryPackages[i].1|, task.debuginfo.unpackedPath, ext)
    requires forall p, k ::
               0 <= p < |task.binaryPackages| && p != i && 0 <= k < |task.binaryPackages[p].1| &&
               task.binaryPackages[p].1[k].source !in ItemSources(task.binaryPackages[i].1) ==>
               |now[p]| == |pre[p]| && now[p][k] == pre[p][k]
    requires forall p :: 0 <= p < |task.binaryPackages| ==> |now[p]| == |pre[p]|
    ensures TaskProgress(task, init, now, i + 1, ext)
  {
    var pkgs := task.binaryPackages;
    forall p, k | 0 <= p < |pkgs| && p != i && 0 <= k < |pkgs[p].1| && SoleInTask(task, p, k)
      ensures pkgs[p].1[k].source !in ItemSources(pkgs[i].1)
    {
      forall m | 0 <= m < |pkgs[i].1|
        ensures pkgs[i].1[m].source != pkgs[p].1[k].source
      {
      }
    }
    forall k | 0 <= k < |pkgs[i].1| && SoleInTask(task, i, k)
      ensures SoleSource(pkgs[i].1, k)
    {
    }
  }

  /** Binary package `i` of the task, retraced: when it completes, its
      items whose source no other of its items has were retraced once, and
      the other symbol sources of the task are untouched. */
  method RetraceTaskPackage(store: Store, syms: map<SymbolKey, Symbol>, srcs: map<SourceKey, SymbolSource>,
                            task: Task, i: nat, ext: Externals, ghost snap: map<Thread, seq<Frame>>)
    returns (ok: bool, syms': map<SymbolKey, Symbol>, srcs': map<SourceKey, SymbolSource>)
    requires store.Valid() && PendingSymbols(store, syms) && PendingSources(store, srcs)
    requires i < |task.binaryPackages|
    requires forall k :: 0 <= k < |task.binaryPackages[i].1| ==> ListedIn(task.binaryPackages[i].1[k].frames, snap)
    requires GrownSince(snap)
    modifies ItemSources(task.binaryPackages[i].1), snap.Keys, store.SymbolObjects(), Values(syms)
    ensures PendingGrew(store, syms, srcs, syms', srcs') && FreshRows(syms, srcs, syms', srcs')
    ensures GrownSince(snap)
    ensures ok <==> forall k :: 0 <= k < |task.binaryPackages[i].1| ==>
                      !EmptyResult(task.binaryPackages[i].0, task.binaryPackages[i].1[k], task.debuginfo.unpackedPath, ext)
    ensures ok ==> Progress(task.binaryPackages[i].0, task.binaryPackages[i].1, old(TaskStates(task))[i],
                            TaskStates(task)[i], |task.binaryPackages[i].1|, task.debuginfo.unpackedPath, ext)
    ensures forall p, k ::
              0 <= p < |task.binaryPackages| && p != i && 0 <= k < |task.binaryPackages[p].1| &&
              task.binaryPackages[p].1[k].source !in ItemSources(task.binaryPackages[i].1) ==>
              TaskStates(task)[p][k] == old(TaskStates(task))[p][k]
  {
    var items := task.binaryPackages[i].1;
    ghost var pre := TaskStates(task);
    assert pre[i] == States(items);
    ok, syms', srcs' := RetracePackage(store, syms, srcs, task.binaryPackages[i].0, items,
                                       task.debuginfo.unpackedPath, ext, snap);
    assert TaskStates(task)[i] == States(items);
  }

  /** `retrace`: the symbol sources of every binary package in turn, with
      new symbols and symbol sources shared across the whole task (the rows
      it adds, returned). The task aborts exactly when some symbol source
      has an empty `addr2line` result; otherwise it removes the unpacked
      directories. Frames are only ever added to the threads. */
  method RetraceTask(store: Store, task: Task, ext: Externals)
    returns (outcome: Outcome, syms: map<SymbolKey, Symbol>, srcs: map<SourceKey, SymbolSource>)
    requires store.Valid()
    requires forall i, k :: 0 <= i < |task.binaryPackages| && 0 <= k < |task.binaryPackages[i].1| ==>
               Listed(task.binaryPackages[i].1[k].frames)
    requires forall i, k, j ::
               0 <= i < |task.binaryPackages| && 0 <= k < |task.binaryPackages[i].1| &&
               0 <= j < |task.binaryPackages[i].1[k].frames| ==>
               task.binaryPackages[i].1[k].frames[j].symbolSource == task.binaryPackages[i].1[k].source
    modifies TaskSources(task), TaskThreads(task), store.SymbolObjects()
    ensures PendingSymbols(store, syms) && PendingSources(store, srcs)
    ensures forall k :: k in syms ==> fresh(syms[k])
    ensures forall k :: k in srcs ==> fresh(srcs[k])
    ensures forall t :: t in TaskThreads(task) ==> GrownFrom(t, t.frames, old(t.frames))
    ensures outcome.Aborted? <==> SomeEmptyResult(task, ext)
    ensures outcome.Completed? ==> outcome.removed == CleanupPaths(task)
    ensures outcome.Completed? ==> TaskProgress(task, old(TaskStates(task)), TaskStates(task), |task.binaryPackages|, ext)
  {
    ghost var init := TaskStates(task);
    ghost var ths := TaskThreads(task);
    ghost var snap := Snapshot(ths);
    forall i, k | 0 <= i < |task.binaryPackages| && 0 <= k < |task.binaryPackages[i].1|
      ensures ListedIn(task.binaryPackages[i].1[k].frames, snap)
    {
      var frames := task.binaryPackages[i].1[k].frames;
      forall j | 0 <= j < |frames|
        ensures frames[j].thread in ths
      {
        assert frames[j].thread == task.binaryPackages[i].1[k].frames[j].thread;
      }
      ListedSnapshot(frames, snap);
    }
    syms, srcs := map[], map[];
    var i := 0;
    while i < |task.binaryPackages|
      invariant 0 <= i <= |task.binaryPackages|
      invariant PendingSymbols(store, syms) && PendingSources(store, srcs)
      invariant forall k :: k in syms ==> fresh(syms[k])
      invariant forall k :: k in srcs ==> fresh(srcs[k])
      invariant GrownSince(snap)
      invariant NoEmptyPackageBefore(task, i, ext)
      invariant TaskProgress(task, init, TaskStates(task), i, ext)
    {
      ghost var pre := TaskStates(task);
      var ok;
      ok, syms, srcs := RetraceTaskPackage(store, syms, srcs, task, i, ext, snap);
      if !ok {
        AbortedBy(task, i, ext);
        return Aborted, syms, srcs;
      }
      TaskProgressStep(task, init, pre, TaskStates(task), i, ext);
      NoEmptyPackageStep(task, i, ext);
      i := i + 1;
    }
    outcome := Completed(CleanupPaths(task));
  }
}
