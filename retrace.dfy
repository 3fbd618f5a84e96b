/** `retrace`: resolving the symbol sources of a retrace task with
    `addr2line`, unwinding inlined functions into synthetic symbol sources
    and inlined frames, and counting the locations that fail. */
module Retrace {
  import opened Wrappers
  import opened Environment
  import opened Storage

  // ---------------------------------------------------------------------
  // The frames of a thread as rows, and their order once sorted

  /** What the inlined-frame check reads of a frame: its order, its symbol
      source and whether it is inlined. */
  datatype FrameRow<S> = FrameRow(order: int, source: S, inlined: bool)

  function Row(f: Frame): FrameRow<SymbolSource>
  {
    FrameRow(f.order, f.symbolSource, f.inlined)
  }

  function Rows(fs: seq<Frame>): (r: seq<FrameRow<SymbolSource>>)
    ensures |r| == |fs| && forall i :: 0 <= i < |fs| ==> r[i] == Row(fs[i])
  {
    seq(|fs|, i requires 0 <= i < |fs| => Row(fs[i]))
  }

  /** Whether row `j` comes before row `i` once the rows are sorted by order
      with a stable sort. */
  predicate SortsBefore<S>(rows: seq<FrameRow<S>>, j: int, i: int)
    requires 0 <= i < |rows| && 0 <= j < |rows|
  {
    rows[j].order < rows[i].order || (rows[j].order == rows[i].order && j < i)
  }

  ghost function Preceding<S>(rows: seq<FrameRow<S>>, i: nat): set<nat>
    requires i < |rows|
  {
    set j: nat | j < |rows| && SortsBefore(rows, j, i)
  }

  predicate Below(j: int, n: int)
  {
    0 <= j < n
  }

  ghost function Range(n: nat): set<nat>
  {
    set j: nat | j < n && Below(j, n)
  }

  lemma {:induction false} RangeSize(n: nat)
    ensures |Range(n)| == n
  {
    if n > 0 {
      assert Range(n) == Range(n - 1) + {n - 1};
      RangeSize(n - 1);
    }
  }

  lemma PrecedingBound<S>(rows: seq<FrameRow<S>>, i: nat)
    requires i < |rows|
    ensures |Preceding(rows, i)| < |rows|
  {
    var rest := Range(|rows|) - {i};
    assert Preceding(rows, i) <= rest;
    assert Below(i, |rows|);
    RangeSize(|rows|);
    assert |rest| == |rows| - 1;
    SubsetSize(Preceding(rows, i), rest);
  }

  /** The index of row `i` in the rows sorted by order (Python's stable
      `sorted(..., key=lambda f: f.order)` followed by `.index`). */
  function SortedIndex<S>(rows: seq<FrameRow<S>>, i: nat): (r: nat)
    requires i < |rows|
    ensures r < |rows|
  {
    PrecedingBound(rows, i);
    |set j: nat | j < |rows| && SortsBefore(rows, j, i)|
  }

  /** A row that sorts before another has a smaller sorted index, so sorted
      indexes are distinct and follow the order. */
  lemma SortedIndexOrdered<S>(rows: seq<FrameRow<S>>, i: nat, k: nat)
    requires i < |rows| && k < |rows| && SortsBefore(rows, i, k)
    ensures SortedIndex(rows, i) < SortedIndex(rows, k)
  {
    assert Preceding(rows, i) + {i} <= Preceding(rows, k) by {
      forall j: nat | j in Preceding(rows, i) ensures j in Preceding(rows, k) {
        assert SortsBefore(rows, j, i);
      }
    }
    assert i !in Preceding(rows, i);
    SubsetSize(Preceding(rows, i) + {i}, Preceding(rows, k));
  }

  lemma {:induction false} SubsetSize<T>(a: set<T>, b: set<T>)
    requires a <= b
    ensures |a| <= |b|
    decreases |b|
  {
    if a != {} {
      var x :| x in a;
      SubsetSize(a - {x}, b - {x});
    }
  }

  lemma SortedIndexDistinct<S>(rows: seq<FrameRow<S>>, i: nat, k: nat)
    requires i < |rows| && k < |rows| && i != k
    ensures SortedIndex(rows, i) != SortedIndex(rows, k)
  {
    if SortsBefore(rows, i, k) {
      SortedIndexOrdered(rows, i, k);
    } else {
      assert SortsBefore(rows, k, i);
      SortedIndexOrdered(rows, k, i);
    }
  }

  predicate OrderSorted<S>(rows: seq<FrameRow<S>>)
  {
    forall i, j :: 0 <= i < j < |rows| ==> rows[i].order <= rows[j].order
  }

  /** In rows already sorted by order, a row's sorted index is its position. */
  lemma SortedIndexOfSorted<S>(rows: seq<FrameRow<S>>, i: nat)
    requires i < |rows| && OrderSorted(rows)
    ensures SortedIndex(rows, i) == i
  {
    assert Preceding(rows, i) == Range(i);
    RangeSize(i);
  }

  // ---------------------------------------------------------------------
  // Inserting the inlined frames of one synthetic symbol source

  /** The check that skips a frame: the entry at the frame's sorted index
      minus one, read from the rows in their stored (unsorted) order, is an
      inlined frame of the same synthetic source. */
  predicate AlreadyInlined<S(==)>(rows: seq<FrameRow<S>>, p: nat, inl: S)
    requires p < |rows|
  {
    var idx := SortedIndex(rows, p);
    idx > 0 && rows[idx - 1].inlined && rows[idx - 1].source == inl
  }

  /** One pass of the frame loop for the frame at position `p` of its thread. */
  function AddInlined<S(==)>(rows: seq<FrameRow<S>>, p: nat, inl: S, inlId: int): (r: seq<FrameRow<S>>)
    requires p < |rows|
    ensures |rows| <= |r| <= |rows| + 1 && r[..|rows|] == rows
  {
    if AlreadyInlined(rows, p, inl) then rows
    else rows + [FrameRow(rows[p].order - inlId, inl, true)]
  }

  /** The frame loop on one thread: the frames at positions `ps`, in turn. */
  function AddInlinedAll<S(==)>(rows: seq<FrameRow<S>>, ps: seq<nat>, inl: S, inlId: int): (r: seq<FrameRow<S>>)
    requires forall m :: 0 <= m < |ps| ==> ps[m] < |rows|
    ensures |rows| <= |r| <= |rows| + |ps| && r[..|rows|] == rows
    decreases |ps|
  {
    if |ps| == 0 then rows
    else
      var rows' := AddInlined(rows, ps[0], inl, inlId);
      AddInlinedAll(rows', ps[1..], inl, inlId)
  }

  lemma {:induction false} AddInlinedAllAppend<S>(rows: seq<FrameRow<S>>, ps: seq<nat>, p: nat, inl: S, inlId: int)
    requires forall m :: 0 <= m < |ps| ==> ps[m] < |rows|
    requires p < |rows|
    ensures forall m :: 0 <= m < |ps + [p]| ==> (ps + [p])[m] < |rows|
    ensures AddInlinedAll(rows, ps + [p], inl, inlId) == AddInlined(AddInlinedAll(rows, ps, inl, inlId), p, inl, inlId)
    decreases |ps|
  {
    if |ps| > 0 {
      var rows' := AddInlined(rows, ps[0], inl, inlId);
      assert (ps + [p])[1..] == ps[1..] + [p];
      AddInlinedAllAppend(rows', ps[1..], p, inl, inlId);
    } else {
      assert ps + [p] == [p];
    }
  }

  /** As written, the check reads the predecessor from the unsorted rows. A
      thread with frames of order 10 and 20, retraced twice with one inlined
      entry for the second frame, gets the inlined frame twice: after the
      first pass the inlined frame (order 19) sorts just before the frame,
      but the row read at that index is the frame itself. */
  lemma SecondPassDuplicates()
    ensures var rows := [FrameRow(10, 1, false), FrameRow(20, 2, false)];
            var inl := FrameRow(19, 3, true);
            && AddInlined(rows, 1, 3, 1) == rows + [inl]
            && AddInlined(rows + [inl], 1, 3, 1) == rows + [inl, inl]
  {
    var rows := [FrameRow(10, 1, false), FrameRow(20, 2, false)];
    var inl := FrameRow(19, 3, true);
    assert Preceding(rows, 1) == {0};
    var rows1 := rows + [inl];
    assert Preceding(rows1, 1) == {0, 2};
  }

  /** When the frames are stored in order and the frame right before is
      already the inlined frame of the same source, the frame is skipped. */
  lemma SortedRowsSkip<S>(rows: seq<FrameRow<S>>, p: nat, inl: S, inlId: int)
    requires p < |rows| && OrderSorted(rows)
    requires p > 0 && rows[p - 1].inlined && rows[p - 1].source == inl
    ensures AddInlined(rows, p, inl, inlId) == rows
  {
    SortedIndexOfSorted(rows, p);
  }

  // ---------------------------------------------------------------------
  // The frame loop on the stored frames

  /** The position of a frame in its thread's stored frame list
      (`list.index`: the first occurrence). */
  function IndexOf(fs: seq<Frame>, f: Frame): (p: nat)
    requires f in fs
    ensures p < |fs| && fs[p] == f && forall q :: 0 <= q < p ==> fs[q] != f
  {
    if fs[0] == f then 0 else 1 + IndexOf(fs[1..], f)
  }

  lemma IndexOfPrefix(fs: seq<Frame>, gs: seq<Frame>, f: Frame)
    requires f in fs && |fs| <= |gs| && gs[..|fs|] == fs
    ensures f in gs && IndexOf(gs, f) == IndexOf(fs, f)
  {
    var p := IndexOf(fs, f);
    assert gs[p] == f;
    var q := IndexOf(gs, f);
    assert q <= p;
    assert gs[q] == fs[q];
  }

  /** The threads of some frames. */
  function ThreadsOf(frames: seq<Frame>): set<Thread>
  {
    set i | 0 <= i < |frames| :: frames[i].thread
  }

  /** Each of the frames is listed by its thread, as the two sides of the
      frame-thread relationship agree. */
  ghost predicate Listed(frames: seq<Frame>)
    reads ThreadsOf(frames)
  {
    forall i :: 0 <= i < |frames| ==> frames[i] in frames[i].thread.frames
  }

  /** The stored positions, in `fs`, of those `frames` that are on thread `t`, in order. */
  function PositionsOn(frames: seq<Frame>, t: Thread, fs: seq<Frame>): (ps: seq<nat>)
    requires forall i :: 0 <= i < |frames| && frames[i].thread == t ==> frames[i] in fs
    ensures forall m :: 0 <= m < |ps| ==> ps[m] < |fs|
  {
    if |frames| == 0 then []
    else
      (if frames[0].thread == t then [IndexOf(fs, frames[0])] else []) + PositionsOn(frames[1..], t, fs)
  }

  lemma {:induction false} PositionsOnAppend(frames: seq<Frame>, f: Frame, t: Thread, fs: seq<Frame>)
    requires forall i :: 0 <= i < |frames| && frames[i].thread == t ==> frames[i] in fs
    requires f.thread == t ==> f in fs
    ensures forall i :: 0 <= i < |frames + [f]| && (frames + [f])[i].thread == t ==> (frames + [f])[i] in fs
    ensures PositionsOn(frames + [f], t, fs)
            == PositionsOn(frames, t, fs) + (if f.thread == t then [IndexOf(fs, f)] else [])
  {
    if |frames| == 0 {
      assert frames + [f] == [f];
    } else {
      assert (frames + [f])[1..] == frames[1..] + [f];
      PositionsOnAppend(frames[1..], f, t, fs);
    }
  }

  lemma {:induction false} PositionsOnPrefix(frames: seq<Frame>, t: Thread, fs: seq<Frame>, gs: seq<Frame>)
    requires forall i :: 0 <= i < |frames| && frames[i].thread == t ==> frames[i] in fs
    requires |fs| <= |gs| && gs[..|fs|] == fs
    ensures forall i :: 0 <= i < |frames| && frames[i].thread == t ==> frames[i] in gs
    ensures PositionsOn(frames, t, gs) == PositionsOn(frames, t, fs)
  {
    forall i | 0 <= i < |frames| && frames[i].thread == t
      ensures frames[i] in gs
    {
      IndexOfPrefix(fs, gs, frames[i]);
    }
    if |frames| > 0 {
      if frames[0].thread == t {
        IndexOfPrefix(fs, gs, frames[0]);
      }
      PositionsOnPrefix(frames[1..], t, fs, gs);
    }
  }

  /** One pass of the frame loop: an inlined frame of `inl`, ordered
      `inlId` before the frame, appended to the frame's thread unless the
      check finds it already there. */
  method InsertInlinedFrame(frame: Frame, inl: SymbolSource, inlId: int)
    requires frame in frame.thread.frames
    modifies frame.thread
    ensures |frame.thread.frames| >= |old(frame.thread.frames)|
    ensures frame.thread.frames[..|old(frame.thread.frames)|] == old(frame.thread.frames)
    ensures Rows(frame.thread.frames)
            == AddInlined(Rows(old(frame.thread.frames)), IndexOf(old(frame.thread.frames), frame), inl, inlId)
    ensures forall m :: |old(frame.thread.frames)| <= m < |frame.thread.frames| ==>
              fresh(frame.thread.frames[m]) && frame.thread.frames[m].thread == frame.thread
  {
    var t := frame.thread;
    var idx := SortedIndex(Rows(t.frames), IndexOf(t.frames, frame));
    if idx > 0 {
      var prev := t.frames[idx - 1];
      if prev.inlined && prev.symbolSource == inl {
        return;
      }
    }
    var f := AttachFrame(t, frame.order - inlId, inl, true);
    assert Rows(t.frames) == Rows(old(t.frames)) + [Row(f)];
  }

  /** Frames stay listed by their threads as frames are appended. */
  lemma ListedGrows(frames: seq<Frame>, t: Thread, fs: seq<Frame>)
    requires forall i :: 0 <= i < |frames| && frames[i].thread == t ==> frames[i] in fs
    requires |fs| <= |t.frames| && t.frames[..|fs|] == fs
    ensures forall i :: 0 <= i < |frames| && frames[i].thread == t ==> frames[i] in t.frames
  {
    forall i | 0 <= i < |frames| && frames[i].thread == t
      ensures frames[i] in t.frames
    {
      IndexOfPrefix(fs, t.frames, frames[i]);
    }
  }

  /** The frames `tf` of thread `t` kept its stored frames `fs` as a
      prefix, and each frame after them is on `t`. */
  ghost predicate GrownFrom(t: Thread, tf: seq<Frame>, fs: seq<Frame>)
  {
    && |tf| >= |fs| && tf[..|fs|] == fs
    && forall m :: |fs| <= m < |tf| ==> tf[m].thread == t
  }

  /** The frame loop has handled `frames[..j]`: each thread grew from its
      stored frames `snap[t]` as `AddInlinedAll` says for the positions of
      its frames among them. */
  ghost predicate InlinedUpTo(frames: seq<Frame>, j: nat, snap: map<Thread, seq<Frame>>,
                              inl: SymbolSource, inlId: int)
    requires j <= |frames|
    reads ThreadsOf(frames)
  {
    forall t :: t in ThreadsOf(frames) ==> ThreadInlined(frames, j, snap, t, t.frames, inl, inlId)
  }

  /** `InlinedUpTo` for one thread `t` whose frames are `tf`. */
  ghost predicate ThreadInlined(frames: seq<Frame>, j: nat, snap: map<Thread, seq<Frame>>, t: Thread,
                                tf: seq<Frame>, inl: SymbolSource, inlId: int)
    requires j <= |frames|
  {
    && t in snap
    && (forall i :: 0 <= i < |frames| && frames[i].thread == t ==> frames[i] in snap[t])
    && GrownFrom(t, tf, snap[t])
    && Rows(tf) == AddInlinedAll(Rows(snap[t]), PositionsOn(frames[..j], t, snap[t]), inl, inlId)
  }

  /** One pass of the frame loop, for `frames[j]`. */
  method InlineStep(frames: seq<Frame>, j: nat, ghost snap: map<Thread, seq<Frame>>, inl: SymbolSource, inlId: int)
    requires j < |frames| && InlinedUpTo(frames, j, snap, inl, inlId)
    modifies frames[j].thread
    ensures InlinedUpTo(frames, j + 1, snap, inl, inlId)
  {
    var frame := frames[j];
    ghost var t0 := frame.thread;
    assert t0 in ThreadsOf(frames);
    ghost var before := t0.frames;
    assert ThreadInlined(frames, j, snap, t0, before, inl, inlId);
    IndexOfPrefix(snap[t0], before, frame);
    label Step:
    InsertInlinedFrame(frame, inl, inlId);
    StepOnThread(frames, j, snap, before, t0.frames, inl, inlId);
    forall t | t in ThreadsOf(frames) && t != t0
      ensures ThreadInlined(frames, j + 1, snap, t, t.frames, inl, inlId)
    {
      assert old@Step(ThreadInlined(frames, j, snap, t, t.frames, inl, inlId));
      StepOnOtherThread(frames, j, snap, t, t.frames, inl, inlId);
    }
  }

  /** The thread of the frame handled grows by `AddInlined`. */
  lemma StepOnThread(frames: seq<Frame>, j: nat, snap: map<Thread, seq<Frame>>, before: seq<Frame>,
                     after: seq<Frame>, inl: SymbolSource, inlId: int)
    requires j < |frames|
    requires ThreadInlined(frames, j, snap, frames[j].thread, before, inl, inlId)
    requires frames[j] in before
    requires GrownFrom(frames[j].thread, after, before)
    requires Rows(after) == AddInlined(Rows(before), IndexOf(before, frames[j]), inl, inlId)
    ensures ThreadInlined(frames, j + 1, snap, frames[j].thread, after, inl, inlId)
  {
    var t := frames[j].thread;
    var frame := frames[j];
    IndexOfPrefix(snap[t], before, frame);
    assert frames[..j + 1] == frames[..j] + [frame];
    var ps := PositionsOn(frames[..j], t, snap[t]);
    PositionsOnAppend(frames[..j], frame, t, snap[t]);
    AddInlinedAllAppend(Rows(snap[t]), ps, IndexOf(snap[t], frame), inl, inlId);
    assert after[..|snap[t]|] == before[..|snap[t]|];
  }

  /** A thread other than the one of the frame handled keeps its frames. */
  lemma StepOnOtherThread(frames: seq<Frame>, j: nat, snap: map<Thread, seq<Frame>>, t: Thread,
                          tf: seq<Frame>, inl: SymbolSource, inlId: int)
    requires j < |frames| && t != frames[j].thread
    requires ThreadInlined(frames, j, snap, t, tf, inl, inlId)
    ensures ThreadInlined(frames, j + 1, snap, t, tf, inl, inlId)
  {
    assert frames[..j + 1] == frames[..j] + [frames[j]];
    PositionsOnAppend(frames[..j], frames[j], t, snap[t]);
    assert PositionsOn(frames[..j + 1], t, snap[t]) == PositionsOn(frames[..j], t, snap[t]);
  }

  /** The frame loop of one inlined entry over the frames of the original
      symbol source: each thread ends with the rows `AddInlinedAll` gives
      for the positions of its frames. */
  method InlineFrames(frames: seq<Frame>, inl: SymbolSource, inlId: int)
    requires Listed(frames)
    modifies ThreadsOf(frames)
    ensures forall t :: t in ThreadsOf(frames) ==>
              && GrownFrom(t, t.frames, old(t.frames))
              && Rows(t.frames) == AddInlinedAll(Rows(old(t.frames)), PositionsOn(frames, t, old(t.frames)), inl, inlId)
  {
    ghost var snap := map t | t in ThreadsOf(frames) :: t.frames;
    assert frames[..0] == [];
    var j := 0;
    while j < |frames|
      invariant 0 <= j <= |frames|
      invariant InlinedUpTo(frames, j, snap, inl, inlId)
      invariant forall t :: t in ThreadsOf(frames) ==> snap[t] == old(t.frames)
    {
      InlineStep(frames, j, snap, inl, inlId);
      j := j + 1;
    }
    assert frames[..j] == frames;
  }

  // ---------------------------------------------------------------------
  // All inlined entries of one location

  /** The frame loops of the inlined entries `inls`, in turn, over the
      positions `ps` of the frames of the symbol source; the entry at index
      `k` is unwound with `inl_id` k + 1. */
  function InlineEntries<S(==)>(rows: seq<FrameRow<S>>, ps: seq<nat>, inls: seq<S>): (r: seq<FrameRow<S>>)
    requires forall m :: 0 <= m < |ps| ==> ps[m] < |rows|
    ensures |r| >= |rows| && r[..|rows|] == rows
    decreases |inls|
  {
    if |inls| == 0 then rows
    else
      var before := InlineEntries(rows, ps, inls[..|inls| - 1]);
      var r := AddInlinedAll(before, ps, inls[|inls| - 1], |inls|);
      assert r[..|rows|] == r[..|before|][..|rows|];
      r
  }

  /** A row `AddInlined` adds is an inlined row of the entry, ordered
      `inl_id` before the frame it was added for. */
  ghost predicate AddedFor<S>(row: FrameRow<S>, rows: seq<FrameRow<S>>, ps: seq<nat>, inl: S, inlId: int)
    requires forall m :: 0 <= m < |ps| ==> ps[m] < |rows|
  {
    && row.inlined && row.source == inl
    && exists m :: 0 <= m < |ps| && row.order == rows[ps[m]].order - inlId
  }

  lemma {:induction false} AddInlinedAllAdds<S>(rows: seq<FrameRow<S>>, ps: seq<nat>, inl: S, inlId: int)
    requires forall m :: 0 <= m < |ps| ==> ps[m] < |rows|
    ensures var r := AddInlinedAll(rows, ps, inl, inlId);
            |r| <= |rows| + |ps| &&
            forall q :: |rows| <= q < |r| ==> AddedFor(r[q], rows, ps, inl, inlId)
    decreases |ps|
  {
    if |ps| > 0 {
      var rows' := AddInlined(rows, ps[0], inl, inlId);
      var r := AddInlinedAll(rows', ps[1..], inl, inlId);
      assert forall m :: 0 <= m < |ps[1..]| ==> ps[1..][m] < |rows'|;
      AddInlinedAllAdds(rows', ps[1..], inl, inlId);
      forall q | |rows| <= q < |r|
        ensures AddedFor(r[q], rows, ps, inl, inlId)
      {
        if q < |rows'| {
          assert r[q] == rows'[q] == FrameRow(rows[ps[0]].order - inlId, inl, true);
          assert r[q].order == rows[ps[0]].order - inlId;
        } else {
          var m :| 0 <= m < |ps[1..]| && r[q].order == rows'[ps[1..][m]].order - inlId;
          assert rows'[ps[1..][m]] == rows[ps[m + 1]];
        }
      }
    }
  }

  lemma MulStep(a: nat, b: nat)
    ensures a * b + b == (a + 1) * b
  {
  }

  /** At most one row is added per entry and frame. */
  lemma {:induction false} InlineEntriesSize<S>(rows: seq<FrameRow<S>>, ps: seq<nat>, inls: seq<S>)
    requires forall m :: 0 <= m < |ps| ==> ps[m] < |rows|
    ensures |InlineEntries(rows, ps, inls)| <= |rows| + |inls| * |ps|
    decreases |inls|
  {
    if |inls| > 0 {
      InlineEntriesSize(rows, ps, inls[..|inls| - 1]);
      MulStep(|inls| - 1, |ps|);
    }
  }

  /** The row was added by one of the entries `inls`. */
  ghost predicate AddedBy<S>(row: FrameRow<S>, rows: seq<FrameRow<S>>, ps: seq<nat>, inls: seq<S>)
    requires forall m :: 0 <= m < |ps| ==> ps[m] < |rows|
  {
    exists k :: 0 <= k < |inls| && AddedFor(row, rows, ps, inls[k], k + 1)
  }

  lemma AddedByPrefix<S>(row: FrameRow<S>, rows: seq<FrameRow<S>>, ps: seq<nat>, inls: seq<S>)
    requires forall m :: 0 <= m < |ps| ==> ps[m] < |rows|
    requires |inls| > 0 && AddedBy(row, rows, ps, inls[..|inls| - 1])
    ensures AddedBy(row, rows, ps, inls)
  {
    var k :| 0 <= k < |inls| - 1 && AddedFor(row, rows, ps, inls[..|inls| - 1][k], k + 1);
    assert inls[..|inls| - 1][k] == inls[k];
  }

  /** Every row the inlined entries add is an inlined row of one of the
      entries, ordered its `inl_id` before one of the frames of the symbol
      source. */
  lemma {:induction false} InlineEntriesAdd<S>(rows: seq<FrameRow<S>>, ps: seq<nat>, inls: seq<S>)
    requires forall m :: 0 <= m < |ps| ==> ps[m] < |rows|
    ensures forall q :: |rows| <= q < |InlineEntries(rows, ps, inls)| ==>
              AddedBy(InlineEntries(rows, ps, inls)[q], rows, ps, inls)
    decreases |inls|
  {
    if |inls| > 0 {
      var n := |inls|;
      var before := InlineEntries(rows, ps, inls[..n - 1]);
      var r := InlineEntries(rows, ps, inls);
      InlineEntriesAdd(rows, ps, inls[..n - 1]);
      AddInlinedAllAdds(before, ps, inls[n - 1], n);
      forall q | |rows| <= q < |r|
        ensures AddedBy(r[q], rows, ps, inls)
      {
        if q < |before| {
          assert AddedBy(before[q], rows, ps, inls[..n - 1]);
          AddedByPrefix(before[q], rows, ps, inls);
          assert r[q] == before[q];
        } else {
          var m :| 0 <= m < |ps| && r[q].order == before[ps[m]].order - n;
          assert before[ps[m]] == rows[ps[m]];
          assert AddedFor(r[q], rows, ps, inls[n - 1], n);
        }
      }
    }
  }

  // ---------------------------------------------------------------------
  // Resolving one location

  /** `os.path.join(unpacked_path, path[1:])`: the binary inside the
      unpacked package. */
  function BinaryPath(unpacked: string, path: string): (r: string)
  {
    PathJoin(unpacked, if |path| == 0 then "" else path[1..])
  }

  /** For an absolute path and a package unpacked at a path without a
      trailing separator, the binary is the path under the unpacked tree. */
  lemma BinaryPathUnder(unpacked: string, path: string)
    requires |unpacked| > 0 && unpacked[|unpacked| - 1] != '/'
    requires |path| >= 2 && path[0] == '/' && path[1] != '/'
    ensures BinaryPath(unpacked, path) == unpacked + path
  {
    assert unpacked + "/" + path[1..] == unpacked + path;
  }

  /** `os.path.join(unpacked_path, "usr", "lib", "debug")`. */
  function DebugDir(unpacked: string): string
  {
    PathJoin(PathJoin(PathJoin(unpacked, "usr"), "lib"), "debug")
  }

  /** The debug directory is `usr/lib/debug` under the unpacked tree, with
      a separator added when the path does not end with one. */
  lemma DebugDirUnder(unpacked: string)
    ensures |unpacked| > 0 && unpacked[|unpacked| - 1] != '/' ==> DebugDir(unpacked) == unpacked + "/usr/lib/debug"
    ensures |unpacked| == 0 || unpacked[|unpacked| - 1] == '/' ==> DebugDir(unpacked) == unpacked + "usr/lib/debug"
  {
    if |unpacked| > 0 && unpacked[|unpacked| - 1] != '/' {
      DebugDirAfterName(unpacked);
    } else {
      DebugDirAfterSeparator(unpacked);
    }
  }

  lemma DebugDirAfterName(unpacked: string)
    requires |unpacked| > 0 && unpacked[|unpacked| - 1] != '/'
    ensures DebugDir(unpacked) == unpacked + "/usr/lib/debug"
  {
    JoinAfterName(unpacked, "usr");
    DebugLiterals();
    var usr := unpacked + "/usr";
    assert usr[|usr| - 1] == 'r';
    LibDebug(usr);
    Concat3(unpacked, "/usr", "/lib/debug");
  }

  lemma DebugDirAfterSeparator(unpacked: string)
    requires |unpacked| == 0 || unpacked[|unpacked| - 1] == '/'
    ensures DebugDir(unpacked) == unpacked + "usr/lib/debug"
  {
    JoinAfterSeparator(unpacked, "usr");
    DebugLiterals();
    var usr := unpacked + "usr";
    assert usr[|usr| - 1] == 'r';
    LibDebug(usr);
    Concat3(unpacked, "usr", "/lib/debug");
  }

  lemma DebugLiterals()
    ensures "/" + "usr" == "/usr" && "/" + "lib" == "/lib" && "/" + "debug" == "/debug"
    ensures "/lib" + "/debug" == "/lib/debug"
    ensures "/usr" + "/lib/debug" == "/usr/lib/debug" && "usr" + "/lib/debug" == "usr/lib/debug"
  {
  }

  lemma Concat3(a: string, b: string, c: string)
    ensures a + b + c == a + (b + c)
  {
  }

  /** Joining a relative name to an empty path or one that ends with a
      separator appends it. */
  lemma JoinAfterSeparator(a: string, b: string)
    requires (|a| == 0 || a[|a| - 1] == '/') && |b| > 0 && b[0] != '/'
    ensures PathJoin(a, b) == a + b
  {
  }

  /** Joining a relative name to a path that does not end with a separator
      puts one between them. */
  lemma JoinAfterName(a: string, b: string)
    requires |a| > 0 && a[|a| - 1] != '/' && |b| > 0 && b[0] != '/'
    ensures PathJoin(a, b) == a + ("/" + b)
  {
    Concat3(a, "/", b);
  }

  lemma LibDebug(a: string)
    requires |a| > 0 && a[|a| - 1] == 'r'
    ensures PathJoin(PathJoin(a, "lib"), "debug") == a + "/lib/debug"
  {
    JoinAfterName(a, "lib");
    DebugLiterals();
    var lib := a + "/lib";
    assert lib[|lib| - 1] == 'b';
    JoinAfterName(lib, "debug");
    Concat3(a, "/lib", "/debug");
  }

  /** What `addr2line` gives for a symbol source of a package unpacked at
      `unpacked`, with the debuginfo package unpacked at `debuginfo`; `None`
      for each of the three failures the loop counts: no unpacked binary
      package, no base address, and `addr2line` failing (a debuginfo
      package that is not unpacked makes the join of its path fail inside
      the same `try`). */
  function Locate(unpacked: Option<string>, path: string, offset: int, debuginfo: Option<string>,
                  ext: Externals): (r: Option<seq<SourceLocation>>)
    ensures unpacked.None? || debuginfo.None? ==> r.None?
    ensures unpacked.Some? && ext.baseAddress(BinaryPath(unpacked.value, path)).None? ==> r.None?
    ensures unpacked.Some? && debuginfo.Some? ==>
              var binary := BinaryPath(unpacked.value, path);
              ext.baseAddress(binary).Some? ==>
                r == ext.addr2line(binary, ext.baseAddress(binary).value + offset, DebugDir(debuginfo.value))
  {
    if unpacked.None? || debuginfo.None? then None
    else
      var binary := BinaryPath(unpacked.value, path);
      var base := ext.baseAddress(binary);
      if base.None? then None
      else ext.addr2line(binary, base.value + offset, DebugDir(debuginfo.value))
  }

  /** The key of the synthetic symbol source of an inlined entry: the build
      id and path of the symbol source, and minus the source line as
      offset, since an inlined function has no offset of its own. */
  function InlineKey(ss: SymbolSource, loc: SourceLocation): (k: SourceKey)
    ensures k.0 == ss.buildId && k.1 == ss.path && k.2 == -loc.line
  {
    (ss.buildId, ss.path, -loc.line)
  }

  /** The synthetic symbol source of an inlined entry: from the store, else
      from the pending sources, else a new one, with the symbol of the
      entry's function in the library of the path (from the store, else the
      pending symbols, else new), the entry's file and line, and no hash. */
  method InlineSource(store: Store, syms: map<SymbolKey, Symbol>, srcs: map<SourceKey, SymbolSource>,
                      ss: SymbolSource, loc: SourceLocation, ext: Externals)
    returns (inl: SymbolSource, syms': map<SymbolKey, Symbol>, srcs': map<SourceKey, SymbolSource>,
             ghost made: set<object>)
    requires store.Valid() && PendingSymbols(store, syms) && PendingSources(store, srcs)
    ensures UnwindGrew(store, syms, srcs, syms', srcs')
    ensures fresh(made) && MadeIn(syms, srcs, syms', srcs', made)
    ensures InlineKey(ss, loc) in store.sources + srcs'
    ensures inl == (store.sources + srcs')[InlineKey(ss, loc)] && inl.Key() == InlineKey(ss, loc)
    ensures InlineKey(ss, loc) in store.sources || InlineKey(ss, loc) in srcs ==> syms' == syms && srcs' == srcs
    ensures InlineKey(ss, loc) !in store.sources && InlineKey(ss, loc) !in srcs ==>
              && fresh(inl) && srcs' == srcs[InlineKey(ss, loc) := inl]
              && (loc.funcName, ext.libname(ss.path)) in store.symbols + syms'
              && inl.symbol == (store.symbols + syms')[(loc.funcName, ext.libname(ss.path))]
              && inl.sourcePath == Some(loc.sourceFile) && inl.lineNumber == Some(loc.line)
              && inl.hash == None && inl.retraceFailCount == 0
  {
    var key := InlineKey(ss, loc);
    if key in store.sources {
      return store.sources[key], syms, srcs, {};
    }
    if key in srcs {
      return srcs[key], syms, srcs, {};
    }
    var symKey := (loc.funcName, ext.libname(ss.path));
    var symbol;
    symbol, syms' := GetOrCreateSymbol(store, syms, symKey);
    inl := new SymbolSource(symbol, ss.buildId, ss.path, -loc.line, None, Some(loc.sourceFile), Some(loc.line));
    srcs' := srcs[key := inl];
    made := {inl};
    if symKey !in store.symbols && symKey !in syms {
      made := made + {symbol};
    }
    NewInlineSourceGrew(store, syms, srcs, syms', srcs', symKey, symbol, key, inl, made);
  }

  /** Adding a new synthetic symbol source, and maybe a new symbol for it,
      grows the pending rows as unwinding may. */
  lemma NewInlineSourceGrew(store: Store, syms: map<SymbolKey, Symbol>, srcs: map<SourceKey, SymbolSource>,
                            syms': map<SymbolKey, Symbol>, srcs': map<SourceKey, SymbolSource>,
                            symKey: SymbolKey, symbol: Symbol, key: SourceKey, inl: SymbolSource, made: set<object>)
    requires PendingSources(store, srcs) && PendingSymbols(store, syms')
    requires syms.Keys <= syms'.Keys && forall k :: k in syms ==> syms'[k] == syms[k]
    requires symKey in store.symbols || symKey in syms ==> syms' == syms
    requires symKey !in store.symbols && symKey !in syms ==>
               symbol.niceName == None && syms' == syms[symKey := symbol] && symbol in made
    requires key !in store.sources && key !in srcs && inl.Key() == key && srcs' == srcs[key := inl]
    requires inl.lineNumber == Some(-key.2) && inl.hash == None && inl.retraceFailCount == 0 && inl in made
    ensures UnwindGrew(store, syms, srcs, syms', srcs')
    ensures MadeIn(syms, srcs, syms', srcs', made)
  {
  }

  /** The symbol sources in `srcs'` and not in `srcs` are synthetic ones:
      their line is minus their offset, and they have no hash and no failed
      retrace. */
  ghost predicate NewInlineSources(srcs: map<SourceKey, SymbolSource>, srcs': map<SourceKey, SymbolSource>)
    reads Values(srcs')
  {
    forall k :: k in srcs' && k !in srcs ==>
      && srcs'[k].lineNumber == Some(-k.2)
      && srcs'[k].hash == None && srcs'[k].retraceFailCount == 0
  }

  /** The symbols in `syms'` and not in `syms` have no nice name yet. */
  ghost predicate NewSymbols(syms: map<SymbolKey, Symbol>, syms': map<SymbolKey, Symbol>)
    reads Values(syms')
  {
    forall k :: k in syms' && k !in syms ==> syms'[k].niceName == None
  }

  lemma NewSymbolsTrans(a: map<SymbolKey, Symbol>, b: map<SymbolKey, Symbol>, c: map<SymbolKey, Symbol>)
    requires Extends(a, b) && Extends(b, c) && NewSymbols(a, b) && NewSymbols(b, c)
    ensures NewSymbols(a, c)
  {
    forall k | k in c && k !in a
      ensures c[k].niceName == None
    {
      if k in b {
        assert c[k] == b[k];
      }
    }
  }

  /** The pending maps of a retrace grew from `syms`, `srcs` to `syms'`,
      `srcs'`: they keep their entries and still shadow nothing in the
      store. */
  ghost predicate PendingGrew(store: Store, syms: map<SymbolKey, Symbol>, srcs: map<SourceKey, SymbolSource>,
                              syms': map<SymbolKey, Symbol>, srcs': map<SourceKey, SymbolSource>)
  {
    && PendingSymbols(store, syms') && PendingSources(store, srcs')
    && Extends(syms, syms') && Extends(srcs, srcs')
  }

  lemma PendingGrewTrans(store: Store, syms: map<SymbolKey, Symbol>, srcs: map<SourceKey, SymbolSource>,
                         syms1: map<SymbolKey, Symbol>, srcs1: map<SourceKey, SymbolSource>,
                         syms2: map<SymbolKey, Symbol>, srcs2: map<SourceKey, SymbolSource>)
    requires PendingGrew(store, syms, srcs, syms1, srcs1) && PendingGrew(store, syms1, srcs1, syms2, srcs2)
    ensures PendingGrew(store, syms, srcs, syms2, srcs2)
  {
  }

  /** `PendingGrew` while inlined entries are unwound: the symbol sources
      gained are synthetic ones and the symbols gained have no nice name
      yet. */
  ghost predicate UnwindGrew(store: Store, syms: map<SymbolKey, Symbol>, srcs: map<SourceKey, SymbolSource>,
                             syms': map<SymbolKey, Symbol>, srcs': map<SourceKey, SymbolSource>)
    reads Values(syms'), Values(srcs')
  {
    PendingGrew(store, syms, srcs, syms', srcs') && NewInlineSources(srcs, srcs') && NewSymbols(syms, syms')
  }

  lemma UnwindGrewTrans(store: Store, syms: map<SymbolKey, Symbol>, srcs: map<SourceKey, SymbolSource>,
                        syms1: map<SymbolKey, Symbol>, srcs1: map<SourceKey, SymbolSource>,
                        syms2: map<SymbolKey, Symbol>, srcs2: map<SourceKey, SymbolSource>)
    requires UnwindGrew(store, syms, srcs, syms1, srcs1) && UnwindGrew(store, syms1, srcs1, syms2, srcs2)
    ensures UnwindGrew(store, syms, srcs, syms2, srcs2)
  {
    NewInlineSourcesTrans(srcs, srcs1, srcs2);
    NewSymbolsTrans(syms, syms1, syms2);
  }

  lemma NewInlineSourcesTrans(a: map<SourceKey, SymbolSource>, b: map<SourceKey, SymbolSource>,
                              c: map<SourceKey, SymbolSource>)
    requires Extends(a, b) && Extends(b, c) && NewInlineSources(a, b) && NewInlineSources(b, c)
    ensures NewInlineSources(a, c)
  {
    forall k | k in c && k !in a
      ensures c[k].lineNumber == Some(-k.2) && c[k].hash == None && c[k].retraceFailCount == 0
    {
      if k in b {
        assert c[k] == b[k];
      }
    }
  }

  function Reversed<T>(s: seq<T>): (r: seq<T>)
    ensures |r| == |s| && forall i :: 0 <= i < |s| ==> r[i] == s[|s| - 1 - i]
  {
    seq(|s|, i requires 0 <= i < |s| => s[|s| - 1 - i])
  }

  /** The synthetic symbol sources `inls` are those of the inlined entries
      `locs`, in the store or among the pending sources `srcs`. */
  ghost predicate InlinedSources(store: Store, srcs: map<SourceKey, SymbolSource>, ss: SymbolSource,
                                 locs: seq<SourceLocation>, inls: seq<SymbolSource>)
  {
    && |inls| == |locs|
    && forall k :: 0 <= k < |locs| ==>
         InlineKey(ss, locs[k]) in store.sources + srcs && inls[k] == (store.sources + srcs)[InlineKey(ss, locs[k])]
  }

  /** The synthetic sources of all entries but the last are pending or
      stored, and are those `SourcesOf` names. */
  lemma InlinedSourcesAll(store: Store, srcs: map<SourceKey, SymbolSource>, ss: SymbolSource,
                          locs: seq<SourceLocation>, inls: seq<SymbolSource>)
    requires |locs| >= 1 && InlinedSources(store, srcs, ss, locs[..|locs| - 1], inls)
    ensures forall k :: 0 <= k < |locs| - 1 ==> InlineKey(ss, locs[k]) in store.sources + srcs
    ensures inls == SourcesOf(store, srcs, ss, locs[..|locs| - 1])
  {
    forall k | 0 <= k < |locs| - 1
      ensures InlineKey(ss, locs[k]) in store.sources + srcs
    {
      assert locs[..|locs| - 1][k] == locs[k];
    }
  }

  /** Thread `t`, whose frames are `tf`, grew from its stored frames
      `snap[t]` by the inlined entries `inls`. */
  ghost predicate ThreadEntries(frames: seq<Frame>, snap: map<Thread, seq<Frame>>, t: Thread,
                                tf: seq<Frame>, inls: seq<SymbolSource>)
  {
    && t in snap
    && (forall i :: 0 <= i < |frames| && frames[i].thread == t ==> frames[i] in snap[t])
    && GrownFrom(t, tf, snap[t])
    && Rows(tf) == InlineEntries(Rows(snap[t]), PositionsOn(frames, t, snap[t]), inls)
  }

  /** `ThreadEntries` for every thread of the frames. */
  ghost predicate AllEntries(frames: seq<Frame>, snap: map<Thread, seq<Frame>>, inls: seq<SymbolSource>)
    reads ThreadsOf(frames)
  {
    forall t :: t in ThreadsOf(frames) ==> ThreadEntries(frames, snap, t, t.frames, inls)
  }

  /** Before any entry, every thread is its own snapshot. */
  lemma AllEntriesStart(frames: seq<Frame>, snap: map<Thread, seq<Frame>>)
    requires Listed(frames)
    requires forall t :: t in ThreadsOf(frames) ==> t in snap && snap[t] == t.frames
    ensures AllEntries(frames, snap, [])
  {
    forall t | t in ThreadsOf(frames)
      ensures ThreadEntries(frames, snap, t, t.frames, [])
    {
      ghost var i :| 0 <= i < |frames| && frames[i].thread == t;
      assert t.frames[..|snap[t]|] == snap[t];
    }
  }

  lemma PrefixTrans(a: seq<Frame>, b: seq<Frame>, c: seq<Frame>)
    requires |a| <= |b| && b[..|a|] == a && |b| <= |c| && c[..|b|] == b
    ensures |a| <= |c| && c[..|a|] == a
  {
    assert c[..|a|] == c[..|b|][..|a|];
  }

  /** One more inlined entry on thread `t`. */
  lemma EntriesStep(frames: seq<Frame>, snap: map<Thread, seq<Frame>>, t: Thread, before: seq<Frame>,
                    after: seq<Frame>, inls: seq<SymbolSource>, inl: SymbolSource)
    requires ThreadEntries(frames, snap, t, before, inls)
    requires GrownFrom(t, after, before)
    requires forall i :: 0 <= i < |frames| && frames[i].thread == t ==> frames[i] in before
    requires Rows(after) == AddInlinedAll(Rows(before), PositionsOn(frames, t, before), inl, |inls| + 1)
    ensures ThreadEntries(frames, snap, t, after, inls + [inl])
  {
    PositionsOnPrefix(frames, t, snap[t], before);
    PrefixTrans(snap[t], before, after);
    assert (inls + [inl])[..|inls|] == inls;
  }

  /** Frames listed by their stored threads stay listed while the threads
      only grow. */
  lemma ListedFrom(frames: seq<Frame>, snap: map<Thread, seq<Frame>>)
    requires forall i :: 0 <= i < |frames| ==> frames[i].thread in snap && frames[i] in snap[frames[i].thread]
    requires forall t :: t in ThreadsOf(frames) ==>
               t in snap && |t.frames| >= |snap[t]| && t.frames[..|snap[t]|] == snap[t]
    ensures Listed(frames)
  {
    forall i | 0 <= i < |frames|
      ensures frames[i] in frames[i].thread.frames
    {
      var t := frames[i].thread;
      assert t in ThreadsOf(frames);
      IndexOfPrefix(snap[t], t.frames, frames[i]);
    }
  }

  /** Every pending row gained from `syms`, `srcs` to `syms'`, `srcs'` is a
      new object. */
  twostate predicate FreshRows(syms: map<SymbolKey, Symbol>, srcs: map<SourceKey, SymbolSource>,
                               new syms': map<SymbolKey, Symbol>, new srcs': map<SourceKey, SymbolSource>)
  {
    && (forall k :: k in syms' && k !in syms ==> fresh(syms'[k]))
    && (forall k :: k in srcs' && k !in srcs ==> fresh(srcs'[k]))
  }

  /** The frames each thread of `frames` has. */
  ghost function FramesOf(frames: seq<Frame>): (snap: map<Thread, seq<Frame>>)
    reads ThreadsOf(frames)
    ensures snap.Keys == ThreadsOf(frames)
    ensures forall t :: t in snap ==> snap[t] == t.frames
  {
    map t | t in ThreadsOf(frames) :: t.frames
  }

  /** Each thread of `frames` grew from its frames at the start by the
      inlined entries whose synthetic sources are `inls`, for the positions
      of its frames among them. */
  twostate predicate FramesInlined(frames: seq<Frame>, new inls: seq<SymbolSource>)
    reads ThreadsOf(frames)
  {
    AllEntries(frames, old(FramesOf(frames)), inls)
  }

  /** The `while len(results) > 1` loop: each entry but the last, popped
      from the reversed results (so in `addr2line`'s order) with `inl_id`
      1, 2, ..., gets its synthetic symbol source and its inlined frames. */
  method UnwindInlined(store: Store, syms: map<SymbolKey, Symbol>, srcs: map<SourceKey, SymbolSource>,
                       ss: SymbolSource, frames: seq<Frame>, results: seq<SourceLocation>, ext: Externals)
    returns (syms': map<SymbolKey, Symbol>, srcs': map<SourceKey, SymbolSource>)
    requires store.Valid() && PendingSymbols(store, syms) && PendingSources(store, srcs)
    requires Listed(frames) && |results| >= 1
    modifies ThreadsOf(frames)
    ensures UnwindGrew(store, syms, srcs, syms', srcs') && FreshRows(syms, srcs, syms', srcs')
    ensures forall k :: 0 <= k < |results| - 1 ==> InlineKey(ss, results[k]) in store.sources + srcs'
    ensures FramesInlined(frames, SourcesOf(store, srcs', ss, results[..|results| - 1]))
  {
    ghost var snap := FramesOf(frames);
    AllEntriesStart(frames, snap);
    var rs := Reversed(results);
    syms', srcs' := syms, srcs;
    ghost var inls := [];
    ghost var made: set<object> := {};
    var inlId := 0;
    while |rs| > 1
      invariant 0 <= inlId < |results| && |rs| == |results| - inlId
      invariant rs == Reversed(results)[..|results| - inlId]
      invariant Unwound(store, syms, srcs, syms', srcs', ss, frames, snap, results[..inlId], inls, made)
    {
      inlId := inlId + 1;
      var loc := rs[|rs| - 1];
      rs := rs[..|rs| - 1];
      assert loc == results[inlId - 1];
      var inl;
      ghost var symsPrev, srcsPrev, madeNow := syms', srcs', {};
      inl, syms', srcs', madeNow := UnwindEntry(store, syms, srcs, syms', srcs', ss, frames, snap, inls, results, loc,
                                                inlId, ext);
      MadeInTrans(syms, srcs, symsPrev, srcsPrev, syms', srcs', made, madeNow);
      inls, made := inls + [inl], made + madeNow;
      assert rs == Reversed(results)[..|results| - inlId];
    }
    assert results[..inlId] == results[..|results| - 1];
    assert forall k :: k in syms' && k !in syms ==> syms'[k] in made;
    assert forall k :: k in srcs' && k !in srcs ==> srcs'[k] in made;
    InlinedSourcesAll(store, srcs', ss, results, inls);
  }

  /** The state of the `while` loop after the inlined entries `locs`: the
      pending maps grew with new objects only, `inls` are the synthetic
      symbol sources of the entries and each thread grew from its frames
      at the start, `snap`, by those entries. */
  twostate predicate Unwound(store: Store, syms: map<SymbolKey, Symbol>, srcs: map<SourceKey, SymbolSource>,
                             new syms': map<SymbolKey, Symbol>, new srcs': map<SourceKey, SymbolSource>,
                             ss: SymbolSource, frames: seq<Frame>, snap: map<Thread, seq<Frame>>,
                             locs: seq<SourceLocation>, new inls: seq<SymbolSource>, new made: set<object>)
    reads Values(syms'), Values(srcs'), ThreadsOf(frames)
  {
    && UnwindGrew(store, syms, srcs, syms', srcs')
    && fresh(made) && MadeIn(syms, srcs, syms', srcs', made)
    && InlinedSources(store, srcs', ss, locs, inls)
    && AllEntries(frames, snap, inls)
    && (forall t :: t in ThreadsOf(frames) ==> t in snap && snap[t] == old(t.frames))
  }

  /** One pass of the `while` loop: the inlined entry `loc`, the entry at
      index `inlId - 1` of the results, after the entries `inls`. */
  method UnwindEntry(store: Store, ghost syms0: map<SymbolKey, Symbol>, ghost srcs0: map<SourceKey, SymbolSource>,
                     syms: map<SymbolKey, Symbol>, srcs: map<SourceKey, SymbolSource>,
                     ss: SymbolSource, frames: seq<Frame>, ghost snap: map<Thread, seq<Frame>>,
                     ghost inls: seq<SymbolSource>, ghost results: seq<SourceLocation>,
                     loc: SourceLocation, inlId: int, ext: Externals)
    returns (inl: SymbolSource, syms': map<SymbolKey, Symbol>, srcs': map<SourceKey, SymbolSource>,
             ghost made: set<object>)
    requires store.Valid()
    requires 1 <= inlId <= |results| && loc == results[inlId - 1]
    requires UnwindGrew(store, syms0, srcs0, syms, srcs)
    requires InlinedSources(store, srcs, ss, results[..inlId - 1], inls)
    requires AllEntries(frames, snap, inls)
    modifies ThreadsOf(frames)
    ensures UnwindGrew(store, syms0, srcs0, syms', srcs') && Extends(syms, syms') && Extends(srcs, srcs')
    ensures fresh(made) && MadeIn(syms, srcs, syms', srcs', made)
    ensures InlinedSources(store, srcs', ss, results[..inlId], inls + [inl])
    ensures AllEntries(frames, snap, inls + [inl])
  {
    inl, syms', srcs', made := EntrySource(store, syms0, srcs0, syms, srcs, ss, inls, results, loc, inlId, ext);
    InlineEntryFrames(frames, snap, inls, inl, inlId);
  }

  /** The symbol source of the inlined entry `loc`, found or created. */
  method EntrySource(store: Store, ghost syms0: map<SymbolKey, Symbol>, ghost srcs0: map<SourceKey, SymbolSource>,
                     syms: map<SymbolKey, Symbol>, srcs: map<SourceKey, SymbolSource>, ss: SymbolSource,
                     ghost inls: seq<SymbolSource>, ghost results: seq<SourceLocation>,
                     loc: SourceLocation, inlId: int, ext: Externals)
    returns (inl: SymbolSource, syms': map<SymbolKey, Symbol>, srcs': map<SourceKey, SymbolSource>,
             ghost made: set<object>)
    requires store.Valid()
    requires 1 <= inlId <= |results| && loc == results[inlId - 1]
    requires UnwindGrew(store, syms0, srcs0, syms, srcs)
    requires InlinedSources(store, srcs, ss, results[..inlId - 1], inls)
    ensures UnwindGrew(store, syms0, srcs0, syms', srcs') && Extends(syms, syms') && Extends(srcs, srcs')
    ensures fresh(made) && MadeIn(syms, srcs, syms', srcs', made)
    ensures InlinedSources(store, srcs', ss, results[..inlId], inls + [inl])
  {
    inl, syms', srcs', made := InlineSource(store, syms, srcs, ss, loc, ext);
    InlinedSourcesStep(store, srcs, srcs', ss, results, inlId - 1, inls, inl);
    UnwindGrewTrans(store, syms0, srcs0, syms, srcs, syms', srcs');
  }

  /** The frame loop of the inlined entry `inl`, after the entries `inls`. */
  method InlineEntryFrames(frames: seq<Frame>, ghost snap: map<Thread, seq<Frame>>,
                           ghost inls: seq<SymbolSource>, inl: SymbolSource, inlId: int)
    requires inlId == |inls| + 1
    requires AllEntries(frames, snap, inls)
    modifies ThreadsOf(frames)
    ensures AllEntries(frames, snap, inls + [inl])
  {
    forall i | 0 <= i < |frames|
      ensures frames[i].thread in snap && frames[i] in snap[frames[i].thread]
    {
      assert frames[i].thread in ThreadsOf(frames);
    }
    ListedFrom(frames, snap);
    label Before:
    InlineFrames(frames, inl, inlId);
    forall t | t in ThreadsOf(frames)
      ensures ThreadEntries(frames, snap, t, t.frames, inls + [inl])
    {
      assert ThreadEntries(frames, snap, t, old@Before(t.frames), inls);
      ListedOn(frames, t, snap[t], old@Before(t.frames));
      EntriesStep(frames, snap, t, old@Before(t.frames), t.frames, inls, inl);
    }
  }

  lemma InlinedSourcesStep(store: Store, srcs: map<SourceKey, SymbolSource>, srcs': map<SourceKey, SymbolSource>,
                           ss: SymbolSource, results: seq<SourceLocation>, n: nat,
                           inls: seq<SymbolSource>, inl: SymbolSource)
    requires n < |results| && InlinedSources(store, srcs, ss, results[..n], inls) && Extends(srcs, srcs')
    requires PendingSources(store, srcs) && PendingSources(store, srcs')
    requires InlineKey(ss, results[n]) in store.sources + srcs'
    requires inl == (store.sources + srcs')[InlineKey(ss, results[n])]
    ensures InlinedSources(store, srcs', ss, results[..n + 1], inls + [inl])
  {
    forall k | 0 <= k < n + 1
      ensures InlineKey(ss, results[..n + 1][k]) in store.sources + srcs'
      ensures (inls + [inl])[k] == (store.sources + srcs')[InlineKey(ss, results[..n + 1][k])]
    {
      if k < n {
        assert results[..n + 1][k] == results[..n][k];
      }
    }
  }

  lemma ListedOn(frames: seq<Frame>, t: Thread, fs: seq<Frame>, gs: seq<Frame>)
    requires forall i :: 0 <= i < |frames| && frames[i].thread == t ==> frames[i] in fs
    requires |fs| <= |gs| && gs[..|fs|] == fs
    ensures forall i :: 0 <= i < |frames| && frames[i].thread == t ==> frames[i] in gs
  {
    forall i | 0 <= i < |frames| && frames[i].thread == t
      ensures frames[i] in gs
    {
      IndexOfPrefix(fs, gs, frames[i]);
    }
  }

  // ---------------------------------------------------------------------
  // The outermost entry and one symbol source

  /** The symbol source `ss` resolved with the outermost entry `loc`, whose
      symbol is `symbol`: a symbol without a nice name gets the demangled
      function name. */
  method ResolveOutermost(ss: SymbolSource, symbol: Symbol, loc: SourceLocation, ext: Externals, ghost ths: set<Thread>)
    modifies ss, symbol
    ensures unchanged(ths)
    ensures ss.symbol == symbol
    ensures ss.sourcePath == Some(loc.sourceFile) && ss.lineNumber == Some(loc.line)
    ensures ss.retraceFailCount == old(ss.retraceFailCount)
    ensures symbol.niceName == if old(symbol.niceName).None? then Some(ext.demangle(loc.funcName))
                               else old(symbol.niceName)
  {
    if symbol.niceName == None {
      symbol.niceName := Some(ext.demangle(loc.funcName));
    }
    ss.symbol := symbol;
    ss.sourcePath := Some(loc.sourceFile);
    ss.lineNumber := Some(loc.line);
  }

  /** The synthetic symbol sources of the inlined entries `locs`. */
  ghost function SourcesOf(store: Store, srcs: map<SourceKey, SymbolSource>, ss: SymbolSource,
                           locs: seq<SourceLocation>): (inls: seq<SymbolSource>)
    requires forall k :: 0 <= k < |locs| ==> InlineKey(ss, locs[k]) in store.sources + srcs
    ensures InlinedSources(store, srcs, ss, locs, inls)
  {
    seq(|locs|, k requires 0 <= k < |locs| => (store.sources + srcs)[InlineKey(ss, locs[k])])
  }

  /** The nice name of the symbol under `key`, found in the store or the
      pending symbols; none when there is no such symbol. */
  ghost function PriorNiceName(store: Store, syms: map<SymbolKey, Symbol>, key: SymbolKey): Option<string>
    reads store.SymbolObjects(), Values(syms)
  {
    if key in store.symbols then store.symbols[key].niceName
    else if key in syms then syms[key].niceName
    else None
  }

  /** A symbol keeps the nice name it has; one without gets the demangled
      function name. */
  function NiceNameFor(prior: Option<string>, funcName: string, ext: Externals): (n: Option<string>)
    ensures n.Some?
    ensures prior.Some? ==> n == prior
  {
    if prior.Some? then prior else Some(ext.demangle(funcName))
  }

  /** The symbol source `ss` took the symbol of the function of the
      outermost entry `loc` (from the store, else the pending symbols
      `syms'`), the entry's file and line, and kept its failure count; the
      symbol kept the nice name it had under its key at the start, or got
      the demangled function name. */
  twostate predicate OutermostResolved(store: Store, syms: map<SymbolKey, Symbol>, new syms': map<SymbolKey, Symbol>,
                                       ss: SymbolSource, loc: SourceLocation, ext: Externals)
    reads ss, ss.symbol
  {
    var key := (loc.funcName, ext.libname(ss.path));
    && key in store.symbols + syms'
    && ss.symbol == (store.symbols + syms')[key]
    && ss.sourcePath == Some(loc.sourceFile) && ss.lineNumber == Some(loc.line)
    && ss.retraceFailCount == old(ss.retraceFailCount)
    && ss.symbol.niceName == NiceNameFor(old(PriorNiceName(store, syms, key)), loc.funcName, ext)
  }

  /** The location `locs` with a result was applied: the frames of every
      thread gained the synthetic sources of the inlined entries, and the
      symbol source was resolved with the outermost entry. */
  twostate predicate Resolved(store: Store, syms: map<SymbolKey, Symbol>, new syms': map<SymbolKey, Symbol>,
                              new srcs': map<SourceKey, SymbolSource>,
                              ss: SymbolSource, frames: seq<Frame>, locs: seq<SourceLocation>, ext: Externals)
    reads ss, ss.symbol, ThreadsOf(frames)
  {
    && |locs| >= 1
    && (forall k :: 0 <= k < |locs| - 1 ==> InlineKey(ss, locs[k]) in store.sources + srcs')
    && FramesInlined(frames, SourcesOf(store, srcs', ss, locs[..|locs| - 1]))
    && OutermostResolved(store, syms, syms', ss, locs[|locs| - 1], ext)
  }

  /** The symbol of the outermost entry: under `key` in the store, else in
      the pending symbols, else new. `prior` is the nice name of the symbol
      under `key`. */
  method OutermostSymbol(store: Store, syms: map<SymbolKey, Symbol>, key: SymbolKey, ghost prior: Option<string>)
    returns (symbol: Symbol, syms': map<SymbolKey, Symbol>)
    requires store.Valid() && PendingSymbols(store, syms) && prior == PriorNiceName(store, syms, key)
    ensures PendingSymbols(store, syms') && Extends(syms, syms')
    ensures forall k :: k in syms' && k !in syms ==> fresh(syms'[k])
    ensures key in store.symbols + syms' && symbol == (store.symbols + syms')[key]
    ensures symbol.niceName == prior
    ensures key in store.symbols ==> symbol in store.SymbolObjects()
    ensures key !in store.symbols && key in syms ==> symbol == syms[key]
    ensures key !in store.symbols && key !in syms ==> fresh(symbol)
  {
    symbol, syms' := GetOrCreateSymbol(store, syms, key);
  }

  /** A location with a result: its inlined entries are unwound and the
      symbol source is resolved with the outermost entry. */
  method ResolveLocations(store: Store, syms: map<SymbolKey, Symbol>, srcs: map<SourceKey, SymbolSource>,
                          ss: SymbolSource, frames: seq<Frame>, locs: seq<SourceLocation>, ext: Externals)
    returns (syms': map<SymbolKey, Symbol>, srcs': map<SourceKey, SymbolSource>)
    requires store.Valid() && PendingSymbols(store, syms) && PendingSources(store, srcs)
    requires Listed(frames) && |locs| >= 1
    modifies ss, ThreadsOf(frames), store.SymbolObjects(), Values(syms)
    ensures PendingGrew(store, syms, srcs, syms', srcs') && FreshRows(syms, srcs, syms', srcs')
    ensures Resolved(store, syms, syms', srcs', ss, frames, locs, ext)
  {
    var key := (locs[|locs| - 1].funcName, ext.libname(ss.path));
    ghost var prior := PriorNiceName(store, syms, key);
    ghost var snap := FramesOf(frames);
    syms', srcs' := UnwindInlined(store, syms, srcs, ss, frames, locs, ext);
    ghost var inls := SourcesOf(store, srcs', ss, locs[..|locs| - 1]);
    assert AllEntries(frames, snap, inls);
    ghost var syms1 := syms';
    if key !in store.symbols && key !in syms && key in syms1 {
      assert syms1[key].niceName == None;
    }
    var symbol;
    symbol, syms' := OutermostSymbol(store, syms', key, prior);
    if key in syms {
      assert symbol in Values(syms);
    }
    ResolveOutermost(ss, symbol, locs[|locs| - 1], ext, ThreadsOf(frames));
    PendingGrewTrans(store, syms, srcs, syms1, srcs', syms', srcs');
  }

  /** Nothing that resolving a location changes has changed: the symbol
      source's symbol, file and line, the pending rows, the threads' frames
      and the nice names. */
  twostate predicate Untouched(store: Store, syms: map<SymbolKey, Symbol>, srcs: map<SourceKey, SymbolSource>,
                               new syms': map<SymbolKey, Symbol>, new srcs': map<SourceKey, SymbolSource>,
                               ss: SymbolSource, frames: seq<Frame>)
    reads ss, ThreadsOf(frames), store.SymbolObjects(), Values(syms)
  {
    && ss.symbol == old(ss.symbol) && ss.sourcePath == old(ss.sourcePath) && ss.lineNumber == old(ss.lineNumber)
    && syms' == syms && srcs' == srcs
    && (forall t :: t in ThreadsOf(frames) ==> t.frames == old(t.frames))
    && (forall s :: s in store.SymbolObjects() + Values(syms) ==> s.niceName == old(s.niceName))
  }

  /** One symbol source of the task. A location that fails (no unpacked
      binary package, no base address, `addr2line` failing) counts one more
      failure and changes nothing else; an empty `addr2line` result aborts
      the task (`results.pop()` on an empty list) with nothing changed; any
      other result unwinds its inlined entries and resolves the symbol
      source with the outermost one. */
  method RetraceSource(store: Store, syms: map<SymbolKey, Symbol>, srcs: map<SourceKey, SymbolSource>,
                       ss: SymbolSource, frames: seq<Frame>, unpacked: Option<string>,
                       debuginfo: Option<string>, ext: Externals, ghost ths: set<Thread>)
    returns (ok: bool, syms': map<SymbolKey, Symbol>, srcs': map<SourceKey, SymbolSource>)
    requires store.Valid() && PendingSymbols(store, syms) && PendingSources(store, srcs)
    requires Listed(frames) && ThreadsOf(frames) <= ths
    modifies ss, ThreadsOf(frames), store.SymbolObjects(), Values(syms)
    ensures PendingGrew(store, syms, srcs, syms', srcs') && FreshRows(syms, srcs, syms', srcs')
    ensures forall t :: t in ths ==> GrownFrom(t, t.frames, old(t.frames))
    ensures ok <==> Locate(unpacked, ss.path, ss.offset, debuginfo, ext) != Some([])
    ensures Locate(unpacked, ss.path, ss.offset, debuginfo, ext).None? ==>
              ss.retraceFailCount == old(ss.retraceFailCount) + 1 && Untouched(store, syms, srcs, syms', srcs', ss, frames)
    ensures !ok ==> ss.retraceFailCount == old(ss.retraceFailCount) && Untouched(store, syms, srcs, syms', srcs', ss, frames)
    ensures Locate(unpacked, ss.path, ss.offset, debuginfo, ext).Some? && ok ==>
              Resolved(store, syms, syms', srcs', ss, frames, Locate(unpacked, ss.path, ss.offset, debuginfo, ext).value, ext)
  {
    var results := Locate(unpacked, ss.path, ss.offset, debuginfo, ext);
    if results.None? {
      ss.retraceFailCount := ss.retraceFailCount + 1;
      return true, syms, srcs;
    }
    if |results.value| == 0 {
      return false, syms, srcs;
    }
    syms', srcs' := ResolveLocations(store, syms, srcs, ss, frames, results.value, ext);
    ok := true;
  }
}
