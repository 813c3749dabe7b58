/**
 * Model of view.py: the viewer's world range `s` and drag offset `c`, the
 * zoom rule that rescales `s` about its centre, and the event dispatch of the
 * main loop, run over a given sequence of event batches (one batch per
 * frame) instead of the window system's queue.
 *
 * Floating-point values are modelled as exact reals.
 */
module Viewer {

  /** A `coords` pair read as an interval: x[0] is `lo`, x[1] is `hi`. */
  datatype Interval = Interval(lo: real, hi: real)

  /** `s`: the x range and the y range of the view. */
  datatype Range = Range(x: Interval, y: Interval)

  /** `c`: the drag offset in pixels. */
  datatype Offset = Offset(dx: real, dy: real)

  function Width(i: Interval): real
  {
    i.hi - i.lo
  }

  function Mid(i: Interval): real
  {
    (i.lo + i.hi) / 2.0
  }

  /** The range a new view starts with: [-1, 1] on both axes. */
  const InitialRange: Range := Range(Interval(-1.0, 1.0), Interval(-1.0, 1.0))

  /** The fraction of the width by which one zoom step changes it. */
  const ZoomStep: real := 0.2

  /**
   * One axis of `zoom(f)`: "in" moves each end inwards by a tenth of the
   * width, "out" moves it outwards by the same amount, anything else keeps
   * the interval. The centre never moves.
   */
  function ZoomInterval(i: Interval, f: string): (r: Interval)
    ensures f == "in" ==> Width(r) == 0.8 * Width(i)
    ensures f == "out" ==> Width(r) == 1.2 * Width(i)
    ensures f != "in" && f != "out" ==> r == i
    ensures Mid(r) == Mid(i)
  {
    var d := (i.hi - i.lo) * ZoomStep;
    if "in" == f then Interval(i.lo + d / 2.0, i.hi - d / 2.0)
    else if "out" == f then Interval(i.lo - d / 2.0, i.hi + d / 2.0)
    else i
  }

  /** `zoom(f)` on the whole range: both axes alike. */
  function Zoomed(s: Range, f: string): (r: Range)
    ensures f == "in" ==> Width(r.x) == 0.8 * Width(s.x) && Width(r.y) == 0.8 * Width(s.y)
    ensures f == "out" ==> Width(r.x) == 1.2 * Width(s.x) && Width(r.y) == 1.2 * Width(s.y)
    ensures f != "in" && f != "out" ==> r == s
    ensures Mid(r.x) == Mid(s.x) && Mid(r.y) == Mid(s.y)
  {
    Range(ZoomInterval(s.x, f), ZoomInterval(s.y, f))
  }

  /** Zooming in keeps a non-empty interval non-empty, with both ends moving
      strictly inwards. */
  lemma ZoomInKeepsValid(i: Interval)
    requires i.lo < i.hi
    ensures i.lo < ZoomInterval(i, "in").lo < ZoomInterval(i, "in").hi < i.hi
  {
  }

  /**
   * Zooming in and then out does not restore the range: each width ends at
   * 0.96 of where it was (0.8 * 1.2), so the range comes back only when both
   * widths are zero. The same holds in the other order.
   */
  lemma ZoomInOutShrinks(s: Range)
    ensures Width(Zoomed(Zoomed(s, "in"), "out").x) == 0.96 * Width(s.x)
    ensures Width(Zoomed(Zoomed(s, "in"), "out").y) == 0.96 * Width(s.y)
    ensures Width(Zoomed(Zoomed(s, "out"), "in").x) == 0.96 * Width(s.x)
    ensures Width(Zoomed(Zoomed(s, "out"), "in").y) == 0.96 * Width(s.y)
    ensures Zoomed(Zoomed(s, "in"), "out") == s <==> Width(s.x) == 0.0 && Width(s.y) == 0.0
  {
  }

  // ---------------------------------------------------------------------------
  // Events and the main loop
  // ---------------------------------------------------------------------------

  datatype Key = Escape | Up | Down | OtherKey(code: int)

  /** The events the loop tells apart; every other kind is `Other`. */
  datatype Event = Quit | KeyDown(key: Key) | Other(kind: int)

  /** What the loop carries from one event to the next. */
  datatype LoopState = LoopState(running: bool, s: Range)

  /**
   * The handler for one event: QUIT and ESC stop the loop, UP zooms in,
   * DOWN zooms out, anything else changes nothing. Stopping does not skip
   * the handler for later events.
   */
  function Dispatch(st: LoopState, e: Event): (r: LoopState)
    ensures (e == Quit || e == KeyDown(Escape)) ==> r == LoopState(false, st.s)
    ensures e == KeyDown(Up) ==> r == LoopState(st.running, Zoomed(st.s, "in"))
    ensures e == KeyDown(Down) ==> r == LoopState(st.running, Zoomed(st.s, "out"))
    ensures e !in {Quit, KeyDown(Escape), KeyDown(Up), KeyDown(Down)} ==> r == st
  {
    match e
    case Quit => st.(running := false)
    case KeyDown(k) =>
      if k == Escape then st.(running := false)
      else if k == Up then st.(s := Zoomed(st.s, "in"))
      else if k == Down then st.(s := Zoomed(st.s, "out"))
      else st
    case Other(_) => st
  }

  /** The state after handling a whole batch in order (the `for event`
      loop). No event sets `running` back to true. */
  function HandleBatch(st: LoopState, batch: seq<Event>): (r: LoopState)
    ensures r.running ==> st.running
  {
    if batch == [] then st
    else Dispatch(HandleBatch(st, batch[..|batch| - 1]), batch[|batch| - 1])
  }

  /** The state after the frames in `frames`: a frame is handled only while
      the loop is still running when it starts. */
  function RunFrames(st: LoopState, frames: seq<seq<Event>>): (r: LoopState)
    ensures r.running ==> st.running
    ensures !st.running ==> r == st
  {
    if frames == [] then st
    else
      var before := RunFrames(st, frames[..|frames| - 1]);
      if before.running then HandleBatch(before, frames[|frames| - 1]) else before
  }

  /** A QUIT or ESC anywhere in a batch stops the loop once the batch is done. */
  lemma {:induction false} StopInBatchStops(st: LoopState, batch: seq<Event>, j: int)
    requires 0 <= j < |batch| && (batch[j] == Quit || batch[j] == KeyDown(Escape))
    ensures !HandleBatch(st, batch).running
  {
    var last := |batch| - 1;
    if j < last {
      assert batch[..last][j] == batch[j];
      StopInBatchStops(st, batch[..last], j);
      ghost var e := batch[last];
      assert e == Quit || e == KeyDown(Escape) || e == KeyDown(Up) || e == KeyDown(Down) ||
             e !in {Quit, KeyDown(Escape), KeyDown(Up), KeyDown(Down)};
    }
  }

  /** A batch without QUIT or ESC never changes `running`. */
  lemma {:induction false} BatchWithoutStopKeepsRunning(st: LoopState, batch: seq<Event>)
    requires forall j :: 0 <= j < |batch| ==> batch[j] != Quit && batch[j] != KeyDown(Escape)
    ensures HandleBatch(st, batch).running == st.running
  {
    if batch != [] {
      var last := |batch| - 1;
      assert forall j :: 0 <= j < last ==> batch[..last][j] == batch[j];
      BatchWithoutStopKeepsRunning(st, batch[..last]);
      ghost var e := batch[last];
      assert e == KeyDown(Up) || e == KeyDown(Down) ||
             e !in {Quit, KeyDown(Escape), KeyDown(Up), KeyDown(Down)};
    }
  }

  /** The range a batch leaves behind does not depend on `running`: every
      event of the batch is handled whether or not the loop was stopped. */
  lemma {:induction false} BatchRangeIgnoresRunning(st1: LoopState, st2: LoopState, batch: seq<Event>)
    requires st1.s == st2.s
    ensures HandleBatch(st1, batch).s == HandleBatch(st2, batch).s
  {
    if batch != [] {
      BatchRangeIgnoresRunning(st1, st2, batch[..|batch| - 1]);
    }
  }

  /** Once the loop has stopped, later frames change nothing. */
  lemma {:induction false} StoppedStaysStopped(st: LoopState, frames: seq<seq<Event>>, k: nat)
    requires k <= |frames| && !RunFrames(st, frames[..k]).running
    ensures RunFrames(st, frames) == RunFrames(st, frames[..k])
  {
    if k < |frames| {
      var last := |frames| - 1;
      assert frames[..last][..k] == frames[..k];
      StoppedStaysStopped(st, frames[..last], k);
      assert frames[..|frames|] == frames;
    } else {
      assert frames[..k] == frames;
    }
  }

  /** A stop request ends the run after the frame it arrives in: no later
      frame is handled. */
  lemma StopEndsRun(st: LoopState, frames: seq<seq<Event>>, k: nat, j: int)
    requires k < |frames| && RunFrames(st, frames[..k]).running
    requires 0 <= j < |frames[k]| && (frames[k][j] == Quit || frames[k][j] == KeyDown(Escape))
    ensures RunFrames(st, frames) == HandleBatch(RunFrames(st, frames[..k]), frames[k])
    ensures !RunFrames(st, frames).running
  {
    assert frames[..k + 1][..k] == frames[..k];
    StopInBatchStops(RunFrames(st, frames[..k]), frames[k], j);
    StoppedStaysStopped(st, frames, k + 1);
  }

  /** Events after a QUIT in the same batch are still handled: an UP that
      follows it still zooms in. */
  lemma EventsAfterQuitStillHandled(s: Range)
    ensures HandleBatch(LoopState(true, s), [Quit, KeyDown(Up)]) == LoopState(false, Zoomed(s, "in"))
  {
    var st := LoopState(true, s);
    assert [Quit, KeyDown(Up)][..1] == [Quit];
    assert [Quit][..0] == [];
    assert HandleBatch(st, [Quit]) == Dispatch(st, Quit);
    assert HandleBatch(st, [Quit, KeyDown(Up)]) == Dispatch(HandleBatch(st, [Quit]), KeyDown(Up));
  }

  /** The view: world range `s`, drag offset `c`, window size and frame rate. */
  class View {
    var width: int
    var height: int
    var fps: int
    var c: Offset
    var s: Range

    /** A new view: no drag offset and the range [-1, 1] x [-1, 1]. */
    constructor (width: int := 640, height: int := 400, fps: int := 30)
      ensures this.width == width && this.height == height && this.fps == fps
      ensures c == Offset(0.0, 0.0) && s == InitialRange
    {
      this.width := width;
      this.height := height;
      this.fps := fps;
      c := Offset(0.0, 0.0);
      s := InitialRange;
    }

    /** `zoom(f)`: rescale `s` about its centre; `c` is left alone. */
    method Zoom(f: string := "in")
      modifies this`s
      ensures s == Zoomed(old(s), f)
      ensures c == old(c)
    {
      var x, y := s.x, s.y;
      var xx := (x.hi - x.lo) * ZoomStep;
      var yy := (y.hi - y.lo) * ZoomStep;
      if "in" == f {
        s := Range(Interval(x.lo + xx / 2.0, x.hi - xx / 2.0),
                   Interval(y.lo + yy / 2.0, y.hi - yy / 2.0));
      } else if "out" == f {
        s := Range(Interval(x.lo - xx / 2.0, x.hi + xx / 2.0),
                   Interval(y.lo - yy / 2.0, y.hi + yy / 2.0));
      }
    }

    /**
     * `run()` over the given frames: each pass of the loop handles one
     * batch, and the loop ends when a handler has cleared `running` or the
     * frames run out. Returns how many batches were handled.
     */
    method Run(frames: seq<seq<Event>>) returns (handled: nat)
      modifies this`s
      ensures handled <= |frames|
      ensures handled < |frames| ==> !RunFrames(LoopState(true, old(s)), frames[..handled]).running
      ensures 0 < handled ==> RunFrames(LoopState(true, old(s)), frames[..handled - 1]).running
      ensures s == RunFrames(LoopState(true, old(s)), frames).s
      ensures c == old(c)
    {
      ghost var start := LoopState(true, s);
      var running := true;
      handled := 0;
      while running && handled < |frames|
        invariant handled <= |frames|
        invariant LoopState(running, s) == RunFrames(start, frames[..handled])
        invariant 0 < handled ==> RunFrames(start, frames[..handled - 1]).running
        decreases |frames| - handled
      {
        var batch := frames[handled];
        ghost var before := LoopState(running, s);
        for j := 0 to |batch|
          invariant LoopState(running, s) == HandleBatch(before, batch[..j])
        {
          ghost var prev := LoopState(running, s);
          var event := batch[j];
          match event {
            case Quit => running := false;
            case KeyDown(key) =>
              if key == Escape {
                running := false;
              } else if key == Up {
                Zoom("in");
              } else if key == Down {
                Zoom("out");
              }
            case Other(_) =>
          }
          assert batch[..j + 1][..j] == batch[..j];
          assert LoopState(running, s) == Dispatch(prev, event);
        }
        assert batch[..|batch|] == batch;
        assert frames[..handled + 1][..handled] == frames[..handled];
        handled := handled + 1;
      }
      if !running {
        StoppedStaysStopped(start, frames, handled);
      } else {
        assert frames[..handled] == frames;
      }
    }
  }
}
