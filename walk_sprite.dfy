/**
 * The sprite of the walking-bucket demo: a looping animation state that picks
 * the frame to show from the animation time, moves the sprite by a constant
 * motion per second, and wraps it back to the left edge once it has walked
 * past x = 500.
 *
 * The class `Sprite` keeps the source's fields; `View()` reads them as a
 * `WalkView` value, and `Update`'s contract relates the new value to the old
 * one through `Step`, about which the lemmas are proved.
 */
module WalkSprite {
  import opened Common
  import opened Sheet

  /** An animation state: the sheet frames it cycles through, whether it loops, its motion per second, its frame rate. */
  datatype AnimState = AnimState(frames: seq<nat>, loop: bool, motion: Point, fps: real)

  /** The only state the sprite knows: eight frames at 8 per second, looping, 120 pixels per second to the right. */
  const Walk: AnimState := AnimState([0, 1, 2, 3, 4, 5, 6, 7], true, Point(120.0, 0.0), 8.0)

  /** The sprite's table of states by name. */
  const StateTable: map<string, AnimState> := map["walk" := Walk]

  /** A state can be played: it has frames and a positive frame rate, so its duration is positive. */
  predicate Playable(s: AnimState)
  {
    |s.frames| > 0 && s.fps > 0.0
  }

  /** The length of one pass through the state's frames: the frame count times the time per frame. */
  function Duration(s: AnimState): real
    requires s.fps > 0.0
  {
    |s.frames| as real * (1.0 / s.fps)
  }

  /** A playable state lasts a positive time; the walk lasts exactly one second. */
  lemma DurationPositive(s: AnimState)
    requires Playable(s)
    ensures Duration(s) > 0.0
    ensures Duration(Walk) == 1.0
  {
    assert 1.0 / s.fps > 0.0;
    PositiveProduct(|s.frames| as real, 1.0 / s.fps);
  }

  /** Every state of the table is playable. */
  lemma StateTablePlayable(name: string)
    requires name in StateTable
    ensures StateTable[name] == Walk && Playable(StateTable[name])
  {
  }

  lemma PositiveProduct(a: real, b: real)
    requires a > 0.0 && b > 0.0
    ensures a * b > 0.0
  {
  }

  /** All fields of one walking sprite; the ones before `x` are never changed after construction. */
  datatype WalkView = WalkView(
    width: real, height: real,
    json: seq<FrameInfo>,   // the sheet's frame list
    anchor: Point,
    state: AnimState,
    scale: real, opacity: real,
    x: real, y: real,
    currentTime: real,      // seconds into the current pass of the animation
    frameData: Option<FrameInfo>)

  /** The index into the state's frame list for animation time `t`: the fraction of the pass done, times the frame count, rounded down. */
  function FrameIndex(t: real, duration: real, count: nat): int
    requires duration > 0.0
  {
    (t / duration * count as real).Floor
  }

  /** `json.frames[state.frames[index]]`; `None` (JavaScript's `undefined`) when either index is out of range. */
  function FrameAt(s: AnimState, json: seq<FrameInfo>, index: int): Option<FrameInfo>
  {
    if 0 <= index < |s.frames| && s.frames[index] < |json| then Some(json[s.frames[index]]) else None
  }

  /**
   * One `update(dt)`: the time advances by `dt` and, in a looping state, loses
   * one duration when it has got past the duration; the position moves by the
   * motion times `dt`, x jumping to -100 when it lands beyond 500; the frame is
   * looked up for the new time.
   */
  function Step(v: WalkView, dt: real): WalkView
    requires Playable(v.state)
  {
    var d := Duration(v.state);
    var t := v.currentTime + dt;
    var t' := if t > d && v.state.loop then t - d else t;
    var x := v.x + v.state.motion.x * dt;
    var index := FrameIndex(t', d, |v.state.frames|);
    v.(x := if x > 500.0 then -100.0 else x,
       y := v.y + v.state.motion.y * dt,
       currentTime := t',
       frameData := FrameAt(v.state, v.json, index))
  }

  /**
   * The position advances by exactly the motion times `dt`, except that an x
   * beyond 500 becomes exactly -100; so x never ends above 500. Nothing but the
   * position, the time and the frame changes.
   */
  lemma StepMoves(v: WalkView, dt: real)
    requires Playable(v.state)
    ensures Step(v, dt).x <= 500.0
    ensures v.x + v.state.motion.x * dt > 500.0 ==> Step(v, dt).x == -100.0
    ensures v.x + v.state.motion.x * dt <= 500.0 ==> Step(v, dt).x == v.x + v.state.motion.x * dt
    ensures Step(v, dt).y == v.y + v.state.motion.y * dt
    ensures Step(v, dt).(x := v.x, y := v.y, currentTime := v.currentTime, frameData := v.frameData) == v
  {
  }

  /** The walk moves 120 pixels per second to the right and keeps its height. */
  lemma WalkMotion(v: WalkView, dt: real)
    requires v.state == Walk
    requires v.x + 120.0 * dt <= 500.0
    ensures Step(v, dt).x == v.x + 120.0 * dt && Step(v, dt).y == v.y
  {
  }

  /**
   * The wrap is a single subtraction: time past the duration loses exactly one
   * duration in a looping state, and is kept in any other.
   */
  lemma StepTime(v: WalkView, dt: real)
    requires Playable(v.state)
    ensures var t := v.currentTime + dt;
            Step(v, dt).currentTime == if t > Duration(v.state) && v.state.loop then t - Duration(v.state) else t
    ensures !v.state.loop ==> Step(v, dt).currentTime == v.currentTime + dt
  {
  }

  /**
   * A looping state's time stays within [0, duration] under updates of at
   * most one duration each; the upper end is reached without wrapping.
   */
  lemma {:induction false} TimeStaysInPass(v: WalkView, dt: real)
    requires Playable(v.state) && v.state.loop
    requires 0.0 <= v.currentTime <= Duration(v.state)
    requires 0.0 <= dt <= Duration(v.state)
    ensures 0.0 <= Step(v, dt).currentTime <= Duration(v.state)
  {
    DurationPositive(v.state);
  }

  /** For a positive `n`, the scaled fraction `q * n` is below `n` exactly when `q` is below 1. */
  lemma ScaledBelowCount(q: real, n: real)
    requires n > 0.0
    ensures q * n < n <==> q < 1.0
  {
    if q < 1.0 {
      calc {
        q * n;
      < { assert (1.0 - q) * n > 0.0; }
        n;
      }
    } else {
      calc {
        n;
      <= { assert (q - 1.0) * n >= 0.0; }
        q * n;
      }
    }
  }

  /** The scaled fraction is non-negative exactly when the fraction is. */
  lemma ScaledNonNegative(q: real, n: real)
    requires n > 0.0
    ensures q * n >= 0.0 <==> q >= 0.0
  {
    if q < 0.0 {
      assert (0.0 - q) * n > 0.0;
    }
  }

  /** For a positive duration, the fraction `t / d` is in [0, 1) exactly when `t` is in [0, d). */
  lemma FractionOfPass(t: real, d: real)
    requires d > 0.0
    ensures t / d >= 0.0 <==> t >= 0.0
    ensures t / d < 1.0 <==> t < d
  {
    var q := t / d;
    assert q * d == t;
    ScaledNonNegative(q, d);
    ScaledBelowCount(q, d);
  }

  /**
   * The frame index is a valid index of the state's frame list exactly when
   * the time is within [0, duration). In particular a time equal to the
   * duration gives an index one past the end.
   */
  lemma FrameIndexInRange(t: real, d: real, n: nat)
    requires d > 0.0 && n > 0
    ensures 0 <= FrameIndex(t, d, n) < n <==> 0.0 <= t < d
  {
    var q := t / d;
    FractionOfPass(t, d);
    ScaledNonNegative(q, n as real);
    ScaledBelowCount(q, n as real);
  }

  /** At exactly one duration the index equals the frame count. */
  lemma FrameIndexAtDuration(d: real, n: nat)
    requires d > 0.0
    ensures FrameIndex(d, d, n) == n
  {
    assert d / d == 1.0;
  }

  /**
   * Because the wrap test is strict, a fresh walker updated by exactly one
   * second is not wrapped: its time is 1.0, its frame index is 8, one past the
   * end of the walk's frames, and no frame is found.
   */
  lemma FullSecondLosesTheFrame(v: WalkView)
    requires v.state == Walk && v.currentTime == 0.0
    ensures Step(v, 1.0).currentTime == 1.0
    ensures FrameIndex(Step(v, 1.0).currentTime, Duration(Walk), 8) == 8
    ensures Step(v, 1.0).frameData == None
  {
    DurationPositive(Walk);
    FrameIndexAtDuration(1.0, 8);
  }

  /**
   * Thanks to the single wrap, reaching a cumulative time of 1.25 shows the
   * same frame as reaching 0.25: frame 2 of the sheet.
   */
  lemma WrapShowsSameFrame(v: WalkView)
    requires v.state == Walk && v.currentTime == 0.0 && |v.json| > 2
    ensures Step(v, 1.25).currentTime == Step(v, 0.25).currentTime == 0.25
    ensures Step(v, 1.25).frameData == Step(v, 0.25).frameData == Some(v.json[2])
  {
    DurationPositive(Walk);
    assert 0.25 / 1.0 * 8.0 == 2.0;
  }

  /**
   * A single update longer than two durations is wrapped only once: from time
   * 0, an update of 2.5 seconds leaves the time at 1.5, past the walk's
   * duration, and no frame is found.
   */
  lemma LongUpdateWrapsOnce(v: WalkView)
    requires v.state == Walk && v.currentTime == 0.0
    ensures Step(v, 2.5).currentTime == 1.5
    ensures Step(v, 2.5).frameData == None
  {
    DurationPositive(Walk);
    assert 1.5 / 1.0 * 8.0 == 12.0;
  }

  /**
   * Within a pass of a looping state whose sheet holds all of its frames, the
   * updated sprite always shows a frame of the state.
   */
  lemma FrameFoundWithinPass(v: WalkView, dt: real)
    requires Playable(v.state)
    requires forall i :: 0 <= i < |v.state.frames| ==> v.state.frames[i] < |v.json|
    requires 0.0 <= v.currentTime + dt < Duration(v.state)
    ensures Step(v, dt).frameData.Some?
    ensures exists i :: 0 <= i < |v.state.frames| && Step(v, dt).frameData == Some(v.json[v.state.frames[i]])
  {
    DurationPositive(v.state);
    var t := v.currentTime + dt;
    FrameIndexInRange(t, Duration(v.state), |v.state.frames|);
    var i := FrameIndex(t, Duration(v.state), |v.state.frames|);
    assert Step(v, dt).frameData == Some(v.json[v.state.frames[i]]);
  }

  /**
   * With a sheet that holds all of the state's frames, an update finds a frame
   * exactly when its new time lies in [0, duration): a time left at exactly
   * the duration, or one never wrapped below it, shows nothing.
   */
  lemma StepFindsFrameIffInPass(v: WalkView, dt: real)
    requires Playable(v.state)
    requires forall i :: 0 <= i < |v.state.frames| ==> v.state.frames[i] < |v.json|
    ensures Step(v, dt).frameData.Some? <==> 0.0 <= Step(v, dt).currentTime < Duration(v.state)
  {
    DurationPositive(v.state);
    FrameIndexInRange(Step(v, dt).currentTime, Duration(v.state), |v.state.frames|);
  }

  /** The walker after the updates `dts`, in order. */
  function RunWalk(v: WalkView, dts: seq<real>): WalkView
    requires Playable(v.state)
    decreases |dts|
  {
    if dts == [] then v
    else
      var w := Step(v, dts[0]);
      assert w.state == v.state;
      RunWalk(w, dts[1..])
  }

  /** A run of updates keeps the state and the sheet. */
  lemma {:induction false} RunKeepsState(v: WalkView, dts: seq<real>)
    requires Playable(v.state)
    ensures RunWalk(v, dts).state == v.state && RunWalk(v, dts).json == v.json
    decreases |dts|
  {
    if dts != [] {
      RunKeepsState(Step(v, dts[0]), dts[1..]);
    }
  }

  /** The total time of the updates `dts`. */
  function Elapsed(dts: seq<real>): real
    decreases |dts|
  {
    if dts == [] then 0.0 else dts[0] + Elapsed(dts[1..])
  }

  /** How many of the updates `dts` wrap the walker's time. */
  function Wraps(v: WalkView, dts: seq<real>): nat
    requires Playable(v.state)
    decreases |dts|
  {
    if dts == [] then 0
    else
      var w := Step(v, dts[0]);
      assert w.state == v.state;
      (if v.currentTime + dts[0] > Duration(v.state) && v.state.loop then 1 else 0) + Wraps(w, dts[1..])
  }

  /** `t` less `k` durations `d`, one subtraction at a time. */
  function LessDurations(t: real, k: nat, d: real): real
    decreases k
  {
    if k == 0 then t else LessDurations(t, k - 1, d) - d
  }

  /** Subtracting `k` durations one at a time subtracts `k` times the duration. */
  lemma {:induction false} LessDurationsIsMultiple(t: real, k: nat, d: real)
    ensures LessDurations(t, k, d) == t - k as real * d
    decreases k
  {
    if k > 0 {
      LessDurationsIsMultiple(t, k - 1, d);
      assert k as real * d == (k - 1) as real * d + d;
    }
  }

  /** Taking one duration off first is one more subtraction. */
  lemma {:induction false} LessDurationsShift(t: real, k: nat, d: real)
    ensures LessDurations(t - d, k, d) == LessDurations(t, k + 1, d)
    decreases k
  {
    if k > 0 {
      LessDurationsShift(t, k - 1, d);
    }
  }

  /**
   * Over any run of updates of at most one duration each, a looping walker's
   * time stays within [0, duration] and is the time it started at plus the
   * total elapsed time, less one duration per wrap (`LessDurationsIsMultiple`
   * gives that as a multiple of the duration).
   */
  lemma {:induction false} RunTimeStaysInPass(v: WalkView, dts: seq<real>)
    requires Playable(v.state) && v.state.loop
    requires 0.0 <= v.currentTime <= Duration(v.state)
    requires forall i :: 0 <= i < |dts| ==> 0.0 <= dts[i] <= Duration(v.state)
    ensures RunWalk(v, dts).state == v.state
    ensures 0.0 <= RunWalk(v, dts).currentTime <= Duration(v.state)
    ensures RunWalk(v, dts).currentTime == LessDurations(v.currentTime + Elapsed(dts), Wraps(v, dts), Duration(v.state))
    decreases |dts|
  {
    if dts != [] {
      var w := Step(v, dts[0]);
      var d := Duration(v.state);
      var rest := dts[1..];
      StepTime(v, dts[0]);
      TimeStaysInPass(v, dts[0]);
      assert w.state == v.state;
      assert forall i :: 0 <= i < |rest| ==> rest[i] == dts[i + 1];
      RunTimeStaysInPass(w, rest);
      assert RunWalk(v, dts) == RunWalk(w, rest);
      assert Elapsed(dts) == dts[0] + Elapsed(rest);
      var total := v.currentTime + Elapsed(dts);
      if v.currentTime + dts[0] > d {
        assert Wraps(v, dts) == Wraps(w, rest) + 1;
        assert w.currentTime + Elapsed(rest) == total - d;
        LessDurationsShift(total, Wraps(w, rest), d);
      } else {
        assert Wraps(v, dts) == Wraps(w, rest);
        assert w.currentTime + Elapsed(rest) == total;
      }
    }
  }

  /**
   * Two updates, of 1 and then 0.25 seconds, take a fresh walker to the
   * same time and frame as a single update of 0.25: the first is not
   * wrapped, the second is.
   */
  lemma OneSecondThenAQuarter(v: WalkView)
    requires v.state == Walk && v.currentTime == 0.0 && |v.json| > 2
    ensures RunWalk(v, [1.0, 0.25]).currentTime == 0.25
    ensures RunWalk(v, [1.0, 0.25]).frameData == Some(v.json[2])
    ensures Wraps(v, [1.0, 0.25]) == 1
  {
    DurationPositive(Walk);
    var w := Step(v, 1.0);
    assert w.currentTime == 1.0;
    assert [1.0, 0.25][1..] == [0.25];
    assert RunWalk(v, [1.0, 0.25]) == RunWalk(w, [0.25]);
    assert 0.25 / 1.0 * 8.0 == 2.0;
    assert RunWalk(w, [0.25]) == Step(w, 0.25);
  }

  /**
   * The `offset` getter: where the frame's anchor point lies inside the drawn
   * image. Horizontally it takes the untrimmed width less the trim offset,
   * vertically the trimmed height less the trim offset, each scaled and then
   * multiplied by the anchor fraction.
   */
  function OffsetOf(f: FrameInfo, scale: real, anchor: Point): Point
  {
    Point((f.sourceSize.w - f.spriteSourceSize.x) * scale * anchor.x,
          (f.spriteSourceSize.h - f.spriteSourceSize.y) * scale * anchor.y)
  }

  /**
   * For an untrimmed frame (trimmed image at the origin, as tall as the
   * whole frame) the offset is the anchor fraction of the scaled frame size;
   * at the sprite's centred anchor and scale 1, half of it.
   */
  lemma UntrimmedOffset(f: FrameInfo, scale: real, anchor: Point)
    requires f.spriteSourceSize.x == 0.0 && f.spriteSourceSize.y == 0.0
    requires f.spriteSourceSize.h == f.sourceSize.h
    ensures OffsetOf(f, scale, anchor) == Point(f.sourceSize.w * scale * anchor.x, f.sourceSize.h * scale * anchor.y)
    ensures OffsetOf(f, 1.0, Point(0.5, 0.5)) == Point(f.sourceSize.w / 2.0, f.sourceSize.h / 2.0)
  {
  }

  /** A zero anchor puts the anchor point at the image's top-left corner. */
  lemma TopLeftAnchorOffset(f: FrameInfo, scale: real)
    ensures OffsetOf(f, scale, Point(0.0, 0.0)) == Point(0.0, 0.0)
  {
  }

  /** A walking sprite with its mutable state. */
  class Sprite {
    const width: real
    const height: real
    const json: seq<FrameInfo>
    const anchor: Point
    const state: AnimState
    const scale: real
    const opacity: real
    /** The duration the constructor writes onto the state. */
    const duration: real
    var x: real
    var y: real
    var currentTime: real
    var frameData: Option<FrameInfo>

    function View(): WalkView
      reads this
    {
      WalkView(width, height, json, anchor, state, scale, opacity, x, y, currentTime, frameData)
    }

    /** The state can be played and its stored duration is the state's duration. */
    ghost predicate Valid()
      reads this
    {
      Playable(state) && duration == Duration(state)
    }

    /** The constructor, for a state name of the table; the source's caller leaves scale and opacity at their default 1. */
    constructor (x: real, y: real, width: real, height: real, frameData: Option<FrameInfo>,
                 anchor: Point, json: seq<FrameInfo>, stateName: string, scale: real, opacity: real)
      requires stateName in StateTable
      ensures Valid()
      ensures View() == WalkView(width, height, json, anchor, StateTable[stateName], scale, opacity, x, y, 0.0, frameData)
    {
      this.width := width;
      this.height := height;
      this.json := json;
      this.frameData := frameData;
      this.x := x;
      this.y := y;
      this.anchor := anchor;
      this.state := StateTable[stateName];
      this.scale := scale;
      this.opacity := opacity;
      this.currentTime := 0.0;
      this.duration := |StateTable[stateName].frames| as real * (1.0 / StateTable[stateName].fps);
    }

    /** The `offset` getter; the source fails when no frame has been looked up yet. */
    function Offset(): Point
      reads this
      requires frameData.Some?
    {
      OffsetOf(frameData.value, scale, anchor)
    }

    /** `update(dt)`: the new fields are those `Step` gives for the old ones. */
    method Update(dt: real)
      requires Valid()
      modifies this
      ensures Valid()
      ensures View() == Step(old(View()), dt)
    {
      DurationPositive(state);
      var t := currentTime + dt;
      if t > duration {
        if state.loop {
          t := t - duration;
        }
      }
      var nx := x + state.motion.x * dt;
      if nx > 500.0 {
        nx := -100.0;
      }
      var index := FrameIndex(t, duration, |state.frames|);
      currentTime, x, y, frameData := t, nx, y + state.motion.y * dt, FrameAt(state, json, index);
    }
  }
}
