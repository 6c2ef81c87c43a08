/**
 * The sprite of the tap-the-flower game: a strictly forward machine over a
 * fixed list of timed states (spawn, static, die) that drives the sprite's
 * scale and opacity, marks the sprite `kill` once it has run past the last
 * state, and answers a circular hit test.
 *
 * The class `Sprite` keeps the source's mutable fields; `View()` reads them as
 * a `SpriteView` value, and each method's contract relates the new value to the
 * old one through the functions below, about which the lemmas are proved.
 */
module FlowerSprite {
  import opened Common
  import opened Sheet

  /** One entry of the sprite's state list: a mode name and how long it lasts (seconds). */
  datatype TimedState = TimedState(mode: string, duration: real)

  /** The three states every flower goes through, in order. */
  const FlowerStates: seq<TimedState> :=
    [TimedState("spawn", 0.5), TimedState("static", 1.5), TimedState("die", 0.8)]

  /** Every duration is positive, so the progress `stateTime / duration` is defined. */
  predicate WellFormed(states: seq<TimedState>)
  {
    forall i :: 0 <= i < |states| ==> states[i].duration > 0.0
  }

  /** The value of all fields of one sprite that the game logic reads or writes. */
  datatype SpriteView = SpriteView(
    index: nat,         // which flower of the sheet
    frame: Rect,        // its rectangle in the bitmap
    x: real, y: real,   // position of the anchor point on the canvas
    anchor: Point,
    scale: real,
    opacity: real,
    stateIndex: nat,
    stateTime: real,    // seconds spent in the current state
    currentTime: real,  // set by the constructor, never read
    kill: bool)

  /** The fields of a freshly constructed sprite: state 0 entered at time 0, alive. */
  function NewSprite(index: nat, frame: Rect, x: real, y: real, scale: real, opacity: real, anchor: Point): SpriteView
  {
    SpriteView(index, frame, x, y, anchor, scale, opacity, 0, 0.0, 0.0, false)
  }

  /** The `state` getter: the state at `stateIndex`, or `None` (JavaScript's `undefined`) past the end. */
  function CurrentState(states: seq<TimedState>, stateIndex: nat): Option<TimedState>
  {
    if stateIndex < |states| then Some(states[stateIndex]) else None
  }

  function Max(a: real, b: real): (m: real)
    ensures m >= a && m >= b && (m == a || m == b)
  {
    if a < b then b else a
  }

  /**
   * How a state's mode drives the looks at progress `delta`: grow and fade in
   * for "spawn", full size and opaque for "static", and for "die" and every
   * other mode grow on while fading out, the opacity clamped at 0.
   */
  predicate Looks(mode: string, delta: real, scale: real, opacity: real)
  {
    if mode == "spawn" then scale == delta && opacity == delta
    else if mode == "static" then scale == 1.0 && opacity == 1.0
    else scale == 1.0 + delta && opacity == Max(0.0, 1.0 - delta)
  }

  /** For a positive duration, the progress exceeds 1 exactly when the time exceeds the duration. */
  lemma ProgressExceedsOne(t: real, d: real)
    requires d > 0.0
    ensures t / d > 1.0 <==> t > d
    ensures t / d * d == t
  {
    var q := t / d;
    assert q * d == t;
    if q > 1.0 {
      assert q * d - d == (q - 1.0) * d;
      assert (q - 1.0) * d > 0.0;
    }
    if t > d {
      assert (q - 1.0) * d == t - d;
      assert q - 1.0 > 0.0;
    }
  }

  /**
   * One `update(dt)`: the state time grows by `dt`; past the last state the
   * sprite is marked `kill` and nothing else changes; otherwise the looks follow
   * the current state's mode at the progress computed BEFORE any transition,
   * and the machine moves to the next state (timer reset to 0) when that
   * progress exceeds 1.
   */
  function Step(states: seq<TimedState>, v: SpriteView, dt: real): (r: SpriteView)
    requires WellFormed(states)
    // strictly forward, one state at a time
    ensures r.stateIndex == v.stateIndex || r.stateIndex == v.stateIndex + 1
    ensures r.stateIndex == v.stateIndex + 1 <==>
              v.stateIndex < |states| && v.stateTime + dt > states[v.stateIndex].duration
    ensures v.stateIndex <= |states| ==> r.stateIndex <= |states|
    // the timer restarts on every transition and runs on otherwise
    ensures r.stateTime == if r.stateIndex == v.stateIndex then v.stateTime + dt else 0.0
    // `kill` is set exactly when there is no current state, and never cleared
    ensures r.kill <==> v.kill || v.stateIndex >= |states|
    ensures v.stateIndex >= |states| ==> r.scale == v.scale && r.opacity == v.opacity
    // the looks follow the state that was current when the update began
    ensures v.stateIndex < |states| ==>
              Looks(states[v.stateIndex].mode, (v.stateTime + dt) / states[v.stateIndex].duration, r.scale, r.opacity)
    // nothing else changes
    ensures r.(stateIndex := v.stateIndex, stateTime := v.stateTime, kill := v.kill,
               scale := v.scale, opacity := v.opacity) == v
  {
    var t := v.stateTime + dt;
    if v.stateIndex >= |states| then
      v.(stateTime := t, kill := true)
    else
      var state := states[v.stateIndex];
      var delta := t / state.duration;
      ProgressExceedsOne(t, state.duration);
      var moved := if delta > 1.0 then v.(stateIndex := v.stateIndex + 1, stateTime := 0.0)
                   else v.(stateTime := t);
      if state.mode == "spawn" then
        moved.(scale := delta, opacity := delta)
      else if state.mode == "static" then
        moved.(scale := 1.0, opacity := 1.0)
      else
        var newOpacity := 1.0 - delta;
        moved.(scale := 1.0 + delta, opacity := if newOpacity < 0.0 then 0.0 else newOpacity)
  }

  /** The sprite after the updates `dts`, in order. */
  function Run(states: seq<TimedState>, v: SpriteView, dts: seq<real>): SpriteView
    requires WellFormed(states)
    decreases |dts|
  {
    if dts == [] then v else Run(states, Step(states, v, dts[0]), dts[1..])
  }

  /**
   * Over any run of updates the state index never decreases, rises by at most
   * one per update, never passes the end of the list, and `kill` once set stays set.
   */
  lemma {:induction false} RunMonotone(states: seq<TimedState>, v: SpriteView, dts: seq<real>)
    requires WellFormed(states)
    ensures v.stateIndex <= Run(states, v, dts).stateIndex <= v.stateIndex + |dts|
    ensures v.stateIndex <= |states| ==> Run(states, v, dts).stateIndex <= |states|
    ensures v.kill ==> Run(states, v, dts).kill
    decreases |dts|
  {
    if dts != [] {
      RunMonotone(states, Step(states, v, dts[0]), dts[1..]);
    }
  }

  /**
   * For a sprite whose index is within the list or one past its end, the
   * `state` getter finds no state exactly at the one index past the end; that
   * is exactly when `update` sets `kill`, and otherwise the looks follow the
   * state the getter returns.
   */
  lemma GetterDrivesUpdate(states: seq<TimedState>, v: SpriteView, dt: real)
    requires WellFormed(states) && v.stateIndex <= |states|
    ensures CurrentState(states, v.stateIndex).None? <==> v.stateIndex == |states|
    ensures Step(states, v, dt).kill <==> v.kill || CurrentState(states, v.stateIndex).None?
    ensures CurrentState(states, v.stateIndex).Some? ==>
              var s := CurrentState(states, v.stateIndex).value;
              Looks(s.mode, (v.stateTime + dt) / s.duration, Step(states, v, dt).scale, Step(states, v, dt).opacity)
  {
  }

  /** The update that grows a sprite out of "spawn" leaves it larger than full size and over-opaque. */
  lemma LeavingSpawnOvershoots(states: seq<TimedState>, v: SpriteView, dt: real)
    requires WellFormed(states)
    requires v.stateIndex < |states| && states[v.stateIndex].mode == "spawn"
    requires Step(states, v, dt).stateIndex == v.stateIndex + 1
    ensures Step(states, v, dt).scale > 1.0 && Step(states, v, dt).opacity > 1.0
  {
    ProgressExceedsOne(v.stateTime + dt, states[v.stateIndex].duration);
  }

  /**
   * In "die" and any other unknown mode the opacity is never negative, and for
   * a non-negative state time it never exceeds 1.
   */
  lemma FadeOutOpacityBounded(states: seq<TimedState>, v: SpriteView, dt: real)
    requires WellFormed(states)
    requires v.stateIndex < |states|
    requires states[v.stateIndex].mode != "spawn" && states[v.stateIndex].mode != "static"
    ensures 0.0 <= Step(states, v, dt).opacity
    ensures v.stateTime + dt >= 0.0 ==> Step(states, v, dt).opacity <= 1.0
  {
    var d := states[v.stateIndex].duration;
    var t := v.stateTime + dt;
    ProgressExceedsOne(t, d);
  }

  /**
   * Leaving the last state does not kill the sprite; the NEXT update, finding
   * no current state, does, and leaves the index where it is.
   */
  lemma KilledOneUpdateAfterLastState(states: seq<TimedState>, v: SpriteView, dt: real, dt': real)
    requires WellFormed(states) && |states| > 0
    requires v.stateIndex == |states| - 1
    requires Step(states, v, dt).stateIndex == |states|
    ensures Step(states, v, dt).kill == v.kill
    ensures Step(states, Step(states, v, dt), dt').kill
    ensures Step(states, Step(states, v, dt), dt').stateIndex == |states|
  {
  }

  /** Half-way through "spawn" (0.25 of 0.5 s) a new flower is at half size and half opacity. */
  lemma SpawnHalfway(index: nat, frame: Rect, x: real, y: real)
    ensures Step(FlowerStates, NewSprite(index, frame, x, y, 1.0, 1.0, Point(0.5, 0.5)), 0.25).scale == 0.5
    ensures Step(FlowerStates, NewSprite(index, frame, x, y, 1.0, 1.0, Point(0.5, 0.5)), 0.25).opacity == 0.5
    ensures Step(FlowerStates, NewSprite(index, frame, x, y, 1.0, 1.0, Point(0.5, 0.5)), 0.25).stateIndex == 0
  {
    var v := NewSprite(index, frame, x, y, 1.0, 1.0, Point(0.5, 0.5));
    assert 0.25 / 0.5 == 0.5;
  }

  /**
   * Half-way through "die" (0.4 of 0.8 s) the flower is at 1.5 times its size
   * and half opacity; at the full 0.8 s its opacity has reached 0.
   */
  lemma DieHalfwayAndEnd(v: SpriteView)
    requires v.stateIndex == 2 && v.stateTime == 0.0
    ensures Step(FlowerStates, v, 0.4).scale == 1.5 && Step(FlowerStates, v, 0.4).opacity == 0.5
    ensures Step(FlowerStates, v, 0.8).opacity == 0.0 && Step(FlowerStates, v, 0.8).stateIndex == 2
  {
    assert 0.4 / 0.8 == 0.5;
    assert 0.8 / 0.8 == 1.0;
  }

  /**
   * A whole life: a new flower updated by 0.6, 1.6, 0.9 and 0.1 seconds leaves
   * "spawn", "static" and "die" on the first three updates and is marked
   * `kill` on the fourth, never earlier.
   */
  lemma Lifetime(index: nat, frame: Rect, x: real, y: real)
    ensures var v0 := NewSprite(index, frame, x, y, 1.0, 1.0, Point(0.5, 0.5));
            var v1 := Step(FlowerStates, v0, 0.6);
            var v2 := Step(FlowerStates, v1, 1.6);
            var v3 := Step(FlowerStates, v2, 0.9);
            var v4 := Step(FlowerStates, v3, 0.1);
            v1.stateIndex == 1 && v2.stateIndex == 2 && v3.stateIndex == 3 &&
            !v1.kill && !v2.kill && !v3.kill && v4.kill && v4.stateIndex == 3
  {
  }

  /** `d * d < r * r` for `0 <= d < r`; each step multiplies an inequality by a non-negative factor. */
  lemma SquareBelow(d: real, r: real)
    requires 0.0 <= d < r
    ensures d * d < r * r
  {
    calc {
      d * d;
    <= { assert d * (r - d) >= 0.0; }
      d * r;
    <  { assert (r - d) * r > 0.0; }
      r * r;
    }
  }

  /** `r * r <= d * d` for `0 < r <= d`. */
  lemma SquareAtLeast(d: real, r: real)
    requires 0.0 < r <= d
    ensures r * r <= d * d
  {
    calc {
      r * r;
    <= { assert r * (d - r) >= 0.0; }
      r * d;
    <= { assert (d - r) * d >= 0.0; }
      d * d;
    }
  }

  /** The sum of the squares of two reals. */
  function SumOfSquares(u: real, w: real): real
  {
    u * u + w * w
  }

  /** A sum of two squares is never negative, and it is zero only when both terms are. */
  lemma SumOfSquaresIsZeroOnlyAtOrigin(u: real, w: real)
    ensures SumOfSquares(u, w) >= 0.0
    ensures SumOfSquares(u, w) == 0.0 <==> u == 0.0 && w == 0.0
  {
    if u != 0.0 || w != 0.0 {
      calc {
        SumOfSquares(u, w);
        u * u + w * w;
      > { SumOfSquaresOfNonZero(u, w); }
        0.0;
      }
    } else {
      calc {
        SumOfSquares(u, w);
        0.0 * 0.0 + 0.0 * 0.0;
        0.0;
      }
    }
  }

  lemma SumOfSquaresOfNonZero(u: real, w: real)
    requires u != 0.0 || w != 0.0
    ensures u * u + w * w > 0.0
  {
  }

  /** The squared Euclidean distance between two points (the source takes its square root). */
  function SquaredDistance(a: Point, b: Point): real
  {
    SumOfSquares(a.x - b.x, a.y - b.y)
  }

  /** The squared distance is never negative and is zero exactly between equal points. */
  lemma SquaredDistanceIsZeroOnlyAtSamePoint(a: Point, b: Point)
    ensures SquaredDistance(a, b) >= 0.0
    ensures SquaredDistance(a, b) == 0.0 <==> a == b
  {
    SumOfSquaresIsZeroOnlyAtOrigin(a.x - b.x, a.y - b.y);
  }

  /** The radius of the circular hit region: half the scaled frame width. */
  function Radius(v: SpriteView): real
  {
    v.frame.w * v.scale / 2.0
  }

  /**
   * `hitTest`: the point lies strictly inside the circle around (x, y) of
   * radius `Radius(v)`; stated on squared distances, so that a non-positive
   * radius never hits.
   */
  predicate Covers(v: SpriteView, p: Point)
  {
    Radius(v) > 0.0 && SquaredDistance(p, Point(v.x, v.y)) < Radius(v) * Radius(v)
  }

  /**
   * `Covers` is the source's test `dist < radius` for the Euclidean distance
   * `dist`, whichever non-negative root of the squared distance it is given.
   * In particular a point at exactly the radius misses.
   */
  lemma CoversIsDistanceBelowRadius(v: SpriteView, p: Point, dist: real)
    requires dist >= 0.0 && dist * dist == SquaredDistance(p, Point(v.x, v.y))
    ensures Covers(v, p) <==> dist < Radius(v)
  {
    if dist < Radius(v) {
      calc {
        SquaredDistance(p, Point(v.x, v.y));
      ==
        dist * dist;
      < { SquareBelow(dist, Radius(v)); }
        Radius(v) * Radius(v);
      }
    } else if Radius(v) > 0.0 {
      calc {
        Radius(v) * Radius(v);
      <= { SquareAtLeast(dist, Radius(v)); }
        dist * dist;
      ==
        SquaredDistance(p, Point(v.x, v.y));
      }
    }
  }

  /** The centre of a sprite is hit exactly when the radius is positive. */
  lemma CentreHits(v: SpriteView)
    ensures Covers(v, Point(v.x, v.y)) <==> Radius(v) > 0.0
  {
    if Radius(v) > 0.0 {
      calc {
        SquaredDistance(Point(v.x, v.y), Point(v.x, v.y));
        (v.x - v.x) * (v.x - v.x) + (v.y - v.y) * (v.y - v.y);
        0.0 * 0.0 + 0.0 * 0.0;
        0.0;
      < { assert Radius(v) * Radius(v) > 0.0; }
        Radius(v) * Radius(v);
      }
    }
  }

  /** A flower of the sprite sheet, with its mutable state. */
  class Sprite {
    const index: nat
    const frame: Rect
    const x: real
    const y: real
    const anchor: Point
    const states: seq<TimedState> := FlowerStates
    var scale: real
    var opacity: real
    var stateIndex: nat
    var stateTime: real
    var currentTime: real
    var kill: bool

    /** The sprite's fields as a value. */
    function View(): SpriteView
      reads this
    {
      SpriteView(index, frame, x, y, anchor, scale, opacity, stateIndex, stateTime, currentTime, kill)
    }

    /** The state index stays within the state list, or one past its end. */
    ghost predicate Valid()
      reads this
    {
      stateIndex <= |states|
    }

    constructor (x: real, y: real, index: nat, frame: Rect, scale: real, opacity: real, anchor: Point)
      ensures Valid()
      ensures View() == NewSprite(index, frame, x, y, scale, opacity, anchor)
    {
      this.index := index;
      this.frame := frame;
      this.x := x;
      this.y := y;
      this.anchor := anchor;
      new;
      SetState(0);
      this.scale := scale;
      this.opacity := opacity;
      currentTime := 0.0;
      kill := false;
    }

    /** The `state` setter: enter state `index` with its timer at 0. */
    method SetState(index: nat)
      modifies this
      ensures View() == old(View()).(stateIndex := index, stateTime := 0.0)
    {
      stateIndex := index;
      stateTime := 0.0;
    }

    /** The `state` getter. */
    function State(): Option<TimedState>
      reads this
    {
      CurrentState(states, stateIndex)
    }

    function HitTest(p: Point): bool
      reads this
    {
      Covers(View(), p)
    }

    method Update(dt: real)
      modifies this
      ensures View() == Step(states, old(View()), dt)
      ensures old(Valid()) ==> Valid()
    {
      stateTime := stateTime + dt;
      var state := State();
      if state.None? {
        kill := true;
        return;
      }
      var delta := stateTime / state.value.duration;
      if delta > 1.0 {
        SetState(stateIndex + 1);
      }
      if state.value.mode == "spawn" {
        scale := delta;
        opacity := delta;
      } else if state.value.mode == "static" {
        scale := 1.0;
        opacity := 1.0;
      } else {
        scale := 1.0 + delta;
        var newOpacity := 1.0 - delta;
        opacity := if newOpacity < 0.0 then 0.0 else newOpacity;
      }
    }
  }
}
