/**
 * The tap-the-flower game: an ordered list of flower sprites, a score and a
 * spawn timer. A tap marks every flower under the pointer and scores one per
 * flower; an update lets the timer run, spawns a flower once more than a
 * second has accumulated, drops the killed flowers in order and updates the
 * rest.
 *
 * `Game` keeps the source's fields; `View()` reads them as a `GameView` value
 * and each method's contract relates the new value to the old one through the
 * functions below, about which the lemmas are proved.
 */
module FlowerGame {
  import opened Common
  import opened Sheet
  import opened FlowerSprite

  /** The pointer coordinates of a mouse event, relative to the viewport. */
  datatype MouseEvent = MouseEvent(clientX: real, clientY: real)

  /** The canvas's top-left corner relative to the viewport. */
  datatype ClientRect = ClientRect(left: real, top: real)

  /**
   * `getMousePos`, mouse branch: the pointer relative to the canvas's corner,
   * scaled by the ratio of the canvas's bitmap width to its displayed width.
   */
  function MousePos(e: MouseEvent, rect: ClientRect, canvasWidth: real, offsetWidth: real): Point
    requires offsetWidth != 0.0
  {
    var canvasScale := canvasWidth / offsetWidth;
    Point((e.clientX - rect.left) * canvasScale, (e.clientY - rect.top) * canvasScale)
  }

  /** Where on the viewport a pointer must be for `MousePos` to give `p`. */
  function ClientOf(p: Point, rect: ClientRect, canvasWidth: real, offsetWidth: real): MouseEvent
    requires canvasWidth != 0.0 && offsetWidth != 0.0
  {
    var canvasScale := canvasWidth / offsetWidth;
    MouseEvent(p.x / canvasScale + rect.left, p.y / canvasScale + rect.top)
  }

  /** `a / k * k == a` and `a * k / k == a` for a non-zero `k`. */
  lemma ScaleCancels(a: real, k: real)
    requires k != 0.0
    ensures a / k * k == a
    ensures a * k / k == a
  {
  }

  /** The canvas ratio of a displayed canvas is non-zero when its bitmap width is. */
  lemma RatioNonZero(canvasWidth: real, offsetWidth: real)
    requires canvasWidth != 0.0 && offsetWidth != 0.0
    ensures canvasWidth / offsetWidth != 0.0
  {
    assert canvasWidth / offsetWidth * offsetWidth == canvasWidth;
  }

  /** Viewport and canvas coordinates convert into each other without loss. */
  lemma MousePosRoundTrip(e: MouseEvent, p: Point, rect: ClientRect, canvasWidth: real, offsetWidth: real)
    requires canvasWidth != 0.0 && offsetWidth != 0.0
    ensures MousePos(ClientOf(p, rect, canvasWidth, offsetWidth), rect, canvasWidth, offsetWidth) == p
    ensures ClientOf(MousePos(e, rect, canvasWidth, offsetWidth), rect, canvasWidth, offsetWidth) == e
  {
    var k := canvasWidth / offsetWidth;
    RatioNonZero(canvasWidth, offsetWidth);
    ScaleCancels(p.x, k);
    ScaleCancels(p.y, k);
    ScaleCancels(e.clientX - rect.left, k);
    ScaleCancels(e.clientY - rect.top, k);
  }

  /** A canvas shown at its own size maps the pointer by the corner offset alone. */
  lemma UnscaledCanvas(e: MouseEvent, rect: ClientRect, width: real)
    requires width != 0.0
    ensures MousePos(e, rect, width, width) == Point(e.clientX - rect.left, e.clientY - rect.top)
  {
    assert width / width == 1.0;
  }

  /** `Math.floor(random * 5)`: which of the first five flowers of the sheet to show. */
  function SpawnIndex(random: real): (i: nat)
    requires 0.0 <= random < 1.0
    ensures i < 5
    ensures i as real <= random * 5.0 < i as real + 1.0
  {
    (random * 5.0).Floor
  }

  /**
   * The sprite `spawn` creates from the three random numbers it draws: a flower
   * picked by the first, placed at the other two times the canvas size, at
   * scale 1, opacity 1 and centred anchor.
   */
  function Spawned(frames: seq<FrameInfo>, width: real, height: real, rIndex: real, rX: real, rY: real): SpriteView
    requires |frames| >= 5 && 0.0 <= rIndex < 1.0
  {
    var index := SpawnIndex(rIndex);
    NewSprite(index, frames[index].frame, rX * width, rY * height, 1.0, 1.0, Point(0.5, 0.5))
  }

  /** A spawned flower lies on the canvas and is a new, live sprite in its first state. */
  lemma SpawnedOnCanvas(frames: seq<FrameInfo>, width: real, height: real, rIndex: real, rX: real, rY: real)
    requires |frames| >= 5 && 0.0 <= rIndex < 1.0
    requires 0.0 <= rX < 1.0 && 0.0 <= rY < 1.0 && width > 0.0 && height > 0.0
    ensures 0.0 <= Spawned(frames, width, height, rIndex, rX, rY).x < width
    ensures 0.0 <= Spawned(frames, width, height, rIndex, rX, rY).y < height
    ensures Spawned(frames, width, height, rIndex, rX, rY).index < 5
    ensures Spawned(frames, width, height, rIndex, rX, rY).frame == frames[Spawned(frames, width, height, rIndex, rX, rY).index].frame
    ensures !Spawned(frames, width, height, rIndex, rX, rY).kill
    ensures Spawned(frames, width, height, rIndex, rX, rY).stateIndex == 0
  {
    FractionBelow(rX, width);
    FractionBelow(rY, height);
  }

  /** `0 <= r * w < w` for `0 <= r < 1` and a positive `w`. */
  lemma FractionBelow(r: real, w: real)
    requires 0.0 <= r < 1.0 && w > 0.0
    ensures 0.0 <= r * w < w
  {
    calc {
      r * w;
    < { assert (1.0 - r) * w > 0.0; }
      w;
    }
  }

  // ---- the spawn timer ----

  /** `update` spawns when the timer, advanced by `dt`, strictly exceeds one second. */
  predicate SpawnDue(sinceLastSpawn: real, dt: real)
  {
    sinceLastSpawn + dt > 1.0
  }

  /** The timer after `update`: advanced by `dt`, and reset to 0 by the spawn when one is due. */
  function TimerAfter(sinceLastSpawn: real, dt: real): (t: real)
    ensures t <= 1.0
    ensures t == 0.0 <==> SpawnDue(sinceLastSpawn, dt) || sinceLastSpawn + dt == 0.0
  {
    if SpawnDue(sinceLastSpawn, dt) then 0.0 else sinceLastSpawn + dt
  }

  /** How many spawns the updates `dts` cause, starting from timer value `t`. */
  function SpawnCount(t: real, dts: seq<real>): nat
    decreases |dts|
  {
    if dts == [] then 0
    else (if SpawnDue(t, dts[0]) then 1 else 0) + SpawnCount(TimerAfter(t, dts[0]), dts[1..])
  }

  /** `n` updates of exactly one second each. */
  function Seconds(n: nat): (dts: seq<real>)
    ensures |dts| == n
    ensures forall i :: 0 <= i < n ==> dts[i] == 1.0
  {
    if n == 0 then [] else [1.0] + Seconds(n - 1)
  }

  /**
   * Because the timer must STRICTLY exceed one second, updates of exactly one
   * second spawn only on every second update: `n` of them from a reset timer
   * spawn `n / 2` flowers, and from a timer at 1 they spawn `(n + 1) / 2`.
   */
  lemma {:induction false} OneSecondTicks(n: nat)
    ensures SpawnCount(0.0, Seconds(n)) == n / 2
    ensures SpawnCount(1.0, Seconds(n)) == (n + 1) / 2
  {
    if n > 0 {
      OneSecondTicks(n - 1);
      assert Seconds(n)[1..] == Seconds(n - 1);
      assert TimerAfter(0.0, 1.0) == 1.0;
      assert TimerAfter(1.0, 1.0) == 0.0;
    }
  }

  // ---- tapping ----

  /** One sprite after a tap at `p`: marked `kill` when the tap hits it. */
  function Marked(v: SpriteView, p: Point): SpriteView
  {
    if Covers(v, p) then v.(kill := true) else v
  }

  /** The sprite list after a tap at `p`. */
  function Tapped(vs: seq<SpriteView>, p: Point): seq<SpriteView>
  {
    seq(|vs|, i requires 0 <= i < |vs| => Marked(vs[i], p))
  }

  /** How many sprites of `vs` the tap at `p` hits, whether or not they are already marked. */
  function Hits(vs: seq<SpriteView>, p: Point): nat
    decreases |vs|
  {
    if vs == [] then 0 else (if Covers(vs[0], p) then 1 else 0) + Hits(vs[1..], p)
  }

  /** The hits of two lists add up. */
  lemma {:induction false} HitsAppend(a: seq<SpriteView>, b: seq<SpriteView>, p: Point)
    ensures Hits(a + b, p) == Hits(a, p) + Hits(b, p)
    decreases |a|
  {
    if a != [] {
      assert (a + b)[0] == a[0] && (a + b)[1..] == a[1..] + b;
      HitsAppend(a[1..], b, p);
    } else {
      assert a + b == b;
    }
  }

  /** A tap scores between 0 and the number of sprites: 0 exactly when it misses them all, all of them exactly when it hits them all. */
  lemma {:induction false} HitsBounds(vs: seq<SpriteView>, p: Point)
    ensures Hits(vs, p) <= |vs|
    ensures Hits(vs, p) == 0 <==> forall i :: 0 <= i < |vs| ==> !Covers(vs[i], p)
    ensures Hits(vs, p) == |vs| <==> forall i :: 0 <= i < |vs| ==> Covers(vs[i], p)
    decreases |vs|
  {
    if vs != [] {
      HitsBounds(vs[1..], p);
      assert forall i :: 1 <= i < |vs| ==> vs[i] == vs[1..][i - 1];
    }
  }

  /** A tap marks exactly the sprites it hits and changes nothing else: not the length, not the order, no other field. */
  lemma TappedMarksTheHit(vs: seq<SpriteView>, p: Point)
    ensures |Tapped(vs, p)| == |vs|
    ensures forall i :: 0 <= i < |vs| ==> (Tapped(vs, p)[i].kill <==> vs[i].kill || Covers(vs[i], p))
    ensures forall i :: 0 <= i < |vs| ==> Tapped(vs, p)[i].(kill := vs[i].kill) == vs[i]
  {
    assert forall i :: 0 <= i < |vs| ==> Tapped(vs, p)[i] == Marked(vs[i], p);
  }

  /**
   * Marking does not move or shrink a sprite, so a second tap at the same
   * point before the next update hits the same sprites and scores again.
   */
  lemma {:induction false} TapAgainScoresAgain(vs: seq<SpriteView>, p: Point)
    ensures Hits(Tapped(vs, p), p) == Hits(vs, p)
    decreases |vs|
  {
    if vs != [] {
      assert Tapped(vs, p)[1..] == Tapped(vs[1..], p);
      assert Tapped(vs, p)[0] == Marked(vs[0], p);
      TapAgainScoresAgain(vs[1..], p);
    }
  }

  // ---- dropping the killed sprites ----

  /** `sprites.filter(sprite => !sprite.kill)`. */
  function Survivors(vs: seq<SpriteView>): seq<SpriteView>
    decreases |vs|
  {
    if vs == [] then [] else (if vs[0].kill then [] else [vs[0]]) + Survivors(vs[1..])
  }

  /** A sprite survives exactly when it is in the list and not marked. */
  lemma {:induction false} SurvivorsMembers(vs: seq<SpriteView>, v: SpriteView)
    ensures v in Survivors(vs) <==> v in vs && !v.kill
    decreases |vs|
  {
    if vs != [] {
      SurvivorsMembers(vs[1..], v);
      assert vs == [vs[0]] + vs[1..];
    }
  }

  /** Filtering a concatenation filters each part: the survivors keep their relative order. */
  lemma {:induction false} SurvivorsAppend(a: seq<SpriteView>, b: seq<SpriteView>)
    ensures Survivors(a + b) == Survivors(a) + Survivors(b)
    decreases |a|
  {
    if a != [] {
      assert (a + b)[0] == a[0] && (a + b)[1..] == a[1..] + b;
      SurvivorsAppend(a[1..], b);
    } else {
      assert a + b == b;
    }
  }

  /** The filter never lengthens the list, and leaves it as it is exactly when no sprite is marked. */
  lemma {:induction false} SurvivorsKeepsUnmarked(vs: seq<SpriteView>)
    ensures |Survivors(vs)| <= |vs|
    ensures Survivors(vs) == vs <==> forall i :: 0 <= i < |vs| ==> !vs[i].kill
    decreases |vs|
  {
    if vs != [] {
      SurvivorsKeepsUnmarked(vs[1..]);
      assert forall i :: 1 <= i < |vs| ==> vs[i] == vs[1..][i - 1];
      if vs[0].kill {
        assert |Survivors(vs)| < |vs|;
      } else if Survivors(vs) == vs {
        assert Survivors(vs[1..]) == vs[1..];
      }
    }
  }

  /** After a tap, no sprite the tap hit is left by the next filter. */
  lemma NoSurvivorIsHit(vs: seq<SpriteView>, p: Point, v: SpriteView)
    requires v in Survivors(Tapped(vs, p))
    ensures !Covers(v, p)
    ensures exists i :: 0 <= i < |vs| && vs[i] == v && !vs[i].kill
  {
    SurvivorsMembers(Tapped(vs, p), v);
    var i :| 0 <= i < |vs| && Tapped(vs, p)[i] == v;
    assert Tapped(vs, p)[i] == Marked(vs[i], p);
  }

  /**
   * When no sprite was marked before the tap, the tap's score is exactly the
   * number of sprites the next filter drops.
   */
  lemma {:induction false} ScoreCountsTheDropped(vs: seq<SpriteView>, p: Point)
    requires forall i :: 0 <= i < |vs| ==> !vs[i].kill
    ensures |Survivors(Tapped(vs, p))| + Hits(vs, p) == |vs|
    decreases |vs|
  {
    if vs != [] {
      assert Tapped(vs, p)[1..] == Tapped(vs[1..], p);
      assert Tapped(vs, p)[0] == Marked(vs[0], p);
      assert forall i :: 0 <= i < |vs[1..]| ==> vs[1..][i] == vs[i + 1];
      ScoreCountsTheDropped(vs[1..], p);
    }
  }

  /** Every sprite of the list updated once, in order. */
  function StepAll(states: seq<TimedState>, vs: seq<SpriteView>, dt: real): seq<SpriteView>
    requires WellFormed(states)
  {
    seq(|vs|, i requires 0 <= i < |vs| => Step(states, vs[i], dt))
  }

  // ---- the whole game ----

  /** The game's fields that the logic reads or writes. */
  datatype GameView = GameView(sprites: seq<SpriteView>, score: nat, sinceLastSpawn: real)

  /** `init`: score 0 and one spawn into the empty list the constructor made. */
  function Started(frames: seq<FrameInfo>, width: real, height: real, rIndex: real, rX: real, rY: real): GameView
    requires |frames| >= 5 && 0.0 <= rIndex < 1.0
  {
    GameView([Spawned(frames, width, height, rIndex, rX, rY)], 0, 0.0)
  }

  /** `spawn`: one new sprite appended, the timer reset. */
  function AfterSpawn(frames: seq<FrameInfo>, width: real, height: real, g: GameView, rIndex: real, rX: real, rY: real): GameView
    requires |frames| >= 5 && 0.0 <= rIndex < 1.0
  {
    g.(sprites := g.sprites + [Spawned(frames, width, height, rIndex, rX, rY)], sinceLastSpawn := 0.0)
  }

  /** `tap` at canvas point `p`: the hit sprites marked, one point per hit. */
  function AfterTap(g: GameView, p: Point): GameView
  {
    g.(sprites := Tapped(g.sprites, p), score := g.score + Hits(g.sprites, p))
  }

  /** `update(dt)`: the timer, a spawn when due, the filter, and one update of every survivor. */
  function AfterUpdate(frames: seq<FrameInfo>, width: real, height: real, g: GameView, dt: real, rIndex: real, rX: real, rY: real): GameView
    requires |frames| >= 5 && 0.0 <= rIndex < 1.0
  {
    var t := g.sinceLastSpawn + dt;
    var g1 := if t > 1.0 then AfterSpawn(frames, width, height, g.(sinceLastSpawn := t), rIndex, rX, rY)
              else g.(sinceLastSpawn := t);
    g1.(sprites := StepAll(FlowerStates, Survivors(g1.sprites), dt))
  }

  /** The states of every flower are well formed. */
  lemma FlowerStatesWellFormed()
    ensures WellFormed(FlowerStates)
  {
  }

  /**
   * `update` keeps the score, sets the timer as `TimerAfter` says, and leaves
   * the survivors of the old list, updated once and in their old order,
   * followed by the freshly spawned flower, updated once, exactly when a spawn
   * was due.
   */
  lemma UpdateTimerAndList(frames: seq<FrameInfo>, width: real, height: real, g: GameView, dt: real, rIndex: real, rX: real, rY: real)
    requires |frames| >= 5 && 0.0 <= rIndex < 1.0
    ensures AfterUpdate(frames, width, height, g, dt, rIndex, rX, rY).score == g.score
    ensures AfterUpdate(frames, width, height, g, dt, rIndex, rX, rY).sinceLastSpawn == TimerAfter(g.sinceLastSpawn, dt)
    ensures |AfterUpdate(frames, width, height, g, dt, rIndex, rX, rY).sprites| ==
              |Survivors(g.sprites)| + if SpawnDue(g.sinceLastSpawn, dt) then 1 else 0
    ensures AfterUpdate(frames, width, height, g, dt, rIndex, rX, rY).sprites[..|Survivors(g.sprites)|] ==
              StepAll(FlowerStates, Survivors(g.sprites), dt)
    ensures SpawnDue(g.sinceLastSpawn, dt) ==>
              AfterUpdate(frames, width, height, g, dt, rIndex, rX, rY).sprites[|Survivors(g.sprites)|] ==
              Step(FlowerStates, Spawned(frames, width, height, rIndex, rX, rY), dt)
  {
    var s := Spawned(frames, width, height, rIndex, rX, rY);
    SurvivorsAppend(g.sprites, [s]);
    assert Survivors([s]) == [s];
  }

  /** From a reset timer an update of exactly one second spawns nothing. */
  lemma NoSpawnAfterExactlyOneSecond(frames: seq<FrameInfo>, width: real, height: real, g: GameView, rIndex: real, rX: real, rY: real)
    requires |frames| >= 5 && 0.0 <= rIndex < 1.0
    requires g.sinceLastSpawn == 0.0
    ensures AfterUpdate(frames, width, height, g, 1.0, rIndex, rX, rY).sprites == StepAll(FlowerStates, Survivors(g.sprites), 1.0)
    ensures AfterUpdate(frames, width, height, g, 1.0, rIndex, rX, rY).sinceLastSpawn == 1.0
  {
  }

  /**
   * `update` keeps every flower's state index within the state list or one
   * past its end: the survivors come from the old list or are the new spawn,
   * which starts in state 0, and one update never passes the end.
   */
  lemma UpdateKeepsIndexBound(frames: seq<FrameInfo>, width: real, height: real, g: GameView, dt: real, rIndex: real, rX: real, rY: real)
    requires |frames| >= 5 && 0.0 <= rIndex < 1.0
    requires forall i :: 0 <= i < |g.sprites| ==> g.sprites[i].stateIndex <= |FlowerStates|
    ensures forall i :: 0 <= i < |AfterUpdate(frames, width, height, g, dt, rIndex, rX, rY).sprites| ==>
              AfterUpdate(frames, width, height, g, dt, rIndex, rX, rY).sprites[i].stateIndex <= |FlowerStates|
  {
    var t := g.sinceLastSpawn + dt;
    var all := if t > 1.0 then g.sprites + [Spawned(frames, width, height, rIndex, rX, rY)] else g.sprites;
    assert forall v :: v in all ==> v.stateIndex <= |FlowerStates|;
    var kept := Survivors(all);
    forall i | 0 <= i < |kept|
      ensures kept[i].stateIndex <= |FlowerStates|
    {
      SurvivorsMembers(all, kept[i]);
    }
    assert AfterUpdate(frames, width, height, g, dt, rIndex, rX, rY).sprites == StepAll(FlowerStates, kept, dt);
  }

  /** A tap scores exactly its hits, keeps the timer, and keeps the list's length. */
  lemma TapScoresTheHits(g: GameView, p: Point)
    ensures AfterTap(g, p).score == g.score + Hits(g.sprites, p)
    ensures g.score <= AfterTap(g, p).score <= g.score + |g.sprites|
    ensures AfterTap(g, p).sinceLastSpawn == g.sinceLastSpawn
    ensures |AfterTap(g, p).sprites| == |g.sprites|
  {
    HitsBounds(g.sprites, p);
  }

  /**
   * Two flowers whose circles both contain the tap point score two points
   * with one tap, and after the next update, whatever its `dt`, neither is
   * left: the list holds only the flower that update spawns, if it spawns.
   */
  lemma OverlappingFlowersBothScore(a: SpriteView, b: SpriteView, p: Point, frames: seq<FrameInfo>, width: real, height: real, dt: real, rIndex: real, rX: real, rY: real)
    requires Covers(a, p) && Covers(b, p)
    requires |frames| >= 5 && 0.0 <= rIndex < 1.0
    ensures AfterTap(GameView([a, b], 0, 0.0), p).score == 2
    ensures AfterUpdate(frames, width, height, AfterTap(GameView([a, b], 0, 0.0), p), dt, rIndex, rX, rY).sprites ==
              if dt > 1.0 then [Step(FlowerStates, Spawned(frames, width, height, rIndex, rX, rY), dt)] else []
  {
    var t := Tapped([a, b], p);
    HitsBounds([a, b], p);
    TappedMarksTheHit([a, b], p);
    if Survivors(t) != [] {
      SurvivorsMembers(t, Survivors(t)[0]);
      assert false;
    }
    var s := Spawned(frames, width, height, rIndex, rX, rY);
    SurvivorsAppend(t, [s]);
    assert Survivors([s]) == [s];
  }

  // ---- the objects ----

  /** The values of the sprites `ss`, in order. */
  function ViewsOf(ss: seq<Sprite>): seq<SpriteView>
    reads ss
  {
    seq(|ss|, i requires 0 <= i < |ss| reads ss => ss[i].View())
  }

  lemma ViewsOfCons(s: Sprite, ss: seq<Sprite>)
    ensures ViewsOf([s] + ss) == [s.View()] + ViewsOf(ss)
  {
  }

  /** `filter` on the sprite objects: the unmarked ones, in order. */
  function Alive(ss: seq<Sprite>): (r: seq<Sprite>)
    reads ss
    ensures ViewsOf(r) == Survivors(ViewsOf(ss))
    ensures forall s :: s in r ==> s in ss
    ensures Distinct(ss) ==> Distinct(r)
    decreases |ss|
  {
    if ss == [] then []
    else
      var rest := Alive(ss[1..]);
      assert forall s :: s in rest ==> s in ss;
      assert ViewsOf(ss)[1..] == ViewsOf(ss[1..]);
      if ss[0].kill then rest
      else
        ViewsOfCons(ss[0], rest);
        DistinctPrepend(ss, rest);
        [ss[0]] + rest
  }

  class Game {
    /** The sheet's frame list, loaded once. */
    const frames: seq<FrameInfo>
    /** The canvas's bitmap size. */
    const width: real
    const height: real
    var sprites: seq<Sprite>
    var score: nat
    var sinceLastSpawn: real

    function View(): GameView
      reads this, sprites
    {
      GameView(ViewsOf(sprites), score, sinceLastSpawn)
    }

    /** The sheet has the five flowers `spawn` picks from, and no sprite is listed twice. */
    ghost predicate Valid()
      reads this
    {
      |frames| >= 5 && Distinct(sprites)
    }

    /** The constructor followed by `init`: score 0 and the first spawn. */
    constructor (frames: seq<FrameInfo>, width: real, height: real, rIndex: real, rX: real, rY: real)
      requires |frames| >= 5 && 0.0 <= rIndex < 1.0
      ensures Valid()
      ensures fresh(sprites)
      ensures View() == Started(frames, width, height, rIndex, rX, rY)
    {
      this.frames := frames;
      this.width := width;
      this.height := height;
      sprites := [];
      new;
      score := 0;
      Spawn(rIndex, rX, rY);
    }

    /** `spawn`: a new flower at the end of the list, and the timer reset. */
    method Spawn(rIndex: real, rX: real, rY: real)
      requires Valid() && 0.0 <= rIndex < 1.0
      modifies this
      ensures Valid()
      ensures |sprites| == |old(sprites)| + 1 && sprites[..|old(sprites)|] == old(sprites)
      ensures fresh(sprites[|old(sprites)|])
      ensures View() == AfterSpawn(frames, width, height, old(View()), rIndex, rX, rY)
    {
      var index := SpawnIndex(rIndex);
      var frame := frames[index].frame;
      var sprite := new Sprite(rX * width, rY * height, index, frame, 1.0, 1.0, Point(0.5, 0.5));
      ghost var before := sprites;
      sprites := sprites + [sprite];
      sinceLastSpawn := 0.0;
      assert sprites[..|before|] == before;
      assert ViewsOf(sprites) == ViewsOf(before) + [sprite.View()];
    }

    /** `tap`: every flower under the pointer is marked and scores a point. */
    method Tap(e: MouseEvent, rect: ClientRect, offsetWidth: real)
      requires Valid() && offsetWidth != 0.0
      modifies this`score, sprites
      ensures Valid()
      ensures sprites == old(sprites)
      ensures View() == AfterTap(old(View()), MousePos(e, rect, width, offsetWidth))
    {
      var pos := MousePos(e, rect, width, offsetWidth);
      ghost var v0 := ViewsOf(sprites);
      for i := 0 to |sprites|
        invariant forall k :: 0 <= k < |sprites| ==> sprites[k].View() == if k < i then Marked(v0[k], pos) else v0[k]
        invariant score + Hits(v0[i..], pos) == old(score) + Hits(v0, pos)
      {
        TapSprite(sprites[i], pos);
        assert v0[i..][1..] == v0[i + 1..];
      }
      assert ViewsOf(sprites) == Tapped(v0, pos);
    }

    /** One pass of `tap`'s loop: a flower under the pointer is killed and scores one point. */
    method TapSprite(sprite: Sprite, pos: Point)
      modifies this`score, sprite
      ensures sprite.View() == Marked(old(sprite.View()), pos)
      ensures score == old(score) + if Covers(old(sprite.View()), pos) then 1 else 0
    {
      if sprite.HitTest(pos) {
        sprite.kill := true;
        score := score + 1;
      }
    }

    /** `update(dt)`: the timer, a spawn when due, the filter, and every survivor updated once. */
    method Update(dt: real, rIndex: real, rX: real, rY: real)
      requires Valid() && 0.0 <= rIndex < 1.0
      modifies this, sprites
      ensures Valid()
      ensures View() == AfterUpdate(frames, width, height, old(View()), dt, rIndex, rX, rY)
    {
      FlowerStatesWellFormed();
      AdvanceTimer(dt, rIndex, rX, rY);
      ghost var g1 := View();
      sprites := Alive(sprites);
      ghost var survivors := ViewsOf(sprites);
      assert survivors == Survivors(g1.sprites);
      assert forall k :: 0 <= k < |sprites| ==> sprites[k] in old(sprites) || fresh(sprites[k]);
      UpdateSprites(dt);
      assert ViewsOf(sprites) == StepAll(FlowerStates, survivors, dt);
    }

    /** The first part of `update`: the timer advances by `dt`, and a spawn resets it once it exceeds one second. */
    method AdvanceTimer(dt: real, rIndex: real, rX: real, rY: real)
      requires Valid() && 0.0 <= rIndex < 1.0
      modifies this
      ensures Valid()
      ensures forall s :: s in sprites ==> s in old(sprites) || fresh(s)
      ensures var timed := old(View()).(sinceLastSpawn := old(sinceLastSpawn) + dt);
              View() == if timed.sinceLastSpawn > 1.0 then AfterSpawn(frames, width, height, timed, rIndex, rX, rY) else timed
    {
      sinceLastSpawn := sinceLastSpawn + dt;
      if sinceLastSpawn > 1.0 {
        Spawn(rIndex, rX, rY);
        assert forall s :: s in sprites ==> s in old(sprites) || fresh(s) by {
          forall s | s in sprites
            ensures s in old(sprites) || fresh(s)
          {
            var j :| 0 <= j < |sprites| && sprites[j] == s;
          }
        }
      }
    }

    /** The loop of `update`: every listed sprite updated once, in list order. */
    method UpdateSprites(dt: real)
      requires Distinct(sprites)
      modifies sprites
      ensures ViewsOf(sprites) == StepAll(FlowerStates, old(ViewsOf(sprites)), dt)
    {
      FlowerStatesWellFormed();
      ghost var w := ViewsOf(sprites);
      for i := 0 to |sprites|
        invariant forall k :: 0 <= k < |sprites| ==> sprites[k].View() == if k < i then Step(FlowerStates, w[k], dt) else w[k]
      {
        sprites[i].Update(dt);
      }
      assert ViewsOf(sprites) == StepAll(FlowerStates, w, dt);
    }
  }
}
