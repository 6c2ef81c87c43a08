/**
 * The walking-bucket demo: a list of walking sprites that only grows, by
 * `spawn`, and an update that steps every sprite once without adding,
 * removing or reordering any. The last spawned sprite is also kept as
 * `bucket`.
 */
module WalkGame {
  import opened Common
  import opened Sheet
  import opened WalkSprite

  /** The walker `spawn` creates: at (150, 180), centred anchor, walking, sized by the sheet's first frame, no frame looked up yet. */
  function Spawned(json: seq<FrameInfo>): (v: WalkView)
    requires |json| >= 1
  {
    WalkView(json[0].sourceSize.w, json[0].sourceSize.h, json, Point(0.5, 0.5),
             StateTable["walk"], 1.0, 1.0, 150.0, 180.0, 0.0, None)
  }

  /** A spawned walker is in the walk state, starts its animation at time 0 and is playable. */
  lemma SpawnedWalks(json: seq<FrameInfo>)
    requires |json| >= 1
    ensures Spawned(json).state == Walk && Playable(Spawned(json).state)
    ensures Spawned(json).currentTime == 0.0 && Spawned(json).frameData == None
    ensures Spawned(json).width == json[0].sourceSize.w && Spawned(json).height == json[0].sourceSize.h
  {
  }

  /** Every walker of the list updated once, in order. */
  function StepAll(vs: seq<WalkView>, dt: real): seq<WalkView>
    requires forall i :: 0 <= i < |vs| ==> Playable(vs[i].state)
  {
    seq(|vs|, i requires 0 <= i < |vs| => Step(vs[i], dt))
  }

  /** What the game can do to its list. */
  datatype Op = SpawnOp | UpdateOp(dt: real)

  /** The walker list after the operations `ops`, in order, starting from `vs`. */
  function Apply(json: seq<FrameInfo>, vs: seq<WalkView>, ops: seq<Op>): seq<WalkView>
    requires |json| >= 1
    requires forall i :: 0 <= i < |vs| ==> Playable(vs[i].state)
    decreases |ops|
  {
    if ops == [] then vs
    else
      var next := if ops[0].SpawnOp? then vs + [Spawned(json)] else StepAll(vs, ops[0].dt);
      assert forall i :: 0 <= i < |next| ==> Playable(next[i].state);
      Apply(json, next, ops[1..])
  }

  /** How many spawns `ops` holds. */
  function Spawns(ops: seq<Op>): nat
    decreases |ops|
  {
    if ops == [] then 0 else (if ops[0].SpawnOp? then 1 else 0) + Spawns(ops[1..])
  }

  /** The frame times of the updates among `ops`, in order. */
  function UpdateDts(ops: seq<Op>): seq<real>
    decreases |ops|
  {
    if ops == [] then [] else (if ops[0].UpdateOp? then [ops[0].dt] else []) + UpdateDts(ops[1..])
  }

  /**
   * The list only grows and only by `spawn`: after any operations it holds
   * one walker per walker it started with plus one per spawn, and the
   * walkers it started with stay in front, in their order, each one the old
   * walker updated by every update's `dt` in turn.
   */
  lemma {:induction false} ListOnlyGrows(json: seq<FrameInfo>, vs: seq<WalkView>, ops: seq<Op>)
    requires |json| >= 1
    requires forall i :: 0 <= i < |vs| ==> Playable(vs[i].state)
    ensures |Apply(json, vs, ops)| == |vs| + Spawns(ops)
    ensures forall i :: 0 <= i < |vs| ==> Apply(json, vs, ops)[i] == RunWalk(vs[i], UpdateDts(ops))
    ensures forall i :: 0 <= i < |vs| ==> Apply(json, vs, ops)[i].state == vs[i].state
    decreases |ops|
  {
    forall i | 0 <= i < |vs| {
      RunKeepsState(vs[i], UpdateDts(ops));
    }
    if ops != [] {
      var next := if ops[0].SpawnOp? then vs + [Spawned(json)] else StepAll(vs, ops[0].dt);
      assert forall i :: 0 <= i < |next| ==> Playable(next[i].state);
      ListOnlyGrows(json, next, ops[1..]);
      var later := UpdateDts(ops[1..]);
      if ops[0].UpdateOp? {
        var dt := ops[0].dt;
        assert UpdateDts(ops) == [dt] + later;
        assert ([dt] + later)[0] == dt && ([dt] + later)[1..] == later;
        assert forall i :: 0 <= i < |vs| ==> next[i] == Step(vs[i], dt);
      } else {
        assert UpdateDts(ops) == later;
        assert forall i :: 0 <= i < |vs| ==> next[i] == vs[i];
      }
    }
  }

  /** Updates alone never change the list's length or the walkers' states. */
  lemma UpdateKeepsTheList(vs: seq<WalkView>, dt: real)
    requires forall i :: 0 <= i < |vs| ==> Playable(vs[i].state)
    ensures |StepAll(vs, dt)| == |vs|
    ensures forall i :: 0 <= i < |vs| ==> StepAll(vs, dt)[i].state == vs[i].state &&
                                          StepAll(vs, dt)[i].json == vs[i].json
  {
  }

  /**
   * The first update of the freshly started game by a quarter second moves
   * the walker 30 pixels to the right and shows frame 2 of the sheet.
   */
  lemma FirstQuarterSecond(json: seq<FrameInfo>)
    requires |json| > 2
    ensures StepAll([Spawned(json)], 0.25) == [Spawned(json).(x := 180.0, currentTime := 0.25, frameData := Some(json[2]))]
  {
    DurationPositive(Walk);
    assert 0.25 / 1.0 * 8.0 == 2.0;
  }

  /** The values of the walkers `ss`, in order. */
  function ViewsOf(ss: seq<Sprite>): seq<WalkView>
    reads ss
  {
    seq(|ss|, i requires 0 <= i < |ss| reads ss => ss[i].View())
  }

  class Game {
    /** The sheet's frame list, loaded once. */
    const json: seq<FrameInfo>
    var sprites: seq<Sprite>
    var bucket: Sprite?

    /** The sheet has a first frame; no walker is listed twice; every walker is valid; `bucket` is the last walker. */
    ghost predicate Valid()
      reads this, sprites
    {
      |json| >= 1 && Distinct(sprites) && (forall i :: 0 <= i < |sprites| ==> sprites[i].Valid()) &&
      |sprites| >= 1 && bucket == sprites[|sprites| - 1]
    }

    /** The constructor followed by `init`: one spawn into the empty list. */
    constructor (json: seq<FrameInfo>)
      requires |json| >= 1
      ensures Valid()
      ensures ViewsOf(sprites) == [Spawned(json)]
    {
      this.json := json;
      sprites := [];
      bucket := null;
      new;
      Spawn();
    }

    /** `spawn`: one new walker at the end of the list, which also becomes `bucket`. */
    method Spawn()
      requires |json| >= 1 && Distinct(sprites) && forall i :: 0 <= i < |sprites| ==> sprites[i].Valid()
      modifies this
      ensures Valid()
      ensures bucket != null && fresh(bucket) && sprites == old(sprites) + [bucket]
      ensures ViewsOf(sprites) == old(ViewsOf(sprites)) + [Spawned(json)]
    {
      var frameData := json[0];
      var sprite := new Sprite(150.0, 180.0, frameData.sourceSize.w, frameData.sourceSize.h, None,
                               Point(0.5, 0.5), json, "walk", 1.0, 1.0);
      bucket := sprite;
      ghost var before := sprites;
      sprites := sprites + [sprite];
      assert ViewsOf(sprites) == ViewsOf(before) + [sprite.View()];
    }

    /** `update(dt)`: every walker updated once, in list order; the list and `bucket` stay as they are. */
    method Update(dt: real)
      requires Valid()
      modifies sprites
      ensures Valid()
      ensures sprites == old(sprites) && bucket == old(bucket)
      ensures forall i :: 0 <= i < |old(ViewsOf(sprites))| ==> Playable(old(ViewsOf(sprites))[i].state)
      ensures ViewsOf(sprites) == StepAll(old(ViewsOf(sprites)), dt)
    {
      ghost var w := ViewsOf(sprites);
      for i := 0 to |sprites|
        invariant forall k :: 0 <= k < |sprites| ==> sprites[k].View() == if k < i then Step(w[k], dt) else w[k]
      {
        sprites[i].Update(dt);
      }
      assert ViewsOf(sprites) == StepAll(w, dt);
    }
  }
}
