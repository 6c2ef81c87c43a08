/** Small helpers shared by every part of the model. */
module Common {

  /** A value that may be missing; JavaScript's `undefined` is `None`. */
  datatype Option<+T> = None | Some(value: T)

  /** No object occurs twice in `s`: every sprite in a game's list is its own object. */
  predicate Distinct<T(==)>(s: seq<T>)
  {
    forall i, j :: 0 <= i < j < |s| ==> s[i] != s[j]
  }

  /**
   * Keeping the head of a list of distinct elements in front of elements
   * drawn from its tail (and distinct when the tail is) keeps them distinct.
   */
  lemma DistinctPrepend<T>(s: seq<T>, r: seq<T>)
    requires |s| > 0
    requires forall x :: x in r ==> x in s[1..]
    requires Distinct(s[1..]) ==> Distinct(r)
    ensures Distinct(s) ==> Distinct([s[0]] + r)
  {
    if Distinct(s) {
      assert Distinct(s[1..]);
      assert forall j :: 0 <= j < |s[1..]| ==> s[1..][j] == s[j + 1];
      assert s[0] !in s[1..];
    }
  }
}

/**
 * The sprite-sheet metadata that both games load once at startup and never
 * change afterwards, and the plain geometry that goes with it.
 */
module Sheet {

  /** A point (or a 2-vector: an anchor fraction, a motion per second) in canvas space. */
  datatype Point = Point(x: real, y: real)

  /** A rectangle, in pixels of the sprite-sheet bitmap or of the untrimmed frame. */
  datatype Rect = Rect(x: real, y: real, w: real, h: real)

  /** A width and a height. */
  datatype Size = Size(w: real, h: real)

  /**
   * One entry of the sheet's `frames` list: where the frame lies in the bitmap
   * (`frame`), where the trimmed image lies in the untrimmed one
   * (`spriteSourceSize`) and the untrimmed size (`sourceSize`).
   */
  datatype FrameInfo = FrameInfo(frame: Rect, spriteSourceSize: Rect, sourceSize: Size)
}
