/** Frame rectangles of atlas animations (editor/object_toolbar.py,
    `update_images`).

    An atlas animation is one texture holding equally sized frames, row by
    row. The toolbar visits an action's directions in ascending order and
    counts frames across all of them, so frame k of the action sits in
    column `k mod per_line` and row `k div per_line`, where `per_line` is
    the texture width divided by the frame width.

    The texture width is a float (CEGUI's `Sizef`), so the toolbar as
    written divides truly: `per_line` is fractional, frame k's row is
    `k / per_line` and its column `k % per_line` in floats, and frames leave
    the grid, overlap and overhang the texture (`AtlasFramesAsWritten`).
    The rest of the model uses the corrected layout (`AtlasFrames`): whole
    pixels divided as Python 2 divides integers, rounding towards minus
    infinity, which keeps every frame on the grid. */
module AtlasLayout {
  import opened Py
  import opened Xml
  import opened ObjectParser
  import opened Sets

  // ---------------------------------------------------------------------
  // Python 2 integer division

  /** `a / b` on Python 2 integers: the floor of the quotient. */
  function PyDiv(a: int, b: int): (q: int)
    requires b != 0
    ensures b > 0 ==> q * b <= a < q * b + b
    ensures b < 0 ==> q * b >= a > q * b + b
  {
    if b > 0 then a / b else (-a) / (-b)
  }

  /** `a % b` on Python 2 integers: the remainder takes the divisor's sign. */
  function PyMod(a: int, b: int): (m: int)
    requires b != 0
    ensures a == PyDiv(a, b) * b + m
    ensures b > 0 ==> 0 <= m < b
    ensures b < 0 ==> b < m <= 0
  {
    a - PyDiv(a, b) * b
  }

  // ---------------------------------------------------------------------
  // sorted(d.iteritems()): the directions are visited in ascending order.
  // Recursion below peels off the largest key last, so the smaller keys
  // are always handled first.

  // ---------------------------------------------------------------------
  // Frame slots and rectangles

  datatype Rect = Rect(x: int, y: int, width: int, height: int)

  /** An image the toolbar defines: its name and its area of the texture. */
  datatype Frame = Frame(name: string, area: Rect)

  /** Frame k's rectangle. */
  function FrameRect(k: int, perLine: int, frameWidth: int, frameHeight: int): Rect
    requires perLine != 0
  {
    Rect(PyMod(k, perLine) * frameWidth, PyDiv(k, perLine) * frameHeight, frameWidth, frameHeight)
  }

  /** `".".join([name, action, str(direction), str(frame_id)])`. */
  function FrameName(name: string, action: string, direction: int, frameId: int): string
  {
    JoinWith([name, action, IntToString(direction), IntToString(frameId)], '.')
  }

  /** `xrange(int(frames))`'s length: a negative count gives no frames. */
  function FrameCount(text: string): (c: Result<nat>)
    ensures c.Ok? <==> ParseInt(text).Ok?
    ensures c.Ok? ==> c.value == if ParseInt(text).value < 0 then 0 else ParseInt(text).value
  {
    var n :- ParseInt(text);
    Ok(if n < 0 then 0 else n)
  }

  /** The frame count of every direction, as `FrameCount` reads it. */
  function ParsedCounts(dirs: map<int, AtlasDirection>): (m: map<int, Result<nat>>)
    ensures m.Keys == dirs.Keys
    ensures forall d | d in dirs :: m[d] == FrameCount(dirs[d].frames)
  {
    map d | d in dirs :: FrameCount(dirs[d].frames)
  }

  /** Reads the frame counts of the directions `ds`, in ascending order,
      failing as the toolbar fails: at the first direction whose count is
      no integer, or with `ZeroDivisionError` at the first direction that
      has frames when `per_line` is zero (`zeroPerLine`), since each frame
      divides by it. `parsed` holds each direction's count as read. */
  function ReadCounts(ds: set<int>, parsed: map<int, Result<nat>>, zeroPerLine: bool): (r: Result<map<int, nat>>)
    requires ds <= parsed.Keys
    ensures r.Ok? <==>
      forall d | d in ds :: parsed[d].Ok? && (zeroPerLine ==> parsed[d].value == 0)
    ensures r.Raise? ==>
      exists d | d in ds ::
        && CountFails(parsed, zeroPerLine, d)
        && (forall d' | d' in ds && d' < d :: !CountFails(parsed, zeroPerLine, d'))
        && r.error == (if parsed[d].Raise? then parsed[d].error else ZeroDivisionError)
    ensures r.Ok? ==> r.value.Keys == ds
    ensures r.Ok? ==> forall d | d in ds :: parsed[d] == Ok(r.value[d])
    decreases ds
  {
    if ds == {} then Ok(map[])
    else
      var d := Max(ds);
      var below :- ReadCounts(ds - {d}, parsed, zeroPerLine);
      var count :- parsed[d];
      if count > 0 && zeroPerLine then Raise(ZeroDivisionError)
      else Ok(below[d := count])
  }

  /** Direction `d`'s count stops the toolbar: it is no integer, or it is
      positive while `per_line` is zero. */
  predicate CountFails(parsed: map<int, Result<nat>>, zeroPerLine: bool, d: int)
    requires d in parsed
  {
    parsed[d].Raise? || (parsed[d].value > 0 && zeroPerLine)
  }

  /** The (direction, frame id) pairs of the directions `ds`, in the order
      the toolbar visits them. */
  function Slots(ds: set<int>, counts: map<int, nat>): (r: seq<(int, int)>)
    requires ds <= counts.Keys
    decreases ds
  {
    if ds == {} then []
    else
      var d := Max(ds);
      Slots(ds - {d}, counts) + seq(counts[d], j => (d, j))
  }

  /** One direction's frames, numbered from `start`. */
  function DirectionFrames(name: string, action: string, d: int, count: nat, start: nat,
                           perLine: int, frameWidth: int, frameHeight: int): (r: seq<Frame>)
    requires perLine != 0
    ensures |r| == count
    ensures forall j | 0 <= j < count ::
      r[j] == Frame(FrameName(name, action, d, j), FrameRect(start + j, perLine, frameWidth, frameHeight))
    decreases count
  {
    if count == 0 then []
    else
      DirectionFrames(name, action, d, count - 1, start, perLine, frameWidth, frameHeight)
        + [Frame(FrameName(name, action, d, count - 1), FrameRect(start + count - 1, perLine, frameWidth, frameHeight))]
  }

  /** Frame k is named after the k-th (direction, frame id) pair and sits
      at the k-th cell of the atlas grid. */
  ghost predicate LaidOut(frames: seq<Frame>, name: string, action: string, slots: seq<(int, int)>,
                          perLine: int, frameWidth: int, frameHeight: int)
    requires perLine != 0
  {
    && |frames| == |slots|
    && forall k | 0 <= k < |frames| ::
         frames[k] == Frame(FrameName(name, action, slots[k].0, slots[k].1),
                            FrameRect(k, perLine, frameWidth, frameHeight))
  }

  /** The frames of the directions `ds`: ascending directions, the frame
      counter running on across them from 0. */
  function Layout(name: string, action: string, ds: set<int>, counts: map<int, nat>,
                  perLine: int, frameWidth: int, frameHeight: int): (r: seq<Frame>)
    requires perLine != 0 && ds <= counts.Keys
    ensures LaidOut(r, name, action, Slots(ds, counts), perLine, frameWidth, frameHeight)
    decreases ds
  {
    if ds == {} then []
    else
      var d := Max(ds);
      var before := Layout(name, action, ds - {d}, counts, perLine, frameWidth, frameHeight);
      LayoutStep(name, action, ds, counts, perLine, frameWidth, frameHeight, before);
      before + DirectionFrames(name, action, d, counts[d], |before|, perLine, frameWidth, frameHeight)
  }

  /** Laying out the largest direction after the others continues the
      frame counter where they stopped. */
  lemma LayoutStep(name: string, action: string, ds: set<int>, counts: map<int, nat>,
                   perLine: int, frameWidth: int, frameHeight: int, before: seq<Frame>)
    requires perLine != 0 && ds <= counts.Keys && ds != {}
    requires LaidOut(before, name, action, Slots(ds - {Max(ds)}, counts), perLine, frameWidth, frameHeight)
    ensures var d := Max(ds);
      LaidOut(before + DirectionFrames(name, action, d, counts[d], |before|, perLine, frameWidth, frameHeight),
              name, action, Slots(ds, counts), perLine, frameWidth, frameHeight)
  {
    var d := Max(ds);
    var tail := DirectionFrames(name, action, d, counts[d], |before|, perLine, frameWidth, frameHeight);
    var s0: seq<(int, int)> := Slots(ds - {d}, counts);
    var s1: seq<(int, int)> := seq(counts[d], j => (d, j));
    assert Slots(ds, counts) == s0 + s1;
    LaidOutAppend(before, tail, name, action, s0, s1, perLine, frameWidth, frameHeight);
  }

  /** Frames laid out for some slots, followed by frames laid out for the
      next slots from where they stopped, are laid out for all of them. */
  lemma LaidOutAppend(before: seq<Frame>, tail: seq<Frame>, name: string, action: string,
                      s0: seq<(int, int)>, s1: seq<(int, int)>, perLine: int, frameWidth: int, frameHeight: int)
    requires perLine != 0
    requires LaidOut(before, name, action, s0, perLine, frameWidth, frameHeight)
    requires |tail| == |s1|
    requires forall j | 0 <= j < |tail| ::
      tail[j] == Frame(FrameName(name, action, s1[j].0, s1[j].1),
                       FrameRect(|before| + j, perLine, frameWidth, frameHeight))
    ensures LaidOut(before + tail, name, action, s0 + s1, perLine, frameWidth, frameHeight)
  {
    var all, slots := before + tail, s0 + s1;
    forall k | |before| <= k < |all|
      ensures all[k] == Frame(FrameName(name, action, slots[k].0, slots[k].1),
                              FrameRect(k, perLine, frameWidth, frameHeight))
    {
      var j := k - |before|;
      assert all[k] == tail[j] && slots[k] == s1[j];
    }
    forall k | 0 <= k < |before|
      ensures all[k] == Frame(FrameName(name, action, slots[k].0, slots[k].1),
                              FrameRect(k, perLine, frameWidth, frameHeight))
    {
      assert all[k] == before[k] && slots[k] == s0[k];
    }
  }

  lemma {:induction false} NoSlotsWithoutFrames(ds: set<int>, counts: map<int, nat>)
    requires ds <= counts.Keys && forall d | d in ds :: counts[d] == 0
    ensures Slots(ds, counts) == []
    decreases ds
  {
    if ds != {} {
      NoSlotsWithoutFrames(ds - {Max(ds)}, counts);
    }
  }

  /** `frames` is the layout of an action with these frame counts: frame k
      is the k-th (direction, frame id) pair in ascending direction order,
      at the k-th cell of the atlas grid. */
  ghost predicate AtlasLayoutIs(frames: seq<Frame>, name: string, action: string, counts: map<int, nat>,
                                perLine: int, frameWidth: int, frameHeight: int)
  {
    var slots := Slots(counts.Keys, counts);
    && |frames| == |slots|
    && forall k | 0 <= k < |frames| ::
         && perLine != 0
         && frames[k] == Frame(FrameName(name, action, slots[k].0, slots[k].1),
                               FrameRect(k, perLine, frameWidth, frameHeight))
  }

  /** The images one "single" animation of an action defines, with the
      corrected whole-pixel layout: width and height are read, the frames
      per line computed from the texture width by floor division, and the
      directions laid out in ascending order on the grid of whole frames. */
  function AtlasFrames(name: string, action: string, anim: AnimationSet, textureWidth: int): (r: Result<seq<Frame>>)
    requires anim.Single?
    ensures ParseInt(anim.width).Raise? ==> r == Raise(ParseInt(anim.width).error)
    ensures ParseInt(anim.width).Ok? && ParseInt(anim.height).Ok? && ParseInt(anim.width).value == 0 ==>
      r == Raise(ZeroDivisionError)
    ensures ParseInt(anim.width).Ok? && ParseInt(anim.height).Raise? ==> r == Raise(ParseInt(anim.height).error)
    ensures r.Raise? ==> r.error.ValueError? || r.error == ZeroDivisionError
    ensures r.Ok? <==>
      && ParseInt(anim.width).Ok? && ParseInt(anim.height).Ok? && ParseInt(anim.width).value != 0
      && ReadCounts(anim.atlasDirections.Keys, ParsedCounts(anim.atlasDirections),
                    PyDiv(textureWidth, ParseInt(anim.width).value) == 0).Ok?
    ensures ParseInt(anim.width).Ok? && ParseInt(anim.height).Ok? && ParseInt(anim.width).value != 0 ==>
      var counts := ReadCounts(anim.atlasDirections.Keys, ParsedCounts(anim.atlasDirections),
                               PyDiv(textureWidth, ParseInt(anim.width).value) == 0);
      counts.Raise? ==> r == Raise(counts.error)
    ensures r.Ok? ==>
      && ParseInt(anim.width).Ok? && ParseInt(anim.height).Ok? && ParseInt(anim.width).value != 0
      && var perLine := PyDiv(textureWidth, ParseInt(anim.width).value);
         var counts := ReadCounts(anim.atlasDirections.Keys, ParsedCounts(anim.atlasDirections), perLine == 0);
         && counts.Ok?
         && AtlasLayoutIs(r.value, name, action, counts.value, perLine,
                          ParseInt(anim.width).value, ParseInt(anim.height).value)
  {
    var fw :- ParseInt(anim.width);
    var fh :- ParseInt(anim.height);
    if fw == 0 then Raise(ZeroDivisionError)
    else
      var perLine := PyDiv(textureWidth, fw);
      var counts :- ReadCounts(anim.atlasDirections.Keys, ParsedCounts(anim.atlasDirections), perLine == 0);
      if perLine == 0 then
        NoSlotsWithoutFrames(counts.Keys, counts);
        Ok([])
      else
        Ok(Layout(name, action, counts.Keys, counts, perLine, fw, fh))
  }

  /** Where a frame lands depends only on how many frames the smaller
      directions hold: frame j of direction d is frame
      `(frames of the directions below d) + j` of the action, whatever order
      the dictionary yields its keys in. */
  lemma {:induction false} FrameIndexOfDirection(ds: set<int>, counts: map<int, nat>, d: int, j: nat)
    requires ds <= counts.Keys && d in ds && j < counts[d]
    ensures var k := |Slots((set x | x in ds && x < d), counts)| + j;
      k < |Slots(ds, counts)| && Slots(ds, counts)[k] == (d, j)
    decreases ds
  {
    var m := Max(ds);
    var below := set x | x in ds && x < d;
    if d == m {
      assert below == ds - {d};
    } else {
      FrameIndexOfDirection(ds - {m}, counts, d, j);
      assert below == set x | x in ds - {m} && x < d;
    }
  }

  /** With a positive frame size and at least one frame per line, every
      frame lies inside the texture's width and below the top edge. */
  lemma FrameInsideTexture(k: nat, textureWidth: int, frameWidth: int, frameHeight: int)
    requires frameWidth > 0 && frameHeight > 0 && PyDiv(textureWidth, frameWidth) > 0
    ensures var r := FrameRect(k, PyDiv(textureWidth, frameWidth), frameWidth, frameHeight);
      0 <= r.x && r.x + r.width <= textureWidth && 0 <= r.y
  {
    var perLine := PyDiv(textureWidth, frameWidth);
    var col := PyMod(k, perLine);
    assert col + 1 <= perLine;
    assert (col + 1) * frameWidth <= perLine * frameWidth by {
      MulMono(col + 1, perLine, frameWidth);
    }
    assert 0 <= col * frameWidth by { MulMono(0, col, frameWidth); }
    assert 0 <= PyDiv(k, perLine) * frameHeight by { MulMono(0, PyDiv(k, perLine), frameHeight); }
  }

  lemma MulMono(a: int, b: int, c: int)
    requires a <= b && c >= 0
    ensures a * c <= b * c
  {
  }

  /** Distinct frames of one action are disjoint: one lies wholly left of,
      right of, above or below the other. */
  lemma FramesDoNotOverlap(k1: nat, k2: nat, perLine: int, frameWidth: int, frameHeight: int)
    requires perLine > 0 && frameWidth > 0 && frameHeight > 0 && k1 != k2
    ensures Disjoint(ToFloat(FrameRect(k1, perLine, frameWidth, frameHeight)),
                     ToFloat(FrameRect(k2, perLine, frameWidth, frameHeight)))
  {
    var c1, c2 := PyMod(k1, perLine), PyMod(k2, perLine);
    var l1, l2 := PyDiv(k1, perLine), PyDiv(k2, perLine);
    if l1 < l2 {
      MulMono(l1 + 1, l2, frameHeight);
      assert l1 * frameHeight + frameHeight <= l2 * frameHeight;
    } else if l2 < l1 {
      MulMono(l2 + 1, l1, frameHeight);
      assert l2 * frameHeight + frameHeight <= l1 * frameHeight;
    } else {
      SameLineDistinctColumns(k1, k2, perLine);
      if c1 < c2 {
        MulMono(c1 + 1, c2, frameWidth);
        assert c1 * frameWidth + frameWidth <= c2 * frameWidth;
      } else {
        MulMono(c2 + 1, c1, frameWidth);
        assert c2 * frameWidth + frameWidth <= c1 * frameWidth;
      }
    }
  }

  /** Two distinct frames on the same line sit in different columns. */
  lemma SameLineDistinctColumns(k1: nat, k2: nat, perLine: int)
    requires perLine > 0 && k1 != k2 && PyDiv(k1, perLine) == PyDiv(k2, perLine)
    ensures PyMod(k1, perLine) != PyMod(k2, perLine)
  {
  }

  /** A 256-pixel atlas of 64x64 frames, three frames facing 0 and three
      facing 90: four frames fit on a line, so the first frame facing 90 is
      the fourth on the first line and the second one starts the next line. */
  lemma TwoDirectionExample(frames: seq<Frame>)
    requires AtlasLayoutIs(frames, "ns.obj", "walk", map[0 := 3, 90 := 3], PyDiv(256, 64), 64, 64)
    ensures |frames| == 6
    ensures frames[3] == Frame(FrameName("ns.obj", "walk", 90, 0), Rect(192, 0, 64, 64))
    ensures frames[4] == Frame(FrameName("ns.obj", "walk", 90, 1), Rect(0, 64, 64, 64))
  {
    var counts: map<int, nat> := map[0 := 3, 90 := 3];
    assert counts.Keys == {0, 90};
    assert Max({0, 90}) == 90;
    assert {0, 90} - {90} == {0};
    assert Max({0}) == 0;
    assert {0} - {0} == {};
    assert Slots({0}, counts) == [(0, 0), (0, 1), (0, 2)];
    assert Slots({0, 90}, counts) == [(0, 0), (0, 1), (0, 2), (90, 0), (90, 1), (90, 2)];
    assert PyDiv(256, 64) == 4;
  }

  // ---------------------------------------------------------------------
  // The layout as written: float division

  /** CEGUI's `Rectf`: a rectangle in float pixels. */
  datatype FloatRect = FloatRect(x: real, y: real, width: real, height: real)

  /** An image the toolbar as written defines: its name and float area. */
  datatype FloatFrame = FloatFrame(name: string, area: FloatRect)

  function ToFloat(r: Rect): FloatRect
  {
    FloatRect(r.x as real, r.y as real, r.width as real, r.height as real)
  }

  /** The rectangles share no interior point: one lies wholly left of,
      right of, above or below the other. */
  predicate Disjoint(a: FloatRect, b: FloatRect)
  {
    || a.x + a.width <= b.x || b.x + b.width <= a.x
    || a.y + a.height <= b.y || b.y + b.height <= a.y
  }

  /** `a % b` on Python floats: `a` less `b` times the floor of `a / b`.
      Rounding is not modelled. */
  function FloatMod(a: real, b: real): real
    requires b != 0.0
  {
    a - (a / b).Floor as real * b
  }

  /** Frame k's area as written: row `k / per_line` and column
      `k % per_line`, both in floats. */
  function FloatFrameRect(k: nat, perLine: real, frameWidth: int, frameHeight: int): FloatRect
    requires perLine != 0.0
  {
    FloatRect(FloatMod(k as real, perLine) * frameWidth as real, (k as real / perLine) * frameHeight as real,
              frameWidth as real, frameHeight as real)
  }

  /** `frames` is the layout as written: frame k is the k-th (direction,
      frame id) pair in ascending direction order, at its float position. */
  ghost predicate FloatLayoutIs(frames: seq<FloatFrame>, name: string, action: string, counts: map<int, nat>,
                                perLine: real, frameWidth: int, frameHeight: int)
  {
    var slots := Slots(counts.Keys, counts);
    && |frames| == |slots|
    && forall k | 0 <= k < |frames| ::
         && perLine != 0.0
         && frames[k] == FloatFrame(FrameName(name, action, slots[k].0, slots[k].1),
                                    FloatFrameRect(k, perLine, frameWidth, frameHeight))
  }

  /** The images one "single" animation defines as the toolbar computes
      them: `per_line` is the float texture width over the frame width, a
      zero frame width raises `ZeroDivisionError` there, a zero `per_line`
      raises it at the first frame, and each frame is placed by float
      division. */
  function AtlasFramesAsWritten(name: string, action: string, anim: AnimationSet, textureWidth: real)
    : (r: Result<seq<FloatFrame>>)
    requires anim.Single?
    ensures ParseInt(anim.width).Raise? ==> r == Raise(ParseInt(anim.width).error)
    ensures ParseInt(anim.width).Ok? && ParseInt(anim.height).Raise? ==> r == Raise(ParseInt(anim.height).error)
    ensures ParseInt(anim.width).Ok? && ParseInt(anim.height).Ok? && ParseInt(anim.width).value == 0 ==>
      r == Raise(ZeroDivisionError)
    ensures r.Ok? <==>
      && ParseInt(anim.width).Ok? && ParseInt(anim.height).Ok? && ParseInt(anim.width).value != 0
      && ReadCounts(anim.atlasDirections.Keys, ParsedCounts(anim.atlasDirections), textureWidth == 0.0).Ok?
    ensures ParseInt(anim.width).Ok? && ParseInt(anim.height).Ok? && ParseInt(anim.width).value != 0 ==>
      var counts := ReadCounts(anim.atlasDirections.Keys, ParsedCounts(anim.atlasDirections), textureWidth == 0.0);
      counts.Raise? ==> r == Raise(counts.error)
    ensures r.Ok? ==>
      && ParseInt(anim.width).Ok? && ParseInt(anim.height).Ok? && ParseInt(anim.width).value != 0
      && var counts := ReadCounts(anim.atlasDirections.Keys, ParsedCounts(anim.atlasDirections), textureWidth == 0.0);
         && counts.Ok?
         && FloatLayoutIs(r.value, name, action, counts.value, textureWidth / ParseInt(anim.width).value as real,
                          ParseInt(anim.width).value, ParseInt(anim.height).value)
  {
    var fw :- ParseInt(anim.width);
    var fh :- ParseInt(anim.height);
    if fw == 0 then Raise(ZeroDivisionError)
    else
      var perLine := textureWidth / fw as real;
      ZeroQuotient(textureWidth, fw as real);
      var counts :- ReadCounts(anim.atlasDirections.Keys, ParsedCounts(anim.atlasDirections), textureWidth == 0.0);
      if textureWidth == 0.0 then
        NoSlotsWithoutFrames(counts.Keys, counts);
        Ok([])
      else
        Ok(FloatLayout(name, action, counts, perLine, fw, fh))
  }

  /** `per_line` is zero exactly when the texture width is. */
  lemma ZeroQuotient(a: real, b: real)
    requires b != 0.0
    ensures a / b == 0.0 <==> a == 0.0
  {
    assert a == (a / b) * b;
  }

  /** Frame k of the action, named after the k-th (direction, frame id)
      pair, at its float position. */
  function FloatLayout(name: string, action: string, counts: map<int, nat>,
                       perLine: real, frameWidth: int, frameHeight: int): (r: seq<FloatFrame>)
    requires perLine != 0.0
    ensures FloatLayoutIs(r, name, action, counts, perLine, frameWidth, frameHeight)
  {
    var slots := Slots(counts.Keys, counts);
    seq(|slots|, k requires 0 <= k < |slots| =>
      FloatFrame(FrameName(name, action, slots[k].0, slots[k].1), FloatFrameRect(k, perLine, frameWidth, frameHeight)))
  }

  /** As written, a 256-pixel atlas of 64x64 frames puts frame 1 a quarter
      row down, at (64, 16), where the grid has it at (64, 0). */
  lemma AsWrittenFrameOffGrid()
    ensures FloatFrameRect(1, 256.0 / 64 as real, 64, 64) == FloatRect(64.0, 16.0, 64.0, 64.0)
    ensures ToFloat(FrameRect(1, PyDiv(256, 64), 64, 64)) == FloatRect(64.0, 0.0, 64.0, 64.0)
  {
    assert (1.0 / 4.0).Floor == 0;
  }

  /** As written, a 100-pixel atlas of 30x30 frames puts frame 3 at x = 90,
      so it reaches x = 120, past the texture's edge, and frames 1 and 4
      overlap. */
  lemma AsWrittenFramesOverlap()
    ensures var r := FloatFrameRect(3, 100.0 / 30 as real, 30, 30);
      r.x == 90.0 && r.x + r.width > 100.0
    ensures !Disjoint(FloatFrameRect(1, 100.0 / 30 as real, 30, 30), FloatFrameRect(4, 100.0 / 30 as real, 30, 30))
  {
    var p := 100.0 / 30.0;
    assert p == 10.0 / 3.0;
    assert (3.0 / p).Floor == 0 by { assert 3.0 / p == 0.9; }
    assert (1.0 / p).Floor == 0 by { assert 1.0 / p == 0.3; }
    assert (4.0 / p).Floor == 1 by { assert 4.0 / p == 1.2; }
    assert FloatMod(4.0, p) == 2.0 / 3.0;
  }

  /** As written, a texture narrower than a frame still lays frames out:
      `per_line` is a positive fraction, not zero, so nothing raises. */
  lemma AsWrittenNarrowTexture(name: string, action: string, anim: AnimationSet)
    requires anim.Single? && ParseInt(anim.width) == Ok(64) && ParseInt(anim.height).Ok?
    requires forall d | d in anim.atlasDirections :: FrameCount(anim.atlasDirections[d].frames).Ok?
    ensures AtlasFramesAsWritten(name, action, anim, 32.0).Ok?
  {
  }

  /** The same layout as written, three frames facing 0 and three facing
      90 on a 256-pixel atlas of 64x64 frames: the first frame facing 90 is
      at (192, 48), three quarters of a row down. */
  lemma TwoDirectionAsWritten(frames: seq<FloatFrame>)
    requires FloatLayoutIs(frames, "ns.obj", "walk", map[0 := 3, 90 := 3], 256.0 / 64 as real, 64, 64)
    ensures |frames| == 6
    ensures frames[3] == FloatFrame(FrameName("ns.obj", "walk", 90, 0), FloatRect(192.0, 48.0, 64.0, 64.0))
  {
    var counts: map<int, nat> := map[0 := 3, 90 := 3];
    assert counts.Keys == {0, 90};
    assert Max({0, 90}) == 90;
    assert {0, 90} - {90} == {0};
    assert Max({0}) == 0;
    assert {0} - {0} == {};
    assert Slots({0}, counts) == [(0, 0), (0, 1), (0, 2)];
    assert Slots({0, 90}, counts) == [(0, 0), (0, 1), (0, 2), (90, 0), (90, 1), (90, 2)];
    assert (3.0 / 4.0).Floor == 0;
  }
}
