/**
 * Line drawing of the 2D CAD module (vishwakarma-2D.h): Bresenham's
 * algorithm over all eight octants, with each `SetPixel` call recorded as
 * the next element of a pixel sequence.
 */
module Line2D {
  datatype Pixel = Pixel(x: int, y: int)

  function Abs(v: int): nat
  {
    if v < 0 then -v else v
  }

  function Max(a: nat, b: nat): nat
  {
    if a < b then b else a
  }

  /** `v` lies between the two ends, whichever order they are in. */
  predicate Between(lo: int, v: int, hi: int)
  {
    if lo <= hi then lo <= v <= hi else hi <= v <= lo
  }

  /** A step of the line: each coordinate stays or moves one unit toward the end, and not both stay. */
  predicate Step(p: Pixel, q: Pixel, sx: int, sy: int)
  {
    && (q.x == p.x || q.x == p.x + sx)
    && (q.y == p.y || q.y == p.y + sy)
    && q != p
  }

  /**
   * Pixel `p` of the line from `(x1, y1)` to `(x2, y2)` is within half a
   * pixel of the true line along the minor axis: its scaled deviation
   * `|p.y - y1| * dx - |p.x - x1| * dy`, doubled, is at most the longer
   * side.
   */
  predicate Near(x1: int, y1: int, x2: int, y2: int, p: Pixel)
  {
    var dx, dy := Abs(x2 - x1), Abs(y2 - y1);
    var deviation := 2 * (Abs(p.y - y1) * dx - Abs(p.x - x1) * dy);
    -(Max(dx, dy) as int) <= deviation <= Max(dx, dy)
  }

  /** The scaled deviation from the true line after `a` x-steps and `b` y-steps. */
  function Dev(dx: nat, dy: nat, a: nat, b: nat): int
  {
    b * dx - a * dy
  }

  /** An x-step lowers the deviation by `dy`, a y-step raises it by `dx`. */
  lemma DevSteps(dx: nat, dy: nat, a: nat, b: nat)
    ensures Dev(dx, dy, a + 1, b) == Dev(dx, dy, a, b) - dy
    ensures Dev(dx, dy, a, b + 1) == Dev(dx, dy, a, b) + dx
    ensures a == b ==> Dev(dx, dx, a, b) == 0
  {
    assert (a + 1) * dy == a * dy + dy;
    assert (b + 1) * dx == b * dx + dx;
  }

  /**
   * With `a` x-steps and `b` y-steps taken, the x coordinate is at the end
   * once all `dx` x-steps are taken; then the y-steps still to come mean
   * the error forbids another x-step.
   */
  lemma XStaysAtEnd(dx: nat, dy: nat, a: nat, b: nat, err: int)
    requires err == dx - dy + Dev(dx, dy, a, b)
    ensures a == dx && b < dy ==> 2 * err <= -(dy as int)
  {
    if a == dx && b < dy {
      assert b * dx - a * dy == dx * (b - dy);
      MulNonPositive(dx, b - dy + 1);
    }
  }

  /** The y coordinate likewise stays once all `dy` y-steps are taken. */
  lemma YStaysAtEnd(dx: nat, dy: nat, a: nat, b: nat, err: int)
    requires err == dx - dy + Dev(dx, dy, a, b)
    ensures b == dy && a < dx ==> 2 * err >= dx
  {
    if b == dy && a < dx {
      assert b * dx - a * dy == dy * (dx - a);
      MulNonNegative(dy, dx - a - 1);
    }
  }

  lemma MulNonPositive(m: nat, k: int)
    requires k <= 0
    ensures m * (k - 1) <= -(m as int)
  {
    assert m * (k - 1) == m * k - m;
  }

  lemma MulNonNegative(m: nat, k: int)
    requires k >= 0
    ensures m * (k + 1) >= m
  {
    assert m * (k + 1) == m * k + m;
  }

  /** The pixel `a` x-steps and `b` y-steps from `(x1, y1)` toward `(x2, y2)`. */
  function At(x1: int, y1: int, x2: int, y2: int, a: nat, b: nat): Pixel
  {
    Pixel(if x1 < x2 then x1 + a else x1 - a, if y1 < y2 then y1 + b else y1 - b)
  }

  /** An x-step moves the pixel by `sx`, a y-step by `sy`; no step leaves the start. */
  lemma AtMoves(x1: int, y1: int, x2: int, y2: int, a: nat, b: nat)
    ensures var p, sx, sy := At(x1, y1, x2, y2, a, b), if x1 < x2 then 1 else -1, if y1 < y2 then 1 else -1;
      && At(x1, y1, x2, y2, a + 1, b) == Pixel(p.x + sx, p.y)
      && At(x1, y1, x2, y2, a, b + 1) == Pixel(p.x, p.y + sy)
      && At(x1, y1, x2, y2, 0, 0) == Pixel(x1, y1)
  { }

  /** Within the box, the walk is at the far end exactly when it has taken every step. */
  lemma AtEnd(x1: int, y1: int, x2: int, y2: int, a: nat, b: nat)
    requires a <= Abs(x2 - x1) && b <= Abs(y2 - y1)
    ensures At(x1, y1, x2, y2, a, b) == Pixel(x2, y2) <==> a == Abs(x2 - x1) && b == Abs(y2 - y1)
  { }

  /** The pixel `a` x-steps and `b` y-steps from the start, with the walk on track, is near the line. */
  lemma NearAt(x1: int, y1: int, x2: int, y2: int, a: nat, b: nat, err: int)
    requires OnTrack(Abs(x2 - x1), Abs(y2 - y1), Walk(a, b, err))
    ensures var p := At(x1, y1, x2, y2, a, b);
      Near(x1, y1, x2, y2, p) && Between(x1, p.x, x2) && Between(y1, p.y, y2)
  { }

  /** The pixel a step of the walk moves to is one `Step` from the pixel it leaves. */
  lemma StepAt(x1: int, y1: int, x2: int, y2: int, a: nat, b: nat, a': nat, b': nat)
    requires (a' == a || a' == a + 1) && (b' == b || b' == b + 1) && (a', b') != (a, b)
    ensures Step(At(x1, y1, x2, y2, a, b), At(x1, y1, x2, y2, a', b'),
                 if x1 < x2 then 1 else -1, if y1 < y2 then 1 else -1)
  { }

  /**
   * The loop state of the algorithm, counted from the start: `a` steps
   * taken along x, `b` along y, and the error term.
   */
  datatype Walk = Walk(a: nat, b: nat, err: int)

  /**
   * The walk has not overshot either end, the error term is the scaled
   * deviation from the true line shifted by `dx - dy`, and that deviation,
   * doubled, is at most the longer side; on a diagonal both axes move
   * together.
   */
  ghost predicate OnTrack(dx: nat, dy: nat, w: Walk)
  {
    && w.a <= dx && w.b <= dy
    && w.err == dx - dy + Dev(dx, dy, w.a, w.b)
    && -(Max(dx, dy) as int) <= 2 * Dev(dx, dy, w.a, w.b) <= Max(dx, dy)
    && (dx == dy ==> w.a == w.b)
  }

  /** One pass of the loop body after the end test. */
  function Advance(dx: nat, dy: nat, w: Walk): Walk
  {
    var e2 := 2 * w.err;
    var w1 := if e2 > -(dy as int) then Walk(w.a + 1, w.b, w.err - dy) else w;
    if e2 < dx then Walk(w1.a, w1.b + 1, w1.err + dx) else w1
  }

  /**
   * A pass short of the end keeps the walk on track, moves at least one
   * axis and each by at most one, and always moves the longer axis.
   */
  lemma AdvanceOnTrack(dx: nat, dy: nat, w: Walk)
    requires OnTrack(dx, dy, w) && !(w.a == dx && w.b == dy)
    ensures var w' := Advance(dx, dy, w);
      && OnTrack(dx, dy, w') && w'.a <= dx && w'.b <= dy
      && (w'.a == w.a || w'.a == w.a + 1)
      && (w'.b == w.b || w'.b == w.b + 1)
      && (w'.a, w'.b) != (w.a, w.b)
      && (if dx >= dy then w'.a == w.a + 1 else w'.b == w.b + 1)
  {
    XStaysAtEnd(dx, dy, w.a, w.b, w.err);
    YStaysAtEnd(dx, dy, w.a, w.b, w.err);
    DevSteps(dx, dy, w.a, w.b);
    DevSteps(dx, dy, w.a + 1, w.b);
    hide Dev;
  }

  /**
   * The pixels plotted before the walk reached `At(.., a, b)`: one per
   * step of the longer axis, starting at `(x1, y1)`, each a `Step` from the
   * one before and the last a `Step` from the current pixel, all inside the
   * box and near the line.
   */
  ghost predicate Drawn(x1: int, y1: int, x2: int, y2: int, pixels: seq<Pixel>, a: nat, b: nat)
  {
    var dx, dy := Abs(x2 - x1), Abs(y2 - y1);
    var sx, sy := if x1 < x2 then 1 else -1, if y1 < y2 then 1 else -1;
    && |pixels| == (if dx >= dy then a else b)
    && (pixels == [] <==> a == 0 && b == 0)
    && (pixels != [] ==> pixels[0] == Pixel(x1, y1) && Step(pixels[|pixels| - 1], At(x1, y1, x2, y2, a, b), sx, sy))
    && (forall i :: 0 <= i < |pixels| - 1 ==> Step(pixels[i], pixels[i + 1], sx, sy))
    && (forall i :: 0 <= i < |pixels| ==>
          Between(x1, pixels[i].x, x2) && Between(y1, pixels[i].y, y2) && Near(x1, y1, x2, y2, pixels[i]))
  }

  /** Plotting the current pixel and taking one pass of the loop keeps `Drawn`. */
  lemma DrawnExtend(x1: int, y1: int, x2: int, y2: int, pixels: seq<Pixel>, w: Walk)
    requires var dx, dy := Abs(x2 - x1), Abs(y2 - y1);
      OnTrack(dx, dy, w) && !(w.a == dx && w.b == dy) && Drawn(x1, y1, x2, y2, pixels, w.a, w.b)
    ensures var dx, dy := Abs(x2 - x1), Abs(y2 - y1);
      var w' := Advance(dx, dy, w);
      && OnTrack(dx, dy, w') && w'.a <= dx && w'.b <= dy
      && (dx - w'.a) + (dy - w'.b) < (dx - w.a) + (dy - w.b)
      && Drawn(x1, y1, x2, y2, pixels + [At(x1, y1, x2, y2, w.a, w.b)], w'.a, w'.b)
  {
    var dx, dy := Abs(x2 - x1), Abs(y2 - y1);
    AdvanceOnTrack(dx, dy, w);
    var w' := Advance(dx, dy, w);
    NearAt(x1, y1, x2, y2, w.a, w.b, w.err);
    StepAt(x1, y1, x2, y2, w.a, w.b, w'.a, w'.b);
    var start := At(x1, y1, x2, y2, 0, 0);
    assert start == Pixel(x1, y1);
    hide OnTrack, Advance, Near, Between, Step, At;
    var sx, sy := if x1 < x2 then 1 else -1, if y1 < y2 then 1 else -1;
    var here := At(x1, y1, x2, y2, w.a, w.b);
    var pixels' := pixels + [here];
    assert |pixels'| == (if dx >= dy then w'.a else w'.b);
    assert pixels'[0] == Pixel(x1, y1) by {
      if pixels == [] {
        assert w.a == 0 && w.b == 0;
      }
    }
    assert forall i :: 0 <= i < |pixels'| - 1 ==> Step(pixels'[i], pixels'[i + 1], sx, sy) by {
      forall i | 0 <= i < |pixels'| - 1
        ensures Step(pixels'[i], pixels'[i + 1], sx, sy)
      {
        if i == |pixels| - 1 {
          assert pixels'[i] == pixels[|pixels| - 1] && pixels'[i + 1] == here;
        } else {
          assert pixels'[i] == pixels[i] && pixels'[i + 1] == pixels[i + 1];
        }
      }
    }
    assert forall i :: 0 <= i < |pixels'| ==>
        Between(x1, pixels'[i].x, x2) && Between(y1, pixels'[i].y, y2) && Near(x1, y1, x2, y2, pixels'[i]) by {
      forall i | 0 <= i < |pixels'|
        ensures Between(x1, pixels'[i].x, x2) && Between(y1, pixels'[i].y, y2) && Near(x1, y1, x2, y2, pixels'[i])
      {
        if i < |pixels| {
          assert pixels'[i] == pixels[i];
        }
      }
    }
  }

  /** Plotting the last pixel completes the line. */
  lemma DrawnComplete(x1: int, y1: int, x2: int, y2: int, pixels: seq<Pixel>, err: int)
    requires var dx, dy := Abs(x2 - x1), Abs(y2 - y1);
      OnTrack(dx, dy, Walk(dx, dy, err)) && Drawn(x1, y1, x2, y2, pixels, dx, dy)
    ensures var line := pixels + [Pixel(x2, y2)];
      && |line| == Max(Abs(x2 - x1), Abs(y2 - y1)) + 1
      && line[0] == Pixel(x1, y1) && line[|line| - 1] == Pixel(x2, y2)
      && (forall i :: 0 <= i < |line| - 1 ==>
            Step(line[i], line[i + 1], if x1 < x2 then 1 else -1, if y1 < y2 then 1 else -1))
      && (forall i :: 0 <= i < |line| ==>
            Between(x1, line[i].x, x2) && Between(y1, line[i].y, y2) && Near(x1, y1, x2, y2, line[i]))
  {
    var dx, dy := Abs(x2 - x1), Abs(y2 - y1);
    NearAt(x1, y1, x2, y2, dx, dy, err);
    assert At(x1, y1, x2, y2, dx, dy) == Pixel(x2, y2);
    hide OnTrack, Near, Between, Step, At;
    var line := pixels + [Pixel(x2, y2)];
    assert forall i :: 0 <= i < |pixels| ==> line[i] == pixels[i];
  }

  /**
   * `Draw2DLine`: the pixels plotted, in order. The line starts at
   * `(x1, y1)` and ends at `(x2, y2)`; every step moves each coordinate by
   * 0 or 1 toward the end and never stays put; no pixel leaves the box the
   * ends span; each pixel is within half a pixel of the true line; and one
   * pixel is plotted per unit of the longer side, plus one.
   */
  method Draw2DLine(x1: int, y1: int, x2: int, y2: int) returns (pixels: seq<Pixel>)
    ensures |pixels| == Max(Abs(x2 - x1), Abs(y2 - y1)) + 1
    ensures pixels[0] == Pixel(x1, y1) && pixels[|pixels| - 1] == Pixel(x2, y2)
    ensures forall i :: 0 <= i < |pixels| - 1 ==>
      Step(pixels[i], pixels[i + 1], if x1 < x2 then 1 else -1, if y1 < y2 then 1 else -1)
    ensures forall i :: 0 <= i < |pixels| ==>
      Between(x1, pixels[i].x, x2) && Between(y1, pixels[i].y, y2) && Near(x1, y1, x2, y2, pixels[i])
  {
    var dx := Abs(x2 - x1);
    var dy := Abs(y2 - y1);
    var sx := if x1 < x2 then 1 else -1;
    var sy := if y1 < y2 then 1 else -1;
    var err := dx - dy;
    var x, y := x1, y1;
    // The steps taken so far along each axis.
    ghost var a: nat, b: nat := 0, 0;
    pixels := [];
    assert OnTrack(dx, dy, Walk(a, b, err)) && Drawn(x1, y1, x2, y2, pixels, a, b);
    AtMoves(x1, y1, x2, y2, 0, 0);
    hide Dev, OnTrack, Drawn, Near, Between, Step, At, Abs, Max;
    while true
      invariant OnTrack(dx, dy, Walk(a, b, err)) && a <= dx && b <= dy
      invariant Pixel(x, y) == At(x1, y1, x2, y2, a, b)
      invariant Drawn(x1, y1, x2, y2, pixels, a, b)
      decreases (dx - a) + (dy - b)
    {
      ghost var before := pixels;
      pixels := pixels + [Pixel(x, y)];
      AtEnd(x1, y1, x2, y2, a, b);
      if x == x2 && y == y2 {
        DrawnComplete(x1, y1, x2, y2, before, err);
        break;
      }
      DrawnExtend(x1, y1, x2, y2, before, Walk(a, b, err));
      ghost var next := Advance(dx, dy, Walk(a, b, err));
      AtMoves(x1, y1, x2, y2, a, b);
      AtMoves(x1, y1, x2, y2, a + 1, b);
      var e2 := 2 * err;
      if e2 > -(dy as int) {
        err := err - dy;
        x := x + sx;
        a := a + 1;
      }
      if e2 < dx {
        err := err + dx;
        y := y + sy;
        b := b + 1;
      }
      assert Walk(a, b, err) == next;
    }
  }
}
