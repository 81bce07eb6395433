/** Channel sums over rectangles of an image, as the block-averaging
    effects (mosaic, blur) accumulate them. */
module Regions {
  import opened Pixels

  datatype Chan = R | G | B

  function Ch(c: Chan, p: Pixel): Channel
  {
    match c
    case R => Red(p)
    case G => Green(p)
    case B => Blue(p)
  }

  /** Sum of channel c over pixels x0..x1-1 of row y. */
  function RowSum(s: seq<Pixel>, w: nat, h: nat, c: Chan, x0: int, x1: int, y: int): int
    requires |s| == w * h && 0 <= x0 && x1 <= w && 0 <= y < h
    decreases x1 - x0
  {
    if x1 <= x0 then 0 else RowSum(s, w, h, c, x0, x1 - 1, y) + Ch(c, At(s, w, h, x1 - 1, y))
  }

  /** Sum of channel c over the rectangle [x0, x1) x [y0, y1). */
  function RectSum(s: seq<Pixel>, w: nat, h: nat, c: Chan, x0: int, x1: int, y0: int, y1: int): int
    requires |s| == w * h && 0 <= x0 && x1 <= w && 0 <= y0 && y1 <= h
    decreases y1 - y0
  {
    if y1 <= y0 then 0 else RectSum(s, w, h, c, x0, x1, y0, y1 - 1) + RowSum(s, w, h, c, x0, x1, y1 - 1)
  }

  /** Every channel value of the rectangle lies in [lo, hi]. */
  ghost predicate Between(s: seq<Pixel>, w: nat, h: nat, c: Chan, x0: int, x1: int, y0: int, y1: int, lo: int, hi: int)
    requires |s| == w * h && 0 <= x0 && x1 <= w && 0 <= y0 && y1 <= h
  {
    forall x, y :: x0 <= x < x1 && y0 <= y < y1 ==> lo <= Ch(c, At(s, w, h, x, y)) <= hi
  }

  lemma {:induction false} RowSumBounds(s: seq<Pixel>, w: nat, h: nat, c: Chan, x0: int, x1: int, y: int, lo: int, hi: int)
    requires |s| == w * h && 0 <= x0 <= x1 <= w && 0 <= y < h
    requires forall x :: x0 <= x < x1 ==> lo <= Ch(c, At(s, w, h, x, y)) <= hi
    ensures lo * (x1 - x0) <= RowSum(s, w, h, c, x0, x1, y) <= hi * (x1 - x0)
    decreases x1 - x0
  {
    if x0 < x1 {
      RowSumBounds(s, w, h, c, x0, x1 - 1, y, lo, hi);
      var n := x1 - 1 - x0;
      assert lo * (n + 1) == lo * n + lo;
      assert hi * (n + 1) == hi * n + hi;
    }
  }

  /** A rectangle whose values lie in [lo, hi] sums to between lo and hi times its area. */
  lemma {:induction false} RectSumBounds(s: seq<Pixel>, w: nat, h: nat, c: Chan, x0: int, x1: int, y0: int, y1: int, lo: int, hi: int)
    requires |s| == w * h && 0 <= x0 <= x1 <= w && 0 <= y0 <= y1 <= h
    requires Between(s, w, h, c, x0, x1, y0, y1, lo, hi)
    ensures lo * ((x1 - x0) * (y1 - y0)) <= RectSum(s, w, h, c, x0, x1, y0, y1) <= hi * ((x1 - x0) * (y1 - y0))
    decreases y1 - y0
  {
    var n, m := x1 - x0, y1 - y0;
    if m == 0 {
      assert n * m == 0;
    } else {
      var above := RectSum(s, w, h, c, x0, x1, y0, y1 - 1);
      var row := RowSum(s, w, h, c, x0, x1, y1 - 1);
      assert RectSum(s, w, h, c, x0, x1, y0, y1) == above + row;
      RectSumBounds(s, w, h, c, x0, x1, y0, y1 - 1, lo, hi);
      RowSumBounds(s, w, h, c, x0, x1, y1 - 1, lo, hi);
      CombineRows(above, row, n, y1 - 1 - y0, m, lo, hi);
    }
  }

  /** Bounds on m rows of n values and on one more row add up to bounds on m + 1 rows. */
  lemma CombineRows(above: int, row: int, n: int, m: int, k: int, lo: int, hi: int)
    requires k == m + 1
    requires lo * (n * m) <= above <= hi * (n * m) && lo * n <= row <= hi * n
    ensures lo * (n * k) <= above + row <= hi * (n * k)
  {
    assert n * k == n * m + n;
    assert lo * (n * m + n) == lo * (n * m) + lo * n;
    assert hi * (n * m + n) == hi * (n * m) + hi * n;
  }

  /** Flooring the average keeps it within the value range. */
  lemma AverageBetween(sum: int, count: int, lo: int, hi: int)
    requires count > 0 && lo * count <= sum <= hi * count
    ensures lo <= sum / count <= hi
  {
    var q := sum / count;
    assert q * count <= sum < (q + 1) * count;
    if q > hi {
      MulMono(hi + 1, q, count);
    }
    if q < lo {
      MulMono(q + 1, lo, count);
    }
  }

  /** The floored average of a rectangle lies between its smallest and largest value. */
  lemma RectAverageBounds(s: seq<Pixel>, w: nat, h: nat, c: Chan, x0: int, x1: int, y0: int, y1: int, lo: int, hi: int)
    requires |s| == w * h && 0 <= x0 < x1 <= w && 0 <= y0 < y1 <= h
    requires Between(s, w, h, c, x0, x1, y0, y1, lo, hi)
    ensures (x1 - x0) * (y1 - y0) > 0
    ensures lo <= RectSum(s, w, h, c, x0, x1, y0, y1) / ((x1 - x0) * (y1 - y0)) <= hi
  {
    RectSumBounds(s, w, h, c, x0, x1, y0, y1, lo, hi);
    MulAtLeast(x1 - x0, y1 - y0);
    AverageBetween(RectSum(s, w, h, c, x0, x1, y0, y1), (x1 - x0) * (y1 - y0), lo, hi);
  }

  /** Any rectangle's floored average is a channel value. */
  lemma RectAverageChannel(s: seq<Pixel>, w: nat, h: nat, c: Chan, x0: int, x1: int, y0: int, y1: int)
    requires |s| == w * h && 0 <= x0 < x1 <= w && 0 <= y0 < y1 <= h
    ensures (x1 - x0) * (y1 - y0) > 0
    ensures 0 <= RectSum(s, w, h, c, x0, x1, y0, y1) / ((x1 - x0) * (y1 - y0)) <= 255
  {
    RectAverageBounds(s, w, h, c, x0, x1, y0, y1, 0, 255);
  }

  lemma {:induction false} RowSumFrame(s: seq<Pixel>, t: seq<Pixel>, w: nat, h: nat, c: Chan, x0: int, x1: int, y: int)
    requires |s| == w * h && |t| == w * h && 0 <= x0 && x1 <= w && 0 <= y < h
    requires forall x :: x0 <= x < x1 ==> At(s, w, h, x, y) == At(t, w, h, x, y)
    ensures RowSum(s, w, h, c, x0, x1, y) == RowSum(t, w, h, c, x0, x1, y)
    decreases x1 - x0
  {
    if x0 < x1 {
      RowSumFrame(s, t, w, h, c, x0, x1 - 1, y);
    }
  }

  /** A rectangle's sum depends only on the pixels inside it. */
  lemma {:induction false} RectSumFrame(s: seq<Pixel>, t: seq<Pixel>, w: nat, h: nat, c: Chan, x0: int, x1: int, y0: int, y1: int)
    requires |s| == w * h && |t| == w * h && 0 <= x0 && x1 <= w && 0 <= y0 && y1 <= h
    requires forall x, y :: x0 <= x < x1 && y0 <= y < y1 ==> At(s, w, h, x, y) == At(t, w, h, x, y)
    ensures RectSum(s, w, h, c, x0, x1, y0, y1) == RectSum(t, w, h, c, x0, x1, y0, y1)
    decreases y1 - y0
  {
    if y0 < y1 {
      RectSumFrame(s, t, w, h, c, x0, x1, y0, y1 - 1);
      RowSumFrame(s, t, w, h, c, x0, x1, y1 - 1);
    }
  }

  /** The sum over [x0, x1) x [y0, y1) accumulated row by row, column by
      column, in an array that is only read. */
  method SumRect(px: array<Pixel>, w: nat, h: nat, c: Chan, x0: nat, x1: nat, y0: nat, y1: nat) returns (sum: int)
    requires px.Length == w * h && x0 <= x1 <= w && y0 <= y1 <= h
    ensures sum == RectSum(px[..], w, h, c, x0, x1, y0, y1)
  {
    sum := 0;
    var y := y0;
    while y < y1
      invariant y0 <= y <= y1
      invariant sum == RectSum(px[..], w, h, c, x0, x1, y0, y)
    {
      var x := x0;
      var row := 0;
      while x < x1
        invariant x0 <= x <= x1
        invariant row == RowSum(px[..], w, h, c, x0, x, y)
      {
        IdxInBounds(w, h, x, y);
        row := row + Ch(c, px[Idx(w, x, y)]);
        x := x + 1;
      }
      sum := sum + row;
      y := y + 1;
    }
  }

  /** Sets every pixel of the rectangle [x0, x1) x [y0, y1) to color, row by row. */
  method FillRect(px: array<Pixel>, w: nat, h: nat, x0: nat, x1: nat, y0: nat, y1: nat, color: Pixel)
    requires px.Length == w * h && x0 <= x1 <= w && y0 <= y1 <= h
    modifies px
    ensures forall x, y :: 0 <= x < w && 0 <= y < h ==>
      At(px[..], w, h, x, y) == if x0 <= x < x1 && y0 <= y < y1 then color else At(old(px[..]), w, h, x, y)
  {
    ghost var s := px[..];
    var y := y0;
    while y < y1
      invariant y0 <= y <= y1
      invariant forall x', y' :: 0 <= x' < w && 0 <= y' < h ==>
        At(px[..], w, h, x', y') == if x0 <= x' < x1 && y0 <= y' < y then color else At(s, w, h, x', y')
    {
      var x := x0;
      while x < x1
        invariant x0 <= x <= x1
        invariant forall x', y' :: 0 <= x' < w && 0 <= y' < h ==>
          At(px[..], w, h, x', y') ==
            if x0 <= x' < x1 && (y0 <= y' < y || (y' == y && x' < x)) then color else At(s, w, h, x', y')
      {
        IdxInBounds(w, h, x, y);
        ghost var before := px[..];
        px[Idx(w, x, y)] := color;
        assert px[..] == before[Idx(w, x, y) := color];
        forall x', y' | 0 <= x' < w && 0 <= y' < h
          ensures At(px[..], w, h, x', y') ==
            if x0 <= x' < x1 && (y0 <= y' < y || (y' == y && x' < x + 1)) then color else At(s, w, h, x', y')
        {
          AtUpdate(before, w, h, x, y, color, x', y');
        }
        x := x + 1;
      }
      y := y + 1;
    }
  }
}
