/** The scan rectangle: where it starts, how it grows, and the tile grid of region grabs
    (src/capture/scanregion.cpp). A rectangle is its two axes, each an inclusive range of pixels. */
module ScanRegion {
  import opened Arithmetic
  import opened Basics

  /** A range of len pixels from lo. Empty when len is not positive. */
  datatype Span = Span(lo: int, len: int) {
    function Hi(): int {
      lo + len - 1
    }

    /** The centre divides truncating toward zero. */
    function Centre(): int {
      Halved(lo + Hi())
    }

    predicate Within(outer: Span) {
      outer.lo <= lo && Hi() <= outer.Hi()
    }

    predicate Holds(point: int) {
      lo <= point <= Hi()
    }
  }

  datatype Rect = Rect(x: Span, y: Span) {
    predicate IsEmpty() {
      x.len <= 0 || y.len <= 0
    }

    predicate Within(outer: Rect) {
      x.Within(outer.x) && y.Within(outer.y)
    }

    predicate Holds(point: Point) {
      x.Holds(point.x) && y.Holds(point.y)
    }
  }

  datatype Point = Point(x: int, y: int)
  datatype Size = Size(width: int, height: int)

  const NO_RECT := Rect(Span(0, 0), Span(0, 0))

  function Min(a: int, b: int): int {
    if a < b then a else b
  }

  function Max(a: int, b: int): int {
    if a < b then b else a
  }

  function Halved(n: int): int {
    if n >= 0 then n / 2 else -(-n / 2)
  }

  function Clamp(point: int, bounds: Span): int {
    if point < bounds.lo then bounds.lo else if point > bounds.Hi() then bounds.Hi() else point
  }

  function ClampedPoint(point: Point, bounds: Rect): Point {
    Point(Clamp(point.x, bounds.x), Clamp(point.y, bounds.y))
  }

  /** A span moved so that its centre is at a point. */
  function Centred(len: int, centre: int): Span {
    Span(centre - Halved(len - 1), len)
  }

  function MovedInto(span: Span, bounds: Span): Span {
    if span.lo < bounds.lo then Span(bounds.lo, span.len)
    else if span.Hi() > bounds.Hi() then Span(bounds.Hi() - span.len + 1, span.len)
    else span
  }

  function MovedToContain(span: Span, point: int): Span {
    if point < span.lo then Span(point, span.len)
    else if point > span.Hi() then Span(point - span.len + 1, span.len)
    else span
  }

  // ---------------------------------------------------------------- the ladder

  function InitialSpan(cursor: int, len: int, workspace: Span): Span {
    MovedInto(Centred(Min(len, workspace.len), Clamp(cursor, workspace)), workspace)
  }

  function InitialRect(cursor: Point, size: Size, workspace: Rect): Rect {
    if size.width <= 0 || size.height <= 0 || workspace.IsEmpty() then NO_RECT
    else Rect(InitialSpan(cursor.x, size.width, workspace.x), InitialSpan(cursor.y, size.height, workspace.y))
  }

  function GrownSpan(current: Span, cursor: int, limit: int, workspace: Span): Span {
    var grown := MovedInto(Centred(Min(current.len * 2, limit), current.Centre()), workspace);
    MovedToContain(grown, Clamp(cursor, workspace))
  }

  function Limit(maxSize: Size, workspace: Rect): Size {
    Size(Min(maxSize.width, workspace.x.len), Min(maxSize.height, workspace.y.len))
  }

  function Grow(current: Rect, cursor: Point, maxSize: Size, workspace: Rect): Option<Rect> {
    if workspace.IsEmpty() || maxSize.width <= 0 || maxSize.height <= 0 then None
    else
      var limit := Limit(maxSize, workspace);
      if current.x.len >= limit.width && current.y.len >= limit.height then None
      else if current.IsEmpty() then Some(InitialRect(cursor, limit, workspace))
      else Some(Rect(GrownSpan(current.x, cursor.x, limit.width, workspace.x),
                     GrownSpan(current.y, cursor.y, limit.height, workspace.y)))
  }

  /** A scan rectangle lies in the workspace and holds the cursor's nearest point of it. */
  lemma InitialRectIsInside(cursor: Point, size: Size, workspace: Rect)
    requires size.width > 0 && size.height > 0 && !workspace.IsEmpty()
    ensures var rect := InitialRect(cursor, size, workspace);
      && rect.Within(workspace) && rect.Holds(ClampedPoint(cursor, workspace))
      && rect.x.len == Min(size.width, workspace.x.len) && rect.y.len == Min(size.height, workspace.y.len)
  {
  }

  /** A span around a point: as much of it on either side, up to one pixel more behind it. */
  predicate Around(span: Span, point: int) {
    point - span.lo <= span.Hi() - point <= point - span.lo + 1
  }

  /** A span moved so that its centre is at a point, in bounds: it begins or ends with them when the point is
      less than half of it from that edge, and is around the point otherwise. */
  predicate AroundInside(span: Span, point: int, bounds: Span) {
    if point - bounds.lo < (span.len - 1) / 2 then span.lo == bounds.lo
    else if bounds.Hi() - point < span.len / 2 then span.Hi() == bounds.Hi()
    else Around(span, point)
  }

  /** The first scan rectangle is around the cursor as far as the edges of the workspace allow. */
  lemma InitialRectIsAround(cursor: Point, size: Size, workspace: Rect)
    requires size.width > 0 && size.height > 0 && !workspace.IsEmpty()
    ensures var rect := InitialRect(cursor, size, workspace);
      AroundInside(rect.x, cursor.x, workspace.x) && AroundInside(rect.y, cursor.y, workspace.y)
  {
  }

  /** An axis grows about its centre, as far as the edges of the workspace allow, and moves from there just far
      enough to hold the cursor. */
  lemma GrownSpanIsAround(current: Span, cursor: int, limit: int, workspace: Span)
    requires 0 < current.len <= limit <= workspace.len && current.Within(workspace)
    ensures var grown, held := GrownSpan(current, cursor, limit, workspace), Clamp(cursor, workspace);
      && grown.len == Min(2 * current.len, limit)
      && exists about: Span ::
           && about.len == grown.len && AroundInside(about, current.Centre(), workspace)
           && (if about.Holds(held) then grown == about
               else if held < about.lo then grown.lo == held else grown.Hi() == held)
  {
    var about := MovedInto(Centred(Min(2 * current.len, limit), current.Centre()), workspace);
    assert AroundInside(about, current.Centre(), workspace);
  }

  /** The centre of a range is around its middle. */
  lemma CentreIsMiddle(span: Span)
    requires span.len > 0
    ensures Around(span, span.Centre()) || Around(span, span.Centre() - 1)
    ensures span.lo + span.Hi() >= 0 ==> Around(span, span.Centre())
  {
  }

  lemma GrownIsInside(current: Rect, cursor: Point, maxSize: Size, workspace: Rect)
    requires Grow(current, cursor, maxSize, workspace).Some?
    ensures var grown := Grow(current, cursor, maxSize, workspace).value;
      !grown.IsEmpty() && grown.Within(workspace) && grown.Holds(ClampedPoint(cursor, workspace))
  {
    var limit := Limit(maxSize, workspace);
    if current.IsEmpty() {
      InitialRectIsInside(cursor, limit, workspace);
    }
  }

  /** The axis is already at its limit, of even length, left of the origin and free to move right: the
      centre of such a span is rounded one pixel to its right. */
  predicate Slips(current: Span, cursor: int, limit: int, workspace: Span) {
    && current.len == limit && current.len % 2 == 0 && current.lo + current.Hi() < 0
    && current.Hi() < workspace.Hi() && cursor != current.lo
  }

  lemma GrownSpanKeeps(current: Span, cursor: int, limit: int, workspace: Span)
    requires 0 < current.len <= limit <= workspace.len && current.Within(workspace) && current.Holds(cursor)
    ensures current.Within(GrownSpan(current, cursor, limit, workspace)) <==> !Slips(current, cursor, limit, workspace)
  {
  }

  /** A rectangle in the workspace, within the limits and around the cursor stays inside what it grows
      to, exactly when no axis slips. */
  lemma GrownKeepsCurrent(current: Rect, cursor: Point, maxSize: Size, workspace: Rect)
    requires !current.IsEmpty() && current.Within(workspace) && current.Holds(cursor)
    requires current.x.len <= maxSize.width && current.y.len <= maxSize.height
    requires Grow(current, cursor, maxSize, workspace).Some?
    ensures var limit := Limit(maxSize, workspace);
      current.Within(Grow(current, cursor, maxSize, workspace).value) <==>
        !Slips(current.x, cursor.x, limit.width, workspace.x) && !Slips(current.y, cursor.y, limit.height, workspace.y)
  {
    var limit := Limit(maxSize, workspace);
    GrownSpanKeeps(current.x, cursor.x, limit.width, workspace.x);
    GrownSpanKeeps(current.y, cursor.y, limit.height, workspace.y);
  }

  /** Nothing slips right of and below the origin. */
  lemma NothingSlipsFromOrigin(current: Rect, cursor: Point, maxSize: Size, workspace: Rect)
    requires !current.IsEmpty() && current.Within(workspace) && current.Holds(cursor)
    requires current.x.len <= maxSize.width && current.y.len <= maxSize.height
    requires workspace.x.lo >= 0 && workspace.y.lo >= 0
    requires Grow(current, cursor, maxSize, workspace).Some?
    ensures current.Within(Grow(current, cursor, maxSize, workspace).value)
  {
    GrownKeepsCurrent(current, cursor, maxSize, workspace);
  }

  function Doubled(n: int, steps: nat): int {
    if steps == 0 then n else 2 * Doubled(n, steps - 1)
  }

  /** Rectangles each grown from the one before, wherever the cursor was. */
  ghost predicate IsLadder(rects: seq<Rect>, cursors: seq<Point>, maxSize: Size, workspace: Rect) {
    && |rects| == |cursors| + 1
    && forall i :: 0 <= i < |cursors| ==> Grow(rects[i], cursors[i], maxSize, workspace) == Some(rects[i + 1])
  }

  lemma {:induction false} LadderSizes(rects: seq<Rect>, cursors: seq<Point>, maxSize: Size, workspace: Rect)
    requires IsLadder(rects, cursors, maxSize, workspace) && !rects[0].IsEmpty() && cursors != []
    ensures var limit := Limit(maxSize, workspace);
      && Last(rects).x.len == Min(Doubled(rects[0].x.len, |cursors|), limit.width) > 0
      && Last(rects).y.len == Min(Doubled(rects[0].y.len, |cursors|), limit.height) > 0
    decreases |cursors|
  {
    var limit := Limit(maxSize, workspace);
    var k := |cursors| - 1;
    assert Grow(rects[k], cursors[k], maxSize, workspace) == Some(rects[k + 1]);
    if k > 0 {
      assert IsLadder(Front(rects), Front(cursors), maxSize, workspace) by {
        forall i | 0 <= i < k
          ensures Grow(Front(rects)[i], Front(cursors)[i], maxSize, workspace) == Some(Front(rects)[i + 1])
        {
          assert Grow(rects[i], cursors[i], maxSize, workspace) == Some(rects[i + 1]);
        }
      }
      LadderSizes(Front(rects), Front(cursors), maxSize, workspace);
    }
  }

  /** The ladder ends exactly when doubling the first rectangle as many times reaches both limits. */
  lemma LadderEndsExactly(rects: seq<Rect>, cursors: seq<Point>, cursor: Point, maxSize: Size, workspace: Rect)
    requires IsLadder(rects, cursors, maxSize, workspace) && !rects[0].IsEmpty()
    requires !workspace.IsEmpty() && maxSize.width > 0 && maxSize.height > 0
    ensures var limit := Limit(maxSize, workspace);
      Grow(Last(rects), cursor, maxSize, workspace).None? <==>
        Doubled(rects[0].x.len, |cursors|) >= limit.width && Doubled(rects[0].y.len, |cursors|) >= limit.height
  {
    if cursors != [] {
      LadderSizes(rects, cursors, maxSize, workspace);
    }
  }

  // ---------------------------------------------------------------- the tile grid

  /** Rounds a quotient to the nearest integer, halves away from zero. */
  function Rounded(n: int, d: int): int
    requires d > 0
  {
    if n >= 0 then (2 * n + d) / (2 * d) else -((-2 * n + d) / (2 * d))
  }

  /** The multiple of stride nearest to n. */
  function Nearest(n: int, stride: int): int
    requires stride > 0
  {
    Rounded(n, stride) * stride
  }

  function Stride(len: int): (stride: int)
    ensures stride >= 1
  {
    Max(1, len / 2)
  }

  function TileSpan(requested: Span, output: Span): Span
    requires requested.len > 0 && output.len > 0
  {
    var len := Min(requested.len, output.len);
    var stride := Stride(len);
    var want := requested.Centre() - len / 2 - output.lo;
    MovedInto(Span(output.lo + Nearest(want, stride), len), output)
  }

  function WlrTileFor(requested: Rect, output: Rect): Rect {
    if requested.IsEmpty() || output.IsEmpty() then NO_RECT
    else Rect(TileSpan(requested.x, output.x), TileSpan(requested.y, output.y))
  }

  /** A tile lies in the output, with the requested size cut to the output's. */
  lemma TileIsInside(requested: Rect, output: Rect)
    requires !requested.IsEmpty() && !output.IsEmpty()
    ensures var tile := WlrTileFor(requested, output);
      && tile.Within(output)
      && tile.x.len == Min(requested.x.len, output.x.len) && tile.y.len == Min(requested.y.len, output.y.len)
  {
  }

  lemma NearestIsNear(n: int, d: int)
    requires d > 0
    ensures if n >= 0 then -d <= 2 * (n - Nearest(n, d)) < d else -d < 2 * (n - Nearest(n, d)) <= d
    ensures Nearest(n, d) == 0 || Nearest(n, d) >= d || Nearest(n, d) <= -d
  {
    NonZeroMultiple(Rounded(n, d), d);
    var m := if n >= 0 then 2 * n + d else -2 * n + d;
    assert m == m / (2 * d) * (2 * d) + m % (2 * d);
    assert m / (2 * d) * (2 * d) == 2 * (m / (2 * d) * d);
    assert -(m / (2 * d)) * d == -(m / (2 * d) * d);
  }

  /** A multiple near enough to n is the nearest. */
  lemma NearestIsOnly(n: int, d: int, q: int)
    requires d > 0 && n >= 0 && -d <= 2 * (n - q * d) < d
    ensures Nearest(n, d) == q * d
  {
    assert q * (2 * d) == 2 * (q * d);
    DivideIsOnly(2 * n + d, 2 * d, q);
  }

  /** The centre of the request stays clear of the tile's edges: half a stride from the first pixel, and
      one pixel less from the last. */
  lemma TileKeepsCentre(requested: Span, output: Span)
    requires requested.len >= 3 && requested.Within(output)
    ensures var tile, stride := TileSpan(requested, output), Stride(requested.len);
      && requested.Centre() - tile.lo >= stride - stride / 2
      && tile.Hi() - requested.Centre() >= stride - stride / 2 - 1
  {
    var stride := Stride(requested.len);
    var want := requested.Centre() - requested.len / 2 - output.lo;
    hide Nearest;
    NearestIsNear(want, stride);
  }

  /** The centre of the request lies at least a quarter of the tile from both of the tile's edges. */
  predicate QuarterClear(requested: Span, output: Span)
    requires requested.len > 0 && output.len > 0
  {
    var tile := TileSpan(requested, output);
    4 * (requested.Centre() - tile.lo) >= requested.len && 4 * (tile.Hi() + 1 - requested.Centre()) >= requested.len
  }

  /** The documented quarter holds for every request of a length exactly when the length does not leave
      one when divided by four. */
  lemma QuarterClearExactly(len: int, output: Span)
    requires len >= 3 && output.len >= 2 * len
    ensures (forall requested: Span :: requested.len == len && requested.Within(output) ==>
      QuarterClear(requested, output))
       <==> len % 4 != 1
  {
    hide TileSpan;
    if len % 4 != 1 {
      forall requested: Span | requested.len == len && requested.Within(output)
        ensures QuarterClear(requested, output)
      {
        TileKeepsCentre(requested, output);
      }
    } else {
      TooNear(len / 4, output);
    }
  }

  /** A request a quarter of the tile right of the output's edge is rounded to the second tile. */
  lemma TooNear(quarter: int, output: Span)
    requires quarter > 0 && output.len >= 2 * (4 * quarter + 1)
    ensures var requested := Span(output.lo + quarter, 4 * quarter + 1);
      requested.Within(output) && !QuarterClear(requested, output)
  {
    hide Nearest;
    NearestIsOnly(quarter, 2 * quarter, 1);
  }

  /** The tile of a tile is the tile, except for a request two pixels wide, right of the desktop origin and
      more than one pixel from the output's edge, where it moves on. */
  lemma TileOfTile(requested: Span, output: Span)
    requires requested.len > 0 && requested.Within(output)
    ensures var tile := TileSpan(requested, output);
      TileSpan(tile, output) == tile <==> (requested.len != 2 || requested.lo <= 0 || requested.lo <= output.lo + 1)
  {
    hide Nearest;
    if requested.len >= 4 {
      WideTileOfTile(requested, output);
    } else {
      var tile := TileSpan(requested, output);
      NearestOfOne(requested.Centre() - requested.len / 2 - output.lo);
      NearestOfOne(tile.Centre() - requested.len / 2 - output.lo);
    }
  }

  lemma WideTileOfTile(requested: Span, output: Span)
    requires requested.len >= 4 && requested.Within(output)
    ensures TileSpan(TileSpan(requested, output), output) == TileSpan(requested, output)
  {
    hide Nearest;
    var tile, len, stride := TileSpan(requested, output), requested.len, Stride(requested.len);
    var want, next := requested.Centre() - len / 2 - output.lo, tile.Centre() - len / 2 - output.lo;
    NearestIsNear(want, stride);
    NearestIsNear(next, stride);
    if tile.lo != output.lo {
      SameMultiple(want, next, stride);
    }
  }

  lemma NearestOfOne(n: int)
    ensures Nearest(n, 1) == n
  {
  }

  /** Between n and the multiple nearest to it, that multiple stays the nearest; and it is nearest to the
      number before it when the stride is not 1. */
  lemma SameMultiple(n: int, m: int, d: int)
    requires d > 1 && n >= 0 && m >= 0
    requires n <= m <= Nearest(n, d) || m == Nearest(n, d) || m == Nearest(n, d) - 1
    ensures Nearest(m, d) == Nearest(n, d)
  {
    hide Nearest;
    NearestIsNear(n, d);
    NearestIsMultiple(n, d);
    NearestIsOnly(m, d, Rounded(n, d));
  }

  lemma NearestIsMultiple(n: int, d: int)
    requires d > 0
    ensures Nearest(n, d) == Rounded(n, d) * d
  {
  }

  // ---------------------------------------------------------------- how many tiles there are

  /** The lattice points from first up to last, and last itself. */
  function Origins(first: int, last: int, stride: int): (origins: seq<int>)
    requires stride > 0 && first <= last
    ensures origins != [] && origins[0] == first && Last(origins) == last
    ensures forall i, j :: 0 <= i < j < |origins| ==> origins[i] < origins[j]
    decreases last - first
  {
    if first == last then [first]
    else [first] + Origins(Min(first + stride, last), last, stride)
  }

  lemma {:induction false} OriginCount(first: int, last: int, stride: int)
    requires stride > 0 && first <= last
    ensures |Origins(first, last, stride)| == (last - first + stride - 1) / stride + 1
    decreases last - first
  {
    if first < last {
      var next := Min(first + stride, last);
      OriginCount(next, last, stride);
      if first + stride <= last {
        assert (last - first + stride - 1) / stride == (last - next + stride - 1) / stride + 1 by {
          DividePast(last - next + stride - 1, stride);
        }
      } else {
        DivideOnce(last - first + stride - 1, stride);
        DivideNone(stride - 1, stride);
      }
    }
  }

  lemma DividePast(n: int, d: int)
    requires d > 0
    ensures (n + d) / d == n / d + 1
  {
    DivideIsOnly(n + d, d, n / d + 1);
  }

  lemma DivideOnce(n: int, d: int)
    requires 0 < d <= n < 2 * d
    ensures n / d == 1
  {
    DivideIsOnly(n, d, 1);
  }

  lemma DivideNone(n: int, d: int)
    requires 0 <= n < d
    ensures n / d == 0
  {
    DivideIsOnly(n, d, 0);
  }

  lemma {:induction false} LatticePointListed(first: int, last: int, stride: int, k: int)
    requires stride > 0 && first <= last && k >= 0 && first + k * stride <= last
    ensures first + k * stride in Origins(first, last, stride)
    decreases k
  {
    if k > 0 {
      assert k * stride == (k - 1) * stride + stride && (k - 1) * stride >= 0;
      LatticePointListed(first + stride, last, stride, k - 1);
    }
  }

  /** The origins of the tiles of a size on an output are exactly the listed ones: every request has one
      of them, and each is some request's. */
  lemma TileOriginsExact(output: Span, len: int, origin: int)
    requires 0 < len <= output.len
    ensures origin in Origins(output.lo, output.Hi() - len + 1, Stride(len)) <==>
      exists requested: Span :: requested.len == len && TileSpan(requested, output).lo == origin
  {
    hide Nearest, Origins, TileSpan, Stride;
    var first, last, stride := output.lo, output.Hi() - len + 1, Stride(len);
    if origin in Origins(first, last, stride) {
      TileReached(output, len, origin, first, 0);
    }
    if requested: Span :| requested.len == len && TileSpan(requested, output).lo == origin {
      TileListed(output, requested);
    }
  }

  lemma TileListed(output: Span, requested: Span)
    requires 0 < requested.len <= output.len
    ensures TileSpan(requested, output).lo in
      Origins(output.lo, output.Hi() - requested.len + 1, Stride(requested.len))
  {
    hide Nearest, Origins;
    var first, last, stride := output.lo, output.Hi() - requested.len + 1, Stride(requested.len);
    var want := requested.Centre() - requested.len / 2 - first;
    assert Origins(first, last, stride)[0] == first && Last(Origins(first, last, stride)) == last;
    if 0 <= Nearest(want, stride) <= last - first {
      NearestListed(first, last, stride, want);
    }
  }

  lemma NearestListed(first: int, last: int, stride: int, want: int)
    requires stride > 0 && 0 <= Nearest(want, stride) <= last - first
    ensures first + Nearest(want, stride) in Origins(first, last, stride)
  {
    hide Origins, Rounded;
    Product(Rounded(want, stride), 0, stride);
    LatticePointListed(first, last, stride, Rounded(want, stride));
  }

  /** The request of a length whose centre is a point. */
  function RequestAround(len: int, centre: int): (requested: Span)
    requires len > 0
    ensures requested.len == len && requested.Centre() == centre
  {
    if len % 2 == 1 then Span(centre - (len - 1) / 2, len)
    else if centre >= 0 then Span(centre - len / 2 + 1, len)
    else Span(centre - len / 2, len)
  }

  /** A request for the tile at the k-th lattice point, or at the last position. */
  lemma RequestFor(output: Span, len: int, origin: int, k: int) returns (requested: Span)
    requires 0 < len <= output.len && output.lo <= origin <= output.Hi() - len + 1
    requires origin == output.lo + k * Stride(len) || origin == output.Hi() - len + 1
    ensures requested.len == len && TileSpan(requested, output).lo == origin
  {
    hide Nearest, Stride;
    var stride := Stride(len);
    var q := k;
    if origin != output.lo + k * stride {
      q := UpTo(origin - output.lo, stride);
    }
    Product(q, 0, stride);
    NearestIsOnly(q * stride, stride, q);
    requested := RequestAround(len, output.lo + q * stride + len / 2);
  }

  /** A multiple of stride that reaches n. */
  lemma UpTo(n: int, stride: int) returns (q: int)
    requires stride > 0 && n >= 0
    ensures q >= 0 && q * stride >= n
  {
    q := n / stride + 1;
    assert n == n / stride * stride + n % stride;
    Distribute(q, 1, stride);
  }

  /** A listed origin on the lattice of the output, or the last one, is a tile's. */
  lemma {:induction false} TileReached(output: Span, len: int, origin: int, from: int, k: int)
    requires 0 < len <= output.len && output.lo <= from <= output.Hi() - len + 1
    requires from == output.lo + k * Stride(len) || from == output.Hi() - len + 1
    requires origin in Origins(from, output.Hi() - len + 1, Stride(len))
    ensures exists requested: Span :: requested.len == len && TileSpan(requested, output).lo == origin
    decreases output.Hi() - from
  {
    hide TileSpan, Stride;
    var last, stride := output.Hi() - len + 1, Stride(len);
    if origin == from {
      var requested := RequestFor(output, len, origin, k);
    } else {
      Distribute(k + 1, k, stride);
      assert (k + 1) * stride == k * stride + stride;
      TileReached(output, len, origin, Min(from + stride, last), k + 1);
    }
  }

  function TileCount(output: int, len: int): nat
    requires 0 < len <= output
  {
    |Origins(0, output - len, Stride(len))|
  }

  /** How many strides reach across an axis from its first pixel to its last, and by how much they overshoot. */
  function Across(output: int, len: int): (int, int)
    requires 0 < len <= output
  {
    var steps := (output - 2 + Stride(len)) / Stride(len);
    (steps, steps * Stride(len) - (output - 1))
  }

  /** How many tiles of a length an axis has. The documented bound of 2 * output / len + 1 holds for
      every even length. For an odd length above 1 it holds exactly when the strides across the axis and
      twice their overshoot do not outnumber two lengths and two, so never on an output longer than the
      square of the length. */
  lemma TileCountBounds(output: int, len: int)
    requires 0 < len <= output
    ensures TileCount(output, len) <= (output - len) / Stride(len) + 2
    ensures TileCount(output, len) == (output - len + Stride(len) - 1) / Stride(len) + 1
    ensures len % 2 == 0 || len == 1 ==> TileCount(output, len) <= 2 * output / len + 1
    ensures len % 2 == 1 && len > 1 ==>
      (TileCount(output, len) <= 2 * output / len + 1 <==>
         Across(output, len).0 + 2 * Across(output, len).1 <= 2 * len + 2)
    ensures len % 2 == 1 && len > 1 && output > len * len ==> TileCount(output, len) > 2 * output / len + 1
  {
    var stride, over := Stride(len), output - len;
    OriginCount(0, over, stride);
    var steps := (over + stride - 1) / stride;
    DividedUp(over, stride);
    if len % 2 == 0 {
      EvenBound(output, stride);
      assert len == 2 * stride;
    } else if len > 1 {
      OddBound(output, len, stride);
      if output > len * len {
        OddExcess(output, len, stride, steps, 2 * output / len);
      }
    }
  }

  lemma DividedUp(n: int, d: int)
    requires d > 0 && n >= 0
    ensures (n + d - 1) / d <= n / d + 1
    ensures (n + d - 1) / d * d >= n
  {
    var up := (n + d - 1) / d;
    assert n + d - 1 == up * d + (n + d - 1) % d;
    assert n == n / d * d + n % d;
    Product(up, n / d + 1, d);
    Distribute(n / d + 1, -1, d);
  }

  lemma EvenBound(output: int, stride: int)
    requires stride > 0 && output >= 2 * stride
    ensures (output - 2 * stride + stride - 1) / stride <= 2 * output / (2 * stride)
  {
    var n := output - 2 * stride + stride - 1;
    assert n == n / stride * stride + n % stride;
    assert output == output / stride * stride + output % stride;
    Product(n / stride, output / stride, stride);
    assert output / stride * (2 * stride) == 2 * (output / stride * stride);
    DivideIsOnly(2 * output, 2 * stride, output / stride);
  }

  lemma OddBound(output: int, len: int, stride: int)
    requires len == 2 * stride + 1 && stride > 0 && output >= len
    ensures var steps := (output - 2 + stride) / stride;
      (output - len + stride - 1) / stride <= 2 * output / len <==>
        steps + 2 * (steps * stride - (output - 1)) <= 2 * len + 2
  {
    var steps, bound := (output - 2 + stride) / stride, 2 * output / len;
    assert output - 2 + stride == steps * stride + (output - 2 + stride) % stride;
    Distribute(steps, 2, stride);
    DivideIsOnly(output - len + stride - 1, stride, steps - 2);
    assert 2 * output == bound * len + 2 * output % len;
    Product(steps - 2, bound, len);
    Distribute(steps, 2, len);
    StepsOfOdd(steps, stride);
  }

  lemma StepsOfOdd(steps: int, stride: int)
    ensures steps * (2 * stride + 1) == 2 * (steps * stride) + steps
  {
  }

  lemma OddExcess(output: int, len: int, stride: int, steps: int, bound: int)
    requires len == 2 * stride + 1 && stride > 0 && output > len * len
    requires steps * stride >= output - len && bound == 2 * output / len
    ensures steps > bound
  {
    assert 2 * output == bound * len + 2 * output % len;
    if steps <= bound {
      assert steps * len <= bound * len by {
        Product(steps, bound, len);
      }
      calc {
        2 * output * stride;
      >= { assert 2 * output >= steps * len; MonotoneProduct(steps * len, 2 * output, stride); }
        steps * len * stride;
      == { assert steps * len * stride == steps * stride * len; }
        steps * stride * len;
      >= { MonotoneProduct(output - len, steps * stride, len); }
        (output - len) * len;
      == { Distribute(output, len, len); }
        output * len - len * len;
      == { assert output * len == 2 * output * stride + output; }
        2 * output * stride + output - len * len;
      }
    }
  }
}
