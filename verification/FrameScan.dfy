/** Comparing a captured frame with the one that the layers should have produced. */
module FrameScan {
  import opened Common
  import opened Colors
  import opened Layers

  // ----- comparing colours -----

  /** compare_component: the difference of two bytes, as a byte, is at most six either way. */
  predicate Close(c1: uint8, c2: uint8) {
    ((c1 - c2) % 256 + 6) % 256 < 13
  }

  function Distance(c1: uint8, c2: uint8): (d: nat) {
    if c1 >= c2 then c1 - c2 else c2 - c1
  }

  /** The byte difference wraps, so values at opposite ends of the range are taken for close too. */
  predicate Near(c1: uint8, c2: uint8) {
    Distance(c1, c2) <= 6 || Distance(c1, c2) >= 250
  }

  lemma CloseMeans(c1: uint8, c2: uint8)
    ensures Close(c1, c2) <==> Near(c1, c2)
  {
  }

  predicate SameColor(c1: Color, c2: Color) {
    Close(c1.b, c2.b) && Close(c1.g, c2.g) && Close(c1.r, c2.r)
  }

  /** Colours are taken for the same if and only if each of red, green and blue is near. */
  lemma SameColorMeans(c1: Color, c2: Color)
    ensures SameColor(c1, c2) <==> Near(c1.r, c2.r) && Near(c1.g, c2.g) && Near(c1.b, c2.b)
  {
    CloseMeans(c1.r, c2.r);
    CloseMeans(c1.g, c2.g);
    CloseMeans(c1.b, c2.b);
  }

  // ----- one macropixel -----

  /** Abort is a failed assertion: every point must be covered, and its lowest layer be opaque. */
  datatype Verdict = Match | Mismatch | Abort

  function PixelsAt(frame: seq<State>, x: uint32, y: uint32): (ps: seq<LayerPixel>)
    ensures |ps| == |frame|
  {
    seq(|frame|, i requires 0 <= i < |frame| => PixelAt(frame[i], x, y))
  }

  predicate Covered(ps: seq<LayerPixel>) {
    AnyPresent(ps) && BottomOpaque(ps)
  }

  /** Layer i is the lowest of the frame that has a pixel at the point. */
  predicate IsBottom(frame: seq<State>, x: uint32, y: uint32, i: int) {
    && 0 <= i < |frame| && HasPixel(frame[i].dest, x, y)
    && forall j :: 0 <= j < i ==> !HasPixel(frame[j].dest, x, y)
  }

  /** There is a lowest layer and it disables alpha, or sets no plane alpha and has an image that is opaque there. */
  ghost predicate HasOpaqueBottom(frame: seq<State>, x: uint32, y: uint32) {
    exists i :: && IsBottom(frame, x, y, i)
                && (|| frame[i].alphaMode.DISABLE?
                    || (frame[i].planeAlpha.None? && IsOpaque(SourceColor(frame[i], SourceOf(frame[i], x, y)))))
  }

  /**
   A point passes the two assertions exactly when it has an opaque lowest layer. A lowest layer with a
   plane alpha aborts the comparison unless alpha is disabled.
   */
  lemma CoveredIff(frame: seq<State>, x: uint32, y: uint32)
    ensures Covered(PixelsAt(frame, x, y)) <==> HasOpaqueBottom(frame, x, y)
  {
    var ps := PixelsAt(frame, x, y);
    assert forall i :: 0 <= i < |frame| ==> (ps[i].Present? <==> HasPixel(frame[i].dest, x, y));
    forall i | IsBottom(frame, x, y, i)
      ensures Covered(ps) <==>
              || frame[i].alphaMode.DISABLE?
              || (frame[i].planeAlpha.None? && IsOpaque(SourceColor(frame[i], SourceOf(frame[i], x, y))))
    {
      PixelOpaqueIff(frame[i], x, y);
      OnlyBottom(ps, i);
    }
    if AnyPresent(ps) {
      var i := LowestPresent(ps);
      assert IsBottom(frame, x, y, i);
    }
  }

  lemma OnlyBottom(ps: seq<LayerPixel>, i: nat)
    requires i < |ps| && ps[i].Present? && forall j :: 0 <= j < i ==> ps[j].Absent?
    ensures Covered(ps) <==> IsOpaque(ps[i].color)
  {
    forall k | 0 <= k < |ps| && ps[k].Present? && (forall j :: 0 <= j < k ==> ps[j].Absent?)
      ensures k == i
    {
    }
  }

  lemma {:induction false} LowestPresent(ps: seq<LayerPixel>) returns (i: nat)
    requires AnyPresent(ps)
    ensures i < |ps| && ps[i].Present? && forall j :: 0 <= j < i ==> ps[j].Absent?
    decreases |ps|
  {
    var k :| 0 <= k < |ps| && ps[k].Present?;
    if AnyPresent(ps[..k]) {
      i := LowestPresent(ps[..k]);
      assert forall j :: 0 <= j < k ==> ps[..k][j] == ps[j];
    } else {
      i := k;
      assert forall j :: 0 <= j < k ==> ps[..k][j] == ps[j];
    }
  }

  /** The loop over the layers of a frame: the expected colour and whether to skip it; None aborts. */
  method ExpectedAt(frame: seq<State>, x: uint32, y: uint32) returns (r: Option<(Color, bool)>)
    ensures var ps := PixelsAt(frame, x, y);
            r == if Covered(ps) then Some((Blend(ps), SkipAfter(ps))) else None
  {
    ghost var ps := PixelsAt(frame, x, y);
    var expected, firstLayer, skip := Color(0, 0, 0, 0), true, false;
    for i := 0 to |frame|
      invariant expected == Blend(ps[..i]) && skip == SkipAfter(ps[..i])
      invariant firstLayer <==> forall j :: 0 <= j < i ==> ps[j].Absent?
      invariant !firstLayer ==> BottomOpaque(ps)
    {
      LayerAdded(ps, i);
      var p := GetPixel(frame[i], x, y);
      if p.Absent? {
        continue;
      }
      if firstLayer {
        if !IsOpaque(p.color) {
          assert ps[i].Present?;
          return None;
        }
        assert BottomOpaque(ps) by { OnlyBottom(ps, i); }
        firstLayer := false;
      }
      if p.skip {
        skip := true;
      } else if skip && IsOpaque(p.color) {
        skip := false;
      }
      expected := Over(expected, p.color);
    }
    assert ps[..|ps|] == ps;
    if firstLayer {
      return None;
    }
    return Some((expected, skip));
  }

  lemma LayerAdded(ps: seq<LayerPixel>, i: nat)
    requires i < |ps|
    ensures Blend(ps[..i + 1]) == if ps[i].Absent? then Blend(ps[..i]) else Over(Blend(ps[..i]), ps[i].color)
    ensures SkipAfter(ps[..i + 1]) ==
            if ps[i].Absent? then SkipAfter(ps[..i]) else ps[i].skip || (SkipAfter(ps[..i]) && !IsOpaque(ps[i].color))
  {
    assert ps[..i + 1][..i] == ps[..i];
  }

  /** The camera's view of a macropixel, after conversion to two colours. */
  type Capture = (uint32, uint32) -> (Color, Color)

  function PointVerdict(frame: seq<State>, capture: Capture, x: uint32, y: uint32): (v: Verdict) {
    var ps := PixelsAt(frame, x, y);
    var (actual1, actual2) := capture(x, y);
    if !Covered(ps) then Abort
    else if SkipAfter(ps) || (SameColor(Blend(ps), actual1) && SameColor(Blend(ps), actual2)) then Match
    else Mismatch
  }

  /** What both halves of a macropixel should look like: each channel of the blend is near what the camera saw. */
  predicate LooksRight(c: Color, seen: (Color, Color)) {
    && Near(c.r, seen.0.r) && Near(c.g, seen.0.g) && Near(c.b, seen.0.b)
    && Near(c.r, seen.1.r) && Near(c.g, seen.1.g) && Near(c.b, seen.1.b)
  }

  /** Some layer is uncertain at the point and no certain opaque layer covers it. */
  ghost predicate IsUncertain(ps: seq<LayerPixel>) {
    exists i :: && 0 <= i < |ps| && ps[i].Present? && ps[i].skip
                && forall j :: i < j < |ps| && ps[j].Present? && !ps[j].skip ==> !IsOpaque(ps[j].color)
  }

  ghost predicate PointMatches(frame: seq<State>, capture: Capture, x: uint32, y: uint32) {
    && HasOpaqueBottom(frame, x, y)
    && (IsUncertain(PixelsAt(frame, x, y)) || LooksRight(Blend(PixelsAt(frame, x, y)), capture(x, y)))
  }

  /** A point matches exactly as described, and aborts the comparison exactly without an opaque lowest layer. */
  lemma PointVerdictMeans(frame: seq<State>, capture: Capture, x: uint32, y: uint32)
    ensures PointVerdict(frame, capture, x, y) == Match <==> PointMatches(frame, capture, x, y)
    ensures PointVerdict(frame, capture, x, y) == Abort <==> !HasOpaqueBottom(frame, x, y)
  {
    var ps := PixelsAt(frame, x, y);
    CoveredIff(frame, x, y);
    SkipMeaning(ps);
    SameColorMeans(Blend(ps), capture(x, y).0);
    SameColorMeans(Blend(ps), capture(x, y).1);
  }

  method CheckPoint(frame: seq<State>, capture: Capture, x: uint32, y: uint32) returns (v: Verdict)
    ensures v == PointVerdict(frame, capture, x, y)
    ensures v == Judge(frame, capture)((x, y))
  {
    var e := ExpectedAt(frame, x, y);
    if e.None? {
      return Abort;
    }
    var (expected, skip) := e.value;
    if !skip {
      var (actual1, actual2) := capture(x, y);
      if !SameColor(expected, actual1) || !SameColor(expected, actual2) {
        return Mismatch;
      }
    }
    return Match;
  }

  // ----- the scan -----

  type Coord = (uint32, uint32)

  /** The first m macropixels of a row. */
  function Row(y: uint32, m: nat): (cs: seq<Coord>)
    requires 2 * m <= TWO_32
  {
    seq(m, i requires 0 <= i < m => (2 * i, y))
  }

  function Rows(m: nat, height: uint32): (cs: seq<Coord>)
    requires 2 * m <= TWO_32
  {
    if height == 0 then [] else Rows(m, height - 1) + Row(height - 1, m)
  }

  /**
   The order of the full scan. A row ends where x equals the width; with an odd width that never happens
   and the scan ends.
   */
  function FullOrder(width: uint32, height: uint32): (cs: seq<Coord>) {
    if width % 2 == 0 then Rows(width / 2, height)
    else if height == 0 then [] else Row(0, (width + 1) / 2)
  }

  predicate InRange(c: Coord, width: uint32, height: uint32) {
    c.1 < height && c.0 < width
  }

  /** The five points of the quick check. */
  function QuickPoints(width: uint32, height: uint32): (cs: seq<Coord>)
    ensures |cs| == 5
  {
    [(0, 0), (0, Sub32(height, 1)), (Sub32(width, 2), 0), (Sub32(width, 2), Sub32(height, 1)), (width / 2, height / 2)]
  }

  /** The quick check stops at the first point outside the frame. */
  function QuickOrder(width: uint32, height: uint32, n: nat): (cs: seq<Coord>)
    requires n <= 5
  {
    if n == 0 then []
    else
      var cs := QuickOrder(width, height, n - 1);
      if |cs| == n - 1 && InRange(QuickPoints(width, height)[n - 1], width, height) then
        cs + [QuickPoints(width, height)[n - 1]]
      else cs
  }

  /** The verdict of a scan: that of the first point that does not match. */
  function ScanVerdict(judge: Coord -> Verdict, order: seq<Coord>): (v: Verdict) {
    if order == [] then Match
    else
      var before := ScanVerdict(judge, order[..|order| - 1]);
      if before == Match then judge(order[|order| - 1]) else before
  }

  /** How the points of a captured frame are judged. */
  function Judge(frame: seq<State>, capture: Capture): (judge: Coord -> Verdict) {
    (c: Coord) => PointVerdict(frame, capture, c.0, c.1)
  }

  /** What the full scan has visited when it stands before macropixel m of row y. */
  function Visited(width: uint32, y: uint32, m: nat): (cs: seq<Coord>)
    requires 2 * m <= TWO_32
  {
    (if width % 2 == 0 then Rows(width / 2, y) else []) + Row(y, m)
  }

  lemma VisitedStep(width: uint32, y: uint32, m: nat)
    requires 2 * (m + 1) <= TWO_32
    ensures Visited(width, y, m + 1) == Visited(width, y, m) + [(2 * m, y)]
  {
    assert Row(y, m + 1) == Row(y, m) + [(2 * m, y)];
  }

  lemma VisitedNextRow(width: uint32, y: uint32)
    requires width % 2 == 0 && y + 1 < TWO_32
    ensures Visited(width, y, width / 2) == Visited(width, y + 1, 0)
  {
    assert Row(y + 1, 0) == [];
  }

  lemma {:induction false} RowsPrefix(m: nat, y: uint32, height: uint32)
    requires 2 * m <= TWO_32 && y <= height
    ensures Rows(m, y) <= Rows(m, height)
    decreases height
  {
    if y < height {
      RowsPrefix(m, y, height - 1);
    }
  }

  lemma VisitedIsPrefix(width: uint32, height: uint32, y: uint32, m: nat)
    requires y < height && 2 * m <= width + 1 && (width % 2 == 0 ==> 2 * m <= width) && (width % 2 == 1 ==> y == 0)
    ensures Visited(width, y, m) <= FullOrder(width, height)
  {
    var full := if width % 2 == 0 then width / 2 else (width + 1) / 2;
    assert Row(y, full)[..m] == Row(y, m);
    if width % 2 == 0 {
      RowsPrefix(full, y + 1, height);
      assert Rows(full, y + 1) == Rows(full, y) + Row(y, full);
      assert Visited(width, y, m) <= Rows(full, y + 1);
    }
  }

  /** The scan has ended: below the last row, or past the end of the first row of odd width. */
  lemma VisitedAll(width: uint32, height: uint32, y: uint32, m: nat)
    requires if width % 2 == 0 then m == 0 && (y == height || width == 0)
             else y == 0 && if height == 0 then m == 0 else 2 * m == width + 1
    ensures Visited(width, y, m) == FullOrder(width, height)
  {
    if width == 0 {
      NoColumns(y);
      NoColumns(height);
    }
  }

  lemma {:induction false} NoColumns(height: uint32)
    ensures Rows(0, height) == []
  {
    if height > 0 {
      NoColumns(height - 1);
    }
  }

  /** The step along a row neither wraps nor skips the end of a row of even width. */
  lemma NextMacropixel(width: uint32, m: nat)
    requires 2 * m < width && width != TWO_32 - 1
    ensures 2 * (m + 1) < TWO_32 && Add32(2 * m, 2) == 2 * (m + 1)
    ensures if width % 2 == 0 then 2 * (m + 1) <= width else 2 * (m + 1) <= width + 1 && 2 * (m + 1) != width
  {
  }

  /** The loop's position: macropixel m of row y. */
  predicate ScanAt(width: uint32, height: uint32, y: uint32, m: nat) {
    && y <= height && 2 * m < TWO_32
    && if width % 2 == 0 then (2 * m < width || m == 0) && (y == height ==> m == 0)
       else y == 0 && 2 * m <= width + 1 && (height == 0 ==> m == 0)
  }

  lemma ScanEnds(width: uint32, height: uint32, y: uint32, m: nat)
    requires ScanAt(width, height, y, m) && !(y < height && 2 * m < width)
    ensures Visited(width, y, m) == FullOrder(width, height)
  {
    VisitedAll(width, height, y, m);
  }

  /** Moving on from a macropixel, to the next one or to the next row. */
  lemma ScanMoves(width: uint32, height: uint32, y: uint32, m: nat)
    requires ScanAt(width, height, y, m) && y < height && 2 * m < width && width != TWO_32 - 1
    ensures 2 * (m + 1) < TWO_32 && Add32(2 * m, 2) == 2 * (m + 1)
    ensures Visited(width, y, m + 1) == Visited(width, y, m) + [(2 * m, y)]
            && Visited(width, y, m + 1) <= FullOrder(width, height)
    ensures if 2 * (m + 1) == width
            then ScanAt(width, height, y + 1, 0) && Visited(width, y + 1, 0) == Visited(width, y, m + 1)
            else ScanAt(width, height, y, m + 1) && 2 * (m + 1) <= width + 1
  {
    NextMacropixel(width, m);
    VisitedStep(width, y, m);
    VisitedIsPrefix(width, height, y, m + 1);
    if 2 * (m + 1) == width {
      VisitedNextRow(width, y);
    }
  }

  /** Where the loop goes from a point: two to the right, or to the start of the next row. */
  function NextCoord(width: uint32, c: Coord): (d: Coord) {
    var x := Add32(c.0, 2);
    if x == width then (0, Add32(c.1, 1)) else (x, c.1)
  }

  function CursorAfter(width: uint32, n: nat): (c: Coord) {
    if n == 0 then (0, 0) else NextCoord(width, CursorAfter(width, n - 1))
  }

  /** The end of the loop body, for every width. */
  method Advance(width: uint32, x: uint32, y: uint32) returns (x': uint32, y': uint32)
    ensures (x', y') == NextCoord(width, (x, y))
  {
    x', y' := Add32(x, 2), y;
    if x' == width {
      x' := 0;
      y' := Add32(y', 1);
    }
  }

  /** Within a frame that is not too wide it follows the scan order. */
  method NextPoint(width: uint32, ghost height: uint32, x: uint32, y: uint32, ghost m: nat)
    returns (x': uint32, y': uint32, ghost m': nat)
    requires x == 2 * m && ScanAt(width, height, y, m) && y < height && x < width && width != TWO_32 - 1
    ensures x' == 2 * m' && ScanAt(width, height, y', m') && x' <= width + 1
    ensures Visited(width, y', m') == Visited(width, y, m) + [(x, y)]
            && Visited(width, y', m') <= FullOrder(width, height)
    ensures y' > y || (y' == y && x' > x)
    ensures (x', y') == NextCoord(width, (x, y))
  {
    ScanMoves(width, height, y, m);
    x', y' := Advance(width, x, y);
    m' := if y' == y then m + 1 else 0;
  }

  // ----- where the cursor gets to -----

  /** With the largest width the cursor wraps to the start of the first row, for ever. */
  lemma {:induction false} WidestNeverLeavesRow(n: nat)
    ensures var c := CursorAfter(TWO_32 - 1, n); c.1 == 0 && c.0 % 2 == 0 && c.0 < TWO_32 - 1
  {
    if n > 0 {
      WidestNeverLeavesRow(n - 1);
    }
  }

  lemma {:induction false} OddCursor(width: uint32, m: nat)
    requires width % 2 == 1 && width < TWO_32 - 1 && 2 * m <= width + 1
    ensures CursorAfter(width, m) == (2 * m, 0)
  {
    if m > 0 {
      OddCursor(width, m - 1);
    }
  }

  /** Along one row of even width. */
  lemma {:induction false} CursorInRow(width: uint32, base: nat, y: uint32, m: nat)
    requires width % 2 == 0 && 2 * m < width && CursorAfter(width, base) == (0, y)
    ensures CursorAfter(width, base + m) == (2 * m, y)
  {
    if m > 0 {
      CursorInRow(width, base, y, m - 1);
      CursorMoves(width, base + m);
    }
  }

  lemma {:induction false} CursorAtRow(width: uint32, y: uint32)
    requires width % 2 == 0 && width > 0
    ensures CursorAfter(width, y * (width / 2)) == (0, y)
    decreases y
  {
    var half := width / 2;
    if y == 0 {
      assert y * half == 0;
    } else {
      CursorAtRow(width, y - 1);
      CursorInRow(width, (y - 1) * half, y - 1, half - 1);
      RowAfter(y, half);
      CursorMoves(width, y * half);
    }
  }

  lemma RowAfter(y: int, half: int)
    ensures (y - 1) * half + (half - 1) == y * half - 1
  {
  }

  lemma CursorMoves(width: uint32, n: int)
    requires n > 0
    ensures CursorAfter(width, n) == NextCoord(width, CursorAfter(width, n - 1))
  {
  }

  /** The cursor leaves the frame if and only if the frame has no rows or its width is not the largest. */
  lemma ScanEndsIff(width: uint32, height: uint32)
    ensures (exists n :: !InRange(CursorAfter(width, n), width, height)) <==> height == 0 || width != TWO_32 - 1
  {
    if height == 0 || width == 0 {
      assert !InRange(CursorAfter(width, 0), width, height);
    } else if width == TWO_32 - 1 {
      forall n: nat
        ensures InRange(CursorAfter(width, n), width, height)
      {
        WidestNeverLeavesRow(n);
      }
    } else if width % 2 == 1 {
      OddCursor(width, (width + 1) / 2);
      assert !InRange(CursorAfter(width, (width + 1) / 2), width, height);
    } else {
      CursorAtRow(width, height);
      assert !InRange(CursorAfter(width, height * (width / 2) + 0), width, height);
    }
  }

  /**
   CheckFrame without the quick flag, for the widths for which its scan ends; ScanEndsIff says that
   this is all but one, for which the cursor would wrap to the start of its row.
   */
  method CheckFrameFully(frame: seq<State>, capture: Capture, width: uint32, height: uint32) returns (v: Verdict)
    requires width != TWO_32 - 1 || height == 0
    ensures v == ScanVerdict(Judge(frame, capture), FullOrder(width, height))
  {
    ghost var judge := Judge(frame, capture);
    var x: uint32, y: uint32 := 0, 0;
    ghost var n, m, visited := 0, 0, Visited(width, 0, 0);
    assert visited == [];
    while y < height && x < width
      invariant (x, y) == CursorAfter(width, n)
      invariant x == 2 * m && ScanAt(width, height, y, m) && x <= width + 1
      invariant visited == Visited(width, y, m)
      invariant ScanVerdict(judge, visited) == Match
      decreases height - y, width + 1 - x
    {
      v := CheckPoint(frame, capture, x, y);
      VerdictStep(judge, visited, (x, y));
      var x', y', m' := NextPoint(width, height, x, y, m);
      visited := visited + [(x, y)];
      if v != Match {
        FirstProblemDecides(judge, FullOrder(width, height), visited);
        return;
      }
      x, y, m, n := x', y', m', n + 1;
    }
    ScanEnds(width, height, y, m);
    v := Match;
  }

  lemma VerdictStep(judge: Coord -> Verdict, order: seq<Coord>, c: Coord)
    ensures ScanVerdict(judge, order + [c]) ==
            if ScanVerdict(judge, order) == Match then judge(c) else ScanVerdict(judge, order)
  {
    assert (order + [c])[..|order|] == order;
  }

  lemma {:induction false} FirstProblemDecides(judge: Coord -> Verdict, order: seq<Coord>, visited: seq<Coord>)
    requires visited <= order && ScanVerdict(judge, visited) != Match
    ensures ScanVerdict(judge, order) == ScanVerdict(judge, visited)
    decreases |order|
  {
    if |visited| == |order| {
      assert visited == order;
    } else {
      FirstProblemDecides(judge, order[..|order| - 1], visited);
    }
  }

  /** CheckFrame with the quick flag; the sentinel after the five points is outside every frame. */
  method CheckFrameQuickly(frame: seq<State>, capture: Capture, width: uint32, height: uint32) returns (v: Verdict)
    ensures v == ScanVerdict(Judge(frame, capture), QuickOrder(width, height, 5))
  {
    ghost var judge := Judge(frame, capture);
    var points := QuickPoints(width, height);
    var quickIdx := 0;
    while quickIdx < 5 && InRange(points[quickIdx], width, height)
      invariant 0 <= quickIdx <= 5 && |QuickOrder(width, height, quickIdx)| == quickIdx
      invariant ScanVerdict(judge, QuickOrder(width, height, quickIdx)) == Match
    {
      v := CheckPoint(frame, capture, points[quickIdx].0, points[quickIdx].1);
      VerdictStep(judge, QuickOrder(width, height, quickIdx), points[quickIdx]);
      if v != Match {
        QuickOrderGrows(width, height, quickIdx + 1, 5);
        FirstProblemDecides(judge, QuickOrder(width, height, 5), QuickOrder(width, height, quickIdx + 1));
        return;
      }
      quickIdx := quickIdx + 1;
    }
    if quickIdx < 5 {
      QuickOrderStops(width, height, quickIdx, 5);
    }
    v := Match;
  }

  lemma {:induction false} QuickOrderGrows(width: uint32, height: uint32, k: nat, n: nat)
    requires k <= n <= 5
    ensures QuickOrder(width, height, k) <= QuickOrder(width, height, n)
    decreases n
  {
    if k < n {
      QuickOrderGrows(width, height, k, n - 1);
    }
  }

  lemma {:induction false} QuickOrderStops(width: uint32, height: uint32, k: nat, n: nat)
    requires k < n <= 5 && |QuickOrder(width, height, k)| == k && !InRange(QuickPoints(width, height)[k], width, height)
    ensures QuickOrder(width, height, n) == QuickOrder(width, height, k)
    decreases n
  {
    if k < n - 1 {
      QuickOrderStops(width, height, k, n - 1);
    }
  }

  // ----- what the full scan covers -----

  predicate IsMacropixel(c: Coord, width: uint32, height: uint32) {
    c.0 % 2 == 0 && c.0 < width && c.1 < height
  }

  lemma {:induction false} RowVisitsOnce(y: uint32, m: nat, c: Coord)
    requires 2 * m <= TWO_32
    ensures multiset(Row(y, m))[c] == if c.0 % 2 == 0 && c.0 < 2 * m && c.1 == y then 1 else 0
  {
    if m > 0 {
      RowVisitsOnce(y, m - 1, c);
      assert Row(y, m) == Row(y, m - 1) + [(2 * (m - 1), y)];
    }
  }

  lemma {:induction false} RowsVisitOnce(m: nat, height: uint32, c: Coord)
    requires 2 * m <= TWO_32
    ensures multiset(Rows(m, height))[c] == if c.0 % 2 == 0 && c.0 < 2 * m && c.1 < height then 1 else 0
  {
    if height > 0 {
      RowsVisitOnce(m, height - 1, c);
      RowVisitsOnce(height - 1, m, c);
    }
  }

  /** How often the full scan visits a coordinate. */
  lemma FullOrderVisits(width: uint32, height: uint32, c: Coord)
    ensures multiset(FullOrder(width, height))[c] ==
            if IsMacropixel(c, width, height) && (width % 2 == 0 || c.1 == 0) then 1 else 0
  {
    if width % 2 == 0 {
      RowsVisitOnce(width / 2, height, c);
    } else if height > 0 {
      RowVisitsOnce(0, (width + 1) / 2, c);
    }
  }

  /** The full scan visits every macropixel, each once, exactly when the width is even or there is at most one row. */
  lemma FullScanCoversIff(width: uint32, height: uint32)
    ensures (forall c: Coord :: IsMacropixel(c, width, height) ==> multiset(FullOrder(width, height))[c] == 1) <==>
            width % 2 == 0 || height <= 1
  {
    forall c: Coord
      ensures multiset(FullOrder(width, height))[c] ==
              if IsMacropixel(c, width, height) && (width % 2 == 0 || c.1 == 0) then 1 else 0
    {
      FullOrderVisits(width, height, c);
    }
    if width % 2 == 1 && height > 1 {
      assert IsMacropixel((0, 1), width, height);
      assert multiset(FullOrder(width, height))[(0, 1)] == 0;
    }
  }

  lemma {:induction false} MatchMeansAllMatch(judge: Coord -> Verdict, order: seq<Coord>)
    ensures ScanVerdict(judge, order) == Match <==>
            forall c :: c in order ==> judge(c) == Match
  {
    if order != [] {
      var init, last := order[..|order| - 1], order[|order| - 1];
      SplitLast(order);
      MatchMeansAllMatch(judge, init);
    }
  }

  /** With an even width, a frame passes the full check if and only if every macropixel of it matches. */
  lemma FullCheckIsComplete(frame: seq<State>, capture: Capture, width: uint32, height: uint32)
    requires width % 2 == 0
    ensures ScanVerdict(Judge(frame, capture), FullOrder(width, height)) == Match <==>
            forall c: Coord :: IsMacropixel(c, width, height) ==> PointMatches(frame, capture, c.0, c.1)
  {
    MatchMeansAllMatch(Judge(frame, capture), FullOrder(width, height));
    forall c: Coord
      ensures IsMacropixel(c, width, height) <==> c in FullOrder(width, height)
    {
      VisitedIff(width, height, c);
    }
    forall c: Coord
      ensures Judge(frame, capture)(c) == Match <==> PointMatches(frame, capture, c.0, c.1)
    {
      PointVerdictMeans(frame, capture, c.0, c.1);
    }
  }

  lemma VisitedIff(width: uint32, height: uint32, c: Coord)
    requires width % 2 == 0
    ensures IsMacropixel(c, width, height) <==> c in FullOrder(width, height)
  {
    FullOrderVisits(width, height, c);
    assert c in multiset(FullOrder(width, height)) <==> c in FullOrder(width, height);
  }

  /** The corners and the middle of a frame, or what there is of them. */
  predicate IsQuickPoint(c: Coord, width: uint32, height: uint32) {
    && width > 0 && height > 0
    && (|| c == (0, 0)
        || c == (0, height - 1)
        || (width > 1 && (|| c == (width - 2, 0)
                          || c == (width - 2, height - 1)
                          || c == (width / 2, height / 2))))
  }

  ghost predicate CornersMatch(frame: seq<State>, capture: Capture, width: uint32, height: uint32) {
    forall c: Coord :: IsQuickPoint(c, width, height) ==> PointMatches(frame, capture, c.0, c.1)
  }

  lemma {:induction false} QuickOrderTakes(width: uint32, height: uint32, n: nat)
    requires n <= 5 && forall i :: 0 <= i < n ==> InRange(QuickPoints(width, height)[i], width, height)
    ensures QuickOrder(width, height, n) == QuickPoints(width, height)[..n]
  {
    if n > 0 {
      QuickOrderTakes(width, height, n - 1);
    }
  }

  lemma QuickOrderIs(width: uint32, height: uint32)
    ensures QuickOrder(width, height, 5) ==
            if width == 0 || height == 0 then []
            else if width == 1 then [(0, 0), (0, height - 1)]
            else [(0, 0), (0, height - 1), (width - 2, 0), (width - 2, height - 1), (width / 2, height / 2)]
  {
    if width == 0 || height == 0 {
      QuickOrderStops(width, height, 0, 5);
    } else if width == 1 {
      QuickOrderTakes(width, height, 2);
      QuickOrderStops(width, height, 2, 5);
    } else {
      QuickOrderTakes(width, height, 5);
    }
  }

  /** A frame passes the quick check if and only if its corners and its middle match. */
  lemma QuickCheckMeans(frame: seq<State>, capture: Capture, width: uint32, height: uint32)
    ensures ScanVerdict(Judge(frame, capture), QuickOrder(width, height, 5)) == Match <==>
            CornersMatch(frame, capture, width, height)
  {
    MatchMeansAllMatch(Judge(frame, capture), QuickOrder(width, height, 5));
    forall c: Coord
      ensures IsQuickPoint(c, width, height) <==> c in QuickOrder(width, height, 5)
    {
      QuickOrderIs(width, height);
    }
    forall c: Coord
      ensures Judge(frame, capture)(c) == Match <==> PointMatches(frame, capture, c.0, c.1)
    {
      PointVerdictMeans(frame, capture, c.0, c.1);
    }
  }

  /** For layers that match their images, what a point is compared with is opaque and was blended without clamping. */
  lemma ComparedColorIsExact(frame: seq<State>, x: uint32, y: uint32)
    requires forall i :: 0 <= i < |frame| ==> Matches(frame[i])
    requires Covered(PixelsAt(frame, x, y))
    ensures var ps := PixelsAt(frame, x, y);
            var c := Blend(ps);
            IsOpaque(c) && ExactBlend(ps) == (c.r, c.g, c.b)
  {
    var ps := PixelsAt(frame, x, y);
    forall i | 0 <= i < |ps| && ps[i].Present?
      ensures Dominated(ps[i].color)
    {
      LayerPixelsAreDominated(frame[i], x, y);
    }
    BlendIsExactAndOpaque(ps);
  }
}
