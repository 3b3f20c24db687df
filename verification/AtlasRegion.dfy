/** Sixel/iTerm2 placements and the cell-aligned holes punched into them
    (patches/rio-vt/src/ansi/graphics.rs).

    A placement shows a crop of a texture over a rectangle of grid cells. Overwriting
    cells subtracts a hole: the placement is replaced by up to four children that share
    its texture. What has to survive any number of such splits is geometry: the children
    tile exactly the cells that are left, every texture pixel stays on the cell it was
    on, and no pixel is lost or shown twice.

    Machine arithmetic is explicit: crops are `u32`, the casts of row differences wrap. */
module AtlasRegion {
  import opened Basics

  const U32: nat := 0x1_0000_0000
  const U64: nat := 0x1_0000_0000_0000_0000
  /** Display sizes and cell strides are stored from `u16` values at insertion. */
  const MAX_U16: nat := 0xFFFF

  datatype AtlasPlacement = AtlasPlacement(
    imageKey: nat,
    absRow: int,
    col: nat,
    columns: nat,
    rows: nat,
    srcX: nat,
    srcY: nat,
    srcWidth: nat,
    srcHeight: nat,
    totalWidth: nat,
    totalHeight: nat,
    cellW: nat,
    cellH: nat)

  /** Rows [r0, r1) and columns [c0, c1); nothing says r0 <= r1 or c0 <= c1. */
  datatype Hole = Hole(r0: int, r1: int, c0: nat, c1: nat)

  /** A value kept in a `u32`; the second branch is the wrap-around. */
  function AsU32(x: int): nat { if 0 <= x < U32 then x else x % U32 }

  function AsU64(x: int): nat { if 0 <= x < U64 then x else x % U64 }

  /** The pixels that `cells` cells of stride `m` take: their product, built up cell by cell. */
  function Span(cells: nat, m: nat): nat {
    if cells == 0 then 0 else Span(cells - 1, m) + m
  }

  // ---------------------------------------------------------------- the operations

  /** Where the crop of the cell `k` cells into an extent starts. */
  function Edge(src: nat, k: int, m: nat): nat {
    AsU32(src + Span(AsU32(k), m))
  }

  /** Where a crop ending before the cell `k` cells into an extent ends: at that cell's
      edge, or at the extent's own end when its last cell is only partly filled. */
  function End(src: nat, len: nat, k: int, m: nat): nat {
    Min(Edge(src, k, m), AsU32(src + len))
  }

  /** The child covering rows [row0, row1) and columns [col0, col1). The unsigned column
      subtractions need `col <= col0 <= col1`; signed row differences are cast and wrap. */
  function Slice(p: AtlasPlacement, row0: int, row1: int, col0: nat, col1: nat): AtlasPlacement
    requires p.col <= col0 <= col1
  {
    var x0 := Edge(p.srcX, col0 - p.col, p.cellW);
    var y0 := Edge(p.srcY, row0 - p.absRow, p.cellH);
    p.(absRow := row0, col := col0, columns := col1 - col0, rows := AsU64(row1 - row0),
       srcX := x0, srcY := y0,
       srcWidth := SatSub(End(p.srcX, p.srcWidth, col1 - p.col, p.cellW), x0),
       srcHeight := SatSub(End(p.srcY, p.srcHeight, row1 - p.absRow, p.cellH), y0))
  }

  predicate Visible(q: AtlasPlacement) {
    q.columns > 0 && q.rows > 0 && q.srcWidth > 0 && q.srcHeight > 0
  }

  function Keep(q: AtlasPlacement): seq<AtlasPlacement> {
    if Visible(q) then [q] else []
  }

  /** The hole misses the placement, which is then kept as it is. */
  predicate Misses(p: AtlasPlacement, h: Hole) {
    h.r1 <= p.absRow || h.r0 >= p.absRow + p.rows || h.c1 <= p.col || h.c0 >= p.col + p.columns
  }

  /** The surviving pieces: top and bottom at full width, then left and right of the hole. */
  function Pieces(p: AtlasPlacement, h: Hole): seq<AtlasPlacement>
    requires !Misses(p, h)
  {
    Top(p, h) + Bottom(p, h) + Left(p, h) + Right(p, h)
  }

  function Top(p: AtlasPlacement, h: Hole): seq<AtlasPlacement> {
    var i0 := Max(h.r0, p.absRow);
    if i0 > p.absRow then Keep(Slice(p, p.absRow, i0, p.col, p.col + p.columns)) else []
  }

  function Bottom(p: AtlasPlacement, h: Hole): seq<AtlasPlacement> {
    var r1 := p.absRow + p.rows;
    var i1 := Min(h.r1, r1);
    if i1 < r1 then Keep(Slice(p, i1, r1, p.col, p.col + p.columns)) else []
  }

  function Left(p: AtlasPlacement, h: Hole): seq<AtlasPlacement> {
    var i0, i1 := Max(h.r0, p.absRow), Min(h.r1, p.absRow + p.rows);
    if h.c0 > p.col then Keep(Slice(p, i0, i1, p.col, Min(h.c0, p.col + p.columns))) else []
  }

  function Right(p: AtlasPlacement, h: Hole): seq<AtlasPlacement> {
    var i0, i1 := Max(h.r0, p.absRow), Min(h.r1, p.absRow + p.rows);
    if h.c1 < p.col + p.columns then Keep(Slice(p, i0, i1, Max(h.c1, p.col), p.col + p.columns)) else []
  }

  /** What one placement becomes under one hole. */
  function Clip(p: AtlasPlacement, h: Hole): seq<AtlasPlacement> {
    if Misses(p, h) then [p] else Pieces(p, h)
  }

  function ClipAll(ps: seq<AtlasPlacement>, h: Hole): seq<AtlasPlacement> {
    if ps == [] then [] else ClipAll(ps[..|ps| - 1], h) + Clip(ps[|ps| - 1], h)
  }

  function ClipHoles(ps: seq<AtlasPlacement>, holes: seq<Hole>): seq<AtlasPlacement> {
    if holes == [] then ps else ClipAll(ClipHoles(ps, holes[..|holes| - 1]), holes[|holes| - 1])
  }

  /** Appends the surviving pieces to `out`; `hit` is false when the hole misses. */
  method SubtractRect(p: AtlasPlacement, h: Hole, out: seq<AtlasPlacement>)
    returns (hit: bool, next: seq<AtlasPlacement>)
    ensures hit == !Misses(p, h)
    ensures next == if hit then out + Clip(p, h) else out
  {
    hide Slice, Edge, End;
    next := out;
    var r0, r1, c0, c1 := p.absRow, p.absRow + p.rows, p.col, p.col + p.columns;
    if h.r1 <= r0 || h.r0 >= r1 || h.c1 <= c0 || h.c0 >= c1 {
      return false, next;
    }
    var i0 := Max(h.r0, r0);
    var i1 := Min(h.r1, r1);
    if i0 > r0 {
      next := PushVisible(next, Slice(p, r0, i0, c0, c1));
    }
    assert next == out + Top(p, h);
    if i1 < r1 {
      next := PushVisible(next, Slice(p, i1, r1, c0, c1));
    }
    assert next == out + Top(p, h) + Bottom(p, h);
    if h.c0 > c0 {
      next := PushVisible(next, Slice(p, i0, i1, c0, Min(h.c0, c1)));
    }
    assert next == out + Top(p, h) + Bottom(p, h) + Left(p, h);
    if h.c1 < c1 {
      next := PushVisible(next, Slice(p, i0, i1, Max(h.c1, c0), c1));
    }
    assert next == out + Top(p, h) + Bottom(p, h) + Left(p, h) + Right(p, h);
    Regroup(out, Top(p, h), Bottom(p, h), Left(p, h), Right(p, h));
    hit := true;
  }

  lemma Regroup<T>(o: seq<T>, a: seq<T>, b: seq<T>, c: seq<T>, d: seq<T>)
    ensures o + a + b + c + d == o + (a + b + c + d)
  {}

  method PushVisible(out: seq<AtlasPlacement>, child: AtlasPlacement) returns (next: seq<AtlasPlacement>)
    ensures next == out + Keep(child)
  {
    next := out;
    if child.columns > 0 && child.rows > 0 && child.srcWidth > 0 && child.srcHeight > 0 {
      next := next + [child];
    }
  }

  /** The loop that clips every placement of a screen against one hole. */
  method ClipPlacements(placed: seq<AtlasPlacement>, h: Hole) returns (next: seq<AtlasPlacement>, changed: bool)
    ensures next == ClipAll(placed, h)
    ensures changed <==> exists p :: p in placed && !Misses(p, h)
  {
    hide Misses, Pieces;
    next, changed := [], false;
    for i := 0 to |placed|
      invariant next == ClipAll(placed[..i], h)
      invariant changed <==> exists p :: p in placed[..i] && !Misses(p, h)
    {
      assert placed[..i + 1][..i] == placed[..i];
      var hit, more := SubtractRect(placed[i], h, next);
      if hit {
        next, changed := more, true;
      } else {
        next := more + [placed[i]];
      }
    }
    assert placed[..|placed|] == placed;
  }

  // ---------------------------------------------------------------- geometry

  predicate CellIn(p: AtlasPlacement, r: int, c: int) {
    p.absRow <= r < p.absRow + p.rows && p.col <= c < p.col + p.columns
  }

  predicate InHole(h: Hole, r: int, c: int) {
    h.r0 <= r < h.r1 && h.c0 <= c < h.c1
  }

  ghost predicate InHoles(holes: seq<Hole>, r: int, c: int) {
    exists k :: 0 <= k < |holes| && InHole(holes[k], r, c)
  }

  /** One axis of a placement: `n` cells of stride `m` showing `len` pixels from `src`. The
      last cell may be partly filled; sizes come from `u16` values. */
  predicate AxisWellFormed(src: nat, len: nat, n: nat, m: nat, total: nat) {
    && 0 < m <= MAX_U16 && n > 0
    && Span(n - 1, m) < len <= Span(n, m)
    && src + len <= total <= MAX_U16
  }

  /** The shape `insert_graphic` creates. */
  predicate WellFormed(p: AtlasPlacement) {
    && AxisWellFormed(p.srcX, p.srcWidth, p.columns, p.cellW, p.totalWidth)
    && AxisWellFormed(p.srcY, p.srcHeight, p.rows, p.cellH, p.totalHeight)
  }

  /** `q` is exactly the slice of `p` over `q`'s own cells, and those lie inside `p`. */
  ghost predicate SliceOf(p: AtlasPlacement, q: AtlasPlacement) {
    && q.columns > 0 && q.rows > 0
    && p.absRow <= q.absRow && q.absRow + q.rows <= p.absRow + p.rows
    && p.col <= q.col && q.col + q.columns <= p.col + p.columns
    && q == Slice(p, q.absRow, q.absRow + q.rows, q.col, q.col + q.columns)
  }

  ghost predicate Disjoint(a: AtlasPlacement, b: AtlasPlacement) {
    forall r, c :: CellIn(a, r, c) ==> !CellIn(b, r, c)
  }

  ghost predicate PairwiseDisjoint(qs: seq<AtlasPlacement>) {
    forall i, j :: 0 <= i < j < |qs| ==> Disjoint(qs[i], qs[j])
  }

  ghost predicate Covered(qs: seq<AtlasPlacement>, r: int, c: int) {
    exists i :: 0 <= i < |qs| && CellIn(qs[i], r, c)
  }

  /** `qs` are slices of `p`, overlap nowhere, and cover `p` minus the holes. */
  ghost predicate Tiles(p: AtlasPlacement, qs: seq<AtlasPlacement>, holes: seq<Hole>) {
    && (forall i :: 0 <= i < |qs| ==> SliceOf(p, qs[i]))
    && PairwiseDisjoint(qs)
    && (forall r, c :: Covered(qs, r, c) <==> CellIn(p, r, c) && !InHoles(holes, r, c))
  }

  // ---------------------------------------------------------------- slices of slices

  lemma {:induction false} SpanProduct(cells: nat, m: nat)
    ensures Span(cells, m) == cells * m
  {
    if cells == 0 {
    } else {
      SpanProduct(cells - 1, m);
      assert cells * m == (cells - 1) * m + m;
    }
  }

  lemma {:induction false} SpanAdd(a: nat, b: nat, m: nat)
    ensures Span(a + b, m) == Span(a, m) + Span(b, m)
    decreases b
  {
    if b == 0 {
    } else {
      SpanAdd(a, b - 1, m);
      assert a + b - 1 == a + (b - 1);
    }
  }

  lemma SpanMono(a: nat, b: nat, m: nat)
    requires a <= b
    ensures Span(a, m) <= Span(b, m)
    ensures a < b ==> Span(a, m) + m <= Span(b, m)
  {
    SpanAdd(a, b - a, m);
  }

  lemma {:induction false} SpanCount(n: nat, m: nat)
    requires m > 0
    ensures n <= Span(n, m)
  {
    if n == 0 {
    } else {
      SpanCount(n - 1, m);
    }
  }

  lemma HasCells(p: AtlasPlacement)
    requires WellFormed(p)
    ensures p.columns > 0 && p.rows > 0 && p.cellW > 0 && p.cellH > 0 && p.srcWidth > 0 && p.srcHeight > 0
  {}

  /** No `u32` operation on an edge wraps: a well-formed extent has few cells. */
  lemma EdgeExact(src: nat, len: nat, n: nat, m: nat, total: nat, k: nat)
    requires AxisWellFormed(src, len, n, m, total) && k <= n
    ensures Edge(src, k, m) == src + Span(k, m)
    ensures End(src, len, k, m) == Min(src + Span(k, m), src + len)
    ensures n <= 2 * MAX_U16
    ensures k < n ==> Span(k, m) < len
  {
    SpanMono(k, n, m);
    SpanCount(n, m);
    if k < n { SpanMono(k, n - 1, m); }
  }

  /** A non-empty slice of a well-formed extent is well-formed. */
  lemma AxisSlice(src: nat, len: nat, n: nat, m: nat, total: nat, k0: nat, k1: nat)
    requires AxisWellFormed(src, len, n, m, total) && k0 < k1 <= n
    ensures Edge(src, k0, m) < End(src, len, k1, m)
    ensures AxisWellFormed(Edge(src, k0, m), End(src, len, k1, m) - Edge(src, k0, m), k1 - k0, m, total)
  {
    EdgeExact(src, len, n, m, total, k0);
    EdgeExact(src, len, n, m, total, k1 - 1);
    EdgeExact(src, len, n, m, total, k1);
    SpanAdd(k0, k1 - k0, m);
    SpanAdd(k0, k1 - k0 - 1, m);
  }

  /** Slicing a slice of an extent is slicing the extent. */
  lemma AxisCompose(src: nat, len: nat, n: nat, m: nat, total: nat, a0: nat, a1: nat, b0: nat, b1: nat)
    requires AxisWellFormed(src, len, n, m, total)
    requires a0 <= b0 < b1 <= a1 <= n
    ensures var s, e := Edge(src, a0, m), End(src, len, a1, m);
            && s < e
            && Edge(s, b0 - a0, m) == Edge(src, b0, m)
            && End(s, e - s, b1 - a0, m) == End(src, len, b1, m)
  {
    hide AxisWellFormed, Edge, End, Span;
    AxisSlice(src, len, n, m, total, a0, a1);
    var s, e := Edge(src, a0, m), End(src, len, a1, m);
    EdgeExact(src, len, n, m, total, a0);
    EdgeExact(src, len, n, m, total, a1);
    EdgeExact(src, len, n, m, total, b0);
    EdgeExact(src, len, n, m, total, b1);
    EdgeExact(s, e - s, a1 - a0, m, total, b0 - a0);
    EdgeExact(s, e - s, a1 - a0, m, total, b1 - a0);
    SpanAdd(a0, b0 - a0, m);
    SpanAdd(a0, b1 - a0, m);
    SpanMono(b1, a1, m);
  }

  /** A non-empty slice of a well-formed placement is well-formed and visible. */
  lemma SliceIdeal(p: AtlasPlacement, row0: int, row1: int, col0: nat, col1: nat)
    requires WellFormed(p)
    requires p.absRow <= row0 < row1 <= p.absRow + p.rows
    requires p.col <= col0 < col1 <= p.col + p.columns
    ensures var q := Slice(p, row0, row1, col0, col1);
            && WellFormed(q) && Visible(q) && SliceOf(p, q)
            && q.absRow == row0 && q.rows == row1 - row0 && q.col == col0 && q.columns == col1 - col0
  {
    hide AxisWellFormed, Edge, End;
    AxisSlice(p.srcX, p.srcWidth, p.columns, p.cellW, p.totalWidth, col0 - p.col, col1 - p.col);
    AxisSlice(p.srcY, p.srcHeight, p.rows, p.cellH, p.totalHeight, row0 - p.absRow, row1 - p.absRow);
    assert p.rows <= 2 * MAX_U16 by { EdgeExact(p.srcY, p.srcHeight, p.rows, p.cellH, p.totalHeight, 0); }
  }

  lemma SliceOfIdeal(p: AtlasPlacement, q: AtlasPlacement)
    requires WellFormed(p) && SliceOf(p, q)
    ensures WellFormed(q) && Visible(q)
  {
    SliceIdeal(p, q.absRow, q.absRow + q.rows, q.col, q.col + q.columns);
  }

  /** Slicing a slice is slicing the original: repeated splits never drift. */
  lemma SliceCompose(p: AtlasPlacement, q: AtlasPlacement, s: AtlasPlacement)
    requires WellFormed(p) && SliceOf(p, q) && SliceOf(q, s)
    ensures SliceOf(p, s)
  {
    hide Edge, End, AxisWellFormed;
    SliceOfIdeal(p, q);
    var a0, a1, b0, b1 := q.col - p.col, q.col + q.columns - p.col, s.col - p.col, s.col + s.columns - p.col;
    AxisCompose(p.srcX, p.srcWidth, p.columns, p.cellW, p.totalWidth, a0, a1, b0, b1);
    assert b0 - a0 == s.col - q.col && b1 - a0 == s.col + s.columns - q.col;
    var d0, d1, e0, e1 := q.absRow - p.absRow, q.absRow + q.rows - p.absRow, s.absRow - p.absRow, s.absRow + s.rows - p.absRow;
    AxisCompose(p.srcY, p.srcHeight, p.rows, p.cellH, p.totalHeight, d0, d1, e0, e1);
    assert e0 - d0 == s.absRow - q.absRow && e1 - d0 == s.absRow + s.rows - q.absRow;
  }

  lemma SelfSlice(p: AtlasPlacement)
    requires WellFormed(p)
    ensures SliceOf(p, p)
  {
    SliceIdeal(p, p.absRow, p.absRow + p.rows, p.col, p.col + p.columns);
    EdgeExact(p.srcX, p.srcWidth, p.columns, p.cellW, p.totalWidth, 0);
    EdgeExact(p.srcX, p.srcWidth, p.columns, p.cellW, p.totalWidth, p.columns);
    EdgeExact(p.srcY, p.srcHeight, p.rows, p.cellH, p.totalHeight, 0);
    EdgeExact(p.srcY, p.srcHeight, p.rows, p.cellH, p.totalHeight, p.rows);
  }

  // ---------------------------------------------------------------- one hole

  /** No bound is inverted. The hole may be empty. */
  predicate Orderly(h: Hole) {
    h.r0 <= h.r1 && h.c0 <= h.c1
  }

  /** `s` is the visible slice of `p` over the region, or nothing when the region is empty. */
  ghost predicate Piece(p: AtlasPlacement, s: seq<AtlasPlacement>, r0: int, r1: int, c0: int, c1: int) {
    if r0 < r1 && c0 < c1
    then |s| == 1 && SliceOf(p, s[0]) && s[0].absRow == r0 && s[0].rows == r1 - r0
         && s[0].col == c0 && s[0].columns == c1 - c0
    else s == []
  }

  lemma PieceCovers(p: AtlasPlacement, s: seq<AtlasPlacement>, r0: int, r1: int, c0: int, c1: int)
    requires Piece(p, s, r0, r1, c0, c1)
    ensures forall r, c :: Covered(s, r, c) <==> r0 <= r < r1 && c0 <= c < c1
    ensures PairwiseDisjoint(s)
    ensures forall i :: 0 <= i < |s| ==> SliceOf(p, s[i])
  {
    hide SliceOf;
    forall r, c | r0 <= r < r1 && c0 <= c < c1 ensures Covered(s, r, c) {
      assert CellIn(s[0], r, c);
    }
  }

  /** A region of `p` with cells is one visible piece; the visibility filter drops nothing. */
  lemma RegionPiece(p: AtlasPlacement, r0: int, r1: int, c0: nat, c1: nat)
    requires WellFormed(p)
    requires p.absRow <= r0 < r1 <= p.absRow + p.rows && p.col <= c0 < c1 <= p.col + p.columns
    ensures Piece(p, Keep(Slice(p, r0, r1, c0, c1)), r0, r1, c0, c1)
  {
    SliceIdeal(p, r0, r1, c0, c1);
  }

  /** Each side of an orderly hole leaves exactly its region. */
  lemma PieceShapes(p: AtlasPlacement, h: Hole)
    requires WellFormed(p) && !Misses(p, h) && (Orderly(h) || h.r0 == h.r1)
    ensures var r0, r1, c0, c1 := p.absRow, p.absRow + p.rows, p.col, p.col + p.columns;
            var i0, i1 := Max(h.r0, r0), Min(h.r1, r1);
            && Piece(p, Top(p, h), r0, i0, c0, c1)
            && Piece(p, Bottom(p, h), i1, r1, c0, c1)
            && Piece(p, Left(p, h), i0, i1, c0, Min(h.c0, c1))
            && Piece(p, Right(p, h), i0, i1, Max(h.c1, c0), c1)
  {
    var r0, r1, c0, c1 := p.absRow, p.absRow + p.rows, p.col, p.col + p.columns;
    var i0, i1 := Max(h.r0, r0), Min(h.r1, r1);
    hide WellFormed, SliceOf, Slice, Keep;
    HasCells(p);
    assert Piece(p, Top(p, h), r0, i0, c0, c1) by {
      if i0 > r0 { RegionPiece(p, r0, i0, c0, c1); }
    }
    assert Piece(p, Bottom(p, h), i1, r1, c0, c1) by {
      if i1 < r1 { RegionPiece(p, i1, r1, c0, c1); }
    }
    if i0 < i1 {
      assert Piece(p, Left(p, h), i0, i1, c0, Min(h.c0, c1)) by {
        if h.c0 > c0 { RegionPiece(p, i0, i1, c0, Min(h.c0, c1)); }
      }
      assert Piece(p, Right(p, h), i0, i1, Max(h.c1, c0), c1) by {
        if h.c1 < c1 { RegionPiece(p, i0, i1, Max(h.c1, c0), c1); }
      }
    } else {
      NoRows(p, h);
    }
  }

  /** A hole without rows leaves nothing at its sides. */
  lemma NoRows(p: AtlasPlacement, h: Hole)
    requires !Misses(p, h) && h.r0 == h.r1
    ensures Left(p, h) == [] && Right(p, h) == []
  {}

  lemma CoveredConcat(a: seq<AtlasPlacement>, b: seq<AtlasPlacement>, r: int, c: int)
    ensures Covered(a + b, r, c) <==> Covered(a, r, c) || Covered(b, r, c)
  {
    if Covered(a, r, c) {
      var i :| 0 <= i < |a| && CellIn(a[i], r, c);
      assert CellIn((a + b)[i], r, c);
    }
    if Covered(b, r, c) {
      var i :| 0 <= i < |b| && CellIn(b[i], r, c);
      assert CellIn((a + b)[|a| + i], r, c);
    }
  }

  /** Joining two families of slices that share no cell. */
  lemma JoinDisjoint(p: AtlasPlacement, a: seq<AtlasPlacement>, b: seq<AtlasPlacement>)
    requires PairwiseDisjoint(a) && PairwiseDisjoint(b)
    requires forall r, c :: Covered(a, r, c) ==> !Covered(b, r, c)
    requires forall i :: 0 <= i < |a| ==> SliceOf(p, a[i])
    requires forall i :: 0 <= i < |b| ==> SliceOf(p, b[i])
    ensures PairwiseDisjoint(a + b)
    ensures forall i :: 0 <= i < |a + b| ==> SliceOf(p, (a + b)[i])
    ensures forall r, c :: Covered(a + b, r, c) <==> Covered(a, r, c) || Covered(b, r, c)
  {
    hide SliceOf;
    forall r, c ensures Covered(a + b, r, c) <==> Covered(a, r, c) || Covered(b, r, c) {
      CoveredConcat(a, b, r, c);
    }
    forall i, j | 0 <= i < j < |a + b| ensures Disjoint((a + b)[i], (a + b)[j]) {
      if i < |a| <= j {
        forall r, c | CellIn(a[i], r, c) ensures !CellIn(b[j - |a|], r, c) {
          assert Covered(a, r, c);
        }
      }
    }
  }

  lemma OneHole(h: Hole)
    ensures forall r, c :: InHoles([h], r, c) <==> InHole(h, r, c)
  {
    assert [h][0] == h;
  }

  lemma OneCovers(q: AtlasPlacement)
    ensures forall r, c :: Covered([q], r, c) <==> CellIn(q, r, c)
  {
    assert [q][0] == q;
  }

  /** The pieces of one placement under one orderly hole tile it minus the hole. */
  lemma ClipTiles(p: AtlasPlacement, h: Hole)
    requires WellFormed(p) && (Misses(p, h) || Orderly(h) || h.r0 == h.r1)
    ensures Tiles(p, Clip(p, h), [h])
  {
    hide SliceOf, WellFormed, Slice, Top, Bottom, Left, Right, Covered, InHoles, Piece;
    OneHole(h);
    if Misses(p, h) {
      SelfSlice(p);
      OneCovers(p);
    } else {
      var r0, r1, c0, c1 := p.absRow, p.absRow + p.rows, p.col, p.col + p.columns;
      var i0, i1 := Max(h.r0, r0), Min(h.r1, r1);
      PieceShapes(p, h);
      PieceCovers(p, Top(p, h), r0, i0, c0, c1);
      PieceCovers(p, Bottom(p, h), i1, r1, c0, c1);
      PieceCovers(p, Left(p, h), i0, i1, c0, Min(h.c0, c1));
      PieceCovers(p, Right(p, h), i0, i1, Max(h.c1, c0), c1);
      hide PairwiseDisjoint;
      JoinDisjoint(p, Top(p, h), Bottom(p, h));
      JoinDisjoint(p, Top(p, h) + Bottom(p, h), Left(p, h));
      JoinDisjoint(p, Top(p, h) + Bottom(p, h) + Left(p, h), Right(p, h));
    }
  }

  /** Exactly when one subtraction is right: the hole misses, or its rows are in order and
      its columns are in order unless it has no rows. An inverted hole that hits duplicates
      cells, because top and bottom (or left and right) overlap. */
  lemma ClipTilesIff(p: AtlasPlacement, h: Hole)
    requires WellFormed(p)
    ensures Tiles(p, Clip(p, h), [h]) <==> Misses(p, h) || Orderly(h) || h.r0 == h.r1
  {
    if Misses(p, h) || Orderly(h) || h.r0 == h.r1 {
      ClipTiles(p, h);
    } else {
      InvertedOverlaps(p, h);
    }
  }

  lemma InvertedOverlaps(p: AtlasPlacement, h: Hole)
    requires WellFormed(p) && !Misses(p, h) && !Orderly(h) && h.r0 != h.r1
    ensures !PairwiseDisjoint(Clip(p, h))
  {
    var r0, r1, c0, c1 := p.absRow, p.absRow + p.rows, p.col, p.col + p.columns;
    var i0, i1 := Max(h.r0, r0), Min(h.r1, r1);
    var qs := Clip(p, h);
    hide AxisWellFormed, Edge, End;
    HasCells(p);
    if h.r0 > h.r1 {
      SliceIdeal(p, r0, i0, c0, c1);
      SliceIdeal(p, i1, r1, c0, c1);
      assert qs[0] == Slice(p, r0, i0, c0, c1) && qs[1] == Slice(p, i1, r1, c0, c1);
      assert CellIn(qs[0], i1, c0) && CellIn(qs[1], i1, c0);
      assert !Disjoint(qs[0], qs[1]);
    } else {
      SliceIdeal(p, i0, i1, c0, h.c0);
      SliceIdeal(p, i0, i1, h.c1, c1);
      var n := |Top(p, h) + Bottom(p, h)|;
      assert qs[n] == Slice(p, i0, i1, c0, h.c0) && qs[n + 1] == Slice(p, i0, i1, h.c1, c1);
      assert CellIn(qs[n], i0, h.c1) && CellIn(qs[n + 1], i0, h.c1);
      assert !Disjoint(qs[n], qs[n + 1]);
    }
  }

  // ---------------------------------------------------------------- any number of holes

  /** The hole splits each of these correctly. */
  predicate Harmless(qs: seq<AtlasPlacement>, h: Hole) {
    forall i :: 0 <= i < |qs| ==> Misses(qs[i], h) || Orderly(h) || h.r0 == h.r1
  }

  lemma {:induction false} ClipAllTiles(p: AtlasPlacement, qs: seq<AtlasPlacement>, h: Hole)
    requires WellFormed(p) && Harmless(qs, h)
    requires forall i :: 0 <= i < |qs| ==> SliceOf(p, qs[i])
    requires PairwiseDisjoint(qs)
    ensures forall i :: 0 <= i < |ClipAll(qs, h)| ==> SliceOf(p, ClipAll(qs, h)[i])
    ensures PairwiseDisjoint(ClipAll(qs, h))
    ensures forall r, c :: Covered(ClipAll(qs, h), r, c) <==> Covered(qs, r, c) && !InHole(h, r, c)
  {
    hide SliceOf, WellFormed, Slice, Clip;
    if qs == [] {
    } else {
      var n := |qs| - 1;
      var front, q := qs[..n], qs[n];
      assert qs == front + [q];
      ClipAllTiles(p, front, h);
      SliceOfIdeal(p, q);
      ClipTiles(q, h);
      var tail := Clip(q, h);
      forall i | 0 <= i < |tail| ensures SliceOf(p, tail[i]) {
        SliceCompose(p, q, tail[i]);
      }
      OneHole(h);
      OneCovers(q);
      forall r, c
        ensures Covered(qs, r, c) <==> Covered(front, r, c) || CellIn(q, r, c)
        ensures CellIn(q, r, c) ==> !Covered(front, r, c)
      {
        CoveredConcat(front, [q], r, c);
      }
      JoinDisjoint(p, ClipAll(front, h), tail);
    }
  }

  /** After any sequence of orderly holes, the children of a placement are slices of it,
      share no cell, and cover exactly the original cells outside every hole. */
  lemma {:induction false} HolesTile(p: AtlasPlacement, holes: seq<Hole>)
    requires WellFormed(p)
    requires forall k :: 0 <= k < |holes| ==> Orderly(holes[k])
    ensures Tiles(p, ClipHoles([p], holes), holes)
  {
    hide SliceOf, WellFormed, Slice, Clip;
    if holes == [] {
      SelfSlice(p);
      OneCovers(p);
    } else {
      var n := |holes| - 1;
      var front, h := holes[..n], holes[n];
      HolesTile(p, front);
      ClipAllTiles(p, ClipHoles([p], front), h);
      forall r, c ensures InHoles(holes, r, c) <==> InHoles(front, r, c) || InHole(h, r, c) {
        if InHoles(front, r, c) {
          var k :| 0 <= k < |front| && InHole(front[k], r, c);
          assert InHole(holes[k], r, c);
        }
      }
    }
  }

  /** The pieces of one placement are among the pieces of all. */
  lemma {:induction false} ClipAllHolds(qs: seq<AtlasPlacement>, h: Hole, i: nat) returns (at: nat)
    requires i < |qs|
    ensures at + |Clip(qs[i], h)| <= |ClipAll(qs, h)|
    ensures forall k :: 0 <= k < |Clip(qs[i], h)| ==> ClipAll(qs, h)[at + k] == Clip(qs[i], h)[k]
  {
    hide Clip;
    var n := |qs| - 1;
    if i == n {
      at := |ClipAll(qs[..n], h)|;
    } else {
      at := ClipAllHolds(qs[..n], h, i);
    }
  }

  lemma HarmfulOverlaps(p: AtlasPlacement, qs: seq<AtlasPlacement>, h: Hole)
    requires WellFormed(p) && forall i :: 0 <= i < |qs| ==> SliceOf(p, qs[i])
    requires !Harmless(qs, h)
    ensures !PairwiseDisjoint(ClipAll(qs, h))
  {
    hide SliceOf, WellFormed, Clip, Disjoint;
    var i :| 0 <= i < |qs| && !(Misses(qs[i], h) || Orderly(h) || h.r0 == h.r1);
    SliceOfIdeal(p, qs[i]);
    InvertedOverlaps(qs[i], h);
    var at := ClipAllHolds(qs, h, i);
    var pieces := Clip(qs[i], h);
    var j, k :| 0 <= j < k < |pieces| && !Disjoint(pieces[j], pieces[k]);
    assert ClipAll(qs, h)[at + j] == pieces[j] && ClipAll(qs, h)[at + k] == pieces[k];
  }

  lemma OneMoreHole(p: AtlasPlacement, qs: seq<AtlasPlacement>, front: seq<Hole>, h: Hole)
    requires WellFormed(p) && Tiles(p, qs, front)
    ensures Tiles(p, ClipAll(qs, h), front + [h]) <==> Harmless(qs, h)
  {
    hide SliceOf, WellFormed, ClipAll, Harmless, PairwiseDisjoint;
    if Harmless(qs, h) {
      ClipAllTiles(p, qs, h);
      var holes := front + [h];
      forall r, c ensures InHoles(holes, r, c) <==> InHoles(front, r, c) || InHole(h, r, c) {
        assert holes[|front|] == h;
        if InHoles(front, r, c) {
          var k :| 0 <= k < |front| && InHole(front[k], r, c);
          assert InHole(holes[k], r, c);
        }
      }
    } else {
      HarmfulOverlaps(p, qs, h);
    }
  }

  /** After the first `k` holes the children tile what those leave. */
  ghost predicate TilesAt(p: AtlasPlacement, holes: seq<Hole>, k: nat)
    requires k <= |holes|
  {
    Tiles(p, ClipHoles([p], holes[..k]), holes[..k])
  }

  /** Hole `k` splits correctly every child that is left when it comes. */
  predicate HarmlessAt(p: AtlasPlacement, holes: seq<Hole>, k: nat)
    requires k < |holes|
  {
    Harmless(ClipHoles([p], holes[..k]), holes[k])
  }

  lemma {:induction false} FirstHolesTileIff(p: AtlasPlacement, holes: seq<Hole>, n: nat)
    requires WellFormed(p) && n <= |holes|
    ensures (forall k :: 0 <= k <= n ==> TilesAt(p, holes, k)) <==> (forall k :: 0 <= k < n ==> HarmlessAt(p, holes, k))
  {
    hide TilesAt, HarmlessAt, WellFormed;
    if n == 0 {
      NoHoleTiles(p, holes);
    } else {
      FirstHolesTileIff(p, holes, n - 1);
      NextHoleTiles(p, holes, n - 1);
    }
  }

  /** Exactly when a sequence of subtractions stays right throughout: no hole that is out of order
      (and has rows) hits any of the children that are left when it comes. */
  lemma HolesTileIff(p: AtlasPlacement, holes: seq<Hole>)
    requires WellFormed(p)
    ensures (forall k :: 0 <= k <= |holes| ==> TilesAt(p, holes, k)) <==> (forall k :: 0 <= k < |holes| ==> HarmlessAt(p, holes, k))
  {
    hide TilesAt, HarmlessAt, WellFormed;
    FirstHolesTileIff(p, holes, |holes|);
  }

  lemma NoHoleTiles(p: AtlasPlacement, holes: seq<Hole>)
    requires WellFormed(p)
    ensures TilesAt(p, holes, 0)
  {
    hide Tiles, WellFormed, ClipHoles;
    HolesTile(p, []);
    assert holes[..0] == [];
  }

  lemma NextHoleTiles(p: AtlasPlacement, holes: seq<Hole>, n: nat)
    requires WellFormed(p) && n < |holes|
    ensures TilesAt(p, holes, n) ==> (TilesAt(p, holes, n + 1) <==> HarmlessAt(p, holes, n))
  {
    hide Tiles, Harmless, WellFormed, ClipHoles;
    var front, h := holes[..n], holes[n];
    assert holes[..n + 1] == front + [h];
    LastHole([p], front, h);
    if TilesAt(p, holes, n) { OneMoreHole(p, ClipHoles([p], front), front, h); }
  }

  lemma LastHole(ps: seq<AtlasPlacement>, front: seq<Hole>, h: Hole)
    ensures ClipHoles(ps, front + [h]) == ClipAll(ClipHoles(ps, front), h)
  {
    hide ClipAll;
    assert (front + [h])[..|front|] == front;
  }

  // ---------------------------------------------------------------- pixels

  predicate PixelIn(p: AtlasPlacement, x: int, y: int) {
    p.srcX <= x < p.srcX + p.srcWidth && p.srcY <= y < p.srcY + p.srcHeight
  }

  /** Which cell of stride `m` the pixel at offset `d` falls in: the quotient `d / m`. */
  function CellAt(d: nat, m: nat): nat
    requires m > 0
  {
    if d < m then 0 else 1 + CellAt(d - m, m)
  }

  /** The grid cell that shows texture pixel (x, y), as (row, column). */
  function CellOfPixel(p: AtlasPlacement, x: int, y: int): (int, int)
    requires p.cellW > 0 && p.cellH > 0 && PixelIn(p, x, y)
  {
    (p.absRow + CellAt(y - p.srcY, p.cellH), p.col + CellAt(x - p.srcX, p.cellW))
  }

  lemma {:induction false} CellAtSpan(d: nat, m: nat, k: nat)
    requires m > 0
    ensures k <= CellAt(d, m) <==> Span(k, m) <= d
    decreases k
  {
    if k == 0 {
    } else {
      if d >= m {
        CellAtSpan(d - m, m, k - 1);
      } else {
        SpanMono(1, k, m);
        assert Span(1, m) == Span(0, m) + m;
      }
    }
  }

  lemma {:induction false} CellAtShift(d: nat, m: nat, k: nat)
    requires m > 0 && Span(k, m) <= d
    ensures CellAt(d, m) == k + CellAt(d - Span(k, m), m)
    decreases k
  {
    if k == 0 {
    } else {
      SpanMono(1, k, m);
      assert Span(1, m) == Span(0, m) + m;
      CellAtShift(d - m, m, k - 1);
    }
  }

  /** One axis: a pixel of the extent is in the slice's crop exactly when its cell is in the
      slice, and then both name the same cell. */
  lemma AxisPixels(src: nat, len: nat, n: nat, m: nat, total: nat, k0: nat, k1: nat, x: int)
    requires AxisWellFormed(src, len, n, m, total) && k0 < k1 <= n
    requires src <= x < src + len
    ensures var s, e := Edge(src, k0, m), End(src, len, k1, m);
            && s < e <= src + len && src <= s
            && (s <= x < e <==> k0 <= CellAt(x - src, m) < k1)
            && (s <= x ==> CellAt(x - src, m) == k0 + CellAt(x - s, m))
    ensures CellAt(x - src, m) < n
  {
    EdgeExact(src, len, n, m, total, k0);
    EdgeExact(src, len, n, m, total, k1);
    AxisSlice(src, len, n, m, total, k0, k1);
    CellAtSpan(x - src, m, k0);
    CellAtSpan(x - src, m, k1);
    CellAtSpan(x - src, m, n);
    if Edge(src, k0, m) <= x { CellAtShift(x - src, m, k0); }
  }

  /** A slice shows exactly the original's pixels that lie on its cells, each on the cell
      the original shows it on. */
  lemma SlicePixels(p: AtlasPlacement, q: AtlasPlacement, x: int, y: int)
    requires WellFormed(p) && SliceOf(p, q)
    ensures q.cellW > 0 && q.cellH > 0 && p.cellW > 0 && p.cellH > 0
    ensures PixelIn(q, x, y) ==> PixelIn(p, x, y)
    ensures PixelIn(p, x, y) ==>
              var (r, c) := CellOfPixel(p, x, y);
              && (PixelIn(q, x, y) <==> CellIn(q, r, c))
              && (PixelIn(q, x, y) ==> CellOfPixel(q, x, y) == (r, c))
              && CellIn(p, r, c)
  {
    hide AxisWellFormed, Edge, End, CellAt;
    HasCells(p);
    var k0, k1, l0, l1 := q.col - p.col, q.col + q.columns - p.col, q.absRow - p.absRow, q.absRow + q.rows - p.absRow;
    var x', y' := if p.srcX <= x < p.srcX + p.srcWidth then x else p.srcX, if p.srcY <= y < p.srcY + p.srcHeight then y else p.srcY;
    AxisPixels(p.srcX, p.srcWidth, p.columns, p.cellW, p.totalWidth, k0, k1, x');
    AxisPixels(p.srcY, p.srcHeight, p.rows, p.cellH, p.totalHeight, l0, l1, y');
  }

  /** The `w` by `h` pixels from (x0, y0). */
  ghost function Rect(x0: int, y0: int, w: nat, h: nat): set<(int, int)> {
    set x, y | x0 <= x < x0 + w && y0 <= y < y0 + h :: (x, y)
  }

  ghost function Pixels(p: AtlasPlacement): set<(int, int)> {
    Rect(p.srcX, p.srcY, p.srcWidth, p.srcHeight)
  }

  /** The pixels of `p` whose cells no hole has taken. */
  ghost function Surviving(p: AtlasPlacement, holes: seq<Hole>): set<(int, int)>
    requires p.cellW > 0 && p.cellH > 0
  {
    set px | px in Pixels(p) && PixelIn(p, px.0, px.1) && !InHoles(holes, CellOfPixel(p, px.0, px.1).0, CellOfPixel(p, px.0, px.1).1)
  }

  function Area(p: AtlasPlacement): nat { p.srcWidth * p.srcHeight }

  function TotalArea(qs: seq<AtlasPlacement>): nat {
    if qs == [] then 0 else TotalArea(qs[..|qs| - 1]) + Area(qs[|qs| - 1])
  }

  ghost predicate ShownBy(qs: seq<AtlasPlacement>, x: int, y: int) {
    exists i :: 0 <= i < |qs| && PixelIn(qs[i], x, y)
  }

  ghost function AllPixels(qs: seq<AtlasPlacement>): set<(int, int)> {
    if qs == [] then {} else AllPixels(qs[..|qs| - 1]) + Pixels(qs[|qs| - 1])
  }

  /** Every surviving pixel is shown by one child, on the cell it was on; every pixel a child
      shows survived. */
  lemma HolesKeepPixels(p: AtlasPlacement, holes: seq<Hole>, x: int, y: int)
    requires WellFormed(p) && PixelIn(p, x, y)
    requires forall k :: 0 <= k < |holes| ==> Orderly(holes[k])
    ensures var qs := ClipHoles([p], holes);
            var (r, c) := CellOfPixel(p, x, y);
            && (InHoles(holes, r, c) ==> forall i :: 0 <= i < |qs| ==> !PixelIn(qs[i], x, y))
            && (!InHoles(holes, r, c) ==>
                  exists i :: 0 <= i < |qs| && PixelIn(qs[i], x, y) && qs[i].cellW > 0 && qs[i].cellH > 0
                              && CellOfPixel(qs[i], x, y) == (r, c)
                              && forall j :: 0 <= j < |qs| && j != i ==> !PixelIn(qs[j], x, y))
  {
    var qs := ClipHoles([p], holes);
    var (r, c) := CellOfPixel(p, x, y);
    HolesTile(p, holes);
    forall i | 0 <= i < |qs|
      ensures PixelIn(qs[i], x, y) <==> CellIn(qs[i], r, c)
      ensures qs[i].cellW > 0 && qs[i].cellH > 0 && (PixelIn(qs[i], x, y) ==> CellOfPixel(qs[i], x, y) == (r, c))
      ensures CellIn(p, r, c)
    {
      SlicePixels(p, qs[i], x, y);
    }
    hide SliceOf, WellFormed, CellOfPixel, PixelIn, CellIn, ClipHoles;
    SelfSlicePixel(p, x, y);
    if InHoles(holes, r, c) {
      assert !Covered(qs, r, c);
    } else {
      assert Covered(qs, r, c);
      var i :| 0 <= i < |qs| && CellIn(qs[i], r, c);
      forall j | 0 <= j < |qs| && j != i ensures !PixelIn(qs[j], x, y) {
        if j < i { assert Disjoint(qs[j], qs[i]); } else { assert Disjoint(qs[i], qs[j]); }
      }
    }
  }

  lemma SelfSlicePixel(p: AtlasPlacement, x: int, y: int)
    requires WellFormed(p) && PixelIn(p, x, y)
    ensures CellIn(p, CellOfPixel(p, x, y).0, CellOfPixel(p, x, y).1)
  {
    SelfSlice(p);
    SlicePixels(p, p, x, y);
  }

  // ---------------------------------------------------------------- area

  /** A rectangle of `w` by `h` pixels has `w * h` of them. */
  lemma {:induction false} RectSize(x0: int, y0: int, w: nat, h: nat)
    ensures |Rect(x0, y0, w, h)| == w * h
  {
    if w == 0 {
      assert Rect(x0, y0, w, h) == {};
    } else {
      RectSize(x0, y0, w - 1, h);
      ColumnSize(x0 + w - 1, y0, h);
      var less, last := Rect(x0, y0, w - 1, h), Rect(x0 + w - 1, y0, 1, h);
      assert Rect(x0, y0, w, h) == less + last;
      assert less !! last;
      assert w * h == (w - 1) * h + h;
    }
  }

  lemma {:induction false} ColumnSize(x: int, y0: int, h: nat)
    ensures |Rect(x, y0, 1, h)| == h
  {
    if h == 0 {
      assert Rect(x, y0, 1, h) == {};
    } else {
      ColumnSize(x, y0, h - 1);
      assert Rect(x, y0, 1, h) == Rect(x, y0, 1, h - 1) + {(x, y0 + h - 1)};
    }
  }

  lemma {:induction false} AllPixelsShown(qs: seq<AtlasPlacement>)
    ensures forall px :: px in AllPixels(qs) <==> ShownBy(qs, px.0, px.1)
  {
    if qs == [] {
    } else {
      AllPixelsShown(qs[..|qs| - 1]);
      hide ShownBy;
      forall px ensures px in AllPixels(qs) <==> ShownBy(qs, px.0, px.1) { ShownByLast(qs, px.0, px.1); }
    }
  }

  /** The last slice shows pixels that the earlier ones do not. */
  lemma LastIsApart(p: AtlasPlacement, qs: seq<AtlasPlacement>)
    requires WellFormed(p) && qs != []
    requires forall i :: 0 <= i < |qs| ==> SliceOf(p, qs[i])
    requires PairwiseDisjoint(qs)
    ensures AllPixels(qs[..|qs| - 1]) !! Pixels(qs[|qs| - 1])
  {
    hide SliceOf, WellFormed, ShownBy, Disjoint, PairwiseDisjoint, AllPixels;
    var front, q := qs[..|qs| - 1], qs[|qs| - 1];
    AllPixelsShown(front);
    forall px | px in Pixels(q) ensures px !in AllPixels(front) {
      LastPixelsNew(p, qs, px.0, px.1);
    }
  }

  /** Disjoint slices show disjoint pixels, so their areas add up. */
  lemma {:induction false} AreasAdd(p: AtlasPlacement, qs: seq<AtlasPlacement>)
    requires WellFormed(p)
    requires forall i :: 0 <= i < |qs| ==> SliceOf(p, qs[i])
    requires PairwiseDisjoint(qs)
    ensures |AllPixels(qs)| == TotalArea(qs)
  {
    if qs == [] {
    } else {
      hide SliceOf, WellFormed, Disjoint, Rect;
      var front, q := qs[..|qs| - 1], qs[|qs| - 1];
      AreasAdd(p, front);
      RectSize(q.srcX, q.srcY, q.srcWidth, q.srcHeight);
      LastIsApart(p, qs);
    }
  }

  lemma ShownByLast(qs: seq<AtlasPlacement>, x: int, y: int)
    requires qs != []
    ensures ShownBy(qs, x, y) <==> ShownBy(qs[..|qs| - 1], x, y) || PixelIn(qs[|qs| - 1], x, y)
  {
    var n := |qs| - 1;
    if ShownBy(qs[..n], x, y) {
      var i :| 0 <= i < n && PixelIn(qs[..n][i], x, y);
      assert PixelIn(qs[i], x, y);
    }
  }

  lemma LastPixelsNew(p: AtlasPlacement, qs: seq<AtlasPlacement>, x: int, y: int)
    requires WellFormed(p) && qs != []
    requires forall i :: 0 <= i < |qs| ==> SliceOf(p, qs[i])
    requires PairwiseDisjoint(qs)
    requires PixelIn(qs[|qs| - 1], x, y)
    ensures !ShownBy(qs[..|qs| - 1], x, y)
  {
    hide SliceOf, WellFormed, PixelIn, Disjoint;
    forall i | 0 <= i < |qs| - 1 ensures !PixelIn(qs[i], x, y) {
      DisjointPixels(p, qs[i], qs[|qs| - 1], x, y);
    }
  }

  lemma DisjointPixels(p: AtlasPlacement, a: AtlasPlacement, b: AtlasPlacement, x: int, y: int)
    requires WellFormed(p) && SliceOf(p, a) && SliceOf(p, b) && Disjoint(a, b)
    ensures !(PixelIn(a, x, y) && PixelIn(b, x, y))
  {
    SlicePixels(p, a, x, y);
    SlicePixels(p, b, x, y);
  }

  /** The pixels the children show are the survivors. */
  lemma ChildrenShowSurvivors(p: AtlasPlacement, holes: seq<Hole>, x: int, y: int)
    requires WellFormed(p)
    requires forall k :: 0 <= k < |holes| ==> Orderly(holes[k])
    ensures ShownBy(ClipHoles([p], holes), x, y) <==> (x, y) in Surviving(p, holes)
  {
    var qs := ClipHoles([p], holes);
    if PixelIn(p, x, y) {
      HolesKeepPixels(p, holes, x, y);
    } else {
      HolesTile(p, holes);
      hide SliceOf, WellFormed, CellOfPixel, CellIn, ClipHoles;
      forall i | 0 <= i < |qs| ensures !PixelIn(qs[i], x, y) { SlicePixels(p, qs[i], x, y); }
    }
  }

  /** Pixel area is conserved: after any orderly holes the children's areas add up to the
      number of surviving pixels, and with the pixels lost to holes they make up the whole. */
  lemma HolesConserveArea(p: AtlasPlacement, holes: seq<Hole>)
    requires WellFormed(p)
    requires forall k :: 0 <= k < |holes| ==> Orderly(holes[k])
    ensures TotalArea(ClipHoles([p], holes)) == |Surviving(p, holes)|
    ensures TotalArea(ClipHoles([p], holes)) + |Pixels(p) - Surviving(p, holes)| == Area(p)
  {
    var qs := ClipHoles([p], holes);
    HasCells(p);
    HolesTile(p, holes);
    AreasAdd(p, qs);
    AllPixelsShown(qs);
    RectSize(p.srcX, p.srcY, p.srcWidth, p.srcHeight);
    hide AxisWellFormed, SliceOf, CellOfPixel, CellIn, ClipHoles, Tiles, PairwiseDisjoint, ShownBy, AllPixels, TotalArea, Rect;
    forall px ensures px in AllPixels(qs) <==> px in Surviving(p, holes) {
      ChildrenShowSurvivors(p, holes, px.0, px.1);
    }
    assert AllPixels(qs) == Surviving(p, holes);
    assert Surviving(p, holes) <= Pixels(p);
  }

  // ---------------------------------------------------------------- insertion

  function DivCeil(a: nat, m: nat): nat
    requires m > 0
  {
    if a % m == 0 then a / m else a / m + 1
  }

  /** The placement recorded for a newly drawn image of `width` by `height` pixels. */
  function Inserted(key: nat, absRow: int, col: nat, width: nat, height: nat, cellW: nat, cellH: nat): AtlasPlacement
    requires cellW > 0 && cellH > 0
  {
    AtlasPlacement(key, absRow, col, DivCeil(width, cellW), DivCeil(height, cellH),
                   0, 0, width, height, width, height, cellW, cellH)
  }

  lemma DivCeilBounds(a: nat, m: nat)
    requires a > 0 && m > 0
    ensures DivCeil(a, m) > 0 && Span(DivCeil(a, m) - 1, m) < a <= Span(DivCeil(a, m), m)
  {
    var q := a / m;
    SpanProduct(q, m);
    assert a == q * m + a % m;
    if a % m == 0 { assert Span(q, m) == Span(q - 1, m) + m; }
  }

  /** Every image the terminal draws starts well-formed, so the results above hold for it. */
  lemma InsertedWellFormed(key: nat, absRow: int, col: nat, width: nat, height: nat, cellW: nat, cellH: nat)
    requires 0 < width <= MAX_U16 && 0 < height <= MAX_U16
    requires 0 < cellW <= MAX_U16 && 0 < cellH <= MAX_U16
    ensures WellFormed(Inserted(key, absRow, col, width, height, cellW, cellH))
  {
    DivCeilBounds(width, cellW);
    DivCeilBounds(height, cellH);
  }

  // ---------------------------------------------------------------- what splitting never touches

  /** The same picture at the same scale. */
  predicate SamePicture(p: AtlasPlacement, q: AtlasPlacement) {
    && q.imageKey == p.imageKey && q.totalWidth == p.totalWidth && q.totalHeight == p.totalHeight
    && q.cellW == p.cellW && q.cellH == p.cellH
  }

  lemma PiecesShowSame(p: AtlasPlacement, h: Hole)
    ensures forall i :: 0 <= i < |Clip(p, h)| ==> SamePicture(p, Clip(p, h)[i])
  {
    hide Edge, End, AsU64;
  }

  lemma {:induction false} ClipAllShowsSame(p: AtlasPlacement, qs: seq<AtlasPlacement>, h: Hole)
    requires forall i :: 0 <= i < |qs| ==> SamePicture(p, qs[i])
    ensures forall i :: 0 <= i < |ClipAll(qs, h)| ==> SamePicture(p, ClipAll(qs, h)[i])
  {
    hide Clip;
    if qs == [] {
    } else {
      ClipAllShowsSame(p, qs[..|qs| - 1], h);
      PiecesShowSame(qs[|qs| - 1], h);
    }
  }

  /** Whatever holes are punched, in order or not, every child shows the same picture at the same
      scale. */
  lemma {:induction false} ChildrenShowSame(p: AtlasPlacement, holes: seq<Hole>)
    ensures forall i :: 0 <= i < |ClipHoles([p], holes)| ==> SamePicture(p, ClipHoles([p], holes)[i])
  {
    hide ClipAll;
    if holes == [] {
    } else {
      ChildrenShowSame(p, holes[..|holes| - 1]);
      ClipAllShowsSame(p, ClipHoles([p], holes[..|holes| - 1]), holes[|holes| - 1]);
    }
  }

  /** Placements are clipped one by one: what lies in front stays in front. */
  lemma {:induction false} ClipConcat(a: seq<AtlasPlacement>, b: seq<AtlasPlacement>, h: Hole)
    ensures ClipAll(a + b, h) == ClipAll(a, h) + ClipAll(b, h)
    decreases |b|
  {
    hide Clip;
    if b == [] {
      assert a + b == a;
    } else {
      ClipConcat(a, b[..|b| - 1], h);
      assert (a + b)[..|a + b| - 1] == a + b[..|b| - 1];
    }
  }

  /** An inserted picture is shown whole, every pixel on the cell its distance from the top left
      corner says. */
  lemma InsertedPixels(key: nat, absRow: int, col: nat, width: nat, height: nat, cellW: nat, cellH: nat, x: nat, y: nat)
    requires cellW > 0 && cellH > 0
    ensures var p := Inserted(key, absRow, col, width, height, cellW, cellH);
            && (PixelIn(p, x, y) <==> x < width && y < height)
            && (x < width && y < height ==> CellOfPixel(p, x, y) == (absRow + y / cellH, col + x / cellW))
            && p.imageKey == key && p.totalWidth == width && p.totalHeight == height
  {
    CellAtIsQuotient(x, cellW);
    CellAtIsQuotient(y, cellH);
  }

  lemma {:induction false} CellAtIsQuotient(d: nat, m: nat)
    requires m > 0
    ensures CellAt(d, m) == d / m
  {
    if d < m {
    } else {
      CellAtIsQuotient(d - m, m);
      OneMore(d, m);
    }
  }

  lemma OneMore(d: nat, m: nat)
    requires 0 < m <= d
    ensures d / m == (d - m) / m + 1
  {
    var q, r := (d - m) / m, (d - m) % m;
    assert d - m == q * m + r;
    assert d == (q + 1) * m + r by { assert (q + 1) * m == q * m + m; }
    QuotientIs(d, m, q + 1, r);
  }

  lemma QuotientIs(d: nat, m: nat, q: nat, r: nat)
    requires 0 < m && r < m && d == q * m + r
    ensures d / m == q
  {
    assert d == (d / m) * m + d % m;
    ProductMono(d / m + 1, q, m);
    ProductMono(q + 1, d / m, m);
  }

  lemma ProductMono(a: nat, b: nat, m: nat)
    ensures a <= b ==> a * m <= b * m
  {
  }
}
