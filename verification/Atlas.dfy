/** Packing the connected outputs into one desktop image at the highest scale in use: the
    bounds of the desktop, the rounded pixel edges of each output's part of the image, and
    why these parts are nonempty, disjoint, inside the image, and pixel for pixel at the
    highest scale. */
module Atlas {
  import opened Basics
  import opened Wrappers
  import opened Projection
  import opened Text
  import opened Topology

  const U32_MAX := 0xffff_ffff

  // ---------------------------------------------------------------- bounds of the desktop

  ghost predicate Scaled(outputs: seq<Output>) {
    forall i {:trigger outputs[i]} | 0 <= i < |outputs| :: outputs[i].scale > 0
  }

  predicate Encloses(b: LogicalRect, r: LogicalRect) {
    b.x <= r.x && b.y <= r.y && r.Right() <= b.Right() && r.Bottom() <= b.Bottom()
  }

  /** Some output has its left, top, right or bottom side at `v`. */
  ghost predicate HasLeft(outputs: seq<Output>, v: real)
    requires Scaled(outputs)
  {
    exists i :: 0 <= i < |outputs| && Rect(outputs[i]).x == v
  }

  ghost predicate HasTop(outputs: seq<Output>, v: real)
    requires Scaled(outputs)
  {
    exists i :: 0 <= i < |outputs| && Rect(outputs[i]).y == v
  }

  ghost predicate HasRight(outputs: seq<Output>, v: real)
    requires Scaled(outputs)
  {
    exists i :: 0 <= i < |outputs| && Rect(outputs[i]).Right() == v
  }

  ghost predicate HasBottom(outputs: seq<Output>, v: real)
    requires Scaled(outputs)
  {
    exists i :: 0 <= i < |outputs| && Rect(outputs[i]).Bottom() == v
  }

  ghost predicate AllEnclosed(b: LogicalRect, outputs: seq<Output>)
    requires Scaled(outputs)
  {
    forall i | 0 <= i < |outputs| :: Encloses(b, Rect(outputs[i]))
  }

  /** `b` is the smallest rectangle around the outputs: it encloses each of them, and each of
      its sides is a side of one of them. */
  ghost predicate IsBounds(b: LogicalRect, outputs: seq<Output>)
    requires Scaled(outputs)
  {
    && AllEnclosed(b, outputs)
    && HasLeft(outputs, b.x) && HasTop(outputs, b.y) && HasRight(outputs, b.Right()) && HasBottom(outputs, b.Bottom())
  }

  function Max(a: real, b: real): real { if a >= b then a else b }

  /** One more rectangle. */
  function Widened(b: LogicalRect, r: LogicalRect): LogicalRect {
    var (x, y) := (Min(b.x, r.x), Min(b.y, r.y));
    LogicalRect(x, y, Max(b.Right(), r.Right()) - x, Max(b.Bottom(), r.Bottom()) - y)
  }

  lemma StillHasSides(outputs: seq<Output>, k: nat, v: real)
    requires Scaled(outputs) && k < |outputs|
    ensures HasLeft(outputs[..k], v) || Rect(outputs[k]).x == v ==> HasLeft(outputs[..k + 1], v)
    ensures HasTop(outputs[..k], v) || Rect(outputs[k]).y == v ==> HasTop(outputs[..k + 1], v)
  {
    assert outputs[..k + 1] == outputs[..k] + [outputs[k]];
    assert outputs[..k + 1][k] == outputs[k];
    if HasLeft(outputs[..k], v) {
      var i :| 0 <= i < k && Rect(outputs[..k][i]).x == v;
      assert outputs[..k + 1][i] == outputs[..k][i];
    }
    if HasTop(outputs[..k], v) {
      var i :| 0 <= i < k && Rect(outputs[..k][i]).y == v;
      assert outputs[..k + 1][i] == outputs[..k][i];
    }
  }

  lemma StillHasEnds(outputs: seq<Output>, k: nat, v: real)
    requires Scaled(outputs) && k < |outputs|
    ensures HasRight(outputs[..k], v) || Rect(outputs[k]).Right() == v ==> HasRight(outputs[..k + 1], v)
    ensures HasBottom(outputs[..k], v) || Rect(outputs[k]).Bottom() == v ==> HasBottom(outputs[..k + 1], v)
  {
    assert outputs[..k + 1] == outputs[..k] + [outputs[k]];
    assert outputs[..k + 1][k] == outputs[k];
    if HasRight(outputs[..k], v) {
      var i :| 0 <= i < k && Rect(outputs[..k][i]).Right() == v;
      assert outputs[..k + 1][i] == outputs[..k][i];
    }
    if HasBottom(outputs[..k], v) {
      var i :| 0 <= i < k && Rect(outputs[..k][i]).Bottom() == v;
      assert outputs[..k + 1][i] == outputs[..k][i];
    }
  }

  lemma StillEnclosed(b: LogicalRect, outputs: seq<Output>, k: nat)
    requires Scaled(outputs) && k < |outputs| && AllEnclosed(b, outputs[..k])
    ensures AllEnclosed(Widened(b, Rect(outputs[k])), outputs[..k + 1])
  {
    var (c, after) := (Widened(b, Rect(outputs[k])), outputs[..k + 1]);
    forall i | 0 <= i < |after| ensures Encloses(c, Rect(after[i])) {
      if i < k { assert after[i] == outputs[..k][i]; }
    }
  }

  lemma WidenedIsBounds(b: LogicalRect, outputs: seq<Output>, k: nat)
    requires Scaled(outputs) && 0 < k < |outputs| && IsBounds(b, outputs[..k])
    ensures IsBounds(Widened(b, Rect(outputs[k])), outputs[..k + 1])
  {
    var c := Widened(b, Rect(outputs[k]));
    StillEnclosed(b, outputs, k);
    StillHasSides(outputs, k, c.x);
    StillHasSides(outputs, k, c.y);
    StillHasEnds(outputs, k, c.Right());
    StillHasEnds(outputs, k, c.Bottom());
  }

  method LogicalBounds(outputs: seq<Output>) returns (b: Option<LogicalRect>)
    requires Scaled(outputs)
    ensures b.None? <==> outputs == []
    ensures b.Some? ==> IsBounds(b.value, outputs)
  {
    if outputs == [] { return None; }
    var first := Rect(outputs[0]);
    var left, top, right, bottom := first.x, first.y, first.Right(), first.Bottom();
    for k := 1 to |outputs|
      invariant IsBounds(LogicalRect(left, top, right - left, bottom - top), outputs[..k])
    {
      WidenedIsBounds(LogicalRect(left, top, right - left, bottom - top), outputs, k);
      var rect := Rect(outputs[k]);
      left, top := Min(left, rect.x), Min(top, rect.y);
      right, bottom := Max(right, rect.Right()), Max(bottom, rect.Bottom());
    }
    assert outputs[..|outputs|] == outputs;
    return Some(LogicalRect(left, top, right - left, bottom - top));
  }

  // ---------------------------------------------------------------- pixel edges

  /** To the nearest integer, halves away from zero. */
  function Round(v: real): int {
    if v >= 0.0 then (v + 0.5).Floor else -(0.5 - v).Floor
  }

  function Clamp(n: int): U32 {
    if n < 0 then 0 else if n > U32_MAX then U32_MAX else n
  }

  function ScaledEdge(value: real, scale: real): U32 {
    Clamp(Round(value * scale))
  }

  function MaxScale(outputs: seq<Output>): U32 {
    if outputs == [] then 0
    else
      var m := MaxScale(outputs[1..]);
      if outputs[0].scale >= m then outputs[0].scale else m
  }

  lemma {:induction false} MaxScaleIsGreatest(outputs: seq<Output>, k: nat)
    requires k < |outputs|
    ensures outputs[k].scale <= MaxScale(outputs)
  {
    if k > 0 { MaxScaleIsGreatest(outputs[1..], k - 1); }
  }

  function EngineScale(outputs: seq<Output>): real {
    (if outputs == [] then SCALE_BASE else MaxScale(outputs)) as real / SCALE_BASE as real
  }

  /** The interval of pixels from one edge to another, never empty. */
  function Extent(from: U32, to: U32): (n: U32)
    ensures n >= 1 && (from < to ==> n == to - from)
  {
    if from < to then to - from else 1
  }

  function Source(rect: LogicalRect, bounds: LogicalRect, scale: real): PixelRect {
    var left := ScaledEdge(rect.x - bounds.x, scale);
    var top := ScaledEdge(rect.y - bounds.y, scale);
    PixelRect(left, top, Extent(left, ScaledEdge(rect.Right() - bounds.x, scale)),
              Extent(top, ScaledEdge(rect.Bottom() - bounds.y, scale)))
  }

  datatype Sampling = OneToOne | Resampled

  datatype Planned = Planned(id: nat, rect: LogicalRect, source: PixelRect, pixels: PixelSize, transform: Transform,
                             sampling: Sampling)

  datatype Plan = Plan(epoch: nat, bounds: LogicalRect, scale: U32, pixels: PixelSize, outputs: seq<Planned>)

  function PlanOutput(o: Output, bounds: LogicalRect, scale: real): Planned
    requires o.scale > 0
  {
    var source := Source(Rect(o), bounds, scale);
    var pixels := Oriented(o.mode, o.transform);
    Planned(o.id, Rect(o), source, pixels, o.transform,
            if PixelSize(source.width, source.height) == pixels then OneToOne else Resampled)
  }

  /** The whole plan of a snapshot, or none without outputs. */
  method ForSnapshot(epoch: nat, outputs: seq<Output>) returns (plan: Option<Plan>)
    requires Scaled(outputs)
    ensures plan.None? <==> outputs == []
    ensures plan.Some? ==>
      var p := plan.value;
      && p.epoch == epoch && IsBounds(p.bounds, outputs) && p.scale == MaxScale(outputs)
      && p.pixels == AtlasSize(p.bounds, EngineScale(outputs))
      && |p.outputs| == |outputs|
      && forall i | 0 <= i < |outputs| :: p.outputs[i] == PlanOutput(outputs[i], p.bounds, EngineScale(outputs))
  {
    var bounds := LogicalBounds(outputs);
    if bounds.None? { return None; }
    var scale := EngineScale(outputs);
    var planned: seq<Planned> := [];
    for k := 0 to |outputs|
      invariant |planned| == k && forall i | 0 <= i < k :: planned[i] == PlanOutput(outputs[i], bounds.value, scale)
    {
      planned := planned + [PlanOutput(outputs[k], bounds.value, scale)];
    }
    return Some(Plan(epoch, bounds.value, MaxScale(outputs), AtlasSize(bounds.value, scale), planned));
  }

  function AtlasSize(bounds: LogicalRect, scale: real): PixelSize {
    PixelSize(Extent(0, ScaledEdge(bounds.width, scale)), Extent(0, ScaledEdge(bounds.height, scale)))
  }

  // ---------------------------------------------------------------- rounding

  /** Rounding takes the nearest whole number, and of two the one farther from zero. */
  lemma RoundIsNearest(v: real)
    ensures var n := Round(v) as real;
            && v - 0.5 <= n <= v + 0.5
            && (v >= 0.0 ==> n > v - 0.5) && (v < 0.0 ==> n < v + 0.5)
  {
  }

  /** An edge is the nearest pixel, or the last one or zero if that is out of 32 bits. */
  lemma EdgeIsNearest(value: real, scale: real, v: real)
    requires v == value * scale
    ensures var n := ScaledEdge(value, scale);
            && (0 <= Round(v) <= 4294967295 ==> n == Round(v))
            && (Round(v) < 0 ==> n == 0) && (Round(v) > 4294967295 ==> n == 4294967295)
  {
  }

  lemma RoundMonotone(a: real, b: real)
    requires a <= b
    ensures Round(a) <= Round(b)
  {
  }

  lemma RoundShift(a: real, n: nat)
    requires a >= 0.0
    ensures Round(a + n as real) == Round(a) + n
  {
  }

  lemma TimesMonotone(a: real, b: real, s: real, p: real, q: real)
    requires a <= b && s >= 0.0 && p == a * s && q == b * s
    ensures p <= q
  {
    assert (b - a) * s >= 0.0;
  }

  lemma EdgeMonotone(a: real, b: real, scale: real)
    requires a <= b && scale >= 0.0
    ensures ScaledEdge(a, scale) <= ScaledEdge(b, scale)
  {
    var (p, q) := (a * scale, b * scale);
    TimesMonotone(a, b, scale, p, q);
    RoundMonotone(p, q);
  }

  /** `pixels` at scale `s` are `pixels * S / s` at scale `S`: at least as many, and exactly as
      many at the same scale. */
  lemma LengthAtScale(pixels: U32, s: U32, S: U32)
    requires pixels > 0 && 0 < s <= S
    ensures var w := pixels as real / (s as real / SCALE_BASE as real);
            w * (S as real / SCALE_BASE as real) >= pixels as real
            && (s == S ==> w * (S as real / SCALE_BASE as real) == pixels as real)
  {
    var d := s as real / SCALE_BASE as real;
    var w := pixels as real / d;
    assert w * d == pixels as real;
    assert w * (S as real / SCALE_BASE as real) >= w * d;
  }

  /** An interval that starts at `a` and is `l` long, `n` or more, has at least `n` pixels, and
      `n` if it is exactly that long. */
  lemma PixelsOfLength(a: real, l: real, n: nat)
    requires a >= 0.0 && l >= n as real
    ensures 0 <= Round(a) && Round(a + l) - Round(a) >= n
    ensures l == n as real ==> Round(a + l) - Round(a) == n
  {
    RoundShift(a, n);
    RoundMonotone(a + n as real, a + l);
  }

  lemma Distribute(a: real, l: real, end: real, s: real, p: real, q: real, r: real)
    requires end == a + l && p == a * s && q == l * s && r == end * s
    ensures r == p + q
  {
  }

  // ---------------------------------------------------------------- the packing

  /** The first edge is before the last one that fits in 32 bits. */
  predicate StartsInside(start: real, e: real) {
    Round(start * e) < U32_MAX
  }

  /** The last edge fits in 32 bits. */
  predicate EndsInside(end: real, e: real) {
    Round(end * e) <= U32_MAX
  }

  predicate Disjoint(a: PixelRect, b: PixelRect) {
    a.x + a.width <= b.x || b.x + b.width <= a.x || a.y + a.height <= b.y || b.y + b.height <= a.y
  }

  predicate Inside(r: PixelRect, size: PixelSize) {
    r.x + r.width <= size.width && r.y + r.height <= size.height
  }

  lemma Axis(start: real, length: real, end: real, whole: real, scale: real)
    returns (a: real, l: real, b: real, z: real)
    requires 0.0 <= start && end == start + length && end <= whole && scale >= 0.0
    ensures a == start * scale && l == length * scale && b == end * scale && z == whole * scale
    ensures 0.0 <= a && b <= z && b == a + l
  {
    a, l, b, z := start * scale, length * scale, end * scale, whole * scale;
    Distribute(start, length, end, scale, a, l, b);
    TimesMonotone(end, whole, scale, b, z);
    TimesMonotone(0.0, start, scale, 0.0, a);
  }

  /** How one axis of a source rectangle comes out, from its first and last edge and that of
      the image: nonempty and within the image if it starts inside, and otherwise all at the
      last edge that fits; `n` pixels long exactly if it ends inside, when it should be. */
  predicate AxisOk(first: U32, last: U32, all: U32, starts: bool, ends: bool, n: U32, just: bool) {
    && (starts ==> first < last <= all)
    && (!starts ==> first == last == all == U32_MAX)
    && (just ==> (Extent(first, last) == n <==> ends || n == 1))
  }

  lemma Edges(a: real, l: real, b: real, z: real, n: U32, just: bool)
    requires 0.0 <= a && b == a + l && l >= n as real && b <= z && n > 0 && (just ==> l == n as real)
    ensures AxisOk(Clamp(Round(a)), Clamp(Round(b)), Clamp(Round(z)), Round(a) < U32_MAX, Round(b) <= U32_MAX, n, just)
  {
    RoundMonotone(b, z);
    PixelsOfLength(a, l, n);
  }

  /** One axis of one output. */
  lemma ScaledEdges(start: real, end: real, whole: real, e: real, n: U32, just: bool,
                    a: real, l: real, b: real, z: real)
    requires a == start * e && b == end * e && z == whole * e
    requires 0.0 <= a && b == a + l && l >= n as real && b <= z && n > 0 && (just ==> l == n as real)
    ensures AxisOk(ScaledEdge(start, e), ScaledEdge(end, e), ScaledEdge(whole, e),
                   StartsInside(start, e), EndsInside(end, e), n, just)
  {
    Edges(a, l, b, z, n, just);
  }

  /** The last edges of a source rectangle. */
  function RightEdge(r: LogicalRect, bounds: LogicalRect, e: real): U32 { ScaledEdge(r.Right() - bounds.x, e) }
  function BottomEdge(r: LogicalRect, bounds: LogicalRect, e: real): U32 { ScaledEdge(r.Bottom() - bounds.y, e) }

  /** Both axes of the source rectangle of `r`, which covers `size` pixels, just so or more. */
  ghost predicate WellPlaced(r: LogicalRect, bounds: LogicalRect, e: real, size: PixelSize, just: bool) {
    && AxisOk(ScaledEdge(r.x - bounds.x, e), RightEdge(r, bounds, e), ScaledEdge(bounds.width, e),
              StartsInside(r.x - bounds.x, e), EndsInside(r.Right() - bounds.x, e), size.width, just)
    && AxisOk(ScaledEdge(r.y - bounds.y, e), BottomEdge(r, bounds, e), ScaledEdge(bounds.height, e),
              StartsInside(r.y - bounds.y, e), EndsInside(r.Bottom() - bounds.y, e), size.height, just)
  }

  /** A length of `n` pixels at scale `e`, just so or more. */
  predicate Long(length: real, e: real, n: U32, just: bool) {
    n > 0 && length >= 0.0 && length * e >= n as real && (just ==> length * e == n as real)
  }

  lemma PlacedAcross(r: LogicalRect, bounds: LogicalRect, e: real, n: U32, just: bool)
    requires Encloses(bounds, r) && e >= 0.0 && Long(r.width, e, n, just)
    ensures AxisOk(ScaledEdge(r.x - bounds.x, e), RightEdge(r, bounds, e), ScaledEdge(bounds.width, e),
                   StartsInside(r.x - bounds.x, e), EndsInside(r.Right() - bounds.x, e), n, just)
  {
    var a, l, b, z := Axis(r.x - bounds.x, r.width, r.Right() - bounds.x, bounds.width, e);
    ScaledEdges(r.x - bounds.x, r.Right() - bounds.x, bounds.width, e, n, just, a, l, b, z);
  }

  lemma PlacedDown(r: LogicalRect, bounds: LogicalRect, e: real, n: U32, just: bool)
    requires Encloses(bounds, r) && e >= 0.0 && Long(r.height, e, n, just)
    ensures AxisOk(ScaledEdge(r.y - bounds.y, e), BottomEdge(r, bounds, e), ScaledEdge(bounds.height, e),
                   StartsInside(r.y - bounds.y, e), EndsInside(r.Bottom() - bounds.y, e), n, just)
  {
    var a, l, b, z := Axis(r.y - bounds.y, r.height, r.Bottom() - bounds.y, bounds.height, e);
    ScaledEdges(r.y - bounds.y, r.Bottom() - bounds.y, bounds.height, e, n, just, a, l, b, z);
  }

  lemma Placed(r: LogicalRect, bounds: LogicalRect, e: real, size: PixelSize, just: bool)
    requires Encloses(bounds, r) && e >= 0.0
    requires Long(r.width, e, size.width, just) && Long(r.height, e, size.height, just)
    ensures WellPlaced(r, bounds, e, size, just)
  {
    PlacedAcross(r, bounds, e, size.width, just);
    PlacedDown(r, bounds, e, size.height, just);
  }

  /** Both rectangles are pushed onto the last edge that fits, across or down. */
  predicate BeyondAcross(a: LogicalRect, b: LogicalRect, bounds: LogicalRect, e: real) {
    !StartsInside(a.x - bounds.x, e) && !StartsInside(b.x - bounds.x, e)
  }

  predicate BeyondDown(a: LogicalRect, b: LogicalRect, bounds: LogicalRect, e: real) {
    !StartsInside(a.y - bounds.y, e) && !StartsInside(b.y - bounds.y, e)
  }

  /** Each begins, once rounded, before the other ends. */
  predicate ColumnsMeet(a: LogicalRect, b: LogicalRect, bounds: LogicalRect, e: real) {
    && ScaledEdge(a.x - bounds.x, e) < RightEdge(b, bounds, e)
    && ScaledEdge(b.x - bounds.x, e) < RightEdge(a, bounds, e)
  }

  predicate RowsMeet(a: LogicalRect, b: LogicalRect, bounds: LogicalRect, e: real) {
    && ScaledEdge(a.y - bounds.y, e) < BottomEdge(b, bounds, e)
    && ScaledEdge(b.y - bounds.y, e) < BottomEdge(a, bounds, e)
  }

  /** Both are pushed onto the last edge one way, and the other way too or they meet there. */
  predicate Collide(a: LogicalRect, b: LogicalRect, bounds: LogicalRect, e: real) {
    || (BeyondAcross(a, b, bounds, e) && (BeyondDown(a, b, bounds, e) || RowsMeet(a, b, bounds, e)))
    || (BeyondDown(a, b, bounds, e) && ColumnsMeet(a, b, bounds, e))
  }

  lemma Apart(a: LogicalRect, b: LogicalRect, bounds: LogicalRect, e: real,
              m: PixelSize, n: PixelSize, j: bool, k: bool)
    requires e >= 0.0 && !Overlap(a, b) && WellPlaced(a, bounds, e, m, j) && WellPlaced(b, bounds, e, n, k)
    ensures Disjoint(Source(a, bounds, e), Source(b, bounds, e)) <==> !Collide(a, b, bounds, e)
  {
    if a.Right() <= b.x {
      EdgeMonotone(a.Right() - bounds.x, b.x - bounds.x, e);
    } else if b.Right() <= a.x {
      EdgeMonotone(b.Right() - bounds.x, a.x - bounds.x, e);
    } else if a.Bottom() <= b.y {
      EdgeMonotone(a.Bottom() - bounds.y, b.y - bounds.y, e);
    } else {
      EdgeMonotone(b.Bottom() - bounds.y, a.y - bounds.y, e);
    }
  }

  lemma OutputIsLong(o: Output, S: U32)
    requires Sound(o) && o.scale <= S
    ensures var (r, e, size) := (Rect(o), S as real / SCALE_BASE as real, Oriented(o.mode, o.transform));
            Long(r.width, e, size.width, o.scale == S) && Long(r.height, e, size.height, o.scale == S)
  {
    var size := Oriented(o.mode, o.transform);
    LengthAtScale(size.width, o.scale, S);
    LengthAtScale(size.height, o.scale, S);
  }

  lemma OutputPlaced(outputs: seq<Output>, bounds: LogicalRect, k: nat)
    requires AllSound(outputs) && k < |outputs| && Encloses(bounds, Rect(outputs[k]))
    ensures var (o, e) := (outputs[k], EngineScale(outputs));
            WellPlaced(Rect(o), bounds, e, Oriented(o.mode, o.transform), o.scale == MaxScale(outputs))
  {
    MaxScaleIsGreatest(outputs, k);
    var (o, e) := (outputs[k], EngineScale(outputs));
    OutputIsLong(o, MaxScale(outputs));
    Placed(Rect(o), bounds, e, Oriented(o.mode, o.transform), o.scale == MaxScale(outputs));
  }

  /** The source rectangle ends at its own edges: none had to be stretched to a pixel. */
  predicate Unguarded(source: PixelRect, r: LogicalRect, bounds: LogicalRect, e: real) {
    source.x + source.width == RightEdge(r, bounds, e) && source.y + source.height == BottomEdge(r, bounds, e)
  }

  lemma Outcome(fx: U32, lx: U32, ax: U32, sx: bool, ex: bool, fy: U32, ly: U32, ay: U32, sy: bool, ey: bool,
                size: PixelSize, just: bool)
    requires AxisOk(fx, lx, ax, sx, ex, size.width, just) && AxisOk(fy, ly, ay, sy, ey, size.height, just)
    ensures var source := PixelRect(fx, fy, Extent(fx, lx), Extent(fy, ly));
            && (Inside(source, PixelSize(Extent(0, ax), Extent(0, ay))) <==> sx && sy)
            && (fx + source.width == lx && fy + source.height == ly <==> sx && sy)
            && (just ==> (PixelSize(source.width, source.height) == size <==>
                          (ex || size.width == 1) && (ey || size.height == 1)))
  {
  }

  /** How the source rectangle of `r` comes out: inside the image, and with its own edges, if and
      only if it starts inside; and with just its own pixels if and only if it ends inside or is
      a single pixel there. */
  ghost predicate Comes(r: LogicalRect, bounds: LogicalRect, e: real, size: PixelSize, just: bool) {
    var source := Source(r, bounds, e);
    var starts := StartsInside(r.x - bounds.x, e) && StartsInside(r.y - bounds.y, e);
    && (Inside(source, AtlasSize(bounds, e)) <==> starts)
    && (Unguarded(source, r, bounds, e) <==> starts)
    && (just ==> (PixelSize(source.width, source.height) == size <==>
                  && (EndsInside(r.Right() - bounds.x, e) || size.width == 1)
                  && (EndsInside(r.Bottom() - bounds.y, e) || size.height == 1)))
  }

  lemma ComesOut(r: LogicalRect, bounds: LogicalRect, e: real, size: PixelSize, just: bool)
    requires WellPlaced(r, bounds, e, size, just)
    ensures Comes(r, bounds, e, size, just)
  {
    Outcome(ScaledEdge(r.x - bounds.x, e), RightEdge(r, bounds, e), ScaledEdge(bounds.width, e),
            StartsInside(r.x - bounds.x, e), EndsInside(r.Right() - bounds.x, e),
            ScaledEdge(r.y - bounds.y, e), BottomEdge(r, bounds, e), ScaledEdge(bounds.height, e),
            StartsInside(r.y - bounds.y, e), EndsInside(r.Bottom() - bounds.y, e), size, just);
  }

  /** For the outputs of a valid manager: a source rectangle lies inside the image, and has its
      own edges, if and only if its first edges come before the last one that 32 bits hold; and
      an output at the highest scale is shown pixel for pixel if and only if its last edges
      fit, or it is a single pixel there. */
  lemma EverySourceFits(outputs: seq<Output>, bounds: LogicalRect, k: nat)
    requires Acceptable(outputs) && k < |outputs| && IsBounds(bounds, outputs)
    ensures var (o, r, e) := (outputs[k], Rect(outputs[k]), EngineScale(outputs));
            && Comes(r, bounds, e, Oriented(o.mode, o.transform), o.scale == MaxScale(outputs))
            && PlanOutput(o, bounds, e).source == Source(r, bounds, e)
            && (PlanOutput(o, bounds, e).sampling == OneToOne <==>
                PixelSize(Source(r, bounds, e).width, Source(r, bounds, e).height) == Oriented(o.mode, o.transform))
  {
    OutputPlaced(outputs, bounds, k);
    var (o, e) := (outputs[k], EngineScale(outputs));
    ComesOut(Rect(o), bounds, e, Oriented(o.mode, o.transform), o.scale == MaxScale(outputs));
  }

  /** Two of them share a pixel if and only if both are pushed onto the last edge that fits, one
      way, and onto it the other way too or their rounded edges meet there. */
  lemma NoTwoSourcesMeet(outputs: seq<Output>, bounds: LogicalRect, i: nat, j: nat)
    requires Acceptable(outputs) && i < j < |outputs| && IsBounds(bounds, outputs)
    ensures var (a, b, e) := (outputs[i], outputs[j], EngineScale(outputs));
            Disjoint(PlanOutput(a, bounds, e).source, PlanOutput(b, bounds, e).source) <==>
            !Collide(Rect(a), Rect(b), bounds, e)
  {
    OutputPlaced(outputs, bounds, i);
    OutputPlaced(outputs, bounds, j);
    var (a, b, most) := (outputs[i], outputs[j], MaxScale(outputs));
    assert Compatible(a, b);
    Apart(Rect(a), Rect(b), bounds, EngineScale(outputs), Oriented(a.mode, a.transform), Oriented(b.mode, b.transform),
          a.scale == most, b.scale == most);
  }

  /** So if the whole image fits in 32 bits, everything is as it should be. */
  lemma FittingImageIsExact(outputs: seq<Output>, bounds: LogicalRect, k: nat)
    requires Acceptable(outputs) && k < |outputs| && IsBounds(bounds, outputs)
    requires EndsInside(bounds.width, EngineScale(outputs)) && EndsInside(bounds.height, EngineScale(outputs))
    ensures var (r, e) := (Rect(outputs[k]), EngineScale(outputs));
            && StartsInside(r.x - bounds.x, e) && StartsInside(r.y - bounds.y, e)
            && EndsInside(r.Right() - bounds.x, e) && EndsInside(r.Bottom() - bounds.y, e)
  {
    var o := outputs[k];
    MaxScaleIsGreatest(outputs, k);
    OutputIsLong(o, MaxScale(outputs));
    assert AllEnclosed(bounds, outputs);
    FittingRect(Rect(o), bounds, EngineScale(outputs), Oriented(o.mode, o.transform), o.scale == MaxScale(outputs));
  }

  lemma FittingRect(r: LogicalRect, bounds: LogicalRect, e: real, size: PixelSize, just: bool)
    requires Encloses(bounds, r) && e >= 0.0 && EndsInside(bounds.width, e) && EndsInside(bounds.height, e)
    requires Long(r.width, e, size.width, just) && Long(r.height, e, size.height, just)
    ensures StartsInside(r.x - bounds.x, e) && StartsInside(r.y - bounds.y, e)
    ensures EndsInside(r.Right() - bounds.x, e) && EndsInside(r.Bottom() - bounds.y, e)
  {
    FittingAxis(r.x - bounds.x, r.width, r.Right() - bounds.x, bounds.width, e, size.width);
    FittingAxis(r.y - bounds.y, r.height, r.Bottom() - bounds.y, bounds.height, e, size.height);
  }

  lemma FittingAxis(start: real, length: real, end: real, whole: real, e: real, n: U32)
    requires 0.0 <= start && end == start + length && end <= whole && e >= 0.0
    requires n > 0 && length * e >= n as real && EndsInside(whole, e)
    ensures StartsInside(start, e) && EndsInside(end, e)
  {
    var a, l, b, z := Axis(start, length, end, whole, e);
    RoundMonotone(b, z);
    PixelsOfLength(a, l, n);
  }

  // ---------------------------------------------------------------- an image that does not fit

  /** A one-pixel output at a given place, at twice the base scale. */
  function Dot(id: nat, name: string, x: I32): Output {
    Output(id, name, x, 0, PixelSize(1, 1), 2 * SCALE_BASE, 60_000, Normal)
  }

  /** Three of them at both ends of the coordinate range. */
  const FAR_APART := [Dot(0, "a", -0x8000_0000), Dot(1, "b", 0x7fff_fffd), Dot(2, "c", 0x7fff_fffe)]

  /** The manager accepts them, but the two at the far end share a pixel outside the image. */
  lemma FarApartCollide(bounds: LogicalRect)
    requires bounds == LogicalRect(-2147483648.0, 0.0, 4294967294.5, 0.5)
    ensures Acceptable(FAR_APART) && IsBounds(bounds, FAR_APART)
    ensures var e := EngineScale(FAR_APART);
            var (p, q) := (PlanOutput(FAR_APART[1], bounds, e), PlanOutput(FAR_APART[2], bounds, e));
            && !Disjoint(p.source, q.source)
            && !Inside(p.source, AtlasSize(bounds, e)) && !Inside(q.source, AtlasSize(bounds, e))
  {
    FarApartAccepted();
    assert EngineScale(FAR_APART) == 2.0 by { FarApartScale(); }
    FarApartBounds(bounds);
    assert Source(Rect(FAR_APART[1]), bounds, 2.0) == PixelRect(U32_MAX, 0, 1, 1);
    assert Source(Rect(FAR_APART[2]), bounds, 2.0) == PixelRect(U32_MAX, 0, 1, 1);
  }

  lemma DotRect(id: nat, name: string, x: I32)
    ensures Rect(Dot(id, name, x)) == LogicalRect(x as real, 0.0, 0.5, 0.5)
  {
    var o := Dot(id, name, x);
    assert o.scale as real / SCALE_BASE as real == 2.0;
  }

  lemma DotSound(id: nat, name: string, x: I32)
    requires !Blank(name) && x < 0x7fff_ffff
    ensures Sound(Dot(id, name, x))
  {
    DotRect(id, name, x);
  }

  lemma DotsCompatible(a: nat, b: nat, m: string, n: string, x: I32, y: I32)
    requires m != n && x < y
    ensures Compatible(Dot(a, m, x), Dot(b, n, y))
  {
    DotRect(a, m, x);
    DotRect(b, n, y);
  }

  lemma FarApartAccepted()
    ensures Acceptable(FAR_APART)
    ensures Rect(FAR_APART[0]) == LogicalRect(-2147483648.0, 0.0, 0.5, 0.5)
    ensures Rect(FAR_APART[1]) == LogicalRect(2147483645.0, 0.0, 0.5, 0.5)
    ensures Rect(FAR_APART[2]) == LogicalRect(2147483646.0, 0.0, 0.5, 0.5)
  {
    DotRect(0, "a", -0x8000_0000);
    DotRect(1, "b", 0x7fff_fffd);
    DotRect(2, "c", 0x7fff_fffe);
    assert !Whitespace("a"[0]) && !Whitespace("b"[0]) && !Whitespace("c"[0]);
    assert "a"[0] != "b"[0] && "a"[0] != "c"[0] && "b"[0] != "c"[0];
    DotSound(0, "a", -0x8000_0000);
    DotSound(1, "b", 0x7fff_fffd);
    DotSound(2, "c", 0x7fff_fffe);
    DotsCompatible(0, 1, "a", "b", -0x8000_0000, 0x7fff_fffd);
    DotsCompatible(0, 2, "a", "c", -0x8000_0000, 0x7fff_fffe);
    DotsCompatible(1, 2, "b", "c", 0x7fff_fffd, 0x7fff_fffe);
    var dots := FAR_APART;
    forall i, j | 0 <= i < j < |dots| ensures Compatible(dots[i], dots[j]) {
      assert (i == 0 && j == 1) || (i == 0 && j == 2) || (i == 1 && j == 2);
    }
  }

  lemma FarApartScale()
    ensures MaxScale(FAR_APART) == 2 * SCALE_BASE
  {
    assert FAR_APART[1..] == [FAR_APART[1], FAR_APART[2]];
    assert FAR_APART[1..][1..] == [FAR_APART[2]];
  }

  lemma FarApartBounds(bounds: LogicalRect)
    requires bounds == LogicalRect(-2147483648.0, 0.0, 4294967294.5, 0.5)
    ensures Scaled(FAR_APART) && IsBounds(bounds, FAR_APART)
  {
    FarApartAccepted();
    assert Rect(FAR_APART[0]).x == bounds.x && Rect(FAR_APART[0]).y == bounds.y;
    assert Rect(FAR_APART[0]).Bottom() == bounds.Bottom() && Rect(FAR_APART[2]).Right() == bounds.Right();
  }
}
