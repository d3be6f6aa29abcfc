/** Outputs, their eight orientations, and the affine map that takes an output's part of the
    desktop image to the connector's native pixels. Coordinates are exact reals. */
module Projection {
  type U32 = n: int | 0 <= n < 0x1_0000_0000
  type I32 = n: int | -0x8000_0000 <= n < 0x8000_0000

  const SCALE_BASE := 120

  datatype PixelSize = PixelSize(width: U32, height: U32)
  datatype PixelRect = PixelRect(x: U32, y: U32, width: U32, height: U32)
  datatype Point = Point(x: real, y: real)

  datatype LogicalRect = LogicalRect(x: real, y: real, width: real, height: real) {
    function Right(): real { x + width }
    function Bottom(): real { y + height }
  }

  datatype Transform =
    Normal | Rotate90 | Rotate180 | Rotate270 | Flipped | Flipped90 | Flipped180 | Flipped270
  {
    predicate SwapsAxes() {
      Rotate90? || Rotate270? || Flipped90? || Flipped270?
    }

    /** From the connector's axes back to the output's, both normalized. */
    function NativeToLogical(p: Point): Point {
      match this
      case Normal => p
      case Rotate90 => Point(1.0 - p.y, p.x)
      case Rotate180 => Point(1.0 - p.x, 1.0 - p.y)
      case Rotate270 => Point(p.y, 1.0 - p.x)
      case Flipped => Point(1.0 - p.x, p.y)
      case Flipped90 => Point(p.y, p.x)
      case Flipped180 => Point(p.x, 1.0 - p.y)
      case Flipped270 => Point(1.0 - p.y, 1.0 - p.x)
    }

    function Turns(): (n: nat)
      ensures n < 4
    {
      match this
      case Normal => 0 case Flipped => 0
      case Rotate90 => 1 case Flipped90 => 1
      case Rotate180 => 2 case Flipped180 => 2
      case Rotate270 => 3 case Flipped270 => 3
    }

    predicate Reflected() {
      Flipped? || Flipped90? || Flipped180? || Flipped270?
    }

    function RotatedBy(rotation: Transform): Transform {
      var turns := Turns() + rotation.Turns();
      Facing(if turns >= 4 then turns - 4 else turns, Reflected())
    }

    function InverseRotation(): Transform {
      match Turns()
      case 0 => Normal
      case 1 => Rotate270
      case 2 => Rotate180
      case _ => Rotate90
    }
  }

  function Facing(turns: nat, reflected: bool): Transform {
    if turns == 0 then (if reflected then Flipped else Normal)
    else if turns == 1 then (if reflected then Flipped90 else Rotate90)
    else if turns == 2 then (if reflected then Flipped180 else Rotate180)
    else (if reflected then Flipped270 else Rotate270)
  }

  /** Turning back restores the output, and turning never reflects. */
  lemma TurningBackRestores(t: Transform, r: Transform)
    ensures t.RotatedBy(r).RotatedBy(r.InverseRotation()) == t
    ensures t.RotatedBy(r).Reflected() == t.Reflected()
  {
    var u := t.RotatedBy(r);
    assert t == Facing(t.Turns(), t.Reflected());
  }

  lemma QuarterComposes(t: Transform, p: Point)
    ensures t.RotatedBy(Rotate90).NativeToLogical(p) == t.NativeToLogical(Rotate90.NativeToLogical(p))
  {
    match t
    case Normal => assert t.RotatedBy(Rotate90) == Rotate90;
    case Rotate90 => assert t.RotatedBy(Rotate90) == Rotate180;
    case Rotate180 => assert t.RotatedBy(Rotate90) == Rotate270;
    case Rotate270 => assert t.RotatedBy(Rotate90) == Normal;
    case Flipped => assert t.RotatedBy(Rotate90) == Flipped90;
    case Flipped90 => assert t.RotatedBy(Rotate90) == Flipped180;
    case Flipped180 => assert t.RotatedBy(Rotate90) == Flipped270;
    case Flipped270 => assert t.RotatedBy(Rotate90) == Flipped;
  }

  lemma {:induction false} TurnsCompose(t: Transform, turns: nat, p: Point)
    requires turns < 4
    ensures t.RotatedBy(Facing(turns, false)).NativeToLogical(p) ==
            t.NativeToLogical(Facing(turns, false).NativeToLogical(p))
  {
    if turns > 0 {
      var (r, less) := (Facing(turns, false), Facing(turns - 1, false));
      assert t.RotatedBy(r) == t.RotatedBy(less).RotatedBy(Rotate90) && r == less.RotatedBy(Rotate90);
      QuarterComposes(t.RotatedBy(less), p);
      QuarterComposes(less, p);
      TurnsCompose(t, turns - 1, Rotate90.NativeToLogical(p));
    } else {
      assert t.RotatedBy(Normal) == t;
    }
  }

  /** Turning the device composes with how its panel is mounted: the input map of the turned
      output is that of the turn followed by the panel's. Only the turn of `r` counts. */
  lemma RotationComposes(t: Transform, r: Transform, p: Point)
    ensures var turn := if r.Reflected() then Facing(r.Turns(), false) else r;
            t.RotatedBy(r).NativeToLogical(p) == t.NativeToLogical(turn.NativeToLogical(p))
  {
    TurnsCompose(t, r.Turns(), p);
    var turn := Facing(r.Turns(), false);
    assert t.RotatedBy(r) == t.RotatedBy(turn);
  }

  /** A point of the desktop image under the map: x' = a x + b y + c, y' = d x + e y + f. */
  datatype Affine = Affine(scaleX: real, skewX: real, translateX: real, skewY: real, scaleY: real, translateY: real) {
    function Apply(p: Point): Point {
      Point(scaleX * p.x + skewX * p.y + translateX, skewY * p.x + scaleY * p.y + translateY)
    }
  }

  /** The size of an output as it is looked at. */
  function Oriented(mode: PixelSize, t: Transform): PixelSize {
    if t.SwapsAxes() then PixelSize(mode.height, mode.width) else mode
  }

  /** From output-local pixels of a `width` by `height` output to the connector's. */
  function Turned(t: Transform, width: real, height: real): Affine {
    match t
    case Normal => Affine(1.0, 0.0, 0.0, 0.0, 1.0, 0.0)
    case Rotate90 => Affine(0.0, 1.0, 0.0, -1.0, 0.0, width)
    case Rotate180 => Affine(-1.0, 0.0, width, 0.0, -1.0, height)
    case Rotate270 => Affine(0.0, -1.0, height, 1.0, 0.0, 0.0)
    case Flipped => Affine(-1.0, 0.0, width, 0.0, 1.0, 0.0)
    case Flipped90 => Affine(0.0, 1.0, 0.0, 1.0, 0.0, 0.0)
    case Flipped180 => Affine(1.0, 0.0, 0.0, 0.0, -1.0, height)
    case Flipped270 => Affine(0.0, -1.0, height, -1.0, 0.0, width)
  }

  /** `m` after moving (x, y) to the origin and scaling the axes. */
  function Scaled(m: Affine, sx: real, sy: real, x: real, y: real): Affine {
    var (a, b, d, e) := (m.scaleX * sx, m.skewX * sy, m.skewY * sx, m.scaleY * sy);
    Affine(a, b, m.translateX - a * x - b * y, d, e, m.translateY - d * x - e * y)
  }

  /** The map `m` of a `w` by `h` output, from the source rectangle stretched over it. */
  function Stretched(m: Affine, w: real, h: real, source: PixelRect): Affine
    requires source.width > 0 && source.height > 0
  {
    Scaled(m, w / source.width as real, h / source.height as real, source.x as real, source.y as real)
  }

  function ForOutput(mode: PixelSize, t: Transform, source: PixelRect): Affine
    requires source.width > 0 && source.height > 0
  {
    var (width, height) := (Oriented(mode, t).width as real, Oriented(mode, t).height as real);
    Stretched(Turned(t, width, height), width, height, source)
  }

  /** Where `p` is in the source rectangle, as fractions of its size. */
  function InSource(source: PixelRect, p: Point): Point
    requires source.width > 0 && source.height > 0
  {
    Point((p.x - source.x as real) / source.width as real, (p.y - source.y as real) / source.height as real)
  }

  /** Where `q` is in the native mode. */
  function InMode(mode: PixelSize, q: Point): Point
    requires mode.width > 0 && mode.height > 0
  {
    Point(q.x / mode.width as real, q.y / mode.height as real)
  }

  predicate Unit(p: Point) {
    0.0 <= p.x <= 1.0 && 0.0 <= p.y <= 1.0
  }

  // ---------------------------------------------------------------- inverse maps

  /** How far `x` is from `x0`, at `r` to one. */
  function Offset(r: real, x: real, x0: real): real {
    r * (x - x0)
  }

  lemma OffsetFraction(w: real, s: real, x: real, x0: real)
    requires w > 0.0 && s > 0.0
    ensures Offset(w / s, x, x0) / w == (x - x0) / s
  {
    var (r, u) := (w / s, (x - x0) / s);
    assert r * s == w && u * s == x - x0;
    var v := r * (x - x0);
    assert v == r * (u * s) == w * u;
    assert (v / w) * w == v;
    Same(v / w, u, w);
  }

  lemma Same(x: real, y: real, w: real)
    requires w > 0.0 && x * w == y * w
    ensures x == y
  {
    assert (x - y) * w == 0.0;
  }

  lemma Complement(w: real, a: real)
    requires w > 0.0
    ensures (w - a) / w == 1.0 - a / w
  {
    var (x, y) := ((w - a) / w, a / w);
    assert x * w == w - a && y * w == a;
    Same(x, 1.0 - y, w);
  }

  /** One term of the map: scaled by `a` after `r`, from `x0` to `x`. */
  lemma Term(a: real, r: real, x: real, x0: real, u: real, ar: real, f: real, f0: real, g: real)
    requires u == r * (x - x0) && ar == a * r && f == ar * x && f0 == ar * x0 && g == a * u
    ensures f - f0 == g
  {
    assert g == ar * (x - x0);
  }

  /** One row of the map. */
  lemma Row(a: real, b: real, c: real, sx: real, sy: real, p: Point, x: real, y: real,
            u: real, v: real, ar: real, bs: real)
    requires u == Offset(sx, p.x, x) && v == Offset(sy, p.y, y) && ar == a * sx && bs == b * sy
    ensures ar * p.x + bs * p.y + (c - ar * x - bs * y) == a * u + b * v + c
  {
    var (f, f0, g) := (ar * p.x, ar * x, a * u);
    var (h, h0, k) := (bs * p.y, bs * y, b * v);
    Term(a, sx, p.x, x, u, ar, f, f0, g);
    Term(b, sy, p.y, y, v, bs, h, h0, k);
  }

  lemma ScaledApply(m: Affine, sx: real, sy: real, x: real, y: real, p: Point, u: real, v: real)
    requires u == Offset(sx, p.x, x) && v == Offset(sy, p.y, y)
    ensures Scaled(m, sx, sy, x, y).Apply(p) == m.Apply(Point(u, v))
  {
    var (a, b, d, e) := (m.scaleX * sx, m.skewX * sy, m.skewY * sx, m.scaleY * sy);
    var s := Scaled(m, sx, sy, x, y);
    assert s == Affine(a, b, m.translateX - a * x - b * y, d, e, m.translateY - d * x - e * y);
    Row(m.scaleX, m.skewX, m.translateX, sx, sy, p, x, y, u, v, a, b);
    Row(m.skewY, m.scaleY, m.translateY, sx, sy, p, x, y, u, v, d, e);
  }

  /** The stretched map is `m` on the offsets within the source rectangle. */
  lemma MapOfOffsets(m: Affine, w: real, h: real, source: PixelRect, p: Point)
    requires source.width > 0 && source.height > 0
    ensures Stretched(m, w, h, source).Apply(p)
            == m.Apply(Point(Offset(w / source.width as real, p.x, source.x as real),
                             Offset(h / source.height as real, p.y, source.y as real)))
  {
    var (sx, sy, x, y) := (w / source.width as real, h / source.height as real, source.x as real, source.y as real);
    ScaledApply(m, sx, sy, x, y, p, Offset(sx, p.x, x), Offset(sy, p.y, y));
  }

  /** Where on the connector the top left and the top right corner of an output are shown: at the
      right, and at the bottom? A quarter turn is counter-clockwise. */
  function TopLeft(t: Transform): (bool, bool) {
    match t
    case Normal => (false, false)
    case Rotate90 => (false, true)
    case Rotate180 => (true, true)
    case Rotate270 => (true, false)
    case Flipped => (true, false)
    case Flipped90 => (false, false)
    case Flipped180 => (false, true)
    case Flipped270 => (true, true)
  }

  function TopRight(t: Transform): (bool, bool) {
    match t
    case Normal => (true, false)
    case Rotate90 => (false, false)
    case Rotate180 => (false, true)
    case Rotate270 => (true, true)
    case Flipped => (false, false)
    case Flipped90 => (false, true)
    case Flipped180 => (true, true)
    case Flipped270 => (true, false)
  }

  function Corner(mode: PixelSize, at: (bool, bool)): Point {
    Point(if at.0 then mode.width as real else 0.0, if at.1 then mode.height as real else 0.0)
  }

  /** The whole of an offset is the whole length. */
  lemma OffsetOfWhole(w: real, s: real, x0: real)
    requires s > 0.0
    ensures Offset(w / s, x0, x0) == 0.0 && Offset(w / s, x0 + s, x0) == w
  {
    var r := w / s;
    assert r * s == w;
    assert x0 + s - x0 == s;
  }

  /** The map of a point on the top edge, from its terms. */
  lemma AlongTop(m: Affine, x: real, a: real, d: real, c: real, f: real, p: real, q: real)
    requires m.scaleX == a && m.skewY == d && m.translateX == c && m.translateY == f && p == a * x && q == d * x
    ensures m.Apply(Point(x, 0.0)) == Point(p + c, q + f)
  {
  }

  /** `m` takes `p` to `q`. */
  predicate Sends(m: Affine, p: Point, q: Point) {
    m.Apply(p) == q
  }

  lemma TopSent(m: Affine, w: real, a: real, d: real, c: real, f: real, p: real, q: real, left: Point, right: Point)
    requires m.scaleX == a && m.skewY == d && m.translateX == c && m.translateY == f && p == a * w && q == d * w
    requires left == Point(c, f) && right == Point(p + c, q + f)
    ensures Sends(m, Point(0.0, 0.0), left) && Sends(m, Point(w, 0.0), right)
  {
    AlongTop(m, 0.0, a, d, c, f, 0.0, 0.0);
    AlongTop(m, w, a, d, c, f, p, q);
  }

  lemma TurnedCorners(mode: PixelSize, t: Transform, w: real, h: real)
    requires w == Oriented(mode, t).width as real && h == Oriented(mode, t).height as real
    ensures Sends(Turned(t, w, h), Point(0.0, 0.0), Corner(mode, TopLeft(t)))
    ensures Sends(Turned(t, w, h), Point(w, 0.0), Corner(mode, TopRight(t)))
  {
    var (m, left, right) := (Turned(t, w, h), Corner(mode, TopLeft(t)), Corner(mode, TopRight(t)));
    match t
    case Normal => TopSent(m, w, 1.0, 0.0, 0.0, 0.0, w, 0.0, left, right);
    case Rotate90 => TopSent(m, w, 0.0, -1.0, 0.0, w, 0.0, -w, left, right);
    case Rotate180 => TopSent(m, w, -1.0, 0.0, w, h, -w, 0.0, left, right);
    case Rotate270 => TopSent(m, w, 0.0, 1.0, h, 0.0, 0.0, w, left, right);
    case Flipped => TopSent(m, w, -1.0, 0.0, w, 0.0, -w, 0.0, left, right);
    case Flipped90 => TopSent(m, w, 0.0, 1.0, 0.0, 0.0, 0.0, w, left, right);
    case Flipped180 => TopSent(m, w, 1.0, 0.0, 0.0, h, w, 0.0, left, right);
    case Flipped270 => TopSent(m, w, 0.0, -1.0, h, w, 0.0, -w, left, right);
  }

  /** The top corners of a source rectangle go where the output's do. */
  lemma MapOfTop(m: Affine, w: real, h: real, source: PixelRect, left: Point, right: Point)
    requires source.width > 0 && source.height > 0
    requires Sends(m, Point(0.0, 0.0), left) && Sends(m, Point(w, 0.0), right)
    ensures var (s, x, y) := (Stretched(m, w, h, source), source.x as real, source.y as real);
            Sends(s, Point(x, y), left) && Sends(s, Point(x + source.width as real, y), right)
  {
    var (x, y) := (source.x as real, source.y as real);
    OffsetOfWhole(w, source.width as real, x);
    OffsetOfWhole(h, source.height as real, y);
    MapOfOffsets(m, w, h, source, Point(x, y));
    MapOfOffsets(m, w, h, source, Point(x + source.width as real, y));
  }

  /** The corners of the source rectangle come out at the corners of the mode, in the sense of the
      orientation. */
  lemma CornersTurn(mode: PixelSize, t: Transform, source: PixelRect, w: real, h: real, m: Affine)
    requires source.width > 0 && source.height > 0
    requires w == Oriented(mode, t).width as real && h == Oriented(mode, t).height as real
    requires m == Stretched(Turned(t, w, h), w, h, source)
    ensures Sends(m, Point(source.x as real, source.y as real), Corner(mode, TopLeft(t)))
    ensures Sends(m, Point(source.x as real + source.width as real, source.y as real), Corner(mode, TopRight(t)))
    ensures m == ForOutput(mode, t, source)
  {
    TurnedCorners(mode, t, w, h);
    MapOfTop(Turned(t, w, h), w, h, source, Corner(mode, TopLeft(t)), Corner(mode, TopRight(t)));
  }

  /** A native position as fractions of a mode that shows a `w` by `h` output turned by `t`. */
  function Normalized(t: Transform, w: real, h: real, q: Point): Point
    requires w > 0.0 && h > 0.0
  {
    if t.SwapsAxes() then Point(q.x / h, q.y / w) else Point(q.x / w, q.y / h)
  }

  /** Reading a turned position off the connector's axes undoes the turn. */
  lemma TurnBack(t: Transform, w: real, h: real, a: real, b: real)
    requires w > 0.0 && h > 0.0
    ensures t.NativeToLogical(Normalized(t, w, h, Turned(t, w, h).Apply(Point(a, b)))) == Point(a / w, b / h)
  {
    Complement(w, a);
    Complement(h, b);
    match t
    case Normal => assert Turned(t, w, h).Apply(Point(a, b)) == Point(a, b);
    case Rotate90 => assert Turned(t, w, h).Apply(Point(a, b)) == Point(b, w - a);
    case Rotate180 => assert Turned(t, w, h).Apply(Point(a, b)) == Point(w - a, h - b);
    case Rotate270 => assert Turned(t, w, h).Apply(Point(a, b)) == Point(h - b, a);
    case Flipped => assert Turned(t, w, h).Apply(Point(a, b)) == Point(w - a, b);
    case Flipped90 => assert Turned(t, w, h).Apply(Point(a, b)) == Point(b, a);
    case Flipped180 => assert Turned(t, w, h).Apply(Point(a, b)) == Point(a, h - b);
    case Flipped270 => assert Turned(t, w, h).Apply(Point(a, b)) == Point(h - b, w - a);
  }

  lemma ModeIsOriented(mode: PixelSize, t: Transform, q: Point)
    requires mode.width > 0 && mode.height > 0
    ensures InMode(mode, q) == Normalized(t, Oriented(mode, t).width as real, Oriented(mode, t).height as real, q)
  {
  }

  /** Input undoes scanout, for every mode, source rectangle and orientation: mapping a point
      of the desktop image to the connector and its normalized position back gives where the
      point was in the source rectangle. */
  lemma InputUndoesProjection(mode: PixelSize, t: Transform, source: PixelRect, p: Point)
    requires source.width > 0 && source.height > 0 && mode.width > 0 && mode.height > 0
    ensures t.NativeToLogical(InMode(mode, ForOutput(mode, t, source).Apply(p))) == InSource(source, p)
  {
    var (w, h) := (Oriented(mode, t).width as real, Oriented(mode, t).height as real);
    var a := Offset(w / source.width as real, p.x, source.x as real);
    var b := Offset(h / source.height as real, p.y, source.y as real);
    MapOfOffsets(Turned(t, w, h), w, h, source, p);
    ModeIsOriented(mode, t, ForOutput(mode, t, source).Apply(p));
    TurnBack(t, w, h, a, b);
    OffsetFraction(w, source.width as real, p.x, source.x as real);
    OffsetFraction(h, source.height as real, p.y, source.y as real);
  }

  // ---------------------------------------------------------------- the image is the whole mode

  lemma NativeToLogicalIsOneToOne(t: Transform, p: Point, q: Point)
    ensures t.NativeToLogical(p) == t.NativeToLogical(q) <==> p == q
    ensures Unit(t.NativeToLogical(p)) <==> Unit(p)
  {
  }

  /** A point is in the source rectangle exactly when its image is in the native mode. */
  lemma SourceMapsIntoMode(mode: PixelSize, t: Transform, source: PixelRect, p: Point)
    requires source.width > 0 && source.height > 0 && mode.width > 0 && mode.height > 0
    ensures Unit(InSource(source, p)) <==> Unit(InMode(mode, ForOutput(mode, t, source).Apply(p)))
  {
    InputUndoesProjection(mode, t, source, p);
    var n := InMode(mode, ForOutput(mode, t, source).Apply(p));
    NativeToLogicalIsOneToOne(t, n, n);
  }

  function FromFraction(source: PixelRect, u: Point): Point {
    Point(source.x as real + u.x * source.width as real, source.y as real + u.y * source.height as real)
  }

  /** The desktop point shown at native position `q`. */
  function ShownAt(mode: PixelSize, t: Transform, source: PixelRect, q: Point): Point
    requires mode.width > 0 && mode.height > 0
  {
    FromFraction(source, t.NativeToLogical(InMode(mode, q)))
  }

  lemma FractionOf(x0: real, u: real, s: real, x: real)
    requires s > 0.0
    ensures x == x0 + u * s <==> (x - x0) / s == u
  {
    var v := x - x0;
    assert v / s * s == v;
    if v == u * s { Same(v / s, u, s); }
  }

  lemma FractionRoundTrip(source: PixelRect, u: Point, p: Point)
    requires source.width > 0 && source.height > 0
    ensures p == FromFraction(source, u) <==> InSource(source, p) == u
  {
    FractionOf(source.x as real, u.x, source.width as real, p.x);
    FractionOf(source.y as real, u.y, source.height as real, p.y);
  }

  lemma SameInMode(mode: PixelSize, p: Point, q: Point)
    requires mode.width > 0 && mode.height > 0 && InMode(mode, p) == InMode(mode, q)
    ensures p == q
  {
    var (w, h) := (mode.width as real, mode.height as real);
    assert p.x / w * w == p.x && q.x / w * w == q.x;
    assert p.y / h * h == p.y && q.y / h * h == q.y;
  }

  /** Every native position shows exactly one desktop point: `ShownAt` and the projection are
      inverse both ways, so the source rectangle is mapped onto the whole mode. */
  lemma ProjectionIsOnto(mode: PixelSize, t: Transform, source: PixelRect, q: Point)
    requires source.width > 0 && source.height > 0 && mode.width > 0 && mode.height > 0
    ensures ForOutput(mode, t, source).Apply(ShownAt(mode, t, source, q)) == q
  {
    var p := ShownAt(mode, t, source, q);
    InputUndoesProjection(mode, t, source, p);
    FractionRoundTrip(source, t.NativeToLogical(InMode(mode, q)), p);
    var q' := ForOutput(mode, t, source).Apply(p);
    NativeToLogicalIsOneToOne(t, InMode(mode, q'), InMode(mode, q));
    SameInMode(mode, q', q);
  }

  lemma ShownWhereProjected(mode: PixelSize, t: Transform, source: PixelRect, p: Point)
    requires source.width > 0 && source.height > 0 && mode.width > 0 && mode.height > 0
    ensures ShownAt(mode, t, source, ForOutput(mode, t, source).Apply(p)) == p
  {
    InputUndoesProjection(mode, t, source, p);
    FractionRoundTrip(source, InSource(source, p), p);
  }
}
