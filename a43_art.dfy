/** a43.py: shapes drawn at random from a configuration of number ranges,
    each printed as one SVG element line of the HTML document. Random choices
    are nondeterministic: the model keeps only the bounds the source
    guarantees. */
module RandomArt {
  import opened Text
  import opened Svg
  import opened Html

  /** `ShapeKind`: the supported kinds, chosen by name. */
  datatype ShapeKind = Circle | Rectangle | Ellipse

  function KindName(k: ShapeKind): string {
    match k
    case Circle => "CIRCLE"
    case Rectangle => "RECTANGLE"
    case Ellipse => "ELLIPSE"
  }

  /** `ShapeKind[name]`: the kind with that name; any other name raises `KeyError`. */
  function KindNamed(name: string): Option<ShapeKind> {
    if name == "CIRCLE" then Some(Circle)
    else if name == "RECTANGLE" then Some(Rectangle)
    else if name == "ELLIPSE" then Some(Ellipse)
    else None
  }

  /** Looking a kind up by name and naming a kind are inverse. */
  lemma KindNamedSpec(name: string, k: ShapeKind)
    ensures KindNamed(name) == Some(k) <==> name == KindName(k)
  {
  }

  /** `NumberRange`: two bounds, each an int or a float. */
  datatype NumberRange = NumberRange(start: Number, end: Number)

  predicate IntRange(r: NumberRange) {
    r.start.IntNum? && r.end.IntNum?
  }

  /** Whether `get_random` returns: `randint` raises `ValueError` on an
      empty int range, while `uniform` takes its bounds in either order. */
  predicate Samples(r: NumberRange) {
    IntRange(r) ==> r.start.i <= r.end.i
  }

  function Min(a: int, b: int): int {
    if a <= b then a else b
  }

  function Max(a: int, b: int): int {
    if a <= b then b else a
  }

  /** The values `get_random` can return: an int between two int bounds,
      both included; otherwise a one-decimal float between the bounds. */
  predicate InRange(r: NumberRange, v: Number) {
    if IntRange(r) then v.IntNum? && r.start.i <= v.i <= r.end.i
    else v.Tenths? && Min(InTenths(r.start), InTenths(r.end)) <= v.t <= Max(InTenths(r.start), InTenths(r.end))
  }

  /** `get_random`: `randint(start, end)` when both bounds are ints,
      `round(uniform(start, end), 1)` otherwise; `None` when it raises. */
  method GetRandom(r: NumberRange) returns (v: Option<Number>)
    ensures v.Some? <==> Samples(r)
    ensures v.Some? ==> InRange(r, v.value)
  {
    if IntRange(r) {
      if r.start.i <= r.end.i {
        var x :| r.start.i <= x <= r.end.i;
        v := Some(IntNum(x));
      } else {
        v := None;
      }
    } else {
      var lo, hi := Min(InTenths(r.start), InTenths(r.end)), Max(InTenths(r.start), InTenths(r.end));
      var t :| lo <= t <= hi;
      v := Some(Tenths(t));
    }
  }

  /** The three shape classes, by the values their `svg_element` prints. */
  datatype Shape =
    | CircleShape(cx: Number, cy: Number, r: Number, color: Color, op: Number)
    | RectangleShape(x: Number, y: Number, width: Number, height: Number, color: Color, op: Number)
    | EllipseShape(cx: Number, cy: Number, rx: Number, ry: Number, color: Color, op: Number)

  function KindOf(s: Shape): ShapeKind {
    match s
    case CircleShape(_, _, _, _, _) => Circle
    case RectangleShape(_, _, _, _, _, _) => Rectangle
    case EllipseShape(_, _, _, _, _, _) => Ellipse
  }

  /** The text around and the values of each `svg_element`: the circle puts a
      space before every attribute, the rectangle and the ellipse none before
      `fill`. */
  function Parts(s: Shape): seq<string> {
    match s
    case CircleShape(cx, cy, r, color, op) =>
      ["<circle cx=", NumText(cx), " cy=", NumText(cy), " r=", NumText(r),
       " fill=", ColorText(color), " fill-opacity=", NumText(op), "></circle>"]
    case RectangleShape(x, y, w, h, color, op) =>
      ["<rect x=", NumText(x), " y=", NumText(y), " width=", NumText(w), " height=", NumText(h),
       "fill=", ColorText(color), " fill-opacity=", NumText(op), "></rect>"]
    case EllipseShape(cx, cy, rx, ry, color, op) =>
      ["<ellipse cx=", NumText(cx), " cy=", NumText(cy), " rx=", NumText(rx), " ry=", NumText(ry),
       "fill=", ColorText(color), " fill-opacity=", NumText(op), "></ellipse>"]
  }

  /** `svg_element` of the three shape classes. */
  function SvgElement(s: Shape): string {
    Quoted(Parts(s))
  }

  /** Reads an element in one of the three layouts back into a shape. */
  function ReadShape(e: string): Option<Shape> {
    var p := SplitOn(e, '"');
    if |p| == 11 then ReadCircle(p)
    else if |p| == 13 && p[0] == "<rect x=" then ReadRectangle(p)
    else if |p| == 13 then ReadEllipse(p)
    else None
  }

  function ReadCircle(p: seq<string>): Option<Shape>
    requires |p| == 11
  {
    if p[0] == "<circle cx=" && p[2] == " cy=" && p[4] == " r=" && p[6] == " fill="
      && p[8] == " fill-opacity=" && p[10] == "></circle>"
    then CircleValues(p[1], p[3], p[5], p[7], p[9])
    else None
  }

  function CircleValues(a: string, b: string, c: string, d: string, e: string): Option<Shape> {
    var cx, cy, r, color, op := ParseNum(a), ParseNum(b), ParseNum(c), ReadColor(d), ParseNum(e);
    if cx.Some? && cy.Some? && r.Some? && color.Some? && op.Some?
    then Some(CircleShape(cx.value, cy.value, r.value, color.value, op.value))
    else None
  }

  function ReadRectangle(p: seq<string>): Option<Shape>
    requires |p| == 13
  {
    if p[2] == " y=" && p[4] == " width=" && p[6] == " height="
      && p[8] == "fill=" && p[10] == " fill-opacity=" && p[12] == "></rect>"
    then RectangleValues(p[1], p[3], p[5], p[7], p[9], p[11])
    else None
  }

  function RectangleValues(a: string, b: string, c: string, d: string, e: string, f: string): Option<Shape> {
    var x, y, w, h, color, op := ParseNum(a), ParseNum(b), ParseNum(c), ParseNum(d), ReadColor(e), ParseNum(f);
    if x.Some? && y.Some? && w.Some? && h.Some? && color.Some? && op.Some?
    then Some(RectangleShape(x.value, y.value, w.value, h.value, color.value, op.value))
    else None
  }

  function ReadEllipse(p: seq<string>): Option<Shape>
    requires |p| == 13
  {
    if p[0] == "<ellipse cx=" && p[2] == " cy=" && p[4] == " rx=" && p[6] == " ry="
      && p[8] == "fill=" && p[10] == " fill-opacity=" && p[12] == "></ellipse>"
    then EllipseValues(p[1], p[3], p[5], p[7], p[9], p[11])
    else None
  }

  function EllipseValues(a: string, b: string, c: string, d: string, e: string, f: string): Option<Shape> {
    var cx, cy, rx, ry, color, op := ParseNum(a), ParseNum(b), ParseNum(c), ParseNum(d), ReadColor(e), ParseNum(f);
    if cx.Some? && cy.Some? && rx.Some? && ry.Some? && color.Some? && op.Some?
    then Some(EllipseShape(cx.value, cy.value, rx.value, ry.value, color.value, op.value))
    else None
  }

  /** Every element reads back as the shape printed; the text in front of
      the `fill` value has a leading space only for the circle. */
  lemma SvgElementRoundTrip(s: Shape)
    ensures ReadShape(SvgElement(s)) == Some(s)
    ensures SplitOn(SvgElement(s), '"')[|Parts(s)| - 5] == if s.CircleShape? then " fill=" else "fill="
  {
    match s
    case CircleShape(cx, cy, r, color, op) =>
      CircleRoundTrip(cx, cy, r, color, op);
      assert |Parts(s)| == 11 && Parts(s)[6] == " fill=";
    case RectangleShape(x, y, w, h, color, op) =>
      RectangleRoundTrip(x, y, w, h, color, op);
      assert |Parts(s)| == 13 && Parts(s)[8] == "fill=";
    case EllipseShape(cx, cy, rx, ry, color, op) =>
      EllipseRoundTrip(cx, cy, rx, ry, color, op);
      assert |Parts(s)| == 13 && Parts(s)[8] == "fill=";
  }

  /** The fixed text around the values of the three elements holds no double quote. */
  lemma ElementTexts()
    ensures Unquoted("<circle cx=") && Unquoted(" cy=") && Unquoted(" r=") && Unquoted(" fill=")
    ensures Unquoted(" fill-opacity=") && Unquoted("></circle>") && Unquoted("<rect x=") && Unquoted(" y=")
    ensures Unquoted(" width=") && Unquoted(" height=") && Unquoted("fill=") && Unquoted("></rect>")
    ensures Unquoted("<ellipse cx=") && Unquoted(" rx=") && Unquoted(" ry=") && Unquoted("></ellipse>")
  {
  }

  lemma CircleRoundTrip(cx: Number, cy: Number, r: Number, color: Color, op: Number)
    ensures SplitOn(SvgElement(CircleShape(cx, cy, r, color, op)), '"') == Parts(CircleShape(cx, cy, r, color, op))
    ensures ReadShape(SvgElement(CircleShape(cx, cy, r, color, op))) == Some(CircleShape(cx, cy, r, color, op))
  {
    ElementTexts();
    NumValue(cx);
    NumValue(cy);
    NumValue(r);
    NumValue(op);
    ColorRoundTrip(color);
    FiveValues("<circle cx=", " cy=", " r=", " fill=", " fill-opacity=", "></circle>",
      NumText(cx), NumText(cy), NumText(r), ColorText(color), NumText(op));
    CircleFields(NumText(cx), NumText(cy), NumText(r), ColorText(color), NumText(op), CircleShape(cx, cy, r, color, op));
  }

  lemma RectangleRoundTrip(x: Number, y: Number, w: Number, h: Number, color: Color, op: Number)
    ensures SplitOn(SvgElement(RectangleShape(x, y, w, h, color, op)), '"') == Parts(RectangleShape(x, y, w, h, color, op))
    ensures ReadShape(SvgElement(RectangleShape(x, y, w, h, color, op))) == Some(RectangleShape(x, y, w, h, color, op))
  {
    ElementTexts();
    NumValue(x);
    NumValue(y);
    NumValue(w);
    NumValue(h);
    NumValue(op);
    ColorRoundTrip(color);
    SixValues("<rect x=", " y=", " width=", " height=", "fill=", " fill-opacity=", "></rect>",
      NumText(x), NumText(y), NumText(w), NumText(h), ColorText(color), NumText(op));
    RectangleFields(NumText(x), NumText(y), NumText(w), NumText(h), ColorText(color), NumText(op), RectangleShape(x, y, w, h, color, op));
  }

  lemma EllipseRoundTrip(cx: Number, cy: Number, rx: Number, ry: Number, color: Color, op: Number)
    ensures SplitOn(SvgElement(EllipseShape(cx, cy, rx, ry, color, op)), '"') == Parts(EllipseShape(cx, cy, rx, ry, color, op))
    ensures ReadShape(SvgElement(EllipseShape(cx, cy, rx, ry, color, op))) == Some(EllipseShape(cx, cy, rx, ry, color, op))
  {
    ElementTexts();
    NumValue(cx);
    NumValue(cy);
    NumValue(rx);
    NumValue(ry);
    NumValue(op);
    ColorRoundTrip(color);
    SixValues("<ellipse cx=", " cy=", " rx=", " ry=", "fill=", " fill-opacity=", "></ellipse>",
      NumText(cx), NumText(cy), NumText(rx), NumText(ry), ColorText(color), NumText(op));
    EllipseFields(NumText(cx), NumText(cy), NumText(rx), NumText(ry), ColorText(color), NumText(op), EllipseShape(cx, cy, rx, ry, color, op));
  }

  lemma CircleFields(a: string, b: string, c: string, d: string, e: string, s: Shape)
    requires s.CircleShape?
    requires ParseNum(a) == Some(s.cx) && ParseNum(b) == Some(s.cy) && ParseNum(c) == Some(s.r)
    requires ReadColor(d) == Some(s.color) && ParseNum(e) == Some(s.op)
    ensures ReadCircle(["<circle cx=", a, " cy=", b, " r=", c, " fill=", d, " fill-opacity=", e, "></circle>"]) == Some(s)
  {
    assert CircleValues(a, b, c, d, e) == Some(s);
    var p := ["<circle cx=", a, " cy=", b, " r=", c, " fill=", d, " fill-opacity=", e, "></circle>"];
    assert p[1] == a && p[3] == b && p[5] == c && p[7] == d && p[9] == e;
  }

  lemma RectangleFields(a: string, b: string, c: string, d: string, e: string, f: string, s: Shape)
    requires s.RectangleShape?
    requires ParseNum(a) == Some(s.x) && ParseNum(b) == Some(s.y) && ParseNum(c) == Some(s.width)
    requires ParseNum(d) == Some(s.height) && ReadColor(e) == Some(s.color) && ParseNum(f) == Some(s.op)
    ensures ReadRectangle(["<rect x=", a, " y=", b, " width=", c, " height=", d, "fill=", e, " fill-opacity=", f, "></rect>"]) == Some(s)
  {
    assert RectangleValues(a, b, c, d, e, f) == Some(s);
    var p := ["<rect x=", a, " y=", b, " width=", c, " height=", d, "fill=", e, " fill-opacity=", f, "></rect>"];
    assert p[1] == a && p[3] == b && p[5] == c && p[7] == d && p[9] == e && p[11] == f;
  }

  lemma EllipseFields(a: string, b: string, c: string, d: string, e: string, f: string, s: Shape)
    requires s.EllipseShape?
    requires ParseNum(a) == Some(s.cx) && ParseNum(b) == Some(s.cy) && ParseNum(c) == Some(s.rx)
    requires ParseNum(d) == Some(s.ry) && ReadColor(e) == Some(s.color) && ParseNum(f) == Some(s.op)
    ensures ReadEllipse(["<ellipse cx=", a, " cy=", b, " rx=", c, " ry=", d, "fill=", e, " fill-opacity=", f, "></ellipse>"]) == Some(s)
  {
    assert EllipseValues(a, b, c, d, e, f) == Some(s);
    var p := ["<ellipse cx=", a, " cy=", b, " rx=", c, " ry=", d, "fill=", e, " fill-opacity=", f, "></ellipse>"];
    assert p[1] == a && p[3] == b && p[5] == c && p[7] == d && p[9] == e && p[11] == f;
  }

  /** `RandomShape`: a kind and the eleven sampled values, whatever the kind. */
  datatype RandomShape = RandomShape(kind: ShapeKind, x: Number, y: Number, rad: Number, rx: Number, ry: Number,
                                     w: Number, h: Number, r: Number, g: Number, b: Number, op: Number)

  /** `PyArtConfig`: the kind names to choose from and a range per value. */
  datatype ArtConfig = ArtConfig(kinds: seq<string>, x: NumberRange, y: NumberRange, rad: NumberRange,
                                 rx: NumberRange, ry: NumberRange, w: NumberRange, h: NumberRange,
                                 r: NumberRange, g: NumberRange, b: NumberRange, op: NumberRange)

  /** Every range of the configuration can be sampled. */
  predicate Samplable(c: ArtConfig) {
    Samples(c.x) && Samples(c.y) && Samples(c.rad) && Samples(c.rx) && Samples(c.ry) && Samples(c.w)
    && Samples(c.h) && Samples(c.r) && Samples(c.g) && Samples(c.b) && Samples(c.op)
  }

  /** `RandomShape(config)` cannot raise: there is a name to choose, every
      name is a kind, and every range can be sampled. */
  predicate Drawable(c: ArtConfig) {
    c.kinds != [] && (forall k :: 0 <= k < |c.kinds| ==> KindNamed(c.kinds[k]).Some?) && Samplable(c)
  }

  /** A shape `RandomShape(config)` can produce. */
  predicate Drawn(c: ArtConfig, s: RandomShape) {
    KindName(s.kind) in c.kinds
    && InRange(c.x, s.x) && InRange(c.y, s.y) && InRange(c.rad, s.rad) && InRange(c.rx, s.rx)
    && InRange(c.ry, s.ry) && InRange(c.w, s.w) && InRange(c.h, s.h) && InRange(c.r, s.r)
    && InRange(c.g, s.g) && InRange(c.b, s.b) && InRange(c.op, s.op)
  }

  /** Every shape of `drawn` is one `RandomShape(config)` can produce,
      checked from the last one back. */
  predicate AllDrawn(c: ArtConfig, drawn: seq<RandomShape>)
    decreases |drawn|
  {
    drawn == [] || (AllDrawn(c, drawn[..|drawn| - 1]) && Drawn(c, drawn[|drawn| - 1]))
  }

  lemma {:induction false} AllDrawnSpec(c: ArtConfig, drawn: seq<RandomShape>)
    ensures AllDrawn(c, drawn) <==> forall k :: 0 <= k < |drawn| ==> Drawn(c, drawn[k])
    decreases |drawn|
  {
    if drawn != [] {
      var front := drawn[..|drawn| - 1];
      AllDrawnSpec(c, front);
      assert forall k :: 0 <= k < |front| ==> front[k] == drawn[k];
    }
  }

  /** The class-level counters of a43.py: `RandomShape.CNT` and the
      `ccnt`, `rcnt` and `ecnt` of the three shape classes. */
  class Registry {
    var shapes: int
    var circles: int
    var rectangles: int
    var ellipses: int

    /** The counters at program start: `CNT` is -1, so that shape 1 has count 0. */
    constructor ()
      ensures shapes == -1 && circles == 0 && rectangles == 0 && ellipses == 0
    {
      shapes := -1;
      circles := 0;
      rectangles := 0;
      ellipses := 0;
    }
  }

  /** `CircleShape(...)`: the shape, and `ccnt` one higher. */
  method NewCircle(reg: Registry, cx: Number, cy: Number, r: Number, color: Color, op: Number) returns (s: Shape)
    modifies reg
    ensures s == CircleShape(cx, cy, r, color, op)
    ensures reg.circles == old(reg.circles) + 1
    ensures reg.shapes == old(reg.shapes) && reg.rectangles == old(reg.rectangles) && reg.ellipses == old(reg.ellipses)
  {
    s := CircleShape(cx, cy, r, color, op);
    reg.circles := reg.circles + 1;
  }

  /** `RectangleShape(...)`: the shape, and `rcnt` one higher. */
  method NewRectangle(reg: Registry, x: Number, y: Number, w: Number, h: Number, color: Color, op: Number) returns (s: Shape)
    modifies reg
    ensures s == RectangleShape(x, y, w, h, color, op)
    ensures reg.rectangles == old(reg.rectangles) + 1
    ensures reg.shapes == old(reg.shapes) && reg.circles == old(reg.circles) && reg.ellipses == old(reg.ellipses)
  {
    s := RectangleShape(x, y, w, h, color, op);
    reg.rectangles := reg.rectangles + 1;
  }

  /** `EllipseShape(...)`: the shape, and `ecnt` one higher. */
  method NewEllipse(reg: Registry, cx: Number, cy: Number, rx: Number, ry: Number, color: Color, op: Number) returns (s: Shape)
    modifies reg
    ensures s == EllipseShape(cx, cy, rx, ry, color, op)
    ensures reg.ellipses == old(reg.ellipses) + 1
    ensures reg.shapes == old(reg.shapes) && reg.circles == old(reg.circles) && reg.rectangles == old(reg.rectangles)
  {
    s := EllipseShape(cx, cy, rx, ry, color, op);
    reg.ellipses := reg.ellipses + 1;
  }

  /** `RandomShape.__init__`: `CNT` goes up first, then a kind name is chosen
      and the eleven ranges are sampled in order; `None` when any step raises. */
  method NewRandomShape(reg: Registry, config: ArtConfig) returns (s: Option<RandomShape>)
    modifies reg
    ensures reg.shapes == old(reg.shapes) + 1
    ensures reg.circles == old(reg.circles) && reg.rectangles == old(reg.rectangles) && reg.ellipses == old(reg.ellipses)
    ensures s.Some? ==> Drawn(config, s.value) && config.kinds != [] && Samplable(config)
    ensures Drawable(config) ==> s.Some?
  {
    reg.shapes := reg.shapes + 1;
    if config.kinds == [] {
      return None;
    }
    var k :| 0 <= k < |config.kinds|;
    var kind := KindNamed(config.kinds[k]);
    if kind.None? {
      return None;
    }
    KindNamedSpec(config.kinds[k], kind.value);
    var x := GetRandom(config.x);
    var y := GetRandom(config.y);
    var rad := GetRandom(config.rad);
    var rx := GetRandom(config.rx);
    var ry := GetRandom(config.ry);
    var w := GetRandom(config.w);
    var h := GetRandom(config.h);
    var r := GetRandom(config.r);
    var g := GetRandom(config.g);
    var b := GetRandom(config.b);
    var op := GetRandom(config.op);
    if x.None? || y.None? || rad.None? || rx.None? || ry.None? || w.None? || h.None?
       || r.None? || g.None? || b.None? || op.None? {
      return None;
    }
    s := Some(RandomShape(kind.value, x.value, y.value, rad.value, rx.value, ry.value,
                          w.value, h.value, r.value, g.value, b.value, op.value));
  }

  /** The shape `as_svg` builds: circles use `RAD`, rectangles `W` and `H`,
      ellipses `RX` and `RY`; all use `X`, `Y`, the color and `OP`. */
  function ShapeOf(rs: RandomShape): Shape {
    var color := Color(rs.r, rs.g, rs.b);
    match rs.kind
    case Circle => CircleShape(rs.x, rs.y, rs.rad, color, rs.op)
    case Rectangle => RectangleShape(rs.x, rs.y, rs.w, rs.h, color, rs.op)
    case Ellipse => EllipseShape(rs.x, rs.y, rs.rx, rs.ry, color, rs.op)
  }

  /** `as_svg`: builds the shape of the random shape's kind, which counts it
      in that class's counter, and returns its element. */
  method AsSvg(reg: Registry, rs: RandomShape) returns (svg: string)
    modifies reg
    ensures svg == SvgElement(ShapeOf(rs))
    ensures reg.circles == old(reg.circles) + (if rs.kind == Circle then 1 else 0)
    ensures reg.rectangles == old(reg.rectangles) + (if rs.kind == Rectangle then 1 else 0)
    ensures reg.ellipses == old(reg.ellipses) + (if rs.kind == Ellipse then 1 else 0)
    ensures reg.shapes == old(reg.shapes)
  {
    var color := Color(rs.r, rs.g, rs.b);
    var s: Shape;
    if rs.kind == Circle {
      s := NewCircle(reg, rs.x, rs.y, rs.rad, color, rs.op);
    } else if rs.kind == Rectangle {
      s := NewRectangle(reg, rs.x, rs.y, rs.w, rs.h, color, rs.op);
    } else {
      s := NewEllipse(reg, rs.x, rs.y, rs.rx, rs.ry, color, rs.op);
    }
    svg := SvgElement(s);
  }

  /** The values a printed shape can hold under the configuration: its
      position from `X` and `Y`, its size from its own kind's ranges. */
  predicate Fits(c: ArtConfig, s: Shape) {
    InRange(c.r, s.color.red) && InRange(c.g, s.color.green) && InRange(c.b, s.color.blue) && InRange(c.op, s.op)
    && match s
       case CircleShape(cx, cy, r, _, _) => InRange(c.x, cx) && InRange(c.y, cy) && InRange(c.rad, r)
       case RectangleShape(x, y, w, h, _, _) => InRange(c.x, x) && InRange(c.y, y) && InRange(c.w, w) && InRange(c.h, h)
       case EllipseShape(cx, cy, rx, ry, _, _) => InRange(c.x, cx) && InRange(c.y, cy) && InRange(c.rx, rx) && InRange(c.ry, ry)
  }

  /** The lines `gen_art` appends for the shapes drawn. */
  function SvgLines(tabs: int, drawn: seq<RandomShape>): seq<string> {
    seq(|drawn|, k requires 0 <= k < |drawn| => Line(tabs, SvgElement(ShapeOf(drawn[k]))))
  }

  /** The lines of two runs of shapes, one after the other, are the lines of
      the two runs together. */
  lemma SvgLinesAppend(tabs: int, drawn: seq<RandomShape>, more: seq<RandomShape>)
    ensures SvgLines(tabs, drawn + more) == SvgLines(tabs, drawn) + SvgLines(tabs, more)
  {
    var all, front, back := SvgLines(tabs, drawn + more), SvgLines(tabs, drawn), SvgLines(tabs, more);
    forall k | 0 <= k < |all|
      ensures all[k] == (front + back)[k]
    {
      if k < |drawn| {
        assert (drawn + more)[k] == drawn[k];
      } else {
        assert (drawn + more)[k] == more[k - |drawn|];
      }
    }
  }

  /** Appending the line of one more shape to a document holding the lines
      of the shapes drawn so far gives the lines of all of them. */
  lemma LinesExtend(start: seq<string>, tabs: int, drawn: seq<RandomShape>, s: RandomShape)
    ensures start + SvgLines(tabs, drawn) + SvgLines(tabs, [s]) == start + SvgLines(tabs, drawn + [s])
  {
    SvgLinesAppend(tabs, drawn, [s]);
    assert start + SvgLines(tabs, drawn) + SvgLines(tabs, [s]) == start + (SvgLines(tabs, drawn) + SvgLines(tabs, [s]));
  }

  /** Each line `gen_art` writes is, once its indent is stripped, an element
      that reads back as a shape of the drawn kind whose values lie in the
      configured ranges. */
  lemma SvgLinesFit(c: ArtConfig, tabs: int, drawn: seq<RandomShape>)
    requires forall k :: 0 <= k < |drawn| ==> Drawn(c, drawn[k])
    ensures |SvgLines(tabs, drawn)| == |drawn|
    ensures forall k :: 0 <= k < |drawn| ==>
      var s := ReadShape(LStrip(SvgLines(tabs, drawn)[k]));
      s.Some? && KindOf(s.value) == drawn[k].kind && Fits(c, s.value)
  {
    forall k | 0 <= k < |drawn|
      ensures var s := ReadShape(LStrip(SvgLines(tabs, drawn)[k]));
        s.Some? && KindOf(s.value) == drawn[k].kind && Fits(c, s.value)
    {
      LineReads(tabs, ShapeOf(drawn[k]));
      ShapeOfFits(c, drawn[k]);
    }
  }

  /** A written line, its indent stripped, reads back as its shape. */
  lemma LineReads(tabs: int, s: Shape)
    ensures ReadShape(LStrip(Line(tabs, SvgElement(s)))) == Some(s)
  {
    SvgElementRoundTrip(s);
    ElementStart(s);
    LineSpec(tabs, SvgElement(s));
  }

  /** The shape drawn for a sample is of the sampled kind and its values lie
      in the configured ranges. */
  lemma ShapeOfFits(c: ArtConfig, rs: RandomShape)
    requires Drawn(c, rs)
    ensures KindOf(ShapeOf(rs)) == rs.kind && Fits(c, ShapeOf(rs))
  {
  }

  /** An element starts with `<`, not with whitespace. */
  lemma ElementStart(s: Shape)
    ensures SvgElement(s) != [] && SvgElement(s)[0] == '<'
  {
    var p := Parts(s);
    assert p[0][0] == '<';
    assert JoinOn(p, '"') == p[0] + ['"'] + JoinOn(p[1..], '"');
  }

  /** How many of the drawn shapes are of the kind. */
  function Count(drawn: seq<RandomShape>, kind: ShapeKind): nat {
    if drawn == [] then 0
    else Count(drawn[..|drawn| - 1], kind) + (if drawn[|drawn| - 1].kind == kind then 1 else 0)
  }

  /** Every drawn shape is counted once, in its own kind. */
  lemma {:induction false} CountsAddUp(drawn: seq<RandomShape>)
    ensures Count(drawn, Circle) + Count(drawn, Rectangle) + Count(drawn, Ellipse) == |drawn|
  {
    if drawn != [] {
      CountsAddUp(drawn[..|drawn| - 1]);
    }
  }

  /** One pass of the `gen_art` loop: draws a random shape and appends its
      element; `None`, with nothing appended, when the draw raises. */
  method DrawOne(doc: HtmlDocument, reg: Registry, config: ArtConfig) returns (s: Option<RandomShape>)
    requires !doc.closed
    modifies doc, reg
    ensures s.Some? ==> Drawn(config, s.value)
    ensures s.None? ==> !Drawable(config)
    ensures doc.lines == old(doc.lines) + SvgLines(doc.tabs, if s.Some? then [s.value] else [])
    ensures doc.tabs == old(doc.tabs) && doc.winTitle == old(doc.winTitle) && !doc.closed
    ensures reg.shapes == old(reg.shapes) + 1
    ensures reg.circles == old(reg.circles) + (if s.Some? && s.value.kind == Circle then 1 else 0)
    ensures reg.rectangles == old(reg.rectangles) + (if s.Some? && s.value.kind == Rectangle then 1 else 0)
    ensures reg.ellipses == old(reg.ellipses) + (if s.Some? && s.value.kind == Ellipse then 1 else 0)
  {
    s := NewRandomShape(reg, config);
    if s.Some? {
      var svg := AsSvg(reg, s.value);
      doc.Append(svg);
      assert SvgLines(doc.tabs, [s.value]) == [Line(doc.tabs, svg)];
    }
  }

  /** `gen_art(config, number)`: `number` times, a random shape is drawn and
      its element appended. When a draw raises, the program stops there:
      `failed` is set, and the counter of random shapes already counts the
      failed one. */
  method GenArt(doc: HtmlDocument, reg: Registry, config: ArtConfig, number: int) returns (drawn: seq<RandomShape>, failed: bool)
    requires !doc.closed
    modifies doc, reg
    ensures doc.lines == old(doc.lines) + SvgLines(doc.tabs, drawn)
    ensures doc.tabs == old(doc.tabs) && doc.winTitle == old(doc.winTitle) && !doc.closed
    ensures AllDrawn(config, drawn)
    ensures !failed ==> |drawn| == if number < 0 then 0 else number
    ensures failed ==> |drawn| < number && !Drawable(config)
    ensures reg.shapes == old(reg.shapes) + |drawn| + (if failed then 1 else 0)
    ensures reg.circles == old(reg.circles) + Count(drawn, Circle)
    ensures reg.rectangles == old(reg.rectangles) + Count(drawn, Rectangle)
    ensures reg.ellipses == old(reg.ellipses) + Count(drawn, Ellipse)
  {
    drawn, failed := [], false;
    var i := 0;
    while i < number
      invariant 0 <= i == |drawn| && i <= (if number < 0 then 0 else number)
      invariant doc.lines == old(doc.lines) + SvgLines(doc.tabs, drawn)
      invariant doc.tabs == old(doc.tabs) && doc.winTitle == old(doc.winTitle) && !doc.closed
      invariant AllDrawn(config, drawn)
      invariant reg.shapes == old(reg.shapes) + |drawn|
      invariant reg.circles == old(reg.circles) + Count(drawn, Circle)
      invariant reg.rectangles == old(reg.rectangles) + Count(drawn, Rectangle)
      invariant reg.ellipses == old(reg.ellipses) + Count(drawn, Ellipse)
    {
      var s := DrawOne(doc, reg, config);
      if s.None? {
        failed := true;
        return;
      }
      LinesExtend(old(doc.lines), doc.tabs, drawn, s.value);
      var before := drawn;
      drawn := drawn + [s.value];
      assert drawn[..|drawn| - 1] == before;
      i := i + 1;
    }
  }

  /** The configuration `main` draws from. */
  const MainConfig: ArtConfig :=
    ArtConfig(["RECTANGLE", "CIRCLE", "ELLIPSE"],
              NumberRange(IntNum(0), IntNum(500)), NumberRange(IntNum(0), IntNum(300)),
              NumberRange(IntNum(1), IntNum(5)), NumberRange(IntNum(5), IntNum(10)),
              NumberRange(IntNum(10), IntNum(30)), NumberRange(IntNum(10), IntNum(15)),
              NumberRange(IntNum(30), IntNum(80)), NumberRange(IntNum(150), IntNum(255)),
              NumberRange(IntNum(0), IntNum(90)), NumberRange(IntNum(0), IntNum(95)),
              NumberRange(Tenths(3), Tenths(9)))

  /** `main`: the preamble, a body holding a 500 by 300 drawing box with 800
      random shapes, and the closing lines; every random shape is counted, so
      `CNT` ends at 799. */
  method DrawArt() returns (doc: HtmlDocument, reg: Registry, drawn: seq<RandomShape>)
    ensures doc.closed && doc.tabs == 0
    ensures |drawn| == 800 && forall k :: 0 <= k < |drawn| ==> Drawn(MainConfig, drawn[k])
    ensures doc.lines == Prologue("My art", 500, 300) + SvgLines(2, drawn) + Epilogue()
    ensures reg.shapes == 799 && reg.circles + reg.rectangles + reg.ellipses == 800
  {
    doc := OpenDrawing("My art", 500, 300);
    reg := new Registry();
    assert Drawable(MainConfig);
    var failed;
    drawn, failed := GenArt(doc, reg, MainConfig, 800);
    AllDrawnSpec(MainConfig, drawn);
    CountsAddUp(drawn);
    CloseDrawing(doc);
  }
}
