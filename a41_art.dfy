/** a41.py: the fixed figure of ten circles (a row of five red circles above a
    row of five blue ones) written into an HTML page inside a 500 by 300 SVG
    drawing box. `HtmlDocument` is the one of module `Html`. */
module FixedArt {
  import opened Text
  import opened Svg
  import opened Html

  /** `CircleShape`: integer centre and radius, a color, and an opacity. */
  datatype Circle = Circle(cx: int, cy: int, r: int, color: Color, op: Number)

  const Red: Color := Color(IntNum(255), IntNum(0), IntNum(0))
  const Blue: Color := Color(IntNum(0), IntNum(0), IntNum(255))

  /** The text around and the values of `svg_element`: the opacity attribute
      follows the closing quote of `fill` with no space in between. */
  function Parts(c: Circle): seq<string> {
    ["<circle cx=", IntToString(c.cx), " cy=", IntToString(c.cy), " r=", IntToString(c.r),
     " fill=", ColorText(c.color), "fill-opacity=", NumText(c.op), "></circle>"]
  }

  /** `CircleShape.svg_element`. */
  function SvgElement(c: Circle): string {
    Quoted(Parts(c))
  }

  function IntOf(n: Option<Number>): Option<int> {
    if n.Some? && n.value.IntNum? then Some(n.value.i) else None
  }

  /** Reads an element in the layout of `svg_element` back into a circle. */
  function ReadCircle(e: string): Option<Circle> {
    var p := SplitOn(e, '"');
    if |p| == 11 then ReadFields(p) else None
  }

  /** The values between the quotes of an element cut at its quotes. */
  function ReadFields(p: seq<string>): Option<Circle>
    requires |p| == 11
  {
    if p[0] == "<circle cx=" && p[2] == " cy=" && p[4] == " r=" && p[6] == " fill="
      && p[8] == "fill-opacity=" && p[10] == "></circle>" then
      var cx, cy, r, c, op := IntOf(ParseNum(p[1])), IntOf(ParseNum(p[3])), IntOf(ParseNum(p[5])), ReadColor(p[7]), ParseNum(p[9]);
      if cx.Some? && cy.Some? && r.Some? && c.Some? && op.Some?
      then Some(Circle(cx.value, cy.value, r.value, c.value, op.value))
      else None
    else None
  }

  /** The fixed text around the values of the element holds no double quote. */
  lemma ElementTexts()
    ensures Unquoted("<circle cx=") && Unquoted(" cy=") && Unquoted(" r=") && Unquoted(" fill=") && Unquoted("fill-opacity=") && Unquoted("></circle>")
  {
  }

  /** Every element reads back as the circle printed, and the opacity
      attribute is glued to the closing quote of `fill`. */
  lemma SvgElementRoundTrip(c: Circle)
    ensures SplitOn(SvgElement(c), '"') == Parts(c)
    ensures SplitOn(SvgElement(c), '"')[8] == "fill-opacity="
    ensures ReadCircle(SvgElement(c)) == Some(c)
  {
    ElementTexts();
    NumValue(IntNum(c.cx));
    NumValue(IntNum(c.cy));
    NumValue(IntNum(c.r));
    NumValue(c.op);
    ColorRoundTrip(c.color);
    FiveValues("<circle cx=", " cy=", " r=", " fill=", "fill-opacity=", "></circle>",
      IntToString(c.cx), IntToString(c.cy), IntToString(c.r), ColorText(c.color), NumText(c.op));
    CircleFields(IntToString(c.cx), IntToString(c.cy), IntToString(c.r), ColorText(c.color), NumText(c.op), c);
  }

  lemma CircleFields(a: string, b: string, c: string, d: string, e: string, s: Circle)
    requires ParseNum(a) == Some(IntNum(s.cx)) && ParseNum(b) == Some(IntNum(s.cy)) && ParseNum(c) == Some(IntNum(s.r))
    requires ReadColor(d) == Some(s.color) && ParseNum(e) == Some(s.op)
    ensures ReadFields(["<circle cx=", a, " cy=", b, " r=", c, " fill=", d, "fill-opacity=", e, "></circle>"]) == Some(s)
  {
    var p := ["<circle cx=", a, " cy=", b, " r=", c, " fill=", d, "fill-opacity=", e, "></circle>"];
    assert p[1] == a && p[3] == b && p[5] == c && p[7] == d && p[9] == e;
  }

  /** The class-level counter `CircleShape.ccnt`. */
  class CircleCount {
    var ccnt: int

    constructor ()
      ensures ccnt == 0
    {
      ccnt := 0;
    }
  }

  /** `CircleShape(...)`: the circle, and `ccnt` one higher. */
  method NewCircle(count: CircleCount, cx: int, cy: int, r: int, color: Color, op: Number) returns (c: Circle)
    modifies count
    ensures c == Circle(cx, cy, r, color, op)
    ensures count.ccnt == old(count.ccnt) + 1
  {
    c := Circle(cx, cy, r, color, op);
    count.ccnt := count.ccnt + 1;
  }

  /** The ten circles of `gen_art`, in the order they are written; the
      opacity `1.0` is ten tenths. */
  function Figure(): seq<Circle> {
    [Circle(50, 50, 50, Red, Tenths(10)), Circle(150, 50, 50, Red, Tenths(10)),
     Circle(250, 50, 50, Red, Tenths(10)), Circle(350, 50, 50, Red, Tenths(10)),
     Circle(450, 50, 50, Red, Tenths(10)), Circle(50, 250, 50, Blue, Tenths(10)),
     Circle(150, 250, 50, Blue, Tenths(10)), Circle(250, 250, 50, Blue, Tenths(10)),
     Circle(350, 250, 50, Blue, Tenths(10)), Circle(450, 250, 50, Blue, Tenths(10))]
  }

  /** The figure as drawn: two rows of five circles of radius 50, a red row
      at height 50 over a blue row at height 250, centres 100 apart, fully
      opaque. */
  lemma FigureLayout()
    ensures |Figure()| == 10
    ensures forall k :: 0 <= k < 10 ==>
      Figure()[k] == Circle(50 + 100 * (k % 5), if k < 5 then 50 else 250, 50, if k < 5 then Red else Blue, Tenths(10))
  {
    var f := Figure();
    forall k | 0 <= k < 10
      ensures f[k] == Circle(50 + 100 * (k % 5), if k < 5 then 50 else 250, 50, if k < 5 then Red else Blue, Tenths(10))
    {
      if k < 5 {
        assert k % 5 == k;
      } else {
        assert k % 5 == k - 5;
      }
    }
  }

  /** Every circle of the figure lies inside the 500 by 300 drawing box, and
      no two of them overlap (neighbours in a row touch). */
  lemma FigureFits()
    ensures forall k :: 0 <= k < |Figure()| ==>
      0 <= Figure()[k].cx - Figure()[k].r && Figure()[k].cx + Figure()[k].r <= 500 &&
      0 <= Figure()[k].cy - Figure()[k].r && Figure()[k].cy + Figure()[k].r <= 300
    ensures forall j, k :: 0 <= j < k < |Figure()| ==>
      var dx, dy := Figure()[j].cx - Figure()[k].cx, Figure()[j].cy - Figure()[k].cy;
      dx * dx + dy * dy >= (Figure()[j].r + Figure()[k].r) * (Figure()[j].r + Figure()[k].r)
  {
    FigureLayout();
    forall j, k | 0 <= j < k < 10
      ensures var dx, dy := Figure()[j].cx - Figure()[k].cx, Figure()[j].cy - Figure()[k].cy;
        dx * dx + dy * dy >= 10000
    {
      var dx, dy := Figure()[j].cx - Figure()[k].cx, Figure()[j].cy - Figure()[k].cy;
      if (j < 5) == (k < 5) {
        assert dx * dx >= 10000 by {
          assert dx == 100 * (j % 5 - k % 5) && j % 5 != k % 5;
        }
      } else {
        assert dy * dy == 40000;
      }
    }
  }

  /** The lines `es` at indent `tabs`. */
  function Indented(tabs: int, es: seq<string>): seq<string> {
    seq(|es|, k requires 0 <= k < |es| => Line(tabs, es[k]))
  }

  /** The elements of the circles `cs`. */
  function Elements(cs: seq<Circle>): seq<string> {
    seq(|cs|, k requires 0 <= k < |cs| => SvgElement(cs[k]))
  }

  /** Ten indented lines, written out one by one. */
  lemma IndentedTen(tabs: int, es: seq<string>)
    requires |es| == 10
    ensures Indented(tabs, es) == [Line(tabs, es[0]), Line(tabs, es[1]), Line(tabs, es[2]), Line(tabs, es[3]), Line(tabs, es[4]), Line(tabs, es[5]), Line(tabs, es[6]), Line(tabs, es[7]), Line(tabs, es[8]), Line(tabs, es[9])]
  {
  }

  /** Ten appends in a row add the ten lines in order. */
  lemma AppendTen(o: seq<string>, l1: string, l2: string, l3: string, l4: string, l5: string,
                  l6: string, l7: string, l8: string, l9: string, l10: string)
    ensures o + [l1] + [l2] + [l3] + [l4] + [l5] + [l6] + [l7] + [l8] + [l9] + [l10]
      == o + [l1, l2, l3, l4, l5, l6, l7, l8, l9, l10]
  {
  }

  /** The lines `gen_art` writes at indent `tabs`. */
  function ArtLines(tabs: int): seq<string> {
    Indented(tabs, Elements(Figure()))
  }

  /** Each line of the figure, with its indent stripped, reads back as the
      circle written there. */
  lemma ArtLinesRead(tabs: int)
    ensures |ArtLines(tabs)| == 10
    ensures forall k :: 0 <= k < 10 ==> ReadCircle(LStrip(ArtLines(tabs)[k])) == Some(Figure()[k])
  {
    forall k | 0 <= k < 10
      ensures ReadCircle(LStrip(ArtLines(tabs)[k])) == Some(Figure()[k])
    {
      var e := SvgElement(Figure()[k]);
      assert e[0] == '<' by {
        assert e == "<circle cx=" + ['"'] + Quoted(Parts(Figure()[k])[1..]);
      }
      LineSpec(tabs, e);
      SvgElementRoundTrip(Figure()[k]);
    }
  }

  /** `HtmlDocument.gen_art`: ten circles constructed, then their elements
      appended in order. */
  method GenArt(doc: HtmlDocument, count: CircleCount)
    requires !doc.closed
    modifies doc, count
    ensures doc.lines == old(doc.lines) + ArtLines(doc.tabs)
    ensures doc.tabs == old(doc.tabs) && doc.winTitle == old(doc.winTitle) && !doc.closed
    ensures count.ccnt == old(count.ccnt) + 10
  {
    var circle1 := NewCircle(count, 50, 50, 50, Red, Tenths(10));
    var circle2 := NewCircle(count, 150, 50, 50, Red, Tenths(10));
    var circle3 := NewCircle(count, 250, 50, 50, Red, Tenths(10));
    var circle4 := NewCircle(count, 350, 50, 50, Red, Tenths(10));
    var circle5 := NewCircle(count, 450, 50, 50, Red, Tenths(10));
    var circle6 := NewCircle(count, 50, 250, 50, Blue, Tenths(10));
    var circle7 := NewCircle(count, 150, 250, 50, Blue, Tenths(10));
    var circle8 := NewCircle(count, 250, 250, 50, Blue, Tenths(10));
    var circle9 := NewCircle(count, 350, 250, 50, Blue, Tenths(10));
    var circle10 := NewCircle(count, 450, 250, 50, Blue, Tenths(10));

    ghost var t, o := doc.tabs, doc.lines;
    doc.Append(SvgElement(circle1));
    doc.Append(SvgElement(circle2));
    doc.Append(SvgElement(circle3));
    doc.Append(SvgElement(circle4));
    doc.Append(SvgElement(circle5));
    doc.Append(SvgElement(circle6));
    doc.Append(SvgElement(circle7));
    doc.Append(SvgElement(circle8));
    doc.Append(SvgElement(circle9));
    doc.Append(SvgElement(circle10));
    AppendTen(o, Line(t, SvgElement(circle1)), Line(t, SvgElement(circle2)), Line(t, SvgElement(circle3)), Line(t, SvgElement(circle4)), Line(t, SvgElement(circle5)), Line(t, SvgElement(circle6)), Line(t, SvgElement(circle7)), Line(t, SvgElement(circle8)), Line(t, SvgElement(circle9)), Line(t, SvgElement(circle10)));
    IndentedTen(t, Elements(Figure()));
    assert Figure() == [circle1, circle2, circle3, circle4, circle5, circle6, circle7, circle8, circle9, circle10];
  }

  /** `main`: the page with the body and the drawing box opened, the figure,
      and the closing lines; ten circles counted. */
  method DrawArt() returns (doc: HtmlDocument, count: CircleCount)
    ensures doc.closed && doc.tabs == 0
    ensures doc.lines == Prologue("My art", 500, 300) + ArtLines(2) + Epilogue()
    ensures count.ccnt == 10
  {
    doc := OpenDrawing("My art", 500, 300);
    count := new CircleCount();
    GenArt(doc, count);
    CloseDrawing(doc);
  }
}
