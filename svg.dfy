/** The values the a4 art scripts print into SVG attributes: Python numbers
    (ints, and floats rounded to one decimal), `Color` tuples, and the
    quote-delimited attribute layout of an element, each with the reader that
    takes the text back apart. */
module Svg {
  import opened Text

  /** A Python number as the art scripts hold it: an `int`, or a `float`
      rounded to one decimal, kept as a count of tenths. */
  datatype Number = IntNum(i: int) | Tenths(t: int)

  /** A number as tenths, for comparing ints with floats. */
  function InTenths(n: Number): int {
    match n
    case IntNum(i) => 10 * i
    case Tenths(t) => t
  }

  /** Python's `str()` of a number: an int in decimal, a one-decimal float
      as `whole.digit` with a minus sign when negative. */
  function NumText(n: Number): string {
    match n
    case IntNum(i) => IntToString(i)
    case Tenths(t) => TenthsText(t)
  }

  /** A one-decimal float from its count of tenths: the sign and the whole
      part, a point, and the tenths digit. */
  function TenthsText(t: int): string {
    var m := if t < 0 then -t else t;
    WholeText(t < 0, m / 10) + "." + [DigitChar(m % 10)]
  }

  /** The part of a float before its point. */
  function WholeText(neg: bool, whole: nat): string {
    (if neg then "-" else "") + NatToString(whole)
  }

  predicate IntLiteral(s: string) {
    s != [] && (s[0] == '-' ==> |s| > 1 && AllDigits(s[1..])) && (s[0] != '-' ==> AllDigits(s))
  }

  /** Reads a number back: without a `.` it is an int, otherwise a float
      whose parts are either side of the first `.`. */
  function ParseNum(s: string): Option<Number> {
    var k := IndexOf(s, '.');
    if k == |s| then ParseIntLiteral(s) else ParsePoint(s[..k], s[k + 1..])
  }

  /** Digits with an optional minus sign read as an int. */
  function ParseIntLiteral(s: string): Option<Number> {
    if IntLiteral(s) then Some(IntNum(ParseInt(s))) else None
  }

  /** Digits with an optional minus sign before the point and exactly one
      digit after it read as a float in tenths. */
  function ParsePoint(whole: string, frac: string): Option<Number> {
    var neg := whole != [] && whole[0] == '-';
    var digits := if neg then whole[1..] else whole;
    if digits != [] && AllDigits(digits) && |frac| == 1 && IsDigit(frac[0]) then
      var m := ParseNat(digits) * 10 + DigitValue(frac[0]);
      Some(Tenths(if neg then -m else m))
    else None
  }

  /** Digits, minus signs and points only: text that holds no quote and no comma. */
  predicate Plain(s: string) {
    forall k :: 0 <= k < |s| ==> IsDigit(s[k]) || s[k] in "-."
  }

  lemma PlainAvoids(s: string)
    requires Plain(s)
    ensures ',' !in s && '"' !in s
  {
  }

  /** A printed number holds only digits, a minus sign and a point, and reads back as itself. */
  lemma NumTextRoundTrip(n: Number)
    ensures Plain(NumText(n))
    ensures ParseNum(NumText(n)) == Some(n)
  {
    match n
    case IntNum(i) => IntTextRoundTrip(i);
    case Tenths(t) => TenthsTextRoundTrip(t);
  }

  lemma IntTextRoundTrip(i: int)
    ensures Plain(IntToString(i))
    ensures ParseNum(IntToString(i)) == Some(IntNum(i))
  {
    var s := IntToString(i);
    IntToStringRoundTrip(i);
    assert forall k :: 0 < k < |s| ==> s[k] == s[1..][k - 1];
    IndexOfAt(s, '.', |s|);
    assert IntLiteral(s);
  }

  lemma TenthsTextRoundTrip(t: int)
    ensures Plain(TenthsText(t))
    ensures ParseNum(TenthsText(t)) == Some(Tenths(t))
  {
    var m := if t < 0 then -t else t;
    WholeTextPlain(t < 0, m / 10);
    PointPlain(WholeText(t < 0, m / 10), DigitChar(m % 10));
    PointRoundTrip(t < 0, m / 10, m % 10, t);
  }

  /** A float printed from its sign, whole part and tenths digit reads back
      as the value `v` they make up. */
  lemma PointRoundTrip(neg: bool, whole: nat, tenth: nat, v: int)
    requires tenth < 10
    requires v == if neg then -(whole * 10 + tenth) else whole * 10 + tenth
    ensures ParseNum(WholeText(neg, whole) + "." + [DigitChar(tenth)]) == Some(Tenths(v))
  {
    WholeTextPlain(neg, whole);
    CutAtPoint(WholeText(neg, whole), DigitChar(tenth));
    if neg {
      NegativePoint(whole, tenth);
    } else {
      PositivePoint(whole, tenth);
    }
  }

  lemma PositivePoint(whole: nat, tenth: nat)
    requires tenth < 10
    ensures ParsePoint(WholeText(false, whole), [DigitChar(tenth)]) == Some(Tenths(whole * 10 + tenth))
  {
    var w := NatToString(whole);
    NatToStringRoundTrip(whole);
    assert WholeText(false, whole) == w;
    assert ParseNat(w) == whole && DigitValue(DigitChar(tenth)) == tenth;
    ReadPositivePoint(w, DigitChar(tenth));
  }

  lemma NegativePoint(whole: nat, tenth: nat)
    requires tenth < 10
    ensures ParsePoint(WholeText(true, whole), [DigitChar(tenth)]) == Some(Tenths(-(whole * 10 + tenth)))
  {
    var w := NatToString(whole);
    NatToStringRoundTrip(whole);
    assert WholeText(true, whole) == "-" + w;
    assert ParseNat(w) == whole && DigitValue(DigitChar(tenth)) == tenth;
    ReadNegativePoint(w, DigitChar(tenth));
  }

  /** The whole part is a sign and digits only. */
  lemma WholeTextPlain(neg: bool, whole: nat)
    ensures forall k :: 0 <= k < |WholeText(neg, whole)| ==> WholeText(neg, whole)[k] == '-' || IsDigit(WholeText(neg, whole)[k])
  {
    NatToStringRoundTrip(whole);
    var w := NatToString(whole);
    if neg {
      assert forall k :: 0 < k < |"-" + w| ==> ("-" + w)[k] == w[k - 1];
    } else {
      assert WholeText(neg, whole) == w;
    }
  }

  /** A sign and digits, a point, and one digit hold nothing else. */
  lemma PointPlain(head: string, d: char)
    requires forall k :: 0 <= k < |head| ==> head[k] == '-' || IsDigit(head[k])
    requires IsDigit(d)
    ensures Plain(head + "." + [d])
  {
  }

  /** Text with no point before its point is read as a float from the two sides. */
  lemma CutAtPoint(head: string, d: char)
    requires forall k :: 0 <= k < |head| ==> head[k] == '-' || IsDigit(head[k])
    ensures ParseNum(head + "." + [d]) == ParsePoint(head, [d])
  {
    var s := head + "." + [d];
    IndexOfAt(s, '.', |head|);
    assert s[..|head|] == head;
    assert s[|head| + 1..] == [d];
  }

  lemma ReadPositivePoint(w: string, d: char)
    requires w != [] && AllDigits(w) && IsDigit(d)
    ensures ParsePoint(w, [d]) == Some(Tenths(ParseNat(w) * 10 + DigitValue(d)))
  {
    assert w[0] != '-';
  }

  lemma ReadNegativePoint(w: string, d: char)
    requires w != [] && AllDigits(w) && IsDigit(d)
    ensures ParsePoint("-" + w, [d]) == Some(Tenths(-(ParseNat(w) * 10 + DigitValue(d))))
  {
    assert ("-" + w)[1..] == w;
  }

  /** Text that can stand between two double quotes. */
  predicate Unquoted(s: string) {
    '"' !in s
  }

  /** A printed number holds no quote and reads back as itself. */
  lemma NumValue(n: Number)
    ensures Unquoted(NumText(n)) && ParseNum(NumText(n)) == Some(n)
  {
    NumTextRoundTrip(n);
    PlainAvoids(NumText(n));
  }

  /** `Color`: a red, green and blue value. */
  datatype Color = Color(red: Number, green: Number, blue: Number)

  /** Joins the parts with `d` between each two. */
  function JoinOn(parts: seq<string>, d: char): string {
    if parts == [] then ""
    else if |parts| == 1 then parts[0]
    else parts[0] + [d] + JoinOn(parts[1..], d)
  }

  /** Cuts `s` at every `d`; the parts hold no `d`. */
  function SplitOn(s: string, d: char): (parts: seq<string>)
    ensures |parts| >= 1
    decreases |s|
  {
    var k := IndexOf(s, d);
    if k == |s| then [s] else [s[..k]] + SplitOn(s[k + 1..], d)
  }

  /** Cutting at `d` undoes joining on `d` when no part holds a `d`. */
  lemma {:induction false} SplitJoin(parts: seq<string>, d: char)
    requires parts != []
    requires forall k :: 0 <= k < |parts| ==> d !in parts[k]
    ensures SplitOn(JoinOn(parts, d), d) == parts
    decreases |parts|
  {
    var p := parts[0];
    if |parts| == 1 {
      IndexOfAt(p, d, |p|);
    } else {
      var rest := JoinOn(parts[1..], d);
      var s := p + [d] + rest;
      IndexOfAt(s, d, |p|);
      assert s[..|p|] == p && s[|p| + 1..] == rest;
      SplitJoin(parts[1..], d);
    }
  }

  /** A character in none of the parts and not the separator is not in their join. */
  lemma {:induction false} JoinOnAvoids(parts: seq<string>, d: char, x: char)
    requires x != d
    requires forall k :: 0 <= k < |parts| ==> x !in parts[k]
    ensures x !in JoinOn(parts, d)
    decreases |parts|
  {
    if |parts| > 1 {
      JoinOnAvoids(parts[1..], d, x);
    }
  }

  /** `Color.__str__`: `rgb(R, G, B)`. */
  function ColorText(c: Color): string {
    "rgb(" + JoinOn([NumText(c.red), " " + NumText(c.green), " " + NumText(c.blue)], ',') + ")"
  }

  /** Reads `rgb(R, G, B)` back into a color. */
  function ReadColor(s: string): Option<Color> {
    if |s| >= 5 && s[..4] == "rgb(" && s[|s| - 1] == ')' then
      var parts := SplitOn(s[4..|s| - 1], ',');
      if |parts| == 3 && parts[1] != [] && parts[1][0] == ' ' && parts[2] != [] && parts[2][0] == ' ' then
        match (ParseNum(parts[0]), ParseNum(parts[1][1..]), ParseNum(parts[2][1..]))
        case (Some(r), Some(g), Some(b)) => Some(Color(r, g, b))
        case _ => None
      else None
    else None
  }

  /** A printed color reads back as itself and holds no double quote. */
  lemma ColorRoundTrip(c: Color)
    ensures ReadColor(ColorText(c)) == Some(c)
    ensures Unquoted(ColorText(c))
  {
    NumTextRoundTrip(c.red);
    NumTextRoundTrip(c.green);
    NumTextRoundTrip(c.blue);
    RgbParts(NumText(c.red), NumText(c.green), NumText(c.blue));
  }

  /** `rgb(a, b, c)` cut at its commas gives back `a`, ` b` and ` c`. */
  lemma RgbParts(a: string, b: string, c: string)
    requires Plain(a)
    requires Plain(b)
    requires Plain(c)
    ensures var s := "rgb(" + JoinOn([a, " " + b, " " + c], ',') + ")";
      |s| >= 5 && s[..4] == "rgb(" && s[|s| - 1] == ')' &&
      SplitOn(s[4..|s| - 1], ',') == [a, " " + b, " " + c] && '"' !in s
  {
    var parts := [a, " " + b, " " + c];
    PlainAvoids(a);
    PlainAvoids(b);
    PlainAvoids(c);
    SplitJoin(parts, ',');
    JoinOnAvoids(parts, ',', '"');
    var inner := JoinOn(parts, ',');
    var s := "rgb(" + inner + ")";
    assert s[..4] == "rgb(" && s[4..|s| - 1] == inner;
  }

  /** An element whose attribute values sit between double quotes: the parts
      alternate between the text around the values and the values. */
  function Quoted(parts: seq<string>): string {
    JoinOn(parts, '"')
  }

  /** Cutting an element at its quotes gives back the parts it was built from. */
  lemma QuotedParts(parts: seq<string>)
    requires parts != []
    requires forall k :: 0 <= k < |parts| ==> Unquoted(parts[k])
    ensures SplitOn(Quoted(parts), '"') == parts
  {
    SplitJoin(parts, '"');
  }

  /** An element with five quoted values: cutting it at its quotes gives back
      the text around the values and the values. */
  lemma FiveValues(t0: string, t1: string, t2: string, t3: string, t4: string, t5: string,
                   a: string, b: string, c: string, d: string, e: string)
    requires Unquoted(t0) && Unquoted(t1) && Unquoted(t2) && Unquoted(t3) && Unquoted(t4) && Unquoted(t5)
    requires Unquoted(a) && Unquoted(b) && Unquoted(c) && Unquoted(d) && Unquoted(e)
    ensures var p := [t0, a, t1, b, t2, c, t3, d, t4, e, t5];
      SplitOn(Quoted(p), '"') == p
  {
    QuotedParts([t0, a, t1, b, t2, c, t3, d, t4, e, t5]);
  }

  /** An element with six quoted values: cutting it at its quotes gives back
      the text around the values and the values. */
  lemma SixValues(t0: string, t1: string, t2: string, t3: string, t4: string, t5: string, t6: string,
                  a: string, b: string, c: string, d: string, e: string, f: string)
    requires Unquoted(t0) && Unquoted(t1) && Unquoted(t2) && Unquoted(t3) && Unquoted(t4) && Unquoted(t5) && Unquoted(t6)
    requires Unquoted(a) && Unquoted(b) && Unquoted(c) && Unquoted(d) && Unquoted(e) && Unquoted(f)
    ensures var p := [t0, a, t1, b, t2, c, t3, d, t4, e, t5, f, t6];
      SplitOn(Quoted(p), '"') == p
  {
    QuotedParts([t0, a, t1, b, t2, c, t3, d, t4, e, t5, f, t6]);
  }
}
