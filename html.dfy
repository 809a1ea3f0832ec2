/** `HtmlDocument` of the a4 art scripts (the class is the same in a41.py and
    a43.py): an HTML file written line by line, each line indented by the
    current number of tabs. The file is modelled by the lines written to it,
    without their newline characters. */
module Html {
  import opened Text

  /** `HtmlDocument.TAB`: four spaces. */
  const Tab: string := "    "

  /** A line as `append` writes it: the tab repeated `tabs` times (nothing
      when `tabs <= 0`), then the content. */
  function Line(tabs: int, content: string): string {
    Repeat(Tab, tabs) + content
  }

  /** A line is the content behind four spaces per positive tab; stripping
      the indent gives the content back when it does not start with a space. */
  lemma LineSpec(tabs: int, content: string)
    ensures |Line(tabs, content)| == (if tabs <= 0 then 0 else 4 * tabs) + |content|
    ensures Line(tabs, content)[|Line(tabs, content)| - |content|..] == content
    ensures forall k :: 0 <= k < |Line(tabs, content)| - |content| ==> Line(tabs, content)[k] == ' '
    ensures content != [] && !IsSpace(content[0]) ==> LStrip(Line(tabs, content)) == content
  {
    RepeatLength(Tab, tabs);
    RepeatSpaces(tabs);
    var pad := Repeat(Tab, tabs);
    assert Line(tabs, content)[..|pad|] == pad;
    if content != [] && !IsSpace(content[0]) {
      LStripPrefix(pad, content);
    }
  }

  /** The first indents written out. */
  lemma Indents(content: string)
    ensures Line(0, content) == content
    ensures Line(1, content) == "    " + content
    ensures Line(2, content) == "        " + content
  {
    assert Repeat(Tab, 2) == Tab + Repeat(Tab, 1);
  }

  /** What the `main` functions write before the drawing: the preamble, then
      the body and the drawing box opened, each one tab further in. */
  function Prologue(title: string, width: int, height: int): seq<string> {
    ["<html>", "<head>", "    <title>" + title + "</title>", "</head>",
     Line(0, "<body>"), Line(1, "<!--Define SVG drawing box-->"),
     Line(1, "<svg width=\"" + IntToString(width) + "\" height=\"" + IntToString(height) + "\">")]
  }

  /** What the `main` functions write after the drawing: both scopes closed,
      each one tab further out, then `</html>`. */
  function Epilogue(): seq<string> {
    [Line(1, "</svg>"), Line(0, "</body>"), Line(0, "</html>")]
  }

  /** The indent is spaces only. */
  lemma {:induction false} RepeatSpaces(n: int)
    ensures forall k :: 0 <= k < |Repeat(Tab, n)| ==> Repeat(Tab, n)[k] == ' '
    decreases if n < 0 then 0 else n
  {
    if n > 0 {
      RepeatSpaces(n - 1);
      var r := Repeat(Tab, n - 1);
      assert Repeat(Tab, n) == Tab + r;
      forall k | 0 <= k < |Repeat(Tab, n)|
        ensures Repeat(Tab, n)[k] == ' '
      {
        if k >= |Tab| {
          assert Repeat(Tab, n)[k] == r[k - |Tab|];
        }
      }
    }
  }

  /** The document: its title, its indentation, the lines written so far,
      and whether the file has been closed. */
  class HtmlDocument {
    var winTitle: string
    var tabs: int
    var lines: seq<string>
    var closed: bool

    /** `__init__`: opens an empty file and writes the preamble. */
    constructor (winTitle: string)
      ensures this.winTitle == winTitle && tabs == 0 && !closed
      ensures lines == ["<html>", "<head>", "    <title>" + winTitle + "</title>", "</head>"]
    {
      this.winTitle := winTitle;
      tabs := 0;
      lines := [];
      closed := false;
      new;
      WriteHead();
      assert lines == [Line(0, "<html>"), Line(0, "<head>"), Line(1, "<title>" + winTitle + "</title>"), Line(0, "</head>")];
      Indents("<title>" + winTitle + "</title>");
      Indents("<html>");
      Indents("<head>");
      Indents("</head>");
      assert "    " + ("<title>" + winTitle + "</title>") == "    <title>" + winTitle + "</title>";
    }

    method IncreaseIndent()
      modifies this
      ensures tabs == old(tabs) + 1
      ensures lines == old(lines) && winTitle == old(winTitle) && closed == old(closed)
    {
      tabs := tabs + 1;
    }

    /** `decrease_indent`: no lower bound; a negative count indents nothing. */
    method DecreaseIndent()
      modifies this
      ensures tabs == old(tabs) - 1
      ensures lines == old(lines) && winTitle == old(winTitle) && closed == old(closed)
    {
      tabs := tabs - 1;
    }

    /** `append`: writes one indented line; writing to a closed file raises. */
    method Append(content: string)
      requires !closed
      modifies this
      ensures lines == old(lines) + [Line(tabs, content)]
      ensures tabs == old(tabs) && winTitle == old(winTitle) && !closed
    {
      lines := lines + [Line(tabs, content)];
    }

    /** `__write_head`: the `<html>` and `<head>` lines, the title one tab further in. */
    method WriteHead()
      requires !closed
      modifies this
      ensures lines == old(lines) + [Line(tabs, "<html>"), Line(tabs, "<head>"),
        Line(tabs + 1, "<title>" + winTitle + "</title>"), Line(tabs, "</head>")]
      ensures tabs == old(tabs) && winTitle == old(winTitle) && !closed
    {
      Append("<html>");
      Append("<head>");
      IncreaseIndent();
      Append("<title>" + winTitle + "</title>");
      DecreaseIndent();
      Append("</head>");
    }

    /** `close_document`: `</html>` is the last line, then the file is closed. */
    method CloseDocument()
      requires !closed
      modifies this
      ensures lines == old(lines) + [Line(tabs, "</html>")]
      ensures tabs == old(tabs) && winTitle == old(winTitle) && closed
    {
      Append("</html>");
      closed := true;
    }

    method WriteComment(comment: string)
      requires !closed
      modifies this
      ensures lines == old(lines) + [Line(tabs, "<!--" + comment + "-->")]
      ensures tabs == old(tabs) && winTitle == old(winTitle) && !closed
    {
      Append("<!--" + comment + "-->");
    }

    method OpenBodyScope()
      requires !closed
      modifies this
      ensures lines == old(lines) + [Line(old(tabs), "<body>")]
      ensures tabs == old(tabs) + 1 && winTitle == old(winTitle) && !closed
    {
      Append("<body>");
      IncreaseIndent();
    }

    /** `close_body_scope`: after an `open_body_scope`, the tab count is back where it was. */
    method CloseBodyScope()
      requires !closed
      modifies this
      ensures lines == old(lines) + [Line(old(tabs) - 1, "</body>")]
      ensures tabs == old(tabs) - 1 && winTitle == old(winTitle) && !closed
    {
      DecreaseIndent();
      Append("</body>");
    }

    /** `open_svg_scope`: a comment line, then the `<svg>` line, then one tab further in. */
    method OpenSvgScope(width: int, height: int)
      requires !closed
      modifies this
      ensures lines == old(lines) + [Line(old(tabs), "<!--Define SVG drawing box-->"),
        Line(old(tabs), "<svg width=\"" + IntToString(width) + "\" height=\"" + IntToString(height) + "\">")]
      ensures tabs == old(tabs) + 1 && winTitle == old(winTitle) && !closed
    {
      WriteComment("Define SVG drawing box");
      assert "<!--" + "Define SVG drawing box" + "-->" == "<!--Define SVG drawing box-->";
      Append("<svg width=\"" + IntToString(width) + "\" height=\"" + IntToString(height) + "\">");
      IncreaseIndent();
    }

    method CloseSvgScope()
      requires !closed
      modifies this
      ensures lines == old(lines) + [Line(old(tabs) - 1, "</svg>")]
      ensures tabs == old(tabs) - 1 && winTitle == old(winTitle) && !closed
    {
      DecreaseIndent();
      Append("</svg>");
    }
  }

  /** The opening both `main` functions share: a new document with the body
      and a drawing box of the given size opened. */
  method OpenDrawing(title: string, width: int, height: int) returns (doc: HtmlDocument)
    ensures fresh(doc)
    ensures doc.lines == Prologue(title, width, height)
    ensures doc.tabs == 2 && doc.winTitle == title && !doc.closed
  {
    doc := new HtmlDocument(title);
    doc.OpenBodyScope();
    doc.OpenSvgScope(width, height);
  }

  /** The closing both `main` functions share: the drawing box and the body
      closed, then the document. */
  method CloseDrawing(doc: HtmlDocument)
    requires doc.tabs == 2 && !doc.closed
    modifies doc
    ensures doc.lines == old(doc.lines) + Epilogue()
    ensures doc.tabs == 0 && doc.closed
  {
    doc.CloseSvgScope();
    doc.CloseBodyScope();
    doc.CloseDocument();
  }
}
