/** The HTML writer: a fixed table from tag names to the HTML each one
    writes, plus the page header and footer. Output streams are strings the
    writer appends to. */
module HtmlWriter {
  import opened Common

  /** Tag names. The writer's table has the sixteen named ones; every other
      tag name is `Unlisted`. */
  datatype TagName =
    | TagP | TagCloseP | TagB | TagCloseB | TagI | TagCloseI | TagU | TagCloseU
    | TagTable | TagCloseTable | TagTr | TagCloseTr | TagTd | TagCloseTd
    | TagBr | TagText
    | Unlisted(name: string)

  /** What a writer receives: the tag's name and, for text, its plain text. */
  datatype Info = Info(tagName: TagName, plainText: string)

  /** What the table holds for a tag: fixed markup, or the tag's own text. */
  datatype Element = Fixed(markup: string) | PlainText

  /** The writer table: what each listed tag writes; None for a tag the
      table does not list. */
  function Writer(n: TagName): (r: Option<Element>)
    ensures r.None? <==> n.Unlisted?
    ensures r == Some(PlainText) <==> n == TagText
  {
    match n
    case TagP => Some(Fixed("<p>"))
    case TagCloseP => Some(Fixed("</p>"))
    case TagB => Some(Fixed("<b>"))
    case TagCloseB => Some(Fixed("</b>"))
    case TagI => Some(Fixed("<i>"))
    case TagCloseI => Some(Fixed("</i>"))
    case TagU => Some(Fixed("<u>"))
    case TagCloseU => Some(Fixed("</u>"))
    case TagTable => Some(Fixed("<table>"))
    case TagCloseTable => Some(Fixed("</table>"))
    case TagTr => Some(Fixed("<tr>"))
    case TagCloseTr => Some(Fixed("</tr>"))
    case TagTd => Some(Fixed("<td>"))
    case TagCloseTd => Some(Fixed("</td>"))
    case TagBr => Some(Fixed("<br />"))
    case TagText => Some(PlainText)
    case Unlisted(_) => None
  }

  function ElementText(e: Element, info: Info): string
  {
    match e
    case Fixed(markup) => markup
    case PlainText => info.plainText
  }

  /** Writes the tag's HTML after what the stream holds; a tag the table
      does not list writes nothing. */
  function WriteTo(info: Info, stream: string): string
  {
    match Writer(info.tagName)
    case None => stream
    case Some(e) => stream + ElementText(e, info)
  }

  const HEADER: string :=
    "<!DOCTYPE html>\n" + "<html>\n" + "<head>\n" + "<meta charset=\"utf-8\">\n"
    + "<title>DocToText</title>\n" + "</head>\n" + "<body>\n"

  const FOOTER: string := "</body>\n" + "</html>\n"

  function WriteHeader(stream: string): string
  {
    stream + HEADER
  }

  function WriteFooter(stream: string): string
  {
    stream + FOOTER
  }

  /** The opening tags that have a closing partner, and that partner. */
  function CloseOf(n: TagName): Option<TagName>
  {
    match n
    case TagP => Some(TagCloseP)
    case TagB => Some(TagCloseB)
    case TagI => Some(TagCloseI)
    case TagU => Some(TagCloseU)
    case TagTable => Some(TagCloseTable)
    case TagTr => Some(TagCloseTr)
    case TagTd => Some(TagCloseTd)
    case _ => None
  }

  /** Writing only ever appends: what the stream held stays, every listed
      tag but text writes its markup whatever the tag's text, text is written
      as it is, with nothing escaped, and unlisted tags write nothing. */
  lemma WriteToShape(info: Info, stream: string)
    ensures |WriteTo(info, stream)| >= |stream| && WriteTo(info, stream)[..|stream|] == stream
    ensures info.tagName.Unlisted? <==> WriteTo(info, stream) == stream && info.tagName != TagText
    ensures info.tagName == TagText ==> WriteTo(info, stream) == stream + info.plainText
    ensures info.tagName != TagText ==>
              forall t :: WriteTo(Info(info.tagName, t), stream) == WriteTo(info, stream)
  {
    if !info.tagName.Unlisted? && info.tagName != TagText {
      assert Writer(info.tagName).value.Fixed?;
      assert |Writer(info.tagName).value.markup| > 0;
    }
  }

  /** Each closing tag writes its opening tag's markup with a slash after the
      first character. */
  lemma MarkupPairs(n: TagName)
    requires CloseOf(n).Some?
    ensures Writer(n).Some? && Writer(n).value.Fixed? && |Writer(n).value.markup| >= 1
    ensures Writer(CloseOf(n).value) == Some(Fixed("</" + Writer(n).value.markup[1..]))
  {
    match n
    case TagP => assert "<p>"[1..] == "p>" && "</" + "p>" == "</p>";
    case TagB => assert "<b>"[1..] == "b>" && "</" + "b>" == "</b>";
    case TagI => assert "<i>"[1..] == "i>" && "</" + "i>" == "</i>";
    case TagU => assert "<u>"[1..] == "u>" && "</" + "u>" == "</u>";
    case TagTable => assert "<table>"[1..] == "table>" && "</" + "table>" == "</table>";
    case TagTr => assert "<tr>"[1..] == "tr>" && "</" + "tr>" == "</tr>";
    case TagTd => assert "<td>"[1..] == "td>" && "</" + "td>" == "</td>";
  }

  /** The tag name a piece of fixed markup comes from. */
  function MarkupName(markup: string): Option<TagName>
  {
    if markup == "<p>" then Some(TagP) else if markup == "</p>" then Some(TagCloseP)
    else if markup == "<b>" then Some(TagB) else if markup == "</b>" then Some(TagCloseB)
    else if markup == "<i>" then Some(TagI) else if markup == "</i>" then Some(TagCloseI)
    else if markup == "<u>" then Some(TagU) else if markup == "</u>" then Some(TagCloseU)
    else if markup == "<table>" then Some(TagTable) else if markup == "</table>" then Some(TagCloseTable)
    else if markup == "<tr>" then Some(TagTr) else if markup == "</tr>" then Some(TagCloseTr)
    else if markup == "<td>" then Some(TagTd) else if markup == "</td>" then Some(TagCloseTd)
    else if markup == "<br />" then Some(TagBr)
    else None
  }

  /** The markup tells which tag wrote it, so no two listed tags share
      markup. */
  lemma MarkupRoundTrip(n: TagName)
    requires Writer(n).Some? && Writer(n).value.Fixed?
    ensures MarkupName(Writer(n).value.markup) == Some(n)
  {
  }

  lemma MarkupDistinct(a: TagName, b: TagName)
    requires Writer(a).Some? && Writer(a).value.Fixed? && Writer(b).Some? && Writer(b).value.Fixed? && a != b
    ensures Writer(a).value.markup != Writer(b).value.markup
  {
    MarkupRoundTrip(a);
    MarkupRoundTrip(b);
  }

  /** A page is the header, the body's HTML, then the footer: the header ends
      by opening the body and the footer closes it and the document. */
  lemma PageFrame(stream: string)
    ensures HEADER[..16] == "<!DOCTYPE html>\n"
    ensures |HEADER| >= 7 && HEADER[|HEADER| - 7..] == "<body>\n"
    ensures FOOTER == "</body>\n</html>\n"
    ensures WriteFooter(WriteHeader(stream)) == stream + HEADER + FOOTER
  {
  }
}
