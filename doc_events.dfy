/** The callbacks the Word document decoder makes while it walks a document,
    and what the parser's text, table and sub-document handlers do with each
    one, written as functions of the handlers' state. The handler classes
    are proved against these functions. */
module DocEvents {
  import opened Common
  import opened DocPieces
  import opened DocTables
  import opened DocFields
  import opened DocComments
  import opened DocPlacement

  /** The six kinds of header and footer a section can have. */
  datatype HeaderKind = HeaderOdd | HeaderEven | HeaderFirst | FooterOdd | FooterEven | FooterFirst

  predicate IsHeader(k: HeaderKind)
  {
    k == HeaderOdd || k == HeaderEven || k == HeaderFirst
  }

  /** One callback of the decoder. A paragraph's callbacks carry the start
      stream offsets of the chunks of the paragraph being walked; a field
      start carries the field type code. */
  datatype DocEvent =
    | ParagraphStart(chunks: seq<u32>) | ParagraphEnd(chunks: seq<u32>)
    | RunOfText(text: string)
    | FieldStart(flt: byte) | FieldSeparator | FieldEnd
    | RowStart | RowEnd | CellStart | CellEnd
    | HeaderStart(kind: HeaderKind) | HeaderEnd

  /** The state the three handlers share: the table nesting, whether a
      header or a footer is open, the texts of the embedded objects and how
      many of them the embed fields have used, and the field being read. */
  datatype Shared = Shared(
    tables: seq<TableState>, inHeader: bool, inFooter: bool,
    objTexts: seq<string>, objCursor: nat,
    fieldType: int, fieldPart: FieldPart, fieldParams: string, fieldValue: string)

  /** The shared state plus the text handler's own: whether the comments have
      been read, the comments, and the stream offset of the last chunk of the
      previous paragraph. */
  datatype HandlerState = HandlerState(
    shared: Shared, commentsParsed: bool, comments: seq<Annotation>, prevParFc: u32)

  /** State, tags sent (in order), and the message of the error thrown. */
  datatype Reaction = Reaction(state: HandlerState, emitted: seq<Tag>, error: Option<string>)

  function InitialShared(objTexts: seq<string>): Shared
  {
    Shared([], false, false, objTexts, 0, FLT_NONE, PartNone, "", "")
  }

  function InitialState(objTexts: seq<string>): HandlerState
  {
    HandlerState(InitialShared(objTexts), false, [], 0)
  }

  /** The comments the text handler keeps after reading them: none when
      reading failed. */
  function ParsedComments(doc: WordDocument): seq<Annotation>
  {
    match CommentsOf(doc)
    case None => []
    case Some(cs) => cs
  }

  function Last(chunks: seq<u32>): u32
    requires chunks != []
  {
    chunks[|chunks| - 1]
  }

  /** Paragraph start: the table tags of the paragraph, the Paragraph tag,
      then, for a paragraph with chunks, the comments since the previous
      paragraph once the comments are known; the first such paragraph reads
      them (`read`: what reading the document's comments gives) and sends
      none. */
  function OnParagraphStart(read: seq<Annotation>, st: HandlerState, chunks: seq<u32>): Reaction
  {
    var p := ParagraphTable(st.shared.tables);
    var st1 := st.(shared := st.shared.(tables := p.stack));
    var tags := p.emitted + [Paragraph];
    if chunks == [] then Reaction(st1, tags, None)
    else if st.commentsParsed then
      Reaction(st1, tags + CommentsBetween(st.comments, st.prevParFc, Last(chunks)), None)
    else Reaction(st1.(commentsParsed := true, comments := read), tags, None)
  }

  /** Paragraph end: the CloseParagraph tag; the paragraph's last chunk
      becomes the lower bound for the next comments. */
  function OnParagraphEnd(st: HandlerState, chunks: seq<u32>): Reaction
  {
    Reaction(if chunks == [] then st else st.(prevParFc := Last(chunks)), [CloseParagraph], None)
  }

  /** Text goes to the field part being read, or out as a Text tag. */
  function OnRunOfText(st: Shared, text: string): (Shared, seq<Tag>)
  {
    match st.fieldPart
    case PartParams => (st.(fieldParams := st.fieldParams + text), [])
    case PartValue => (st.(fieldValue := st.fieldValue + text), [])
    case PartNone => (st, [Text(VtToLf(text))])
  }

  /** Field start: an embedded-object field sends the next object's text, if
      any is left; any other field starts with empty parameters and value. */
  function OnFieldStart(st: Shared, flt: byte): (Shared, seq<Tag>)
  {
    var st1 := st.(fieldType := flt, fieldPart := PartParams);
    if flt == FLT_EMBED then
      if st.objCursor < |st.objTexts| then
        (st1.(objCursor := st.objCursor + 1), [Text(VtToLf(st.objTexts[st.objCursor]))])
      else (st1, [])
    else (st1.(fieldParams := "", fieldValue := ""), [])
  }

  /** Field end: the tags for the field read, then no field is open. The
      parameter and value texts are kept until the next field starts. */
  function OnFieldEnd(st: Shared): (Shared, seq<Tag>)
  {
    (st.(fieldType := FLT_NONE, fieldPart := PartNone), FieldEndTags(st.fieldType, st.fieldParams, st.fieldValue))
  }

  function OnHeaderStart(st: Shared, kind: HeaderKind): (Shared, seq<Tag>)
  {
    if IsHeader(kind) then (st.(inHeader := true), [Header]) else (st.(inFooter := true), [Footer])
  }

  /** Header end: closes whatever is open, then nothing is. */
  function OnHeaderEnd(st: Shared): (Shared, seq<Tag>)
  {
    (st.(inHeader := false, inFooter := false),
     (if st.inHeader then [CloseHeader] else []) + (if st.inFooter then [CloseFooter] else []))
  }

  function OnTable(st: HandlerState, ev: TableEvent): Reaction
  {
    var t := Dispatch(st.shared.tables, ev);
    Reaction(st.(shared := st.shared.(tables := t.stack)), t.emitted, t.error)
  }

  function Lift(st: HandlerState, r: (Shared, seq<Tag>)): Reaction
  {
    Reaction(st.(shared := r.0), r.1, None)
  }

  /** What the handlers do for one callback. */
  function OnEvent(read: seq<Annotation>, st: HandlerState, ev: DocEvent): Reaction
  {
    match ev
    case ParagraphStart(chunks) => OnParagraphStart(read, st, chunks)
    case ParagraphEnd(chunks) => OnParagraphEnd(st, chunks)
    case RunOfText(text) => Lift(st, OnRunOfText(st.shared, text))
    case FieldStart(flt) => Lift(st, OnFieldStart(st.shared, flt))
    case FieldSeparator => Lift(st, (st.shared.(fieldPart := PartValue), []))
    case FieldEnd => Lift(st, OnFieldEnd(st.shared))
    case RowStart => OnTable(st, RowStartEv)
    case RowEnd => OnTable(st, RowEndEv)
    case CellStart => OnTable(st, CellStartEv)
    case CellEnd => OnTable(st, CellEndEv)
    case HeaderStart(kind) => Lift(st, OnHeaderStart(st.shared, kind))
    case HeaderEnd => Lift(st, OnHeaderEnd(st.shared))
  }

  /** The callbacks `evs` after the reaction `r`; an error thrown by a
      handler ends the walk. `read` is what reading the document's comments
      gives, whenever the text handler reads them. */
  function Continue(read: seq<Annotation>, r: Reaction, evs: seq<DocEvent>): Reaction
    decreases |evs|, 1
  {
    if r.error.Some? then r
    else
      var rest := Run(read, r.state, evs);
      Reaction(rest.state, r.emitted + rest.emitted, rest.error)
  }

  function Run(read: seq<Annotation>, st: HandlerState, evs: seq<DocEvent>): Reaction
    decreases |evs|, 0
  {
    if evs == [] then Reaction(st, [], None)
    else Continue(read, OnEvent(read, st, evs[0]), evs[1..])
  }

  /** End of the document: the comments after the last paragraph, once they
      are known. */
  function EndOfDocument(st: HandlerState): seq<Tag>
  {
    if st.commentsParsed then CommentsFrom(st.comments, st.prevParFc) else []
  }
}
