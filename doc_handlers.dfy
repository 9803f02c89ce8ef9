/** The three handler objects the Word parser registers with the document
    decoder, and the state they share. Each callback updates the objects in
    place and sends tags downstream; each is proved to do what the matching
    function of the event machine describes. */
module DocHandlers {
  import opened Common
  import opened DocTables
  import opened DocFields
  import opened DocComments
  import opened DocPlacement
  import E = DocEvents

  /** Where the parser sends its tags: everything sent so far, in order. */
  class TagSink {
    var tags: seq<Tag>

    constructor ()
      ensures tags == []
    {
      tags := [];
    }

    method Send(t: Tag)
      modifies this
      ensures tags == old(tags) + [t]
    {
      tags := tags + [t];
    }
  }

  /** The parser's current state: the table stack, the header and footer
      flags (a nested record in the source, flattened here), the embedded
      objects' texts with the position of the next one, and the field being
      read. */
  class CurrentState {
    var tables: seq<TableState>
    var inHeader: bool
    var inFooter: bool
    var objTexts: seq<string>
    var objCursor: nat
    var fieldType: int
    var fieldPart: FieldPart
    var fieldParams: string
    var fieldValue: string

    constructor (objTexts: seq<string>)
      ensures Value() == E.InitialShared(objTexts)
    {
      tables := [];
      inHeader, inFooter := false, false;
      this.objTexts := objTexts;
      objCursor := 0;
      fieldType := FLT_NONE;
      fieldPart := PartNone;
      fieldParams, fieldValue := "", "";
    }

    function Value(): E.Shared
      reads this
    {
      E.Shared(tables, inHeader, inFooter, objTexts, objCursor, fieldType, fieldPart, fieldParams, fieldValue)
    }
  }

  function OutcomeOf(error: Option<string>): Outcome
  {
    if error.Some? then Fail(error.value) else Pass
  }

  /** The row and cell callbacks. A ParsingError thrown by the source is the
      `Fail` outcome here; the tags sent before it stay sent. */
  class TableHandler {
    const out: TagSink
    const state: CurrentState

    constructor (out: TagSink, state: CurrentState)
      ensures this.out == out && this.state == state
    {
      this.out := out;
      this.state := state;
    }

    method TableRowStart() returns (r: Outcome)
      modifies out, state
      ensures var t := RowStart(old(state.tables));
              && state.Value() == old(state.Value()).(tables := t.stack)
              && out.tags == old(out.tags) + t.emitted && r == OutcomeOf(t.error)
    {
      if |state.tables| == 0 || Top(state.tables) == InCell {
        out.Send(Table);
        state.tables := state.tables + [InTable];
      }
      if Top(state.tables) != InTable {
        return Fail("Unexpected start of table row");
      }
      out.Send(TableRow);
      state.tables := state.tables + [InRow];
      r := Pass;
    }

    method TableRowEnd() returns (r: Outcome)
      modifies out, state
      ensures var t := RowEnd(old(state.tables));
              && state.Value() == old(state.Value()).(tables := t.stack)
              && out.tags == old(out.tags) + t.emitted && r == OutcomeOf(t.error)
    {
      if |state.tables| == 0 {
        return Fail("Unexpected end of table row");
      }
      if Top(state.tables) == InCell {
        out.Send(CloseTableCell);
        state.tables := Pop(state.tables);
      }
      if |state.tables| == 0 || Top(state.tables) != InRow {
        return Fail("Unexpected end of table row");
      }
      out.Send(CloseTableRow);
      state.tables := Pop(state.tables);
      r := Pass;
    }

    method TableCellStart() returns (r: Outcome)
      modifies out, state
      ensures var t := CellStart(old(state.tables));
              && state.Value() == old(state.Value()).(tables := t.stack)
              && out.tags == old(out.tags) + t.emitted && r == OutcomeOf(t.error)
    {
      if |state.tables| == 0 || Top(state.tables) != InRow {
        return Fail("Unexpected start of table cell");
      }
      out.Send(TableCell);
      state.tables := state.tables + [InCell];
      r := Pass;
    }

    method TableCellEnd() returns (r: Outcome)
      modifies out, state
      ensures var t := CellEnd(old(state.tables));
              && state.Value() == old(state.Value()).(tables := t.stack)
              && out.tags == old(out.tags) + t.emitted && r == OutcomeOf(t.error)
    {
      if |state.tables| > 0 && Top(state.tables) == InTable {
        out.Send(CloseTable);
        state.tables := Pop(state.tables);
      }
      if |state.tables| == 0 || Top(state.tables) != InCell {
        return Fail("Unexpected end of table cell");
      }
      out.Send(CloseTableCell);
      state.tables := Pop(state.tables);
      r := Pass;
    }
  }

  /** The header and footer callbacks. */
  class SubDocumentHandler {
    const out: TagSink
    const state: CurrentState

    constructor (out: TagSink, state: CurrentState)
      ensures this.out == out && this.state == state
    {
      this.out := out;
      this.state := state;
    }

    method HeaderStart(kind: E.HeaderKind)
      modifies out, state
      ensures var r := E.OnHeaderStart(old(state.Value()), kind);
              state.Value() == r.0 && out.tags == old(out.tags) + r.1
    {
      if E.IsHeader(kind) {
        state.inHeader := true;
        out.Send(Header);
      } else {
        state.inFooter := true;
        out.Send(Footer);
      }
    }

    method HeaderEnd()
      modifies out, state
      ensures var r := E.OnHeaderEnd(old(state.Value()));
              state.Value() == r.0 && out.tags == old(out.tags) + r.1
    {
      if state.inHeader {
        out.Send(CloseHeader);
      }
      if state.inFooter {
        out.Send(CloseFooter);
      }
      state.inHeader := false;
      state.inFooter := false;
    }
  }

  /** The paragraph, text and field callbacks, with the comments of the
      document, read at the first paragraph that has chunks. */
  class TextHandler {
    const doc: WordDocument
    const out: TagSink
    const state: CurrentState
    var commentsParsed: bool
    var comments: seq<Annotation>
    var prevParFc: u32

    constructor (doc: WordDocument, out: TagSink, state: CurrentState)
      ensures this.doc == doc && this.out == out && this.state == state
      ensures !commentsParsed && comments == [] && prevParFc == 0
    {
      this.doc := doc;
      this.out := out;
      this.state := state;
      commentsParsed := false;
      comments := [];
      prevParFc := 0;
    }

    function Snapshot(): E.HandlerState
      reads this, state
    {
      E.HandlerState(state.Value(), commentsParsed, comments, prevParFc)
    }

    /** The comment loop of paragraph start and document end: every comment
      whose reference lies in [lo, hi), in table order. */
    method SendComments(lo: int, hi: int)
      modifies out
      ensures out.tags == old(out.tags) + CommentsBetween(comments, lo, hi)
    {
      for i := 0 to |comments|
        invariant out.tags == old(out.tags) + CommentsBetween(comments[..i], lo, hi)
      {
        assert comments[..i + 1][..i] == comments[..i];
        if lo <= comments[i].fc < hi {
          out.Send(CommentTag(comments[i]));
        }
      }
      assert comments[..|comments|] == comments;
    }

    /** The table part of a paragraph start. */
    method ParagraphTableStep()
      modifies out, state
      ensures var p := ParagraphTable(old(state.tables));
              && state.Value() == old(state.Value()).(tables := p.stack)
              && out.tags == old(out.tags) + p.emitted
    {
      if |state.tables| > 0 {
        if Top(state.tables) == InTable {
          out.Send(CloseTable);
          state.tables := Pop(state.tables);
        } else if Top(state.tables) == InRow {
          out.Send(TableCell);
          state.tables := state.tables + [InCell];
        }
      }
    }

    /** The comment part of a paragraph start with chunks. */
    method ParagraphCommentsStep(last: u32)
      modifies this, out
      ensures commentsParsed
      ensures old(commentsParsed) ==>
                comments == old(comments) && out.tags == old(out.tags) + CommentsBetween(comments, old(prevParFc), last)
      ensures !old(commentsParsed) ==> comments == E.ParsedComments(doc) && out.tags == old(out.tags)
      ensures prevParFc == old(prevParFc)
    {
      if commentsParsed {
        SendComments(prevParFc, last);
      } else {
        var cs := ParseComments(doc);
        comments := if cs.None? then [] else cs.value;
        commentsParsed := true;
      }
    }

    method ParagraphStart(chunks: seq<u32>)
      modifies this, out, state
      ensures var r := E.OnParagraphStart(E.ParsedComments(doc), old(Snapshot()), chunks);
              Snapshot() == r.state && out.tags == old(out.tags) + r.emitted
    {
      ghost var s0 := Snapshot();
      ghost var p := ParagraphTable(s0.shared.tables);
      ParagraphTableStep();
      out.Send(Paragraph);
      ghost var s1 := s0.(shared := s0.shared.(tables := p.stack));
      ghost var tags1 := out.tags;
      assert Snapshot() == s1 && tags1 == old(out.tags) + (p.emitted + [Paragraph]);
      if |chunks| > 0 {
        ParagraphCommentsStep(chunks[|chunks| - 1]);
        if s0.commentsParsed {
          assert Snapshot() == s1;
          assert out.tags == old(out.tags) + (p.emitted + [Paragraph] + CommentsBetween(s0.comments, s0.prevParFc, E.Last(chunks)));
        } else {
          assert Snapshot() == s1.(commentsParsed := true, comments := E.ParsedComments(doc));
          assert out.tags == tags1;
        }
      }
    }

    method ParagraphEnd(chunks: seq<u32>)
      modifies this, out
      ensures var r := E.OnParagraphEnd(old(Snapshot()), chunks);
              Snapshot() == r.state && out.tags == old(out.tags) + r.emitted
    {
      out.Send(CloseParagraph);
      if |chunks| > 0 {
        prevParFc := chunks[|chunks| - 1];
      }
    }

    method RunOfText(text: string)
      modifies out, state
      ensures var r := E.OnRunOfText(old(state.Value()), text);
              state.Value() == r.0 && out.tags == old(out.tags) + r.1
    {
      if state.fieldPart == PartParams {
        state.fieldParams := state.fieldParams + text;
      } else if state.fieldPart == PartValue {
        state.fieldValue := state.fieldValue + text;
      } else {
        out.Send(Text(VtToLf(text)));
      }
    }

    method FieldStart(flt: byte)
      modifies out, state
      ensures var r := E.OnFieldStart(old(state.Value()), flt);
              state.Value() == r.0 && out.tags == old(out.tags) + r.1
    {
      state.fieldType := flt;
      state.fieldPart := PartParams;
      if flt == FLT_EMBED {
        if state.objCursor < |state.objTexts| {
          out.Send(Text(VtToLf(state.objTexts[state.objCursor])));
          state.objCursor := state.objCursor + 1;
        }
      } else {
        state.fieldParams := "";
        state.fieldValue := "";
      }
    }

    method FieldSeparator()
      modifies state
      ensures state.Value() == old(state.Value()).(fieldPart := PartValue)
    {
      state.fieldPart := PartValue;
    }

    /** The hyperlink tags of a field whose arguments start with a quote, up
        to the field end's final Text tag. */
    method SendHyperlink(args: string, value: string)
      requires |args| >= 1
      modifies out
      ensures out.tags == old(out.tags) + [Link(UrlOf(args)), Text(value), CloseLink]
    {
      var url := ScanUrl(args);
      out.Send(Link(url));
      out.Send(Text(value));
      out.Send(CloseLink);
    }

    method FieldEnd()
      modifies out, state
      ensures var r := E.OnFieldEnd(old(state.Value()));
              state.Value() == r.0 && out.tags == old(out.tags) + r.1
    {
      var args := StripFieldCode(state.fieldParams);
      var resText := "";
      if state.fieldType == FLT_FILLIN {
        resText := args + " " + state.fieldValue;
      } else if state.fieldType == FLT_EMBED {
      } else if state.fieldType == FLT_HYPERLINK {
        if CharAt(args, 0) == '"' {
          SendHyperlink(args, state.fieldValue);
        } else {
          resText := args + " " + state.fieldValue;
        }
      } else {
        resText := state.fieldValue;
      }
      state.fieldType := FLT_NONE;
      state.fieldPart := PartNone;
      out.Send(Text(VtToLf(resText)));
    }

    method EndOfDocument()
      modifies out
      ensures out.tags == old(out.tags) + E.EndOfDocument(Snapshot())
    {
      if commentsParsed {
        SendComments(prevParFc, U32_LIMIT);
      }
    }
  }
}
