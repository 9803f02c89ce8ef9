/** Properties of the Word parser's handlers over whole runs of callbacks:
    the table nesting stays the one the output describes, a field's text is
    reassembled across the runs it is split into, a header or footer leaves
    the state as it found it, and comments are sent once each, after the
    first paragraph. */
module DocEventProps {
  import opened Common
  import opened DocTables
  import opened DocFields
  import opened DocComments
  import opened DocPlacement
  import opened DocEvents

  lemma {:induction false} RunAppend(read: seq<Annotation>, st: HandlerState, a: seq<DocEvent>, b: seq<DocEvent>)
    ensures Run(read, st, a + b) == Continue(read, Run(read, st, a), b)
    decreases |a|
  {
    if a == [] {
      assert a + b == b;
      assert [] + Run(read, st, b).emitted == Run(read, st, b).emitted;
    } else {
      assert (a + b)[0] == a[0];
      assert (a + b)[1..] == a[1..] + b;
      var r := OnEvent(read, st, a[0]);
      if r.error.None? {
        RunAppend(read, r.state, a[1..], b);
        var ra := Run(read, r.state, a[1..]);
        if ra.error.None? {
          var rb := Run(read, ra.state, b);
          assert r.emitted + (ra.emitted + rb.emitted) == (r.emitted + ra.emitted) + rb.emitted;
        }
      }
    }
  }

  /** Running one callback is that callback's reaction. */
  lemma {:induction false} RunOne(read: seq<Annotation>, st: HandlerState, ev: DocEvent)
    ensures Run(read, st, [ev]) == OnEvent(read, st, ev)
  {
    assert [ev][1..] == [];
    var r := OnEvent(read, st, ev);
    if r.error.None? {
      assert Run(read, r.state, []) == Reaction(r.state, [], None);
      assert r.emitted + [] == r.emitted;
    }
  }

  /** A callback that succeeds with `mid` and `e`, followed by more
      callbacks. */
  lemma {:induction false} StepThen(read: seq<Annotation>, st: HandlerState, ev: DocEvent, rest: seq<DocEvent>, mid: HandlerState, e: seq<Tag>)
    requires OnEvent(read, st, ev) == Reaction(mid, e, None)
    ensures var q := Run(read, mid, rest);
            Run(read, st, [ev] + rest) == Reaction(q.state, e + q.emitted, q.error)
  {
    assert ([ev] + rest)[0] == ev;
    assert ([ev] + rest)[1..] == rest;
  }

  /** A run that succeeds with `mid` and `e`, followed by more callbacks. */
  lemma {:induction false} RunThen(read: seq<Annotation>, st: HandlerState, a: seq<DocEvent>, b: seq<DocEvent>, mid: HandlerState, e: seq<Tag>)
    requires Run(read, st, a) == Reaction(mid, e, None)
    ensures var q := Run(read, mid, b);
            Run(read, st, a + b) == Reaction(q.state, e + q.emitted, q.error)
  {
    RunAppend(read, st, a, b);
  }

  /** Continuing after tags already sent takes the next callback's reaction
      and continues from it: the step a driver loop makes. */
  lemma {:induction false} ContinueStep(read: seq<Annotation>, st: HandlerState, tags: seq<Tag>, evs: seq<DocEvent>)
    requires evs != []
    ensures var x := OnEvent(read, st, evs[0]);
            Continue(read, Reaction(st, tags, None), evs)
            == Continue(read, Reaction(x.state, tags + x.emitted, x.error), evs[1..])
  {
    var x := OnEvent(read, st, evs[0]);
    if x.error.None? {
      var rest := Run(read, x.state, evs[1..]);
      assert Run(read, st, evs) == Reaction(rest.state, x.emitted + rest.emitted, rest.error);
      assert tags + (x.emitted + rest.emitted) == (tags + x.emitted) + rest.emitted;
    } else {
      assert Run(read, st, evs) == x;
    }
  }

  /** Nothing left to continue with changes nothing. */
  lemma {:induction false} ContinueDone(read: seq<Annotation>, r: Reaction)
    requires r.error.None?
    ensures Continue(read, r, []) == r
  {
    assert r.emitted + [] == r.emitted;
  }

  // ---------------------------------------------------------------------
  // Table nesting.

  predicate TableTag(t: Tag)
  {
    t.Table? || t.CloseTable? || t.TableRow? || t.CloseTableRow? || t.TableCell? || t.CloseTableCell?
  }

  /** Tags other than table tags leave the nesting as it is. */
  lemma {:induction false} ReplayNeutral(s: seq<TableState>, tags: seq<Tag>)
    requires forall i :: 0 <= i < |tags| ==> !TableTag(tags[i])
    ensures Replay(s, tags) == Some(s)
    decreases |tags|
  {
    if tags != [] {
      assert !TableTag(tags[0]);
      ReplayNeutral(s, tags[1..]);
    }
  }

  lemma {:induction false} BetweenAllComments(cs: seq<Annotation>, lo: int, hi: int)
    ensures forall i :: 0 <= i < |CommentsBetween(cs, lo, hi)| ==> CommentsBetween(cs, lo, hi)[i].Comment?
    decreases |cs|
  {
    if cs != [] {
      BetweenAllComments(cs[..|cs| - 1], lo, hi);
    }
  }

  lemma {:induction false} ParagraphStartReflectsNesting(read: seq<Annotation>, st: HandlerState, chunks: seq<u32>)
    ensures var r := OnParagraphStart(read, st, chunks);
            Replay(st.shared.tables, r.emitted) == Some(r.state.shared.tables)
  {
    var s := st.shared.tables;
    var p := ParagraphTable(s);
    var r := OnParagraphStart(read, st, chunks);
    DispatchReflectsNesting(s, ParagraphEv);
    var extra := if chunks != [] && st.commentsParsed then CommentsBetween(st.comments, st.prevParFc, Last(chunks)) else [];
    assert r.emitted == (p.emitted + [Paragraph]) + extra;
    if chunks != [] && st.commentsParsed {
      BetweenAllComments(st.comments, st.prevParFc, Last(chunks));
    }
    ReplayNeutral(p.stack, extra);
    ReplayAppend(s, p.emitted + [Paragraph], extra);
  }

  lemma {:induction false} FieldEndReflectsNesting(s: seq<TableState>, st: Shared)
    ensures Replay(s, OnFieldEnd(st).1) == Some(s)
  {
    ReplayNeutral(s, OnFieldEnd(st).1);
  }

  lemma {:induction false} HeaderEndReflectsNesting(s: seq<TableState>, st: Shared)
    ensures Replay(s, OnHeaderEnd(st).1) == Some(s)
  {
    ReplayNeutral(s, OnHeaderEnd(st).1);
  }

  /** Every callback, whether it succeeds or throws, leaves exactly the
      table nesting that the tags it sent describe. */
  lemma {:induction false} OnEventReflectsNesting(read: seq<Annotation>, st: HandlerState, ev: DocEvent)
    ensures var r := OnEvent(read, st, ev);
            Replay(st.shared.tables, r.emitted) == Some(r.state.shared.tables)
  {
    var s := st.shared.tables;
    match ev
    case ParagraphStart(chunks) => ParagraphStartReflectsNesting(read, st, chunks);
    case ParagraphEnd(_) =>
    case RunOfText(_) =>
    case FieldStart(_) =>
    case FieldSeparator =>
    case FieldEnd => FieldEndReflectsNesting(s, st.shared);
    case RowStart => DispatchReflectsNesting(s, RowStartEv);
    case RowEnd => DispatchReflectsNesting(s, RowEndEv);
    case CellStart => DispatchReflectsNesting(s, CellStartEv);
    case CellEnd => DispatchReflectsNesting(s, CellEndEv);
    case HeaderStart(_) =>
    case HeaderEnd => HeaderEndReflectsNesting(s, st.shared);
  }

  /** Over a whole walk, the handlers' table stack is the nesting of the
      tags sent so far. */
  lemma {:induction false} RunReflectsNesting(read: seq<Annotation>, st: HandlerState, evs: seq<DocEvent>)
    ensures Replay(st.shared.tables, Run(read, st, evs).emitted) == Some(Run(read, st, evs).state.shared.tables)
    decreases |evs|
  {
    if evs != [] {
      var r := OnEvent(read, st, evs[0]);
      OnEventReflectsNesting(read, st, evs[0]);
      if r.error.None? {
        RunReflectsNesting(read, r.state, evs[1..]);
        ReplayAppend(st.shared.tables, r.emitted, Run(read, r.state, evs[1..]).emitted);
      }
    }
  }

  lemma {:induction false} OnEventPreservesWellNested(read: seq<Annotation>, st: HandlerState, ev: DocEvent)
    requires WellNested(st.shared.tables)
    ensures WellNested(OnEvent(read, st, ev).state.shared.tables)
  {
    var s := st.shared.tables;
    match ev
    case ParagraphStart(_) => DispatchPreservesNesting(s, ParagraphEv);
    case RowStart => DispatchPreservesNesting(s, RowStartEv);
    case RowEnd => DispatchPreservesNesting(s, RowEndEv);
    case CellStart => DispatchPreservesNesting(s, CellStartEv);
    case CellEnd => DispatchPreservesNesting(s, CellEndEv);
    case _ =>
  }

  /** The stack stays well nested (table, row, cell, table, ...) through
      any walk. */
  lemma {:induction false} RunPreservesWellNested(read: seq<Annotation>, st: HandlerState, evs: seq<DocEvent>)
    requires WellNested(st.shared.tables)
    ensures WellNested(Run(read, st, evs).state.shared.tables)
    decreases |evs|
  {
    if evs != [] {
      OnEventPreservesWellNested(read, st, evs[0]);
      var r := OnEvent(read, st, evs[0]);
      if r.error.None? {
        RunPreservesWellNested(read, r.state, evs[1..]);
      }
    }
  }

  // ---------------------------------------------------------------------
  // Fields.

  function TextEvents(ps: seq<string>): seq<DocEvent>
  {
    if ps == [] then [] else [RunOfText(ps[0])] + TextEvents(ps[1..])
  }

  function Concat(ps: seq<string>): string
  {
    if ps == [] then "" else ps[0] + Concat(ps[1..])
  }

  /** The state after the runs `ps` inside a field's parameters or
      value. */
  function Accumulated(st: HandlerState, ps: seq<string>): HandlerState
  {
    if st.shared.fieldPart == PartParams
    then st.(shared := st.shared.(fieldParams := st.shared.fieldParams + Concat(ps)))
    else st.(shared := st.shared.(fieldValue := st.shared.fieldValue + Concat(ps)))
  }

  /** Inside a field's parameters or value, runs of text only accumulate. */
  lemma {:induction false} TextsAccumulate(read: seq<Annotation>, st: HandlerState, ps: seq<string>)
    requires st.shared.fieldPart != PartNone
    ensures Run(read, st, TextEvents(ps)) == Reaction(Accumulated(st, ps), [], None)
    decreases |ps|
  {
    if ps == [] {
      assert st.shared.fieldParams + "" == st.shared.fieldParams;
      assert st.shared.fieldValue + "" == st.shared.fieldValue;
    } else {
      var mid := OnEvent(read, st, RunOfText(ps[0])).state;
      assert OnEvent(read, st, RunOfText(ps[0])) == Reaction(mid, [], None);
      StepThen(read, st, RunOfText(ps[0]), TextEvents(ps[1..]), mid, []);
      TextsAccumulate(read, mid, ps[1..]);
      assert st.shared.fieldParams + ps[0] + Concat(ps[1..]) == st.shared.fieldParams + Concat(ps);
      assert st.shared.fieldValue + ps[0] + Concat(ps[1..]) == st.shared.fieldValue + Concat(ps);
    }
  }

  /** The callbacks of one field whose parameter text arrives as the runs
      `ps` and whose value text arrives as the runs `vs`. */
  function FieldEvents(flt: byte, ps: seq<string>, vs: seq<string>): seq<DocEvent>
  {
    [FieldStart(flt)] + (TextEvents(ps) + ([FieldSeparator] + (TextEvents(vs) + [FieldEnd])))
  }

  /** From the separator on: the value runs, then the field end. */
  lemma {:induction false} FieldTail(read: seq<Annotation>, s1: HandlerState, vs: seq<string>)
    requires s1.shared.fieldPart == PartParams && s1.shared.fieldValue == ""
    ensures var s3 := s1.(shared := s1.shared.(fieldPart := PartValue, fieldValue := Concat(vs)));
            (Run(read, s1, [FieldSeparator] + (TextEvents(vs) + [FieldEnd]))
             == Reaction(s3.(shared := s3.shared.(fieldType := FLT_NONE, fieldPart := PartNone)),
                         FieldEndTags(s1.shared.fieldType, s1.shared.fieldParams, Concat(vs)), None))
  {
    var s2 := s1.(shared := s1.shared.(fieldPart := PartValue));
    var s3 := s2.(shared := s2.shared.(fieldValue := Concat(vs)));
    assert OnEvent(read, s1, FieldSeparator) == Reaction(s2, [], None);
    TextsAccumulate(read, s2, vs);
    assert "" + Concat(vs) == Concat(vs);
    assert Accumulated(s2, vs) == s3;
    RunOne(read, s3, FieldEnd);
    RunThen(read, s2, TextEvents(vs), [FieldEnd], s3, []);
    StepThen(read, s1, FieldSeparator, TextEvents(vs) + [FieldEnd], s2, []);
  }

  /** A field other than an embedded object sends exactly the tags of its
      whole parameter and value texts, however the decoder splits them into
      runs, and afterwards no field is open. */
  lemma {:induction false} FieldReassembled(read: seq<Annotation>, st: HandlerState, flt: byte, ps: seq<string>, vs: seq<string>)
    requires flt != FLT_EMBED
    ensures var r := Run(read, st, FieldEvents(flt, ps, vs));
            && r.error.None?
            && r.emitted == FieldEndTags(flt, Concat(ps), Concat(vs))
            && r.state == st.(shared := st.shared.(fieldType := FLT_NONE, fieldPart := PartNone,
                                                   fieldParams := Concat(ps), fieldValue := Concat(vs)))
  {
    var s0 := st.(shared := st.shared.(fieldType := flt, fieldPart := PartParams, fieldParams := "", fieldValue := ""));
    assert OnEvent(read, st, FieldStart(flt)) == Reaction(s0, [], None);
    var s1 := s0.(shared := s0.shared.(fieldParams := Concat(ps)));
    TextsAccumulate(read, s0, ps);
    assert "" + Concat(ps) == Concat(ps);
    assert Accumulated(s0, ps) == s1;
    FieldTail(read, s1, vs);
    var tail := [FieldSeparator] + (TextEvents(vs) + [FieldEnd]);
    RunThen(read, s0, TextEvents(ps), tail, s1, []);
    StepThen(read, st, FieldStart(flt), TextEvents(ps) + tail, s0, []);
  }

  /** Each embedded-object field sends the next object's text, then the
      empty text of its field end. */
  lemma {:induction false} EmbeddedObject(read: seq<Annotation>, st: HandlerState)
    requires st.shared.objCursor < |st.shared.objTexts|
    ensures var r := Run(read, st, [FieldStart(FLT_EMBED), FieldEnd]);
            && r.error.None?
            && r.emitted == [Text(VtToLf(st.shared.objTexts[st.shared.objCursor])), Text("")]
            && r.state.shared.objCursor == st.shared.objCursor + 1
            && r.state.shared.fieldPart == PartNone
  {
    var r0 := OnEvent(read, st, FieldStart(FLT_EMBED));
    assert r0.error.None?;
    StepThen(read, st, FieldStart(FLT_EMBED), [FieldEnd], r0.state, r0.emitted);
    RunOne(read, r0.state, FieldEnd);
  }

  /** When the object texts are used up, an embed field sends only the empty
      text. */
  lemma {:induction false} EmbeddedObjectMissing(read: seq<Annotation>, st: HandlerState)
    requires st.shared.objCursor >= |st.shared.objTexts|
    ensures Run(read, st, [FieldStart(FLT_EMBED), FieldEnd]).emitted == [Text("")]
  {
    var r0 := OnEvent(read, st, FieldStart(FLT_EMBED));
    assert r0.error.None? && r0.emitted == [];
    StepThen(read, st, FieldStart(FLT_EMBED), [FieldEnd], r0.state, r0.emitted);
    RunOne(read, r0.state, FieldEnd);
  }

  // ---------------------------------------------------------------------
  // Headers and footers.

  /** A header or footer between its start and end sends its open and close
      tags and leaves the handlers' state as it found it. */
  lemma {:induction false} HeaderBlock(read: seq<Annotation>, st: HandlerState, kind: HeaderKind)
    requires !st.shared.inHeader && !st.shared.inFooter
    ensures var r := Run(read, st, [HeaderStart(kind), HeaderEnd]);
            && r.error.None? && r.state == st
            && r.emitted == if IsHeader(kind) then [Header, CloseHeader] else [Footer, CloseFooter]
  {
    var r0 := OnEvent(read, st, HeaderStart(kind));
    StepThen(read, st, HeaderStart(kind), [HeaderEnd], r0.state, r0.emitted);
    RunOne(read, r0.state, HeaderEnd);
    assert st.shared.(inHeader := false, inFooter := false) == st.shared;
  }

  // ---------------------------------------------------------------------
  // Comments.

  predicate AllNonEmpty(paras: seq<seq<u32>>)
  {
    forall i :: 0 <= i < |paras| ==> paras[i] != []
  }

  /** A run of paragraphs, each with its chunks. */
  function ParagraphEvents(paras: seq<seq<u32>>): seq<DocEvent>
  {
    if paras == [] then [] else [ParagraphStart(paras[0]), ParagraphEnd(paras[0])] + ParagraphEvents(paras[1..])
  }

  /** The last chunk offset of each paragraph: the boundaries that decide
      which paragraph start sends which comment. */
  function Lasts(paras: seq<seq<u32>>): (r: seq<u32>)
    requires AllNonEmpty(paras)
    ensures |r| == |paras|
  {
    if paras == [] then [] else [Last(paras[0])] + Lasts(paras[1..])
  }

  /** What paragraphs send once the comments are known: each its Paragraph
      tag, the comments since the previous boundary, and its CloseParagraph
      tag. */
  function ParagraphTags(cs: seq<Annotation>, prev: u32, paras: seq<seq<u32>>): seq<Tag>
    requires AllNonEmpty(paras)
    decreases |paras|
  {
    if paras == [] then []
    else [Paragraph] + CommentsBetween(cs, prev, Last(paras[0])) + [CloseParagraph]
         + ParagraphTags(cs, Last(paras[0]), paras[1..])
  }

  function FinalPrev(prev: u32, paras: seq<seq<u32>>): u32
    requires AllNonEmpty(paras)
  {
    if paras == [] then prev else Last(paras[|paras| - 1])
  }

  /** A paragraph start outside tables once the comments are known. */
  lemma {:induction false} ParagraphStartParsed(read: seq<Annotation>, st: HandlerState, c: seq<u32>)
    requires st.commentsParsed && st.shared.tables == [] && c != []
    ensures OnEvent(read, st, ParagraphStart(c))
         == Reaction(st, [Paragraph] + CommentsBetween(st.comments, st.prevParFc, Last(c)), None)
  {
    assert ParagraphTable([]) == TableStep([], [], None);
    assert st.(shared := st.shared.(tables := [])) == st;
  }

  /** The first paragraph start with chunks reads the comments. */
  lemma {:induction false} ParagraphStartFirst(read: seq<Annotation>, st: HandlerState, c: seq<u32>)
    requires !st.commentsParsed && st.shared.tables == [] && c != []
    ensures OnEvent(read, st, ParagraphStart(c))
         == Reaction(st.(commentsParsed := true, comments := read), [Paragraph], None)
  {
    assert ParagraphTable([]) == TableStep([], [], None);
    assert st.(shared := st.shared.(tables := [])) == st;
  }

  /** A paragraph with chunks, once the comments are known, followed by more
      callbacks. */
  lemma {:induction false} OneParagraph(read: seq<Annotation>, st: HandlerState, c: seq<u32>, rest: seq<DocEvent>)
    requires st.commentsParsed && st.shared.tables == [] && c != []
    ensures var q := Run(read, st.(prevParFc := Last(c)), rest);
            var mid := CommentsBetween(st.comments, st.prevParFc, Last(c));
            (Run(read, st, [ParagraphStart(c), ParagraphEnd(c)] + rest)
             == Reaction(q.state, [Paragraph] + mid + [CloseParagraph] + q.emitted, q.error))
  {
    var s2 := st.(prevParFc := Last(c));
    var mid := CommentsBetween(st.comments, st.prevParFc, Last(c));
    var q := Run(read, s2, rest);
    ParagraphStartParsed(read, st, c);
    assert OnEvent(read, st, ParagraphEnd(c)) == Reaction(s2, [CloseParagraph], None);
    StepThen(read, st, ParagraphEnd(c), rest, s2, [CloseParagraph]);
    StepThen(read, st, ParagraphStart(c), [ParagraphEnd(c)] + rest, st, [Paragraph] + mid);
    assert [ParagraphStart(c), ParagraphEnd(c)] + rest == [ParagraphStart(c)] + ([ParagraphEnd(c)] + rest);
    assert [Paragraph] + mid + ([CloseParagraph] + q.emitted) == [Paragraph] + mid + [CloseParagraph] + q.emitted;
  }

  /** Outside tables, with the comments known, paragraphs send their tags
      and carry the comment boundary along. */
  lemma {:induction false} RunParagraphs(read: seq<Annotation>, st: HandlerState, paras: seq<seq<u32>>)
    requires st.commentsParsed && st.shared.tables == [] && AllNonEmpty(paras)
    ensures Run(read, st, ParagraphEvents(paras))
         == Reaction(st.(prevParFc := FinalPrev(st.prevParFc, paras)),
                     ParagraphTags(st.comments, st.prevParFc, paras), None)
    decreases |paras|
  {
    if paras == [] {
      assert st.(prevParFc := st.prevParFc) == st;
    } else {
      var c := paras[0];
      var tail := paras[1..];
      assert AllNonEmpty(tail);
      var s2 := st.(prevParFc := Last(c));
      OneParagraph(read, st, c, ParagraphEvents(tail));
      RunParagraphs(read, s2, tail);
      if tail != [] {
        assert tail[|tail| - 1] == paras[|paras| - 1];
      }
    }
  }

  /** The comment tags among `tags`, in order. */
  function CommentTags(tags: seq<Tag>): seq<Tag>
  {
    if tags == [] then [] else (if tags[0].Comment? then [tags[0]] else []) + CommentTags(tags[1..])
  }

  lemma {:induction false} CommentTagsAppend(a: seq<Tag>, b: seq<Tag>)
    ensures CommentTags(a + b) == CommentTags(a) + CommentTags(b)
    decreases |a|
  {
    if a == [] {
      assert a + b == b;
    } else {
      assert (a + b)[0] == a[0] && (a + b)[1..] == a[1..] + b;
      CommentTagsAppend(a[1..], b);
    }
  }

  lemma {:induction false} CommentTagsOfComments(tags: seq<Tag>)
    requires forall i :: 0 <= i < |tags| ==> tags[i].Comment?
    ensures CommentTags(tags) == tags
    decreases |tags|
  {
    if tags != [] {
      CommentTagsOfComments(tags[1..]);
      assert tags == [tags[0]] + tags[1..];
    }
  }

  lemma {:induction false} CommentTagsOfParagraph(mid: seq<Tag>, rest: seq<Tag>)
    requires forall i :: 0 <= i < |mid| ==> mid[i].Comment?
    ensures CommentTags([Paragraph] + mid + [CloseParagraph] + rest) == mid + CommentTags(rest)
  {
    CommentTagsOfComments(mid);
    assert [Paragraph] + mid + [CloseParagraph] + rest == [Paragraph] + (mid + ([CloseParagraph] + rest));
    CommentTagsAppend([Paragraph], mid + ([CloseParagraph] + rest));
    CommentTagsAppend(mid, [CloseParagraph] + rest);
    CommentTagsAppend([CloseParagraph], rest);
    assert CommentTags([Paragraph]) == [] && CommentTags([CloseParagraph]) == [] by {
      assert [Paragraph][1..] == [] && [CloseParagraph][1..] == [];
    }
  }

  lemma {:induction false} PlacementCons(cs: seq<Annotation>, prev: u32, l: u32, rest: seq<u32>)
    ensures Placement(cs, [prev] + ([l] + rest)) == CommentsBetween(cs, prev, l) + Placement(cs, [l] + rest)
  {
    var b := [prev] + ([l] + rest);
    assert b[0] == prev && b[1] == l && b[1..] == [l] + rest;
  }

  /** The comments paragraphs send, followed by those of the end of the
      document, are the placement over the boundaries. */
  lemma {:induction false} ParagraphComments(cs: seq<Annotation>, prev: u32, paras: seq<seq<u32>>)
    requires AllNonEmpty(paras)
    ensures CommentTags(ParagraphTags(cs, prev, paras)) + CommentsFrom(cs, FinalPrev(prev, paras))
         == Placement(cs, [prev] + Lasts(paras))
    decreases |paras|
  {
    if paras == [] {
      assert [prev] + Lasts(paras) == [prev];
    } else {
      var l := Last(paras[0]);
      var tail := paras[1..];
      ParagraphsCons(cs, prev, paras);
      var mid := CommentsBetween(cs, prev, l);
      var pt := ParagraphTags(cs, l, tail);
      BetweenAllComments(cs, prev, l);
      CommentTagsOfParagraph(mid, pt);
      ParagraphComments(cs, l, tail);
      PlacementCons(cs, prev, l, Lasts(tail));
      assert mid + CommentTags(pt) + CommentsFrom(cs, FinalPrev(l, tail))
          == mid + (CommentTags(pt) + CommentsFrom(cs, FinalPrev(l, tail)));
    }
  }

  /** The first paragraph and the rest, for the paragraph functions. */
  lemma ParagraphsCons(cs: seq<Annotation>, prev: u32, paras: seq<seq<u32>>)
    requires paras != [] && AllNonEmpty(paras)
    ensures AllNonEmpty(paras[1..])
    ensures ParagraphTags(cs, prev, paras)
         == [Paragraph] + CommentsBetween(cs, prev, Last(paras[0])) + [CloseParagraph]
            + ParagraphTags(cs, Last(paras[0]), paras[1..])
    ensures FinalPrev(prev, paras) == FinalPrev(Last(paras[0]), paras[1..])
    ensures Lasts(paras) == [Last(paras[0])] + Lasts(paras[1..])
  {
    var tail := paras[1..];
    assert AllNonEmpty(tail);
    if tail != [] {
      assert tail[|tail| - 1] == paras[|paras| - 1];
    }
  }

  /** The first paragraph of a document reads the comments; the rest run
      with them known. */
  lemma {:induction false} FirstParagraph(read: seq<Annotation>, objTexts: seq<string>, paras: seq<seq<u32>>)
    requires paras != [] && AllNonEmpty(paras)
    ensures var s2 := InitialState(objTexts).(commentsParsed := true, comments := read,
                                              prevParFc := Last(paras[0]));
            var q := Run(read, s2, ParagraphEvents(paras[1..]));
            (Run(read, InitialState(objTexts), ParagraphEvents(paras))
             == Reaction(q.state, [Paragraph, CloseParagraph] + q.emitted, q.error))
  {
    var st := InitialState(objTexts);
    var c := paras[0];
    var s1 := st.(commentsParsed := true, comments := read);
    var s2 := s1.(prevParFc := Last(c));
    var rest := ParagraphEvents(paras[1..]);
    var q := Run(read, s2, rest);
    ParagraphStartFirst(read, st, c);
    assert OnEvent(read, s1, ParagraphEnd(c)) == Reaction(s2, [CloseParagraph], None);
    StepThen(read, s1, ParagraphEnd(c), rest, s2, [CloseParagraph]);
    var q1 := Run(read, s1, [ParagraphEnd(c)] + rest);
    assert q1 == Reaction(q.state, [CloseParagraph] + q.emitted, q.error);
    StepThen(read, st, ParagraphStart(c), [ParagraphEnd(c)] + rest, s1, [Paragraph]);
    assert [Paragraph] + ([CloseParagraph] + q.emitted) == [Paragraph, CloseParagraph] + q.emitted;
    ParagraphEventsCons(paras);
  }

  lemma ParagraphEventsCons(paras: seq<seq<u32>>)
    requires paras != []
    ensures ParagraphEvents(paras) == [ParagraphStart(paras[0])] + ([ParagraphEnd(paras[0])] + ParagraphEvents(paras[1..]))
  {
  }

  /** The whole walk over paragraphs outside tables, from the start. */
  lemma {:induction false} DocumentRun(read: seq<Annotation>, objTexts: seq<string>, paras: seq<seq<u32>>)
    requires paras != [] && AllNonEmpty(paras)
    ensures AllNonEmpty(paras[1..])
    ensures var s2 := InitialState(objTexts).(commentsParsed := true, comments := read,
                                              prevParFc := Last(paras[0]));
            (Run(read, InitialState(objTexts), ParagraphEvents(paras))
             == Reaction(s2.(prevParFc := FinalPrev(Last(paras[0]), paras[1..])),
                         [Paragraph, CloseParagraph] + ParagraphTags(read, Last(paras[0]), paras[1..]), None))
  {
    var tail := paras[1..];
    assert AllNonEmpty(tail);
    var s2 := InitialState(objTexts).(commentsParsed := true, comments := read, prevParFc := Last(paras[0]));
    FirstParagraph(read, objTexts, paras);
    RunParagraphs(read, s2, tail);
  }

  /** A document made of paragraphs outside tables, walked from the start:
      the first paragraph reads the comments and sends none, and from then
      on the comment tags sent, up to and including the end of the
      document, are the placement over the paragraphs' last chunks. */
  lemma {:induction false} DocumentComments(read: seq<Annotation>, objTexts: seq<string>, paras: seq<seq<u32>>)
    requires paras != [] && AllNonEmpty(paras)
    ensures var r := Run(read, InitialState(objTexts), ParagraphEvents(paras));
            && r.error.None?
            && CommentTags(r.emitted) + EndOfDocument(r.state) == Placement(read, Lasts(paras))
  {
    var l := Last(paras[0]);
    var tail := paras[1..];
    var r := Run(read, InitialState(objTexts), ParagraphEvents(paras));
    DocumentRun(read, objTexts, paras);
    var pt := ParagraphTags(read, l, tail);
    var fin := InitialState(objTexts).(commentsParsed := true, comments := read, prevParFc := FinalPrev(l, tail));
    assert r == Reaction(fin, [Paragraph, CloseParagraph] + pt, None);
    assert EndOfDocument(r.state) == CommentsFrom(read, FinalPrev(l, tail));
    CommentTagsOfParagraph([], pt);
    assert [Paragraph] + [] + [CloseParagraph] + pt == [Paragraph, CloseParagraph] + pt;
    assert CommentTags(r.emitted) == CommentTags(pt);
    ParagraphComments(read, l, tail);
    ParagraphsCons(read, 0, paras);
  }

  /** With ascending paragraph boundaries every comment at or after the
      first paragraph's last chunk is sent exactly once. */
  lemma {:induction false} DocumentCommentsOnce(read: seq<Annotation>, objTexts: seq<string>, paras: seq<seq<u32>>)
    requires paras != [] && AllNonEmpty(paras) && Ascending(Lasts(paras))
    ensures var r := Run(read, InitialState(objTexts), ParagraphEvents(paras));
            (multiset(CommentTags(r.emitted) + EndOfDocument(r.state))
             == multiset(CommentsFrom(read, Last(paras[0]))))
  {
    DocumentComments(read, objTexts, paras);
    PlacementOnce(read, Lasts(paras));
  }

  /** No tag of `tags` is a Comment. */
  predicate NoComments(tags: seq<Tag>)
  {
    forall i :: 0 <= i < |tags| ==> !tags[i].Comment?
  }

  lemma {:induction false} CommentTagsNone(tags: seq<Tag>)
    requires NoComments(tags)
    ensures CommentTags(tags) == []
    decreases |tags|
  {
    if tags != [] {
      CommentTagsNone(tags[1..]);
    }
  }

  /** A callback other than a paragraph start or end (text, fields, table
      and header events) leaves the comment state alone and sends no
      Comment tag. */
  lemma OtherEventKeepsComments(read: seq<Annotation>, st: HandlerState, ev: DocEvent)
    requires !ev.ParagraphStart? && !ev.ParagraphEnd?
    ensures var r := OnEvent(read, st, ev);
            r.state.commentsParsed == st.commentsParsed && r.state.comments == st.comments
            && r.state.prevParFc == st.prevParFc && NoComments(r.emitted)
  {
  }

  /** So a run of such callbacks between paragraphs changes nothing the
      comment placement depends on: the comment state and what the end of
      the document sends are as before, and no Comment tag is sent. */
  lemma {:induction false} OtherEventsKeepComments(read: seq<Annotation>, st: HandlerState, evs: seq<DocEvent>)
    requires forall i :: 0 <= i < |evs| ==> !evs[i].ParagraphStart? && !evs[i].ParagraphEnd?
    ensures var r := Run(read, st, evs);
            r.state.commentsParsed == st.commentsParsed && r.state.comments == st.comments
            && r.state.prevParFc == st.prevParFc
            && EndOfDocument(r.state) == EndOfDocument(st)
            && CommentTags(r.emitted) == []
    decreases |evs|
  {
    if evs != [] {
      var r0 := OnEvent(read, st, evs[0]);
      OtherEventKeepsComments(read, st, evs[0]);
      CommentTagsNone(r0.emitted);
      if r0.error.None? {
        var rest := Run(read, r0.state, evs[1..]);
        OtherEventsKeepComments(read, r0.state, evs[1..]);
        CommentTagsAppend(r0.emitted, rest.emitted);
      }
    }
  }
}
