/** The Word binary parser's parse operation: open the compound file, extract
    the text of every embedded spreadsheet of the ObjectPool directory,
    create the document decoder, register the three handlers, let the
    decoder walk the document, and send the comments left at its end. The
    compound file, the decoder and the spreadsheet parser are outside this
    model: what they report is given as values. */
module DocParser {
  import opened Common
  import opened DocComments
  import opened DocEvents
  import opened DocHandlers
  import opened DocEventProps
  import opened DocTables
  import opened DocPlacement

  /** A directory listing, or the storage's last error when listing
      failed. */
  datatype Listing<T> = Listed(items: seq<T>) | ListFailed(lastError: string)

  /** An entry of the ObjectPool directory: its name, its own listing when it
      can be entered as a directory (None for a stream), and the text the
      spreadsheet parser extracts from it (None when that parser throws). */
  datatype PoolEntry = PoolEntry(name: string, children: Option<Listing<string>>, workbookText: Option<string>)

  /** What the compound file reports: whether it opened as a valid storage,
      and the listing of its ObjectPool directory if it has one. */
  datatype OleStorage = OleStorage(valid: bool, objectPool: Option<Listing<PoolEntry>>)

  /** Whether the decoder was created and is usable; a failed one may still
      say the file is encrypted. */
  datatype ParserStatus = ParserOk | ParserFailed(encrypted: bool)

  const WORKBOOK: string := "Workbook"

  /** The embedded object text of one entry: the spreadsheet text of a
      directory holding a Workbook stream, or empty. */
  function EntryText(e: PoolEntry): Result<string>
  {
    match e.children
    case None => Ok("")
    case Some(ListFailed(err)) =>
      Err("Error while loading list of streams and storages in " + e.name
          + " directory. OLE Storage has reported an error: " + err)
    case Some(Listed(names)) =>
      Ok(if WORKBOOK in names && e.workbookText.Some? then e.workbookText.value else "")
  }

  function EntryTextsFrom(entries: seq<PoolEntry>, i: nat, acc: seq<string>): Result<seq<string>>
    requires i <= |entries|
    decreases |entries| - i
  {
    if i == |entries| then Ok(acc)
    else
      match EntryText(entries[i])
      case Err(m) => Err(m)
      case Ok(t) => EntryTextsFrom(entries, i + 1, acc + [t])
  }

  /** The texts of the embedded objects, one per ObjectPool entry in
      directory order, or the error that aborts the parse. */
  function ObjectTexts(fileName: string, storage: OleStorage): Result<seq<string>>
  {
    if !storage.valid then Err("Error opening " + fileName + " as OLE file")
    else
      match storage.objectPool
      case None => Ok([])
      case Some(ListFailed(err)) =>
        Err("Error while loading list of streams and storages in ObjectPool directory. "
            + "OLE Storage has reported an error: " + err)
      case Some(Listed(entries)) => EntryTextsFrom(entries, 0, [])
  }

  /** The ObjectPool loop. */
  method LoadObjectTexts(fileName: string, storage: OleStorage) returns (r: Result<seq<string>>)
    ensures r == ObjectTexts(fileName, storage)
  {
    if !storage.valid {
      return Err("Error opening " + fileName + " as OLE file");
    }
    if storage.objectPool.None? {
      return Ok([]);
    }
    if storage.objectPool.value.ListFailed? {
      return Err("Error while loading list of streams and storages in ObjectPool directory. "
                 + "OLE Storage has reported an error: " + storage.objectPool.value.lastError);
    }
    var entries := storage.objectPool.value.items;
    var texts: seq<string> := [];
    for i := 0 to |entries|
      invariant EntryTextsFrom(entries, i, texts) == EntryTextsFrom(entries, 0, [])
    {
      var e := entries[i];
      var objText := "";
      if e.children.Some? {
        if e.children.value.ListFailed? {
          return Err("Error while loading list of streams and storages in " + e.name
                     + " directory. OLE Storage has reported an error: " + e.children.value.lastError);
        }
        if WORKBOOK in e.children.value.items && e.workbookText.Some? {
          objText := e.workbookText.value;
        }
      }
      texts := texts + [objText];
    }
    r := Ok(texts);
  }

  /** The entry loop succeeds exactly when no entry fails to list, and then
      gives one text per entry, in order, after the ones already collected;
      otherwise it reports the first entry that fails. */
  lemma {:induction false} EntryTextsFromShape(entries: seq<PoolEntry>, i: nat, acc: seq<string>)
    requires i <= |entries|
    ensures EntryTextsFrom(entries, i, acc).Ok? <==> forall k :: i <= k < |entries| ==> EntryText(entries[k]).Ok?
    ensures var r := EntryTextsFrom(entries, i, acc);
            r.Ok? ==> |r.value| == |acc| + |entries| - i && r.value[..|acc|] == acc
                      && forall k :: i <= k < |entries| ==> r.value[|acc| + k - i] == EntryText(entries[k]).value
    ensures var r := EntryTextsFrom(entries, i, acc);
            r.Err? ==> exists k :: i <= k < |entries| && EntryText(entries[k]) == Err(r.message)
                                   && forall j :: i <= j < k ==> EntryText(entries[j]).Ok?
    decreases |entries| - i
  {
    if i < |entries| {
      var e := EntryText(entries[i]);
      if e.Ok? {
        EntryTextsFromShape(entries, i + 1, acc + [e.value]);
        var r := EntryTextsFrom(entries, i, acc);
        if r.Ok? {
          assert r.value[..|acc| + 1][..|acc|] == r.value[..|acc|];
        } else {
          var k :| i + 1 <= k < |entries| && EntryText(entries[k]) == Err(r.message)
                   && forall j :: i + 1 <= j < k ==> EntryText(entries[j]).Ok?;
          assert forall j :: i <= j < k ==> EntryText(entries[j]).Ok?;
        }
      }
    }
  }

  /** A non-empty object text only comes from a directory entry that lists a
      Workbook stream and whose spreadsheet text was extracted. */
  lemma EntryTextSource(e: PoolEntry)
    requires EntryText(e).Ok? && EntryText(e).value != ""
    ensures e.children.Some? && e.children.value.Listed? && WORKBOOK in e.children.value.items
    ensures e.workbookText == Some(EntryText(e).value)
  {
  }

  /** Extracting the embedded objects fails exactly when the file is not a
      valid compound file, the ObjectPool directory cannot be listed, or one
      of its entries cannot; otherwise it gives one text per entry, in
      directory order. */
  lemma ObjectTextsShape(fileName: string, storage: OleStorage)
    ensures var r := ObjectTexts(fileName, storage);
            r.Ok? <==> storage.valid
                       && (storage.objectPool.Some? ==>
                             storage.objectPool.value.Listed?
                             && forall k :: 0 <= k < |storage.objectPool.value.items| ==>
                                  EntryText(storage.objectPool.value.items[k]).Ok?)
    ensures var r := ObjectTexts(fileName, storage);
            r.Ok? && storage.objectPool.None? ==> r.value == []
    ensures var r := ObjectTexts(fileName, storage);
            r.Ok? && storage.objectPool.Some? ==>
              var items := storage.objectPool.value.items;
              |r.value| == |items| && forall k :: 0 <= k < |items| ==> r.value[k] == EntryText(items[k]).value
  {
    if storage.valid && storage.objectPool.Some? && storage.objectPool.value.Listed? {
      EntryTextsFromShape(storage.objectPool.value.items, 0, []);
    }
  }

  /** The whole parse: the tags sent and how it ended. */
  function ParseResult(fileName: string, storage: OleStorage, parser: ParserStatus, doc: WordDocument,
                       events: seq<DocEvent>, parseOk: bool): (seq<Tag>, Outcome)
  {
    match ObjectTexts(fileName, storage)
    case Err(m) => ([], Fail(m))
    case Ok(objs) =>
      if parser.ParserFailed? then
        ([], Fail(if parser.encrypted then "File is encrypted" else "Creating parser failed"))
      else
        var r := Run(ParsedComments(doc), InitialState(objs), events);
        if r.error.Some? then (r.emitted, Fail(r.error.value))
        else if !parseOk then (r.emitted, Fail("Parsing document failed"))
        else (r.emitted + EndOfDocument(r.state), Pass)
  }

  /** The decoder calling the text handler for a paragraph, text or field
      callback. */
  method DeliverText(ev: DocEvent, text: TextHandler)
    requires ev.ParagraphStart? || ev.ParagraphEnd? || ev.RunOfText? || ev.FieldStart? || ev.FieldSeparator? || ev.FieldEnd?
    modifies text, text.out, text.state
    ensures var x := OnEvent(ParsedComments(text.doc), old(text.Snapshot()), ev);
            text.Snapshot() == x.state && text.out.tags == old(text.out.tags) + x.emitted && x.error.None?
  {
    match ev
    case ParagraphStart(chunks) => text.ParagraphStart(chunks);
    case ParagraphEnd(chunks) => text.ParagraphEnd(chunks);
    case RunOfText(s) => text.RunOfText(s);
    case FieldStart(flt) => text.FieldStart(flt);
    case FieldSeparator => text.FieldSeparator();
    case FieldEnd => text.FieldEnd();
  }

  /** The decoder calling the table handler for a row or cell callback. */
  method DeliverTable(ev: DocEvent, text: TextHandler, table: TableHandler) returns (r: Outcome)
    requires ev.RowStart? || ev.RowEnd? || ev.CellStart? || ev.CellEnd?
    requires table.out == text.out && table.state == text.state
    modifies text.out, text.state
    ensures var x := OnEvent(ParsedComments(text.doc), old(text.Snapshot()), ev);
            text.Snapshot() == x.state && text.out.tags == old(text.out.tags) + x.emitted
            && r == OutcomeOf(x.error)
  {
    match ev
    case RowStart => r := table.TableRowStart();
    case RowEnd => r := table.TableRowEnd();
    case CellStart => r := table.TableCellStart();
    case CellEnd => r := table.TableCellEnd();
  }

  /** The decoder calling the sub-document handler for a header or footer
      callback. */
  method DeliverSub(ev: DocEvent, text: TextHandler, sub: SubDocumentHandler)
    requires ev.HeaderStart? || ev.HeaderEnd?
    requires sub.out == text.out && sub.state == text.state
    modifies text.out, text.state
    ensures var x := OnEvent(ParsedComments(text.doc), old(text.Snapshot()), ev);
            text.Snapshot() == x.state && text.out.tags == old(text.out.tags) + x.emitted && x.error.None?
  {
    match ev
    case HeaderStart(kind) => sub.HeaderStart(kind);
    case HeaderEnd => sub.HeaderEnd();
  }

  /** The decoder calling the registered handler for one callback. */
  method Deliver(ev: DocEvent, text: TextHandler, table: TableHandler, sub: SubDocumentHandler)
    returns (r: Outcome)
    requires table.out == text.out && sub.out == text.out
    requires table.state == text.state && sub.state == text.state
    modifies text, text.out, text.state
    ensures var x := OnEvent(ParsedComments(text.doc), old(text.Snapshot()), ev);
            text.Snapshot() == x.state && text.out.tags == old(text.out.tags) + x.emitted
            && r == OutcomeOf(x.error)
  {
    if ev.RowStart? || ev.RowEnd? || ev.CellStart? || ev.CellEnd? {
      r := DeliverTable(ev, text, table);
    } else if ev.HeaderStart? || ev.HeaderEnd? {
      DeliverSub(ev, text, sub);
      r := Pass;
    } else {
      DeliverText(ev, text);
      r := Pass;
    }
  }

  /** The decoder's walk over the callbacks `events`: every callback is
      delivered in order until a handler throws. */
  method Walk(events: seq<DocEvent>, text: TextHandler, table: TableHandler, sub: SubDocumentHandler)
    returns (r: Outcome)
    requires table.out == text.out && sub.out == text.out
    requires table.state == text.state && sub.state == text.state
    modifies text, text.out, text.state
    ensures var x := Run(ParsedComments(text.doc), old(text.Snapshot()), events);
            text.Snapshot() == x.state && text.out.tags == old(text.out.tags) + x.emitted
            && r == OutcomeOf(x.error)
  {
    ghost var read := ParsedComments(text.doc);
    ghost var whole := Continue(read, Reaction(text.Snapshot(), text.out.tags, None), events);
    assert events[0..] == events;
    for i := 0 to |events|
      invariant Continue(read, Reaction(text.Snapshot(), text.out.tags, None), events[i..]) == whole
    {
      ContinueStep(read, text.Snapshot(), text.out.tags, events[i..]);
      assert events[i..][0] == events[i] && events[i..][1..] == events[i + 1..];
      r := Deliver(events[i], text, table, sub);
      if r.Fail? {
        return;
      }
    }
    ContinueDone(read, Reaction(text.Snapshot(), text.out.tags, None));
    r := Pass;
  }

  /** The parse operation. `events` are the callbacks the decoder makes, in
      order, and `parseOk` what its walk returns when no handler throws. */
  method Parse(fileName: string, storage: OleStorage, parser: ParserStatus, doc: WordDocument,
               events: seq<DocEvent>, parseOk: bool) returns (tags: seq<Tag>, r: Outcome)
    ensures (tags, r) == ParseResult(fileName, storage, parser, doc, events, parseOk)
  {
    var objs := LoadObjectTexts(fileName, storage);
    if objs.Err? {
      return [], Fail(objs.message);
    }
    if parser.ParserFailed? {
      return [], Fail(if parser.encrypted then "File is encrypted" else "Creating parser failed");
    }
    var out := new TagSink();
    var state := new CurrentState(objs.value);
    var text := new TextHandler(doc, out, state);
    var table := new TableHandler(out, state);
    var sub := new SubDocumentHandler(out, state);
    ghost var x := Run(ParsedComments(doc), InitialState(objs.value), events);
    ghost var expected := ParseResult(fileName, storage, parser, doc, events, parseOk);
    assert text.Snapshot() == InitialState(objs.value);
    r := Walk(events, text, table, sub);
    assert out.tags == x.emitted && text.Snapshot() == x.state && r == OutcomeOf(x.error);
    if r.Fail? {
      assert expected == (x.emitted, Fail(x.error.value));
      return out.tags, r;
    }
    assert x.error.None?;
    if !parseOk {
      assert expected == (x.emitted, Fail("Parsing document failed"));
      return out.tags, Fail("Parsing document failed");
    }
    assert expected == (x.emitted + EndOfDocument(x.state), Pass);
    text.EndOfDocument();
    return out.tags, Pass;
  }

  /** A parse that succeeds sends well-formed table tags: replayed from no
      table they never close what is not open, and leave a well-nested
      stack. */
  lemma ParseNesting(fileName: string, storage: OleStorage, parser: ParserStatus, doc: WordDocument,
                     events: seq<DocEvent>, parseOk: bool)
    requires ParseResult(fileName, storage, parser, doc, events, parseOk).1 == Pass
    ensures var tags := ParseResult(fileName, storage, parser, doc, events, parseOk).0;
            Replay([], tags).Some? && WellNested(Replay([], tags).value)
  {
    var objs := ObjectTexts(fileName, storage).value;
    var read := ParsedComments(doc);
    var st := InitialState(objs);
    var x := Run(read, st, events);
    DocEventProps.RunReflectsNesting(read, st, events);
    RunPreservesWellNested(read, st, events);
    var tail := EndOfDocument(x.state);
    assert forall i :: 0 <= i < |tail| ==> !TableTag(tail[i]) by {
      if x.state.commentsParsed {
        BetweenAllComments(x.state.comments, x.state.prevParFc, U32_LIMIT);
      }
    }
    ReplayNeutral(x.state.shared.tables, tail);
    ReplayAppend([], x.emitted, tail);
  }

  /** The parse fails before the document is walked, with no tags sent,
      exactly when the embedded objects cannot be read or no decoder could be
      created. */
  lemma ParseFailsEarly(fileName: string, storage: OleStorage, parser: ParserStatus, doc: WordDocument,
                        events: seq<DocEvent>, parseOk: bool)
    ensures var r := ParseResult(fileName, storage, parser, doc, events, parseOk);
            var objs := ObjectTexts(fileName, storage);
            (objs.Err? ==> r == ([], Fail(objs.message)))
            && (objs.Ok? && parser == ParserFailed(true) ==> r == ([], Fail("File is encrypted")))
            && (objs.Ok? && parser == ParserFailed(false) ==> r == ([], Fail("Creating parser failed")))
  {
  }
}
