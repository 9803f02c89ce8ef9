# DocToText core, modelled in Dafny

This project models the logic of the DocToText / DocWire document parsers and exporters that turn documents into a stream of semantic tags, and proves properties of that model. The tags are paragraphs, tables, links, comments, attachments, files and text.

It covers the following parts:

- **Legacy Word binary reconstruction** (`doc_pieces`, `doc_comments`, `doc_tables`, `doc_fields`, `doc_placement`, `doc_events`, `doc_handlers`, `doc_parser`).
  - It translates character positions to stream offsets through the piece table.
  - It extracts comments from three little-endian side tables.
  - The table-nesting stack repairs itself on some inputs and reports parsing errors on others.
  - Field codes are rebuilt into fill-in text, hyperlinks, embedded objects or plain values.
  - It tracks header and footer blocks.
  - Comments are sent by stream offset, not by the paragraph they belong to. At every paragraph start that has chunks, after the first such one, some comments are sent. They are those whose offset lies from the last chunk start recorded at the most recent paragraph end that had chunks, up to but not including the current paragraph's last-chunk start. A paragraph without chunks leaves the recorded start unchanged. The end of the document sends the comments from the recorded start on. When the paragraphs' last-chunk starts ascend:
    - a comment in a paragraph's last chunk comes out with the next paragraph;
    - the first paragraph that has chunks only parses the comments and sends none, so comments below its last-chunk start are never sent;
    - every other comment is sent exactly once (`DocEventProps.DocumentCommentsOnce`).
  - When a last-chunk start falls below an earlier one, a later range can reach back: it can then send a comment below the first paragraph's last-chunk start (`DocPlacement.BackwardsBoundsReachBack`), or send a comment twice (`DocPlacement.BackwardsBoundsRepeat`).
  - The decoder's callbacks are modelled twice:
    - as imperative handler classes over shared mutable state;
    - as a pure event machine that the handlers are proved against.
- **E-mail** (`eml`):
  - the MIME part-tree walker (inline text, attachments with derived extensions and a skip veto, multipart/alternative, other multipart);
  - line normalisation and the line-by-line reading of the message;
  - the validity check.
- **Flat ODF XML** (`odfxml`):
  - the root-marker test;
  - the text-disable flag that the body and object handlers toggle;
  - the binary-data handler;
  - the non-overlapping `<draw:page ` counter used as the page-count fallback.
- **Plain text exporter** (`plain_text_exporter`): the nested-document level counter. It sends one ".txt" data source per outermost document.
- **Importer** (`importer`):
  - parser selection and the order of its errors;
  - the root of the chain;
  - the routing of parser tags;
  - the cancel/skip-to-continuation mapping;
  - the wrapping of parser failures.
- **Exception** (`exception`): the error list, copy and assignment, and the numbered backtrace.
- **HTML writer** (`html_writer`): the fixed tag-to-markup table, `write_to`, and the page header and footer.

Shared definitions live in `common.dfy`:

- the Option and Result types;
- little-endian reads;
- unsigned 32-bit wrap-around;
- the vertical-tab-to-line-feed rewrite;
- the `Tag` datatype.

`streams.dfy` holds the cursor-based stream reader that the comment extraction reads through.

Things outside the code become parameters:

- the decoder's callbacks are a sequence of events;
- streams are byte sequences;
- the mail library's parse is a `Message` value;
- charset conversion, mime detection, parser registries, nested parses and the plain text writer are given as functions or values.

## Model

| member | source | states |
|---|---|---|
| Common.Wrap32 | src/doc_parser.cpp:163 | Sums of unsigned 32-bit fields wrap modulo 2^32 and are unchanged when they fit |
| Common.Wrap32Once | src/doc_parser.cpp:234 | One step below zero or above 2^32-1 wraps by exactly 2^32 |
| Common.U16Bytes | src/doc_parser.cpp:246 | A 16-bit little-endian read is low byte then high byte; the signed view is negative exactly when the high byte is 128 or more, and agrees with the unsigned view modulo 2^16 |
| Common.U32Bytes | src/doc_parser.cpp:183 | A 32-bit little-endian read has the first byte lowest and the fourth highest |
| Common.VtToLf | src/doc_parser.cpp:406 | The rewrite keeps the length, leaves no vertical tab and changes no other character |
| Common.VtToLfIdempotent | src/doc_parser.cpp:501 | Rewriting twice is rewriting once |
| Common.VtToLfConcat | src/doc_parser.cpp:501 | Rewriting distributes over concatenation |
| Streams.StreamReader.ReadU8 | src/doc_parser.cpp:208 | A byte read succeeds exactly inside the stream and gives the byte at the cursor, which then advances by one |
| Streams.StreamReader.ReadU16 | src/doc_parser.cpp:246 | The read gives the little-endian value at the cursor, or fails past the end; the cursor advances by two |
| Streams.StreamReader.ReadS16 | src/doc_parser.cpp:257 | As ReadU16, read as signed |
| Streams.StreamReader.ReadU32 | src/doc_parser.cpp:183 | The read gives the little-endian value at the cursor, or fails past the end; the cursor advances by four |
| DocPieces.FirstFromSkips | src/doc_parser.cpp:108-149 | The scan passes over only pieces that do not hold the position |
| DocPieces.FirstFromAt | src/doc_parser.cpp:108-149 | The scan stops at the first piece that holds the position |
| DocPieces.Translate | src/doc_parser.cpp:108-149 | Definition: no piece table or no piece holding the position gives None. Otherwise the first piece holding it gives its stream offset plus the local offset, doubled in a unicode piece and wrapped to 32 bits, and its unicode flag. The lemmas below state its properties |
| DocPieces.TranslateFails | src/doc_parser.cpp:108-149 | Translation fails exactly when there is no piece table or no piece holds the position; otherwise the unicode flag comes from a piece that holds it |
| DocPieces.CpToStreamOffset | src/doc_parser.cpp:108-149 | The loop that subtracts each piece's run computes the translation function |
| DocPieces.StartsAscend | src/doc_parser.cpp:108-149 | In a contiguous piece table the piece starts ascend |
| DocPieces.OffsetIsLocal | src/doc_parser.cpp:108-149 | In a contiguous table the runs before piece k add up to its start, so the remaining offset is local to the piece |
| DocPieces.TranslateContiguous | src/doc_parser.cpp:108-149 | In a contiguous table the result is the piece's fc plus the local offset, doubled for a unicode piece |
| DocPieces.TranslateMonotone | src/doc_parser.cpp:108-149 | Within one piece the stream offset is strictly increasing in the position |
| DocPieces.FirstPieceWins | src/doc_parser.cpp:108-149 | When pieces overlap, the first piece that holds the position decides |
| DocComments.MarkNeverRejects | src/doc_parser.cpp:208-215 | The annotation-mark test rejects no byte |
| DocComments.CommentsOf | src/doc_parser.cpp:157-178 | An empty annotation table gives no comments and success; otherwise missing streams give failure |
| DocComments.ReadAnnotationText | src/doc_parser.cpp:189-233 | Reading one annotation's text through the streams computes the text function |
| DocComments.ReadTextBetween | src/doc_parser.cpp:198-231 | Reading between two translated offsets computes the text function |
| DocComments.ReadTextAt | src/doc_parser.cpp:207-231 | Reading from a translated start up to an end offset computes the text function |
| DocComments.ReadText | src/doc_parser.cpp:217-231 | The byte loop, with its unicode skip, computes the text function |
| DocComments.ReadTexts | src/doc_parser.cpp:182-237 | The annotation loop, which stops once an end position reaches ccpAtn - 1, computes the list of texts |
| DocComments.ReadOwnerName | src/doc_parser.cpp:255-260 | An owner name is n 16-bit characters; the cursor advances by 2n |
| DocComments.ReadOwners | src/doc_parser.cpp:239-263 | The owners loop, which is cleared and abandoned on an overlong entry, computes the owner list |
| DocComments.ReadRefs | src/doc_parser.cpp:265-290 | The reference loop computes the comment list: one comment per reference before ccpText that has a text |
| DocComments.ReadAuthors | src/doc_parser.cpp:291-300 | The author loop sets an author only for an in-range owner index |
| DocComments.ParseComments | src/doc_parser.cpp:151-300 | The whole extraction computes the comments function |
| DocComments.AssembleComments | src/doc_parser.cpp:265-300 | References and authors over read texts and owners compute the assembly function |
| DocComments.TextFromAllowed | src/doc_parser.cpp:223-230 | Annotation text holds only characters 32 and up or 8 to 13, and no carriage return |
| DocComments.TextsFromAllowed | src/doc_parser.cpp:185-237 | Every text read holds only allowed characters |
| DocComments.TextsAtAllowed | src/doc_parser.cpp:185-237 | As TextsFromAllowed, from a table position |
| DocComments.TextBetweenAllowed | src/doc_parser.cpp:216-231 | One annotation's text holds only allowed characters |
| DocComments.RefsZip | src/doc_parser.cpp:268-290 | The k-th comment carries the k-th annotation text and no author yet, and there are no more comments than texts |
| DocComments.RefsCount | src/doc_parser.cpp:268-290 | There are as many comments as leading reference CPs before ccpText, but no more than texts |
| DocComments.RefsOffsets | src/doc_parser.cpp:270-289 | The k-th comment's fc is the translated stream offset of the k-th reference CP, which is below ccpText |
| DocComments.RefsJoin | src/doc_parser.cpp:265-290 | Over the whole reference table: comment k has text k and the offset of reference k, and the count is the smaller of the leading references and the texts |
| DocComments.AuthorsFromOwners | src/doc_parser.cpp:291-300 | Offsets and texts are kept; comment k gets owners[ibst] of the k-th ATRD record when 0 <= ibst < the number of owners, and keeps its author otherwise |
| DocComments.AssembleMatches | src/doc_parser.cpp:265-300 | Each comment is reference k, text k and ATRD record k joined by index, the records starting after the comment count plus one reference CPs; the count is the smaller of the leading references and the texts |
| DocComments.JoinParts | src/doc_parser.cpp:265-300 | Comments carrying their texts and reference offsets, with authors set from the records, satisfy the join |
| DocComments.CommentsMatchTables | src/doc_parser.cpp:151-300 | Successful extraction had both streams, texts and owners; every comment is joined by index from text k, reference k and ATRD record k, with author owners[ibst] or empty, and the count is the smaller of the leading references before ccpText and the texts |
| DocComments.TextsOfAllowed | src/doc_parser.cpp:182-237 | Every annotation text of a document holds only allowed characters |
| DocComments.CommentTextsFiltered | src/doc_parser.cpp:223-230 | Every extracted comment's text is filtered |
| DocComments.OwnersAbandoned | src/doc_parser.cpp:244-253 | Whatever names were read before, an entry reached by the owners walk that claims more bytes than are left clears the list |
| DocComments.CorruptOwnersTable | src/doc_parser.cpp:244-253 | An owner entry, the first or any later one the walk reaches, running past the table clears the owners, so no comment gets an author |
| DocTables.RowStart | src/doc_parser.cpp:531-543 | With an empty stack or a top cell, Table then TableRow are sent and table then row pushed; a top table sends TableRow and pushes row; a top row is an error |
| DocTables.RowEnd | src/doc_parser.cpp:545-559 | A top row is closed and popped; a top cell over a row sends CloseTableCell then CloseTableRow and pops both; otherwise an error, after which a top cell has been closed and popped, and any other stack is left as it was with nothing sent |
| DocTables.CellStart | src/doc_parser.cpp:561-568 | Succeeds exactly on a top row, sending TableCell and pushing cell; otherwise an error with no change |
| DocTables.CellEnd | src/doc_parser.cpp:570-582 | A top cell is closed and popped; a stray table over a cell is closed first; otherwise an error, after which a top table has been closed and popped, and any other stack is left as it was with nothing sent |
| DocTables.ParagraphTable | src/doc_parser.cpp:348-361 | A top table sends CloseTable and pops; a top row sends TableCell and pushes cell; otherwise nothing changes; never an error |
| DocTables.ReplayAppend | src/doc_parser.cpp:519-582 | Replaying the table tags of two runs is replaying them in turn |
| DocTables.DispatchReflectsNesting | src/doc_parser.cpp:519-582 | Replaying the table tags one handler step sends gives exactly the stack it leaves |
| DocTables.RunReflectsNesting | src/doc_parser.cpp:519-582 | Over any event sequence, the tags sent replay to the final stack |
| DocTables.WellNestedPush | src/doc_parser.cpp:519-582 | Pushing the expected state keeps the stack in table/row/cell order |
| DocTables.WellNestedTop | src/doc_parser.cpp:519-582 | The top of a well-nested stack has the state expected at its depth |
| DocTables.DispatchPreservesNesting | src/doc_parser.cpp:519-582 | Every handler step keeps the stack in table/row/cell order |
| DocTables.RunPreservesNesting | src/doc_parser.cpp:519-582 | Every event sequence keeps the stack in table/row/cell order |
| DocTables.RowEndRejects | src/doc_parser.cpp:545-559 | On a well-nested stack, a row end fails exactly on an empty stack or a top table |
| DocTables.CellEndRejects | src/doc_parser.cpp:570-582 | On a well-nested stack, a cell end fails exactly when no cell is open to close |
| DocTables.RunAppend | src/doc_parser.cpp:519-582 | Running two event sequences is running them in turn |
| DocTables.RunCells | src/doc_parser.cpp:561-582 | Inside a row, n cells send n TableCell/CloseTableCell pairs and leave the stack |
| DocTables.RunSingle | src/doc_parser.cpp:519-582 | Running one event is one handler step |
| DocTables.RunRow | src/doc_parser.cpp:531-559 | Inside a table, a row of n cells sends the row's tags and leaves the stack |
| DocTables.RunRows | src/doc_parser.cpp:531-582 | Inside a table, a sequence of rows sends their tags in order and leaves the stack |
| DocTables.WellFormedTable | src/doc_parser.cpp:348-361 | A table of rows followed by a paragraph opens the table, sends the rows, closes the table and restores the stack |
| DocTables.FirstRowOpens | src/doc_parser.cpp:531-543 | The first row start with no open table or a top cell opens a table |
| DocTables.TableBody | src/doc_parser.cpp:348-361 | Rows then a paragraph inside a table close it and pop it |
| DocTables.RowEndWithoutRow | src/doc_parser.cpp:547-548 | A row end on an empty stack is an error and sends nothing |
| DocFields.SpacesEnd | src/doc_parser.cpp:463-473 | Skipping spaces stops at the first non-space |
| DocFields.NextOf | src/doc_parser.cpp:467-471 | The scan for a character stops at its first occurrence, or at the end; it skips the field code up to a space, and the URL up to a quote |
| DocFields.FieldArgs | src/doc_parser.cpp:463-473 | The arguments are a suffix of the parameter text and start with no space |
| DocFields.StripFieldCode | src/doc_parser.cpp:463-473 | The stripping loop computes the arguments |
| DocFields.SpacesEndAt | src/doc_parser.cpp:463-473 | A run of spaces followed by a non-space is skipped exactly |
| DocFields.NextOfAt | src/doc_parser.cpp:467-471 | A run free of the character followed by it, or by the end, is scanned exactly |
| DocFields.FieldArgsSplit | src/doc_parser.cpp:463-473 | Leading spaces, the field name and the spaces after it are stripped, leaving exactly the arguments; trailing spaces are kept |
| DocFields.ScanUrl | src/doc_parser.cpp:483-487 | The scanning loop computes the URL |
| DocFields.UrlRoundTrip | src/doc_parser.cpp:483-487 | A quoted URL with no quote inside is read back exactly, with or without a closing quote |
| DocFields.FieldEndTags | src/doc_parser.cpp:459-503 | The field end always ends with one Text; every type except HYPERLINK gives exactly one tag, and a single tag's text holds no vertical tab |
| DocFields.HyperlinkField | src/doc_parser.cpp:482-491 | A HYPERLINK field with a quoted URL gives that link around the value |
| DocFields.HyperlinkFallback | src/doc_parser.cpp:492-493 | An unquoted HYPERLINK field gives arguments, a space and the value as text |
| DocFields.HyperlinkExample | src/doc_parser.cpp:482-491 | A concrete HYPERLINK field gives its link |
| DocPlacement.BetweenMembers | src/doc_parser.cpp:362-383 | A comment is sent for a paragraph exactly when its offset lies in the paragraph's range |
| DocPlacement.BetweenSource | src/doc_parser.cpp:366-372 | Every tag sent for a range comes from a comment whose offset lies in it |
| DocPlacement.BetweenSends | src/doc_parser.cpp:366-372 | Every comment whose offset lies in the range is sent for it |
| DocPlacement.BetweenLength | src/doc_parser.cpp:362-383 | A paragraph sends at most all comments, and none for an empty range |
| DocPlacement.BetweenSplit | src/doc_parser.cpp:362-383 | Two adjacent ranges send together what their union sends |
| DocPlacement.PlacementOnce | src/doc_parser.cpp:362-383 | With ascending paragraph ends, the paragraphs and the end of the document together send each comment at or after the first end exactly once |
| DocPlacement.BackwardsBoundsRepeat | src/doc_parser.cpp:505-516 | With paragraph ends out of stream order a comment can be sent twice |
| DocPlacement.BackwardsBoundsReachBack | src/doc_parser.cpp:362-394 | With the bounds 100, 50, 80, a comment at offset 60, below the first bound, is still sent, once, for [50, 80) |
| DocEvents.OnParagraphStart | src/doc_parser.cpp:344-384 | Definition: the table repair tags, then Paragraph. A paragraph without chunks sends nothing more. When the comments are known, it sends those from the recorded start up to its last chunk start. Otherwise it reads the comments and sends none (`ParagraphStartParsed`, `ParagraphStartFirst`) |
| DocEvents.OnParagraphEnd | src/doc_parser.cpp:386-394 | Definition: sends CloseParagraph; a paragraph with chunks records its last chunk start for the next range, one without leaves it (`RunParagraphs`) |
| DocEvents.OnRunOfText | src/doc_parser.cpp:396-409 | Definition: text is appended to the field parameters or value while one is read; otherwise it is sent as Text with vertical tabs made line feeds (`TextsAccumulate`) |
| DocEvents.OnFieldStart | src/doc_parser.cpp:426-450 | Definition: records the field type and starts its parameters. An EMBED field sends the next object text with vertical tabs made line feeds, or nothing once none is left. Any other field clears parameters and value (`EmbeddedObject`, `EmbeddedObjectMissing`) |
| DocEvents.OnFieldEnd | src/doc_parser.cpp:459-503 | Definition: sends the field's tags from its type, parameters and value, then no field is open (`FieldReassembled`) |
| DocEvents.OnHeaderStart | src/doc_parser.cpp:597-615 | Definition: the three header kinds set the header flag and send Header; the three footer kinds set the footer flag and send Footer (`HeaderBlock`) |
| DocEvents.OnHeaderEnd | src/doc_parser.cpp:617-626 | Definition: sends CloseHeader if a header is open, then CloseFooter if a footer is open, and clears both flags (`HeaderBlock`) |
| DocEvents.OnEvent | src/doc_parser.cpp:315-626 | Definition: the callback of each event kind; table events go to the nesting steps, the field separator starts the value. Proved to keep the stack well nested and its tags to replay to it (`OnEventPreservesWellNested`, `OnEventReflectsNesting`) |
| DocEvents.Run | src/doc_parser.cpp:791-795 | Definition: the callbacks in order, their tags concatenated, stopping at the first error thrown (`RunAppend`, `RunOne`) |
| DocEvents.EndOfDocument | src/doc_parser.cpp:505-516 | Definition: once the comments are known, those from the recorded start on; otherwise none (`DocumentComments`) |
| DocEventProps.RunAppend | src/doc_parser.cpp:315-516 | Running two event sequences is running them in turn |
| DocEventProps.RunOne | src/doc_parser.cpp:315-516 | Running one event is one callback |
| DocEventProps.ReplayNeutral | src/doc_parser.cpp:315-516 | Tags other than table tags leave the stack alone |
| DocEventProps.BetweenAllComments | src/doc_parser.cpp:362-383 | Paragraph placement sends only comment tags |
| DocEventProps.ParagraphStartReflectsNesting | src/doc_parser.cpp:344-384 | The table tags a paragraph start sends replay to the stack it leaves |
| DocEventProps.OnEventReflectsNesting | src/doc_parser.cpp:315-582 | The table tags of any callback replay to the stack it leaves |
| DocEventProps.RunReflectsNesting | src/doc_parser.cpp:315-582 | Over a whole document the table tags sent replay to the final stack |
| DocEventProps.OnEventPreservesWellNested | src/doc_parser.cpp:315-582 | Every callback keeps the table stack well nested |
| DocEventProps.RunPreservesWellNested | src/doc_parser.cpp:315-582 | Every callback sequence keeps the table stack well nested |
| DocEventProps.TextsAccumulate | src/doc_parser.cpp:396-409 | Inside a field, text runs are appended to the current part and nothing is sent |
| DocEventProps.FieldReassembled | src/doc_parser.cpp:426-503 | A non-EMBED field's start, parameter runs, separator, value runs and end send the field-end tags of the concatenated parts and reset the field state |
| DocEventProps.EmbeddedObject | src/doc_parser.cpp:434-445 | An EMBED field sends the next object text with line feeds and advances the cursor |
| DocEventProps.EmbeddedObjectMissing | src/doc_parser.cpp:436-438 | An EMBED field sends nothing of its own once the objects are used up |
| DocEventProps.HeaderBlock | src/doc_parser.cpp:597-626 | A header or footer block sends its opening and closing tags and leaves the flags clear |
| DocEventProps.ParagraphStartParsed | src/doc_parser.cpp:344-384 | With comments already parsed, a paragraph start sends its comments and Paragraph, and moves the previous-paragraph offset |
| DocEventProps.ParagraphStartFirst | src/doc_parser.cpp:362-367 | The first paragraph start with chunks parses the comments |
| DocEventProps.RunParagraphs | src/doc_parser.cpp:344-394 | A sequence of paragraphs sends Paragraph, its comments and CloseParagraph for each |
| DocEventProps.CommentTagsAppend | src/doc_parser.cpp:362-383 | Selecting the comment tags distributes over concatenation |
| DocEventProps.ParagraphComments | src/doc_parser.cpp:362-383 | The comments sent across paragraphs, then at the end of the document, are the placement over the paragraph ends |
| DocEventProps.DocumentComments | src/doc_parser.cpp:344-516 | From the initial state, the comments a document of paragraphs sends, plus those sent at its end, are the placement over the paragraph ends |
| DocEventProps.DocumentCommentsOnce | src/doc_parser.cpp:344-516 | With ascending paragraph ends, each comment at or after the first paragraph's end is sent exactly once |
| DocEventProps.OtherEventKeepsComments | src/doc_parser.cpp:396-620 | Text, field, table and header callbacks leave the comments-parsed flag, the comment list and the previous paragraph end unchanged and send no Comment tag |
| DocEventProps.OtherEventsKeepComments | src/doc_parser.cpp:396-620 | A run of such callbacks between paragraphs leaves that state and what the end of the document sends unchanged, and sends no comment |
| DocHandlers.TagSink.Send | src/doc_parser.cpp:315-516 | Sending appends the tag |
| DocHandlers.TableHandler.TableRowStart | src/doc_parser.cpp:531-543 | The handler updates the shared stack and sends the tags as RowStart says, failing exactly where it fails |
| DocHandlers.TableHandler.TableRowEnd | src/doc_parser.cpp:545-559 | The handler updates the shared stack and sends the tags as RowEnd says |
| DocHandlers.TableHandler.TableCellStart | src/doc_parser.cpp:561-568 | The handler updates the shared stack and sends the tags as CellStart says |
| DocHandlers.TableHandler.TableCellEnd | src/doc_parser.cpp:570-582 | The handler updates the shared stack and sends the tags as CellEnd says |
| DocHandlers.SubDocumentHandler.HeaderStart | src/doc_parser.cpp:597-615 | A header kind sets the header flag and sends Header; a footer kind sets the footer flag and sends Footer |
| DocHandlers.SubDocumentHandler.HeaderEnd | src/doc_parser.cpp:617-626 | The open blocks are closed and both flags cleared |
| DocHandlers.TextHandler.SendComments | src/doc_parser.cpp:362-383 | The comments in the range are sent in order |
| DocHandlers.TextHandler.ParagraphStart | src/doc_parser.cpp:344-384 | The handler's new state and the tags sent are the event machine's paragraph start |
| DocHandlers.TextHandler.ParagraphEnd | src/doc_parser.cpp:386-394 | Sends CloseParagraph and records the paragraph's last chunk offset |
| DocHandlers.TextHandler.RunOfText | src/doc_parser.cpp:396-409 | Appends to the field part in a field, otherwise sends the text with line feeds |
| DocHandlers.TextHandler.FieldStart | src/doc_parser.cpp:426-450 | Starts collecting parameters; EMBED sends the next object text, other types reset the parts |
| DocHandlers.TextHandler.FieldSeparator | src/doc_parser.cpp:452-457 | Switches to collecting the value and changes nothing else |
| DocHandlers.TextHandler.SendHyperlink | src/doc_parser.cpp:483-490 | Sends Link(url), Text(value), CloseLink |
| DocHandlers.TextHandler.FieldEnd | src/doc_parser.cpp:459-503 | Sends the field-end tags and resets the field state |
| DocHandlers.TextHandler.EndOfDocument | src/doc_parser.cpp:505-516 | Sends every parsed comment at or after the previous paragraph's offset |
| DocParser.LoadObjectTexts | src/doc_parser.cpp:716-765 | The ObjectPool loop computes the object texts, or the storage error |
| DocParser.EntryTextsFromShape | src/doc_parser.cpp:730-757 | One text per pool entry, in order; the list fails exactly on an entry that fails, and then with the first such entry's message |
| DocParser.EntryTextSource | src/doc_parser.cpp:735-755 | A non-empty object text comes from a Workbook inside that entry |
| DocParser.ObjectTextsShape | src/doc_parser.cpp:716-765 | With an ObjectPool the texts match its entries one for one; without one there are none; an invalid storage fails |
| DocParser.DeliverText | src/doc_parser.cpp:785-786 | A text callback on the handler classes does what the event machine says |
| DocParser.DeliverTable | src/doc_parser.cpp:787-788 | A table callback does what the event machine says, including its error |
| DocParser.DeliverSub | src/doc_parser.cpp:789-790 | A header or footer callback does what the event machine says |
| DocParser.Deliver | src/doc_parser.cpp:785-792 | Any callback does what the event machine says |
| DocParser.Walk | src/doc_parser.cpp:791-795 | The decoder's walk over all events does what the event machine's run says, stopping at the first error |
| DocParser.Parse | src/doc_parser.cpp:707-797 | The whole parse sends the tags and ends as the parse function says |
| DocParser.ParseNesting | src/doc_parser.cpp:707-797 | The tags of a successful parse never close a table part that is not open, and leave a well-nested stack |
| DocParser.ParseFailsEarly | src/doc_parser.cpp:716-784 | Object-text, encryption and parser-creation failures end the parse before any tag, with their messages |
| Eml.WithoutCRMembers | src/eml_parser.cpp:69-70 | Removing carriage returns keeps exactly the other characters |
| Eml.WithoutCRKeeps | src/eml_parser.cpp:69-70 | Text without carriage returns is unchanged |
| Eml.RemoveCarriageReturns | src/eml_parser.cpp:69-70 | The in-place erase-remove leaves the text without carriage returns in the array's prefix |
| Eml.AsciiLower | src/eml_parser.cpp:106-107 | Lower-casing keeps the length, maps each upper-case letter to its lower case and changes nothing else |
| Eml.AsciiLowerIdempotent | src/eml_parser.cpp:106-107 | Lower-casing twice is lower-casing once |
| Eml.LowerInPlace | src/eml_parser.cpp:106-107 | The in-place transform lower-cases the array |
| Eml.LastIndexOf | src/eml_parser.cpp:106 | Finds the last dot, or none exactly when there is no dot |
| Eml.Extension | src/eml_parser.cpp:103-107 | Definition: the lower-cased text after the last dot, or the whole lower-cased name without one (`ExtensionShape`) |
| Eml.Extract | src/eml_parser.cpp:63-136 | Definition: inline text gives its body and a blank line; any other part that is not multipart gives its attachment block; then an alternative part gives its HTML children, or its first child without one, and any other part all its children (`ExtractSplit`, `InlineTags`, `AlternativeChooses`, `MultipartSendsAll`, `ExtractBalanced`) |
| Eml.ExtensionShape | src/eml_parser.cpp:103-107 | The extension is the lower-cased name after the last dot, or the whole lower-cased name without a dot, and holds no dot |
| Eml.ExtractSplit | src/eml_parser.cpp:100-135 | A part that is not inline text sends its attachment block and then its children's tags |
| Eml.AlternativeSplit | src/eml_parser.cpp:116-128 | The alternative walk sends the HTML parts, then the first part only if there was none |
| Eml.PartsFromAll | src/eml_parser.cpp:129-135 | The loop over the children sends each child's tags in order |
| Eml.HtmlFromAll | src/eml_parser.cpp:119-125 | The HTML loop sends the tags of exactly the HTML children, in order |
| Eml.InlineTags | src/eml_parser.cpp:66-98 | Inline text sends eml_body.html for html or xhtml, Text for a charset, eml_body.txt otherwise, then Text("\n\n"), without walking children |
| Eml.InlineBodyWithoutCR | src/eml_parser.cpp:69-70 | The inline body holds no carriage return |
| Eml.AttachmentBlock | src/eml_parser.cpp:100-115 | An attachment sends Attachment with its name, size and extension, then its File unless the consumer skips it, then CloseAttachment |
| Eml.MultipartSendsAll | src/eml_parser.cpp:129-135 | Other multipart parts walk every child in order |
| Eml.AlternativeChooses | src/eml_parser.cpp:116-128 | multipart/alternative walks all HTML children, or only the first part when none is HTML, or nothing without parts |
| Eml.NoHtmlNone | src/eml_parser.cpp:126 | Without HTML children the HTML selection is empty |
| Eml.BalancedAppend | src/eml_parser.cpp:108-114 | Balanced attachment blocks stay balanced when put together |
| Eml.AttachmentTagsBalanced | src/eml_parser.cpp:108-114 | An attachment block is one Attachment closed by one CloseAttachment |
| Eml.ExtractBalanced | src/eml_parser.cpp:63-136 | The walk over any part tree sends balanced attachment blocks |
| Eml.NormalizeLine | src/eml_parser.cpp:194-199 | Definition: drops one trailing carriage return, if the line has one (`NormalizeLineInverse`) |
| Eml.NormalizeLineInverse | src/eml_parser.cpp:194-199 | One trailing carriage return is removed; a line without one is unchanged |
| Eml.LineEnd | src/eml_parser.cpp:207 | A line ends at the next line feed or the end of the stream |
| Eml.LinesWithoutLineFeed | src/eml_parser.cpp:207 | No line read holds a line feed |
| Eml.LinesRoundTrip | src/eml_parser.cpp:207 | Joining the lines read, each with a line feed, gives back the stream, terminated |
| Eml.FindLineEnd | src/eml_parser.cpp:207 | The character loop finds the line end |
| Eml.ReadMessageLines | src/eml_parser.cpp:201-219 | The getline loop feeds the mail library each normalised line, then a blank line |
| Eml.IsEml | src/eml_parser.cpp:223-237 | Definition: an unreadable stream is an opening error; otherwise true exactly for a non-empty From and a valid Date (`IsEmlExactly`) |
| Eml.IsEmlExactly | src/eml_parser.cpp:223-237 | An unreadable stream is an error; otherwise the message is an e-mail exactly when it has a sender and a valid date |
| Eml.PlainTextOutcome | src/eml_parser.cpp:239-256 | Parsing succeeds exactly for a readable, valid message whose stream was rewound, and then sends balanced attachment blocks |
| Eml.EmlParser.SendTag | src/eml_parser.cpp:108-109 | Sending records the tag and returns the consumer's skip decision |
| Eml.EmlParser.SendInline | src/eml_parser.cpp:66-98 | The inline branch sends what the walk function says |
| Eml.EmlParser.SendAttachment | src/eml_parser.cpp:100-115 | The attachment branch sends the attachment block |
| Eml.EmlParser.ExtractPlainText | src/eml_parser.cpp:63-136 | The recursive walk sends what the walk function says |
| Eml.EmlParser.SendParts | src/eml_parser.cpp:129-135 | The loop over the children sends what the walk function says for them |
| Eml.EmlParser.SendAlternative | src/eml_parser.cpp:116-128 | The alternative branch sends what the walk function says |
| Eml.EmlParser.SendHtmlParts | src/eml_parser.cpp:119-125 | Sends the HTML children's tags and reports whether any were found |
| Eml.EmlParser.Parse | src/eml_parser.cpp:239-256 | Fails with the check's message and sends nothing, or passes and sends the walk's tags |
| OdfXml.Find | src/odfxml_parser.cpp:205-206 | The search returns the first occurrence at or after the start, or none exactly when there is none |
| OdfXml.ContainsExactly | src/odfxml_parser.cpp:137 | Containment means an occurrence somewhere |
| OdfXml.IsOdfXml | src/odfxml_parser.cpp:124-140 | Definition: the opening error, else whether the content contains "office:document" (`IsOdfXmlExactly`) |
| OdfXml.IsOdfXmlExactly | src/odfxml_parser.cpp:124-140 | A file that cannot be opened is an error; otherwise the content is Flat XML exactly when it contains "office:document" |
| OdfXml.HandlerEffects | src/odfxml_parser.cpp:29-60 | The object handler appends the nested text and leaves text enabled; the body handler enables text only for "office:body"; the binary-data handler sets children-processed and nothing else |
| OdfXml.RunEffects | src/odfxml_parser.cpp:29-60 | Over any handler sequence the level is unchanged and the text gains the nested texts in order; text ends enabled exactly when it began enabled or some handler enables it; children-processed is set exactly when it began set or binary data came |
| OdfXml.DisabledUntilBody | src/odfxml_parser.cpp:160 | Text starts disabled and stays so until a body or object handler runs |
| OdfXml.XmlParser.DisableText | src/odfxml_parser.cpp:48 | Sets the flag and nothing else |
| OdfXml.XmlParser.LevelDown | src/odfxml_parser.cpp:47 | Moves one level down and nothing else |
| OdfXml.XmlParser.LevelUp | src/odfxml_parser.cpp:51 | Moves one level up and nothing else |
| OdfXml.XmlParser.BeginPlainText | src/odfxml_parser.cpp:160 | Extraction begins with text disabled |
| OdfXml.XmlParser.OnOdfBody | src/odfxml_parser.cpp:29-40 | The body handler on the parser's fields does what OnBody says |
| OdfXml.XmlParser.OnOdfObject | src/odfxml_parser.cpp:42-52 | The object handler goes one level down, disables text for the nested parse, appends its text, enables text afterwards and goes one level up, ending as OnObject says |
| OdfXml.XmlParser.OnOdfBinaryData | src/odfxml_parser.cpp:54-60 | The binary-data handler does what OnBinaryData says |
| OdfXml.CountBound | src/odfxml_parser.cpp:203-207 | Non-overlapping occurrences take no more room than the text |
| OdfXml.CountZero | src/odfxml_parser.cpp:203-207 | The count is zero exactly when there is no occurrence |
| OdfXml.CountOccurrences | src/odfxml_parser.cpp:203-207 | The find loop, restarting past each match, computes the non-overlapping count |
| OdfXml.PageCount | src/odfxml_parser.cpp:196-210 | Definition: the metadata page count when there is one; otherwise, for a presentation or drawing, the non-overlapping "<draw:page " count; otherwise none (`PageCountFallback`) |
| OdfXml.PageCountFallback | src/odfxml_parser.cpp:196-210 | A metadata page count is kept; without one, only presentations and drawings get the "<draw:page " count, which is zero exactly when there are no pages |
| OdfXml.MetaDataPageCount | src/odfxml_parser.cpp:172-212 | An unopened file or failed metadata parse fails with its message; otherwise the page count is the fallback |
| PlainTextExporter.Step | src/plain_text_exporter.cpp:36-55 | Each tag keeps a buffer exactly while a document is open, and sends at most one ".txt" data source, only on the CloseDocument that brings the level to zero |
| PlainTextExporter.InsideStep | src/plain_text_exporter.cpp:38-54 | Inside an open document a tag that does not close it is written to the buffer and moves the level |
| PlainTextExporter.InsideRun | src/plain_text_exporter.cpp:36-55 | Inside an open document every tag is written to the same buffer and nothing is sent; nested documents make no buffer |
| PlainTextExporter.RunAppend | src/plain_text_exporter.cpp:36-55 | Processing two tag sequences is processing them in turn |
| PlainTextExporter.RenderAllAppend | src/plain_text_exporter.cpp:44 | Rendering distributes over concatenation |
| PlainTextExporter.OneDocument | src/plain_text_exporter.cpp:36-55 | A whole document sends exactly one ".txt" data source holding all its tags, nested documents included |
| PlainTextExporter.Documents | src/plain_text_exporter.cpp:36-55 | A stream of documents sends one data source per outermost document, in order |
| PlainTextExporter.Stray | src/plain_text_exporter.cpp:38-54 | A tag outside any document opens a buffer of its own; a stray CloseDocument is sent on at once |
| PlainTextExporter.Exporter.Process | src/plain_text_exporter.cpp:36-55 | The exporter's fields after a tag are the step function of the fields before |
| Importer.ContinuationOf | src/importer.cpp:87-92 | Stop exactly on cancel, skip exactly on skip without cancel, proceed otherwise |
| Importer.FindParser | src/importer.cpp:43-52 | Definition: no mime type, then high encryption confidence, then no registered parser are failures in that order; otherwise the registered parser (`FindParserExactly`) |
| Importer.FindParserExactly | src/importer.cpp:43-52 | A parser is found exactly with a mime type, no high encryption confidence and a registered parser; a missing mime type is reported before encryption, and encryption before a missing parser |
| Importer.Ancestry | src/importer.cpp:61-67 | The chain from an element begins with that element |
| Importer.RootElement | src/importer.cpp:61-67 | Definition: follows the parents until an element has none (`RootElementShape`) |
| Importer.RootElementShape | src/importer.cpp:61-67 | The root has no parent, is the last ancestor, and is the root of every ancestor |
| Importer.RoutingPartitions | src/importer.cpp:83-86 | Every parser tag goes exactly one way: data sources to the chain's root, all others downstream |
| Importer.NoNestedSources | src/importer.cpp:83-86 | Without data sources every tag goes downstream in order |
| Importer.DownstreamAppend | src/importer.cpp:85-86 | A further tag adds itself downstream unless it is a data source |
| Importer.NestedAppend | src/importer.cpp:83-84 | A further data source is added to what goes to the root |
| Importer.ContinuationsPointwise | src/importer.cpp:87-92 | The parser gets one continuation per tag, each from that tag's reply |
| Importer.ContinuationsAppend | src/importer.cpp:87-92 | A further reply adds its continuation |
| Importer.Importer.ParserCallback | src/importer.cpp:80-93 | The callback routes the tag and returns its continuation |
| Importer.Importer.RunParser | src/importer.cpp:96 | A parser's callbacks route its tags and collect the continuations |
| Importer.Importer.Process | src/importer.cpp:69-102 | A non-data-source tag is forwarded alone; a parser failing to be found reports why and changes nothing; otherwise tags are routed and a parser error is wrapped as "Parsing failed" |
| Exceptions.NatToString | src/exception.cpp:81 | The decimal form is made of digits |
| Exceptions.NatToStringRoundTrip | src/exception.cpp:81 | Reading the decimal form gives the number back, with no leading zero |
| Exceptions.CountCharAppend | src/exception.cpp:76-86 | Counting a character distributes over concatenation |
| Exceptions.BacktraceLines | src/exception.cpp:76-86 | Without line breaks in messages, the backtrace has one line for the heading and one per error |
| Exceptions.EntryLine | src/exception.cpp:81 | An entry for a message without a line break is one line |
| Exceptions.BacktraceAppend | src/exception.cpp:76-91 | Appending an error extends the backtrace by one entry numbered one past the count |
| Exceptions.Exception.constructor | src/exception.cpp:46-49 | A new exception has no errors |
| Exceptions.Exception.WithMessage | src/exception.cpp:51-55 | The message constructor gives exactly that one error |
| Exceptions.Exception.Copy | src/exception.cpp:57-61 | A copy has an equal list of its own |
| Exceptions.Exception.Assign | src/exception.cpp:69-73 | Assignment gives an equal list |
| Exceptions.Exception.GetBacktrace | src/exception.cpp:76-86 | The loop builds "Backtrace:\n" and one numbered entry per error, from one, in order |
| Exceptions.Exception.AppendError | src/exception.cpp:88-91 | The error is added at the end |
| Exceptions.Exception.GetErrorCount | src/exception.cpp:98-101 | The count is the number of errors |
| HtmlWriter.Writer | src/html_writer.cpp:40-56 | The writer table lists exactly the sixteen named tags, and only Text writes the tag's own text; the fifteen others have fixed markup |
| HtmlWriter.WriteTo | src/html_writer.cpp:77-85 | Definition: a listed tag appends what the table gives for it; an unlisted tag writes nothing (`WriteToShape`) |
| HtmlWriter.WriteHeader | src/html_writer.cpp:59-67 | Definition: appends the doctype, html, head, charset, title and body-opening lines (`PageFrame`) |
| HtmlWriter.WriteFooter | src/html_writer.cpp:69-75 | Definition: appends "</body>\n</html>\n" (`PageFrame`) |
| HtmlWriter.WriteToShape | src/html_writer.cpp:77-85 | Writing only appends; an unlisted tag writes nothing; text is written verbatim; every other listed tag writes its markup whatever the text |
| HtmlWriter.MarkupPairs | src/html_writer.cpp:40-55 | Each closing tag writes its opening tag's markup with a slash after the "<" |
| HtmlWriter.MarkupRoundTrip | src/html_writer.cpp:40-55 | The fixed markup tells which tag wrote it |
| HtmlWriter.MarkupDistinct | src/html_writer.cpp:40-55 | No two listed tags share markup |
| HtmlWriter.PageFrame | src/html_writer.cpp:59-75 | The header starts with the doctype and ends by opening the body; the footer is exactly "</body>\n</html>\n"; header then footer frame the stream |

## Left out

- The wv2 decoder is not part of this model. This covers `Parser9x`, the paragraph and field iterators, `realFC`, FIB and ATRD decoding, and `ParserFactory::createParser`. Its results are inputs: the piece table, the FIB fields, the byte streams, a parser status and the sequence of callbacks (`DocEvent`).
- The ATRD record is taken as 30 bytes with the owner index as a signed 16-bit value at byte 20, the Word 97 layout that wv2 decodes.
- OLE storage (`ThreadSafeOLEStorage`) is not part of this model. Its directory listing and Workbook entries are a value (`OleStorage`), and the embedded workbook text, which `XLSParser` gives, is a per-entry input that may fail.
- Not modelled: file and stream I/O, `isDOC`, logging, `cerr_log_redirection`, mutexes and the multithreaded paths. The opening checks become booleans or `Option` inputs.
- Not modelled: the `metaData` functions of the Word and e-mail parsers, so the Metadata tag the Word parse sends first is not among the model's tags, and `parseODFMetadata` (only its success flag and page count are inputs).
- Reads past the end of a stream are not defined by the source. The model treats any short read as a failed extraction, so the comments are dropped.
- The annotation-mark test at src/doc_parser.cpp:209 negates before it compares, so it never rejects. It is modelled as the no-op it is (`MarkNeverRejects`).
- Unsigned 32-bit arithmetic (`ccpAtn - 1`, `stream_end_offset - 1`, the annotation position sums) is modelled with explicit wrap-around instead of preconditions.
- `params[0]` on empty parameters is modelled as a character that is not a quote.
- `UString` conversion is the identity on characters. Only the low byte of each owner-name character is kept, as the `(char)` cast does.
- Characters are used, not bytes, for e-mail and XML text.
- Header and footer kinds are one flag each, as the handler keeps them. The odd, even and first variants are not distinguished further.
- Exceptions are reduced to their messages (`Outcome`, `Result`). Nested exceptions become a `ParsingFailed(cause)` value.
- `OdfXml.MetaDataPageCount`: a failed metadata parse gives only the outer message "Error parsing metadata in Flat XML file". The nested cause that src/odfxml_parser.cpp:188-195 wraps is not kept, because `parseODFMetadata` is not part of this model.
- `OdfXml.XmlParser`: the children-processed flag is a field of the parser that stays set once a binary-data handler sets it. In the source it is a `bool&` out-parameter of each handler call, so the model does not capture that it is fresh per call.
- The mail library (mailio) is an oracle:
  - the part tree and the From and Date facts are a `Message` value;
  - `parse_by_line` is represented by the list of lines fed to it;
  - charset conversion is a `Converter` parameter;
  - the consumer's skip decision is a `SkipDecision` function of the Attachment tag.
- `Eml.IsEml`: the open-error message has an empty file name, because the constructors never store the file name.
- The shared XML machinery (`CommonXMLDocumentParser`, `extractText`, `parseXmlData`) is not part of this model. The text a nested object parse returns is a parameter of `OnObject`, and the handler commands arrive as a sequence.
- The plain text writer's rendering of a tag is the `Renderer` parameter. `PlainTextExporter.Step` relies on it being a function of the tag alone.
- `add_parameters` (src/importer.cpp:104-108) is not modelled, because the meaning of `ParserParameters`' `+=` is not in these files.
- `Importer.Importer.Process`: nested data sources are recorded in `toRoot`, not imported recursively through the chain's root. A parser's reaction to the continuations it gets is not modelled.
- Confidence is a rank (`nat`), and `confidence::high` is the parameter `high`.
- `Exceptions.NatToString`: `int_to_str` is taken to write plain decimal; misc.h is not part of this model.
- Not modelled: `getErrorIterator`, the destructor and `clone` of `Exception`.
- Tag names in the HTML writer are the `TagName` datatype. Tags that are not in the writer's table are `Unlisted`.
