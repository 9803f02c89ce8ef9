/** Comment (annotation) extraction of the Word binary parser. Three side
    tables of the table stream are walked: the CP ranges of the annotation
    texts, the owners table (counted strings of 16-bit characters), and the
    reference CPs followed by one ATRD record per annotation, whose `ibst`
    field indexes the owners. The pieces are zipped by index.

    Every read goes through a `StreamReader`; a read past the end of a
    stream makes the whole extraction fail, as a failed conversion of a CP
    does. */
module DocComments {
  import opened Common
  import opened DocPieces
  import opened Streams

  /** The fields of the file information block that locate the tables. */
  datatype Fib = Fib(
    lcbPlcfandTxt: u32, fcPlcfandTxt: u32,
    ccpText: u32, ccpFtn: u32, ccpHdd: u32, ccpMcr: u32, ccpAtn: u32,
    fcGrpXstAtnOwners: u32, lcbGrpXstAtnOwners: u32,
    fcPlcfandRef: u32)

  /** What the decoder supplies: the FIB, the piece table (absent when the
      decoder found none) and the two streams (absent when they cannot be
      opened). */
  datatype WordDocument = WordDocument(
    fib: Fib,
    pieces: Option<seq<Piece>>,
    wordStream: Option<seq<byte>>,
    tableStream: Option<seq<byte>>)

  /** One extracted comment: the stream offset of the text it refers to,
      its text and its author ("" when unknown). */
  datatype Annotation = Annotation(fc: u32, text: string, author: string)

  /** An ATRD record is 30 bytes long; its owner index `ibst` is the
      signed 16-bit value at byte 20. */
  const ATRD_SIZE: nat := 30
  const ATRD_IBST: nat := 20

  /** First CP of the annotation sub-document: after the main text, the
      footnotes, the headers and the macro text (unsigned 32-bit sum). */
  function AtnPartCp(f: Fib): u32
  {
    Wrap32(f.ccpText + f.ccpFtn + f.ccpHdd + f.ccpMcr)
  }

  /** The annotation-mark check as written: the logical negation of the mark
      is 0 or 1, compared with 5. */
  predicate MarkRejected(mark: byte)
  {
    (if mark == 0 then 1 else 0) == 0x05
  }

  /** The check can never reject a mark, whatever byte is found. */
  lemma MarkNeverRejects(mark: byte)
    ensures !MarkRejected(mark)
  {
  }

  /** What a text byte contributes: bytes 32..127 and 8..13 are kept (the
      byte is read as a signed 8-bit value, so 128..255 are negative and
      dropped), and a carriage return becomes a line feed. */
  function Keep(b: byte): string
  {
    if 32 <= b < 0x80 || 8 <= b <= 13 then
      if b == 13 then "\n" else [ByteChar(b)]
    else ""
  }

  /** The characters a comment text can be made of. */
  predicate Allowed(c: char)
  {
    8 <= c as int <= 12 || 32 <= c as int < 0x80
  }

  /** The inner text loop from byte `pos` while `pos < bound`, appending to
      `acc`; in a unicode piece one byte is skipped before each read. */
  function TextFrom(word: seq<byte>, pos: nat, bound: u32, unicode: bool, acc: string): Option<string>
    decreases |word| - pos
  {
    if pos >= bound then Some(acc)
    else
      var p := if unicode then pos + 1 else pos;
      if p >= |word| then None
      else TextFrom(word, p + 1, bound, unicode, acc + Keep(word[p]))
  }

  /** Text of the annotation whose CPs (relative to the annotation
      sub-document) run from `begin` to `end`. */
  function AnnotationText(pieces: Option<seq<Piece>>, atn: u32, word: seq<byte>, begin: u32, end: u32): Option<string>
  {
    TextBetween(word, Translate(pieces, Wrap32(atn + begin)), Translate(pieces, Wrap32(atn + end)))
  }

  /** The text between two translated positions; no text when either
      translation failed. */
  function TextBetween(word: seq<byte>, first: Option<(u32, bool)>, last: Option<(u32, bool)>): Option<string>
  {
    if first.None? || last.None? then None else TextAt(word, first.value, last.value.0)
  }

  /** The text stored from stream offset `first.0` (after its mark byte) up
      to the byte before `end`; `first.1` says whether the piece is
      unicode. */
  function TextAt(word: seq<byte>, first: (u32, bool), end: u32): Option<string>
  {
    if first.0 >= |word| then None
    else if MarkRejected(word[first.0]) then None
    else TextFrom(word, first.0 + 1, Wrap32(end as int - 1), first.1, "")
  }

  /** The annotation-text loop: read the next end CP at `pos`, extract the
      text from `begin` to it, and stop once the end reaches the last CP of
      the annotation sub-document; each next text begins where the previous
      one ended. */
  function TextsFrom(pieces: Option<seq<Piece>>, atn: u32, lastCp: u32, word: seq<byte>, table: seq<byte>,
                     pos: nat, begin: u32, acc: seq<string>): Option<seq<string>>
    decreases |table| - pos
  {
    match U32At(table, pos)
    case None => None
    case Some(end) =>
      match AnnotationText(pieces, atn, word, begin, end)
      case None => None
      case Some(text) =>
        if end >= lastCp then Some(acc + [text])
        else TextsFrom(pieces, atn, lastCp, word, table, pos + 4, end, acc + [text])
  }

  /** The annotation texts of a table starting at `pos`; the loop ends at
      CP `lastCp`, one before the annotation sub-document's length. */
  function TextsAt(pieces: Option<seq<Piece>>, atn: u32, lastCp: u32, word: seq<byte>, table: seq<byte>,
                   pos: nat): Option<seq<string>>
  {
    match U32At(table, pos)
    case None => None
    case Some(begin) => TextsFrom(pieces, atn, lastCp, word, table, pos + 4, begin, [])
  }

  function Texts(doc: WordDocument, word: seq<byte>, table: seq<byte>): Option<seq<string>>
  {
    TextsAt(doc.pieces, AtnPartCp(doc.fib), Wrap32(doc.fib.ccpAtn - 1), word, table, doc.fib.fcPlcfandTxt)
  }

  /** The character made from a 16-bit owner character: its low byte. */
  function LowByteChar(ch: int): char
  {
    ByteChar(ch % 0x100)
  }

  /** The `n` 16-bit characters of an owner name starting at `pos`. */
  function OwnerName(table: seq<byte>, pos: nat, n: nat, acc: string): Option<string>
    decreases n
  {
    if n == 0 then Some(acc)
    else
      match S16At(table, pos)
      case None => None
      case Some(ch) => OwnerName(table, pos + 2, n - 1, acc + [LowByteChar(ch)])
  }

  /** The owners loop: `total` bytes of the `len`-byte table consumed so
      far. A name that would run past the table's length abandons the whole
      list (the result is then empty). */
  function OwnersFrom(table: seq<byte>, pos: nat, total: int, len: u32, acc: seq<string>): Option<seq<string>>
    requires 0 <= total
    decreases len - total
  {
    if total >= len then Some(acc)
    else
      match U16At(table, pos)
      case None => None
      case Some(n) =>
        if n * 2 + (total + 2) > len then Some([])
        else
          match OwnerName(table, pos + 2, n, "")
          case None => None
          case Some(name) => OwnersFrom(table, pos + 2 + 2 * n, total + 2 + 2 * n, len, acc + [name])
  }

  /** The references loop: reference `i` at `pos` is a CP; a CP at or past
      the end of the main text ends the list. A comment is made only for a
      reference that has an annotation text of the same index. */
  function RefsFrom(pieces: Option<seq<Piece>>, ccpText: u32, table: seq<byte>, pos: nat, i: nat,
                    texts: seq<string>, acc: seq<Annotation>): Option<seq<Annotation>>
    decreases |table| - pos
  {
    match U32At(table, pos)
    case None => None
    case Some(cp) =>
      if cp >= ccpText then Some(acc)
      else
        match Translate(pieces, cp)
        case None => None
        case Some(off) =>
          var acc' := if i < |texts| then acc + [Annotation(off.0, texts[i], "")] else acc;
          RefsFrom(pieces, ccpText, table, pos + 4, i + 1, texts, acc')
  }

  /** The ATRD loop: one record per comment from `pos`; the comment's author
      is set only when `ibst` indexes an owner. */
  function AuthorsFrom(table: seq<byte>, pos: nat, cs: seq<Annotation>, i: nat, owners: seq<string>): Option<seq<Annotation>>
    requires i <= |cs|
    decreases |cs| - i
  {
    if i == |cs| then Some(cs)
    else if pos + ATRD_SIZE > |table| then None
    else
      var ibst := S16At(table, pos + ATRD_IBST).value;
      var cs' := if 0 <= ibst < |owners| then cs[i := cs[i].(author := owners[ibst])] else cs;
      AuthorsFrom(table, pos + ATRD_SIZE, cs', i + 1, owners)
  }

  function TextsOf(doc: WordDocument): Option<seq<string>>
    requires doc.wordStream.Some? && doc.tableStream.Some?
  {
    Texts(doc, doc.wordStream.value, doc.tableStream.value)
  }

  function OwnersOf(doc: WordDocument): Option<seq<string>>
    requires doc.tableStream.Some?
  {
    OwnersFrom(doc.tableStream.value, doc.fib.fcGrpXstAtnOwners, 0, doc.fib.lcbGrpXstAtnOwners, [])
  }

  /** All comments of the document, or None when extraction fails. */
  function CommentsOf(doc: WordDocument): (r: Option<seq<Annotation>>)
    ensures doc.fib.lcbPlcfandTxt == 0 ==> r == Some([])
    ensures doc.fib.lcbPlcfandTxt != 0 && (doc.wordStream.None? || doc.tableStream.None?) ==> r.None?
  {
    if doc.fib.lcbPlcfandTxt == 0 then Some([])
    else if doc.wordStream.None? || doc.tableStream.None? then None
    else Assemble(doc, doc.tableStream.value, TextsOf(doc), OwnersOf(doc))
  }

  /** The last two passes, over the texts and owners read before: the
      comments from the references, then their authors from the ATRD
      records that follow the reference CPs. */
  function Assemble(doc: WordDocument, table: seq<byte>, texts: Option<seq<string>>,
                    owners: Option<seq<string>>): Option<seq<Annotation>>
  {
    if texts.None? || owners.None? then None
    else
      match RefsFrom(doc.pieces, doc.fib.ccpText, table, doc.fib.fcPlcfandRef, 0, texts.value, [])
      case None => None
      case Some(cs) => AuthorsFrom(table, doc.fib.fcPlcfandRef + 4 * (|cs| + 1), cs, 0, owners.value)
  }

  // ---------------------------------------------------------------------
  // The extraction as the source performs it, on stream readers.

  method ReadAnnotationText(pieces: Option<seq<Piece>>, atn: u32, word: StreamReader, begin: u32, end: u32)
    returns (r: Option<string>)
    modifies word
    ensures r == AnnotationText(pieces, atn, word.data, begin, end)
  {
    var first := CpToStreamOffset(pieces, Wrap32(atn + begin));
    var last := CpToStreamOffset(pieces, Wrap32(atn + end));
    r := ReadTextBetween(word, first, last);
  }

  method ReadTextBetween(word: StreamReader, first: Option<(u32, bool)>, last: Option<(u32, bool)>)
    returns (r: Option<string>)
    modifies word
    ensures r == TextBetween(word.data, first, last)
  {
    if first.None? || last.None? {
      return None;
    }
    r := ReadTextAt(word, first.value, last.value.0);
  }

  method ReadTextAt(word: StreamReader, first: (u32, bool), end: u32) returns (r: Option<string>)
    modifies word
    ensures r == TextAt(word.data, first, end)
  {
    word.Seek(first.0);
    var mark := word.ReadU8();
    if mark.None? {
      return None;
    }
    if MarkRejected(mark.value) {
      return None;
    }
    r := ReadText(word, Wrap32(end as int - 1), first.1);
  }

  /** The inner text loop, from the reader's position. */
  method ReadText(word: StreamReader, bound: u32, unicode: bool) returns (r: Option<string>)
    requires word.pos <= |word.data|
    modifies word
    ensures r == TextFrom(word.data, old(word.pos), bound, unicode, "")
  {
    var text := "";
    while word.pos < bound
      invariant word.pos <= |word.data|
      invariant TextFrom(word.data, word.pos, bound, unicode, text) == TextFrom(word.data, old(word.pos), bound, unicode, "")
      decreases |word.data| - word.pos
    {
      if unicode {
        word.Skip(1);
      }
      var ch := word.ReadU8();
      if ch.None? {
        return None;
      }
      var b := ch.value;
      ghost var before := text;
      if 32 <= b < 0x80 || 8 <= b <= 13 {
        if b == 13 {
          text := text + "\n";
        } else {
          text := text + [ByteChar(b)];
        }
      }
      assert text == before + Keep(b);
    }
    return Some(text);
  }

  method ReadTexts(pieces: Option<seq<Piece>>, atn: u32, lastCp: u32, word: StreamReader, table: StreamReader,
                   offset: nat) returns (r: Option<seq<string>>)
    requires word != table
    modifies word, table
    ensures r == TextsAt(pieces, atn, lastCp, word.data, table.data, offset)
  {
    table.Seek(offset);
    var first := table.ReadU32();
    if first.None? {
      return None;
    }
    var begin: u32 := first.value;
    var texts: seq<string> := [];
    while true
      invariant TextsFrom(pieces, atn, lastCp, word.data, table.data, table.pos, begin, texts)
             == TextsAt(pieces, atn, lastCp, word.data, table.data, offset)
      decreases |table.data| - table.pos
    {
      ghost var p := table.pos;
      var end := table.ReadU32();
      if end.None? {
        return None;
      }
      var text := ReadAnnotationText(pieces, atn, word, begin, end.value);
      if text.None? {
        return None;
      }
      assert table.pos == p + 4;
      assert TextsFrom(pieces, atn, lastCp, word.data, table.data, p, begin, texts)
          == if end.value >= lastCp then Some(texts + [text.value])
             else TextsFrom(pieces, atn, lastCp, word.data, table.data, p + 4, end.value, texts + [text.value]);
      texts := texts + [text.value];
      if end.value >= lastCp {
        return Some(texts);
      }
      begin := end.value;
    }
  }

  method ReadOwnerName(table: StreamReader, n: nat) returns (r: Option<string>)
    modifies table
    ensures r == OwnerName(table.data, old(table.pos), n, "")
    ensures r.Some? ==> table.pos == old(table.pos) + 2 * n
  {
    var name := "";
    var k := 0;
    while k < n
      invariant k <= n
      invariant table.pos == old(table.pos) + 2 * k
      invariant OwnerName(table.data, table.pos, n - k, name) == OwnerName(table.data, old(table.pos), n, "")
    {
      var ch := table.ReadS16();
      if ch.None? {
        return None;
      }
      name := name + [LowByteChar(ch.value)];
      k := k + 1;
    }
    return Some(name);
  }

  method ReadOwners(table: StreamReader, offset: u32, len: u32) returns (r: Option<seq<string>>)
    modifies table
    ensures r == OwnersFrom(table.data, offset, 0, len, [])
  {
    table.Seek(offset);
    var owners: seq<string> := [];
    var total := 0;
    while total < len
      invariant 0 <= total
      invariant OwnersFrom(table.data, table.pos, total, len, owners) == OwnersFrom(table.data, offset, 0, len, [])
      decreases len - total
    {
      var n := table.ReadU16();
      if n.None? {
        return None;
      }
      total := total + 2;
      if n.value * 2 + total > len {
        // a corrupt table: no owner is kept
        owners := [];
        return Some(owners);
      }
      var name := ReadOwnerName(table, n.value);
      if name.None? {
        return None;
      }
      total := total + 2 * n.value;
      owners := owners + [name.value];
    }
    return Some(owners);
  }

  method ReadRefs(pieces: Option<seq<Piece>>, ccpText: u32, table: StreamReader, offset: nat, texts: seq<string>)
    returns (r: Option<seq<Annotation>>)
    modifies table
    ensures r == RefsFrom(pieces, ccpText, table.data, offset, 0, texts, [])
  {
    table.Seek(offset);
    var cs: seq<Annotation> := [];
    var i := 0;
    while true
      invariant RefsFrom(pieces, ccpText, table.data, table.pos, i, texts, cs)
             == RefsFrom(pieces, ccpText, table.data, offset, 0, texts, [])
      decreases |table.data| - table.pos
    {
      var cp := table.ReadU32();
      if cp.None? {
        return None;
      }
      if cp.value >= ccpText {
        return Some(cs);
      }
      var off := CpToStreamOffset(pieces, cp.value);
      if off.None? {
        return None;
      }
      if i < |texts| {
        cs := cs + [Annotation(off.value.0, texts[i], "")];
      }
      i := i + 1;
    }
  }

  method ReadAuthors(table: StreamReader, offset: nat, cs: seq<Annotation>, owners: seq<string>) returns (r: Option<seq<Annotation>>)
    modifies table
    ensures r == AuthorsFrom(table.data, offset, cs, 0, owners)
  {
    table.Seek(offset);
    var result := cs;
    var i := 0;
    while i < |result|
      invariant i <= |result|
      invariant AuthorsFrom(table.data, table.pos, result, i, owners) == AuthorsFrom(table.data, offset, cs, 0, owners)
    {
      if table.pos + ATRD_SIZE > |table.data| {
        return None;
      }
      var ibst := S16At(table.data, table.pos + ATRD_IBST).value;
      table.Skip(ATRD_SIZE);
      if 0 <= ibst < |owners| {
        result := result[i := result[i].(author := owners[ibst])];
      }
      i := i + 1;
    }
    return Some(result);
  }

  /** The whole extraction on fresh readers of the two streams. */
  method ParseComments(doc: WordDocument) returns (r: Option<seq<Annotation>>)
    ensures r == CommentsOf(doc)
  {
    if doc.fib.lcbPlcfandTxt == 0 {
      return Some([]);
    }
    if doc.wordStream.None? {
      return None;
    }
    var word := new StreamReader(doc.wordStream.value);
    if doc.tableStream.None? {
      return None;
    }
    var table := new StreamReader(doc.tableStream.value);
    var texts := ReadTexts(doc.pieces, AtnPartCp(doc.fib), Wrap32(doc.fib.ccpAtn as int - 1), word, table,
                           doc.fib.fcPlcfandTxt);
    if texts.None? {
      assert TextsOf(doc) == texts;
      return None;
    }
    var owners := ReadOwners(table, doc.fib.fcGrpXstAtnOwners, doc.fib.lcbGrpXstAtnOwners);
    if owners.None? {
      assert OwnersOf(doc) == owners;
      return None;
    }
    r := AssembleComments(doc, table, texts.value, owners.value);
    assert TextsOf(doc) == texts && OwnersOf(doc) == owners;
  }

  method AssembleComments(doc: WordDocument, table: StreamReader, texts: seq<string>, owners: seq<string>)
    returns (r: Option<seq<Annotation>>)
    modifies table
    ensures r == Assemble(doc, table.data, Some(texts), Some(owners))
  {
    var cs := ReadRefs(doc.pieces, doc.fib.ccpText, table, doc.fib.fcPlcfandRef, texts);
    if cs.None? {
      return None;
    }
    r := ReadAuthors(table, doc.fib.fcPlcfandRef + 4 * (|cs.value| + 1), cs.value, owners);
  }

  // ---------------------------------------------------------------------
  // Properties of the extraction.

  predicate AllAllowed(s: string)
  {
    forall k :: 0 <= k < |s| ==> Allowed(s[k])
  }

  lemma {:induction false} TextFromAllowed(word: seq<byte>, pos: nat, bound: u32, unicode: bool, acc: string)
    requires AllAllowed(acc)
    requires TextFrom(word, pos, bound, unicode, acc).Some?
    ensures AllAllowed(TextFrom(word, pos, bound, unicode, acc).value)
    decreases |word| - pos
  {
    if pos < bound {
      var p := if unicode then pos + 1 else pos;
      var next := acc + Keep(word[p]);
      assert forall k :: |acc| <= k < |next| ==> next[k] in Keep(word[p]);
      TextFromAllowed(word, p + 1, bound, unicode, next);
    }
  }

  lemma {:induction false} TextsFromAllowed(pieces: Option<seq<Piece>>, atn: u32, lastCp: u32, word: seq<byte>,
                                            table: seq<byte>, pos: nat, begin: u32, acc: seq<string>)
    requires forall j :: 0 <= j < |acc| ==> AllAllowed(acc[j])
    requires TextsFrom(pieces, atn, lastCp, word, table, pos, begin, acc).Some?
    ensures forall j :: 0 <= j < |TextsFrom(pieces, atn, lastCp, word, table, pos, begin, acc).value| ==>
              AllAllowed(TextsFrom(pieces, atn, lastCp, word, table, pos, begin, acc).value[j])
    decreases |table| - pos
  {
    var end := U32At(table, pos).value;
    var text := AnnotationText(pieces, atn, word, begin, end).value;
    TextBetweenAllowed(word, Translate(pieces, Wrap32(atn + begin)), Translate(pieces, Wrap32(atn + end)));
    if end < lastCp {
      TextsFromAllowed(pieces, atn, lastCp, word, table, pos + 4, end, acc + [text]);
    }
  }

  lemma TextsAtAllowed(pieces: Option<seq<Piece>>, atn: u32, lastCp: u32, word: seq<byte>, table: seq<byte>, pos: nat)
    requires TextsAt(pieces, atn, lastCp, word, table, pos).Some?
    ensures forall j :: 0 <= j < |TextsAt(pieces, atn, lastCp, word, table, pos).value| ==>
              AllAllowed(TextsAt(pieces, atn, lastCp, word, table, pos).value[j])
  {
    TextsFromAllowed(pieces, atn, lastCp, word, table, pos + 4, U32At(table, pos).value, []);
  }

  lemma TextBetweenAllowed(word: seq<byte>, first: Option<(u32, bool)>, last: Option<(u32, bool)>)
    requires TextBetween(word, first, last).Some?
    ensures AllAllowed(TextBetween(word, first, last).value)
  {
    TextFromAllowed(word, first.value.0 as int + 1, Wrap32(last.value.0 as int - 1), first.value.1, "");
  }

  /** The number of reference CPs from `pos` that come before the first one
      at or past `ccpText`; None when the table ends first. */
  function RefCount(ccpText: u32, table: seq<byte>, pos: nat): Option<nat>
    decreases |table| - pos
  {
    match U32At(table, pos)
    case None => None
    case Some(cp) =>
      if cp >= ccpText then Some(0)
      else
        match RefCount(ccpText, table, pos + 4)
        case None => None
        case Some(n) => Some(n + 1)
  }

  /** The reference at `at` is a CP before the end of the main text, and
      the piece table translates it to the stream offset `fc`. */
  predicate RefersTo(pieces: Option<seq<Piece>>, ccpText: u32, table: seq<byte>, at: nat, fc: u32)
  {
    U32At(table, at).Some? && U32At(table, at).value < ccpText
    && Translate(pieces, U32At(table, at).value).Some?
    && Translate(pieces, U32At(table, at).value).value.0 == fc
  }

  function Min(a: int, b: int): int
  {
    if a < b then a else b
  }

  /** The owner index of the ATRD record at `at`. */
  function AtrdIbst(table: seq<byte>, at: nat): int
    requires at + ATRD_SIZE <= |table|
  {
    S16At(table, at + ATRD_IBST).value
  }

  /** The references pair comment `k` with annotation text `k`: no more
      comments than texts, each carrying its text and no author yet. */
  lemma {:induction false} RefsZip(pieces: Option<seq<Piece>>, ccpText: u32, table: seq<byte>, pos: nat, i: nat,
                                   texts: seq<string>, acc: seq<Annotation>)
    requires |acc| == Min(i, |texts|)
    requires forall k :: 0 <= k < |acc| ==> acc[k].text == texts[k] && acc[k].author == ""
    requires RefsFrom(pieces, ccpText, table, pos, i, texts, acc).Some?
    ensures var cs := RefsFrom(pieces, ccpText, table, pos, i, texts, acc).value;
            |cs| <= |texts| && forall k :: 0 <= k < |cs| ==> cs[k].text == texts[k] && cs[k].author == ""
    decreases |table| - pos
  {
    var cp := U32At(table, pos).value;
    if cp < ccpText {
      var off := Translate(pieces, cp).value;
      var acc' := if i < |texts| then acc + [Annotation(off.0, texts[i], "")] else acc;
      RefsZip(pieces, ccpText, table, pos + 4, i + 1, texts, acc');
    }
  }

  /** The number of comments is the number of leading references before
      the end of the main text, from reference `i` on, but no more than
      there are texts. */
  lemma {:induction false} RefsCount(pieces: Option<seq<Piece>>, ccpText: u32, table: seq<byte>, pos: nat, i: nat,
                                     texts: seq<string>, acc: seq<Annotation>)
    requires |acc| == Min(i, |texts|)
    requires RefsFrom(pieces, ccpText, table, pos, i, texts, acc).Some?
    ensures RefCount(ccpText, table, pos).Some?
    ensures |RefsFrom(pieces, ccpText, table, pos, i, texts, acc).value|
            == Min(i + RefCount(ccpText, table, pos).value, |texts|)
    decreases |table| - pos
  {
    var cp := U32At(table, pos).value;
    if cp < ccpText {
      var off := Translate(pieces, cp).value;
      var acc' := if i < |texts| then acc + [Annotation(off.0, texts[i], "")] else acc;
      RefsCount(pieces, ccpText, table, pos + 4, i + 1, texts, acc');
    }
  }

  /** Comment `k` carries the translated offset of reference `k`, a CP
      before the end of the main text; reference `k` is at `ref + 4 * k`. */
  lemma {:induction false} RefsOffsets(pieces: Option<seq<Piece>>, ccpText: u32, table: seq<byte>, ref: nat, pos: nat,
                                       i: nat, texts: seq<string>, acc: seq<Annotation>)
    requires pos == ref + 4 * i && |acc| == Min(i, |texts|)
    requires forall k :: 0 <= k < |acc| ==> RefersTo(pieces, ccpText, table, ref + 4 * k, acc[k].fc)
    requires RefsFrom(pieces, ccpText, table, pos, i, texts, acc).Some?
    ensures var cs := RefsFrom(pieces, ccpText, table, pos, i, texts, acc).value;
            forall k :: 0 <= k < |cs| ==> RefersTo(pieces, ccpText, table, ref + 4 * k, cs[k].fc)
    decreases |table| - pos
  {
    var cp := U32At(table, pos).value;
    if cp < ccpText {
      var off := Translate(pieces, cp).value;
      var acc' := if i < |texts| then acc + [Annotation(off.0, texts[i], "")] else acc;
      assert i < |texts| ==> RefersTo(pieces, ccpText, table, ref + 4 * i, acc'[i].fc);
      RefsOffsets(pieces, ccpText, table, ref, pos + 4, i + 1, texts, acc');
    }
  }

  /** The references pass over the whole table: comment `k` has text `k`
      and the offset of reference `k`, and there are as many comments as
      leading references before the end of the main text, but no more than
      texts. */
  lemma RefsJoin(pieces: Option<seq<Piece>>, ccpText: u32, table: seq<byte>, ref: nat, texts: seq<string>)
    requires RefsFrom(pieces, ccpText, table, ref, 0, texts, []).Some?
    ensures RefCount(ccpText, table, ref).Some?
    ensures var cs := RefsFrom(pieces, ccpText, table, ref, 0, texts, []).value;
            |cs| == Min(RefCount(ccpText, table, ref).value, |texts|)
            && (forall k :: 0 <= k < |cs| ==> cs[k].text == texts[k] && cs[k].author == "")
            && (forall k :: 0 <= k < |cs| ==> RefersTo(pieces, ccpText, table, ref + 4 * k, cs[k].fc))
  {
    RefsZip(pieces, ccpText, table, ref, 0, texts, []);
    RefsCount(pieces, ccpText, table, ref, 0, texts, []);
    RefsOffsets(pieces, ccpText, table, ref, ref, 0, texts, []);
  }

  /** The position of the `k`-th ATRD record of a run that starts at `base`. */
  function AtrdAt(base: nat, k: nat): nat
  {
    base + ATRD_SIZE * k
  }

  /** The ATRD pass keeps each comment's offset and text, leaves the
      comments before `i` alone, and gives comment `k` from `i` on the
      owner that the `k`-th record from `base` indexes, or keeps its author
      when that index is not an owner's. */
  lemma {:induction false} AuthorsFromOwners(table: seq<byte>, base: nat, pos: nat, cs: seq<Annotation>, i: nat,
                                             owners: seq<string>)
    requires i <= |cs| && pos == AtrdAt(base, i)
    requires AuthorsFrom(table, pos, cs, i, owners).Some?
    ensures var r := AuthorsFrom(table, pos, cs, i, owners).value;
            |r| == |cs|
            && (forall k :: 0 <= k < |cs| ==> r[k].fc == cs[k].fc && r[k].text == cs[k].text)
            && (forall k :: 0 <= k < i ==> r[k].author == cs[k].author)
            && (forall k :: i <= k < |cs| ==>
                  AtrdAt(base, k) + ATRD_SIZE <= |table|
                  && var ibst := AtrdIbst(table, AtrdAt(base, k));
                     r[k].author == if 0 <= ibst < |owners| then owners[ibst] else cs[k].author)
    decreases |cs| - i
  {
    if i < |cs| {
      var ibst := S16At(table, pos + ATRD_IBST).value;
      var cs' := if 0 <= ibst < |owners| then cs[i := cs[i].(author := owners[ibst])] else cs;
      assert AtrdAt(base, i + 1) == pos + ATRD_SIZE by { assert ATRD_SIZE == 30; }
      AuthorsFromOwners(table, base, pos + ATRD_SIZE, cs', i + 1, owners);
    }
  }

  /** Comment `c` is comment `k` of the `n` that the tables give: it has
      annotation text `k`, the stream offset of reference `k` from `ref` (a
      CP before the end of the main text), and the owner that ATRD record
      `k` indexes, or no author when that index is not an owner's. The
      ATRD records follow the `n + 1` reference CPs. */
  predicate JoinedAt(pieces: Option<seq<Piece>>, ccpText: u32, table: seq<byte>, ref: nat, n: nat,
                     texts: seq<string>, owners: seq<string>, k: nat, c: Annotation)
  {
    k < |texts| && c.text == texts[k]
    && RefersTo(pieces, ccpText, table, ref + 4 * k, c.fc)
    && AtrdAt(ref + 4 * (n + 1), k) + ATRD_SIZE <= |table|
    && c.author == (var ibst := AtrdIbst(table, AtrdAt(ref + 4 * (n + 1), k));
                    if 0 <= ibst < |owners| then owners[ibst] else "")
  }

  /** The join of the three tables: comment `k` is joined from text `k`,
      reference `k` and ATRD record `k`, and there are as many comments as
      leading references before the end of the main text, but no more than
      texts. */
  lemma AssembleMatches(doc: WordDocument, table: seq<byte>, texts: seq<string>, owners: seq<string>)
    requires Assemble(doc, table, Some(texts), Some(owners)).Some?
    ensures RefCount(doc.fib.ccpText, table, doc.fib.fcPlcfandRef).Some?
    ensures var cs := Assemble(doc, table, Some(texts), Some(owners)).value;
            |cs| == Min(RefCount(doc.fib.ccpText, table, doc.fib.fcPlcfandRef).value, |texts|)
            && forall k :: 0 <= k < |cs| ==>
                 JoinedAt(doc.pieces, doc.fib.ccpText, table, doc.fib.fcPlcfandRef, |cs|, texts, owners, k, cs[k])
  {
    var ref := doc.fib.fcPlcfandRef;
    RefsJoin(doc.pieces, doc.fib.ccpText, table, ref, texts);
    var cs := RefsFrom(doc.pieces, doc.fib.ccpText, table, ref, 0, texts, []).value;
    var base := ref + 4 * (|cs| + 1);
    assert Assemble(doc, table, Some(texts), Some(owners)) == AuthorsFrom(table, base, cs, 0, owners);
    AuthorsFromOwners(table, base, base, cs, 0, owners);
    var r := AuthorsFrom(table, base, cs, 0, owners).value;
    JoinParts(doc.pieces, doc.fib.ccpText, table, ref, texts, owners, cs, r);
  }

  /** Comments that carry their texts and reference offsets, given their
      authors from the ATRD records after the references, are the join. */
  lemma JoinParts(pieces: Option<seq<Piece>>, ccpText: u32, table: seq<byte>, ref: nat,
                  texts: seq<string>, owners: seq<string>, cs: seq<Annotation>, r: seq<Annotation>)
    requires |cs| <= |texts| && |r| == |cs|
    requires forall k :: 0 <= k < |cs| ==> cs[k].text == texts[k] && cs[k].author == ""
    requires forall k :: 0 <= k < |cs| ==> RefersTo(pieces, ccpText, table, ref + 4 * k, cs[k].fc)
    requires forall k :: 0 <= k < |cs| ==> r[k].fc == cs[k].fc && r[k].text == cs[k].text
    requires forall k :: 0 <= k < |cs| ==>
               AtrdAt(ref + 4 * (|cs| + 1), k) + ATRD_SIZE <= |table|
               && var ibst := AtrdIbst(table, AtrdAt(ref + 4 * (|cs| + 1), k));
                  r[k].author == if 0 <= ibst < |owners| then owners[ibst] else cs[k].author
    ensures forall k :: 0 <= k < |r| ==> JoinedAt(pieces, ccpText, table, ref, |r|, texts, owners, k, r[k])
  {
    forall k | 0 <= k < |r|
      ensures JoinedAt(pieces, ccpText, table, ref, |r|, texts, owners, k, r[k])
    {
    }
  }

  /** The same join, for the comments of a whole document. */
  lemma CommentsMatchTables(doc: WordDocument)
    requires doc.fib.lcbPlcfandTxt != 0 && CommentsOf(doc).Some?
    ensures doc.wordStream.Some? && doc.tableStream.Some?
    ensures TextsOf(doc).Some? && OwnersOf(doc).Some?
    ensures RefCount(doc.fib.ccpText, doc.tableStream.value, doc.fib.fcPlcfandRef).Some?
    ensures var cs := CommentsOf(doc).value;
            |cs| == Min(RefCount(doc.fib.ccpText, doc.tableStream.value, doc.fib.fcPlcfandRef).value,
                        |TextsOf(doc).value|)
            && forall k :: 0 <= k < |cs| ==>
                 JoinedAt(doc.pieces, doc.fib.ccpText, doc.tableStream.value, doc.fib.fcPlcfandRef, |cs|,
                          TextsOf(doc).value, OwnersOf(doc).value, k, cs[k])
  {
    var texts, owners := TextsOf(doc), OwnersOf(doc);
    assert CommentsOf(doc) == Assemble(doc, doc.tableStream.value, texts, owners);
    AssembleMatches(doc, doc.tableStream.value, texts.value, owners.value);
  }

  /** Every annotation text of a document holds only allowed characters. */
  lemma TextsOfAllowed(doc: WordDocument)
    requires doc.wordStream.Some? && doc.tableStream.Some? && TextsOf(doc).Some?
    ensures forall j :: 0 <= j < |TextsOf(doc).value| ==> AllAllowed(TextsOf(doc).value[j])
  {
    TextsAtAllowed(doc.pieces, AtnPartCp(doc.fib), Wrap32(doc.fib.ccpAtn - 1), doc.wordStream.value,
                   doc.tableStream.value, doc.fib.fcPlcfandTxt);
  }

  /** Every character of every comment text is a kept character: a tab,
      line feed, vertical tab, form feed or printable ASCII; carriage
      returns have become line feeds. */
  lemma CommentTextsFiltered(doc: WordDocument)
    requires CommentsOf(doc).Some?
    ensures forall k :: 0 <= k < |CommentsOf(doc).value| ==> AllAllowed(CommentsOf(doc).value[k].text)
  {
    if doc.fib.lcbPlcfandTxt != 0 {
      CommentsMatchTables(doc);
      var cs, texts := CommentsOf(doc).value, TextsOf(doc).value;
      TextsOfAllowed(doc);
      forall k | 0 <= k < |cs|
        ensures AllAllowed(cs[k].text)
      {
        assert JoinedAt(doc.pieces, doc.fib.ccpText, doc.tableStream.value, doc.fib.fcPlcfandRef, |cs|,
                        texts, OwnersOf(doc).value, k, cs[k]);
      }
    }
  }

  /** Where the owners walk stands, as (position, bytes consumed), after it
      has read `k` whole names from `pos`; None when it ends, fails or
      abandons the list before that. */
  function OwnersWalk(table: seq<byte>, pos: nat, total: nat, len: u32, k: nat): Option<(nat, nat)>
    decreases k
  {
    if k == 0 then Some((pos, total))
    else if total >= len then None
    else
      match U16At(table, pos)
      case None => None
      case Some(n) =>
        if n * 2 + (total + 2) > len || OwnerName(table, pos + 2, n, "").None? then None
        else OwnersWalk(table, pos + 2 + 2 * n, total + 2 + 2 * n, len, k - 1)
  }

  /** Whatever names were read before, an owner entry reached by the walk
      that claims more bytes than the table has left abandons the list. */
  lemma {:induction false} OwnersAbandoned(table: seq<byte>, pos: nat, total: nat, len: u32, acc: seq<string>,
                                           k: nat, p: nat, t: nat, n: u16)
    requires OwnersWalk(table, pos, total, len, k) == Some((p, t))
    requires t < len && U16At(table, p) == Some(n) && n * 2 + t + 2 > len
    ensures OwnersFrom(table, pos, total, len, acc) == Some([])
    decreases k
  {
    if k > 0 {
      var m: nat := U16At(table, pos).value;
      var name := OwnerName(table, pos + 2, m, "").value;
      OwnersAbandoned(table, pos + 2 + 2 * m, total + 2 + 2 * m, len, acc + [name], k - 1, p, t, n);
    }
  }

  /** An owners table with an owner entry, the first or any later one the
      walk reaches, that claims more bytes than the table has left is
      abandoned: the comments are still extracted, all without author. */
  lemma CorruptOwnersTable(doc: WordDocument, k: nat, p: nat, t: nat, n: u16)
    requires doc.fib.lcbPlcfandTxt != 0 && doc.tableStream.Some?
    requires OwnersWalk(doc.tableStream.value, doc.fib.fcGrpXstAtnOwners, 0, doc.fib.lcbGrpXstAtnOwners, k) == Some((p, t))
    requires t < doc.fib.lcbGrpXstAtnOwners
    requires U16At(doc.tableStream.value, p) == Some(n) && n * 2 + t + 2 > doc.fib.lcbGrpXstAtnOwners
    ensures OwnersOf(doc) == Some([])
    ensures CommentsOf(doc).Some? ==> forall k :: 0 <= k < |CommentsOf(doc).value| ==> CommentsOf(doc).value[k].author == ""
  {
    OwnersAbandoned(doc.tableStream.value, doc.fib.fcGrpXstAtnOwners, 0, doc.fib.lcbGrpXstAtnOwners, [], k, p, t, n);
    if CommentsOf(doc).Some? {
      CommentsMatchTables(doc);
    }
  }
}
