/** The EML (e-mail message) parser: it reads a message line by line, checks
    that it is a mail message, and walks its MIME part tree, sending the
    inline text or HTML body, each attachment, and the parts of multipart
    entities. MIME decoding and charset conversion belong to libraries
    outside this model: a parsed message and the converter are given. */
module Eml {
  import opened Common

  datatype Disposition = DispAttachment | DispInline | DispNone

  datatype MediaType = MediaText | MediaMultipart | MediaOther(name: string)

  /** A MIME entity as the mail library presents it. */
  datatype Mime = Mime(
    disposition: Disposition, mediaType: MediaType, subtype: string, charset: string,
    content: string, name: string, parts: seq<Mime>)

  /** Charset conversion to UTF-8 of a text in the given charset; None when
      the converter reports an error (the text is then kept as it is). */
  type Converter = (string, string) -> Option<string>

  /** The consumer's answer to a tag: whether it asks to skip what follows. */
  type SkipDecision = Tag -> bool

  // ---------------------------------------------------------------------
  // Carriage returns.

  /** The text with every carriage return removed. */
  function WithoutCR(s: string): string
    decreases |s|
  {
    if s == [] then []
    else WithoutCR(s[..|s| - 1]) + (if s[|s| - 1] == '\r' then [] else [s[|s| - 1]])
  }

  /** A character survives exactly when it was there and is not a carriage
      return. */
  lemma {:induction false} WithoutCRMembers(s: string, c: char)
    ensures c in WithoutCR(s) <==> c in s && c != '\r'
    decreases |s|
  {
    if s != [] {
      var init := s[..|s| - 1];
      WithoutCRMembers(init, c);
      assert s == init + [s[|s| - 1]];
    }
  }

  /** A text without carriage returns is left as it is. */
  lemma {:induction false} WithoutCRKeeps(s: string)
    requires '\r' !in s
    ensures WithoutCR(s) == s
    decreases |s|
  {
    if s != [] {
      var init := s[..|s| - 1];
      assert s == init + [s[|s| - 1]];
      WithoutCRKeeps(init);
    }
  }

  /** The erase-remove idiom on the text buffer: the characters other than
      carriage returns are moved to the front, in order, and the buffer is
      cut to their number. */
  method RemoveCarriageReturns(a: array<char>) returns (n: nat)
    modifies a
    ensures n <= a.Length && a[..n] == WithoutCR(old(a[..]))
  {
    ghost var orig := a[..];
    n := 0;
    for i := 0 to a.Length
      invariant n <= i
      invariant a[..n] == WithoutCR(orig[..i])
      invariant a[i..] == orig[i..]
    {
      assert orig[..i + 1][..i] == orig[..i];
      assert a[i] == orig[i];
      if a[i] != '\r' {
        a[n] := a[i];
        n := n + 1;
        assert a[..n] == a[..n - 1] + [orig[i]];
      }
      assert a[i + 1..] == orig[i + 1..];
    }
    assert orig[..a.Length] == orig;
  }

  // ---------------------------------------------------------------------
  // Lower case in the C locale: only the ASCII capitals change.

  predicate IsUpper(c: char)
  {
    'A' <= c <= 'Z'
  }

  function LowerChar(c: char): char
  {
    if IsUpper(c) then (c as int - 'A' as int + 'a' as int) as char else c
  }

  function AsciiLower(s: string): (r: string)
    ensures |r| == |s|
    ensures forall i :: 0 <= i < |r| ==> !IsUpper(r[i])
    ensures forall i :: 0 <= i < |s| && !IsUpper(s[i]) ==> r[i] == s[i]
    ensures forall i :: 0 <= i < |s| && IsUpper(s[i]) ==> r[i] as int == s[i] as int + 32
  {
    seq(|s|, i requires 0 <= i < |s| => LowerChar(s[i]))
  }

  lemma AsciiLowerIdempotent(s: string)
    ensures AsciiLower(AsciiLower(s)) == AsciiLower(s)
  {
  }

  /** The in-place transform that lowers the extension. */
  method LowerInPlace(a: array<char>)
    modifies a
    ensures a[..] == AsciiLower(old(a[..]))
  {
    for i := 0 to a.Length
      invariant forall k :: 0 <= k < i ==> a[k] == LowerChar(old(a[k]))
      invariant forall k :: i <= k < a.Length ==> a[k] == old(a[k])
    {
      a[i] := LowerChar(a[i]);
    }
  }

  // ---------------------------------------------------------------------
  // Attachment extensions.

  /** The position of the last `c` in `s`, if any. */
  function LastIndexOf(s: string, c: char): (r: Option<nat>)
    ensures r.None? <==> c !in s
    ensures r.Some? ==> r.value < |s| && s[r.value] == c && c !in s[r.value + 1..]
    decreases |s|
  {
    if s == [] then None
    else if s[|s| - 1] == c then Some(|s| - 1)
    else
      var r := LastIndexOf(s[..|s| - 1], c);
      assert r.Some? ==> s[r.value + 1..] == s[..|s| - 1][r.value + 1..] + [s[|s| - 1]];
      assert r.None? ==> s == s[..|s| - 1] + [s[|s| - 1]];
      r
  }

  /** The text after the last dot of a file name: the whole name when it has
      no dot (the source adds one to the not-found position, which wraps to
      zero). */
  function Suffix(name: string): string
  {
    match LastIndexOf(name, '.')
    case None => name
    case Some(k) => name[k + 1..]
  }

  /** The extension an attachment is announced with. */
  function Extension(name: string): string
  {
    AsciiLower(Suffix(name))
  }

  /** The extension is the lowered suffix after the last dot, or the lowered
      name when there is no dot; it never holds a dot itself. */
  lemma ExtensionShape(name: string)
    ensures '.' !in name ==> Extension(name) == AsciiLower(name)
    ensures '.' in name ==>
              exists k :: 0 <= k < |name| && name[k] == '.' && '.' !in name[k + 1..]
                          && Extension(name) == AsciiLower(name[k + 1..])
    ensures '.' !in Extension(name)
  {
    var s := Suffix(name);
    assert '.' !in s;
    var e := Extension(name);
    forall i | 0 <= i < |e|
      ensures e[i] != '.'
    {
      assert s[i] != '.';
    }
  }

  // ---------------------------------------------------------------------
  // The part tree.

  predicate IsInlineText(m: Mime)
  {
    m.disposition != DispAttachment && m.mediaType == MediaText
  }

  predicate IsHtmlSubtype(subtype: string)
  {
    subtype == "html" || subtype == "xhtml"
  }

  /** The text after conversion from `charset`, or unchanged when the
      converter fails. */
  function Decoded(convert: Converter, charset: string, text: string): string
  {
    match convert(charset, text)
    case None => text
    case Some(t) => t
  }

  /** The body tag of an inline text part. */
  function InlineBody(m: Mime, convert: Converter): Tag
  {
    var plain := WithoutCR(m.content);
    var text := if m.charset != "" then Decoded(convert, m.charset, plain) else plain;
    if IsHtmlSubtype(m.subtype) then File(text, "eml_body.html")
    else if m.charset != "" then Text(text)
    else File(text, "eml_body.txt")
  }

  function AttachmentTag(m: Mime): Tag
  {
    Attachment(m.name, |m.content|, Extension(m.name))
  }

  /** An attachment: its tag, its content unless the consumer skips it, and
      the closing tag. */
  function AttachmentTags(m: Mime, skip: SkipDecision): seq<Tag>
  {
    var a := AttachmentTag(m);
    [a] + (if skip(a) then [] else [File(m.content, m.name)]) + [CloseAttachment]
  }

  predicate HasHtmlPart(parts: seq<Mime>)
  {
    exists k :: 0 <= k < |parts| && IsHtmlSubtype(parts[k].subtype)
  }

  /** The tags of a MIME entity. An inline text part gives its body and a
      blank line and nothing else; any other part that is not multipart is an
      attachment; then an alternative entity gives its HTML parts, or its
      first part when it has none, and any other entity all its parts. */
  function Extract(m: Mime, skip: SkipDecision, convert: Converter): seq<Tag>
    decreases m, |m.parts| + 2
  {
    if IsInlineText(m) then [InlineBody(m, convert), Text("\n\n")]
    else
      (if m.mediaType != MediaMultipart then AttachmentTags(m, skip) else [])
      + (if m.subtype == "alternative" then Alternative(m, skip, convert) else PartsFrom(m, 0, skip, convert))
  }

  function Alternative(m: Mime, skip: SkipDecision, convert: Converter): seq<Tag>
    decreases m, |m.parts| + 1
  {
    HtmlFrom(m, 0, skip, convert)
    + (if !HasHtmlPart(m.parts) && |m.parts| > 0 then Extract(m.parts[0], skip, convert) else [])
  }

  /** The tags of the parts from the `i`th on. */
  function PartsFrom(m: Mime, i: nat, skip: SkipDecision, convert: Converter): seq<Tag>
    requires i <= |m.parts|
    decreases m, |m.parts| - i
  {
    if i == |m.parts| then []
    else Extract(m.parts[i], skip, convert) + PartsFrom(m, i + 1, skip, convert)
  }

  /** The tags of the HTML parts from the `i`th on. */
  function HtmlFrom(m: Mime, i: nat, skip: SkipDecision, convert: Converter): seq<Tag>
    requires i <= |m.parts|
    decreases m, |m.parts| - i
  {
    if i == |m.parts| then []
    else
      (if IsHtmlSubtype(m.parts[i].subtype) then Extract(m.parts[i], skip, convert) else [])
      + HtmlFrom(m, i + 1, skip, convert)
  }

  /** How the walk of a part that is not inline text splits: the attachment
      block (for a part that is not multipart), then the sub-parts. */
  lemma ExtractSplit(m: Mime, skip: SkipDecision, convert: Converter, start: seq<Tag>, mid: seq<Tag>, fin: seq<Tag>)
    requires !IsInlineText(m)
    requires mid == start + (if m.mediaType != MediaMultipart then AttachmentTags(m, skip) else [])
    requires fin == mid + (if m.subtype == "alternative" then Alternative(m, skip, convert) else PartsFrom(m, 0, skip, convert))
    ensures fin == start + Extract(m, skip, convert)
  {
  }

  /** How the walk of an alternative splits: its HTML parts, then the
      fallback to its first part. */
  lemma AlternativeSplit(m: Mime, skip: SkipDecision, convert: Converter, start: seq<Tag>, mid: seq<Tag>, fin: seq<Tag>)
    requires mid == start + HtmlFrom(m, 0, skip, convert)
    requires fin == mid + (if !HasHtmlPart(m.parts) && |m.parts| > 0 then Extract(m.parts[0], skip, convert) else [])
    ensures fin == start + Alternative(m, skip, convert)
  {
  }

  // ---------------------------------------------------------------------
  // What the walk sends, stated over part lists.

  /** The tags of a list of parts, one after the other. */
  function ExtractAll(ps: seq<Mime>, skip: SkipDecision, convert: Converter): seq<Tag>
  {
    if ps == [] then [] else Extract(ps[0], skip, convert) + ExtractAll(ps[1..], skip, convert)
  }

  function HtmlOnly(ps: seq<Mime>): seq<Mime>
  {
    if ps == [] then []
    else (if IsHtmlSubtype(ps[0].subtype) then [ps[0]] else []) + HtmlOnly(ps[1..])
  }

  lemma {:induction false} PartsFromAll(m: Mime, i: nat, skip: SkipDecision, convert: Converter)
    requires i <= |m.parts|
    ensures PartsFrom(m, i, skip, convert) == ExtractAll(m.parts[i..], skip, convert)
    decreases |m.parts| - i
  {
    if i < |m.parts| {
      PartsFromAll(m, i + 1, skip, convert);
      assert m.parts[i..][1..] == m.parts[i + 1..];
    }
  }

  lemma {:induction false} HtmlFromAll(m: Mime, i: nat, skip: SkipDecision, convert: Converter)
    requires i <= |m.parts|
    ensures HtmlFrom(m, i, skip, convert) == ExtractAll(HtmlOnly(m.parts[i..]), skip, convert)
    decreases |m.parts| - i
  {
    if i < |m.parts| {
      HtmlFromAll(m, i + 1, skip, convert);
      var ps := m.parts[i..];
      assert ps[0] == m.parts[i] && ps[1..] == m.parts[i + 1..];
      if IsHtmlSubtype(ps[0].subtype) {
        var rest := HtmlOnly(ps[1..]);
        assert HtmlOnly(ps) == [ps[0]] + rest;
        assert ([ps[0]] + rest)[0] == ps[0] && ([ps[0]] + rest)[1..] == rest;
      } else {
        var rest := HtmlOnly(ps[1..]);
        assert HtmlOnly(ps) == [] + rest;
        assert [] + rest == rest;
        var tail := HtmlFrom(m, i + 1, skip, convert);
        assert HtmlFrom(m, i, skip, convert) == [] + tail;
        assert [] + tail == tail;
      }
    }
  }

  /** An inline text part sends its body then a blank line, and nothing from
      its sub-parts. Its body is an HTML file for the html and xhtml
      subtypes, otherwise a Text tag when a charset is given and a text file
      when none is; without a charset it holds no carriage return. */
  lemma InlineTags(m: Mime, skip: SkipDecision, convert: Converter)
    requires IsInlineText(m)
    ensures var tags := Extract(m, skip, convert);
            |tags| == 2 && tags[1] == Text("\n\n")
            && (IsHtmlSubtype(m.subtype) ==> tags[0].File? && tags[0].name == "eml_body.html")
            && (!IsHtmlSubtype(m.subtype) && m.charset != "" ==> tags[0].Text?)
            && (!IsHtmlSubtype(m.subtype) && m.charset == "" ==> tags[0].File? && tags[0].name == "eml_body.txt")
            && (m.charset == "" ==> tags[0] == (if IsHtmlSubtype(m.subtype) then File(WithoutCR(m.content), "eml_body.html")
                                                else File(WithoutCR(m.content), "eml_body.txt")))
  {
  }

  /** Without a charset, the inline body holds no carriage return. */
  lemma InlineBodyWithoutCR(m: Mime, convert: Converter)
    requires IsInlineText(m) && m.charset == ""
    ensures '\r' !in InlineBody(m, convert).source
  {
    WithoutCRMembers(m.content, '\r');
  }

  /** A part that is neither inline text nor multipart starts with its
      attachment block: the Attachment tag, the content exactly when the
      consumer does not skip it, and CloseAttachment. */
  lemma AttachmentBlock(m: Mime, skip: SkipDecision, convert: Converter)
    requires !IsInlineText(m) && m.mediaType != MediaMultipart
    ensures var tags := Extract(m, skip, convert);
            var a := Attachment(m.name, |m.content|, Extension(m.name));
            var n := if skip(a) then 2 else 3;
            |tags| >= n && tags[0] == a && tags[n - 1] == CloseAttachment
            && (!skip(a) ==> tags[1] == File(m.content, m.name))
  {
  }

  /** A multipart entity that is not an alternative sends all its parts, in
      order. */
  lemma {:induction false} MultipartSendsAll(m: Mime, skip: SkipDecision, convert: Converter)
    requires m.mediaType == MediaMultipart && m.subtype != "alternative"
    ensures Extract(m, skip, convert) == ExtractAll(m.parts, skip, convert)
  {
    PartsFromAll(m, 0, skip, convert);
    assert m.parts[0..] == m.parts;
  }

  /** A multipart alternative sends its HTML parts, in order, when it has
      some; otherwise only its first part, if any. */
  lemma {:induction false} AlternativeChooses(m: Mime, skip: SkipDecision, convert: Converter)
    requires m.mediaType == MediaMultipart && m.subtype == "alternative"
    ensures HasHtmlPart(m.parts) ==> Extract(m, skip, convert) == ExtractAll(HtmlOnly(m.parts), skip, convert)
    ensures !HasHtmlPart(m.parts) && |m.parts| > 0 ==> Extract(m, skip, convert) == Extract(m.parts[0], skip, convert)
    ensures m.parts == [] ==> Extract(m, skip, convert) == []
  {
    HtmlFromAll(m, 0, skip, convert);
    assert m.parts[0..] == m.parts;
    if !HasHtmlPart(m.parts) {
      NoHtmlNone(m.parts);
    }
  }

  lemma {:induction false} NoHtmlNone(ps: seq<Mime>)
    requires !HasHtmlPart(ps)
    ensures HtmlOnly(ps) == []
    decreases |ps|
  {
    if ps != [] {
      assert !HasHtmlPart(ps[1..]) by {
        forall k | 0 <= k < |ps[1..]|
          ensures !IsHtmlSubtype(ps[1..][k].subtype)
        {
          assert ps[1..][k] == ps[k + 1];
        }
      }
      NoHtmlNone(ps[1..]);
    }
  }

  // ---------------------------------------------------------------------
  // Attachment blocks are balanced.

  function Delta(t: Tag): int
  {
    if t.Attachment? then 1 else if t.CloseAttachment? then -1 else 0
  }

  /** Read from an attachment depth of `depth`: every CloseAttachment closes
      an open Attachment and none stays open at the end. */
  predicate BalancedFrom(tags: seq<Tag>, depth: int)
    decreases |tags|
  {
    if tags == [] then depth == 0
    else depth + Delta(tags[0]) >= 0 && BalancedFrom(tags[1..], depth + Delta(tags[0]))
  }

  predicate Balanced(tags: seq<Tag>)
  {
    BalancedFrom(tags, 0)
  }

  lemma {:induction false} BalancedFromAppend(a: seq<Tag>, b: seq<Tag>, depth: int)
    requires BalancedFrom(a, depth) && Balanced(b)
    ensures BalancedFrom(a + b, depth)
    decreases |a|
  {
    if a == [] {
      assert a + b == b;
    } else {
      assert (a + b)[0] == a[0] && (a + b)[1..] == a[1..] + b;
      BalancedFromAppend(a[1..], b, depth + Delta(a[0]));
    }
  }

  lemma {:induction false} BalancedAppend(a: seq<Tag>, b: seq<Tag>)
    requires Balanced(a) && Balanced(b)
    ensures Balanced(a + b)
  {
    BalancedFromAppend(a, b, 0);
  }

  lemma {:induction false} AttachmentTagsBalanced(m: Mime, skip: SkipDecision)
    ensures Balanced(AttachmentTags(m, skip))
  {
    var a := AttachmentTag(m);
    var tags := AttachmentTags(m, skip);
    var close: seq<Tag> := [CloseAttachment];
    assert BalancedFrom(close, 1) by {
      assert close[1..] == [];
    }
    if skip(a) {
      assert tags == [a] + close;
    } else {
      var f := [File(m.content, m.name)];
      assert tags == [a] + (f + close);
      assert BalancedFrom(f + close, 1) by {
        assert (f + close)[1..] == close;
      }
    }
  }

  lemma {:induction false} NoAttachmentBalanced(tags: seq<Tag>)
    requires forall i :: 0 <= i < |tags| ==> !tags[i].Attachment? && !tags[i].CloseAttachment?
    ensures Balanced(tags)
    decreases |tags|
  {
    if tags != [] {
      assert forall i :: 0 <= i < |tags[1..]| ==> tags[1..][i] == tags[i + 1];
      NoAttachmentBalanced(tags[1..]);
    }
  }

  /** Whatever the tree, every attachment the walk opens it closes, and it
      never closes one it has not opened. */
  lemma {:induction false} ExtractBalanced(m: Mime, skip: SkipDecision, convert: Converter)
    ensures Balanced(Extract(m, skip, convert))
    decreases m, |m.parts| + 2
  {
    if IsInlineText(m) {
      NoAttachmentBalanced(Extract(m, skip, convert));
    } else {
      var head := if m.mediaType != MediaMultipart then AttachmentTags(m, skip) else [];
      if m.mediaType != MediaMultipart {
        AttachmentTagsBalanced(m, skip);
      } else {
        NoAttachmentBalanced(head);
      }
      if m.subtype == "alternative" {
        AlternativeBalanced(m, skip, convert);
        BalancedAppend(head, Alternative(m, skip, convert));
      } else {
        PartsFromBalanced(m, 0, skip, convert);
        BalancedAppend(head, PartsFrom(m, 0, skip, convert));
      }
    }
  }

  lemma {:induction false} AlternativeBalanced(m: Mime, skip: SkipDecision, convert: Converter)
    ensures Balanced(Alternative(m, skip, convert))
    decreases m, |m.parts| + 1
  {
    HtmlFromBalanced(m, 0, skip, convert);
    if !HasHtmlPart(m.parts) && |m.parts| > 0 {
      ExtractBalanced(m.parts[0], skip, convert);
      BalancedAppend(HtmlFrom(m, 0, skip, convert), Extract(m.parts[0], skip, convert));
    } else {
      NoAttachmentBalanced([]);
      BalancedAppend(HtmlFrom(m, 0, skip, convert), []);
    }
  }

  lemma {:induction false} PartsFromBalanced(m: Mime, i: nat, skip: SkipDecision, convert: Converter)
    requires i <= |m.parts|
    ensures Balanced(PartsFrom(m, i, skip, convert))
    decreases m, |m.parts| - i
  {
    if i == |m.parts| {
      NoAttachmentBalanced([]);
    } else {
      ExtractBalanced(m.parts[i], skip, convert);
      PartsFromBalanced(m, i + 1, skip, convert);
      BalancedAppend(Extract(m.parts[i], skip, convert), PartsFrom(m, i + 1, skip, convert));
    }
  }

  lemma {:induction false} HtmlFromBalanced(m: Mime, i: nat, skip: SkipDecision, convert: Converter)
    requires i <= |m.parts|
    ensures Balanced(HtmlFrom(m, i, skip, convert))
    decreases m, |m.parts| - i
  {
    NoAttachmentBalanced([]);
    if i < |m.parts| {
      var here := if IsHtmlSubtype(m.parts[i].subtype) then Extract(m.parts[i], skip, convert) else [];
      if IsHtmlSubtype(m.parts[i].subtype) {
        ExtractBalanced(m.parts[i], skip, convert);
      }
      HtmlFromBalanced(m, i + 1, skip, convert);
      BalancedAppend(here, HtmlFrom(m, i + 1, skip, convert));
    }
  }

  // ---------------------------------------------------------------------
  // Reading the message.

  /** A line with one trailing carriage return removed, if it has one. */
  function NormalizeLine(line: string): string
  {
    if line != [] && line[|line| - 1] == '\r' then line[..|line| - 1] else line
  }

  /** Normalising undoes exactly one appended carriage return and changes no
      line that does not end with one. */
  lemma NormalizeLineInverse(line: string)
    ensures NormalizeLine(line + "\r") == line
    ensures (line == [] || line[|line| - 1] != '\r') ==> NormalizeLine(line) == line
    ensures |NormalizeLine(line)| >= |line| - 1
  {
    assert (line + "\r")[..|line|] == line;
  }

  /** Where the line starting at `i` ends: the next line feed, or the end. */
  function LineEnd(s: string, i: nat): (k: nat)
    requires i <= |s|
    ensures i <= k <= |s| && (k < |s| ==> s[k] == '\n') && '\n' !in s[i..k]
    decreases |s| - i
  {
    if i == |s| || s[i] == '\n' then i
    else
      var k := LineEnd(s, i + 1);
      assert s[i..k] == [s[i]] + s[i + 1..k];
      k
  }

  /** The lines `getline` reads from position `i`: up to each line feed,
      which is consumed; a last line without a line feed is read too, and
      nothing is read at the end of the stream. */
  function LinesFrom(s: string, i: nat): seq<string>
    requires i <= |s|
    decreases |s| - i
  {
    if i == |s| then []
    else
      var k := LineEnd(s, i);
      [s[i..k]] + (if k == |s| then [] else LinesFrom(s, k + 1))
  }

  function NormalizeAll(lines: seq<string>): seq<string>
  {
    if lines == [] then [] else [NormalizeLine(lines[0])] + NormalizeAll(lines[1..])
  }

  lemma NormalizeAllCons(line: string, rest: seq<string>)
    ensures NormalizeAll([line] + rest) == [NormalizeLine(line)] + NormalizeAll(rest)
  {
    assert ([line] + rest)[1..] == rest;
  }

  /** The lines given to the mail library: every line read, normalised, then
      a final empty CRLF line. */
  function FedLines(stream: string): seq<string>
  {
    NormalizeAll(LinesFrom(stream, 0)) + ["\r\n"]
  }

  /** Each line followed by a line feed. */
  function Unlines(lines: seq<string>): string
  {
    if lines == [] then [] else lines[0] + "\n" + Unlines(lines[1..])
  }

  /** Where reading resumes after the line starting at `i`. */
  function NextLine(s: string, i: nat): nat
    requires i <= |s|
  {
    var k := LineEnd(s, i);
    if k == |s| then k else k + 1
  }

  /** One step of reading: the line up to the next line feed, then the
      lines after it. */
  lemma LinesFromStep(s: string, i: nat)
    requires i < |s|
    ensures LinesFrom(s, i) == [s[i..LineEnd(s, i)]] + LinesFrom(s, NextLine(s, i))
  {
  }

  /** No line read holds a line feed. */
  lemma {:induction false} LinesWithoutLineFeed(s: string, i: nat)
    requires i <= |s|
    ensures forall j :: 0 <= j < |LinesFrom(s, i)| ==> '\n' !in LinesFrom(s, i)[j]
    decreases |s| - i
  {
    if i < |s| {
      var k := LineEnd(s, i);
      LinesFromStep(s, i);
      if k < |s| {
        LinesWithoutLineFeed(s, k + 1);
        assert NextLine(s, i) == k + 1;
        var ls := LinesFrom(s, i);
        forall j | 0 <= j < |ls|
          ensures '\n' !in ls[j]
        {
          if j > 0 {
            assert ls[j] == LinesFrom(s, k + 1)[j - 1];
          }
        }
      }
    }
  }

  /** The stream from `i` on with a line feed added when it does not end
      with one. */
  function Terminated(s: string, i: nat): string
    requires i <= |s|
  {
    if i == |s| || s[|s| - 1] == '\n' then s[i..] else s[i..] + "\n"
  }

  /** The lines read give back the stream, with a line feed added after a
      last line that had none. */
  lemma {:induction false} LinesRoundTrip(s: string, i: nat)
    requires i <= |s|
    ensures Unlines(LinesFrom(s, i)) == Terminated(s, i)
    decreases |s| - i
  {
    if i < |s| {
      var k := LineEnd(s, i);
      var rest := LinesFrom(s, NextLine(s, i));
      LinesFromStep(s, i);
      UnlinesCons(s[i..k], rest);
      if k == |s| {
        assert rest == [];
        LastLineRoundTrip(s, i);
      } else {
        LinesRoundTrip(s, k + 1);
        LineRoundTrip(s, i, k);
      }
    }
  }

  lemma UnlinesCons(line: string, rest: seq<string>)
    ensures Unlines([line] + rest) == line + "\n" + Unlines(rest)
  {
    assert ([line] + rest)[0] == line && ([line] + rest)[1..] == rest;
  }

  lemma LastLineRoundTrip(s: string, i: nat)
    requires i < |s| && LineEnd(s, i) == |s|
    ensures s[i..|s|] + "\n" == Terminated(s, i)
  {
    assert s[|s| - 1] == s[i..|s|][|s| - 1 - i];
  }

  lemma LineRoundTrip(s: string, i: nat, k: nat)
    requires i <= k < |s| && s[k] == '\n'
    ensures s[i..k] + "\n" + Terminated(s, k + 1) == Terminated(s, i)
  {
    assert s[i..] == s[i..k] + "\n" + s[k + 1..];
  }

  /** `getline`: the end of the line starting at `pos`. */
  method FindLineEnd(s: string, pos: nat) returns (k: nat)
    requires pos <= |s|
    ensures k == LineEnd(s, pos)
  {
    k := pos;
    while k < |s| && s[k] != '\n'
      invariant pos <= k <= |s|
      invariant LineEnd(s, pos) == LineEnd(s, k)
      decreases |s| - k
    {
      k := k + 1;
    }
  }

  /** The message parsing loop: `getline` until the stream is exhausted,
      normalising each line before handing it over, then the final empty
      line. Returns the lines handed over, in order. */
  method ReadMessageLines(stream: string) returns (lines: seq<string>)
    ensures lines == FedLines(stream)
  {
    lines := [];
    var pos := 0;
    ghost var whole := NormalizeAll(LinesFrom(stream, 0));
    while pos < |stream|
      invariant pos <= |stream|
      invariant lines + NormalizeAll(LinesFrom(stream, pos)) == whole
      decreases |stream| - pos
    {
      var k := FindLineEnd(stream, pos);
      var line := stream[pos..k];
      ghost var rest := LinesFrom(stream, NextLine(stream, pos));
      LinesFromStep(stream, pos);
      NormalizeAllCons(line, rest);
      assert lines + NormalizeAll(LinesFrom(stream, pos)) == (lines + [NormalizeLine(line)]) + NormalizeAll(rest);
      line := NormalizeLine(line);
      lines := lines + [line];
      pos := if k == |stream| then k else k + 1;
    }
    lines := lines + ["\r\n"];
  }

  // ---------------------------------------------------------------------
  // The parser.

  /** What the mail library makes of the lines: the From header as text,
      whether the Date header is a valid date-time, and the part tree. */
  datatype Message = Message(from: string, dateValid: bool, root: Mime)

  /** The validity check. The parser's constructors never store the file
      name, so the opening error names none. */
  function IsEml(streamGood: bool, msg: Message): Result<bool>
  {
    if !streamGood then Err("Error opening file: ") else Ok(msg.from != "" && msg.dateValid)
  }

  /** A readable message is an e-mail exactly when it has a sender and a
      valid date. */
  lemma IsEmlExactly(streamGood: bool, msg: Message)
    ensures IsEml(streamGood, msg).Err? <==> !streamGood
    ensures IsEml(streamGood, msg) == Ok(true) <==> streamGood && msg.from != "" && msg.dateValid
  {
  }

  /** The plain text extraction: the validity check, the rewind of the
      stream, and the walk of the part tree. */
  function PlainText(streamGood: bool, seekOk: bool, msg: Message, skip: SkipDecision, convert: Converter)
    : Result<seq<Tag>>
  {
    match IsEml(streamGood, msg)
    case Err(e) => Err(e)
    case Ok(valid) =>
      if !valid then Err("The specified file is not a valid EML file")
      else if !seekOk then Err("The stream seek operation failed")
      else Ok(Extract(msg.root, skip, convert))
  }

  /** Parsing succeeds exactly for a readable, valid message whose stream
      could be rewound, and then sends balanced attachment blocks. */
  lemma PlainTextOutcome(streamGood: bool, seekOk: bool, msg: Message, skip: SkipDecision, convert: Converter)
    ensures var r := PlainText(streamGood, seekOk, msg, skip, convert);
            (r.Ok? <==> streamGood && msg.from != "" && msg.dateValid && seekOk)
            && (r.Ok? ==> Balanced(r.value))
  {
    ExtractBalanced(msg.root, skip, convert);
  }

  /** The parser, sending tags to a consumer that may ask to skip an
      attachment's content. */
  class EmlParser {
    var sent: seq<Tag>
    const skip: SkipDecision
    const convert: Converter

    constructor (skip: SkipDecision, convert: Converter)
      ensures sent == [] && this.skip == skip && this.convert == convert
    {
      sent := [];
      this.skip := skip;
      this.convert := convert;
    }

    method SendTag(t: Tag) returns (skipped: bool)
      modifies this
      ensures sent == old(sent) + [t] && skipped == skip(t)
    {
      sent := sent + [t];
      skipped := skip(t);
    }

    /** The body of an inline text part. */
    method SendInline(m: Mime)
      requires IsInlineText(m)
      modifies this
      ensures sent == old(sent) + Extract(m, skip, convert)
    {
      var buf := new char[|m.content|](k requires 0 <= k < |m.content| => m.content[k]);
      assert buf[..] == m.content;
      var n := RemoveCarriageReturns(buf);
      var plain := buf[..n];
      var skipDecoding := false;
      if m.charset != "" {
        plain := Decoded(convert, m.charset, plain);
        skipDecoding := true;
      }
      if IsHtmlSubtype(m.subtype) {
        var _ := SendTag(File(plain, "eml_body.html"));
      } else if skipDecoding {
        var _ := SendTag(Text(plain));
      } else {
        var _ := SendTag(File(plain, "eml_body.txt"));
      }
      var _ := SendTag(Text("\n\n"));
    }

    /** The attachment block of a part that is neither inline text nor
        multipart. */
    method SendAttachment(m: Mime)
      modifies this
      ensures sent == old(sent) + AttachmentTags(m, skip)
    {
      var fileName := m.name;
      var suffix := Suffix(fileName);
      var buf := new char[|suffix|](k requires 0 <= k < |suffix| => suffix[k]);
      assert buf[..] == suffix;
      LowerInPlace(buf);
      var extension := buf[..];
      var skipped := SendTag(Attachment(fileName, |m.content|, extension));
      if !skipped {
        var _ := SendTag(File(m.content, fileName));
      }
      var _ := SendTag(CloseAttachment);
    }

    method ExtractPlainText(m: Mime)
      modifies this
      ensures sent == old(sent) + Extract(m, skip, convert)
      decreases m, 2
    {
      if IsInlineText(m) {
        SendInline(m);
        return;
      }
      ghost var start := sent;
      if m.mediaType != MediaMultipart {
        SendAttachment(m);
      }
      ghost var mid := sent;
      if m.subtype == "alternative" {
        SendAlternative(m);
      } else {
        SendParts(m);
      }
      ExtractSplit(m, skip, convert, start, mid, sent);
    }

    /** The parts of a multipart entity that is not an alternative, in
        order. */
    method SendParts(m: Mime)
      modifies this
      ensures sent == old(sent) + PartsFrom(m, 0, skip, convert)
      decreases m, 0
    {
      ghost var whole := sent + PartsFrom(m, 0, skip, convert);
      for i := 0 to |m.parts|
        invariant sent + PartsFrom(m, i, skip, convert) == whole
      {
        ghost var before := sent;
        ghost var rest := PartsFrom(m, i + 1, skip, convert);
        ghost var here := Extract(m.parts[i], skip, convert);
        assert PartsFrom(m, i, skip, convert) == here + rest;
        ExtractPlainText(m.parts[i]);
        assert before + (here + rest) == (before + here) + rest;
      }
      assert PartsFrom(m, |m.parts|, skip, convert) == [];
    }

    /** The parts of a multipart alternative: every HTML part, then the first
        part when none was HTML. */
    method SendAlternative(m: Mime)
      modifies this
      ensures sent == old(sent) + Alternative(m, skip, convert)
      decreases m, 1
    {
      ghost var start := sent;
      var htmlFound := SendHtmlParts(m);
      ghost var mid := sent;
      if !htmlFound && |m.parts| > 0 {
        ExtractPlainText(m.parts[0]);
      }
      AlternativeSplit(m, skip, convert, start, mid, sent);
    }

    /** The loop over an alternative's parts that walks every HTML part and
        reports whether there was one. */
    method SendHtmlParts(m: Mime) returns (htmlFound: bool)
      modifies this
      ensures sent == old(sent) + HtmlFrom(m, 0, skip, convert)
      ensures htmlFound == HasHtmlPart(m.parts)
      decreases m, 0
    {
      htmlFound := false;
      ghost var whole := sent + HtmlFrom(m, 0, skip, convert);
      for i := 0 to |m.parts|
        invariant sent + HtmlFrom(m, i, skip, convert) == whole
        invariant htmlFound <==> exists k :: 0 <= k < i && IsHtmlSubtype(m.parts[k].subtype)
      {
        ghost var before := sent;
        ghost var rest := HtmlFrom(m, i + 1, skip, convert);
        ghost var here := if IsHtmlSubtype(m.parts[i].subtype) then Extract(m.parts[i], skip, convert) else [];
        assert HtmlFrom(m, i, skip, convert) == here + rest;
        if IsHtmlSubtype(m.parts[i].subtype) {
          ExtractPlainText(m.parts[i]);
          htmlFound := true;
        }
        assert before + (here + rest) == (before + here) + rest;
      }
      assert HtmlFrom(m, |m.parts|, skip, convert) == [];
    }

    /** The whole parse: the validity check, the rewind, and the walk. */
    method Parse(streamGood: bool, seekOk: bool, msg: Message) returns (r: Outcome)
      modifies this
      ensures var p := PlainText(streamGood, seekOk, msg, skip, convert);
              (p.Err? ==> r == Fail(p.message) && sent == old(sent))
              && (p.Ok? ==> r == Pass && sent == old(sent) + p.value)
    {
      var valid := IsEml(streamGood, msg);
      if valid.Err? {
        return Fail(valid.message);
      }
      if !valid.value {
        return Fail("The specified file is not a valid EML file");
      }
      if !seekOk {
        return Fail("The stream seek operation failed");
      }
      ExtractPlainText(msg.root);
      r := Pass;
    }
  }
}
