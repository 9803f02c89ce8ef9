/** The flat XML OpenDocument parser's own logic: the check for the root
    marker, the three element handlers it registers with the shared XML
    parser (which switch the shared parser's text output on and off, append
    the text of embedded objects, and mark binary data as handled), and the
    page count it falls back on for presentations and drawings. The shared
    XML parser, the metadata reader and file reading are outside this
    model. */
module OdfXml {
  import opened Common

  // ---------------------------------------------------------------------
  // Substring search.

  /** `pat` occurs in `s` at position `k`. */
  predicate OccursAt(s: string, pat: string, k: nat)
  {
    k + |pat| <= |s| && s[k..k + |pat|] == pat
  }

  /** The first position at or after `from` where `pat` occurs, as
      `std::string::find` reports it. */
  function Find(s: string, pat: string, from: nat): (r: Option<nat>)
    ensures r.Some? ==> from <= r.value && OccursAt(s, pat, r.value)
    ensures r.Some? ==> forall k :: from <= k < r.value ==> !OccursAt(s, pat, k)
    ensures r.None? ==> forall k :: from <= k ==> !OccursAt(s, pat, k)
    decreases |s| - from
  {
    if from + |pat| > |s| then None
    else if s[from..from + |pat|] == pat then Some(from)
    else Find(s, pat, from + 1)
  }

  predicate Contains(s: string, pat: string)
  {
    Find(s, pat, 0).Some?
  }

  /** `Contains` holds exactly when the pattern occurs somewhere. */
  lemma ContainsExactly(s: string, pat: string)
    ensures Contains(s, pat) <==> exists k :: OccursAt(s, pat, k)
  {
    if !Contains(s, pat) {
      assert forall k :: 0 <= k ==> !OccursAt(s, pat, k);
    }
  }

  // ---------------------------------------------------------------------
  // The file.

  /** The parser's input: the memory buffer when it is not empty, otherwise
      the named file (None when it cannot be opened). */
  function Content(buffer: string, fileName: string, file: Option<string>): Result<string>
  {
    if |buffer| > 0 then Ok(buffer)
    else if file.None? then Err("Error opening file: " + fileName)
    else Ok(file.value)
  }

  const ROOT_MARKER: string := "office:document"

  /** The input is a flat XML OpenDocument exactly when it contains the root
      marker. */
  function IsOdfXml(buffer: string, fileName: string, file: Option<string>): Result<bool>
  {
    match Content(buffer, fileName, file)
    case Err(e) => Err(e)
    case Ok(c) => Ok(Contains(c, ROOT_MARKER))
  }

  lemma IsOdfXmlExactly(buffer: string, fileName: string, file: Option<string>)
    ensures var r := IsOdfXml(buffer, fileName, file);
            (r.Err? <==> |buffer| == 0 && file.None?)
            && (r.Ok? ==> (r.value <==> exists k :: OccursAt(Content(buffer, fileName, file).value, ROOT_MARKER, k)))
  {
    var c := Content(buffer, fileName, file);
    if c.Ok? {
      ContainsExactly(c.value, ROOT_MARKER);
    }
  }

  // ---------------------------------------------------------------------
  // The element handlers.

  /** The part of the shared XML parser's state the handlers touch: whether
      text output is disabled, the text extracted so far, whether the
      current element's children count as processed, and the depth of the
      XML stream. */
  datatype XmlState = XmlState(textDisabled: bool, text: string, childrenProcessed: bool, level: int)

  /** An element the handlers are called for: its full name, and, for an
      embedded object, the text the shared parser extracts from the
      object's children. */
  datatype Command =
    | Body(fullName: string)
    | Object(nested: string)
    | BinaryData

  /** The state when extraction starts: text output is disabled until the
      document body is reached; nothing else is reset. */
  function Start(st: XmlState): XmlState
  {
    st.(textDisabled := true)
  }

  /** The body handler: only the element named exactly `office:body` turns
      text output on. */
  function OnBody(st: XmlState, fullName: string): XmlState
  {
    if fullName != "office:body" then st else st.(textDisabled := false)
  }

  /** The object handler: one level down, text output off while the
      object's children are parsed, their text appended, text output on,
      one level up. */
  function OnObject(st: XmlState, nested: string): XmlState
  {
    var down := st.(level := st.level - 1);
    var off := down.(textDisabled := true);
    var appended := off.(text := off.text + nested);
    var on := appended.(textDisabled := false);
    on.(level := on.level + 1)
  }

  function OnBinaryData(st: XmlState): XmlState
  {
    st.(childrenProcessed := true)
  }

  function Apply(st: XmlState, c: Command): XmlState
  {
    match c
    case Body(name) => OnBody(st, name)
    case Object(nested) => OnObject(st, nested)
    case BinaryData => OnBinaryData(st)
  }

  function Run(st: XmlState, cs: seq<Command>): XmlState
    decreases |cs|
  {
    if cs == [] then st else Run(Apply(st, cs[0]), cs[1..])
  }

  /** A command that turns text output on. */
  predicate Enables(c: Command)
  {
    (c.Body? && c.fullName == "office:body") || c.Object?
  }

  /** The handlers' effect on each field, one call at a time: an object
      leaves the level as it was and text on whatever it was before, the
      body handler changes nothing for other names, and the binary data
      handler only marks the children processed. */
  lemma HandlerEffects(st: XmlState, name: string, nested: string)
    ensures OnObject(st, nested) == st.(textDisabled := false, text := st.text + nested)
    ensures name != "office:body" ==> OnBody(st, name) == st
    ensures OnBody(st, "office:body") == st.(textDisabled := false)
    ensures OnBinaryData(st) == st.(childrenProcessed := true)
  {
  }

  /** Over any sequence of handler calls the stream depth is unchanged, the
      text only grows, by the embedded objects' texts in order, and text
      output is on exactly when some call turned it on or it was on from the
      start. */
  lemma {:induction false} RunEffects(st: XmlState, cs: seq<Command>)
    ensures Run(st, cs).level == st.level
    ensures Run(st, cs).text == st.text + ObjectTexts(cs)
    ensures !Run(st, cs).textDisabled <==> !st.textDisabled || exists i :: 0 <= i < |cs| && Enables(cs[i])
    ensures Run(st, cs).childrenProcessed <==> st.childrenProcessed || BinaryData in cs
    decreases |cs|
  {
    if cs != [] {
      var st1 := Apply(st, cs[0]);
      RunEffects(st1, cs[1..]);
      assert st.text + ObjectTexts(cs) == st1.text + ObjectTexts(cs[1..]);
      assert (exists i :: 0 <= i < |cs| && Enables(cs[i]))
         <==> Enables(cs[0]) || exists i :: 0 <= i < |cs[1..]| && Enables(cs[1..][i]) by {
        if exists i :: 0 <= i < |cs| && Enables(cs[i]) {
          var i :| 0 <= i < |cs| && Enables(cs[i]);
          if i > 0 {
            assert cs[1..][i - 1] == cs[i];
          }
        }
        if exists i :: 0 <= i < |cs[1..]| && Enables(cs[1..][i]) {
          var i :| 0 <= i < |cs[1..]| && Enables(cs[1..][i]);
          assert cs[i + 1] == cs[1..][i];
        }
      }
      assert BinaryData in cs <==> cs[0] == BinaryData || BinaryData in cs[1..] by {
        assert cs == [cs[0]] + cs[1..];
      }
    }
  }

  /** The embedded objects' texts, in order. */
  function ObjectTexts(cs: seq<Command>): string
  {
    if cs == [] then "" else (if cs[0].Object? then cs[0].nested else "") + ObjectTexts(cs[1..])
  }

  /** From the start of extraction, nothing before the body or an embedded
      object is output. */
  lemma DisabledUntilBody(st: XmlState, cs: seq<Command>)
    requires forall i :: 0 <= i < |cs| ==> !Enables(cs[i])
    ensures Run(Start(st), cs).textDisabled
  {
    RunEffects(Start(st), cs);
  }

  /** The shared XML parser object, as far as these handlers see it. */
  class XmlParser {
    var textDisabled: bool
    var text: string
    var childrenProcessed: bool
    var level: int

    constructor (text: string, level: int)
      ensures Value() == XmlState(false, text, false, level)
    {
      textDisabled := false;
      this.text := text;
      childrenProcessed := false;
      this.level := level;
    }

    function Value(): XmlState
      reads this
    {
      XmlState(textDisabled, text, childrenProcessed, level)
    }

    method DisableText(disable: bool)
      modifies this
      ensures Value() == old(Value()).(textDisabled := disable)
    {
      textDisabled := disable;
    }

    method LevelDown()
      modifies this
      ensures Value() == old(Value()).(level := old(level) - 1)
    {
      level := level - 1;
    }

    method LevelUp()
      modifies this
      ensures Value() == old(Value()).(level := old(level) + 1)
    {
      level := level + 1;
    }

    /** What plain text extraction does before handing the document to the
        shared parser. */
    method BeginPlainText()
      modifies this
      ensures Value() == Start(old(Value()))
    {
      DisableText(true);
    }

    method OnOdfBody(fullName: string)
      modifies this
      ensures Value() == OnBody(old(Value()), fullName)
    {
      if fullName != "office:body" {
        return;
      }
      DisableText(false);
    }

    /** `nested` is what the shared parser returns for the object's
        children. */
    method OnOdfObject(nested: string)
      modifies this
      ensures Value() == OnObject(old(Value()), nested)
    {
      LevelDown();
      DisableText(true);
      text := text + nested;
      DisableText(false);
      LevelUp();
    }

    method OnOdfBinaryData()
      modifies this
      ensures Value() == OnBinaryData(old(Value()))
    {
      childrenProcessed := true;
    }
  }

  // ---------------------------------------------------------------------
  // The page count fallback.

  const PAGE_MARKER: string := "<draw:page "

  /** The occurrences of `pat` that the find loop counts from `from` on:
      each search resumes after the occurrence just found. */
  function CountFrom(s: string, pat: string, from: nat): nat
    requires |pat| > 0
    decreases |s| - from
  {
    match Find(s, pat, from)
    case None => 0
    case Some(k) => 1 + CountFrom(s, pat, k + |pat|)
  }

  /** The counted occurrences do not overlap, so they fit in the text after
      `from`. */
  lemma {:induction false} CountBound(s: string, pat: string, from: nat)
    requires |pat| > 0 && from <= |s|
    ensures CountFrom(s, pat, from) * |pat| <= |s| - from
    decreases |s| - from
  {
    var f := Find(s, pat, from);
    if f.Some? {
      var k, n := f.value, |pat|;
      assert k + n <= |s| by { assert OccursAt(s, pat, k); }
      var c := CountFrom(s, pat, k + n);
      CountBound(s, pat, k + n);
      assert CountFrom(s, pat, from) == 1 + c;
      MulStep(c, n);
    }
  }

  lemma MulStep(c: nat, n: nat)
    ensures (1 + c) * n == n + c * n
  {
  }

  /** None are counted exactly when the pattern does not occur after
      `from`. */
  lemma CountZero(s: string, pat: string, from: nat)
    requires |pat| > 0
    ensures CountFrom(s, pat, from) == 0 <==> forall k :: from <= k ==> !OccursAt(s, pat, k)
  {
  }

  /** The find loop of the page count fallback. */
  method CountOccurrences(s: string, pat: string) returns (count: nat)
    requires |pat| > 0
    ensures count == CountFrom(s, pat, 0)
  {
    count := 0;
    var from: nat := 0;
    var pos := Find(s, pat, 0);
    while pos.Some?
      invariant pos == Find(s, pat, from) && from <= |s| + 1
      invariant count + CountFrom(s, pat, from) == CountFrom(s, pat, 0)
      decreases |s| + 1 - from
    {
      count := count + 1;
      from := pos.value + |pat|;
      pos := Find(s, pat, from);
    }
  }

  /** The page count reported: the one the metadata gives, or, when it gives
      none and the document is a presentation or a drawing, the number of
      pages found. */
  function PageCount(metaPages: Option<int>, content: string): Option<int>
  {
    if metaPages.Some? then metaPages
    else if Contains(content, "<office:presentation") || Contains(content, "<office:drawing") then
      Some(CountFrom(content, PAGE_MARKER, 0))
    else None
  }

  /** The fallback never overrides a page count from the metadata, applies
      only to presentations and drawings, and counts non-overlapping page
      elements. */
  lemma PageCountFallback(metaPages: Option<int>, content: string)
    ensures metaPages.Some? ==> PageCount(metaPages, content) == metaPages
    ensures metaPages.None? && !Contains(content, "<office:presentation") && !Contains(content, "<office:drawing")
            ==> PageCount(metaPages, content).None?
    ensures metaPages.None? && PageCount(metaPages, content).Some? ==>
              0 <= PageCount(metaPages, content).value * |PAGE_MARKER| <= |content|
              && (PageCount(metaPages, content).value == 0 <==> !Contains(content, PAGE_MARKER))
  {
    CountBound(content, PAGE_MARKER, 0);
    CountZero(content, PAGE_MARKER, 0);
    ContainsExactly(content, PAGE_MARKER);
  }

  /** The metadata step: the page count after the fallback, with the
      metadata reader's failure wrapped. `metaPages` is what the metadata
      reader gives, None when it fails. */
  method MetaDataPageCount(buffer: string, fileName: string, file: Option<string>,
                           metaOk: bool, metaPages: Option<int>) returns (r: Result<Option<int>>)
    ensures var c := Content(buffer, fileName, file);
            (c.Err? ==> r == Err(c.message))
            && (c.Ok? && !metaOk ==> r == Err("Error parsing metadata in Flat XML file"))
            && (c.Ok? && metaOk ==> r == Ok(PageCount(metaPages, c.value)))
  {
    var c := Content(buffer, fileName, file);
    if c.Err? {
      return Err(c.message);
    }
    if !metaOk {
      return Err("Error parsing metadata in Flat XML file");
    }
    var pages := metaPages;
    if pages.None? {
      if Contains(c.value, "<office:presentation") || Contains(c.value, "<office:drawing") {
        var n := CountOccurrences(c.value, PAGE_MARKER);
        pages := Some(n);
      }
    }
    r := Ok(pages);
  }
}
