/** The plain text exporter: it writes every tag it receives into a text
    buffer and, when the outermost document closes, sends the buffer on as a
    ".txt" data source. Nested documents are written into the buffer of the
    document that contains them. How the plain text writer renders a tag is
    a parameter. */
module PlainTextExporter {
  import opened Common

  /** A data source sent downstream: the buffered text and its extension. */
  datatype Emission = Emission(content: string, extension: string)

  /** The nesting level of documents, the buffer (None when there is none),
      and everything sent downstream so far. */
  datatype ExporterState = ExporterState(level: int, stream: Option<string>, emitted: seq<Emission>)

  type Renderer = Tag -> string

  const INITIAL: ExporterState := ExporterState(0, None, [])

  /** A buffer exists exactly while a document is open. */
  predicate Valid(st: ExporterState)
  {
    st.level >= 0 && (st.stream.Some? <==> st.level >= 1)
  }

  /** A Document tag, or any tag while no buffer exists, opens a level; at
      level one a fresh buffer is made. */
  function Open(st: ExporterState, tag: Tag): ExporterState
  {
    if tag == Document || st.stream.None? then
      var l := st.level + 1;
      st.(level := l, stream := if l == 1 then Some("") else st.stream)
    else st
  }

  /** A CloseDocument tag closes a level; closing the last one sends the
      buffer on and drops it. */
  function Close(st: ExporterState, tag: Tag): ExporterState
    requires st.stream.Some?
  {
    if tag == CloseDocument then
      var l := st.level - 1;
      if l == 0 then ExporterState(0, None, st.emitted + [Emission(st.stream.value, ".txt")])
      else st.(level := l)
    else st
  }

  /** One tag: open, write the tag into the buffer, close. */
  function Step(render: Renderer, st: ExporterState, tag: Tag): (r: ExporterState)
    requires Valid(st)
    ensures Valid(r)
    ensures r.emitted == st.emitted
            || (tag == CloseDocument && Open(st, tag).level == 1
                && r.emitted == st.emitted + [Emission(Open(st, tag).stream.value + render(tag), ".txt")])
  {
    var o := Open(st, tag);
    Close(o.(stream := Some(o.stream.value + render(tag))), tag)
  }

  function Run(render: Renderer, st: ExporterState, tags: seq<Tag>): (r: ExporterState)
    requires Valid(st)
    ensures Valid(r)
    decreases |tags|
  {
    if tags == [] then st else Run(render, Step(render, st, tags[0]), tags[1..])
  }

  function RenderAll(render: Renderer, tags: seq<Tag>): string
  {
    if tags == [] then "" else render(tags[0]) + RenderAll(render, tags[1..])
  }

  function Delta(t: Tag): int
  {
    if t == Document then 1 else if t == CloseDocument then -1 else 0
  }

  /** Starting at level `l`, the tags never close the level-one document. */
  predicate Within(tags: seq<Tag>, l: int)
    decreases |tags|
  {
    tags == [] || (l + Delta(tags[0]) >= 1 && Within(tags[1..], l + Delta(tags[0])))
  }

  /** The level the tags end at, from `l`. */
  function LevelAfter(tags: seq<Tag>, l: int): int
    decreases |tags|
  {
    if tags == [] then l else LevelAfter(tags[1..], l + Delta(tags[0]))
  }

  /** Inside an open document every tag is written to the same buffer, the
      level follows the Document and CloseDocument tags, and nothing is sent;
      a nested document never makes a buffer of its own. */
  lemma {:induction false} InsideRun(render: Renderer, st: ExporterState, tags: seq<Tag>)
    requires Valid(st) && st.level >= 1 && Within(tags, st.level)
    ensures Run(render, st, tags)
            == st.(level := LevelAfter(tags, st.level), stream := Some(st.stream.value + RenderAll(render, tags)))
    decreases |tags|
  {
    if tags != [] {
      var st1 := Step(render, st, tags[0]);
      InsideStep(render, st, tags[0]);
      InsideRun(render, st1, tags[1..]);
      assert LevelAfter(tags, st.level) == LevelAfter(tags[1..], st1.level);
      assert st.stream.value + RenderAll(render, tags)
          == st.stream.value + render(tags[0]) + RenderAll(render, tags[1..]);
    } else {
      assert st.stream.value + "" == st.stream.value;
    }
  }

  /** One tag inside an open document that does not close it. */
  lemma InsideStep(render: Renderer, st: ExporterState, tag: Tag)
    requires Valid(st) && st.level >= 1 && st.level + Delta(tag) >= 1
    ensures Step(render, st, tag)
            == st.(level := st.level + Delta(tag), stream := Some(st.stream.value + render(tag)))
  {
  }

  lemma {:induction false} RunAppend(render: Renderer, st: ExporterState, a: seq<Tag>, b: seq<Tag>)
    requires Valid(st)
    ensures Run(render, st, a + b) == Run(render, Run(render, st, a), b)
    decreases |a|
  {
    if a != [] {
      assert (a + b)[0] == a[0] && (a + b)[1..] == a[1..] + b;
      RunAppend(render, Step(render, st, a[0]), a[1..], b);
    } else {
      assert a + b == b;
    }
  }

  lemma {:induction false} RenderAllAppend(render: Renderer, a: seq<Tag>, b: seq<Tag>)
    ensures RenderAll(render, a + b) == RenderAll(render, a) + RenderAll(render, b)
    decreases |a|
  {
    if a != [] {
      assert (a + b)[0] == a[0] && (a + b)[1..] == a[1..] + b;
      RenderAllAppend(render, a[1..], b);
    } else {
      assert a + b == b && "" + RenderAll(render, b) == RenderAll(render, b);
    }
  }

  /** A document whose inner tags are balanced. */
  predicate IsDocument(doc: seq<Tag>)
  {
    |doc| >= 2 && doc[0] == Document && doc[|doc| - 1] == CloseDocument
    && Within(doc[1..|doc| - 1], 1) && LevelAfter(doc[1..|doc| - 1], 1) == 1
  }

  /** With no document open, a whole document sends exactly one data source:
      the rendering of all its tags, nested documents included. */
  lemma OneDocument(render: Renderer, st: ExporterState, doc: seq<Tag>)
    requires Valid(st) && st.level == 0 && IsDocument(doc)
    ensures Run(render, st, doc)
            == ExporterState(0, None, st.emitted + [Emission(RenderAll(render, doc), ".txt")])
  {
    var inner := doc[1..|doc| - 1];
    assert doc == [Document] + inner + [CloseDocument];
    var st1 := Step(render, st, Document);
    assert "" + render(Document) == render(Document);
    assert st1 == ExporterState(1, Some(render(Document)), st.emitted);
    assert Run(render, st, [Document]) == st1;
    InsideRun(render, st1, inner);
    var st2 := Run(render, st1, inner);
    assert st2 == ExporterState(1, Some(render(Document) + RenderAll(render, inner)), st.emitted);
    var st3 := Step(render, st2, CloseDocument);
    assert Run(render, st2, [CloseDocument]) == st3;
    RunAppend(render, st, [Document], inner);
    RunAppend(render, st, [Document] + inner, [CloseDocument]);
    RenderAllAppend(render, [Document], inner);
    RenderAllAppend(render, [Document] + inner, [CloseDocument]);
    assert RenderAll(render, [Document]) == render(Document);
    assert RenderAll(render, [CloseDocument]) == render(CloseDocument);
  }

  function Flatten(docs: seq<seq<Tag>>): seq<Tag>
  {
    if docs == [] then [] else docs[0] + Flatten(docs[1..])
  }

  function Emissions(render: Renderer, docs: seq<seq<Tag>>): seq<Emission>
  {
    if docs == [] then [] else [Emission(RenderAll(render, docs[0]), ".txt")] + Emissions(render, docs[1..])
  }

  /** A stream of whole documents: one data source per outermost document,
      in order, and no buffer left afterwards. */
  lemma {:induction false} Documents(render: Renderer, st: ExporterState, docs: seq<seq<Tag>>)
    requires Valid(st) && st.level == 0
    requires forall i :: 0 <= i < |docs| ==> IsDocument(docs[i])
    ensures Run(render, st, Flatten(docs)) == ExporterState(0, None, st.emitted + Emissions(render, docs))
    decreases |docs|
  {
    if docs != [] {
      RunAppend(render, st, docs[0], Flatten(docs[1..]));
      OneDocument(render, st, docs[0]);
      var st1 := Run(render, st, docs[0]);
      Documents(render, st1, docs[1..]);
      assert st.emitted + Emissions(render, docs)
          == st1.emitted + Emissions(render, docs[1..]);
    }
  }

  /** A tag that arrives while no document is open starts a buffer of its
      own; a stray CloseDocument is sent on at once, alone. */
  lemma Stray(render: Renderer, st: ExporterState, tag: Tag)
    requires Valid(st) && st.level == 0 && tag != Document
    ensures tag != CloseDocument ==> Step(render, st, tag) == st.(level := 1, stream := Some(render(tag)))
    ensures tag == CloseDocument ==>
              Step(render, st, tag) == st.(emitted := st.emitted + [Emission(render(tag), ".txt")])
  {
    assert "" + render(tag) == render(tag);
  }

  class Exporter {
    const render: Renderer
    var level: int
    var stream: Option<string>
    var emitted: seq<Emission>

    constructor (render: Renderer)
      ensures this.render == render && Value() == INITIAL
    {
      this.render := render;
      level := 0;
      stream := None;
      emitted := [];
    }

    function Value(): ExporterState
      reads this
    {
      ExporterState(level, stream, emitted)
    }

    method Process(tag: Tag)
      requires Valid(Value())
      modifies this
      ensures Value() == Step(render, old(Value()), tag)
    {
      if tag == Document || stream.None? {
        level := level + 1;
        if level == 1 {
          stream := Some("");
        }
      }
      stream := Some(stream.value + render(tag));
      if tag == CloseDocument {
        level := level - 1;
        if level == 0 {
          emitted := emitted + [Emission(stream.value, ".txt")];
          stream := None;
        }
      }
    }
  }
}
