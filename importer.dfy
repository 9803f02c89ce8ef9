/** The importer, the chain element that turns data sources into tags: it
    picks a parser by the data source's most likely mime type, runs it, and
    routes each tag the parser produces: nested data sources go back to the
    start of the chain, everything else downstream. What the consumer or the
    chain's start sets on a tag becomes the parser's continuation. Mime type
    detection, the parser registry and the parsers themselves are
    parameters. */
module Importer {
  import opened Common

  /** What the parser is told after each tag. */
  datatype Continuation = Proceed | SkipChildren | Stop

  /** What the receiver of a tag set on it: cancel the whole parse, or skip
      the tag's children. */
  datatype Reply = Reply(cancel: bool, skip: bool)

  /** Cancelling wins over skipping; with neither the parser goes on. */
  function ContinuationOf(reply: Reply): (c: Continuation)
    ensures c == Stop <==> reply.cancel
    ensures c == SkipChildren <==> !reply.cancel && reply.skip
    ensures c == Proceed <==> !reply.cancel && !reply.skip
  {
    if reply.cancel then Stop else if reply.skip then SkipChildren else Proceed
  }

  /** What mime type detection knows about a data source: its most likely
      mime type, if any, with that type's confidence, and the confidence that
      it is an encrypted file. Confidences are ranks on the scale that the
      `confidence` constants order. */
  datatype MimeFacts = MimeFacts(mime: Option<string>, confidence: nat, encryptedConfidence: nat)

  datatype ImportError =
    | NoMimeType                           // "Data source has no mime type"
    | FileEncrypted
    | NoParser(mime: string, confidence: nat) // "find_parser_by_mime_type() failed"
    | ParsingFailed(cause: string)          // "Parsing failed", with the parser's error nested

  /** The parser for the data source; the checks come in this order. `high`
      is the rank of `confidence::high`; `parsers` maps each mime type the
      chain has a parser for to that parser. */
  function FindParser<P>(facts: MimeFacts, high: nat, parsers: map<string, P>): Result2<P, ImportError>
  {
    if facts.mime.None? then Failure(NoMimeType)
    else if facts.encryptedConfidence >= high then Failure(FileEncrypted)
    else if facts.mime.value !in parsers then Failure(NoParser(facts.mime.value, facts.confidence))
    else Success(parsers[facts.mime.value])
  }

  datatype Result2<T, E> = Success(value: T) | Failure(error: E)

  /** A parser is found exactly when there is a mime type, the data is not
      likely enough to be encrypted, and the chain has a parser for the type;
      each failure names the first check that failed. */
  lemma FindParserExactly<P>(facts: MimeFacts, high: nat, parsers: map<string, P>)
    ensures var r := FindParser(facts, high, parsers);
            (r.Success? <==> facts.mime.Some? && facts.encryptedConfidence < high && facts.mime.value in parsers)
            && (r.Success? ==> r.value == parsers[facts.mime.value])
            && (r == Failure(NoMimeType) <==> facts.mime.None?)
            && (r == Failure(FileEncrypted) <==> facts.mime.Some? && facts.encryptedConfidence >= high)
            && (r.Failure? && r.error.NoParser? ==> r.error == NoParser(facts.mime.value, facts.confidence))
  {
  }

  // ---------------------------------------------------------------------
  // The chain.

  /** A chain element and the element before it, if any. */
  datatype Element = Element(name: string, parent: Option<Element>)

  /** The element and those before it, nearest first. */
  function Ancestry(e: Element): (r: seq<Element>)
    ensures |r| >= 1 && r[0] == e
    decreases e
  {
    match e.parent
    case None => [e]
    case Some(p) => [e] + Ancestry(p)
  }

  /** The first element of the chain: the one reached by following the
      parents until there is none. */
  function RootElement(e: Element): Element
    decreases e
  {
    match e.parent
    case None => e
    case Some(p) => RootElement(p)
  }

  /** The root has no parent, is the last element of the ancestry, and is
      every ancestor's root too. */
  lemma {:induction false} RootElementShape(e: Element)
    ensures RootElement(e).parent.None?
    ensures RootElement(e) == Ancestry(e)[|Ancestry(e)| - 1]
    ensures forall i :: 0 <= i < |Ancestry(e)| ==> RootElement(Ancestry(e)[i]) == RootElement(e)
    decreases e
  {
    match e.parent
    case None =>
    case Some(p) =>
      RootElementShape(p);
      var a := Ancestry(e);
      assert a == [e] + Ancestry(p);
      forall i | 0 <= i < |a|
        ensures RootElement(a[i]) == RootElement(e)
      {
        if i > 0 {
          assert a[i] == Ancestry(p)[i - 1];
        }
      }
  }

  // ---------------------------------------------------------------------
  // Routing.

  /** The tags that go downstream, in order. */
  function Downstream(tags: seq<Tag>): seq<Tag>
  {
    if tags == [] then []
    else (if tags[0].DataSource? then [] else [tags[0]]) + Downstream(tags[1..])
  }

  /** The nested data sources that go back to the chain's start, in order. */
  function Nested(tags: seq<Tag>): seq<Tag>
  {
    if tags == [] then []
    else (if tags[0].DataSource? then [tags[0]] else []) + Nested(tags[1..])
  }

  /** Every tag goes exactly one way: data sources back to the chain's
      start, all others downstream. */
  lemma {:induction false} RoutingPartitions(tags: seq<Tag>)
    ensures multiset(Downstream(tags)) + multiset(Nested(tags)) == multiset(tags)
    ensures forall t :: t in Downstream(tags) ==> t in tags && !t.DataSource?
    ensures forall t :: t in Nested(tags) ==> t in tags && t.DataSource?
  {
    if tags != [] {
      RoutingPartitions(tags[1..]);
      assert tags == [tags[0]] + tags[1..];
    }
  }

  /** Without nested data sources every tag goes downstream, in order. */
  lemma {:induction false} NoNestedSources(tags: seq<Tag>)
    requires forall i :: 0 <= i < |tags| ==> !tags[i].DataSource?
    ensures Downstream(tags) == tags && Nested(tags) == []
  {
    if tags != [] {
      NoNestedSources(tags[1..]);
      assert tags == [tags[0]] + tags[1..];
    }
  }

  lemma {:induction false} DownstreamAppend(a: seq<Tag>, t: Tag)
    ensures Downstream(a + [t]) == Downstream(a) + (if t.DataSource? then [] else [t])
  {
    if a == [] {
      assert [] + [t] == [t];
    } else {
      assert (a + [t])[0] == a[0] && (a + [t])[1..] == a[1..] + [t];
      DownstreamAppend(a[1..], t);
    }
  }

  lemma {:induction false} NestedAppend(a: seq<Tag>, t: Tag)
    ensures Nested(a + [t]) == Nested(a) + (if t.DataSource? then [t] else [])
  {
    if a == [] {
      assert [] + [t] == [t];
    } else {
      assert (a + [t])[0] == a[0] && (a + [t])[1..] == a[1..] + [t];
      NestedAppend(a[1..], t);
    }
  }

  function Continuations(replies: seq<Reply>): seq<Continuation>
  {
    if replies == [] then [] else [ContinuationOf(replies[0])] + Continuations(replies[1..])
  }

  /** The continuations match the replies one for one. */
  lemma {:induction false} ContinuationsPointwise(replies: seq<Reply>)
    ensures |Continuations(replies)| == |replies|
    ensures forall i :: 0 <= i < |replies| ==> Continuations(replies)[i] == ContinuationOf(replies[i])
  {
    if replies != [] {
      ContinuationsPointwise(replies[1..]);
      forall i | 0 <= i < |replies|
        ensures Continuations(replies)[i] == ContinuationOf(replies[i])
      {
        if i > 0 {
          assert replies[1..][i - 1] == replies[i];
        }
      }
    }
  }

  lemma {:induction false} ContinuationsAppend(a: seq<Reply>, x: Reply)
    ensures Continuations(a + [x]) == Continuations(a) + [ContinuationOf(x)]
  {
    if a == [] {
      assert [] + [x] == [x];
    } else {
      assert (a + [x])[0] == a[0] && (a + [x])[1..] == a[1..] + [x];
      ContinuationsAppend(a[1..], x);
    }
  }

  /** The importer, as far as its own logic goes: the tags it has sent
      downstream, those it has handed back to the chain's start, and the
      continuations it has given its parsers. */
  class Importer {
    var emitted: seq<Tag>
    var toRoot: seq<Tag>
    var continuations: seq<Continuation>

    constructor ()
      ensures emitted == [] && toRoot == [] && continuations == []
    {
      emitted, toRoot, continuations := [], [], [];
    }

    /** The parser callback. `reply` is what the receiver set on the tag. */
    method ParserCallback(tag: Tag, reply: Reply) returns (c: Continuation)
      modifies this
      ensures emitted == old(emitted) + (if tag.DataSource? then [] else [tag])
      ensures toRoot == old(toRoot) + (if tag.DataSource? then [tag] else [])
      ensures continuations == old(continuations) && c == ContinuationOf(reply)
    {
      if tag.DataSource? {
        toRoot := toRoot + [tag];
      } else {
        emitted := emitted + [tag];
      }
      if reply.cancel {
        c := Stop;
      } else if reply.skip {
        c := SkipChildren;
      } else {
        c := Proceed;
      }
    }

    /** The parser's callbacks, one per tag it produces. */
    method RunParser(tags: seq<Tag>, replies: seq<Reply>)
      requires |replies| == |tags|
      modifies this
      ensures emitted == old(emitted) + Downstream(tags) && toRoot == old(toRoot) + Nested(tags)
      ensures continuations == old(continuations) + Continuations(replies)
    {
      for i := 0 to |tags|
        invariant emitted == old(emitted) + Downstream(tags[..i])
        invariant toRoot == old(toRoot) + Nested(tags[..i])
        invariant continuations == old(continuations) + Continuations(replies[..i])
      {
        var c := ParserCallback(tags[i], replies[i]);
        continuations := continuations + [c];
        assert tags[..i + 1] == tags[..i] + [tags[i]] && replies[..i + 1] == replies[..i] + [replies[i]];
        DownstreamAppend(tags[..i], tags[i]);
        NestedAppend(tags[..i], tags[i]);
        ContinuationsAppend(replies[..i], replies[i]);
      }
      assert tags[..|tags|] == tags && replies[..|replies|] == replies;
    }

    /** One tag from upstream. A data source is parsed by the parser found
        for it: `tags` are the tags that parser calls back with, `replies`
        what their receivers set, and `parserError` its failure, if any. Any
        other tag is passed downstream unchanged. */
    method Process<P>(tag: Tag, facts: MimeFacts, high: nat, parsers: map<string, P>,
                      tags: seq<Tag>, replies: seq<Reply>, parserError: Option<string>)
        returns (r: Result2<(), ImportError>)
      requires |replies| == |tags|
      modifies this
      ensures !tag.DataSource? ==>
                r == Success(()) && emitted == old(emitted) + [tag]
                && toRoot == old(toRoot) && continuations == old(continuations)
      ensures tag.DataSource? && FindParser(facts, high, parsers).Failure? ==>
                r == Failure(FindParser(facts, high, parsers).error)
                && emitted == old(emitted) && toRoot == old(toRoot) && continuations == old(continuations)
      ensures tag.DataSource? && FindParser(facts, high, parsers).Success? ==>
                emitted == old(emitted) + Downstream(tags) && toRoot == old(toRoot) + Nested(tags)
                && continuations == old(continuations) + Continuations(replies)
                && r == (if parserError.Some? then Failure(ParsingFailed(parserError.value)) else Success(()))
    {
      if !tag.DataSource? {
        emitted := emitted + [tag];
        return Success(());
      }
      var found := FindParser(facts, high, parsers);
      if found.Failure? {
        return Failure(found.error);
      }
      RunParser(tags, replies);
      if parserError.Some? {
        return Failure(ParsingFailed(parserError.value));
      }
      r := Success(());
    }
  }
}
