/** Where the Word binary parser places comments in its output: each comment
    is sent as a Comment tag when the paragraph stream passes the stream
    offset of its reference mark. A paragraph start sends the comments whose
    reference lies between the previous paragraph's last chunk and the
    current paragraph's last chunk; the end of the document sends the rest. */
module DocPlacement {
  import opened Common
  import opened DocComments

  /** The tag sent for one comment; vertical tabs in its text become line
      feeds, the author is sent as read. */
  function CommentTag(c: Annotation): Tag
  {
    Tag.Comment(c.author, VtToLf(c.text))
  }

  /** The comment tags for the comments whose reference offset lies in
      [lo, hi), in the order of the comment table. */
  function CommentsBetween(cs: seq<Annotation>, lo: int, hi: int): seq<Tag>
    decreases |cs|
  {
    if cs == [] then []
    else
      var c := cs[|cs| - 1];
      CommentsBetween(cs[..|cs| - 1], lo, hi) + (if lo <= c.fc < hi then [CommentTag(c)] else [])
  }

  /** The comment tags sent at the end of the document: every comment at or
      after `lo`. */
  function CommentsFrom(cs: seq<Annotation>, lo: int): seq<Tag>
  {
    CommentsBetween(cs, lo, U32_LIMIT)
  }

  /** A comment tag is sent for [lo, hi) exactly when some comment of the
      table has its reference there. */
  lemma BetweenMembers(cs: seq<Annotation>, lo: int, hi: int, t: Tag)
    ensures t in CommentsBetween(cs, lo, hi) <==>
              exists k :: 0 <= k < |cs| && lo <= cs[k].fc < hi && t == CommentTag(cs[k])
  {
    if t in CommentsBetween(cs, lo, hi) {
      BetweenSource(cs, lo, hi, t);
    }
    if exists k :: 0 <= k < |cs| && lo <= cs[k].fc < hi && t == CommentTag(cs[k]) {
      var k :| 0 <= k < |cs| && lo <= cs[k].fc < hi && t == CommentTag(cs[k]);
      BetweenSends(cs, lo, hi, k);
    }
  }

  lemma {:induction false} BetweenSource(cs: seq<Annotation>, lo: int, hi: int, t: Tag)
    requires t in CommentsBetween(cs, lo, hi)
    ensures exists k :: 0 <= k < |cs| && lo <= cs[k].fc < hi && t == CommentTag(cs[k])
    decreases |cs|
  {
    var init := cs[..|cs| - 1];
    var c := cs[|cs| - 1];
    if t in CommentsBetween(init, lo, hi) {
      BetweenSource(init, lo, hi, t);
      var k :| 0 <= k < |init| && lo <= init[k].fc < hi && t == CommentTag(init[k]);
      assert cs[k] == init[k];
    } else {
      assert lo <= cs[|cs| - 1].fc < hi && t == CommentTag(cs[|cs| - 1]);
    }
  }

  lemma {:induction false} BetweenSends(cs: seq<Annotation>, lo: int, hi: int, k: nat)
    requires k < |cs| && lo <= cs[k].fc < hi
    ensures CommentTag(cs[k]) in CommentsBetween(cs, lo, hi)
    decreases |cs|
  {
    var init := cs[..|cs| - 1];
    if k < |init| {
      assert init[k] == cs[k];
      BetweenSends(init, lo, hi, k);
    }
  }

  /** There are never more comment tags than comments, and an empty range
      has none. */
  lemma {:induction false} BetweenLength(cs: seq<Annotation>, lo: int, hi: int)
    ensures |CommentsBetween(cs, lo, hi)| <= |cs|
    ensures lo >= hi ==> CommentsBetween(cs, lo, hi) == []
    decreases |cs|
  {
    if cs != [] {
      BetweenLength(cs[..|cs| - 1], lo, hi);
    }
  }

  /** Splitting a range at `mid` splits its comments between the two parts,
      each comment going to exactly one of them. */
  lemma {:induction false} BetweenSplit(cs: seq<Annotation>, lo: int, mid: int, hi: int)
    requires lo <= mid <= hi
    ensures multiset(CommentsBetween(cs, lo, hi))
         == multiset(CommentsBetween(cs, lo, mid)) + multiset(CommentsBetween(cs, mid, hi))
    decreases |cs|
  {
    if cs != [] {
      BetweenSplit(cs[..|cs| - 1], lo, mid, hi);
    }
  }

  /** Strictly or loosely ascending boundaries. */
  predicate Ascending(bounds: seq<u32>)
  {
    forall i, j :: 0 <= i < j < |bounds| ==> bounds[i] <= bounds[j]
  }

  /** What a document with paragraph boundaries `bounds` sends after the
      first one: the comments between each boundary and the next, in
      paragraph order, then the comments after the last boundary. */
  function Placement(cs: seq<Annotation>, bounds: seq<u32>): seq<Tag>
    requires |bounds| > 0
    decreases |bounds|
  {
    if |bounds| == 1 then CommentsFrom(cs, bounds[0])
    else CommentsBetween(cs, bounds[0], bounds[1]) + Placement(cs, bounds[1..])
  }

  /** With ascending boundaries every comment at or after the first
      boundary is sent exactly once, and no other comment is sent. */
  lemma {:induction false} PlacementOnce(cs: seq<Annotation>, bounds: seq<u32>)
    requires |bounds| > 0 && Ascending(bounds)
    ensures multiset(Placement(cs, bounds)) == multiset(CommentsFrom(cs, bounds[0]))
    decreases |bounds|
  {
    if |bounds| > 1 {
      var rest := bounds[1..];
      assert Ascending(rest) by {
        forall i, j | 0 <= i < j < |rest|
          ensures rest[i] <= rest[j]
        {
          assert rest[i] == bounds[i + 1] && rest[j] == bounds[j + 1];
        }
      }
      PlacementOnce(cs, rest);
      assert bounds[0] <= bounds[1];
      BetweenSplit(cs, bounds[0], bounds[1], U32_LIMIT);
    }
  }

  /** Boundaries that go backwards (a piece table whose pieces are not in
      stream order) send a comment twice: with the boundaries 5, 10, 8 a
      comment at offset 9 is sent both for [5, 10) and after 8. */
  lemma BackwardsBoundsRepeat()
    ensures var c := Annotation(9, "x", "");
            Placement([c], [5, 10, 8]) == [CommentTag(c), CommentTag(c)]
  {
    var c := Annotation(9, "x", "");
    var cs := [c];
    assert cs[..0] == [];
    assert CommentsBetween(cs, 5, 10) == [CommentTag(c)] by {
      assert CommentsBetween(cs, 5, 10) == CommentsBetween(cs[..0], 5, 10) + [CommentTag(c)];
    }
    assert CommentsFrom(cs, 8) == [CommentTag(c)] by {
      assert CommentsBetween(cs, 8, U32_LIMIT) == CommentsBetween(cs[..0], 8, U32_LIMIT) + [CommentTag(c)];
    }
    assert CommentsBetween(cs, 10, 8) == [] by {
      assert CommentsBetween(cs, 10, 8) == CommentsBetween(cs[..0], 10, 8) + [];
    }
    var b: seq<u32> := [5, 10, 8];
    assert b[1..] == [10, 8] && b[1..][1..] == [8];
    assert Placement(cs, [8]) == CommentsFrom(cs, 8);
    assert Placement(cs, [10, 8]) == CommentsBetween(cs, 10, 8) + Placement(cs, [8]);
    assert Placement(cs, b) == CommentsBetween(cs, 5, 10) + Placement(cs, [10, 8]);
  }

  /** Boundaries that go backwards can also reach below the first one: with
      the boundaries 100, 50, 80 a comment at offset 60 is sent for [50, 80),
      although it lies below the first boundary. */
  lemma BackwardsBoundsReachBack()
    ensures var c := Annotation(60, "x", "");
            c.fc < 100 && Placement([c], [100, 50, 80]) == [CommentTag(c)]
  {
    var c := Annotation(60, "x", "");
    var cs := [c];
    assert cs[..0] == [];
    assert CommentsBetween(cs, 100, 50) == [] by {
      assert CommentsBetween(cs, 100, 50) == CommentsBetween(cs[..0], 100, 50) + [];
    }
    assert CommentsBetween(cs, 50, 80) == [CommentTag(c)] by {
      assert CommentsBetween(cs, 50, 80) == CommentsBetween(cs[..0], 50, 80) + [CommentTag(c)];
    }
    assert CommentsFrom(cs, 80) == [] by {
      assert CommentsBetween(cs, 80, U32_LIMIT) == CommentsBetween(cs[..0], 80, U32_LIMIT) + [];
    }
    var b: seq<u32> := [100, 50, 80];
    assert b[1..] == [50, 80] && b[1..][1..] == [80];
    assert Placement(cs, [80]) == CommentsFrom(cs, 80);
    assert Placement(cs, [50, 80]) == CommentsBetween(cs, 50, 80) + Placement(cs, [80]);
    assert Placement(cs, b) == CommentsBetween(cs, 100, 50) + Placement(cs, [50, 80]);
  }
}
