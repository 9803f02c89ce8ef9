/** Translation of a character position (CP) of a Word 97 document into a
    byte offset (FC) of its WordDocument stream, through the piece table. */
module DocPieces {
  import opened Common

  /** One piece: the CP range [start, lim) is stored from byte offset `fc`
      (the piece descriptor's offset after the decoder's realFC translation),
      two bytes per character when `unicode`. */
  datatype Piece = Piece(start: u32, lim: u32, fc: u32, unicode: bool)

  predicate Holds(p: Piece, cp: u32)
  {
    p.start <= cp < p.lim
  }

  /** The run of a piece as the decoder's iterator reports it: an unsigned
      32-bit difference. */
  function Run(p: Piece): u32
  {
    Wrap32(p.lim - p.start)
  }

  /** Index of the first piece at or after `i` that holds `cp`, or
      `|pieces|` when none does. */
  function FirstFrom(pieces: seq<Piece>, cp: u32, i: nat): (k: nat)
    requires i <= |pieces|
    ensures i <= k <= |pieces|
    ensures k < |pieces| ==> Holds(pieces[k], cp)
    decreases |pieces| - i
  {
    if i == |pieces| then i
    else if Holds(pieces[i], cp) then i
    else FirstFrom(pieces, cp, i + 1)
  }

  /** No piece before the one found holds `cp`. */
  lemma {:induction false} FirstFromSkips(pieces: seq<Piece>, cp: u32, i: nat)
    requires i <= |pieces|
    ensures forall j :: i <= j < FirstFrom(pieces, cp, i) ==> !Holds(pieces[j], cp)
    decreases |pieces| - i
  {
    if i < |pieces| && !Holds(pieces[i], cp) {
      FirstFromSkips(pieces, cp, i + 1);
    }
  }

  /** The piece found is the first one from `i` that holds `cp`. */
  lemma {:induction false} FirstFromAt(pieces: seq<Piece>, cp: u32, i: nat, k: nat)
    requires i <= k < |pieces| && Holds(pieces[k], cp)
    requires forall j :: i <= j < k ==> !Holds(pieces[j], cp)
    ensures FirstFrom(pieces, cp, i) == k
    decreases k - i
  {
    if i < k {
      FirstFromAt(pieces, cp, i + 1, k);
    }
  }

  /** The scan's `offset` variable after it has passed the first `k` pieces:
      `cp` minus their runs, in unsigned 32-bit arithmetic. */
  function OffsetAfter(pieces: seq<Piece>, cp: u32, k: nat): u32
    requires k <= |pieces|
  {
    if k == 0 then cp else Wrap32(OffsetAfter(pieces, cp, k - 1) - Run(pieces[k - 1]))
  }

  /** Stream offset of `p`'s start plus the local offset, doubled in a
      unicode piece; both additions wrap as unsigned 32-bit values. */
  function OffsetIn(p: Piece, offset: u32): u32
  {
    if offset != 0 then Wrap32(p.fc + (if p.unicode then Wrap32(offset * 2) else offset)) else p.fc
  }

  /** Stream offset of `cp` and whether its piece is unicode, or None when
      there is no piece table or no piece holds `cp`. */
  function Translate(pieces: Option<seq<Piece>>, cp: u32): Option<(u32, bool)>
  {
    match pieces
    case None => None
    case Some(ps) =>
      var k := FirstFrom(ps, cp, 0);
      if k == |ps| then None
      else Some((OffsetIn(ps[k], OffsetAfter(ps, cp, k)), ps[k].unicode))
  }

  /** Translation fails exactly when there is no piece table or no piece
      holds `cp`; otherwise the unicode flag is that of a piece holding it. */
  lemma TranslateFails(pieces: Option<seq<Piece>>, cp: u32)
    ensures Translate(pieces, cp).None? <==>
              pieces.None? || forall j :: 0 <= j < |pieces.value| ==> !Holds(pieces.value[j], cp)
    ensures Translate(pieces, cp).Some? ==>
              exists j :: 0 <= j < |pieces.value| && Holds(pieces.value[j], cp)
                       && Translate(pieces, cp).value.1 == pieces.value[j].unicode
  {
    if pieces.Some? {
      FirstFromSkips(pieces.value, cp, 0);
      var k := FirstFrom(pieces.value, cp, 0);
      if k < |pieces.value| {
        assert Holds(pieces.value[k], cp);
      }
    }
  }

  /** The scan over the piece table: subtract each run until a piece holds
      `cp`, then add the local offset to that piece's stream offset. */
  method CpToStreamOffset(pieces: Option<seq<Piece>>, cp: u32) returns (r: Option<(u32, bool)>)
    ensures r == Translate(pieces, cp)
  {
    if pieces.None? {
      return None;
    }
    var ps := pieces.value;
    var piece: nat := 0;
    var offset: u32 := cp;
    while piece < |ps|
      invariant piece <= |ps|
      invariant offset == OffsetAfter(ps, cp, piece)
      invariant FirstFrom(ps, cp, piece) == FirstFrom(ps, cp, 0)
    {
      if ps[piece].lim > cp && ps[piece].start <= cp {
        break;
      }
      offset := Wrap32(offset - Run(ps[piece]));
      piece := piece + 1;
    }
    if piece == |ps| {
      return None;
    }
    var fc := ps[piece].fc;
    if offset != 0 {
      fc := Wrap32(fc + if ps[piece].unicode then Wrap32(offset * 2) else offset);
    }
    r := Some((fc, ps[piece].unicode));
  }

  /** A piece table as the file format lays it out: pieces start at CP 0 and
      each piece begins where the previous one ends. */
  ghost predicate Contiguous(ps: seq<Piece>)
  {
    && (|ps| > 0 ==> ps[0].start == 0)
    && (forall j :: 0 <= j < |ps| ==> ps[j].start <= ps[j].lim)
    && (forall j :: 0 <= j < |ps| - 1 ==> ps[j].lim == ps[j + 1].start)
  }

  lemma {:induction false} StartsAscend(ps: seq<Piece>, i: nat, k: nat)
    requires Contiguous(ps) && i <= k < |ps|
    ensures ps[i].start <= ps[k].start
    decreases k - i
  {
    if i < k {
      StartsAscend(ps, i + 1, k);
    }
  }

  /** In a contiguous table the runs passed over add up to the start of the
      piece reached, so the scan's offset is the distance from that start. */
  lemma {:induction false} OffsetIsLocal(ps: seq<Piece>, cp: u32, k: nat)
    requires Contiguous(ps) && k < |ps| && ps[k].start <= cp
    ensures OffsetAfter(ps, cp, k) == cp - ps[k].start
  {
    if k > 0 {
      StartsAscend(ps, k - 1, k);
      OffsetIsLocal(ps, cp, k - 1);
    }
  }

  /** The stream offset of a CP is the offset of the first piece holding it
      plus the CP's distance from that piece's start, doubled when the piece
      is unicode (modulo 2^32, as the source computes it). */
  lemma TranslateContiguous(ps: seq<Piece>, cp: u32, k: nat)
    requires Contiguous(ps) && k < |ps| && Holds(ps[k], cp)
    requires forall j :: 0 <= j < k ==> !Holds(ps[j], cp)
    ensures Translate(Some(ps), cp)
         == Some((Wrap32(ps[k].fc + (if ps[k].unicode then 2 else 1) * (cp - ps[k].start)), ps[k].unicode))
  {
    FirstFromAt(ps, cp, 0, k);
    OffsetIsLocal(ps, cp, k);
  }

  /** Within one piece, translation is strictly increasing in the CP as long
      as the piece's bytes do not run past 2^32. */
  lemma TranslateMonotone(ps: seq<Piece>, k: nat, cp1: u32, cp2: u32)
    requires Contiguous(ps) && k < |ps|
    requires forall j :: 0 <= j < k ==> !Holds(ps[j], cp1) && !Holds(ps[j], cp2)
    requires Holds(ps[k], cp1) && Holds(ps[k], cp2) && cp1 < cp2
    requires ps[k].fc + 2 * (ps[k].lim - ps[k].start) < U32_LIMIT
    ensures Translate(Some(ps), cp1).Some? && Translate(Some(ps), cp2).Some?
    ensures Translate(Some(ps), cp1).value.0 < Translate(Some(ps), cp2).value.0
  {
    TranslateContiguous(ps, cp1, k);
    TranslateContiguous(ps, cp2, k);
  }

  /** Two overlapping pieces: the scan takes the first one. */
  lemma FirstPieceWins(ps: seq<Piece>, cp: u32, k: nat)
    requires k < |ps| && Holds(ps[k], cp)
    requires forall j :: 0 <= j < k ==> !Holds(ps[j], cp)
    ensures Translate(Some(ps), cp).Some? && Translate(Some(ps), cp).value.1 == ps[k].unicode
  {
    FirstFromAt(ps, cp, 0, k);
  }
}
