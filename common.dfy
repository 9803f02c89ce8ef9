/** Values shared by every component: optional results, the machine integers
    the decoders work with, little-endian reads from byte strings, and the
    semantic tags that parsers send downstream. */
module Common {

  datatype Option<+T> = None | Some(value: T)

  /** Success, or a failure carrying the message of the exception thrown. */
  datatype Outcome = Pass | Fail(message: string)

  /** A value, or the message of the exception thrown instead. */
  datatype Result<T> = Ok(value: T) | Err(message: string)

  const U32_LIMIT: int := 0x1_0000_0000

  type byte = x: int | 0 <= x < 0x100
  type u16 = x: int | 0 <= x < 0x1_0000
  type u32 = x: int | 0 <= x < 0x1_0000_0000

  /** The value an unsigned 32-bit variable holds after being assigned `x`. */
  function Wrap32(x: int): (r: u32)
    ensures 0 <= x < U32_LIMIT ==> r == x
  {
    x % U32_LIMIT
  }

  /** One carry out of 32 bits, or one borrow, wraps by exactly 2^32. */
  lemma Wrap32Once(x: int)
    ensures U32_LIMIT <= x < 2 * U32_LIMIT ==> Wrap32(x) == x - U32_LIMIT
    ensures -U32_LIMIT <= x < 0 ==> Wrap32(x) == x + U32_LIMIT
  {
  }

  /** Unsigned 16-bit little-endian value at `pos`, if the bytes are there. */
  function U16At(s: seq<byte>, pos: nat): (r: Option<u16>)
    ensures r.Some? <==> pos + 2 <= |s|
  {
    if pos + 2 <= |s| then Some(s[pos] as int + 0x100 * s[pos + 1] as int) else None
  }

  /** Signed 16-bit little-endian value at `pos` (two's complement). */
  function S16At(s: seq<byte>, pos: nat): (r: Option<int>)
    ensures r.Some? <==> pos + 2 <= |s|
  {
    match U16At(s, pos)
    case None => None
    case Some(v) => Some(if v < 0x8000 then v else v - 0x1_0000)
  }

  /** Unsigned 32-bit little-endian value at `pos`. */
  function U32At(s: seq<byte>, pos: nat): (r: Option<u32>)
    ensures r.Some? <==> pos + 4 <= |s|
  {
    if pos + 4 <= |s| then
      Some(s[pos] as int + 0x100 * s[pos + 1] as int + 0x1_0000 * s[pos + 2] as int
           + 0x100_0000 * s[pos + 3] as int)
    else None
  }

  /** The low byte of a 16-bit value comes first, and the value's sign is
      the top bit of the second byte. */
  lemma U16Bytes(s: seq<byte>, pos: nat)
    requires pos + 2 <= |s|
    ensures U16At(s, pos).value % 0x100 == s[pos] && U16At(s, pos).value / 0x100 == s[pos + 1]
    ensures -0x8000 <= S16At(s, pos).value < 0x8000
    ensures S16At(s, pos).value < 0 <==> s[pos + 1] >= 0x80
    ensures S16At(s, pos).value % 0x1_0000 == U16At(s, pos).value
  {
  }

  /** The first byte of a 32-bit value is its lowest, the last its
      highest. */
  lemma U32Bytes(s: seq<byte>, pos: nat)
    requires pos + 4 <= |s|
    ensures U32At(s, pos).value % 0x100 == s[pos] && U32At(s, pos).value / 0x100_0000 == s[pos + 3]
  {
  }

  const VT: char := '\U{000B}'

  /** The text normalisation applied before every Text and Comment tag: each
      vertical tab (0x0B) becomes a line feed, every other character stays
      where it is. */
  function VtToLf(s: string): (r: string)
    ensures |r| == |s|
    ensures VT !in r
    ensures forall i :: 0 <= i < |s| && s[i] != VT ==> r[i] == s[i]
  {
    seq(|s|, i requires 0 <= i < |s| => if s[i] == VT then '\n' else s[i])
  }

  lemma VtToLfIdempotent(s: string)
    ensures VtToLf(VtToLf(s)) == VtToLf(s)
  {
  }

  lemma VtToLfConcat(a: string, b: string)
    ensures VtToLf(a + b) == VtToLf(a) + VtToLf(b)
  {
    assert forall i :: 0 <= i < |a + b| ==> VtToLf(a + b)[i] == (VtToLf(a) + VtToLf(b))[i];
  }

  /** A character made from one byte, as `(char)` of an 8-bit value stores it
      in a `std::string`. */
  function ByteChar(b: byte): char
  {
    (b as int) as char
  }

  /** The semantic tags exchanged between parsers and the rest of the
      pipeline (the variant `Tag`; metadata and styling tags are not part of
      this model). */
  datatype Tag =
    | Paragraph | CloseParagraph
    | Text(text: string)
    | Table | CloseTable | TableRow | CloseTableRow | TableCell | CloseTableCell
    | Header | CloseHeader | Footer | CloseFooter
    | Link(url: string) | CloseLink
    | Comment(author: string, comment: string)
    | Attachment(name: string, size: nat, extension: string) | CloseAttachment
    | File(source: string, name: string)
    | Document | CloseDocument
    | DataSource(path: string)
}
