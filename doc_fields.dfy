/** Field reconstruction of the Word binary parser: the field type codes, the
    three parts of a field, and the rewriting done at the end of a field,
    which turns the accumulated parameter and value text into fill-in text,
    a hyperlink, or the plain value. */
module DocFields {
  import opened Common

  /** Field type codes, as the Word binary file format numbers them. */
  const FLT_NONE: int := 0
  const FLT_FILLIN: int := 0x27
  const FLT_EMBED: int := 0x3A
  const FLT_HYPERLINK: int := 0x58

  /** Which text a run of text inside a field belongs to. */
  datatype FieldPart = PartNone | PartParams | PartValue

  /** Indexing of the decoder's string class: the null character past the
      end instead of undefined behaviour. */
  function CharAt(s: string, i: nat): char
  {
    if i < |s| then s[i] else '\0'
  }

  /** End of the run of spaces starting at `i`. */
  function SpacesEnd(s: string, i: nat): (j: nat)
    requires i <= |s|
    ensures i <= j <= |s|
    ensures forall k :: i <= k < j ==> s[k] == ' '
    ensures j == |s| || s[j] != ' '
    decreases |s| - i
  {
    if i < |s| && s[i] == ' ' then SpacesEnd(s, i + 1) else i
  }

  /** Index of the first `c` at or after `i`, or the end of `s`: the end of
      a word when `c` is a space, of a quoted URL when it is a quote. */
  function NextOf(s: string, i: nat, c: char): (j: nat)
    requires i <= |s|
    ensures i <= j <= |s|
    ensures forall k :: i <= k < j ==> s[k] != c
    ensures j == |s| || s[j] == c
    decreases |s| - i
  {
    if i < |s| && s[i] != c then NextOf(s, i + 1, c) else i
  }

  /** The arguments of a field: its parameter text without the leading
      spaces, the first word (the field code) and the spaces after it. */
  function FieldArgs(params: string): (r: string)
    ensures |r| <= |params| && r == params[|params| - |r|..]
    ensures r == [] || r[0] != ' '
  {
    params[SpacesEnd(params, NextOf(params, SpacesEnd(params, 0), ' '))..]
  }

  /** The three scans at the start of field end, as loops over an index.
      The field code read by the middle scan is not used afterwards, so it
      is not collected here. */
  method StripFieldCode(params: string) returns (args: string)
    ensures args == FieldArgs(params)
  {
    ghost var a := SpacesEnd(params, 0);
    ghost var b := NextOf(params, a, ' ');
    var i: nat := 0;
    while i < |params| && params[i] == ' '
      invariant i <= a
      invariant SpacesEnd(params, i) == a
    {
      i := i + 1;
    }
    while i < |params| && params[i] != ' '
      invariant a <= i <= b
      invariant NextOf(params, i, ' ') == b
    {
      i := i + 1;
    }
    while i < |params| && params[i] == ' '
      invariant b <= i <= |params|
      invariant SpacesEnd(params, i) == SpacesEnd(params, b)
    {
      i := i + 1;
    }
    args := params[i..];
  }

  lemma {:induction false} SpacesEndAt(s: string, i: nat, j: nat)
    requires i <= j <= |s|
    requires forall k :: i <= k < j ==> s[k] == ' '
    requires j == |s| || s[j] != ' '
    ensures SpacesEnd(s, i) == j
    decreases j - i
  {
    if i < j {
      SpacesEndAt(s, i + 1, j);
    }
  }

  lemma {:induction false} NextOfAt(s: string, i: nat, j: nat, c: char)
    requires i <= j <= |s|
    requires forall k :: i <= k < j ==> s[k] != c
    requires j == |s| || s[j] == c
    ensures NextOf(s, i, c) == j
    decreases j - i
  {
    if i < j {
      NextOfAt(s, i + 1, j, c);
    }
  }

  /** Parameter text laid out as spaces, a field code, spaces and arguments
      that do not start with a space gives back exactly those arguments. */
  lemma FieldArgsSplit(lead: string, code: string, gap: string, args: string)
    requires forall k :: 0 <= k < |lead| ==> lead[k] == ' '
    requires 0 < |code| && forall k :: 0 <= k < |code| ==> code[k] != ' '
    requires 0 < |gap| && forall k :: 0 <= k < |gap| ==> gap[k] == ' '
    requires args == [] || args[0] != ' '
    ensures FieldArgs(lead + code + gap + args) == args
  {
    var s := lead + code + gap + args;
    var a := |lead|;
    var b := a + |code|;
    var c := b + |gap|;
    assert forall k :: 0 <= k < a ==> s[k] == lead[k];
    assert forall k :: a <= k < b ==> s[k] == code[k - a];
    assert forall k :: b <= k < c ==> s[k] == gap[k - b];
    assert forall k :: c <= k < |s| ==> s[k] == args[k - c];
    SpacesEndAt(s, 0, a);
    NextOfAt(s, a, b, ' ');
    SpacesEndAt(s, b, c);
    assert s[c..] == args;
  }

  /** URL of a quoted hyperlink argument: what follows the opening quote, up
      to the next quote or the end of the arguments. */
  function UrlOf(args: string): string
    requires |args| >= 1
  {
    args[1..NextOf(args, 1, '"')]
  }

  /** The URL scan of field end, as a loop. */
  method ScanUrl(args: string) returns (url: string)
    requires |args| >= 1
    ensures url == UrlOf(args)
  {
    url := "";
    var i: nat := 1;
    while i < |args| && args[i] != '"'
      invariant 1 <= i <= |args|
      invariant NextOf(args, i, '"') == NextOf(args, 1, '"')
      invariant url == args[1..i]
    {
      url := url + [args[i]];
      i := i + 1;
    }
  }

  /** A URL between quotes is recovered whatever follows the closing quote,
      and an unterminated one runs to the end of the arguments. */
  lemma UrlRoundTrip(u: string, rest: string)
    requires forall k :: 0 <= k < |u| ==> u[k] != '"'
    ensures UrlOf("\"" + u + "\"" + rest) == u
    ensures UrlOf("\"" + u) == u
  {
    var s := "\"" + u + "\"" + rest;
    assert forall k :: 1 <= k <= |u| ==> s[k] == u[k - 1];
    NextOfAt(s, 1, |u| + 1, '"');
    assert s[1..|u| + 1] == u;
    var t := "\"" + u;
    assert forall k :: 1 <= k <= |u| ==> t[k] == u[k - 1];
    NextOfAt(t, 1, |u| + 1, '"');
    assert t[1..] == u;
  }

  /** The tags sent at the end of a field of type `fieldType` whose parameter
      and value texts are `params` and `value`. */
  function FieldEndTags(fieldType: int, params: string, value: string): (r: seq<Tag>)
    ensures |r| >= 1 && r[|r| - 1].Text?
    ensures fieldType != FLT_HYPERLINK ==> |r| == 1
    ensures |r| == 1 ==> VT !in r[0].text
  {
    var args := FieldArgs(params);
    if fieldType == FLT_FILLIN then [Text(VtToLf(args + " " + value))]
    else if fieldType == FLT_EMBED then [Text(VtToLf(""))]
    else if fieldType == FLT_HYPERLINK then
      if CharAt(args, 0) == '"' then [Link(UrlOf(args)), Text(value), CloseLink, Text(VtToLf(""))]
      else [Text(VtToLf(args + " " + value))]
    else [Text(VtToLf(value))]
  }

  /** A hyperlink field whose code is followed by a quoted URL sends the
      link, the value as its text, the link's end, and an empty text. */
  lemma HyperlinkField(code: string, url: string, rest: string, value: string)
    requires 0 < |code| && forall k :: 0 <= k < |code| ==> code[k] != ' '
    requires forall k :: 0 <= k < |url| ==> url[k] != '"'
    ensures FieldEndTags(FLT_HYPERLINK, code + " " + ("\"" + url + "\"" + rest), value)
         == [Link(url), Text(value), CloseLink, Text("")]
  {
    var args := "\"" + url + "\"" + rest;
    FieldArgsSplit("", code, " ", args);
    assert "" + code + " " + args == code + " " + args;
    UrlRoundTrip(url, rest);
  }

  /** An unquoted hyperlink argument falls back to plain text. */
  lemma HyperlinkFallback(code: string, args: string, value: string)
    requires 0 < |code| && forall k :: 0 <= k < |code| ==> code[k] != ' '
    requires args == [] || (args[0] != ' ' && args[0] != '"')
    ensures FieldEndTags(FLT_HYPERLINK, code + " " + args, value) == [Text(VtToLf(args + " " + value))]
  {
    FieldArgsSplit("", code, " ", args);
    assert "" + code + " " + args == code + " " + args;
    assert FieldArgs(code + " " + args) == args;
    assert CharAt(args, 0) != '"';
  }

  /** A HYPERLINK field with parameters `"URL" "http://example.com"` and
      value `Example` gives a link to `http://example.com` with the text
      `Example`. */
  lemma HyperlinkExample()
    ensures FieldEndTags(FLT_HYPERLINK, "\"URL\" \"http://example.com\"", "Example")
         == [Link("http://example.com"), Text("Example"), CloseLink, Text("")]
  {
    var url := "http://example.com";
    assert forall k :: 0 <= k < |url| ==> url[k] != '"';
    assert "\"URL\"" + " " + ("\"" + url + "\"" + "") == "\"URL\" \"http://example.com\"";
    HyperlinkField("\"URL\"", url, "", "Example");
  }
}
