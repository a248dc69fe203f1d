/**
 * The record tokenizer of `DAGstatus.py`: `strip_comments`, `strip_doublequotes` and
 * `interpret_line`, which turn one body line `Key = value; /* comment */` of a DAGMan
 * node-status file into a (key, value, comment) triple.
 */
module Tokenizer {
  import opened PyStrings
  import opened Results

  /** The `Line` namedtuple: one tokenized body line. */
  datatype Line = Line(key: string, value: string, comment: string)

  /** `strip_comments`: drop every `/*`, then every `*/`, then strip whitespace. */
  function StripComments(s: string): string {
    Strip(RemoveAll(RemoveAll(s, "/*"), "*/"))
  }

  /** `strip_comments` leaves no whitespace at either end and removes only `/`, `*`
      and whitespace. */
  lemma StripCommentsShape(s: string, d: char)
    requires d != '/' && d != '*' && !IsSpace(d)
    ensures Stripped(StripComments(s))
    ensures multiset(StripComments(s))[d] == multiset(s)[d]
  {
    var once := RemoveAll(s, "/*");
    var inner := RemoveAll(once, "*/");
    StripIsStripped(inner);
    RemoveAllKeepsCount(s, "/*", d);
    RemoveAllKeepsCount(once, "*/", d);
    StripKeepsCount(inner, d);
  }

  /** `strip_doublequotes`: every `"` dropped. */
  function StripDoubleQuotes(s: string): (r: string)
    ensures '"' !in r
  {
    RemoveChar(s, '"')
  }

  /** `raw` in `interpret_line`: the line with every newline dropped, then stripped. */
  function Raw(line: string): string {
    Strip(RemoveChar(line, '\n'))
  }

  /** `[x.strip() for x in parts]` */
  function StripEach(parts: seq<string>): (r: seq<string>)
    ensures |r| == |parts|
    ensures forall i :: 0 <= i < |parts| ==> r[i] == Strip(parts[i])
  {
    seq(|parts|, i requires 0 <= i < |parts| => Strip(parts[i]))
  }

  /**
   * `interpret_line`. The line is split at every `=` and only the first two pieces are
   * used; the second piece is split at every `;`, its first part is the value and its
   * second part becomes the comment only when there are exactly two parts. A line
   * without `=` makes `parts[1]` raise IndexError.
   */
  function InterpretLine(line: string): Result<Line> {
    var raw := Raw(line);
    var parts := StripEach(Split(raw, '='));
    if |parts| < 2 then
      Err(MalformedLine(line))
    else
      var other := StripEach(Split(parts[1], ';'));
      var value := StripDoubleQuotes(other[0]);
      var comment := if |other| == 2 then StripDoubleQuotes(StripComments(other[1])) else "";
      Ok(Line(parts[0], value, comment))
  }

  // ---------------------------------------------------------------------------
  // What interpret_line computes

  /** `Raw` keeps every `=` and `;` of the line. */
  lemma RawKeepsCount(line: string, c: char)
    requires !IsSpace(c)
    ensures multiset(Raw(line))[c] == multiset(line)[c]
  {
    RemoveCharKeepsCount(line, '\n', c);
    StripKeepsCount(RemoveChar(line, '\n'), c);
  }

  /** The first two pieces of a split, stated without `Split`. */
  lemma SplitPieces(s: string, c: char)
    ensures Split(s, c)[0] == UpTo(s, c)
    ensures c in s ==> Split(s, c)[1] == UpTo(After(s, c), c)
    ensures c in s ==> multiset(s)[c] == multiset(UpTo(s, c))[c] + 1 + multiset(After(s, c))[c]
  {
    if c in s {
      var i := IndexOf(s, c);
      assert s == s[..i] + [c] + s[i + 1..];
      assert Split(s, c)[1] == Split(After(s, c), c)[0];
      SplitPieces(After(s, c), c);
    }
  }

  /** A line is malformed exactly when it holds no `=`. */
  lemma InterpretLineFails(line: string)
    ensures InterpretLine(line).Err? <==> '=' !in line
    ensures InterpretLine(line).Err? ==> InterpretLine(line).error == MalformedLine(line)
  {
    RawKeepsCount(line, '=');
  }

  /** The text between the first `=` and the next `=` (or the end), after `Raw`. */
  function EqualsSegment(line: string): string
    requires '=' in line
  {
    RawKeepsCount(line, '=');
    UpTo(After(Raw(line), '='), '=')
  }

  /** The key of a body line: the stripped text before its first `=`. */
  function KeyOf(line: string): string {
    Strip(UpTo(Raw(line), '='))
  }

  /**
   * The fields of a body line, described on the line itself rather than through
   * `split`: the key is the stripped text before the first `=`; the value is the
   * stripped text of the segment after it up to its first `;`, without quotes; the
   * comment is present only when that segment holds exactly one `;`, and is then the
   * stripped text after it with comment markers and quotes removed.
   */
  function LineFields(line: string): Line
    requires '=' in line
  {
    var seg := EqualsSegment(line);
    Line(
      KeyOf(line),
      StripDoubleQuotes(Strip(UpTo(seg, ';'))),
      if multiset(seg)[';'] == 1
      then StripDoubleQuotes(StripComments(Strip(After(seg, ';'))))
      else "")
  }

  /** The first two pieces of the `=` split: the key and the stripped segment. */
  lemma EqualsParts(line: string)
    requires '=' in line
    ensures var parts := StripEach(Split(Raw(line), '='));
            && |parts| >= 2
            && parts[0] == KeyOf(line)
            && parts[1] == Strip(EqualsSegment(line))
  {
    RawKeepsCount(line, '=');
    SplitPieces(Raw(line), '=');
  }

  /** The pieces of the `;` split of a stripped segment: one more than its `;` count,
      the first is the value text, and the second the text after the only `;`. */
  lemma SemicolonParts(seg: string)
    ensures var other := StripEach(Split(Strip(seg), ';'));
            && |other| == multiset(seg)[';'] + 1
            && other[0] == Strip(UpTo(seg, ';'))
  {
    SplitPieces(Strip(seg), ';');
    StripUpToStrip(seg, ';');
    StripKeepsCount(seg, ';');
  }

  /** With exactly one `;`, the second piece is all of the text after it. */
  lemma SemicolonComment(seg: string)
    requires multiset(seg)[';'] == 1
    ensures ';' in seg
    ensures var other := StripEach(Split(Strip(seg), ';'));
            |other| == 2 && other[1] == Strip(After(seg, ';'))
  {
    var p1 := Strip(seg);
    StripKeepsCount(seg, ';');
    SplitPieces(p1, ';');
    assert ';' in p1;
    var rest := After(p1, ';');
    assert ';' !in rest;
    assert UpTo(rest, ';') == rest;
    StripAfterStrip(seg, ';');
  }

  /** `interpret_line` computes exactly the fields `LineFields` describes. */
  lemma InterpretLineFields(line: string)
    requires '=' in line
    ensures InterpretLine(line) == Ok(LineFields(line))
  {
    EqualsParts(line);
    var seg := EqualsSegment(line);
    SemicolonParts(seg);
    if multiset(seg)[';'] == 1 {
      SemicolonComment(seg);
    }
  }

  /** A line with `=` tokenizes, under the key `KeyOf` gives. */
  lemma InterpretLineKey(line: string)
    requires '=' in line
    ensures InterpretLine(line).Ok? && InterpretLine(line).value.key == KeyOf(line)
  {
    InterpretLineFields(line);
  }

  /** The shape every tokenized line has: a stripped key without `=`, a value and a
      comment without quotes, and a comment only where exactly one `;` follows the `=`. */
  lemma LineFieldsShape(line: string)
    requires '=' in line
    ensures var l := LineFields(line);
            && Stripped(l.key) && '=' !in l.key && '"' !in l.value && '"' !in l.comment
            && (l.comment != "" ==> multiset(EqualsSegment(line))[';'] == 1)
  {
    StripIsStripped(UpTo(Raw(line), '='));
    StripKeepsCount(UpTo(Raw(line), '='), '=');
  }

  // ---------------------------------------------------------------------------
  // Writing a line back: the tokenizer inverts the status file's own line layout

  /** Text that can stand as a field of a body line and come back unchanged. */
  predicate Plain(s: string) {
    Stripped(s) && '=' !in s && ';' !in s && '\n' !in s && '"' !in s
  }

  /** A line whose fields survive being written out and read back. */
  predicate Writable(l: Line) {
    && l.key != [] && Plain(l.key)
    && Plain(l.value)
    && Plain(l.comment) && '/' !in l.comment && '*' !in l.comment
  }

  /** A field, in double quotes or bare. */
  function Quote(s: string, quoted: bool): string {
    if quoted then "\"" + s + "\"" else s
  }

  /** The part of a body line after its `;`: nothing, or the comment between markers. */
  function CommentPart(l: Line, quoted: bool): string {
    if l.comment == "" then "" else " /* " + Quote(l.comment, quoted) + " */"
  }

  /**
   * The layout of a body line in a DAGMan node-status file:
   * `Key = value;` or `Key = value; /* comment */`, with the value and the comment each
   * in double quotes or bare (DAGMan writes `Timestamp = 1462285449; /* "..." */`).
   */
  function FormatLine(l: Line, valueQuoted: bool, commentQuoted: bool): string {
    l.key + " = " + Quote(l.value, valueQuoted) + ";" + CommentPart(l, commentQuoted) + "\n"
  }

  lemma StripPadded(c: string)
    requires Stripped(c)
    ensures Strip(" " + c + " ") == c
  {
    StripLeadingSpaces(" ", c + " ");
    assert " " + c + " " == " " + (c + " ");
    StripTrailingSpaces(c, " ");
    StrippedFixed(c);
  }

  /** Quotes around quote-free text are all `strip_doublequotes` removes. */
  lemma UnquoteQuoted(v: string, quoted: bool)
    requires '"' !in v
    ensures StripDoubleQuotes(Quote(v, quoted)) == v
  {
    RemoveCharAbsent(v, '"');
    if quoted {
      RemoveCharConcat("\"" + v, "\"", '"');
      RemoveCharConcat("\"", v, '"');
      assert RemoveChar("\"", '"') == [];
    }
  }

  lemma QuoteStripped(v: string, quoted: bool)
    requires Stripped(v)
    ensures Stripped(Quote(v, quoted))
  {
  }

  lemma RemoveOpenMarker(body: string)
    requires '/' !in body && '*' !in body
    ensures RemoveAll("/*" + body + "*/", "/*") == body + "*/"
  {
    var s := "/*" + body + "*/";
    assert s[..2] == "/*" && s[2..] == (body + "*") + "/";
    RemoveAllKeepsPrefix(body + "*", "/", "/*");
    assert RemoveAll("/", "/*") == "/";
    assert (body + "*") + "/" == body + "*/";
  }

  lemma RemoveCloseMarker(body: string)
    requires '*' !in body
    ensures RemoveAll(body + "*/", "*/") == body
  {
    RemoveAllKeepsPrefix(body, "*/", "*/");
    assert RemoveAll("*/", "*/") == "";
  }

  /** The comment markers around a comment are what `strip_comments` removes. */
  lemma StripCommentsWrapped(c: string)
    requires Stripped(c) && '/' !in c && '*' !in c
    ensures StripComments("/* " + c + " */") == c
  {
    var body := " " + c + " ";
    assert "/* " + c + " */" == "/*" + body + "*/";
    RemoveOpenMarker(body);
    RemoveCloseMarker(body);
    StripPadded(c);
  }

  /** The comment of a written line comes back from the text after its `;`. */
  lemma CommentPartBack(l: Line, quoted: bool)
    requires Writable(l)
    ensures StripDoubleQuotes(StripComments(Strip(CommentPart(l, quoted)))) == l.comment
  {
    var c := l.comment;
    if c == "" {
      assert RemoveAll("", "/*") == "" && RemoveAll("", "*/") == "";
      assert RemoveChar("", '"') == "";
    } else {
      var qc := Quote(c, quoted);
      var wrapped := "/* " + qc + " */";
      assert CommentPart(l, quoted) == " " + wrapped;
      StripLeadingSpaces(" ", wrapped);
      StrippedFixed(wrapped);
      QuoteStripped(c, quoted);
      StripCommentsWrapped(qc);
      UnquoteQuoted(c, quoted);
    }
  }

  /** Newline removal and the outer strip leave a written line without its newline. */
  lemma RawFormatLine(l: Line, valueQuoted: bool, commentQuoted: bool)
    requires Writable(l)
    ensures Raw(FormatLine(l, valueQuoted, commentQuoted))
            == l.key + " = " + Quote(l.value, valueQuoted) + ";" + CommentPart(l, commentQuoted)
  {
    var body := l.key + " = " + Quote(l.value, valueQuoted) + ";" + CommentPart(l, commentQuoted);
    assert FormatLine(l, valueQuoted, commentQuoted) == body + "\n";
    assert '\n' !in body;
    RemoveCharConcat(body, "\n", '\n');
    RemoveCharAbsent(body, '\n');
    assert RemoveChar("\n", '\n') == [];
    assert body[0] == l.key[0];
    assert body[|body| - 1] == (if l.comment == "" then ';' else '/');
    StrippedFixed(body);
  }

  /** A string with exactly one `c` falls apart at it. */
  lemma CutAtOnly(a: string, b: string, c: char)
    requires c !in a && c !in b
    ensures c in a + [c] + b
    ensures UpTo(a + [c] + b, c) == a && After(a + [c] + b, c) == b
    ensures multiset(a + [c] + b)[c] == 1
  {
    assert a + [c] + b == a + ([c] + b);
    UpToAfterPrefix(a, [c] + b, c);
    assert UpTo([c] + b, c) == [];
    assert After([c] + b, c) == b;
  }

  /** A written line, after `Raw`, holds one `=`, between the key and the rest. */
  lemma RawAroundEquals(l: Line, valueQuoted: bool, commentQuoted: bool)
    requires Writable(l)
    ensures var rest := " " + Quote(l.value, valueQuoted) + ";" + CommentPart(l, commentQuoted);
            && Raw(FormatLine(l, valueQuoted, commentQuoted)) == (l.key + " ") + ['='] + rest
            && '=' !in l.key + " " && '=' !in rest
  {
    var qv := Quote(l.value, valueQuoted);
    var cp := CommentPart(l, commentQuoted);
    assert '=' !in qv && '=' !in cp;
    RawFormatLine(l, valueQuoted, commentQuoted);
  }

  lemma FormatLineEquals(l: Line, valueQuoted: bool, commentQuoted: bool)
    requires Writable(l)
    ensures '=' in FormatLine(l, valueQuoted, commentQuoted)
    ensures UpTo(Raw(FormatLine(l, valueQuoted, commentQuoted)), '=') == l.key + " "
    ensures EqualsSegment(FormatLine(l, valueQuoted, commentQuoted))
            == " " + Quote(l.value, valueQuoted) + ";" + CommentPart(l, commentQuoted)
  {
    var line := FormatLine(l, valueQuoted, commentQuoted);
    var rest := " " + Quote(l.value, valueQuoted) + ";" + CommentPart(l, commentQuoted);
    RawAroundEquals(l, valueQuoted, commentQuoted);
    CutAtOnly(l.key + " ", rest, '=');
    RawKeepsCount(line, '=');
  }

  /** Where the `;` of a written line's segment falls. */
  lemma SegmentSemicolon(qv: string, cp: string)
    requires ';' !in qv && ';' !in cp
    ensures var seg := " " + qv + ";" + cp;
            && UpTo(seg, ';') == " " + qv && ';' in seg && After(seg, ';') == cp
            && multiset(seg)[';'] == 1
  {
    assert " " + qv + ";" + cp == (" " + qv) + [';'] + cp;
    CutAtOnly(" " + qv, cp, ';');
  }

  /** The key of a written line reads back. */
  lemma KeyBack(l: Line)
    requires Writable(l)
    ensures Strip(l.key + " ") == l.key
  {
    StripTrailingSpaces(l.key, " ");
    StrippedFixed(l.key);
  }

  /** The value of a written line reads back. */
  lemma ValueBack(l: Line, quoted: bool)
    requires Writable(l)
    ensures StripDoubleQuotes(Strip(" " + Quote(l.value, quoted))) == l.value
  {
    var qv := Quote(l.value, quoted);
    StripLeadingSpaces(" ", qv);
    QuoteStripped(l.value, quoted);
    StrippedFixed(qv);
    UnquoteQuoted(l.value, quoted);
  }

  lemma LineFieldsFormatLine(l: Line, valueQuoted: bool, commentQuoted: bool)
    requires Writable(l)
    ensures '=' in FormatLine(l, valueQuoted, commentQuoted) && LineFields(FormatLine(l, valueQuoted, commentQuoted)) == l
  {
    FormatLineEquals(l, valueQuoted, commentQuoted);
    SegmentSemicolon(Quote(l.value, valueQuoted), CommentPart(l, commentQuoted));
    KeyBack(l);
    ValueBack(l, valueQuoted);
    CommentPartBack(l, commentQuoted);
  }

  /** Reading back a written line gives the line: `interpret_line` inverts `FormatLine`. */
  lemma InterpretFormatLine(l: Line, valueQuoted: bool, commentQuoted: bool)
    requires Writable(l)
    ensures InterpretLine(FormatLine(l, valueQuoted, commentQuoted)) == Ok(l)
  {
    LineFieldsFormatLine(l, valueQuoted, commentQuoted);
    InterpretLineFields(FormatLine(l, valueQuoted, commentQuoted));
  }

  // ---------------------------------------------------------------------------
  // strip_doublequotes

  /** Removing quotes keeps the other characters in order: it commutes with concatenation,
      leaves quote-free text alone, and applying it twice is applying it once. */
  lemma StripDoubleQuotesLaws(a: string, b: string)
    ensures StripDoubleQuotes(a + b) == StripDoubleQuotes(a) + StripDoubleQuotes(b)
    ensures '"' !in a ==> StripDoubleQuotes(a) == a
    ensures StripDoubleQuotes(StripDoubleQuotes(a)) == StripDoubleQuotes(a)
  {
    RemoveCharConcat(a, b, '"');
    if '"' !in a {
      RemoveCharAbsent(a, '"');
    }
    RemoveCharIdempotent(a, '"');
  }
}
