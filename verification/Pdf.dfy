// deception/content_generators.py: the cross-reference table and string
// escaping of the generated PDF (ISO 32000-1, sections 7.5.4 and 7.3.4.2).

module Pdf {
  import opened Results
  import opened ByteStrings
  import opened Text
  import opened Decimal

  // ---- Literal strings -----------------------------------------------------------

  /** Replaces every occurrence of one character, as str.replace does. */
  function ReplaceChar(s: string, c: char, text: string): string {
    if s == "" then "" else (if s[0] == c then text else [s[0]]) + ReplaceChar(s[1..], c, text)
  }

  function Escape(line: string): string {
    ReplaceChar(ReplaceChar(ReplaceChar(line, '\\', "\\\\"), '(', "\\("), ')', "\\)")
  }

  /** How a reader undoes it: a backslash stands for the character after it. */
  function Unescape(s: string): string {
    if s == "" then ""
    else if s[0] == '\\' && |s| >= 2 then [s[1]] + Unescape(s[2..])
    else [s[0]] + Unescape(s[1..])
  }

  /** Every parenthesis in s is escaped, so a literal string holding it ends where it should. */
  predicate Balanced(s: string) {
    if s == "" then true
    else if s[0] == '\\' then |s| >= 2 && Balanced(s[2..])
    else s[0] != '(' && s[0] != ')' && Balanced(s[1..])
  }

  function EscapeOne(c: char): string {
    if c == '\\' || c == '(' || c == ')' then ['\\', c] else [c]
  }

  lemma {:induction false} ReplaceAppend(s: string, t: string, c: char, text: string)
    ensures ReplaceChar(s + t, c, text) == ReplaceChar(s, c, text) + ReplaceChar(t, c, text)
  {
    if s == "" {
      assert s + t == t;
    } else {
      ReplaceAppend(s[1..], t, c, text);
      assert (s + t)[0] == s[0] && (s + t)[1..] == s[1..] + t;
      var first := if s[0] == c then text else [s[0]];
      Associative(first, ReplaceChar(s[1..], c, text), ReplaceChar(t, c, text));
    }
  }

  lemma Associative(a: string, b: string, c: string)
    ensures a + (b + c) == (a + b) + c
  {}

  lemma ReplaceShort(a: char, b: char, c: char, text: string)
    ensures ReplaceChar([a], c, text) == if a == c then text else [a]
    ensures ReplaceChar([a, b], c, text) == (if a == c then text else [a]) + (if b == c then text else [b])
  {
    assert [a][1..] == "" && [a, b][1..] == [b] && [b][1..] == "";
  }

  lemma EscapeSingle(c: char)
    ensures Escape([c]) == EscapeOne(c)
  {
    ReplaceShort(c, c, '\\', "\\\\");
    ReplaceShort('\\', '\\', '(', "\\(");
    ReplaceShort('\\', '\\', ')', "\\)");
    ReplaceShort(c, c, '(', "\\(");
    ReplaceShort('\\', '(', ')', "\\)");
    ReplaceShort(c, c, ')', "\\)");
  }

  lemma EscapeStep(line: string)
    requires line != ""
    ensures Escape(line) == EscapeOne(line[0]) + Escape(line[1..])
  {
    var c, rest := [line[0]], line[1..];
    assert line == c + rest;
    ReplaceAppend(c, rest, '\\', "\\\\");
    var c1, rest1 := ReplaceChar(c, '\\', "\\\\"), ReplaceChar(rest, '\\', "\\\\");
    ReplaceAppend(c1, rest1, '(', "\\(");
    ReplaceAppend(ReplaceChar(c1, '(', "\\("), ReplaceChar(rest1, '(', "\\("), ')', "\\)");
    EscapeSingle(line[0]);
  }

  /** Unescaping an escaped line gives it back, and no parenthesis in it is left bare. */
  lemma {:induction false} UnescapeUndoesEscape(line: string)
    ensures Unescape(Escape(line)) == line && Balanced(Escape(line))
  {
    if line != "" {
      UnescapeUndoesEscape(line[1..]);
      EscapeStep(line);
      var e, rest := EscapeOne(line[0]), Escape(line[1..]);
      assert |e| == 1 ==> (e + rest)[1..] == rest;
      assert |e| == 2 ==> (e + rest)[2..] == rest;
    }
  }

  // ---- The file --------------------------------------------------------------------

  function Ascii(s: string): Bytes {
    Encode(s)
  }

  function XrefEntry(offset: nat): Bytes {
    Padded(offset, 10) + Ascii(" 00000 n \n")
  }

  /** An entry is twenty bytes, as the table's fixed-width format needs, exactly for an
      offset of at most ten digits. */
  lemma EntryIsTwentyBytes(offset: nat)
    ensures |XrefEntry(offset)| == 20 <==> offset < Pow10(10)
    ensures Value(XrefEntry(offset)[..|XrefEntry(offset)| - 10]) == offset
  {
    PaddedDenotes(offset, 10);
    AsciiLength(" 00000 n \n");
    assert XrefEntry(offset)[..|XrefEntry(offset)| - 10] == Padded(offset, 10);
  }

  /** The first 24 lines of the text are put on the page. */
  function Shown(text: seq<string>): (shown: seq<string>)
    ensures shown <= text && |shown| == if |text| <= 24 then |text| else 24
  {
    if |text| <= 24 then text else text[..24]
  }

  function ContentLines(lines: seq<string>): seq<string> {
    ["BT", "/F1 11 Tf", "50 750 Td", "14 TL"]
    + seq(|lines|, i requires 0 <= i < |lines| => "(" + Escape(lines[i]) + ") Tj T*")
    + ["ET"]
  }

  function JoinLines(lines: seq<string>): string {
    if lines == [] then "" else if |lines| == 1 then lines[0] else lines[0] + "\n" + JoinLines(lines[1..])
  }

  function ContentStream(lines: seq<string>): Bytes {
    Ascii(JoinLines(ContentLines(lines)))
  }

  function ObjectHeader(k: nat): Bytes {
    Digits(k) + Ascii(" 0 obj\n")
  }

  function StreamHead(stream: Bytes): Bytes {
    Ascii("<< /Length ") + Digits(|stream|) + Ascii(" >>\nstream\n")
  }

  const CATALOG := "<< /Type /Catalog /Pages 2 0 R >>\nendobj\n"
  const PAGES := "<< /Type /Pages /Kids [3 0 R] /Count 1 >>\nendobj\n"
  const PAGE := "<< /Type /Page /Parent 2 0 R /Resources << /Font << /F1 4 0 R >> >> /MediaBox [0 0 612 792] /Contents 5 0 R >>\nendobj\n"
  const FONT := "<< /Type /Font /Subtype /Type1 /BaseFont /Helvetica >>\nendobj\n"

  const STREAM_END := "\nendstream\nendobj\n"

  function ObjectBody(k: nat, stream: Bytes): Bytes {
    if k == 1 then Ascii(CATALOG)
    else if k == 2 then Ascii(PAGES)
    else if k == 3 then Ascii(PAGE)
    else if k == 4 then Ascii(FONT)
    else StreamHead(stream) + (stream + Ascii(STREAM_END))
  }

  function Object(k: nat, stream: Bytes): Bytes {
    ObjectHeader(k) + ObjectBody(k, stream)
  }

  function Objects(lines: seq<string>): (objects: seq<Bytes>)
    ensures |objects| == 5
  {
    var stream := ContentStream(lines);
    [Object(1, stream), Object(2, stream), Object(3, stream), Object(4, stream), Object(5, stream)]
  }

  function Header(): Bytes {
    Ascii("%PDF-1.4\n")
  }

  function TableHead(count: nat): Bytes {
    Ascii("xref\n0 ") + Digits(count) + Ascii("\n") + Ascii("0000000000 65535 f \n")
  }

  function Trailer(count: nat, xrefOffset: nat): Bytes {
    Ascii("trailer\n<< /Size ") + Digits(count) + Ascii(" /Root 1 0 R >>\n") + Ascii("startxref\n")
    + Digits(xrefOffset) + Ascii("\n%%EOF")
  }

  lemma SmallObject(k: nat, stream: Bytes)
    requires 1 <= k <= 4
    ensures |Object(k, stream)| <= 1000
  {
    hide Encode, Digits;
    assert Pow10(1) == 10 * Pow10(0);
    DigitCount(k, 1);
    EncodedLength(" 0 obj\n");
    EncodedLength(CATALOG);
    EncodedLength(PAGES);
    EncodedLength(PAGE);
    EncodedLength(FONT);
  }

  lemma SmallObjects(lines: seq<string>)
    ensures forall k :: 0 <= k < 4 ==> |Objects(lines)[k]| <= 1000
    ensures |Header()| <= 100
  {
    hide Encode, Object, ContentStream;
    var stream := ContentStream(lines);
    SmallObject(1, stream);
    SmallObject(2, stream);
    SmallObject(3, stream);
    SmallObject(4, stream);
    EncodedLength("%PDF-1.4\n");
  }

  lemma AtStays(data: Bytes, offset: nat, piece: Bytes, more: Bytes)
    requires At(data, offset, piece)
    ensures At(data + more, offset, piece)
  {}

  lemma AtEnd(data: Bytes, piece: Bytes)
    ensures At(data + piece, |data|, piece)
  {}

  /** All pieces stand where they were put. */
  ghost predicate AllAt(data: Bytes, offsets: seq<nat>, pieces: seq<Bytes>) {
    |offsets| <= |pieces| && forall k :: 0 <= k < |offsets| ==> At(data, offsets[k], pieces[k])
  }

  lemma AllStay(data: Bytes, offsets: seq<nat>, pieces: seq<Bytes>, more: Bytes)
    requires AllAt(data, offsets, pieces)
    ensures AllAt(data + more, offsets, pieces)
  {}

  /** The table is laid out at xref: its head, one twenty-byte entry per offset listed. */
  ghost predicate TableAt(data: Bytes, xref: nat, offsets: seq<nat>) {
    && At(data, xref, TableHead(6))
    && forall k :: 0 <= k < |offsets| ==> At(data, xref + |TableHead(6)| + 20 * k, XrefEntry(offsets[k]))
  }

  predicate EntriesFit(offsets: seq<nat>) {
    forall k :: 0 <= k < |offsets| ==> |XrefEntry(offsets[k])| == 20
  }

  /** Every object stands at the offset its table entry gives, the table at the offset
      startxref gives, and the trailer closes the file. */
  ghost predicate LaidOut(pdf: Bytes, objects: seq<Bytes>, offsets: seq<nat>, xref: nat) {
    && |offsets| == |objects| == 5 && AllAt(pdf, offsets, objects)
    && EntriesFit(offsets)
    && TableAt(pdf, xref, offsets)
    && At(pdf, xref + |TableHead(6)| + 100, Trailer(6, xref))
    && |pdf| == xref + |TableHead(6)| + 100 + |Trailer(6, xref)|
  }

  /** The generated file, with the positions of its objects and of its table. */
  method GeneratePdf(text: seq<string>) returns (pdf: Bytes, ghost offsets: seq<nat>, ghost xref: nat)
    ensures LaidOut(pdf, Objects(Shown(text)), offsets, xref)
  {
    hide Objects, Header, TableHead, XrefEntry, Trailer, At;
    var objects := Objects(Shown(text));
    SmallObjects(Shown(text));
    pdf := Header();
    var positions: seq<nat> := [];
    for i := 0 to 5
      invariant |positions| == i && AllAt(pdf, positions, objects)
      invariant forall k :: 0 <= k < i ==> positions[k] <= 5000
      invariant i < 5 ==> |pdf| <= 100 + 1000 * i
    {
      AllStay(pdf, positions, objects, objects[i]);
      AtEnd(pdf, objects[i]);
      positions := positions + [|pdf|];
      pdf := pdf + objects[i];
    }
    var xrefOffset := |pdf|;
    AllStay(pdf, positions, objects, TableHead(6));
    AtEnd(pdf, TableHead(6));
    pdf := pdf + TableHead(6);
    for i := 0 to 5
      invariant |pdf| == xrefOffset + |TableHead(6)| + 20 * i
      invariant AllAt(pdf, positions, objects) && TableAt(pdf, xrefOffset, positions[..i])
    {
      var entry := XrefEntry(positions[i]);
      SmallOffset(positions[i]);
      AllStay(pdf, positions, objects, entry);
      TableGrows(pdf, xrefOffset, positions, i);
      pdf := pdf + entry;
    }
    assert positions[..5] == positions;
    AllStay(pdf, positions, objects, Trailer(6, xrefOffset));
    TableStays(pdf, xrefOffset, positions, Trailer(6, xrefOffset));
    forall k | 0 <= k < 5 ensures |XrefEntry(positions[k])| == 20 { SmallOffset(positions[k]); }
    AtEnd(pdf, Trailer(6, xrefOffset));
    pdf := pdf + Trailer(6, xrefOffset);
    offsets, xref := positions, xrefOffset;
  }

  lemma SmallOffset(offset: nat)
    requires offset <= 5000
    ensures |XrefEntry(offset)| == 20
  {
    assert Pow10(4) == 10000 && Pow10(10) >= Pow10(4) by {
      assert Pow10(2) == 100 && Pow10(6) == 100 * Pow10(4) && Pow10(8) == 100 * Pow10(6) && Pow10(10) == 100 * Pow10(8);
    }
    EntryIsTwentyBytes(offset);
  }

  lemma TableStays(data: Bytes, xref: nat, offsets: seq<nat>, more: Bytes)
    requires TableAt(data, xref, offsets)
    ensures TableAt(data + more, xref, offsets)
  {
    forall k | 0 <= k < |offsets|
      ensures At(data + more, xref + |TableHead(6)| + 20 * k, XrefEntry(offsets[k]))
    {
      AtStays(data, xref + |TableHead(6)| + 20 * k, XrefEntry(offsets[k]), more);
    }
    AtStays(data, xref, TableHead(6), more);
  }

  lemma TableGrows(data: Bytes, xref: nat, offsets: seq<nat>, i: nat)
    requires i < |offsets| && TableAt(data, xref, offsets[..i])
    requires |data| == xref + |TableHead(6)| + 20 * i
    ensures TableAt(data + XrefEntry(offsets[i]), xref, offsets[..i + 1])
  {
    hide At, TableHead, XrefEntry;
    var entry := XrefEntry(offsets[i]);
    TableStays(data, xref, offsets[..i], entry);
    AtEnd(data, entry);
    assert offsets[..i + 1] == offsets[..i] + [offsets[i]];
  }

  /** Object k begins with its own number. */
  lemma ObjectsAreLabelled(data: Bytes, offsets: seq<nat>, lines: seq<string>, k: nat)
    requires |offsets| == 5 && AllAt(data, offsets, Objects(lines)) && k < 5
    ensures At(data, offsets[k], ObjectHeader(k + 1))
  {
    hide ContentStream, ObjectHeader, ObjectBody, At;
    var stream := ContentStream(lines);
    assert Objects(lines)[k] == Object(k + 1, stream);
    AtSplit(data, offsets[k], ObjectHeader(k + 1), ObjectBody(k + 1, stream));
  }

  lemma FourPieces(data: Bytes, offset: nat, a: Bytes, b: Bytes, c: Bytes, d: Bytes)
    requires At(data, offset, a + (b + (c + d)))
    ensures At(data, offset + |a|, b) && At(data, offset + |a| + |b|, c) && At(data, offset + |a| + |b| + |c|, d)
  {
    hide At;
    AtSplit(data, offset, a, b + (c + d));
    AtSplit(data, offset + |a|, b, c + d);
    AtSplit(data, offset + |a| + |b|, c, d);
  }

  /** The stream object's length entry counts exactly the bytes between its keywords. */
  lemma StreamLengthIsExact(data: Bytes, offset: nat, stream: Bytes)
    requires At(data, offset, Object(5, stream))
    ensures At(data, offset + |ObjectHeader(5)|, StreamHead(stream))
    ensures At(data, offset + |ObjectHeader(5)| + |StreamHead(stream)|, stream)
    ensures At(data, offset + |ObjectHeader(5)| + |StreamHead(stream)| + |stream|, Ascii(STREAM_END))
    ensures Value(Digits(|stream|)) == |stream|
  {
    hide Encode, Ascii, Digits, Value, ObjectHeader, StreamHead, At;
    FourPieces(data, offset, ObjectHeader(5), StreamHead(stream), stream, Ascii(STREAM_END));
    DigitsDenote(|stream|);
  }

  // ---- What a reader finds in the file ---------------------------------------------

  /** A text divided at its line feeds. */
  function SplitLines(s: string): (lines: seq<string>)
    ensures lines != []
  {
    if s == "" then [""]
    else
      var rest := SplitLines(s[1..]);
      if s[0] == '\n' then [""] + rest else [[s[0]] + rest[0]] + rest[1..]
  }

  predicate OneLine(s: string) {
    '\n' !in s
  }

  lemma {:induction false} SplitFirst(line: string, rest: string)
    requires OneLine(line)
    ensures SplitLines(line) == [line]
    ensures SplitLines(line + ("\n" + rest)) == [line] + SplitLines(rest)
  {
    var s := line + ("\n" + rest);
    if line == "" {
      assert s == "\n" + rest && s[1..] == rest;
    } else {
      assert line[0] in line && forall c :: c in line[1..] ==> c in line;
      SplitFirst(line[1..], rest);
      assert s[0] == line[0] && s[1..] == line[1..] + ("\n" + rest);
      assert [line[0]] + line[1..] == line;
    }
  }

  lemma {:induction false} SplitUndoesJoin(lines: seq<string>)
    requires lines != [] && forall l :: l in lines ==> OneLine(l)
    ensures SplitLines(JoinLines(lines)) == lines
  {
    assert lines[0] in lines;
    if |lines| == 1 {
      SplitFirst(lines[0], "");
    } else {
      SplitUndoesJoin(lines[1..]);
      SplitFirst(lines[0], JoinLines(lines[1..]));
      assert JoinLines(lines) == lines[0] + ("\n" + JoinLines(lines[1..]));
    }
  }

  lemma {:induction false} EscapeKeepsOneLine(line: string)
    requires OneLine(line)
    ensures OneLine(Escape(line))
  {
    if line != "" {
      assert line[0] in line && forall c :: c in line[1..] ==> c in line;
      EscapeKeepsOneLine(line[1..]);
      EscapeStep(line);
    }
  }

  /** The operator line shows a literal string that a reader takes to be exactly this text. */
  predicate ShowsText(operator: string, text: string) {
    && |operator| >= 8 && operator[0] == '(' && operator[|operator| - 7..] == ") Tj T*"
    && Unescape(operator[1..|operator| - 7]) == text && Balanced(operator[1..|operator| - 7])
  }

  lemma ShownLine(line: string)
    ensures ShowsText("(" + Escape(line) + ") Tj T*", line)
    ensures OneLine(line) ==> OneLine("(" + Escape(line) + ") Tj T*")
  {
    hide Escape, Unescape, Balanced;
    UnescapeUndoesEscape(line);
    if OneLine(line) { EscapeKeepsOneLine(line); }
    var operator := "(" + Escape(line) + ") Tj T*";
    assert operator[1..|operator| - 7] == Escape(line) && operator[|operator| - 7..] == ") Tj T*";
  }

  /** The stream shows the lines in order, between the operators that open and close the text. */
  predicate PageShows(stream: Bytes, lines: seq<string>) {
    && Decode(stream).Some?
    && var page := SplitLines(Decode(stream).value);
       && |page| == |lines| + 5 && page[..4] == ["BT", "/F1 11 Tf", "50 750 Td", "14 TL"] && page[|page| - 1] == "ET"
       && forall i :: 0 <= i < |lines| ==> ShowsText(page[4 + i], lines[i])
  }

  lemma PageShowsTheText(lines: seq<string>)
    requires forall l :: l in lines ==> OneLine(l)
    ensures PageShows(ContentStream(lines), lines)
  {
    hide Escape, ShowsText, Encode, Decode, JoinLines;
    var page := ContentLines(lines);
    forall i | 0 <= i < |lines| ensures ShowsText(page[4 + i], lines[i]) && OneLine(page[4 + i]) {
      assert lines[i] in lines;
      ShownLine(lines[i]);
    }
    forall l | l in page ensures OneLine(l) {
      var j :| 0 <= j < |page| && page[j] == l;
      assert 4 <= j < |page| - 1 ==> page[j] == page[4 + (j - 4)];
    }
    DecodesWhatWasEncoded(JoinLines(page));
    SplitUndoesJoin(page);
  }

  /** A stream object at this place: its length entry denotes the length of the stream that
      follows, and that stream, read back, shows the lines. */
  predicate StreamObjectShows(pdf: Bytes, number: nat, position: nat, length: nat, lines: seq<string>) {
    var head := Digits(number) + Ascii(" 0 obj\n") + (Ascii("<< /Length ") + Digits(length) + Ascii(" >>\nstream\n"));
    var start := position + |head|;
    && Value(Digits(length)) == length && At(pdf, position, head)
    && start + length <= |pdf| && At(pdf, start + length, Ascii("\nendstream\nendobj\n"))
    && PageShows(pdf[start..start + length], lines)
  }

  /** Object 5 of the generated file is such an object. */
  lemma FileShowsTheText(pdf: Bytes, lines: seq<string>, offsets: seq<nat>) returns (length: nat)
    requires |offsets| == 5 && AllAt(pdf, offsets, Objects(lines)) && forall l :: l in lines ==> OneLine(l)
    ensures StreamObjectShows(pdf, 5, offsets[4], length, lines)
  {
    hide Encode, Ascii, Digits, Value, ContentStream, PageShows, Object, Objects;
    var stream := ContentStream(lines);
    NumberedObject(pdf, lines, offsets, 4);
    ObjectsAreLabelled(pdf, offsets, lines, 4);
    StreamLengthIsExact(pdf, offsets[4], stream);
    PageShowsTheText(lines);
    JoinedPieces(pdf, offsets[4], ObjectHeader(5), StreamHead(stream));
    length := |stream|;
  }

  lemma NumberedObject(pdf: Bytes, lines: seq<string>, offsets: seq<nat>, k: nat)
    requires k < |offsets| == 5 && AllAt(pdf, offsets, Objects(lines))
    ensures At(pdf, offsets[k], Object(k + 1, ContentStream(lines)))
  {
    hide ContentStream, Object, At;
    assert Objects(lines)[k] == Object(k + 1, ContentStream(lines));
  }

  lemma JoinedPieces(data: Bytes, offset: nat, a: Bytes, b: Bytes)
    requires At(data, offset, a) && At(data, offset + |a|, b)
    ensures At(data, offset, a + b)
  {
    assert data[offset..offset + |a| + |b|] == data[offset..offset + |a|] + data[offset + |a|..offset + |a| + |b|];
  }

  predicate EndsWith(data: Bytes, piece: Bytes) {
    |piece| <= |data| && data[|data| - |piece|..] == piece
  }

  /** The ten digits of an entry at this place denote the offset. */
  predicate EntryDenotes(pdf: Bytes, position: nat, offset: nat) {
    && position + 20 <= |pdf| && Value(pdf[position..position + 10]) == offset
    && pdf[position + 10..position + 20] == Ascii(" 00000 n \n")
  }

  /** What a reader follows from the end of the file: the last numeral denotes where the table
      stands, right after its keyword. */
  lemma ReaderFindsTheTable(pdf: Bytes, objects: seq<Bytes>, offsets: seq<nat>, xref: nat)
    requires LaidOut(pdf, objects, offsets, xref)
    ensures EndsWith(pdf, Ascii("startxref\n") + Digits(xref) + Ascii("\n%%EOF")) && Value(Digits(xref)) == xref
    ensures At(pdf, xref, Ascii("xref\n0 ") + Digits(6) + Ascii("\n") + Ascii("0000000000 65535 f \n"))
  {
    hide Encode, Ascii, Digits, Value, XrefEntry, Trailer, At, AllAt;
    DigitsDenote(xref);
    TrailerEnds(pdf, xref + |TableHead(6)| + 100, xref);
  }

  /** The entry denotes where the k-th object stands, and that object begins with its number. */
  predicate LeadsToObject(pdf: Bytes, entry: nat, offsets: seq<nat>, k: nat) {
    && k < |offsets| && EntryDenotes(pdf, entry, offsets[k])
    && At(pdf, offsets[k], Digits(k + 1) + Ascii(" 0 obj\n")) && Value(Digits(k + 1)) == k + 1
  }

  /** Entry k of the table leads to object k + 1. */
  lemma ReaderFindsTheObject(pdf: Bytes, lines: seq<string>, offsets: seq<nat>, xref: nat, k: nat) returns (entry: nat)
    requires k < |offsets| == 5 && AllAt(pdf, offsets, Objects(lines))
    requires TableAt(pdf, xref, offsets) && EntriesFit(offsets)
    ensures entry == xref + |TableHead(6)| + 20 * k && LeadsToObject(pdf, entry, offsets, k)
  {
    hide Encode, Ascii, Digits, Value, Objects, XrefEntry, TableHead, At;
    DigitsDenote(k + 1);
    ObjectsAreLabelled(pdf, offsets, lines, k);
    entry := xref + |TableHead(6)| + 20 * k;
    assert At(pdf, entry, XrefEntry(offsets[k]));
    EntryReads(pdf, entry, offsets[k]);
  }

  lemma TrailerEnds(pdf: Bytes, start: nat, xref: nat)
    requires At(pdf, start, Trailer(6, xref)) && |pdf| == start + |Trailer(6, xref)|
    ensures EndsWith(pdf, Ascii("startxref\n") + Digits(xref) + Ascii("\n%%EOF"))
  {
    hide Encode, Ascii, Digits;
    var tail := Ascii("startxref\n") + Digits(xref) + Ascii("\n%%EOF");
    var first := Ascii("trailer\n<< /Size ") + Digits(6) + Ascii(" /Root 1 0 R >>\n");
    assert Trailer(6, xref) == first + tail;
    AtSplit(pdf, start, first, tail);
  }

  lemma EntryReads(pdf: Bytes, position: nat, offset: nat)
    requires At(pdf, position, XrefEntry(offset)) && |XrefEntry(offset)| == 20
    ensures EntryDenotes(pdf, position, offset)
  {
    hide Encode, Value, Padded;
    EntryIsTwentyBytes(offset);
    AsciiLength(" 00000 n \n");
    var entry := XrefEntry(offset);
    assert pdf[position..position + 10] == entry[..10] && pdf[position + 10..position + 20] == entry[10..];
    assert entry[10..] == Ascii(" 00000 n \n");
  }
}
