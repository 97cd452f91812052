/**
 The one-page PDF of a credential (sdk/src/export.ts): its text lines as escaped strings in a content
 stream, and a reader that gets them back through startxref, the cross-reference table and /Length.
 */
module PdfExport {
  import opened Wrappers
  import opened Text
  import opened Decimal
  import opened PdfFile

  const MAX_LINES := 60

  const BACKSLASH: CodeUnit := 92
  const LEFT_PAREN: CodeUnit := 40
  const RIGHT_PAREN: CodeUnit := 41

  // ---- Escaping ----

  function PrintableUnit(u: CodeUnit): (c: char)
    ensures ' ' <= c <= '~'
  {
    if 0x20 <= u <= 0x7E then u as char else '?'
  }

  /** The last replacement: whatever is not printable ASCII becomes a question mark. */
  function Printable(s: Units): (t: string)
    ensures |t| == |s|
  {
    seq(|s|, i requires 0 <= i < |s| => PrintableUnit(s[i]))
  }

  /** The three replacements before it, in the order of the code. */
  function EscapeChain(value: Units): Units {
    ReplaceAll(
      ReplaceAll(
        ReplaceAll(value, BACKSLASH, [BACKSLASH, BACKSLASH]),
        LEFT_PAREN, [BACKSLASH, LEFT_PAREN]),
      RIGHT_PAREN, [BACKSLASH, RIGHT_PAREN])
  }

  function ToPdfString(value: Units): string {
    Printable(EscapeChain(value))
  }

  function EscapeUnit(u: CodeUnit): string {
    if u == BACKSLASH then "\\\\"
    else if u == LEFT_PAREN then "\\("
    else if u == RIGHT_PAREN then "\\)"
    else [PrintableUnit(u)]
  }

  /** Escaping in one pass, unit by unit. */
  function EscapeOnePass(value: Units): string {
    if value == [] then "" else EscapeUnit(value[0]) + EscapeOnePass(value[1..])
  }

  lemma EscapeChainConcat(a: Units, b: Units)
    ensures EscapeChain(a + b) == EscapeChain(a) + EscapeChain(b)
  {
    var x, y := ReplaceAll(a, BACKSLASH, [BACKSLASH, BACKSLASH]), ReplaceAll(b, BACKSLASH, [BACKSLASH, BACKSLASH]);
    ReplaceAllConcat(a, b, BACKSLASH, [BACKSLASH, BACKSLASH]);
    ReplaceAllConcat(x, y, LEFT_PAREN, [BACKSLASH, LEFT_PAREN]);
    var p, q := ReplaceAll(x, LEFT_PAREN, [BACKSLASH, LEFT_PAREN]), ReplaceAll(y, LEFT_PAREN, [BACKSLASH, LEFT_PAREN]);
    ReplaceAllConcat(p, q, RIGHT_PAREN, [BACKSLASH, RIGHT_PAREN]);
  }

  lemma EscapeChainOne(u: CodeUnit)
    ensures Printable(EscapeChain([u])) == EscapeUnit(u)
  {
    ReplaceAllOne(u, BACKSLASH, [BACKSLASH, BACKSLASH]);
    ReplaceAllOne(u, LEFT_PAREN, [BACKSLASH, LEFT_PAREN]);
    ReplaceAllOne(u, RIGHT_PAREN, [BACKSLASH, RIGHT_PAREN]);
    if u == BACKSLASH {
      ReplaceAllAbsent([BACKSLASH, BACKSLASH], LEFT_PAREN, [BACKSLASH, LEFT_PAREN]);
      ReplaceAllAbsent([BACKSLASH, BACKSLASH], RIGHT_PAREN, [BACKSLASH, RIGHT_PAREN]);
    } else if u == LEFT_PAREN {
      ReplaceAllAbsent([BACKSLASH, LEFT_PAREN], RIGHT_PAREN, [BACKSLASH, RIGHT_PAREN]);
    }
  }

  /** The chained replacements are one pass: no replacement touches what an earlier one wrote. */
  lemma {:induction false} ChainIsOnePass(value: Units)
    ensures ToPdfString(value) == EscapeOnePass(value)
  {
    if value == [] {
      assert EscapeChain([]) == [];
    } else {
      var first, rest := [value[0]], value[1..];
      assert value == first + rest;
      EscapeChainConcat(first, rest);
      EscapeChainOne(value[0]);
      ChainIsOnePass(rest);
      assert Printable(EscapeChain(first) + EscapeChain(rest))
          == Printable(EscapeChain(first)) + Printable(EscapeChain(rest));
    }
  }

  /** The text is the line with a question mark for every unit outside printable ASCII. */
  predicate IsShown(line: Units, text: string) {
    && |text| == |line|
    && forall j :: 0 <= j < |line| ==> text[j] == if 0x20 <= line[j] <= 0x7E then line[j] as char else '?'
  }

  lemma PrintableIsShown(line: Units)
    ensures IsShown(line, Printable(line))
  {
  }

  /**
   What is written for one unit wherever it stands: backslashes before the three special characters, a
   question mark for what is not printable ASCII, and the unit itself otherwise.
   */
  lemma UnitIsWritten(before: Units, u: CodeUnit, after: Units)
    ensures ToPdfString([]) == ""
    ensures ToPdfString(before + [u] + after) == ToPdfString(before)
      + (if u == 0x5C || u == 0x28 || u == 0x29 then ['\\', u as char]
         else if 0x20 <= u <= 0x7E then [u as char]
         else ['?'])
      + ToPdfString(after)
  {
    EscapeChainConcat(before + [u], after);
    EscapeChainConcat(before, [u]);
    EscapeChainOne(u);
    PrintableConcat(EscapeChain(before), EscapeChain([u]));
    PrintableConcat(EscapeChain(before) + EscapeChain([u]), EscapeChain(after));
  }

  lemma PrintableConcat(a: Units, b: Units)
    ensures Printable(a + b) == Printable(a) + Printable(b)
  {
  }

  // ---- Reading a string (section 7.3.4.2 of ISO 32000-1) ----

  /**
   A literal string, given the text after its opening parenthesis: its value and what follows the
   closing one. Balanced parentheses may stand unescaped; only the escapes of the three special
   characters are read.
   */
  function ReadString(s: string, depth: nat): (r: Option<(string, string)>)
    ensures r.Some? ==> |r.value.1| < |s|
  {
    if s == "" then None
    else if s[0] == '\\' then
      if |s| < 2 || s[1] !in {'\\', '(', ')'} then None else Prepend(s[1], ReadString(s[2..], depth))
    else if s[0] == '(' then Prepend('(', ReadString(s[1..], depth + 1))
    else if s[0] != ')' then Prepend(s[0], ReadString(s[1..], depth))
    else if depth == 0 then Some(("", s[1..]))
    else Prepend(')', ReadString(s[1..], depth - 1))
  }

  function Prepend(c: char, r: Option<(string, string)>): (t: Option<(string, string)>)
    ensures t.Some? == r.Some?
    ensures t.Some? ==> t.value.1 == r.value.1
  {
    match r
    case None => None
    case Some((text, rest)) => Some(([c] + text, rest))
  }

  /** One escaped unit is read as one character. */
  lemma UnitIsRead(u: CodeUnit, tail: string)
    ensures ReadString(EscapeUnit(u) + tail, 0) == Prepend(PrintableUnit(u), ReadString(tail, 0))
  {
    var s := EscapeUnit(u) + tail;
    assert s[|EscapeUnit(u)|..] == tail;
  }

  lemma EscapeFirst(u: CodeUnit, rest: Units, after: string)
    ensures EscapeOnePass([u] + rest) + after == EscapeUnit(u) + (EscapeOnePass(rest) + after)
    ensures Printable([u] + rest) == [PrintableUnit(u)] + Printable(rest)
  {
    assert ([u] + rest)[1..] == rest;
    Assoc(EscapeUnit(u), EscapeOnePass(rest), after);
  }

  /** The reader undoes the escaping, except that unprintable characters were replaced. */
  lemma {:induction false} StringIsRead(value: Units, rest: string)
    ensures ReadString(EscapeOnePass(value) + (")" + rest), 0) == Some((Printable(value), rest))
  {
    if value == [] {
      assert EscapeOnePass(value) + (")" + rest) == ")" + rest;
      assert (")" + rest)[1..] == rest;
    } else {
      var u, others := value[0], value[1..];
      assert value == [u] + others;
      StringIsRead(others, rest);
      EscapeFirst(u, others, ")" + rest);
      UnitIsRead(u, EscapeOnePass(others) + (")" + rest));
    }
  }

  /** The same of the text as it is written: it is read back character by character. */
  lemma StringIsShown(line: Units, rest: string) returns (text: string)
    ensures ReadString(ToPdfString(line) + (")" + rest), 0) == Some((text, rest))
    ensures IsShown(line, text)
  {
    ChainIsOnePass(line);
    StringIsRead(line, rest);
    text := Printable(line);
  }

  // ---- The content stream ----

  const TEXT_HEAD := "BT\n/F1 10 Tf\n14 TL\n40 800 Td\n"
  const SHOW := " Tj T*"
  const TEXT_TAIL := "\nET\n"

  function Item(line: Units): string {
    "(" + ToPdfString(line) + ")" + SHOW
  }

  /** The items joined by line breaks, up to the end of the stream. */
  function Items(lines: seq<Units>): string {
    if lines == [] then TEXT_TAIL
    else Item(lines[0]) + (if |lines| == 1 then TEXT_TAIL else "\n" + Items(lines[1..]))
  }

  function Shown(lines: seq<Units>): seq<Units> {
    if |lines| <= MAX_LINES then lines else lines[..MAX_LINES]
  }

  function Content(lines: seq<Units>): string {
    TEXT_HEAD + Items(Shown(lines))
  }

  /** The strings shown by a stream, after its fixed head. */
  function ReadItems(s: string): Option<seq<string>> {
    if s == TEXT_TAIL then Some([]) else ReadShows(s)
  }

  function ReadShows(s: string): Option<seq<string>>
    decreases |s|
  {
    if !StartsWith(s, "(") then None
    else
      match ReadString(s[1..], 0)
      case None => None
      case Some((text, rest)) =>
        if !StartsWith(rest, SHOW) then None
        else
          var next := rest[|SHOW|..];
          if next == TEXT_TAIL then Some([text])
          else if !StartsWith(next, "\n") then None
          else
            match ReadShows(next[1..])
            case None => None
            case Some(texts) => Some([text] + texts)
  }

  function PrintableLines(lines: seq<Units>): (r: seq<string>)
    ensures |r| == |lines|
  {
    seq(|lines|, i requires 0 <= i < |lines| => Printable(lines[i]))
  }

  lemma ItemIsRead(line: Units, after: string)
    ensures var s := Item(line) + after;
      StartsWith(s, "(") && ReadString(s[1..], 0) == Some((Printable(line), SHOW + after))
  {
    ChainIsOnePass(line);
    StringIsRead(line, SHOW + after);
    var s := Item(line) + after;
    assert s == "(" + (EscapeOnePass(line) + (")" + (SHOW + after)));
    StartsWithConcat("(", EscapeOnePass(line) + (")" + (SHOW + after)));
  }

  lemma LastShow(s: string, text: string)
    requires StartsWith(s, "(") && ReadString(s[1..], 0) == Some((text, SHOW + TEXT_TAIL))
    ensures ReadShows(s) == Some([text])
  {
    StartsWithConcat(SHOW, TEXT_TAIL);
  }

  lemma ShowGoesOn(s: string, text: string, more: string, texts: seq<string>)
    requires StartsWith(s, "(") && ReadString(s[1..], 0) == Some((text, SHOW + ("\n" + more)))
    requires StartsWith(more, "(") && ReadShows(more) == Some(texts)
    ensures ReadShows(s) == Some([text] + texts)
  {
    var next := "\n" + more;
    StartsWithConcat(SHOW, next);
    StartsWithConcat("\n", more);
    assert next[1] == '(' && TEXT_TAIL[1] == 'E';
  }

  lemma ItemOpens(line: Units, after: string)
    ensures StartsWith(Item(line) + after, "(")
  {
    var s := Item(line) + after;
    assert Item(line)[0] == '(';
    assert s[..1] == "(";
  }

  lemma ItemsOpen(lines: seq<Units>)
    requires lines != []
    ensures StartsWith(Items(lines), "(")
    ensures |lines| == 1 ==> Items(lines) == Item(lines[0]) + TEXT_TAIL
    ensures |lines| > 1 ==> Items(lines) == Item(lines[0]) + ("\n" + Items(lines[1..]))
  {
    ItemOpens(lines[0], if |lines| == 1 then TEXT_TAIL else "\n" + Items(lines[1..]));
  }

  lemma OnlyItemIsRead(line: Units)
    ensures ReadShows(Item(line) + TEXT_TAIL) == Some([Printable(line)])
  {
    ItemIsRead(line, TEXT_TAIL);
    LastShow(Item(line) + TEXT_TAIL, Printable(line));
  }

  lemma NextItemIsRead(line: Units, more: string, texts: seq<string>)
    requires StartsWith(more, "(") && ReadShows(more) == Some(texts)
    ensures ReadShows(Item(line) + ("\n" + more)) == Some([Printable(line)] + texts)
  {
    ItemIsRead(line, "\n" + more);
    ShowGoesOn(Item(line) + ("\n" + more), Printable(line), more, texts);
  }

  lemma PrintableLinesOf(lines: seq<Units>)
    requires lines != []
    ensures PrintableLines(lines) == [Printable(lines[0])] + PrintableLines(lines[1..])
    ensures |lines| == 1 ==> PrintableLines(lines) == [Printable(lines[0])]
  {
  }

  lemma {:induction false} ItemsAreRead(lines: seq<Units>)
    requires lines != []
    ensures ReadShows(Items(lines)) == Some(PrintableLines(lines))
  {
    ItemsOpen(lines);
    PrintableLinesOf(lines);
    if |lines| == 1 {
      OnlyItemIsRead(lines[0]);
    } else {
      ItemsOpen(lines[1..]);
      ItemsAreRead(lines[1..]);
      NextItemIsRead(lines[0], Items(lines[1..]), PrintableLines(lines[1..]));
    }
  }

  // ---- The five objects ----

  const CONTENT_OBJECT := 4

  const LENGTH := "<< /Length "
  const STREAM := " >>\nstream\n"
  const ENDSTREAM := "endstream"

  function StreamObject(content: string): string {
    LENGTH + Digits(|content|) + STREAM + content + ENDSTREAM
  }

  const CATALOG := "<< /Type /Catalog /Pages 2 0 R >>"
  const PAGES := "<< /Type /Pages /Kids [3 0 R] /Count 1 >>"
  const PAGE :=
    "<< /Type /Page /Parent 2 0 R /MediaBox [0 0 595 842] /Resources << /Font << /F1 5 0 R >> >> /Contents 4 0 R >>"
  const FONT := "<< /Type /Font /Subtype /Type1 /BaseFont /Helvetica /Encoding /WinAnsiEncoding >>"

  function Objects(lines: seq<Units>): seq<string> {
    [CATALOG, PAGES, PAGE, StreamObject(Content(lines)), FONT]
  }

  /** The bytes of a stream, as many as its /Length says, if `endstream` follows them. */
  function ReadStream(s: string): Option<string> {
    if !StartsWith(s, LENGTH) then None
    else
      var rest := s[|LENGTH|..];
      var n := LeadingDigits(rest);
      if n == 0 || !StartsWith(rest[n..], STREAM) then None
      else
        var data := rest[n + |STREAM|..];
        var length := Value(rest[..n]);
        if length <= |data| && StartsWith(data[length..], ENDSTREAM) then Some(data[..length]) else None
  }

  function ReadContent(content: string): Option<seq<string>> {
    if StartsWith(content, TEXT_HEAD) then ReadItems(content[|TEXT_HEAD|..]) else None
  }

  /** The text lines of a PDF file. */
  function ReadPdf(file: string): Option<seq<string>> {
    match FindObject(file, CONTENT_OBJECT)
    case None => None
    case Some(text) =>
      match ReadStream(text)
      case None => None
      case Some(content) => ReadContent(content)
  }

  /** The reader's steps, given what each of them finds. */
  lemma StreamSteps(s: string, rest: string, n: nat, data: string, content: string)
    requires StartsWith(s, LENGTH) && s[|LENGTH|..] == rest && n == LeadingDigits(rest) > 0
    requires StartsWith(rest[n..], STREAM) && rest[n + |STREAM|..] == data
    requires Value(rest[..n]) == |content| && StartsWith(data, content) && StartsWith(data[|content|..], ENDSTREAM)
    ensures ReadStream(s) == Some(content)
  {
  }

  lemma StreamIsRead(content: string, after: string)
    ensures ReadStream(StreamObject(content) + after) == Some(content)
  {
    var digits := Digits(|content|);
    var data := content + (ENDSTREAM + after);
    var rest := digits + (STREAM + data);
    StreamText(LENGTH, digits, STREAM, content, ENDSTREAM, after);
    StartsWithConcat(LENGTH, rest);
    LeadingDigitsExact(digits, STREAM + data);
    DigitsValue(|content|);
    DigitsThen(digits, STREAM, data);
    StartsWithConcat(ENDSTREAM, after);
    StartsWithConcat(content, ENDSTREAM + after);
    StreamSteps(LENGTH + rest, rest, |digits|, data, content);
  }

  lemma StreamText(a: string, b: string, c: string, d: string, e: string, f: string)
    ensures a + b + c + d + e + f == a + (b + (c + (d + (e + f))))
  {
  }

  lemma DigitsThen(digits: string, middle: string, data: string)
    ensures var rest := digits + (middle + data);
      rest[..|digits|] == digits && StartsWith(rest[|digits|..], middle) && rest[|digits| + |middle|..] == data
  {
    var rest := digits + (middle + data);
    assert rest[|digits|..] == middle + data;
  }

  lemma ContentIsRead(lines: seq<Units>)
    ensures ReadContent(Content(lines)) == Some(PrintableLines(Shown(lines)))
  {
    StartsWithConcat(TEXT_HEAD, Items(Shown(lines)));
    if lines != [] {
      ItemsAreRead(Shown(lines));
      var line := Shown(lines)[0];
      assert Items(Shown(lines))[0] == '(' by {
        assert Item(line)[0] == '(';
      }
      assert TEXT_TAIL[0] == '\n';
    } else {
      assert PrintableLines([]) == [];
    }
  }

  lemma FourthObject(lines: seq<Units>)
    ensures |Objects(lines)| == 5 && Objects(lines)[CONTENT_OBJECT - 1] == StreamObject(Content(lines))
  {
  }

  lemma ContentObjectIsRead(objects: seq<string>, lines: seq<Units>)
    requires |objects| == 5 && objects[CONTENT_OBJECT - 1] == StreamObject(Content(lines))
    requires |File(objects)| <= Pow10(10)
    ensures ReadPdf(File(objects)) == Some(PrintableLines(Shown(lines)))
  {
    var content := Content(lines);
    var rest := ObjectIsFound(objects, CONTENT_OBJECT - 1);
    FollowedBy(StreamObject(content), ENDOBJ, rest);
    StreamIsRead(content, ENDOBJ + rest);
    ContentIsRead(lines);
    ReadThrough(File(objects), StreamObject(content) + (ENDOBJ + rest), content);
  }

  lemma FollowedBy(a: string, b: string, c: string)
    ensures a + b + c == a + (b + c)
  {
  }

  /** Reading a file is finding the object, then its stream, then the text in it. */
  lemma ReadThrough(file: string, text: string, content: string)
    requires FindObject(file, CONTENT_OBJECT) == Some(text) && ReadStream(text) == Some(content)
    ensures ReadPdf(file) == ReadContent(content)
  {
  }

  /**
   Every line list survives the file: the first 60 lines come back, unprintable characters replaced
   by question marks.
   */
  lemma PdfRoundTrip(lines: seq<Units>)
    requires |File(Objects(lines))| <= Pow10(10)
    ensures ReadPdf(File(Objects(lines))).Some?
    ensures ShowsLines(lines, ReadPdf(File(Objects(lines))).value)
  {
    FourthObject(lines);
    ContentObjectIsRead(Objects(lines), lines);
    FirstLinesShown(lines);
  }

  /** The texts are those of the first 60 lines, character by character. */
  predicate ShowsLines(lines: seq<Units>, texts: seq<string>) {
    && |texts| == (if |lines| < 60 then |lines| else 60)
    && forall i :: 0 <= i < |texts| ==> IsShown(lines[i], texts[i])
  }

  lemma FirstLinesShown(lines: seq<Units>)
    ensures ShowsLines(lines, PrintableLines(Shown(lines)))
  {
  }

  predicate ObjectFound(file: string, k: nat, body: string) {
    FindObject(file, k).Some? && StartsWith(FindObject(file, k).value, body + ENDOBJ)
  }

  /** Each object is found at its recorded offset, whole. */
  predicate EveryObjectFound(file: string, objects: seq<string>) {
    forall k :: 0 <= k < |objects| ==> ObjectFound(file, k + 1, objects[k])
  }

  lemma ObjectIsFoundWhole(objects: seq<string>, k: nat)
    requires k < |objects| && |File(objects)| <= Pow10(10)
    ensures ObjectFound(File(objects), k + 1, objects[k])
  {
    var rest := ObjectIsFound(objects, k);
    StartsWithConcat(objects[k] + ENDOBJ, rest);
  }

  lemma ObjectsAreFound(objects: seq<string>)
    requires |File(objects)| <= Pow10(10)
    ensures EveryObjectFound(File(objects), objects)
  {
    var file := File(objects);
    forall k | 0 <= k < |objects| ensures ObjectFound(file, k + 1, objects[k]) {
      ObjectIsFoundWhole(objects, k);
    }
  }

  /** credentialToPdf, given its lines. */
  method CredentialToPdf(lines: seq<Units>) returns (file: string)
    ensures file == File(Objects(lines))
    ensures |file| <= Pow10(10) ==> ReadPdf(file).Some? && ShowsLines(lines, ReadPdf(file).value)
    ensures |file| <= Pow10(10) ==> EveryObjectFound(file, Objects(lines))
  {
    var objects := Objects(lines);
    file := Write(objects);
    if |file| <= Pow10(10) {
      PdfRoundTrip(lines);
      ObjectsAreFound(objects);
    }
  }
}
