/**
 The file layout of the PDF export (sdk/src/export.ts): numbered objects, a cross-reference table of
 byte offsets (section 7.5.4 of ISO 32000-1), a trailer, and a reader that trusts them. A file is a
 string of Latin-1 characters, one per byte.
 */
module PdfFile {
  import opened Wrappers
  import opened Text
  import opened Decimal

  const HEADER := "%PDF-1.4\n%\U{E2}\U{E3}\U{CF}\U{D3}\n"
  const OBJ := " 0 obj\n"
  const ENDOBJ := "\nendobj\n"
  const XREF := "xref\n0 "
  const FREE_ENTRY := "0000000000 65535 f \n"
  const IN_USE := " 00000 n \n"
  const TRAILER_SIZE := "trailer\n<< /Size "
  const TRAILER_ROOT := " /Root 1 0 R >>\n"
  const STARTXREF := "startxref\n"
  const EOF := "\n%%EOF\n"

  // ---- Writing ----

  function ObjectText(number: nat, body: string): string {
    Digits(number) + OBJ + body + ENDOBJ
  }

  /** The header and the first n objects. */
  function Body(objects: seq<string>, n: nat): string
    requires n <= |objects|
  {
    if n == 0 then HEADER else Body(objects, n - 1) + ObjectText(n, objects[n - 1])
  }

  /** The offset of object number k + 1. */
  function Offset(objects: seq<string>, k: nat): nat
    requires k <= |objects|
  {
    |Body(objects, k)|
  }

  function Entry(offset: nat): string {
    PadStart(Digits(offset), 10) + IN_USE
  }

  function Entries(objects: seq<string>, n: nat): string
    requires n <= |objects|
  {
    if n == 0 then "" else Entries(objects, n - 1) + Entry(Offset(objects, n - 1))
  }

  function XrefHead(objects: seq<string>): string {
    XREF + Digits(|objects| + 1) + "\n"
  }

  function Trailer(objects: seq<string>): string {
    TRAILER_SIZE + Digits(|objects| + 1) + TRAILER_ROOT
  }

  function Tail(objects: seq<string>): string {
    STARTXREF + Digits(Offset(objects, |objects|)) + EOF
  }

  function File(objects: seq<string>): string {
    var entries := FREE_ENTRY + Entries(objects, |objects|);
    Body(objects, |objects|) + (XrefHead(objects) + (entries + Trailer(objects) + Tail(objects)))
  }

  /** The pushes of the objects, which count the bytes written and record where each object begins. */
  method WriteBody(objects: seq<string>) returns (file: string, offset: nat, offsets: seq<nat>)
    ensures file == Body(objects, |objects|) && offset == |file|
    ensures |offsets| == |objects| && forall k :: 0 <= k < |offsets| ==> offsets[k] == Offset(objects, k)
  {
    file := HEADER;
    offset := |HEADER|;
    offsets := [];
    var i := 0;
    while i < |objects|
      invariant 0 <= i <= |objects| && |offsets| == i
      invariant file == Body(objects, i) && offset == |file|
      invariant forall k :: 0 <= k < i ==> offsets[k] == Offset(objects, k)
    {
      offsets := offsets + [offset];
      var text := ObjectText(i + 1, objects[i]);
      file := file + text;
      offset := offset + |text|;
      i := i + 1;
    }
  }

  method WriteEntries(objects: seq<string>, offsets: seq<nat>) returns (entries: string)
    requires |offsets| == |objects| && forall k :: 0 <= k < |offsets| ==> offsets[k] == Offset(objects, k)
    ensures entries == Entries(objects, |objects|)
  {
    entries := "";
    var k := 0;
    while k < |offsets|
      invariant 0 <= k <= |offsets|
      invariant entries == Entries(objects, k)
    {
      entries := entries + Entry(offsets[k]);
      k := k + 1;
    }
  }

  method Write(objects: seq<string>) returns (file: string)
    ensures file == File(objects)
  {
    var body, xrefOffset, offsets := WriteBody(objects);
    var entries := WriteEntries(objects, offsets);
    var tail := STARTXREF + Digits(xrefOffset) + EOF;
    file := body + (XrefHead(objects) + (FREE_ENTRY + entries + Trailer(objects) + tail));
  }

  // ---- Reading ----

  function Drop(s: string, n: nat): string {
    if n <= |s| then s[n..] else ""
  }

  function Take(s: string, n: nat): string {
    if n <= |s| then s[..n] else s
  }

  function EndsWith(s: string, suffix: string): (r: bool)
    ensures r ==> |suffix| <= |s|
  {
    |suffix| <= |s| && s[|s| - |suffix|..] == suffix
  }

  /** The offset that follows `startxref` at the end of a file. */
  function StartXref(file: string): Option<nat> {
    if !EndsWith(file, EOF) then None
    else
      var front := file[..|file| - |EOF|];
      var n := TrailingDigits(front);
      var digits := front[|front| - n..];
      if n == 0 || !EndsWith(front[..|front| - n], STARTXREF) then None else Some(Value(digits))
  }

  /** The table behind an xref keyword, with the number of its entries. */
  function ReadTable(s: string): Option<(nat, string)> {
    if !StartsWith(s, XREF) then None
    else
      var rest := s[|XREF|..];
      var n := LeadingDigits(rest);
      if n == 0 || !StartsWith(rest[n..], "\n") then None else Some((Value(rest[..n]), rest[n + 1..]))
  }

  /** Entry number k of a table, 20 bytes each, if it is in use. */
  function ReadEntry(table: string, k: nat): Option<nat> {
    var entry := Take(Drop(table, 20 * k), 20);
    if |entry| != 20 || entry[10..] != IN_USE || !AllDigits(entry[..10]) then None else Some(Value(entry[..10]))
  }

  /** The text of object number k, from its body on, found through the cross-reference table. */
  function FindObject(file: string, k: nat): Option<string> {
    match StartXref(file)
    case None => None
    case Some(x) =>
      match ReadTable(Drop(file, x))
      case None => None
      case Some((count, table)) =>
        if k >= count then None
        else
          match ReadEntry(table, k)
          case None => None
          case Some(offset) =>
            var text := Drop(file, offset);
            if StartsWith(text, Digits(k) + OBJ) then Some(text[|Digits(k) + OBJ|..]) else None
  }

  // ---- What is written is found ----

  lemma EntryLength(offset: nat)
    requires offset < Pow10(10)
    ensures |PadStart(Digits(offset), 10)| == 10 && |Entry(offset)| == 20
    ensures AllDigits(PadStart(Digits(offset), 10)) && Value(PadStart(Digits(offset), 10)) == offset
  {
    DigitsLength(offset, 10);
    DigitsValue(offset);
    LeadingZeros(10 - |Digits(offset)|, Digits(offset));
  }

  lemma {:induction false} BodyGrows(objects: seq<string>, k: nat, n: nat)
    requires k <= n <= |objects|
    ensures Offset(objects, k) <= Offset(objects, n) && StartsWith(Body(objects, n), Body(objects, k))
  {
    if k < n {
      BodyGrows(objects, k, n - 1);
      var piece := ObjectText(n, objects[n - 1]);
      assert Body(objects, n)[..Offset(objects, k)] == Body(objects, n - 1)[..Offset(objects, k)];
    }
  }

  /** The body of the file, from a recorded offset on, starts with that object. */
  lemma ObjectAtOffset(objects: seq<string>, k: nat) returns (rest: string)
    requires k < |objects|
    ensures Body(objects, |objects|) == Body(objects, k) + (Digits(k + 1) + OBJ + objects[k] + ENDOBJ + rest)
  {
    var all, front := Body(objects, |objects|), Body(objects, k + 1);
    BodyGrows(objects, k + 1, |objects|);
    rest := all[|front|..];
    assert all == front + rest;
    assert front == Body(objects, k) + ObjectText(k + 1, objects[k]);
    Regrouped(Body(objects, k), Digits(k + 1), OBJ, objects[k], ENDOBJ, rest);
  }

  lemma Regrouped(before: string, a: string, b: string, c: string, d: string, rest: string)
    ensures before + (a + b + c + d) + rest == before + (a + b + c + d + rest)
  {
  }

  lemma {:induction false} EntriesLength(objects: seq<string>, n: nat)
    requires n <= |objects| && Offset(objects, n) <= Pow10(10)
    ensures |Entries(objects, n)| == 20 * n
  {
    if n > 0 {
      assert Offset(objects, n - 1) < Offset(objects, n);
      EntryLength(Offset(objects, n - 1));
      EntriesLength(objects, n - 1);
    }
  }

  lemma {:induction false} EntryAt(objects: seq<string>, n: nat, k: nat)
    requires k < n <= |objects| && Offset(objects, n) <= Pow10(10)
    ensures |Entries(objects, n)| == 20 * n
    ensures Entries(objects, n)[20 * k..20 * k + 20] == Entry(Offset(objects, k))
  {
    EntriesLength(objects, n);
    EntriesLength(objects, n - 1);
    assert Offset(objects, n - 1) < Offset(objects, n);
    var front, last := Entries(objects, n - 1), Entry(Offset(objects, n - 1));
    assert Entries(objects, n) == front + last;
    if k == n - 1 {
      EntryLength(Offset(objects, k));
    } else {
      EntryAt(objects, n - 1, k);
      assert (front + last)[20 * k..20 * k + 20] == front[20 * k..20 * k + 20];
    }
  }

  // ---- The reader finds every object ----

  lemma TailParts(before: string, mark: string, digits: string, end: string)
    ensures
      var file, front := before + (mark + digits + end), before + mark + digits;
      && EndsWith(file, end) && file[..|file| - |end|] == front
      && front[|front| - |digits|..] == digits && front[..|front| - |digits|] == before + mark
      && EndsWith(before + mark, mark)
  {
    var front := before + mark + digits;
    assert before + (mark + digits + end) == front + end;
  }

  lemma StartXrefFound(before: string, offset: nat)
    ensures StartXref(before + (STARTXREF + Digits(offset) + EOF)) == Some(offset)
  {
    TailParts(before, STARTXREF, Digits(offset), EOF);
    assert !IsDigit((before + STARTXREF)[|before + STARTXREF| - 1]);
    TrailingDigitsExact(before + STARTXREF, Digits(offset));
    DigitsValue(offset);
  }

  lemma HeadParts(mark: string, digits: string, separator: string, table: string)
    requires |separator| == 1
    ensures
      var s, rest := mark + digits + separator + table, digits + (separator + table);
      && StartsWith(s, mark) && s[|mark|..] == rest
      && rest[..|digits|] == digits && StartsWith(rest[|digits|..], separator) && rest[|digits| + 1..] == table
  {
    var rest := digits + (separator + table);
    assert mark + digits + separator + table == mark + rest;
    assert rest[|digits|..] == separator + table;
  }

  lemma TableRead(count: nat, table: string)
    ensures ReadTable(XREF + Digits(count) + "\n" + table) == Some((count, table))
  {
    HeadParts(XREF, Digits(count), "\n", table);
    LeadingDigitsExact(Digits(count), "\n" + table);
    DigitsValue(count);
  }

  lemma SliceInMiddle(before: string, middle: string, after: string, i: nat, n: nat)
    requires i + n <= |middle|
    ensures Take(Drop(before + middle + after, |before| + i), n) == middle[i..i + n]
  {
    assert (before + middle + after)[|before| + i..] == middle[i..] + after;
  }

  lemma EntryParts(offset: nat)
    requires offset < Pow10(10)
    ensures Entry(offset)[..10] == PadStart(Digits(offset), 10) && Entry(offset)[10..] == IN_USE
    ensures |Entry(offset)| == 20 && AllDigits(Entry(offset)[..10]) && Value(Entry(offset)[..10]) == offset
  {
    EntryLength(offset);
    var digits := PadStart(Digits(offset), 10);
    assert Entry(offset) == digits + IN_USE;
  }

  lemma EntryReadIn(free: string, entries: string, rest: string, k: nat, entry: string)
    requires |free| == 20 && 20 * k + 20 <= |entries| && entries[20 * k..20 * k + 20] == entry
    requires |entry| == 20 && entry[10..] == IN_USE && AllDigits(entry[..10])
    ensures ReadEntry(free + entries + rest, k + 1) == Some(Value(entry[..10]))
  {
    SliceInMiddle(free, entries, rest, 20 * k, 20);
  }

  lemma FreeEntryLength()
    ensures |FREE_ENTRY| == 20
  {
  }

  lemma OffsetBound(objects: seq<string>, k: nat)
    requires k < |objects|
    ensures Offset(objects, k) < Offset(objects, |objects|)
  {
    BodyGrows(objects, k + 1, |objects|);
  }

  lemma EntryRead(objects: seq<string>, rest: string, k: nat)
    requires k < |objects| && Offset(objects, |objects|) <= Pow10(10)
    ensures ReadEntry(FREE_ENTRY + Entries(objects, |objects|) + rest, k + 1) == Some(Offset(objects, k))
  {
    EntryAt(objects, |objects|, k);
    OffsetBound(objects, k);
    EntryParts(Offset(objects, k));
    FreeEntryLength();
    EntryReadIn(FREE_ENTRY, Entries(objects, |objects|), rest, k, Entry(Offset(objects, k)));
  }

  lemma FoundByTable(file: string, x: nat, count: nat, table: string, k: nat, offset: nat, body: string)
    requires StartXref(file) == Some(x) && ReadTable(Drop(file, x)) == Some((count, table))
    requires k < count && ReadEntry(table, k) == Some(offset)
    requires Drop(file, offset) == Digits(k) + OBJ + body
    ensures FindObject(file, k) == Some(body)
  {
    StartsWithConcat(Digits(k) + OBJ, body);
  }

  function Table(objects: seq<string>): string {
    FREE_ENTRY + Entries(objects, |objects|) + (Trailer(objects) + Tail(objects))
  }

  lemma Regroup(a: string, b: string, c: string, d: string, e: string)
    ensures a + (b + (c + d + e)) == a + (b + (c + (d + e)))
    ensures a + (b + (c + d + e)) == (a + b + c + d) + e
  {
    assert c + d + e == c + (d + e);
  }

  lemma RegroupAtOffset(a: string, head: string, body: string, end: string, after: string, tail: string)
    ensures Drop(a + (head + body + end + after) + tail, |a|) == head + (body + end + (after + tail))
  {
    var text := head + body + end + after;
    assert a + text + tail == a + (text + tail);
    assert text + tail == head + (body + end + (after + tail));
  }

  lemma FileParts(objects: seq<string>) returns (before: string)
    ensures File(objects) == Body(objects, |objects|) + (XrefHead(objects) + Table(objects))
    ensures File(objects) == before + Tail(objects)
  {
    var body, entries := Body(objects, |objects|), FREE_ENTRY + Entries(objects, |objects|);
    before := body + XrefHead(objects) + entries + Trailer(objects);
    Regroup(body, XrefHead(objects), entries, Trailer(objects), Tail(objects));
  }

  /**
   Every object of a file of at most 10^10 bytes is found through startxref and the
   cross-reference table: the text at its recorded offset is the object.
   */
  lemma ObjectIsFound(objects: seq<string>, k: nat) returns (rest: string)
    requires k < |objects| && |File(objects)| <= Pow10(10)
    ensures FindObject(File(objects), k + 1) == Some(objects[k] + ENDOBJ + rest)
  {
    var file, body, table := File(objects), Body(objects, |objects|), Table(objects);
    var before := FileParts(objects);
    StartXrefFound(before, |body|);
    assert Drop(file, |body|) == XrefHead(objects) + table;
    TableRead(|objects| + 1, table);
    EntryRead(objects, Trailer(objects) + Tail(objects), k);
    var after := ObjectAtOffset(objects, k);
    rest := after + (XrefHead(objects) + table);
    TextAtOffset(objects, k, after, XrefHead(objects) + table);
    FoundByTable(file, |body|, |objects| + 1, table, k + 1, Offset(objects, k), objects[k] + ENDOBJ + rest);
  }

  lemma TextAtOffset(objects: seq<string>, k: nat, after: string, tail: string)
    requires k < |objects|
    requires Body(objects, |objects|) == Body(objects, k) + (Digits(k + 1) + OBJ + objects[k] + ENDOBJ + after)
    ensures Drop(Body(objects, |objects|) + tail, Offset(objects, k))
      == Digits(k + 1) + OBJ + (objects[k] + ENDOBJ + (after + tail))
  {
    RegroupAtOffset(Body(objects, k), Digits(k + 1) + OBJ, objects[k], ENDOBJ, after, tail);
  }
}
