/**
 The rotating access log (server/src/access-log.js). A directory maps file numbers to lines: 0 is the
 file being written, k the rotated file with suffix `.k`. Writes are awaited one at a time.
 */
module RotatingLog {

  type Directory = map<nat, seq<string>>

  function File(dir: Directory, k: nat): seq<string> {
    if k in dir then dir[k] else []
  }

  /** The files k, k-1, .., 0 read one after the other. */
  function ReadDown(dir: Directory, k: nat): seq<string> {
    File(dir, k) + if k == 0 then [] else ReadDown(dir, k - 1)
  }

  /** The highest file number that exists at any time. */
  function Top(maxFiles: nat): nat {
    if maxFiles == 0 then 1 else maxFiles
  }

  /** Everything in the log, oldest file first. */
  function Contents(dir: Directory, maxFiles: nat): seq<string> {
    ReadDown(dir, Top(maxFiles))
  }

  predicate IsSuffix(a: seq<string>, b: seq<string>) {
    |a| <= |b| && b[|b| - |a|..] == a
  }

  lemma SuffixTransitive(a: seq<string>, b: seq<string>, c: seq<string>)
    requires IsSuffix(a, b) && IsSuffix(b, c)
    ensures IsSuffix(a, c)
  {
    assert c[|c| - |a|..] == c[|c| - |b|..][|b| - |a|..];
  }

  lemma SuffixAppend(a: seq<string>, b: seq<string>, line: string)
    requires IsSuffix(a, b)
    ensures IsSuffix(a + [line], b + [line])
  {
    assert (b + [line])[|b| - |a|..] == b[|b| - |a|..] + [line];
  }

  // ---- File operations ----

  /** A rename replaces the target; a missing source is ignored. */
  function Rename(dir: Directory, source: nat, target: nat): Directory {
    if source in dir then (map k | k in dir && k != source :: dir[k])[target := dir[source]] else dir
  }

  function Unlink(dir: Directory, k: nat): Directory {
    map j | j in dir && j != k :: dir[j]
  }

  /** How many rotated files rotate tries to move up. */
  function Shifts(maxFiles: nat): nat {
    if maxFiles == 0 then 0 else maxFiles - 1
  }

  /** The file operations of rotate, in order. */
  function RotateOp(dir: Directory, maxFiles: nat, n: nat): Directory {
    if n < Shifts(maxFiles) then Rename(dir, maxFiles - 1 - n, maxFiles - n)
    else if n == Shifts(maxFiles) then Rename(dir, 0, 1)
    else Unlink(dir, maxFiles + 1)
  }

  function TotalOps(maxFiles: nat): nat {
    Shifts(maxFiles) + 2
  }

  /** The directory after the first n operations of rotate. */
  function AfterOps(dir: Directory, maxFiles: nat, n: nat): Directory {
    if n == 0 then dir else RotateOp(AfterOps(dir, maxFiles, n - 1), maxFiles, n - 1)
  }

  // ---- Sizes ----

  type ByteLength = string -> nat

  /** A line and its line feed. */
  function Size(byteLength: ByteLength, line: string): nat {
    byteLength(line) + 1
  }

  function Bytes(byteLength: ByteLength, lines: seq<string>): nat {
    if lines == [] then 0 else Bytes(byteLength, lines[..|lines| - 1]) + Size(byteLength, lines[|lines| - 1])
  }

  /** No longer than the limit, unless it is a single line. */
  predicate FileFits(byteLength: ByteLength, maxBytes: nat, lines: seq<string>) {
    Bytes(byteLength, lines) <= maxBytes || |lines| <= 1
  }

  predicate DirectoryOk(byteLength: ByteLength, maxBytes: nat, maxFiles: nat, dir: Directory) {
    forall k :: k in dir ==> k <= Top(maxFiles) && FileFits(byteLength, maxBytes, dir[k])
  }

  // ---- A rotation loses only from the front ----

  lemma {:induction false} ReadDownSame(a: Directory, b: Directory, k: nat)
    requires forall j :: 0 <= j <= k ==> File(a, j) == File(b, j)
    ensures ReadDown(a, k) == ReadDown(b, k)
  {
    if k > 0 {
      ReadDownSame(a, b, k - 1);
    }
  }

  /** Moving a file up by one changes nothing if the target was missing, and drops it if it was the oldest. */
  lemma RenameReads(dir: Directory, i: nat, top: nat)
    requires i < top && (i + 1 !in dir || i + 1 == top)
    ensures IsSuffix(ReadDown(Rename(dir, i, i + 1), top), ReadDown(dir, top))
  {
    if i + 1 !in dir {
      RenameKeepsAll(dir, i, top);
    } else if i in dir {
      RenameOverOldest(dir, i);
    }
  }

  lemma ReadTop(dir: Directory, k: nat)
    ensures k > 0 ==> ReadDown(dir, k) == File(dir, k) + ReadDown(dir, k - 1)
    ensures k == 0 ==> ReadDown(dir, k) == File(dir, k)
  {
  }

  lemma ReadSameBelow(dir: Directory, after: Directory, k: nat)
    requires File(after, k) == []
    requires forall j :: 0 <= j < k ==> File(after, j) == File(dir, j)
    ensures ReadDown(dir, k) == File(dir, k) + ReadDown(after, k)
  {
    ReadTop(dir, k);
    ReadTop(after, k);
    if k > 0 {
      var below := ReadDown(dir, k - 1);
      ReadDownSame(after, dir, k - 1);
      assert [] + below == below;
    } else {
      assert File(dir, k) + [] == File(dir, k);
    }
  }

  lemma ShiftedReads(dir: Directory, after: Directory, i: nat)
    requires File(after, i + 1) == File(dir, i) && File(after, i) == []
    requires forall j :: 0 <= j < i ==> File(after, j) == File(dir, j)
    ensures ReadDown(after, i + 1) == ReadDown(dir, i)
  {
    ReadTop(after, i + 1);
    ReadSameBelow(dir, after, i);
  }

  /** A file moved up by one is read in the place of the file it replaces, and nothing is left where it was. */
  lemma MovedFileReads(dir: Directory, i: nat)
    requires i in dir
    ensures ReadDown(Rename(dir, i, i + 1), i + 1) == ReadDown(dir, i)
  {
    ShiftedReads(dir, Rename(dir, i, i + 1), i);
  }

  lemma RenameOverOldest(dir: Directory, i: nat)
    requires i in dir
    ensures IsSuffix(ReadDown(Rename(dir, i, i + 1), i + 1), ReadDown(dir, i + 1))
  {
    MovedFileReads(dir, i);
    ReadTop(dir, i + 1);
  }

  lemma {:induction false} RenameKeepsAll(dir: Directory, i: nat, top: nat)
    requires i < top && i + 1 !in dir
    ensures ReadDown(Rename(dir, i, i + 1), top) == ReadDown(dir, top)
    decreases top
  {
    var after := Rename(dir, i, i + 1);
    ReadTop(dir, top);
    if top > i + 1 {
      ReadTop(after, top);
      RenameKeepsAll(dir, i, top - 1);
      assert File(after, top) == File(dir, top);
    } else if i in dir {
      MovedFileReads(dir, i);
      assert File(dir, top) == [];
    }
  }

  /** Where operation n moves a file to. */
  function TargetOf(maxFiles: nat, n: nat): nat
    requires n <= Shifts(maxFiles)
  {
    if n < Shifts(maxFiles) then maxFiles - n else 1
  }

  /** What a rotation keeps after each of its operations. */
  predicate RotationState(
      byteLength: ByteLength, maxBytes: nat, maxFiles: nat, start: Directory, dir: Directory, n: nat)
  {
    && DirectoryOk(byteLength, maxBytes, maxFiles, dir)
    && IsSuffix(Contents(dir, maxFiles), Contents(start, maxFiles))
    && (n <= Shifts(maxFiles) ==> TargetOf(maxFiles, n) !in dir || TargetOf(maxFiles, n) == Top(maxFiles))
  }

  lemma MoveKeeps(byteLength: ByteLength, maxBytes: nat, maxFiles: nat, start: Directory, dir: Directory, n: nat)
    requires n <= Shifts(maxFiles) && RotationState(byteLength, maxBytes, maxFiles, start, dir, n)
    ensures RotationState(byteLength, maxBytes, maxFiles, start, RotateOp(dir, maxFiles, n), n + 1)
  {
    var target := TargetOf(maxFiles, n);
    var after := RotateOp(dir, maxFiles, n);
    assert after == Rename(dir, target - 1, target);
    RenameReads(dir, target - 1, Top(maxFiles));
    SuffixTransitive(Contents(after, maxFiles), Contents(dir, maxFiles), Contents(start, maxFiles));
    assert target - 1 !in after;
  }

  lemma UnlinkReads(dir: Directory, maxFiles: nat)
    requires forall k :: k in dir ==> k <= Top(maxFiles)
    ensures IsSuffix(Contents(Unlink(dir, maxFiles + 1), maxFiles), Contents(dir, maxFiles))
  {
    var after := Unlink(dir, maxFiles + 1);
    if maxFiles == 0 {
      assert ReadDown(dir, 1) == File(dir, 1) + ReadDown(dir, 0);
      assert ReadDown(after, 1) == [] + ReadDown(after, 0);
      ReadDownSame(dir, after, 0);
    } else {
      assert after == dir;
    }
  }

  lemma UnlinkKeeps(byteLength: ByteLength, maxBytes: nat, maxFiles: nat, start: Directory, dir: Directory, n: nat)
    requires n == Shifts(maxFiles) + 1 && RotationState(byteLength, maxBytes, maxFiles, start, dir, n)
    ensures RotationState(byteLength, maxBytes, maxFiles, start, RotateOp(dir, maxFiles, n), n + 1)
  {
    var after := Unlink(dir, maxFiles + 1);
    UnlinkReads(dir, maxFiles);
    SuffixTransitive(Contents(after, maxFiles), Contents(dir, maxFiles), Contents(start, maxFiles));
  }

  lemma OpKeeps(
      byteLength: ByteLength, maxBytes: nat, maxFiles: nat, start: Directory, dir: Directory, n: nat, after: Directory)
    requires n < TotalOps(maxFiles) && RotationState(byteLength, maxBytes, maxFiles, start, dir, n)
    requires after == RotateOp(dir, maxFiles, n)
    ensures RotationState(byteLength, maxBytes, maxFiles, start, after, n + 1)
  {
    if n <= Shifts(maxFiles) {
      MoveKeeps(byteLength, maxBytes, maxFiles, start, dir, n);
    } else {
      UnlinkKeeps(byteLength, maxBytes, maxFiles, start, dir, n);
    }
  }

  /** After any number of operations, what is left is a suffix of what was there. */
  lemma {:induction false} OpsKeepSuffix(byteLength: ByteLength, maxBytes: nat, maxFiles: nat, dir: Directory, n: nat)
    requires DirectoryOk(byteLength, maxBytes, maxFiles, dir) && n <= TotalOps(maxFiles)
    ensures RotationState(byteLength, maxBytes, maxFiles, dir, AfterOps(dir, maxFiles, n), n)
  {
    if n > 0 {
      OpsKeepSuffix(byteLength, maxBytes, maxFiles, dir, n - 1);
      OpKeeps(byteLength, maxBytes, maxFiles, dir, AfterOps(dir, maxFiles, n - 1), n - 1, AfterOps(dir, maxFiles, n));
    }
  }

  predicate WithinRetention(dir: Directory, maxFiles: nat) {
    forall k :: k in dir ==> k <= maxFiles
  }

  /** A completed rotation leaves no current file and no file past the retention window. */
  lemma RotationCompletes(byteLength: ByteLength, maxBytes: nat, maxFiles: nat, dir: Directory)
    requires DirectoryOk(byteLength, maxBytes, maxFiles, dir)
    ensures 0 !in AfterOps(dir, maxFiles, TotalOps(maxFiles))
    ensures WithinRetention(AfterOps(dir, maxFiles, TotalOps(maxFiles)), maxFiles)
  {
    var n := Shifts(maxFiles);
    OpsKeepSuffix(byteLength, maxBytes, maxFiles, dir, n);
    LastTwoOps(dir, maxFiles);
    LastTwoOpsClear(AfterOps(dir, maxFiles, n), maxFiles);
  }

  lemma LastTwoOps(dir: Directory, maxFiles: nat)
    ensures AfterOps(dir, maxFiles, TotalOps(maxFiles))
         == Unlink(Rename(AfterOps(dir, maxFiles, Shifts(maxFiles)), 0, 1), maxFiles + 1)
  {
    var n := Shifts(maxFiles);
    assert AfterOps(dir, maxFiles, n + 1) == RotateOp(AfterOps(dir, maxFiles, n), maxFiles, n);
    assert AfterOps(dir, maxFiles, n + 2) == RotateOp(AfterOps(dir, maxFiles, n + 1), maxFiles, n + 1);
  }

  lemma LastTwoOpsClear(dir: Directory, maxFiles: nat)
    requires forall k :: k in dir ==> k <= Top(maxFiles)
    ensures 0 !in Unlink(Rename(dir, 0, 1), maxFiles + 1)
    ensures WithinRetention(Unlink(Rename(dir, 0, 1), maxFiles + 1), maxFiles)
  {
  }

  // ---- The sink ----

  /** `written` is everything whose write has completed, since the directory was empty. */
  ghost predicate LogOk(byteLength: ByteLength, maxBytes: nat, maxFiles: nat, dir: Directory, written: seq<string>) {
    DirectoryOk(byteLength, maxBytes, maxFiles, dir) && IsSuffix(Contents(dir, maxFiles), written)
  }

  lemma {:induction false} AppendReads(dir: Directory, line: string, k: nat)
    ensures ReadDown(dir[0 := File(dir, 0) + [line]], k) == ReadDown(dir, k) + [line]
  {
    if k > 0 {
      AppendReads(dir, line, k - 1);
    }
  }

  /** A file is as long as its lines, each with its line feed. */
  lemma BytesAppend(byteLength: ByteLength, lines: seq<string>, line: string)
    ensures Bytes(byteLength, []) == 0
    ensures Bytes(byteLength, lines + [line]) == Bytes(byteLength, lines) + byteLength(line) + 1
  {
    assert (lines + [line])[..|lines|] == lines;
  }

  /** A line appended to a file that has room for it, or is empty. */
  lemma AppendKeepsLog(
    byteLength: ByteLength, maxBytes: nat, maxFiles: nat, dir: Directory, written: seq<string>, line: string)
    requires LogOk(byteLength, maxBytes, maxFiles, dir, written)
    requires Bytes(byteLength, File(dir, 0)) + Size(byteLength, line) <= maxBytes
      || Bytes(byteLength, File(dir, 0)) == 0
    ensures LogOk(byteLength, maxBytes, maxFiles, dir[0 := File(dir, 0) + [line]], written + [line])
  {
    AppendReads(dir, line, Top(maxFiles));
    BytesAppend(byteLength, File(dir, 0), line);
    SuffixAppend(Contents(dir, maxFiles), written, line);
    if File(dir, 0) != [] {
      assert Bytes(byteLength, File(dir, 0)) > 0;
    }
  }

  /** Opening creates the file if it is missing, and otherwise changes nothing. */
  lemma OpenChangesNoLine(byteLength: ByteLength, dir: Directory)
    ensures 0 in dir ==> dir[0 := File(dir, 0)] == dir
    ensures Bytes(byteLength, File(dir, 0)) > 0 ==> 0 in dir
  {
  }

  lemma OpenKeepsLog(byteLength: ByteLength, maxBytes: nat, maxFiles: nat, dir: Directory, written: seq<string>)
    requires LogOk(byteLength, maxBytes, maxFiles, dir, written)
    ensures LogOk(byteLength, maxBytes, maxFiles, dir[0 := File(dir, 0)], written)
  {
    ReadDownSame(dir, dir[0 := File(dir, 0)], Top(maxFiles));
  }

  class RotatingFileSink {
    const byteLength: ByteLength
    const maxBytes: nat
    const maxFiles: nat
    /** The directory outlives the process; the stream and its counter do not. */
    var dir: Directory
    var stream: bool
    var bytesWritten: nat
    ghost var written: seq<string>

    ghost predicate Valid()
      reads this
    {
      && LogOk(byteLength, maxBytes, maxFiles, dir, written)
      && (stream ==> 0 in dir && bytesWritten == Bytes(byteLength, dir[0]))
    }

    /** A new process on the directory that an earlier one left. */
    constructor (byteLength: ByteLength, maxBytes: nat, maxFiles: nat, dir: Directory, ghost written: seq<string>)
      requires LogOk(byteLength, maxBytes, maxFiles, dir, written)
      ensures Valid() && !stream
      ensures this.byteLength == byteLength && this.maxBytes == maxBytes && this.maxFiles == maxFiles
      ensures this.dir == dir && this.written == written
    {
      this.byteLength, this.maxBytes, this.maxFiles := byteLength, maxBytes, maxFiles;
      this.dir, this.stream, this.bytesWritten, this.written := dir, false, 0, written;
    }

    method Open()
      requires Valid()
      modifies this
      ensures Valid() && stream && dir == old(dir)[0 := File(old(dir), 0)]
      ensures written == old(written)
    {
      bytesWritten := if 0 in dir then Bytes(byteLength, dir[0]) else 0;
      OpenKeepsLog(byteLength, maxBytes, maxFiles, dir, written);
      dir := dir[0 := File(dir, 0)];
      stream := true;
    }

    /** The renames of the rotated files; the log is a suffix of what was written after each of them. */
    method ShiftFiles()
      requires Valid() && !stream
      modifies this
      ensures Valid() && !stream && written == old(written)
      ensures dir == AfterOps(old(dir), maxFiles, Shifts(maxFiles))
    {
      ghost var n := 0;
      var index := maxFiles - 1;
      while index >= 1
        invariant 0 <= n <= Shifts(maxFiles) && index == maxFiles - 1 - n
        invariant dir == AfterOps(old(dir), maxFiles, n)
        invariant written == old(written) && !stream
        invariant LogOk(byteLength, maxBytes, maxFiles, dir, written)
        decreases index
      {
        NextShift(byteLength, maxBytes, maxFiles, old(dir), written, n, dir, index);
        dir := Rename(dir, index, index + 1);
        n := n + 1;
        index := index - 1;
      }
    }

    /** The current file becomes the newest rotated file. */
    method MoveCurrent(ghost start: Directory)
      requires Valid() && !stream && LogOk(byteLength, maxBytes, maxFiles, start, written)
      requires dir == AfterOps(start, maxFiles, Shifts(maxFiles))
      modifies this
      ensures Valid() && !stream && written == old(written)
      ensures dir == AfterOps(start, maxFiles, Shifts(maxFiles) + 1)
    {
      OpsKeepLog(byteLength, maxBytes, maxFiles, start, written, Shifts(maxFiles) + 1);
      dir := Rename(dir, 0, 1);
    }

    /** Anything past the retention window is dropped. */
    method DropOldest(ghost start: Directory)
      requires Valid() && !stream && LogOk(byteLength, maxBytes, maxFiles, start, written)
      requires dir == AfterOps(start, maxFiles, Shifts(maxFiles) + 1)
      modifies this
      ensures Valid() && !stream && written == old(written)
      ensures dir == AfterOps(start, maxFiles, TotalOps(maxFiles))
    {
      OpsKeepLog(byteLength, maxBytes, maxFiles, start, written, TotalOps(maxFiles));
      dir := Unlink(dir, maxFiles + 1);
    }

    method Rotate()
      requires Valid()
      modifies this
      ensures Valid() && stream && written == old(written)
      ensures dir == AfterOps(old(dir), maxFiles, TotalOps(maxFiles))[0 := []]
      ensures bytesWritten == 0
    {
      stream := false;
      ShiftFiles();
      MoveCurrent(old(dir));
      DropOldest(old(dir));
      RotationCompletes(byteLength, maxBytes, maxFiles, old(dir));
      bytesWritten := 0;
      Open();
    }

    method Append(line: string)
      requires Valid() && stream
      requires bytesWritten + Size(byteLength, line) <= maxBytes || bytesWritten == 0
      modifies this
      ensures Valid() && stream && written == old(written) + [line]
      ensures dir == old(dir)[0 := File(old(dir), 0) + [line]]
    {
      AppendKeepsLog(byteLength, maxBytes, maxFiles, dir, written, line);
      BytesAppend(byteLength, File(dir, 0), line);
      dir := dir[0 := File(dir, 0) + [line]];
      bytesWritten := bytesWritten + Size(byteLength, line);
      written := written + [line];
    }

    /** Opens the file if need be, and rotates if the line would take it past the limit. */
    method MakeRoom(line: string)
      requires Valid()
      modifies this
      ensures Valid() && stream && written == old(written)
      ensures dir == RoomFor(byteLength, maxBytes, maxFiles, old(dir), line)
      ensures bytesWritten + Size(byteLength, line) <= maxBytes || bytesWritten == 0
    {
      OpenChangesNoLine(byteLength, dir);
      if !stream {
        Open();
      }
      var size := Size(byteLength, line);
      if bytesWritten + size > maxBytes && bytesWritten > 0 {
        Rotate();
      }
    }

    method Write(line: string)
      requires Valid()
      modifies this
      ensures Valid() && stream && written == old(written) + [line]
      ensures dir == AfterWrite(byteLength, maxBytes, maxFiles, old(dir), line)
      ensures HasRoom(byteLength, maxBytes, old(dir), line) ==> Appended(old(dir), line, dir)
      ensures !HasRoom(byteLength, maxBytes, old(dir), line) ==> Rotated(old(dir), maxFiles, line, dir)
    {
      WriteGoes(byteLength, maxBytes, maxFiles, dir, line, AfterWrite(byteLength, maxBytes, maxFiles, dir, line));
      MakeRoom(line);
      RoomThenLine(byteLength, maxBytes, maxFiles, old(dir), line);
      Append(line);
    }

    method Close()
      requires Valid()
      modifies this
      ensures Valid() && !stream && dir == old(dir) && written == old(written)
    {
      stream := false;
    }
  }

  predicate NeedsRotation(byteLength: ByteLength, maxBytes: nat, dir: Directory, line: string) {
    var size := Bytes(byteLength, File(dir, 0));
    size + Size(byteLength, line) > maxBytes && size > 0
  }

  /** The directory a line is about to be written to. */
  function RoomFor(byteLength: ByteLength, maxBytes: nat, maxFiles: nat, dir: Directory, line: string): Directory {
    if NeedsRotation(byteLength, maxBytes, dir, line) then AfterOps(dir, maxFiles, TotalOps(maxFiles))[0 := []]
    else dir[0 := File(dir, 0)]
  }

  lemma RoomThenLine(byteLength: ByteLength, maxBytes: nat, maxFiles: nat, dir: Directory, line: string)
    ensures
      var room := RoomFor(byteLength, maxBytes, maxFiles, dir, line);
      room[0 := File(room, 0) + [line]] == AfterWrite(byteLength, maxBytes, maxFiles, dir, line)
  {
    assert [] + [line] == [line];
  }

  /** The directory after a completed write. */
  function AfterWrite(byteLength: ByteLength, maxBytes: nat, maxFiles: nat, dir: Directory, line: string): Directory {
    if NeedsRotation(byteLength, maxBytes, dir, line) then AfterOps(dir, maxFiles, TotalOps(maxFiles))[0 := [line]]
    else dir[0 := File(dir, 0) + [line]]
  }

  lemma NextShift(
    byteLength: ByteLength, maxBytes: nat, maxFiles: nat, start: Directory, written: seq<string>, n: nat,
    dir: Directory, index: nat)
    requires LogOk(byteLength, maxBytes, maxFiles, start, written) && n < Shifts(maxFiles)
    requires dir == AfterOps(start, maxFiles, n) && index == maxFiles - 1 - n
    ensures Rename(dir, index, index + 1) == AfterOps(start, maxFiles, n + 1)
    ensures LogOk(byteLength, maxBytes, maxFiles, AfterOps(start, maxFiles, n + 1), written)
  {
    OpsKeepLog(byteLength, maxBytes, maxFiles, start, written, n + 1);
    assert AfterOps(start, maxFiles, n + 1) == RotateOp(dir, maxFiles, n);
  }

  lemma OpsKeepLog(
    byteLength: ByteLength, maxBytes: nat, maxFiles: nat, dir: Directory, written: seq<string>, n: nat)
    requires LogOk(byteLength, maxBytes, maxFiles, dir, written) && n <= TotalOps(maxFiles)
    ensures LogOk(byteLength, maxBytes, maxFiles, AfterOps(dir, maxFiles, n), written)
  {
    OpsKeepSuffix(byteLength, maxBytes, maxFiles, dir, n);
    SuffixTransitive(Contents(AfterOps(dir, maxFiles, n), maxFiles), Contents(dir, maxFiles), written);
  }

  // ---- What a rotation keeps, exactly ----

  /** Everything but the oldest rotated file, and that one too when nothing was renamed over it. */
  function Retained(dir: Directory, maxFiles: nat): seq<string> {
    if maxFiles == 0 then []
    else (if maxFiles - 1 in dir then [] else File(dir, maxFiles)) + ReadDown(dir, maxFiles - 1)
  }

  predicate Numbered(dir: Directory, maxFiles: nat) {
    forall k :: k in dir ==> k <= Top(maxFiles)
  }

  lemma FirstOpDrops(dir: Directory, maxFiles: nat)
    requires maxFiles > 0
    ensures Contents(AfterOps(dir, maxFiles, 1), maxFiles) == Retained(dir, maxFiles)
    ensures maxFiles - 1 !in AfterOps(dir, maxFiles, 1)
  {
    var i := maxFiles - 1;
    var after := Rename(dir, i, maxFiles);
    assert AfterOps(dir, maxFiles, 1) == RotateOp(AfterOps(dir, maxFiles, 0), maxFiles, 0) == after;
    if i in dir {
      MovedFileReads(dir, i);
    } else {
      ReadTop(dir, maxFiles);
    }
  }

  /** From the first rename on, whenever the process stops, the log holds exactly the retained lines. */
  lemma {:induction false} RotationRetains(dir: Directory, maxFiles: nat, n: nat)
    requires Numbered(dir, maxFiles) && maxFiles > 0 && 1 <= n <= TotalOps(maxFiles)
    ensures Contents(AfterOps(dir, maxFiles, n), maxFiles) == Retained(dir, maxFiles)
    ensures Numbered(AfterOps(dir, maxFiles, n), maxFiles)
    ensures n <= Shifts(maxFiles) ==> TargetOf(maxFiles, n) !in AfterOps(dir, maxFiles, n)
  {
    if n == 1 {
      FirstOpDrops(dir, maxFiles);
    } else {
      RotationRetains(dir, maxFiles, n - 1);
      var before := AfterOps(dir, maxFiles, n - 1);
      if n - 1 <= Shifts(maxFiles) {
        var target := TargetOf(maxFiles, n - 1);
        assert RotateOp(before, maxFiles, n - 1) == Rename(before, target - 1, target);
        RenameKeepsAll(before, target - 1, maxFiles);
      } else {
        assert Unlink(before, maxFiles + 1) == before;
      }
    }
  }

  /** With no rotated files allowed, a rotation empties the log. */
  lemma RotationWithoutRetention(dir: Directory)
    requires Numbered(dir, 0)
    ensures Contents(AfterOps(dir, 0, TotalOps(0)), 0) == Retained(dir, 0)
  {
    var moved := RotateOp(AfterOps(dir, 0, 0), 0, 0);
    assert AfterOps(dir, 0, 1) == moved == Rename(dir, 0, 1);
    assert AfterOps(dir, 0, 2) == Unlink(moved, 1);
    assert ReadDown(Unlink(moved, 1), 1) == [] + ReadDown(Unlink(moved, 1), 0);
  }

  // ---- Runs of processes over one directory ----

  datatype World = World(dir: Directory, written: seq<string>)

  datatype Action =
    | WriteCompletes(line: string)
    /** The process stops while the file is being opened. */
    | StopsInOpen
    /** The process stops inside the rotation of a write, after this many file operations. */
    | StopsInRotation(line: string, ops: nat)

  predicate Enabled(byteLength: ByteLength, maxBytes: nat, maxFiles: nat, w: World, a: Action) {
    a.StopsInRotation? ==> NeedsRotation(byteLength, maxBytes, w.dir, a.line) && a.ops <= TotalOps(maxFiles)
  }

  function Step(byteLength: ByteLength, maxBytes: nat, maxFiles: nat, w: World, a: Action): World {
    match a
    case WriteCompletes(line) =>
      World(AfterWrite(byteLength, maxBytes, maxFiles, w.dir, line), w.written + [line])
    case StopsInOpen => World(w.dir[0 := File(w.dir, 0)], w.written)
    case StopsInRotation(_, ops) => World(AfterOps(w.dir, maxFiles, ops), w.written)
  }

  /** The worlds of a run: it starts with an empty directory and takes one enabled action after another. */
  ghost predicate IsRun(
      byteLength: ByteLength, maxBytes: nat, maxFiles: nat, worlds: seq<World>, actions: seq<Action>)
  {
    && |worlds| == |actions| + 1
    && worlds[0] == World(map[], [])
    && forall i :: 0 <= i < |actions| ==>
      && Enabled(byteLength, maxBytes, maxFiles, worlds[i], actions[i])
      && worlds[i + 1] == Step(byteLength, maxBytes, maxFiles, worlds[i], actions[i])
  }

  lemma CompletedRotationKeepsLog(
    byteLength: ByteLength, maxBytes: nat, maxFiles: nat, dir: Directory, written: seq<string>, line: string)
    requires LogOk(byteLength, maxBytes, maxFiles, dir, written)
    ensures
      var after := AfterOps(dir, maxFiles, TotalOps(maxFiles))[0 := [line]];
      LogOk(byteLength, maxBytes, maxFiles, after, written + [line])
  {
    OpsKeepLog(byteLength, maxBytes, maxFiles, dir, written, TotalOps(maxFiles));
    RotationCompletes(byteLength, maxBytes, maxFiles, dir);
    var rotated := AfterOps(dir, maxFiles, TotalOps(maxFiles));
    assert File(rotated, 0) + [line] == [line];
    AppendKeepsLog(byteLength, maxBytes, maxFiles, rotated, written, line);
  }

  lemma StepKeepsLog(byteLength: ByteLength, maxBytes: nat, maxFiles: nat, w: World, a: Action, next: World)
    requires LogOk(byteLength, maxBytes, maxFiles, w.dir, w.written)
    requires Enabled(byteLength, maxBytes, maxFiles, w, a) && next == Step(byteLength, maxBytes, maxFiles, w, a)
    ensures LogOk(byteLength, maxBytes, maxFiles, next.dir, next.written)
  {
    match a
    case WriteCompletes(line) =>
      if NeedsRotation(byteLength, maxBytes, w.dir, line) {
        CompletedRotationKeepsLog(byteLength, maxBytes, maxFiles, w.dir, w.written, line);
      } else {
        AppendKeepsLog(byteLength, maxBytes, maxFiles, w.dir, w.written, line);
      }
    case StopsInOpen =>
      OpenKeepsLog(byteLength, maxBytes, maxFiles, w.dir, w.written);
    case StopsInRotation(_, ops) =>
      OpsKeepLog(byteLength, maxBytes, maxFiles, w.dir, w.written, ops);
  }

  /** In every reachable directory the files, oldest first, are a suffix of the written lines and every file fits. */
  lemma {:induction false} RunKeepsLog(
    byteLength: ByteLength, maxBytes: nat, maxFiles: nat, worlds: seq<World>, actions: seq<Action>, i: nat)
    requires IsRun(byteLength, maxBytes, maxFiles, worlds, actions) && i <= |actions|
    ensures IsSuffix(Contents(worlds[i].dir, maxFiles), worlds[i].written)
    ensures DirectoryOk(byteLength, maxBytes, maxFiles, worlds[i].dir)
  {
    if i == 0 {
      EmptyReads(Top(maxFiles));
    } else {
      RunKeepsLog(byteLength, maxBytes, maxFiles, worlds, actions, i - 1);
      StepKeepsLog(byteLength, maxBytes, maxFiles, worlds[i - 1], actions[i - 1], worlds[i]);
    }
  }

  lemma {:induction false} EmptyReads(k: nat)
    ensures ReadDown(map[], k) == []
  {
    if k > 0 {
      EmptyReads(k - 1);
    }
  }

  // ---- Where a completed write puts its line ----

  /** A file with its lines, or none. */
  datatype Entry = Missing | Present(lines: seq<string>)

  function At(dir: Directory, k: nat): Entry {
    if k in dir then Present(dir[k]) else Missing
  }

  /** The line fits beside the lines of the current file, or that file is empty. */
  predicate HasRoom(byteLength: ByteLength, maxBytes: nat, dir: Directory, line: string) {
    0 in dir && dir[0] != [] ==> Bytes(byteLength, dir[0]) + byteLength(line) + 1 <= maxBytes
  }

  /** The line is the last of the current file, and every other file is as it was. */
  ghost predicate Appended(before: Directory, line: string, after: Directory) {
    && At(after, 0) == Present((if 0 in before then before[0] else []) + [line])
    && forall k: nat :: k != 0 ==> At(after, k) == At(before, k)
  }

  /** What becomes rotated file k: the file numbered below, or if that is missing the oldest stays. */
  function MovedTo(before: Directory, maxFiles: nat, k: nat): Entry
    requires k > 0
  {
    if k - 1 in before then Present(before[k - 1])
    else if k == maxFiles && k in before then Present(before[k])
    else Missing
  }

  /** The line is alone in the current file, and every file before it has the next number. */
  ghost predicate Rotated(before: Directory, maxFiles: nat, line: string, after: Directory) {
    && At(after, 0) == Present([line])
    && (forall k :: 0 < k <= maxFiles ==> At(after, k) == MovedTo(before, maxFiles, k))
    && (forall k: nat :: k > maxFiles ==> At(after, k) == Missing)
  }

  /** The directory while files are moved up: those numbered from `low` on have been. */
  ghost predicate MovedDownTo(before: Directory, maxFiles: nat, dir: Directory, low: nat) {
    && (forall k: nat :: k < low ==> At(dir, k) == At(before, k))
    && (low <= maxFiles ==> At(dir, low) == if low == maxFiles then At(before, low) else Missing)
    && (forall k :: low < k <= maxFiles ==> At(dir, k) == MovedTo(before, maxFiles, k))
    && (forall k: nat :: k > maxFiles ==> At(dir, k) == Missing)
  }

  lemma OneMoved(before: Directory, maxFiles: nat, dir: Directory, low: nat)
    requires 0 < low <= maxFiles && MovedDownTo(before, maxFiles, dir, low)
    ensures MovedDownTo(before, maxFiles, Rename(dir, low - 1, low), low - 1)
  {
    var after := Rename(dir, low - 1, low);
    assert At(dir, low - 1) == At(before, low - 1);
    forall k: nat | k != low ensures At(after, k) == if k == low - 1 then Missing else At(dir, k) {
    }
    assert At(after, low) == MovedTo(before, maxFiles, low);
  }

  lemma {:induction false} OpsMove(before: Directory, maxFiles: nat, n: nat)
    requires n <= maxFiles && forall k :: k in before ==> k <= maxFiles
    ensures MovedDownTo(before, maxFiles, AfterOps(before, maxFiles, n), maxFiles - n)
  {
    if n > 0 {
      OpsMove(before, maxFiles, n - 1);
      OneMoved(before, maxFiles, AfterOps(before, maxFiles, n - 1), maxFiles - n + 1);
    }
  }

  lemma RotationMoves(before: Directory, maxFiles: nat, line: string)
    requires Numbered(before, maxFiles)
    ensures Rotated(before, maxFiles, line, AfterOps(before, maxFiles, TotalOps(maxFiles))[0 := [line]])
  {
    var rotated := AfterOps(before, maxFiles, TotalOps(maxFiles));
    LastTwoOps(before, maxFiles);
    forall k: nat | k > 0 ensures At(rotated[0 := [line]], k) == At(rotated, k) {
    }
    if maxFiles > 0 {
      var moved := AfterOps(before, maxFiles, maxFiles);
      OpsMove(before, maxFiles, maxFiles);
      assert moved == Rename(AfterOps(before, maxFiles, Shifts(maxFiles)), 0, 1);
      assert rotated == Unlink(moved, maxFiles + 1);
      forall k: nat ensures At(rotated, k) == At(moved, k) {
      }
    } else {
      LastTwoOpsClear(before, 0);
      forall k: nat ensures At(rotated, k) == Missing {
      }
    }
    var after := rotated[0 := [line]];
    assert At(after, 0) == Present([line]);
    forall k: nat | k > maxFiles ensures At(after, k) == Missing {
      assert At(after, k) == At(rotated, k);
    }
  }

  lemma RoomIff(byteLength: ByteLength, maxBytes: nat, dir: Directory, line: string)
    ensures HasRoom(byteLength, maxBytes, dir, line) <==> !NeedsRotation(byteLength, maxBytes, dir, line)
  {
    assert File(dir, 0) != [] ==> Bytes(byteLength, File(dir, 0)) > 0;
  }

  /** A write appends its line if the current file has room for it, and otherwise rotates and starts a new file. */
  lemma WriteGoes(byteLength: ByteLength, maxBytes: nat, maxFiles: nat, dir: Directory, line: string, after: Directory)
    requires Numbered(dir, maxFiles) && after == AfterWrite(byteLength, maxBytes, maxFiles, dir, line)
    ensures HasRoom(byteLength, maxBytes, dir, line) ==> Appended(dir, line, after)
    ensures !HasRoom(byteLength, maxBytes, dir, line) ==> Rotated(dir, maxFiles, line, after)
  {
    RoomIff(byteLength, maxBytes, dir, line);
    if !HasRoom(byteLength, maxBytes, dir, line) {
      RotationMoves(dir, maxFiles, line);
    }
  }

  /** The same of every step of a run; a process stops inside a rotation only if its line had no room. */
  lemma WriteGoesInRun(
    byteLength: ByteLength, maxBytes: nat, maxFiles: nat, worlds: seq<World>, actions: seq<Action>, i: nat)
    requires IsRun(byteLength, maxBytes, maxFiles, worlds, actions) && i < |actions|
    ensures
      var dir, after := worlds[i].dir, worlds[i + 1].dir;
      match actions[i]
      case WriteCompletes(line) =>
        && worlds[i + 1].written == worlds[i].written + [line]
        && (HasRoom(byteLength, maxBytes, dir, line) ==> Appended(dir, line, after))
        && (!HasRoom(byteLength, maxBytes, dir, line) ==> Rotated(dir, maxFiles, line, after))
      case StopsInOpen =>
        && worlds[i + 1].written == worlds[i].written
        && At(after, 0) == Present(if 0 in dir then dir[0] else [])
        && forall k: nat :: k != 0 ==> At(after, k) == At(dir, k)
      case StopsInRotation(line, _) =>
        worlds[i + 1].written == worlds[i].written && !HasRoom(byteLength, maxBytes, dir, line)
  {
    RunKeepsLog(byteLength, maxBytes, maxFiles, worlds, actions, i);
    match actions[i]
    case WriteCompletes(line) =>
      WriteGoes(byteLength, maxBytes, maxFiles, worlds[i].dir, line, worlds[i + 1].dir);
    case StopsInOpen =>
    case StopsInRotation(line, _) => RoomIff(byteLength, maxBytes, worlds[i].dir, line);
  }

  /** A completed write adds its line at the end; it drops lines only if it rotates, those of the oldest file. */
  lemma CompletedWriteAddsItsLine(
    byteLength: ByteLength, maxBytes: nat, maxFiles: nat, worlds: seq<World>, actions: seq<Action>, i: nat)
    requires IsRun(byteLength, maxBytes, maxFiles, worlds, actions) && i < |actions| && actions[i].WriteCompletes?
    ensures
      var dir, line := worlds[i].dir, actions[i].line;
      var rotates := !HasRoom(byteLength, maxBytes, dir, line);
      && Contents(worlds[i + 1].dir, maxFiles)
         == (if rotates then Retained(dir, maxFiles) else Contents(dir, maxFiles)) + [line]
      && (rotates ==> WithinRetention(worlds[i + 1].dir, maxFiles))
  {
    var dir, line := worlds[i].dir, actions[i].line;
    RunKeepsLog(byteLength, maxBytes, maxFiles, worlds, actions, i);
    RoomIff(byteLength, maxBytes, dir, line);
    if NeedsRotation(byteLength, maxBytes, dir, line) {
      var rotated := AfterOps(dir, maxFiles, TotalOps(maxFiles));
      RotationCompletes(byteLength, maxBytes, maxFiles, dir);
      assert File(rotated, 0) + [line] == [line];
      AppendReads(rotated, line, Top(maxFiles));
      if maxFiles == 0 {
        RotationWithoutRetention(dir);
      } else {
        RotationRetains(dir, maxFiles, TotalOps(maxFiles));
      }
    } else {
      AppendReads(dir, line, Top(maxFiles));
    }
  }
}
