/**
 * The append-only chunk store: a task's records as results.N.jsonl files, written by
 * one session after another and read back in numeric order.
 */
module ChunkStore {
  import opened Wrappers

  const CHUNK_FILE_PREFIX := "results."
  const CHUNK_FILE_SUFFIX := ".jsonl"
  const MAX_INT32 := 0x7fff_ffff

  // ---------------------------------------------------------------------------
  // Chunk names

  predicate IsDigit(c: char) {
    '0' <= c <= '9'
  }

  function DigitValue(c: char): (v: nat)
    requires IsDigit(c)
    ensures v < 10
  {
    c as int - '0' as int
  }

  /** A non-negative number as the formatter prints it. */
  function Decimal(n: nat): (s: string)
    ensures s != [] && forall c | c in s :: IsDigit(c)
  {
    var digit := ('0' as int + n % 10) as char;
    if n < 10 then [digit] else Decimal(n / 10) + [digit]
  }

  /** The value of a string of digits. */
  function Value(digits: string): (v: nat)
    requires forall c | c in digits :: IsDigit(c)
  {
    if digits == [] then 0
    else Value(digits[..|digits| - 1]) * 10 + DigitValue(digits[|digits| - 1])
  }

  lemma {:induction false} ValueOfDecimal(n: nat)
    ensures Value(Decimal(n)) == n
  {
    var digit := ('0' as int + n % 10) as char;
    if n < 10 {
      assert Decimal(n)[..|Decimal(n)| - 1] == [];
    } else {
      ValueOfDecimal(n / 10);
      assert Decimal(n)[..|Decimal(n)| - 1] == Decimal(n / 10);
      assert DigitValue(digit) == n % 10;
    }
  }

  function ChunkName(index: nat): (name: string) {
    CHUNK_FILE_PREFIX + Decimal(index) + CHUNK_FILE_SUFFIX
  }

  /** The name a 32-bit counter prints as, also after it wrapped. */
  function PrintedName(index: int): (name: string) {
    if 0 <= index then ChunkName(index) else CHUNK_FILE_PREFIX + "-" + Decimal(-index) + CHUNK_FILE_SUFFIX
  }

  /** The N of results.N.jsonl, for plain digits of a positive 32-bit number. */
  function ChunkIndex(name: string): (index: Option<nat>) {
    var p, s := |CHUNK_FILE_PREFIX|, |CHUNK_FILE_SUFFIX|;
    if !(CHUNK_FILE_PREFIX <= name) then None
    else
      var rest := name[p..];
      if |rest| < s || rest[|rest| - s..] != CHUNK_FILE_SUFFIX then None
      else
        var digits := rest[..|rest| - s];
        if digits == [] || (exists c :: c in digits && !IsDigit(c)) then None
        else if Value(digits) == 0 || MAX_INT32 < Value(digits) then None
        else Some(Value(digits))
  }

  /** Parsing inverts printing on every index the store can write, and names no other. */
  lemma ChunkIndexInvertsName(index: nat)
    ensures ChunkIndex(ChunkName(index)) == if 1 <= index <= MAX_INT32 then Some(index) else None
  {
    var name := ChunkName(index);
    var rest := name[|CHUNK_FILE_PREFIX|..];
    assert rest == Decimal(index) + CHUNK_FILE_SUFFIX;
    assert rest[..|rest| - |CHUNK_FILE_SUFFIX|] == Decimal(index);
    assert rest[|rest| - |CHUNK_FILE_SUFFIX|..] == CHUNK_FILE_SUFFIX;
    ValueOfDecimal(index);
  }

  lemma NoChunkIndexBelowOne(index: int)
    requires index <= 0
    ensures ChunkIndex(PrintedName(index)).None?
  {
    if index == 0 {
      ChunkIndexInvertsName(0);
    } else {
      var rest := PrintedName(index)[|CHUNK_FILE_PREFIX|..];
      assert rest == "-" + Decimal(-index) + CHUNK_FILE_SUFFIX;
      assert rest[..|rest| - |CHUNK_FILE_SUFFIX|] == "-" + Decimal(-index);
      assert !IsDigit('-') && '-' in "-" + Decimal(-index);
    }
  }

  /** How chunk files are named and their names read back. */
  datatype Naming = Naming(format: int -> string, parse: string -> Option<nat>)

  ghost predicate Inverts(n: Naming) {
    && (forall index: int | 1 <= index <= MAX_INT32 :: n.parse(n.format(index)) == Some(index))
    && (forall index: int | index <= 0 :: n.parse(n.format(index)).None?)
    && (forall name | n.parse(name).Some? :: 1 <= n.parse(name).value <= MAX_INT32)
  }

  const CHUNK_NAMING := Naming((index: int) => PrintedName(index), (name: string) => ChunkIndex(name))

  lemma ChunkNamingInverts()
    ensures Inverts(CHUNK_NAMING)
  {
    forall index: int | 1 <= index <= MAX_INT32
      ensures CHUNK_NAMING.parse(CHUNK_NAMING.format(index)) == Some(index)
    {
      ChunkIndexInvertsName(index);
    }
    forall index: int | index <= 0 ensures CHUNK_NAMING.parse(CHUNK_NAMING.format(index)).None? {
      NoChunkIndexBelowOne(index);
    }
  }

  // ---------------------------------------------------------------------------
  // Lines

  predicate IsSpace(c: char) {
    || c in {' ', '\t', '\n', '\U{000B}', '\U{000C}', '\r', '\U{0085}', '\U{00A0}', '\U{1680}'}
    || '\U{2000}' <= c <= '\U{200A}'
    || c in {'\U{2028}', '\U{2029}', '\U{202F}', '\U{205F}', '\U{3000}'}
  }

  function TrimLeft(s: string): (rest: string) {
    if s != [] && IsSpace(s[0]) then TrimLeft(s[1..]) else s
  }

  function TrimRight(s: string): (rest: string) {
    if s != [] && IsSpace(s[|s| - 1]) then TrimRight(s[..|s| - 1]) else s
  }

  function Trim(s: string): (rest: string) {
    TrimRight(TrimLeft(s))
  }

  /** A record that survives being a line: not blank, no newline in it, no space around it. */
  ghost predicate IsLine(record: string) {
    && record != [] && '\n' !in record
    && !IsSpace(record[0]) && !IsSpace(record[|record| - 1])
  }

  ghost predicate AreLines(records: seq<string>) {
    forall r | r in records :: IsLine(r)
  }

  function Encode(records: seq<string>): (content: string) {
    if records == [] then [] else Encode(records[..|records| - 1]) + records[|records| - 1] + "\n"
  }

  /** The lines of a file, without their newlines; what follows the last newline is a line when there is any. */
  function Lines(content: string): (lines: seq<string>) {
    if content == [] then []
    else
      var end := LineEnd(content);
      if end == |content| then [content] else [content[..end]] + Lines(content[end + 1..])
  }

  function LineEnd(content: string): (k: nat)
    ensures k <= |content| && '\n' !in content[..k]
    ensures k < |content| ==> content[k] == '\n'
  {
    if content == [] || content[0] == '\n' then 0 else 1 + LineEnd(content[1..])
  }

  function Kept(lines: seq<string>): (records: seq<string>) {
    if lines == [] then []
    else (if Trim(lines[0]) == [] then [] else [Trim(lines[0])]) + Kept(lines[1..])
  }

  function Decode(content: string): (records: seq<string>) {
    Kept(Lines(content))
  }

  lemma {:induction false} TrimLeftGivesNoLeadingSpace(s: string)
    ensures TrimLeft(s) == [] || !IsSpace(TrimLeft(s)[0])
    ensures forall c | c in TrimLeft(s) :: c in s
  {
    if s != [] && IsSpace(s[0]) {
      TrimLeftGivesNoLeadingSpace(s[1..]);
    }
  }

  lemma {:induction false} TrimRightGivesNoTrailingSpace(s: string)
    ensures var t := TrimRight(s);
            && t <= s && (t == [] || !IsSpace(t[|t| - 1]))
  {
    if s != [] && IsSpace(s[|s| - 1]) {
      TrimRightGivesNoTrailingSpace(s[..|s| - 1]);
    }
  }

  /** Whatever a file holds, every record read from it is a line. */
  lemma {:induction false} KeptAreLines(lines: seq<string>)
    requires forall l | l in lines :: '\n' !in l
    ensures forall r | r in Kept(lines) :: IsLine(r)
  {
    if lines != [] {
      KeptAreLines(lines[1..]);
      TrimLeftGivesNoLeadingSpace(lines[0]);
      TrimRightGivesNoTrailingSpace(TrimLeft(lines[0]));
      var t := Trim(lines[0]);
      if t != [] {
        assert t[0] == TrimLeft(lines[0])[0];
        assert forall c | c in t :: c in TrimLeft(lines[0]);
      }
    }
  }

  lemma {:induction false} LinesHaveNoNewline(content: string)
    ensures forall l | l in Lines(content) :: '\n' !in l
  {
    if content != [] {
      var end := LineEnd(content);
      if end == |content| {
        assert content[..end] == content;
      } else {
        LinesHaveNoNewline(content[end + 1..]);
      }
    }
  }

  lemma {:induction false} LineEndBefore(record: string, rest: string)
    requires '\n' !in record
    ensures LineEnd(record + "\n" + rest) == |record|
  {
    var content := record + "\n" + rest;
    if record != [] {
      LineEndBefore(record[1..], rest);
      assert content[1..] == record[1..] + "\n" + rest;
    }
  }

  lemma {:induction false} EncodeFront(records: seq<string>)
    requires records != []
    ensures Encode(records) == records[0] + "\n" + Encode(records[1..])
  {
    var init, last := records[..|records| - 1], records[|records| - 1];
    if |records| == 1 {
      assert records[1..] == [];
    } else {
      EncodeFront(init);
      assert init[1..] == records[1..][..|records[1..]| - 1];
      calc {
        Encode(records);
        Encode(init) + last + "\n";
        (records[0] + "\n" + Encode(init[1..])) + last + "\n";
        records[0] + "\n" + (Encode(init[1..]) + last + "\n");
        records[0] + "\n" + Encode(records[1..]);
      }
    }
  }

  lemma DecodeFirstLine(first: string, rest: string)
    requires IsLine(first)
    ensures Decode(first + "\n" + rest) == [first] + Decode(rest)
  {
    var content := first + "\n" + rest;
    LineEndBefore(first, rest);
    assert content[..|first|] == first && content[|first| + 1..] == rest;
    assert Lines(content) == [first] + Lines(rest);
    assert TrimLeft(first) == first && TrimRight(first) == first;
    assert ([first] + Lines(rest))[1..] == Lines(rest);
  }

  lemma {:induction false} DecodeEncodedLines(records: seq<string>)
    requires AreLines(records)
    ensures Decode(Encode(records)) == records
  {
    if records != [] {
      var first, rest := records[0], records[1..];
      assert first in records;
      EncodeFront(records);
      DecodeEncodedLines(rest);
      DecodeFirstLine(first, Encode(rest));
      assert [first] + rest == records;
    }
  }

  /** Writing records and reading them back is the identity exactly for records that are lines. */
  lemma JsonlRoundTrip(records: seq<string>)
    ensures Decode(Encode(records)) == records <==> AreLines(records)
  {
    if AreLines(records) {
      DecodeEncodedLines(records);
    }
    LinesHaveNoNewline(Encode(records));
    KeptAreLines(Lines(Encode(records)));
  }

  /** Reading trims nothing but space, and all of it. */
  lemma TrimRemovesSpace(s: string)
    ensures exists a, b :: s == a + Trim(s) + b && (forall c | c in a + b :: IsSpace(c))
    ensures Trim(s) == [] || (!IsSpace(Trim(s)[0]) && !IsSpace(Trim(s)[|Trim(s)| - 1]))
  {
    var rest := TrimLeft(s);
    TrimLeftRemovesSpace(s);
    TrimRightRemovesSpace(rest);
    TrimLeftGivesNoLeadingSpace(s);
    TrimRightGivesNoTrailingSpace(rest);
    var a, b := s[..|s| - |rest|], rest[|Trim(s)|..];
    assert s == a + Trim(s) + b;
  }

  lemma {:induction false} TrimLeftRemovesSpace(s: string)
    ensures |TrimLeft(s)| <= |s| && TrimLeft(s) == s[|s| - |TrimLeft(s)|..]
    ensures forall c | c in s[..|s| - |TrimLeft(s)|] :: IsSpace(c)
  {
    if s != [] && IsSpace(s[0]) {
      TrimLeftRemovesSpace(s[1..]);
      assert s[..|s| - |TrimLeft(s)|] == [s[0]] + s[1..][..|s| - 1 - |TrimLeft(s)|];
    }
  }

  lemma {:induction false} TrimRightRemovesSpace(s: string)
    ensures TrimRight(s) <= s && forall c | c in s[|TrimRight(s)|..] :: IsSpace(c)
  {
    if s != [] && IsSpace(s[|s| - 1]) {
      var init := s[..|s| - 1];
      TrimRightRemovesSpace(init);
      assert s[|TrimRight(s)|..] == init[|TrimRight(s)|..] + [s[|s| - 1]];
    }
  }

  /** A last record without its newline is read like the others. */
  lemma {:induction false} UnterminatedLineIsRead(records: seq<string>, last: string)
    requires AreLines(records) && IsLine(last)
    ensures Decode(Encode(records) + last) == records + [last]
  {
    if records == [] {
      WholeIsOneLine(last);
      assert Encode(records) + last == last;
    } else {
      var first, rest := records[0], records[1..];
      assert first in records;
      EncodeFront(records);
      UnterminatedLineIsRead(rest, last);
      DecodeFirstLine(first, Encode(rest) + last);
      LastAfterFirst(first + "\n", Encode(rest), last);
      FirstBeforeLast(records, last);
    }
  }

  lemma LastAfterFirst(a: string, b: string, c: string)
    ensures (a + b) + c == a + (b + c)
  {
  }

  lemma FirstBeforeLast(records: seq<string>, last: string)
    requires records != []
    ensures [records[0]] + (records[1..] + [last]) == records + [last]
  {
  }

  lemma WholeIsOneLine(last: string)
    requires IsLine(last)
    ensures Decode(last) == [last]
  {
    LineEndAtEnd(last);
    assert Lines(last) == [last];
    assert TrimLeft(last) == last && TrimRight(last) == last;
    assert [last][1..] == [] && Kept([last]) == [Trim(last)] + Kept([last][1..]);
  }

  lemma LineEndAtEnd(last: string)
    requires '\n' !in last
    ensures LineEnd(last) == |last|
  {
  }

  // ---------------------------------------------------------------------------
  // What a directory holds

  type Files = map<string, string>

  /** A chunk and its index. */
  datatype Chunk = Chunk(index: nat, records: seq<string>)

  /** Chunks in the order they were written. */
  datatype Log = Nothing | Then(earlier: Log, last: Chunk) {
    function Count(): (n: nat) {
      match this
      case Nothing => 0
      case Then(earlier, _) => earlier.Count() + 1
    }

    /** Their records, in write order. */
    function Records(): (records: seq<string>) {
      match this
      case Nothing => []
      case Then(earlier, last) => earlier.Records() + last.records
    }

    ghost predicate AllLines() {
      match this
      case Nothing => true
      case Then(earlier, last) => earlier.AllLines() && AreLines(last.records)
    }
  }

  predicate IsChunkFile(naming: Naming, name: string) {
    naming.parse(name).Some?
  }

  /** A chunk file's index; 0 for any other name. */
  function Index(naming: Naming, name: string): (index: nat)
    ensures naming.parse(name) == Some(index) || (naming.parse(name).None? && index == 0)
  {
    if naming.parse(name).Some? then naming.parse(name).value else 0
  }

  /** No chunk file has an index past `highest`. */
  ghost predicate Bounds(naming: Naming, files: Files, highest: int) {
    forall name | name in files && IsChunkFile(naming, name) :: Index(naming, name) <= highest
  }

  ghost predicate IsHighest(naming: Naming, files: Files, highest: nat) {
    && Bounds(naming, files, highest)
    && (highest == 0 || HasIndex(naming, files, highest))
  }

  ghost predicate HasIndex(naming: Naming, files: Files, index: nat) {
    exists name :: name in files && IsChunkFile(naming, name) && Index(naming, name) == index
  }

  /** In any directory, the name after the highest index is a new one; only past 2^31-1 is there no such name. */
  lemma NextNameIsNew(naming: Naming, files: Files, highest: nat)
    requires Inverts(naming) && Bounds(naming, files, highest) && highest < MAX_INT32
    ensures naming.format(highest + 1) !in files
    ensures IsChunkFile(naming, naming.format(highest + 1)) && Index(naming, naming.format(highest + 1)) == highest + 1
  {
  }

  /** A directory after some chunks were written to it. */
  function After(naming: Naming, base: Files, log: Log): (files: Files) {
    match log
    case Nothing => base
    case Then(earlier, last) => After(naming, base, earlier)[naming.format(last.index) := Encode(last.records)]
  }

  /** Each chunk was written past every chunk file there was. */
  ghost predicate Appends(naming: Naming, base: Files, log: Log) {
    match log
    case Nothing => true
    case Then(earlier, last) =>
      && Appends(naming, base, earlier)
      && 1 <= last.index <= MAX_INT32 && Bounds(naming, After(naming, base, earlier), last.index - 1)
  }

  ghost predicate SameChunks(naming: Naming, files: Files, other: Files) {
    forall name | IsChunkFile(naming, name) ::
      (name in files <==> name in other) && (name in files ==> files[name] == other[name])
  }

  /**
   * The chunk files are those of `base`, whatever it held, cut off or foreign ones
   * included, and after them the chunks of the log, each in a new file.
   */
  ghost predicate Extends(naming: Naming, base: Files, files: Files, log: Log) {
    Inverts(naming) && Appends(naming, base, log) && SameChunks(naming, files, After(naming, base, log))
  }

  /** A chunk past every chunk file goes to a new file and joins the end of the log. */
  lemma AppendingOverwritesNothing(naming: Naming, base: Files, files: Files, log: Log, c: Chunk)
    requires Extends(naming, base, files, log)
    requires 1 <= c.index <= MAX_INT32 && Bounds(naming, files, c.index - 1)
    ensures naming.format(c.index) !in files
    ensures Extends(naming, base, files[naming.format(c.index) := Encode(c.records)], Then(log, c))
    ensures Bounds(naming, files[naming.format(c.index) := Encode(c.records)], c.index)
  {
    NextNameIsNew(naming, files, c.index - 1);
  }

  // ---------------------------------------------------------------------------
  // The directory and its writers

  class TaskDir {
    const naming: Naming
    var files: Files
    /** What was there before the writers of this model, and every chunk they appended, in order. */
    ghost const base: Files
    ghost var log: Log

    /** Any directory, with whatever an earlier attempt or another program left in it. */
    constructor (files: Files)
      ensures Valid() && naming == CHUNK_NAMING && this.files == base == files && log == Nothing
    {
      naming := CHUNK_NAMING;
      this.files, base, log := files, files, Nothing;
      new;
      ChunkNamingInverts();
    }

    ghost predicate Valid()
      reads this
    {
      Extends(naming, base, files, log)
    }

    /** The largest index among the chunk files, or 0, in any directory. */
    method HighestChunkIndex() returns (highest: nat)
      ensures IsHighest(naming, files, highest)
    {
      highest := 0;
      var names := files.Keys;
      while names != {}
        invariant names <= files.Keys
        invariant forall name | name in files.Keys - names && IsChunkFile(naming, name) ::
                    Index(naming, name) <= highest
        invariant highest == 0 || HasIndex(naming, files, highest)
        decreases names
      {
        var name :| name in names;
        names := names - {name};
        if IsChunkFile(naming, name) && highest < Index(naming, name) {
          highest := Index(naming, name);
        }
      }
    }
  }

  /** A 32-bit counter, and how adding one to it wraps. */
  type Int32 = x: int | -0x8000_0000 <= x <= MAX_INT32

  function Next(i: Int32): (next: Int32)
    ensures next == i + 1 <==> i < MAX_INT32
  {
    if i == MAX_INT32 then -0x8000_0000 else i + 1
  }

  class ChunkWriter {
    const dir: TaskDir
    /** File names are 1-based. */
    var chunkIdx: Int32

    /** A writer continues past whatever the directory holds. */
    constructor (dir: TaskDir)
      requires dir.Valid()
      ensures this.dir == dir && Current() && IsHighest(dir.naming, dir.files, chunkIdx)
    {
      this.dir := dir;
      new;
      var highest := dir.HighestChunkIndex();
      assert Inverts(dir.naming);
      chunkIdx := highest;
    }

    /** No chunk file lies past the counter: no other writer is at work, and the counter has not wrapped. */
    ghost predicate Current()
      reads this, dir
    {
      dir.Valid() && 0 <= chunkIdx && Bounds(dir.naming, dir.files, chunkIdx)
    }

    /**
     * Writes one chunk, from a counter that no chunk file lies past. Exactly when the
     * 32-bit counter does not wrap, the chunk's file is a new chunk file and the chunk
     * joins the end of the log; when it wraps, the chunk goes to a negative index,
     * which is no chunk file, whatever was there is overwritten, and the writer is no
     * longer current.
     */
    method WriteChunk(records: seq<string>)
      requires Current()
      modifies this, dir
      ensures dir.Valid()
      ensures records == [] ==> chunkIdx == old(chunkIdx) && dir.files == old(dir.files) && dir.log == old(dir.log)
      ensures records != [] ==> chunkIdx == Next(old(chunkIdx))
                                && dir.files == old(dir.files)[dir.naming.format(chunkIdx) := Encode(records)]
      ensures records != [] && old(chunkIdx) < MAX_INT32 ==>
                && dir.naming.format(chunkIdx) !in old(dir.files)
                && dir.log == Then(old(dir.log), Chunk(chunkIdx, records))
      ensures records != [] && old(chunkIdx) == MAX_INT32 ==>
                !IsChunkFile(dir.naming, dir.naming.format(chunkIdx)) && dir.log == old(dir.log)
      ensures Current() <==> records == [] || old(chunkIdx) < MAX_INT32
    {
      if |records| == 0 {
        return;
      }
      chunkIdx := Next(chunkIdx);
      var name := dir.naming.format(chunkIdx);
      if 0 < chunkIdx {
        AppendingOverwritesNothing(dir.naming, dir.base, dir.files, dir.log, Chunk(chunkIdx, records));
        dir.log := Then(dir.log, Chunk(chunkIdx, records));
      } else {
        StrayKeepsExtension(dir.naming, dir.base, dir.files, dir.log, name, Encode(records));
      }
      dir.files := dir.files[name := Encode(records)];
    }
  }

  /** Writing a file that is no chunk file touches no chunk. */
  lemma StrayKeepsExtension(naming: Naming, base: Files, files: Files, log: Log, name: string, content: string)
    requires Extends(naming, base, files, log) && !IsChunkFile(naming, name)
    ensures Extends(naming, base, files[name := content], log)
  {
  }

  /**
   * The documented promise, that a writer on a used directory appends instead of
   * overwriting, fails here: with one file named results.2147483647.jsonl, the second
   * of two sessions overwrites what the first one wrote.
   */
  method SessionsPastTheLastIndex(first: seq<string>, second: seq<string>) returns (dir: TaskDir)
    requires first != [] && second != []
    ensures fresh(dir) && dir.Valid() && dir.log == Nothing
    ensures dir.files == map[CHUNK_NAMING.format(MAX_INT32) := ""][CHUNK_NAMING.format(-0x8000_0000) := Encode(second)]
  {
    dir := DirectoryAtTheLastIndex();
    WriteInNewSession(dir, first);
    WriteInNewSession(dir, second);
  }

  method DirectoryAtTheLastIndex() returns (dir: TaskDir)
    ensures fresh(dir) && dir.Valid() && dir.log == Nothing && dir.naming == CHUNK_NAMING
    ensures dir.files == map[CHUNK_NAMING.format(MAX_INT32) := ""] && HasIndex(dir.naming, dir.files, MAX_INT32)
  {
    dir := new TaskDir(map[CHUNK_NAMING.format(MAX_INT32) := ""]);
    assert Inverts(dir.naming);
    assert IsChunkFile(dir.naming, dir.naming.format(MAX_INT32));
  }

  /** A new session on a directory that holds the last index writes no chunk. */
  method WriteInNewSession(dir: TaskDir, records: seq<string>)
    requires dir.Valid() && HasIndex(dir.naming, dir.files, MAX_INT32) && records != []
    modifies dir
    ensures dir.Valid() && HasIndex(dir.naming, dir.files, MAX_INT32)
    ensures dir.log == old(dir.log)
    ensures dir.files == old(dir.files)[dir.naming.format(-0x8000_0000) := Encode(records)]
  {
    var writer := new ChunkWriter(dir);
    ghost var last :| last in dir.files && IsChunkFile(dir.naming, last) && Index(dir.naming, last) == MAX_INT32;
    writer.WriteChunk(records);
    assert last in dir.files;
  }

  // ---------------------------------------------------------------------------
  // Reading back

  /** `names` are exactly the chunk files, each once, in numeric order. */
  ghost predicate ChunksInOrder(naming: Naming, files: Files, names: seq<string>) {
    && (forall name :: name in names <==> name in files && IsChunkFile(naming, name))
    && (forall a, b | 0 <= a < b < |names| ::
          names[a] != names[b] && Index(naming, names[a]) <= Index(naming, names[b]))
  }

  /** Chunk files are read in numeric order of their index, not in the order of their names. */
  method ChunkFileNames(dir: TaskDir) returns (names: seq<string>)
    ensures ChunksInOrder(dir.naming, dir.files, names)
  {
    names := [];
    var naming := dir.naming;
    var left := set name | name in dir.files && IsChunkFile(naming, name);
    while left != {}
      invariant forall name :: name in names || name in left <==> name in dir.files && IsChunkFile(naming, name)
      invariant forall name, other | name in names && other in left ::
                  name != other && Index(naming, name) <= Index(naming, other)
      invariant forall a, b | 0 <= a < b < |names| ::
                  names[a] != names[b] && Index(naming, names[a]) <= Index(naming, names[b])
      decreases left
    {
      var least := LeastIndex(naming, left);
      names := names + [least];
      left := left - {least};
    }
  }

  method LeastIndex(naming: Naming, names: set<string>) returns (least: string)
    requires names != {}
    ensures least in names && forall name | name in names :: Index(naming, least) <= Index(naming, name)
  {
    least :| least in names;
    var left := names - {least};
    while left != {}
      invariant left <= names && least in names
      invariant forall name | name in names - left :: Index(naming, least) <= Index(naming, name)
      decreases left
    {
      var name :| name in left;
      left := left - {name};
      if Index(naming, name) < Index(naming, least) {
        least := name;
      }
    }
  }

  /** A chunk past every other one is read last, and the others as before. */
  lemma AppendedChunkIsReadLast(naming: Naming, files: Files, name: string, content: string, names: seq<string>)
    requires IsChunkFile(naming, name) && name !in files && Bounds(naming, files, Index(naming, name) - 1)
    requires ChunksInOrder(naming, files[name := content], names)
    ensures names != [] && names[|names| - 1] == name && name !in names[..|names| - 1]
    ensures ChunksInOrder(naming, files, names[..|names| - 1])
  {
    assert name in names;
    var at :| 0 <= at < |names| && names[at] == name;
    assert names[|names| - 1] in names;
    assert at == |names| - 1;
    WithoutLast(names);
    forall other ensures other in names[..|names| - 1] <==> other in files && IsChunkFile(naming, other) {
      assert other in names <==> other in files[name := content] && IsChunkFile(naming, other);
    }
  }

  lemma WithoutLast(names: seq<string>)
    requires names != [] && forall a, b | 0 <= a < b < |names| :: names[a] != names[b]
    ensures forall name :: name in names[..|names| - 1] <==> name in names && name != names[|names| - 1]
  {
    assert names == names[..|names| - 1] + [names[|names| - 1]];
  }

  // Other .jsonl files, which are read after every chunk, in the order of their names.

  predicate IsNeighbour(naming: Naming, name: string) {
    && naming.parse(name).None? && |CHUNK_FILE_SUFFIX| <= |name|
    && name[|name| - |CHUNK_FILE_SUFFIX|..] == CHUNK_FILE_SUFFIX
  }

  predicate NotAfter(a: string, b: string) {
    a == [] || (b != [] && (a[0] < b[0] || (a[0] == b[0] && NotAfter(a[1..], b[1..]))))
  }

  lemma {:induction false} NamesAreComparable(a: string, b: string)
    ensures NotAfter(a, b) || NotAfter(b, a)
  {
    if a != [] && b != [] && a[0] == b[0] {
      NamesAreComparable(a[1..], b[1..]);
    }
  }

  lemma {:induction false} NameOrderIsTransitive(a: string, b: string, c: string)
    requires NotAfter(a, b) && NotAfter(b, c)
    ensures NotAfter(a, c)
  {
    if a != [] && a[0] == b[0] == c[0] {
      NameOrderIsTransitive(a[1..], b[1..], c[1..]);
    }
  }

  method LeastName(names: set<string>) returns (least: string)
    requires names != {}
    ensures least in names && forall name | name in names :: NotAfter(least, name)
  {
    least :| least in names;
    NamesAreComparable(least, least);
    var left := names - {least};
    while left != {}
      invariant left <= names && least in names
      invariant forall name | name in names - left :: NotAfter(least, name)
      decreases left
    {
      var name :| name in left;
      left := left - {name};
      NamesAreComparable(least, name);
      if !NotAfter(least, name) {
        forall other | other in names - left ensures NotAfter(name, other) {
          NamesAreComparable(name, name);
          if other != name {
            NameOrderIsTransitive(name, least, other);
          }
        }
        least := name;
      }
    }
  }

  /** `names` are exactly the neighbours among `files`, each once, in order. */
  ghost predicate NeighboursInOrder(naming: Naming, files: Files, names: seq<string>) {
    && (forall name :: name in names <==> name in files && IsNeighbour(naming, name))
    && (forall a, b | 0 <= a < b < |names| :: names[a] != names[b] && NotAfter(names[a], names[b]))
  }

  method NeighbourNames(dir: TaskDir) returns (names: seq<string>)
    ensures NeighboursInOrder(dir.naming, dir.files, names)
  {
    names := [];
    var left := set name | name in dir.files && IsNeighbour(dir.naming, name);
    while left != {}
      invariant forall name :: name in names || name in left <==> name in dir.files && IsNeighbour(dir.naming, name)
      invariant forall name, other | name in names && other in left :: name != other && NotAfter(name, other)
      invariant forall a, b | 0 <= a < b < |names| :: names[a] != names[b] && NotAfter(names[a], names[b])
      decreases left
    {
      var least := LeastName(left);
      names := names + [least];
      left := left - {least};
    }
  }

  function Content(files: Files, name: string): (content: string) {
    if name in files then files[name] else ""
  }

  function ReadFiles(files: Files, names: seq<string>): (records: seq<string>) {
    if names == [] then [] else ReadFiles(files, names[..|names| - 1]) + Decode(Content(files, names[|names| - 1]))
  }

  lemma {:induction false} SameFilesReadAlike(files: Files, other: Files, names: seq<string>)
    requires forall name | name in names :: Content(files, name) == Content(other, name)
    ensures ReadFiles(files, names) == ReadFiles(other, names)
  {
    if names != [] {
      SameFilesReadAlike(files, other, names[..|names| - 1]);
    }
  }

  /** Reading a directory with one more chunk gives one more chunk's records. */
  lemma OneMoreChunkIsRead(files: Files, name: string, records: seq<string>, names: seq<string>)
    requires names != [] && names[|names| - 1] == name && name !in names[..|names| - 1]
    requires AreLines(records)
    ensures ReadFiles(files[name := Encode(records)], names) == ReadFiles(files, names[..|names| - 1]) + records
  {
    DecodeEncodedLines(records);
    SameFilesReadAlike(files[name := Encode(records)], files, names[..|names| - 1]);
  }

  lemma LastChunkIsReadLast(naming: Naming, base: Files, log: Log, names: seq<string>)
    requires Inverts(naming) && log.Then? && Appends(naming, base, log) && AreLines(log.last.records)
    requires ChunksInOrder(naming, After(naming, base, log), names)
    ensures names != []
    ensures var before, front := After(naming, base, log.earlier), names[..|names| - 1];
            && ChunksInOrder(naming, before, front)
            && ReadFiles(After(naming, base, log), names) == ReadFiles(before, front) + log.last.records
  {
    var before, name := After(naming, base, log.earlier), naming.format(log.last.index);
    NextNameIsNew(naming, before, log.last.index - 1);
    AppendedChunkIsReadLast(naming, before, name, Encode(log.last.records), names);
    OneMoreChunkIsRead(before, name, log.last.records, names);
  }

  /** Reading gives what the files `held` of `base` hold, which are all its chunk files, and then the log's records. */
  ghost predicate ReadsBack(naming: Naming, base: Files, files: Files, log: Log, names: seq<string>, held: seq<string>)
  {
    && ChunksInOrder(naming, base, held) && |names| == |held| + log.Count()
    && ReadFiles(files, names) == ReadFiles(base, held) + log.Records()
  }

  lemma Regrouped(a: seq<string>, b: seq<string>, c: seq<string>)
    ensures (a + b) + c == a + (b + c)
  {
  }

  /** Chunks appended to a directory are read after what it held, in write order. */
  lemma {:induction false} AppendedReadsBack(naming: Naming, base: Files, log: Log, names: seq<string>)
    returns (held: seq<string>)
    requires Inverts(naming) && Appends(naming, base, log) && log.AllLines()
    requires ChunksInOrder(naming, After(naming, base, log), names)
    ensures ReadsBack(naming, base, After(naming, base, log), log, names, held)
  {
    match log
    case Nothing =>
      held := names;
      assert ReadFiles(base, names) + [] == ReadFiles(base, names);
    case Then(earlier, last) =>
      LastChunkIsReadLast(naming, base, log, names);
      held := AppendedReadsBack(naming, base, earlier, names[..|names| - 1]);
      Regrouped(ReadFiles(base, held), earlier.Records(), last.records);
  }

  /** The same for any directory with the same chunk files. */
  lemma ExtensionReadsBack(naming: Naming, base: Files, files: Files, log: Log, names: seq<string>)
    returns (held: seq<string>)
    requires Extends(naming, base, files, log) && ChunksInOrder(naming, files, names) && log.AllLines()
    ensures ReadsBack(naming, base, files, log, names, held)
  {
    held := AppendedReadsBack(naming, base, log, names);
    SameFilesReadAlike(files, After(naming, base, log), names);
  }

  /**
   * Everything the chunk files of a directory hold, in numeric order, and then what
   * its other .jsonl files hold. For the writers of this model that is what the
   * directory held at first followed by everything they wrote, in write order.
   */
  method Records(dir: TaskDir)
    returns (records: seq<string>, chunks: seq<string>, neighbours: seq<string>, ghost held: seq<string>)
    ensures ChunksInOrder(dir.naming, dir.files, chunks) && NeighboursInOrder(dir.naming, dir.files, neighbours)
    ensures records == ReadFiles(dir.files, chunks) + ReadFiles(dir.files, neighbours)
    ensures dir.Valid() && dir.log.AllLines() ==> ReadsBack(dir.naming, dir.base, dir.files, dir.log, chunks, held)
  {
    chunks := ChunkFileNames(dir);
    neighbours := NeighbourNames(dir);
    records := ReadNames(dir, chunks);
    var others := ReadNames(dir, neighbours);
    records, held := records + others, [];
    if dir.Valid() && dir.log.AllLines() {
      held := ExtensionReadsBack(dir.naming, dir.base, dir.files, dir.log, chunks);
    }
  }

  method ReadNames(dir: TaskDir, names: seq<string>) returns (records: seq<string>)
    requires forall name | name in names :: name in dir.files
    ensures records == ReadFiles(dir.files, names)
  {
    records := [];
    for k := 0 to |names|
      invariant records == ReadFiles(dir.files, names[..k])
    {
      assert names[..k + 1][..k] == names[..k];
      records := records + Decode(dir.files[names[k]]);
    }
    assert names[..|names|] == names;
  }
}
