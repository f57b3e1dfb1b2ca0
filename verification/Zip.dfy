/** Reading a package archive: its end record, its central directory and its members. */
module Zip {
  import opened Bytes
  import opened Options
  import Strings
  import Utf8

  const END_SIGNATURE := 0x06054b50
  const CENTRAL_SIGNATURE := 0x02014b50
  const LOCAL_SIGNATURE := 0x04034b50
  const MAX_END_SEARCH := 65557
  const MAX_ENTRIES := 25000
  const MAX_TOTAL := 512 * 1024 * 1024
  const MAX_SINGLE := 128 * 1024 * 1024

  /** How a raw name is read: as text, then normalised or refused. */
  type Naming = seq<Byte> -> Option<string>

  datatype Failure =
    | NoDirectory | TooManyEntries | OutsideBounds | MalformedEntry | BadName | Encrypted | UnsupportedMethod
    | SymbolicLink | EntryTooLarge | TotalTooLarge | ReadPastEnd | MalformedHeader | DataOutsideBounds | BadDeflate

  datatype Result<+T> = Ok(value: T) | Err(error: Failure)

  datatype Entry = Entry(name: string, scheme: nat, compressedSize: nat, uncompressedSize: nat,
                         localHeaderOffset: nat, externalAttributes: nat, directory: bool)

  datatype Directory = Directory(entries: seq<Entry>, totalUncompressedSize: nat)

  // ---------------------------------------------------------------- the end record

  /** Searches backwards from `offset` to `start`. */
  function FindEndFrom(b: seq<Byte>, offset: int, start: int): Option<nat>
    requires 0 <= start
    decreases offset - start
  {
    if offset < start then None
    else if U32(b, offset) == Some(END_SIGNATURE) then Some(offset)
    else FindEndFrom(b, offset - 1, start)
  }

  function SearchStart(b: seq<Byte>): nat {
    if |b| < MAX_END_SEARCH then 0 else |b| - MAX_END_SEARCH
  }

  function FindEnd(b: seq<Byte>): Option<nat> { FindEndFrom(b, |b| - 22, SearchStart(b)) }

  predicate EndAt(b: seq<Byte>, at: int) { U32(b, at) == Some(END_SIGNATURE) }

  /** The last end signature that leaves room for an end record with a comment of at most 65535 bytes. */
  method FindEndOfCentralDirectory(b: seq<Byte>) returns (found: Option<nat>)
    ensures found == FindEnd(b)
    ensures found.Some? ==> SearchStart(b) <= found.value <= |b| - 22 && EndAt(b, found.value)
    ensures forall at :: SearchStart(b) <= at <= |b| - 22 && (found.Some? ==> found.value < at) ==> !EndAt(b, at)
  {
    var offset := |b| - 22;
    while offset >= SearchStart(b)
      invariant FindEndFrom(b, offset, SearchStart(b)) == FindEnd(b)
      invariant offset <= |b| - 22 && forall at :: SearchStart(b) <= at <= |b| - 22 && offset < at ==> !EndAt(b, at)
      decreases offset
    {
      if EndAt(b, offset) { return Some(offset); }
      offset := offset - 1;
    }
    return None;
  }

  lemma {:induction false} FindEndIs(b: seq<Byte>, offset: int, start: nat, at: int)
    requires start <= at <= offset && EndAt(b, at) && forall i :: at < i <= offset ==> !EndAt(b, i)
    ensures FindEndFrom(b, offset, start) == Some(at)
    decreases offset - at
  {
    if at < offset {
      assert !EndAt(b, offset);
      FindEndIs(b, offset - 1, start, at);
    }
  }

  // ---------------------------------------------------------------- names and attributes

  function Slashes(raw: string): (name: string)
    ensures |name| == |raw| && forall i :: 0 <= i < |raw| ==> name[i] == if raw[i] == '\\' then '/' else raw[i]
  {
    seq(|raw|, i requires 0 <= i < |raw| => if raw[i] == '\\' then '/' else raw[i])
  }

  predicate Letter(c: char) { 'A' <= c <= 'Z' || 'a' <= c <= 'z' }

  predicate Absolute(name: string) {
    || (name != "" && name[0] == '/')
    || (|name| >= 3 && Letter(name[0]) && name[1] == ':' && name[2] == '/')
  }

  predicate SafeName(name: string) {
    name != "" && '\0' !in name && !Absolute(name) && ".." !in Strings.Split(name, '/')
  }

  function NormalizeName(raw: string): Option<string> {
    if SafeName(Slashes(raw)) then Some(Slashes(raw)) else None
  }

  /** The runtime's own naming. */
  function ReadName(bytes: seq<Byte>): Option<string> { NormalizeName(Utf8.Decode(bytes)) }

  /** A written name reads back with forward slashes. */
  lemma NameRoundTrip(raw: string)
    requires SafeName(Slashes(raw))
    ensures ReadName(Utf8.Encode(raw)) == Some(Slashes(raw))
  {
    Utf8.RoundTrip(raw);
  }

  /** The file type bits of the Unix mode in the high half of the attributes. */
  function FileType(attributes: nat): nat { attributes / 0x1_0000 % 0x1_0000 / 0x1000 }

  predicate IsDirectory(name: string, attributes: nat) {
    (name != "" && name[|name| - 1] == '/') || FileType(attributes) == 4
  }

  predicate IsSymlink(attributes: nat) { FileType(attributes) == 10 }

  // ---------------------------------------------------------------- the central directory

  datatype Header = Header(flags: nat, scheme: nat, compressedSize: nat, uncompressedSize: nat,
                           nameLength: nat, extraLength: nat, commentLength: nat, attributes: nat, localOffset: nat)

  function ReadHeader(b: seq<Byte>, at: nat): Result<Header> {
    if U32(b, at).None? then Err(ReadPastEnd)
    else if U32(b, at) != Some(CENTRAL_SIGNATURE) then Err(MalformedEntry)
    else if |b| < at + 46 then Err(ReadPastEnd)
    else
      Ok(Header(U16(b, at + 8).value, U16(b, at + 10).value, U32(b, at + 20).value, U32(b, at + 24).value,
                U16(b, at + 28).value, U16(b, at + 30).value, U16(b, at + 32).value, U32(b, at + 38).value,
                U32(b, at + 42).value))
  }

  function NameAt(b: seq<Byte>, at: nat, h: Header, naming: Naming): Option<string> {
    naming(Slice(b, at + 46, at + 46 + h.nameLength))
  }

  /** The checks of one entry, in order; `total` is the size so far. */
  function CheckEntry(name: Option<string>, h: Header, total: nat): Result<Entry> {
    if name.None? then Err(BadName)
    else if h.flags % 2 == 1 then Err(Encrypted)
    else if h.scheme != 0 && h.scheme != 8 then Err(UnsupportedMethod)
    else if IsSymlink(h.attributes) then Err(SymbolicLink)
    else if h.uncompressedSize > MAX_SINGLE then Err(EntryTooLarge)
    else if total + h.uncompressedSize > MAX_TOTAL then Err(TotalTooLarge)
    else Ok(Entry(name.value, h.scheme, h.compressedSize, h.uncompressedSize, h.localOffset, h.attributes,
                  IsDirectory(name.value, h.attributes)))
  }

  function Length(h: Header): nat { 46 + h.nameLength + h.extraLength + h.commentLength }

  /** `count` more entries from `at`, added to what has been read. */
  function ParseEntries(b: seq<Byte>, at: nat, count: nat, soFar: Directory, naming: Naming): Result<Directory>
    decreases count
  {
    if count == 0 then Ok(soFar)
    else
      var h := ReadHeader(b, at);
      if h.Err? then Err(h.error)
      else
        var e := CheckEntry(NameAt(b, at, h.value, naming), h.value, soFar.totalUncompressedSize);
        if e.Err? then Err(e.error)
        else ParseEntries(b, at + Length(h.value), count - 1, Extended(soFar, e.value), naming)
  }

  function Extended(d: Directory, e: Entry): Directory {
    Directory(d.entries + [e], d.totalUncompressedSize + e.uncompressedSize)
  }

  function ParseFrom(b: seq<Byte>, end: nat, naming: Naming): Result<Directory>
    requires end + 22 <= |b|
  {
    var count, size, offset := U16(b, end + 10).value, U32(b, end + 12).value, U32(b, end + 16).value;
    if count > MAX_ENTRIES then Err(TooManyEntries)
    else if offset + size > |b| then Err(OutsideBounds)
    else ParseEntries(b, offset, count, Directory([], 0), naming)
  }

  lemma {:induction false} FindEndFits(b: seq<Byte>, offset: int, start: nat)
    requires FindEndFrom(b, offset, start).Some?
    ensures start <= FindEndFrom(b, offset, start).value <= offset
    decreases offset - start
  {
    if U32(b, offset) != Some(END_SIGNATURE) { FindEndFits(b, offset - 1, start); }
  }

  function Parse(b: seq<Byte>, naming: Naming): Result<Directory> {
    var end := FindEnd(b);
    if end.None? then Err(NoDirectory)
    else
      FindEndFits(b, |b| - 22, SearchStart(b));
      ParseFrom(b, end.value, naming)
  }

  /** One accepted entry, then the rest. */
  lemma ParseNext(b: seq<Byte>, at: nat, count: nat, soFar: Directory, naming: Naming, h: Header, e: Entry,
                  next: nat, left: nat, extended: Directory)
    requires count > 0 && ReadHeader(b, at) == Ok(h) && next == at + Length(h) && left == count - 1
             && extended == Extended(soFar, e)
    requires CheckEntry(NameAt(b, at, h, naming), h, soFar.totalUncompressedSize) == Ok(e)
    ensures ParseEntries(b, at, count, soFar, naming) == ParseEntries(b, next, left, extended, naming)
  {
  }

  /** The parse as a whole still comes to `goal`. */
  ghost predicate Awaits(b: seq<Byte>, at: nat, left: nat, soFar: Directory, naming: Naming, goal: Result<Directory>) {
    ParseEntries(b, at, left, soFar, naming) == goal
  }

  /** One header, its name and the checks of the entry, and where the next header starts. */
  predicate EntryRead(b: seq<Byte>, at: nat, naming: Naming, total: nat, entry: Result<Entry>, next: nat) {
    var h := ReadHeader(b, at);
    if h.Err? then entry == Err(h.error)
    else entry == CheckEntry(NameAt(b, at, h.value, naming), h.value, total) && next == at + Length(h.value)
  }

  lemma AwaitsNext(b: seq<Byte>, at: nat, left: nat, soFar: Directory, naming: Naming, entry: Result<Entry>, next: nat,
                   goal: Result<Directory>)
    requires left > 0 && Awaits(b, at, left, soFar, naming, goal)
    requires EntryRead(b, at, naming, soFar.totalUncompressedSize, entry, next)
    ensures if entry.Err? then goal == Err(entry.error)
            else Awaits(b, next, left - 1, Extended(soFar, entry.value), naming, goal)
  {
  }

  method ReadEntry(b: seq<Byte>, offset: nat, naming: Naming, total: nat) returns (entry: Result<Entry>, next: nat)
    ensures EntryRead(b, offset, naming, total, entry, next)
  {
    var h := ReadHeader(b, offset);
    if h.Err? { return Err(h.error), offset; }
    return CheckEntry(NameAt(b, offset, h.value, naming), h.value, total), offset + Length(h.value);
  }

  /** The loop over the entries, adding up their sizes. */
  method ReadEntries(b: seq<Byte>, start: nat, count: nat, naming: Naming) returns (r: Result<Directory>)
    ensures r == ParseEntries(b, start, count, Directory([], 0), naming)
  {
    var entries: seq<Entry>, total: nat, offset: nat := [], 0, start;
    ghost var left, soFar, goal := count, Directory([], 0), ParseEntries(b, start, count, Directory([], 0), naming);
    for index := 0 to count
      invariant left == count - index && soFar == Directory(entries, total)
      invariant Awaits(b, offset, left, soFar, naming, goal)
    {
      var entry, next := ReadEntry(b, offset, naming, total);
      AwaitsNext(b, offset, left, soFar, naming, entry, next, goal);
      if entry.Err? { return Err(entry.error); }
      soFar, left := Extended(soFar, entry.value), left - 1;
      entries, total, offset := entries + [entry.value], total + entry.value.uncompressedSize, next;
    }
    return Ok(Directory(entries, total));
  }

  method ParseCentralDirectory(b: seq<Byte>, naming: Naming) returns (r: Result<Directory>)
    ensures r == Parse(b, naming)
  {
    var end := FindEndOfCentralDirectory(b);
    if end.None? { return Err(NoDirectory); }
    var count, size, offset := U16(b, end.value + 10).value, U32(b, end.value + 12).value, U32(b, end.value + 16).value;
    if count > MAX_ENTRIES { return Err(TooManyEntries); }
    if offset + size > |b| { return Err(OutsideBounds); }
    r := ReadEntries(b, offset, count, naming);
  }

  // ---------------------------------------------------------------- members

  function ReadMember(b: seq<Byte>, entry: Entry, inflate: seq<Byte> -> Option<seq<Byte>>): Result<seq<Byte>> {
    var at := entry.localHeaderOffset;
    if U32(b, at).None? then Err(ReadPastEnd)
    else if U32(b, at) != Some(LOCAL_SIGNATURE) then Err(MalformedHeader)
    else if U16(b, at + 26).None? || U16(b, at + 28).None? then Err(ReadPastEnd)
    else
      var data := at + 30 + U16(b, at + 26).value + U16(b, at + 28).value;
      var end := data + entry.compressedSize;
      if end > |b| then Err(DataOutsideBounds)
      else if entry.scheme == 0 then Ok(b[data..end])
      else if entry.scheme != 8 then Err(UnsupportedMethod)
      else match inflate(b[data..end]) case None => Err(BadDeflate) case Some(bytes) => Ok(bytes)
  }

  // ---------------------------------------------------------------- what acceptance guarantees

  predicate Acceptable(e: Entry) {
    && SafeName(e.name) && (e.scheme == 0 || e.scheme == 8) && !IsSymlink(e.externalAttributes)
    && e.uncompressedSize <= MAX_SINGLE && (e.directory <==> IsDirectory(e.name, e.externalAttributes))
  }

  function TotalSize(entries: seq<Entry>): nat {
    if entries == [] then 0 else TotalSize(entries[..|entries| - 1]) + entries[|entries| - 1].uncompressedSize
  }

  /** The entry came out of the checks. */
  ghost predicate Checked(e: Entry, naming: Naming) {
    exists bytes: seq<Byte>, h: Header, total: nat :: CheckEntry(naming(bytes), h, total) == Ok(e)
  }

  ghost predicate Bounded(d: Directory, naming: Naming) {
    d.totalUncompressedSize == TotalSize(d.entries) <= MAX_TOTAL
      && forall i :: 0 <= i < |d.entries| ==> Checked(d.entries[i], naming)
  }

  lemma CheckedIsAcceptable(e: Entry)
    requires Checked(e, ReadName)
    ensures Acceptable(e)
  {
    var bytes: seq<Byte>, h: Header, total: nat :| CheckEntry(ReadName(bytes), h, total) == Ok(e);
  }

  lemma FindsEndAt(b: seq<Byte>, end: nat)
    requires end + 22 <= |b| <= end + 22 + 65535 && EndAt(b, end) && forall at :: end < at <= |b| - 22 ==> !EndAt(b, at)
    ensures FindEnd(b) == Some(end)
  {
    FindEndIs(b, |b| - 22, SearchStart(b), end);
  }

  lemma ParsesFrom(b: seq<Byte>, end: nat, count: nat, size: nat, offset: nat, naming: Naming)
    requires FindEnd(b) == Some(end) && end + 22 <= |b| && count <= MAX_ENTRIES && offset + size <= |b|
    requires U16(b, end + 10) == Some(count) && U32(b, end + 12) == Some(size) && U32(b, end + 16) == Some(offset)
    ensures Parse(b, naming) == ParseEntries(b, offset, count, Directory([], 0), naming)
  {
  }

  lemma CheckedExtends(bytes: seq<Byte>, h: Header, soFar: Directory, naming: Naming)
    requires CheckEntry(naming(bytes), h, soFar.totalUncompressedSize).Ok? && Bounded(soFar, naming)
    ensures Bounded(Extended(soFar, CheckEntry(naming(bytes), h, soFar.totalUncompressedSize).value), naming)
  {
    var e := CheckEntry(naming(bytes), h, soFar.totalUncompressedSize).value;
    assert Checked(e, naming);
    assert Extended(soFar, e).entries[..|soFar.entries|] == soFar.entries;
  }

  /** The accepted first entry, and the rest of the parse. */
  lemma ParseStep(b: seq<Byte>, at: nat, count: nat, soFar: Directory, naming: Naming, d: Directory)
    returns (next: nat, left: nat, extended: Directory)
    requires count > 0 && ParseEntries(b, at, count, soFar, naming) == Ok(d) && Bounded(soFar, naming)
    ensures Bounded(extended, naming) && |extended.entries| == |soFar.entries| + 1 && left == count - 1
    ensures ParseEntries(b, next, left, extended, naming) == Ok(d)
  {
    var h := ReadHeader(b, at).value;
    CheckedExtends(Slice(b, at + 46, at + 46 + h.nameLength), h, soFar, naming);
    next, left, extended := at + Length(h), count - 1,
      Extended(soFar, CheckEntry(NameAt(b, at, h, naming), h, soFar.totalUncompressedSize).value);
  }

  lemma {:induction false} EntriesGuarantee(b: seq<Byte>, at: nat, count: nat, soFar: Directory, naming: Naming,
                                            d: Directory)
    requires ParseEntries(b, at, count, soFar, naming) == Ok(d) && Bounded(soFar, naming)
    ensures Bounded(d, naming) && |d.entries| == |soFar.entries| + count
    decreases count
  {
    if count > 0 {
      var next, left, extended := ParseStep(b, at, count, soFar, naming, d);
      EntriesGuarantee(b, next, left, extended, naming, d);
    }
  }

  lemma FromEndGuarantee(b: seq<Byte>, end: nat, naming: Naming)
    requires end + 22 <= |b| && ParseFrom(b, end, naming).Ok?
    ensures var d := ParseFrom(b, end, naming).value;
            Bounded(d, naming) && Some(|d.entries|) == U16(b, end + 10) && |d.entries| <= MAX_ENTRIES
  {
    var count, offset := U16(b, end + 10).value, U32(b, end + 16).value;
    assert Bounded(Directory([], 0), naming);
    EntriesGuarantee(b, offset, count, Directory([], 0), naming, ParseFrom(b, end, naming).value);
  }

  lemma AcceptedIsChecked(b: seq<Byte>, naming: Naming, d: Directory)
    requires Parse(b, naming) == Ok(d)
    ensures FindEnd(b).Some? && Some(|d.entries|) == U16(b, FindEnd(b).value + 10) && |d.entries| <= MAX_ENTRIES
            && Bounded(d, naming)
  {
    FindEndFits(b, |b| - 22, SearchStart(b));
    FromEndGuarantee(b, FindEnd(b).value, naming);
  }

  /** For any accepted buffer: one entry per count, all acceptable, the total their sum and within its bound. */
  lemma AcceptedIsBounded(b: seq<Byte>, d: Directory)
    requires Parse(b, ReadName) == Ok(d)
    ensures FindEnd(b).Some? && Some(|d.entries|) == U16(b, FindEnd(b).value + 10) && |d.entries| <= 25000
    ensures d.totalUncompressedSize == TotalSize(d.entries) <= 536870912
    ensures forall i :: 0 <= i < |d.entries| ==> Acceptable(d.entries[i])
    ensures forall i :: 0 <= i < |d.entries| ==>
              && d.entries[i].uncompressedSize <= 134217728 && FileType(d.entries[i].externalAttributes) != 10
              && (d.entries[i].scheme == 0 || d.entries[i].scheme == 8)
  {
    AcceptedIsChecked(b, ReadName, d);
    forall i | 0 <= i < |d.entries| ensures Acceptable(d.entries[i]) {
      CheckedIsAcceptable(d.entries[i]);
    }
  }

  /** Where a relative path leads from a folder. */
  function Walk(folder: seq<string>, parts: seq<string>): seq<string>
    decreases |parts|
  {
    if parts == [] then folder
    else if parts[0] == "" || parts[0] == "." then Walk(folder, parts[1..])
    else if parts[0] == ".." then Walk(if folder == [] then [] else folder[..|folder| - 1], parts[1..])
    else Walk(folder + [parts[0]], parts[1..])
  }

  lemma {:induction false} StaysInside(folder: seq<string>, parts: seq<string>)
    requires ".." !in parts
    ensures folder <= Walk(folder, parts)
    decreases |parts|
  {
    if parts != [] {
      StaysInside(if parts[0] == "" || parts[0] == "." then folder else folder + [parts[0]], parts[1..]);
    }
  }

  /** An accepted name never leads out of the folder it is unpacked into, and is never absolute. */
  lemma AcceptedNameStaysInside(e: Entry, folder: seq<string>)
    requires Acceptable(e)
    ensures folder <= Walk(folder, Strings.Split(e.name, '/')) && !Absolute(e.name)
  {
    StaysInside(folder, Strings.Split(e.name, '/'));
  }
}
