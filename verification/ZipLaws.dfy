/** What the archive reader takes and what it refuses, byte by byte of the buffer. */
module ZipLaws {
  import opened Bytes
  import opened Options
  import opened Zip
  import Strings

  /** The unsigned numbers of two and of four bytes, lowest byte first. */
  function W16(b: seq<Byte>, at: nat): nat
    requires at + 2 <= |b|
  {
    var low: int, high: int := b[at], b[at + 1];
    256 * high + low
  }

  function W32(b: seq<Byte>, at: nat): nat
    requires at + 4 <= |b|
  {
    65536 * W16(b, at + 2) + W16(b, at)
  }

  /** Reads give that number, inside the buffer only. */
  lemma ReadsAre(b: seq<Byte>, at: int)
    ensures U16(b, at).Some? <==> 0 <= at && at + 2 <= |b|
    ensures U32(b, at).Some? <==> 0 <= at && at + 4 <= |b|
    ensures U16(b, at).Some? ==> U16(b, at).value == W16(b, at)
    ensures U32(b, at).Some? ==> U32(b, at).value == W32(b, at)
  {
  }

  predicate Marked(b: seq<Byte>, at: int, mark: seq<Byte>) {
    0 <= at && at + |mark| <= |b| && b[at..at + |mark|] == mark
  }

  const END_MARK: seq<Byte> := [0x50, 0x4b, 0x05, 0x06]
  const CENTRAL_MARK: seq<Byte> := [0x50, 0x4b, 0x01, 0x02]
  const LOCAL_MARK: seq<Byte> := [0x50, 0x4b, 0x03, 0x04]

  lemma Signatures(b: seq<Byte>, at: int)
    ensures EndAt(b, at) <==> Marked(b, at, END_MARK)
    ensures U32(b, at) == Some(CENTRAL_SIGNATURE) <==> Marked(b, at, CENTRAL_MARK)
    ensures U32(b, at) == Some(LOCAL_SIGNATURE) <==> Marked(b, at, LOCAL_MARK)
  {
    ReadsAre(b, at);
    if 0 <= at && at + 4 <= |b| {
      var four := b[at..at + 4];
      assert four == [b[at], b[at + 1], b[at + 2], b[at + 3]];
      SameDigits(b[at], b[at + 1], b[at + 2], b[at + 3], 0x50, 0x4b, 0x05, 0x06);
      SameDigits(b[at], b[at + 1], b[at + 2], b[at + 3], 0x50, 0x4b, 0x01, 0x02);
      SameDigits(b[at], b[at + 1], b[at + 2], b[at + 3], 0x50, 0x4b, 0x03, 0x04);
    }
  }

  lemma SameDigits(b0: int, b1: int, b2: int, b3: int, c0: int, c1: int, c2: int, c3: int)
    requires 0 <= b0 < 256 && 0 <= b1 < 256 && 0 <= b2 < 256 && 0 <= b3 < 256
    requires 0 <= c0 < 256 && 0 <= c1 < 256 && 0 <= c2 < 256 && 0 <= c3 < 256
    ensures 65536 * (256 * b3 + b2) + (256 * b1 + b0) == 65536 * (256 * c3 + c2) + (256 * c1 + c0)
            <==> b0 == c0 && b1 == c1 && b2 == c2 && b3 == c3
  {
    var high, low, high', low' := 256 * b3 + b2, 256 * b1 + b0, 256 * c3 + c2, 256 * c1 + c0;
    if 65536 * high + low == 65536 * high' + low' {
      assert high == high' && low == low';
    }
  }

  // ---------------------------------------------------------------- names

  /** A part of a path, between two slashes or an end. */
  predicate PartAt(name: string, i: nat, part: string) {
    && i + |part| <= |name| && name[i..i + |part|] == part && '/' !in part
    && (i == 0 || name[i - 1] == '/') && (i + |part| == |name| || name[i + |part|] == '/')
  }

  lemma {:induction false} SplitGivesTheParts(name: string, part: string)
    ensures part in Strings.Split(name, '/') <==> exists i: nat :: PartAt(name, i, part)
    decreases |name|
  {
    var n := Strings.IndexOf(name, '/');
    Strings.IndexOfHits(name, '/');
    assert name[..n] == name[0..n];
    if n < |name| {
      var rest := name[n + 1..];
      SplitGivesTheParts(rest, part);
      if part == name[..n] {
        assert PartAt(name, 0, part);
      }
      if i: nat :| PartAt(rest, i, part) {
        PartBehind(name, n, i, part);
      }
      if i: nat :| PartAt(name, i, part) {
        if i <= n {
          FirstPart(name, n, i, part);
        } else {
          PartBehind(name, n, i - n - 1, part);
        }
      }
    } else {
      if part == name {
        assert PartAt(name, 0, part);
      }
      if i: nat :| PartAt(name, i, part) {
        FirstPart(name, n, i, part);
      }
    }
  }

  /** A part that begins at or before the first slash is all that comes before it. */
  lemma FirstPart(name: string, n: nat, i: nat, part: string)
    requires n <= |name| && '/' !in name[..n] && (n < |name| ==> name[n] == '/') && i <= n && PartAt(name, i, part)
    ensures part == name[..n]
  {
    assert forall k :: 0 <= k < n ==> name[k] != '/' by {
      assert forall k :: 0 <= k < n ==> name[k] == name[..n][k];
    }
    assert forall k :: 0 <= k < |part| ==> part[k] == name[i..i + |part|][k] == name[i + k];
  }

  lemma PartBehind(name: string, n: nat, i: nat, part: string)
    requires n < |name| && name[n] == '/'
    ensures PartAt(name[n + 1..], i, part) <==> PartAt(name, n + 1 + i, part)
  {
    var rest := name[n + 1..];
    if i + |part| <= |rest| {
      assert rest[i..i + |part|] == name[n + 1 + i..n + 1 + i + |part|];
    }
  }

  predicate DriveLetter(c: char) { 65 <= c as int <= 90 || 97 <= c as int <= 122 }

  /** A raw name is taken exactly when, with its backslashes turned round, it is not empty, has no NUL, begins
      neither with a slash nor with a drive, and no part of it is `..`; and that turned name is its name. */
  lemma NameTakenExactly(raw: string, name: string)
    ensures NormalizeName(raw) == Some(name) <==>
              && |name| == |raw| && 0 < |raw|
              && (forall i :: 0 <= i < |raw| ==>
                    name[i] != '\\' && name[i] != '\0' && (name[i] == raw[i] || (raw[i] == '\\' && name[i] == '/')))
              && name[0] != '/'
              && !(|name| > 2 && DriveLetter(name[0]) && name[1..3] == ":/")
              && forall i: nat :: !PartAt(name, i, "..")
  {
    SplitGivesTheParts(Slashes(raw), "..");
    SplitGivesTheParts(name, "..");
    if |name| == |raw| && forall i :: 0 <= i < |raw| ==>
         name[i] != '\\' && (name[i] == raw[i] || (raw[i] == '\\' && name[i] == '/'))
    {
      assert name == Slashes(raw);
    }
    assert |name| > 2 ==> name[1..3] == [name[1], name[2]];
  }

  // ---------------------------------------------------------------- one entry

  /** The four bits of the Unix mode that say what a file is: the top of the fourth attribute byte. */
  lemma FileTypeIs(b0: int, b1: int, b2: int, b3: int)
    requires 0 <= b0 < 256 && 0 <= b1 < 256 && 0 <= b2 < 256 && 0 <= b3 < 256
    ensures FileType(65536 * (256 * b3 + b2) + (256 * b1 + b0)) == b3 / 16
  {
    var high, low := 256 * b3 + b2, 256 * b1 + b0;
    assert (65536 * high + low) / 65536 == high;
    assert high / 4096 == b3 / 16;
  }

  function NameLength(b: seq<Byte>, at: nat): nat
    requires at + 46 <= |b|
  {
    W16(b, at + 28)
  }

  /** Where the header after the one at `at` starts: past the name, the extra field and the comment. */
  function After(b: seq<Byte>, at: nat): nat
    requires at + 46 <= |b|
  {
    at + 46 + W16(b, at + 28) + W16(b, at + 30) + W16(b, at + 32)
  }

  function NameBytes(b: seq<Byte>, at: nat): seq<Byte>
    requires at + 46 <= |b|
  {
    if at + 46 + W16(b, at + 28) <= |b| then b[at + 46..at + 46 + W16(b, at + 28)] else b[at + 46..]
  }

  predicate Folder(b: seq<Byte>, at: nat, name: string)
    requires at + 46 <= |b| && name != ""
  {
    name[|name| - 1..] == "/" || b[at + 41] / 16 == 4
  }

  /** The header at `at` says exactly this entry, and nothing about it is refused after `total` bytes. */
  predicate Says(b: seq<Byte>, at: nat, naming: Naming, total: nat, e: Entry) {
    && Marked(b, at, CENTRAL_MARK) && at + 46 <= |b|
    && naming(NameBytes(b, at)) == Some(e.name) && e.name != ""
    && b[at + 8] % 2 == 0
    && e.scheme == W16(b, at + 10) && e.scheme in {0, 8}
    && b[at + 41] / 16 != 10
    && e.compressedSize == W32(b, at + 20)
    && e.uncompressedSize == W32(b, at + 24) && e.uncompressedSize <= 134217728
    && total + e.uncompressedSize <= 536870912
    && e.externalAttributes == W32(b, at + 38) && e.localHeaderOffset == W32(b, at + 42)
    && e.directory == Folder(b, at, e.name)
  }

  /** What is wrong with the header at `at`, in the order the reader notices. */
  predicate Wrong(b: seq<Byte>, at: nat, naming: Naming, total: nat, failure: Failure) {
    if |b| < at + 4 then failure == ReadPastEnd
    else if !Marked(b, at, CENTRAL_MARK) then failure == MalformedEntry
    else if |b| < at + 46 then failure == ReadPastEnd
    else if naming(NameBytes(b, at)) == None then failure == BadName
    else match failure
      case Encrypted => b[at + 8] % 2 == 1
      case UnsupportedMethod => b[at + 8] % 2 == 0 && W16(b, at + 10) !in {0, 8}
      case SymbolicLink => b[at + 8] % 2 == 0 && W16(b, at + 10) in {0, 8} && b[at + 41] / 16 == 10
      case EntryTooLarge =>
        && b[at + 8] % 2 == 0 && W16(b, at + 10) in {0, 8} && b[at + 41] / 16 != 10 && 134217728 < W32(b, at + 24)
      case TotalTooLarge =>
        && b[at + 8] % 2 == 0 && W16(b, at + 10) in {0, 8} && b[at + 41] / 16 != 10 && W32(b, at + 24) <= 134217728
        && 536870912 < total + W32(b, at + 24)
      case _ => false
  }

  /** The fields of a header, wherever it is read. */
  lemma HeaderFields(b: seq<Byte>, at: nat)
    requires Marked(b, at, CENTRAL_MARK) && at + 46 <= |b|
    ensures var h := ReadHeader(b, at);
            && h.Ok? && h.value.flags % 2 == b[at + 8] % 2 && h.value.scheme == W16(b, at + 10)
            && h.value.compressedSize == W32(b, at + 20) && h.value.uncompressedSize == W32(b, at + 24)
            && h.value.attributes == W32(b, at + 38) && h.value.localOffset == W32(b, at + 42)
            && at + Length(h.value) == After(b, at)
            && h.value.nameLength == W16(b, at + 28)
            && FileType(h.value.attributes) == b[at + 41] / 16
  {
    Signatures(b, at);
    ReadsAre(b, at + 8);
    ReadsAre(b, at + 38);
    ReadsAre(b, at + 20);
    FileTypeIs(b[at + 38], b[at + 39], b[at + 40], b[at + 41]);
    var low: int, high: int := b[at + 8], b[at + 9];
    assert (256 * high + low) % 2 == low % 2;
  }

  lemma NameBytesAre(b: seq<Byte>, at: nat, n: nat)
    requires at + 46 <= |b| && n == W16(b, at + 28)
    ensures Slice(b, at + 46, at + 46 + n) == NameBytes(b, at)
  {
  }

  /** One entry is read as what its header says, or refused for the first thing wrong with it. */
  lemma EntryTakenExactly(b: seq<Byte>, at: nat, naming: Naming, total: nat, entry: Result<Entry>, next: nat)
    requires naming(NameOrNothing(b, at)) != Some("")
    requires EntryRead(b, at, naming, total, entry, next)
    ensures entry.Ok? <==> exists e :: Says(b, at, naming, total, e)
    ensures entry.Ok? ==> Says(b, at, naming, total, entry.value) && next == After(b, at)
    ensures entry.Err? ==> Wrong(b, at, naming, total, entry.error)
  {
    Signatures(b, at);
    ReadsAre(b, at);
    if Marked(b, at, CENTRAL_MARK) && at + 46 <= |b| {
      HeaderFields(b, at);
      NameBytesAre(b, at, ReadHeader(b, at).value.nameLength);
      if entry.Ok? {
        assert Says(b, at, naming, total, entry.value);
      }
    }
  }

  function NameOrNothing(b: seq<Byte>, at: nat): seq<Byte> {
    if at + 46 <= |b| then NameBytes(b, at) else []
  }

  // ---------------------------------------------------------------- the whole directory

  function Sum(entries: seq<Entry>): nat {
    if entries == [] then 0 else entries[0].uncompressedSize + Sum(entries[1..])
  }

  /** How one entry is read at a place after so many bytes: what it is and where the next one starts. */
  type Reading = (nat, nat) -> Result<(Entry, nat)>

  /** Whether the header at a place says an entry after so many bytes. */
  type Saying = (nat, nat, Entry) -> bool

  /** Header after header from `at`, each saying the next entry. */
  predicate Chain(says: Saying, after: nat -> nat, at: nat, entries: seq<Entry>, total: nat)
    decreases |entries|
  {
    entries == []
    || (says(at, total, entries[0])
        && Chain(says, after, after(at), entries[1..], total + entries[0].uncompressedSize))
  }

  /** The headers of `n` entries take the reader from `at` to `place`. */
  predicate Leads(after: nat -> nat, at: nat, n: nat, place: nat)
    decreases n
  {
    if n == 0 then place == at else Leads(after, after(at), n - 1, place)
  }

  /** The loop over entries, for any way of reading one. */
  function Along(read: Reading, at: nat, count: nat, soFar: Directory): Result<Directory>
    decreases count
  {
    if count == 0 then Ok(soFar)
    else match read(at, soFar.totalUncompressedSize)
      case Err(error) => Err(error)
      case Ok((e, next)) => Along(read, next, count - 1, Extended(soFar, e))
  }

  /** The loop gives a directory exactly when the headers say its entries one after another. */
  lemma {:induction false} LoopTakesExactly(read: Reading, says: Saying, after: nat -> nat, at: nat, soFar: Directory,
                                            more: seq<Entry>)
    requires forall at, total, e :: says(at, total, e) <==> read(at, total) == Ok((e, after(at)))
    requires forall at, total :: read(at, total).Ok? ==> read(at, total).value.1 == after(at)
    ensures Along(read, at, |more|, soFar)
              == Ok(Directory(soFar.entries + more, soFar.totalUncompressedSize + Sum(more)))
            <==> Chain(says, after, at, more, soFar.totalUncompressedSize)
    decreases |more|
  {
    if more == [] {
      assert soFar.entries + more == soFar.entries;
    } else if read(at, soFar.totalUncompressedSize).Ok? {
      var e, rest := read(at, soFar.totalUncompressedSize).value.0, more[1..];
      var extended := Extended(soFar, e);
      assert says(at, soFar.totalUncompressedSize, more[0]) <==> e == more[0];
      if e == more[0] {
        assert extended.entries + rest == soFar.entries + more;
        LoopTakesExactly(read, says, after, after(at), extended, rest);
      } else if Along(read, at, |more|, soFar).Ok? {
        var d := Along(read, at, |more|, soFar).value;
        var _ := LoopOnlyAdds(read, after(at), |rest|, extended);
        assert d.entries[|soFar.entries|] == e;
        assert (soFar.entries + more)[|soFar.entries|] == more[0];
      }
    }
  }

  lemma {:induction false} LoopOnlyAdds(read: Reading, at: nat, count: nat, soFar: Directory)
    returns (more: seq<Entry>)
    requires Along(read, at, count, soFar).Ok?
    ensures |more| == count && Along(read, at, count, soFar).value ==
              Directory(soFar.entries + more, soFar.totalUncompressedSize + Sum(more))
    decreases count
  {
    if count == 0 {
      more := [];
      assert soFar.entries + more == soFar.entries;
    } else {
      var (e, next) := read(at, soFar.totalUncompressedSize).value;
      var rest := LoopOnlyAdds(read, next, count - 1, Extended(soFar, e));
      more := [e] + rest;
      assert more[1..] == rest;
      assert Extended(soFar, e).entries + rest == soFar.entries + more;
    }
  }

  /** A refusal is for the first header that is refused, behind good ones. */
  lemma {:induction false} LoopRefuses(read: Reading, says: Saying, after: nat -> nat, at: nat, count: nat,
                                       soFar: Directory)
    returns (good: seq<Entry>, place: nat)
    requires forall at, total, e :: says(at, total, e) <==> read(at, total) == Ok((e, after(at)))
    requires forall at, total :: read(at, total).Ok? ==> read(at, total).value.1 == after(at)
    requires Along(read, at, count, soFar).Err?
    ensures |good| < count && Chain(says, after, at, good, soFar.totalUncompressedSize)
    ensures Leads(after, at, |good|, place)
    ensures read(place, soFar.totalUncompressedSize + Sum(good)) == Err(Along(read, at, count, soFar).error)
    decreases count
  {
    var r := read(at, soFar.totalUncompressedSize);
    if r.Err? {
      good, place := [], at;
    } else {
      var e := r.value.0;
      assert says(at, soFar.totalUncompressedSize, e);
      var rest: seq<Entry>;
      rest, place := LoopRefuses(read, says, after, after(at), count - 1, Extended(soFar, e));
      good := [e] + rest;
      assert good[1..] == rest;
    }
  }

  // ---------------------------------------------------------------- the reader as such a loop

  function ReadOne(b: seq<Byte>, at: nat, total: nat): Result<(Entry, nat)> {
    var h := ReadHeader(b, at);
    if h.Err? then Err(h.error)
    else
      match CheckEntry(NameAt(b, at, h.value, ReadName), h.value, total)
      case Err(error) => Err(error)
      case Ok(e) => Ok((e, at + Length(h.value)))
  }

  function Reader(b: seq<Byte>): Reading {
    (at: nat, total: nat) => ReadOne(b, at, total)
  }

  function Teller(b: seq<Byte>): Saying {
    (at: nat, total: nat, e: Entry) => Says(b, at, ReadName, total, e)
  }

  function Stride(b: seq<Byte>): nat -> nat {
    (at: nat) => if at + 46 <= |b| then After(b, at) else at
  }

  lemma NamesAreNotEmpty(bytes: seq<Byte>)
    ensures ReadName(bytes) != Some("")
  {
  }

  /** One reading is what the header says, or a refusal for the first thing wrong with it. */
  lemma ReaderTells(b: seq<Byte>, at: nat, total: nat)
    ensures var r := Reader(b)(at, total);
            && (r.Ok? ==> Says(b, at, ReadName, total, r.value.0) && r.value.1 == Stride(b)(at))
            && (r.Err? ==> Wrong(b, at, ReadName, total, r.error))
    ensures forall e :: Says(b, at, ReadName, total, e) ==> Reader(b)(at, total) == Ok((e, Stride(b)(at)))
  {
    var r := Reader(b)(at, total);
    var entry, next := if r.Ok? then Ok(r.value.0) else Err(r.error), if r.Ok? then r.value.1 else After46(b, at);
    NamesAreNotEmpty(NameOrNothing(b, at));
    ReadsEntry(b, at, total, entry, next);
    EntryTakenExactly(b, at, ReadName, total, entry, next);
    forall e | Says(b, at, ReadName, total, e) ensures r == Ok((e, Stride(b)(at))) {
      OneMeaning(b, at, total, e, entry.value);
    }
  }

  function After46(b: seq<Byte>, at: nat): nat {
    var h := ReadHeader(b, at);
    if h.Err? then at else at + Length(h.value)
  }

  lemma ReadsEntry(b: seq<Byte>, at: nat, total: nat, entry: Result<Entry>, next: nat)
    requires var r := Reader(b)(at, total);
             if r.Ok? then entry == Ok(r.value.0) && next == r.value.1
             else entry == Err(r.error) && next == After46(b, at)
    ensures EntryRead(b, at, ReadName, total, entry, next)
  {
  }

  lemma OneMeaning(b: seq<Byte>, at: nat, total: nat, e: Entry, f: Entry)
    requires Says(b, at, ReadName, total, e) && Says(b, at, ReadName, total, f)
    ensures e == f
  {
  }

  lemma ReaderIsATeller(b: seq<Byte>)
    ensures forall at, total, e :: Teller(b)(at, total, e) <==> Reader(b)(at, total) == Ok((e, Stride(b)(at)))
    ensures forall at, total :: Reader(b)(at, total).Ok? ==> Reader(b)(at, total).value.1 == Stride(b)(at)
  {
    forall at: nat, total: nat, e: Entry
      ensures Teller(b)(at, total, e) <==> Reader(b)(at, total) == Ok((e, Stride(b)(at)))
    {
      ReaderTells(b, at, total);
    }
    forall at: nat, total: nat
      ensures Reader(b)(at, total).Ok? ==> Reader(b)(at, total).value.1 == Stride(b)(at)
    {
      ReaderTells(b, at, total);
    }
  }

  lemma AlongNext(read: Reading, at: nat, count: nat, soFar: Directory, e: Entry, next: nat, left: nat,
                  extended: Directory)
    requires count > 0 && read(at, soFar.totalUncompressedSize) == Ok((e, next))
    requires left == count - 1 && extended == Extended(soFar, e)
    ensures Along(read, at, count, soFar) == Along(read, next, left, extended)
  {
  }

  lemma BothStop(b: seq<Byte>, at: nat, count: nat, soFar: Directory)
    requires count > 0 && ReadOne(b, at, soFar.totalUncompressedSize).Err?
    ensures ParseEntries(b, at, count, soFar, ReadName) == Along(Reader(b), at, count, soFar)
  {
  }

  lemma {:induction false} EntriesAreALoop(b: seq<Byte>, at: nat, count: nat, soFar: Directory)
    ensures ParseEntries(b, at, count, soFar, ReadName) == Along(Reader(b), at, count, soFar)
    decreases count
  {
    if count > 0 {
      var r := ReadOne(b, at, soFar.totalUncompressedSize);
      if r.Ok? {
        var (e, next) := r.value;
        var left, extended := count - 1, Extended(soFar, e);
        ParseNext(b, at, count, soFar, ReadName, ReadHeader(b, at).value, e, next, left, extended);
        AlongNext(Reader(b), at, count, soFar, e, next, left, extended);
        EntriesAreALoop(b, next, left, extended);
      } else {
        BothStop(b, at, count, soFar);
      }
    }
  }

  /** The last end signature in the last 65557 bytes that has room for a whole end record. */
  predicate LastEnd(b: seq<Byte>, end: nat) {
    && end + 22 <= |b| && |b| <= end + 65557 && Marked(b, end, END_MARK)
    && forall at: nat :: end < at && at + 22 <= |b| ==> !Marked(b, at, END_MARK)
  }

  lemma {:induction false} EndIsLast(b: seq<Byte>, offset: int, start: nat)
    requires offset <= |b| - 22
    requires forall at: nat :: offset < at && at + 22 <= |b| ==> !Marked(b, at, END_MARK)
    ensures var found := FindEndFrom(b, offset, start);
            if found.Some? then
              && start <= found.value && found.value + 22 <= |b| && Marked(b, found.value, END_MARK)
              && forall at: nat :: found.value < at && at + 22 <= |b| ==> !Marked(b, at, END_MARK)
            else forall at: nat :: start <= at && at + 22 <= |b| ==> !Marked(b, at, END_MARK)
    decreases offset - start
  {
    if start <= offset {
      Signatures(b, offset);
      if U32(b, offset) != Some(END_SIGNATURE) {
        EndIsLast(b, offset - 1, start);
      }
    }
  }

  lemma EndFoundExactly(b: seq<Byte>, end: nat)
    ensures FindEnd(b) == Some(end) <==> LastEnd(b, end)
  {
    EndIsLast(b, |b| - 22, SearchStart(b));
  }

  /** Whether the end record at `end` announces a directory that may be read. */
  predicate Announces(b: seq<Byte>, end: nat, count: nat, offset: nat) {
    && LastEnd(b, end) && count == W16(b, end + 10) && count <= 25000
    && offset == W32(b, end + 16) && offset + W32(b, end + 12) <= |b|
  }

  /** A buffer is read as a directory exactly when its last end record announces as many entries inside the
      buffer, the headers there say them one after another, and the total is the sum of their sizes. */
  lemma DirectoryTakenExactly(b: seq<Byte>, d: Directory)
    ensures Parse(b, ReadName) == Ok(d) <==>
              exists end: nat, offset: nat ::
                && Announces(b, end, |d.entries|, offset)
                && Chain(Teller(b), Stride(b), offset, d.entries, 0) && d.totalUncompressedSize == Sum(d.entries)
  {
    if end: nat, offset: nat :|
      && Announces(b, end, |d.entries|, offset)
      && Chain(Teller(b), Stride(b), offset, d.entries, 0) && d.totalUncompressedSize == Sum(d.entries)
    {
      Opens(b, end);
      DirectoryIsAChain(b, offset, d);
    }
    if Parse(b, ReadName) == Ok(d) {
      var end := FindEnd(b).value;
      EndFoundExactly(b, end);
      Opens(b, end);
      var count, offset := W16(b, end + 10), W32(b, end + 16);
      EntriesAreALoop(b, offset, count, Directory([], 0));
      var more := LoopOnlyAdds(Reader(b), offset, count, Directory([], 0));
      assert [] + more == more == d.entries;
      DirectoryIsAChain(b, offset, d);
      assert Announces(b, end, |d.entries|, offset);
    }
  }

  lemma DirectoryIsAChain(b: seq<Byte>, offset: nat, d: Directory)
    ensures ParseEntries(b, offset, |d.entries|, Directory([], 0), ReadName) == Ok(d)
            && d.totalUncompressedSize == Sum(d.entries)
            <==> Chain(Teller(b), Stride(b), offset, d.entries, 0) && d.totalUncompressedSize == Sum(d.entries)
  {
    ReaderIsATeller(b);
    EntriesAreALoop(b, offset, |d.entries|, Directory([], 0));
    LoopTakesExactly(Reader(b), Teller(b), Stride(b), offset, Directory([], 0), d.entries);
    assert [] + d.entries == d.entries;
  }

  /** What the end record makes of the parse. */
  lemma Opens(b: seq<Byte>, end: nat)
    requires LastEnd(b, end)
    ensures Parse(b, ReadName) ==
              if 25000 < W16(b, end + 10) then Err(TooManyEntries)
              else if |b| < W32(b, end + 16) + W32(b, end + 12) then Err(OutsideBounds)
              else ParseEntries(b, W32(b, end + 16), W16(b, end + 10), Directory([], 0), ReadName)
  {
    EndFoundExactly(b, end);
    ReadsAre(b, end + 10);
    ReadsAre(b, end + 12);
    ReadsAre(b, end + 16);
  }

  /** A refusal says what is wrong: no end record, too many entries, a directory outside the buffer, or the
      first header that is refused, after good ones that lead to it. */
  lemma DirectoryRefusal(b: seq<Byte>, failure: Failure) returns (end: nat, good: seq<Entry>, place: nat)
    requires Parse(b, ReadName) == Err(failure)
    ensures if failure == NoDirectory then forall at: nat :: !LastEnd(b, at)
            else
              && LastEnd(b, end)
              && if failure == TooManyEntries then 25000 < W16(b, end + 10)
                 else if failure == OutsideBounds then
                   W16(b, end + 10) <= 25000 && |b| < W32(b, end + 16) + W32(b, end + 12)
                 else
                   && Announces(b, end, W16(b, end + 10), W32(b, end + 16)) && |good| < W16(b, end + 10)
                   && Chain(Teller(b), Stride(b), W32(b, end + 16), good, 0)
                   && Leads(Stride(b), W32(b, end + 16), |good|, place)
                   && Wrong(b, place, ReadName, Sum(good), failure)
  {
    end, good, place := 0, [], 0;
    if FindEnd(b).None? {
      forall at: nat ensures !LastEnd(b, at) { EndFoundExactly(b, at); }
    } else {
      end := FindEnd(b).value;
      EndFoundExactly(b, end);
      Opens(b, end);
      if W16(b, end + 10) <= 25000 && W32(b, end + 16) + W32(b, end + 12) <= |b| {
        var count, offset := W16(b, end + 10), W32(b, end + 16);
        ReaderIsATeller(b);
        EntriesAreALoop(b, offset, count, Directory([], 0));
        good, place := LoopRefuses(Reader(b), Teller(b), Stride(b), offset, count, Directory([], 0));
        ReaderTells(b, place, Sum(good));
      }
    }
  }

  // ---------------------------------------------------------------- one member

  /** A member is read from behind its local header, its name and its extra field: stored bytes as they are,
      deflated ones inflated, and nothing when the header or the data is not inside the buffer. */
  lemma MemberReadExactly(b: seq<Byte>, e: Entry, inflate: seq<Byte> -> Option<seq<Byte>>)
    ensures var r, at := ReadMember(b, e, inflate), e.localHeaderOffset;
            if !Marked(b, at, LOCAL_MARK) then r == Err(if at + 4 <= |b| then MalformedHeader else ReadPastEnd)
            else if |b| < at + 30 then r == Err(ReadPastEnd)
            else
              var data := at + 30 + W16(b, at + 26) + W16(b, at + 28);
              if |b| < data + e.compressedSize then r == Err(DataOutsideBounds)
              else
                var bytes := b[data..][..e.compressedSize];
                && (r == Ok(bytes) || e.scheme != 0)
                && (e.scheme != 8 || r == if inflate(bytes).Some? then Ok(inflate(bytes).value) else Err(BadDeflate))
                && (e.scheme in {0, 8} || r == Err(UnsupportedMethod))
  {
    var at := e.localHeaderOffset;
    Signatures(b, at);
    ReadsAre(b, at);
    ReadsAre(b, at + 26);
    ReadsAre(b, at + 28);
    if Marked(b, at, LOCAL_MARK) && at + 30 <= |b| {
      var data := at + 30 + W16(b, at + 26) + W16(b, at + 28);
      if data + e.compressedSize <= |b| {
        assert b[data..][..e.compressedSize] == b[data..data + e.compressedSize];
      }
    }
  }
}
