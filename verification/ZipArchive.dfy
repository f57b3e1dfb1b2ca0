/** Archives laid out by sections 4.3.7, 4.3.12 and 4.3.16 of PKWARE APPNOTE, and what reading one gives. */
module ZipArchive {
  import opened Bytes
  import opened Options
  import opened Zip
  import Utf8

  /** One member: what the reader looks at, and every other header field as bytes it skips. */
  datatype Member = Member(
    name: string, rawName: seq<Byte>, flags: nat, scheme: nat, uncompressedSize: nat, attributes: nat, data: seq<Byte>,
    versions: seq<Byte>, stamp: seq<Byte>, disk: seq<Byte>, extra: seq<Byte>, comment: seq<Byte>,
    localLead: seq<Byte>, localName: seq<Byte>, localExtra: seq<Byte>, descriptor: seq<Byte>)

  predicate Storable(m: Member) {
    && m.flags < 0x10000 && m.flags % 2 == 0 && (m.scheme == 0 || m.scheme == 8)
    && m.uncompressedSize <= MAX_SINGLE && m.attributes < 0x1_0000_0000 && !IsSymlink(m.attributes)
    && |m.data| < 0x1_0000_0000 && |m.rawName| < 0x10000 && |m.extra| < 0x10000 && |m.comment| < 0x10000
    && |m.versions| == 4 && |m.stamp| == 8 && |m.disk| == 4
    && |m.localLead| == 22 && |m.localName| < 0x10000 && |m.localExtra| < 0x10000
  }

  predicate AllStorable(ms: seq<Member>) { ms == [] || (Storable(ms[0]) && AllStorable(ms[1..])) }

  function LocalHeader(m: Member): seq<Byte> {
    Le32(LOCAL_SIGNATURE)
      + (m.localLead + (Le16(|m.localName|) + (Le16(|m.localExtra|) + (m.localName + m.localExtra))))
  }

  function Local(m: Member): seq<Byte> { LocalHeader(m) + (m.data + m.descriptor) }

  function Locals(ms: seq<Member>): seq<Byte> {
    if ms == [] then [] else Local(ms[0]) + Locals(ms[1..])
  }

  function CentralTail(m: Member, at: int): seq<Byte> {
    m.disk + (Le32(m.attributes) + (Le32(at) + (m.rawName + (m.extra + m.comment))))
  }

  function CentralSizes(m: Member, at: int): seq<Byte> {
    Le32(|m.data|) + (Le32(m.uncompressedSize)
                      + (Le16(|m.rawName|) + (Le16(|m.extra|) + (Le16(|m.comment|) + CentralTail(m, at)))))
  }

  /** The directory entry of a member whose local header is at `at`. */
  function Central(m: Member, at: int): seq<Byte> {
    Le32(CENTRAL_SIGNATURE) + (m.versions + (Le16(m.flags) + (Le16(m.scheme) + (m.stamp + CentralSizes(m, at)))))
  }

  function Centrals(ms: seq<Member>, at: nat): seq<Byte> {
    if ms == [] then [] else Central(ms[0], at) + Centrals(ms[1..], at + |Local(ms[0])|)
  }

  /** Four disk-number fields as written, then the comment length and the comment. */
  datatype EndRecord = EndRecord(disks: seq<Byte>, comment: seq<Byte>)

  function End(count: int, size: int, offset: int, e: EndRecord): seq<Byte> {
    Le32(END_SIGNATURE) + (e.disks + (Le16(count) + (Le32(size) + (Le32(offset) + (Le16(|e.comment|) + e.comment)))))
  }

  function Archive(ms: seq<Member>, e: EndRecord): seq<Byte> {
    Locals(ms) + (Centrals(ms, 0) + End(|ms|, |Centrals(ms, 0)|, |Locals(ms)|, e))
  }

  // ---------------------------------------------------------------- what reading should give

  function Listing(m: Member, at: nat): Entry {
    Entry(m.name, m.scheme, |m.data|, m.uncompressedSize, at, m.attributes, IsDirectory(m.name, m.attributes))
  }

  function Listed(ms: seq<Member>, at: nat, soFar: Directory): Directory {
    if ms == [] then soFar else Listed(ms[1..], at + |Local(ms[0])|, Extended(soFar, Listing(ms[0], at)))
  }

  function Sizes(ms: seq<Member>): nat {
    if ms == [] then 0 else ms[0].uncompressedSize + Sizes(ms[1..])
  }

  /** The name went into the archive as UTF-8, with forward or backward slashes, and is one the reader takes. */
  ghost predicate NameWritten(m: Member) {
    exists raw: string :: m.rawName == Utf8.Encode(raw) && m.name == Slashes(raw) && SafeName(m.name)
  }

  predicate Named(ms: seq<Member>, naming: Naming) {
    ms == [] || (naming(ms[0].rawName) == Some(ms[0].name) && Named(ms[1..], naming))
  }

  lemma {:induction false} WrittenNamesRead(ms: seq<Member>)
    requires forall i :: 0 <= i < |ms| ==> NameWritten(ms[i])
    ensures Named(ms, ReadName)
  {
    if ms != [] {
      assert NameWritten(ms[0]);
      var raw: string :| ms[0].rawName == Utf8.Encode(raw) && ms[0].name == Slashes(raw) && SafeName(ms[0].name);
      NameRoundTrip(raw);
      WrittenNamesRead(ms[1..]);
    }
  }

  /** No ZIP64: counts, offsets and the comment fit their fields, and no end signature follows the end record. */
  ghost predicate Writable(ms: seq<Member>, e: EndRecord) {
    && AllStorable(ms) && |ms| <= MAX_ENTRIES && Sizes(ms) <= MAX_TOTAL
    && |e.disks| == 6 && |e.comment| < 0x10000
    && |Locals(ms)| + |Centrals(ms, 0)| < 0x1_0000_0000
    && var b := Archive(ms, e);
       forall at :: |Locals(ms)| + |Centrals(ms, 0)| < at <= |b| - 22 ==> !EndAt(b, at)
  }

  // ---------------------------------------------------------------- one directory entry

  lemma TailFields(b: seq<Byte>, at: nat, m: Member, offset: nat)
    requires At(b, at, CentralTail(m, offset)) && |m.disk| == 4 && m.attributes < 0x1_0000_0000
             && offset < 0x1_0000_0000
    ensures U32(b, at + 4) == Some(m.attributes) && U32(b, at + 8) == Some(offset)
    ensures At(b, at + 12, m.rawName)
  {
    var name := m.rawName + (m.extra + m.comment);
    AtSplit(b, at, m.disk, Le32(m.attributes) + (Le32(offset) + name));
    AtSplit(b, at + 4, Le32(m.attributes), Le32(offset) + name);
    AtSplit(b, at + 8, Le32(offset), name);
    AtSplit(b, at + 12, m.rawName, m.extra + m.comment);
    U32At(b, at + 4, m.attributes);
    U32At(b, at + 8, offset);
  }

  lemma SizeFields(b: seq<Byte>, at: nat, m: Member, offset: nat)
    requires At(b, at, CentralSizes(m, offset)) && |m.data| < 0x1_0000_0000 && m.uncompressedSize < 0x1_0000_0000
    requires |m.rawName| < 0x10000 && |m.extra| < 0x10000 && |m.comment| < 0x10000
    ensures U32(b, at) == Some(|m.data|) && U32(b, at + 4) == Some(m.uncompressedSize)
            && U16(b, at + 8) == Some(|m.rawName|)
    ensures U16(b, at + 10) == Some(|m.extra|) && U16(b, at + 12) == Some(|m.comment|)
            && At(b, at + 14, CentralTail(m, offset))
  {
    var r3 := CentralTail(m, offset);
    var r2 := Le16(|m.extra|) + (Le16(|m.comment|) + r3);
    var r1 := Le16(|m.rawName|) + r2;
    AtSplit(b, at, Le32(|m.data|), Le32(m.uncompressedSize) + r1);
    AtSplit(b, at + 4, Le32(m.uncompressedSize), r1);
    AtSplit(b, at + 8, Le16(|m.rawName|), r2);
    AtSplit(b, at + 10, Le16(|m.extra|), Le16(|m.comment|) + r3);
    AtSplit(b, at + 12, Le16(|m.comment|), r3);
    U32At(b, at, |m.data|);
    U32At(b, at + 4, m.uncompressedSize);
    U16At(b, at + 8, |m.rawName|);
    U16At(b, at + 10, |m.extra|);
    U16At(b, at + 12, |m.comment|);
  }

  lemma FrontFields(b: seq<Byte>, at: nat, m: Member, offset: nat)
    requires At(b, at, Central(m, offset)) && |m.versions| == 4 && |m.stamp| == 8 && m.flags < 0x10000
             && m.scheme < 0x10000
    ensures U32(b, at) == Some(CENTRAL_SIGNATURE) && U16(b, at + 8) == Some(m.flags)
            && U16(b, at + 10) == Some(m.scheme)
    ensures At(b, at + 20, CentralSizes(m, offset))
  {
    var r2 := m.stamp + CentralSizes(m, offset);
    var r1 := Le16(m.flags) + (Le16(m.scheme) + r2);
    AtSplit(b, at, Le32(CENTRAL_SIGNATURE), m.versions + r1);
    AtSplit(b, at + 4, m.versions, r1);
    AtSplit(b, at + 8, Le16(m.flags), Le16(m.scheme) + r2);
    AtSplit(b, at + 10, Le16(m.scheme), r2);
    AtSplit(b, at + 12, m.stamp, CentralSizes(m, offset));
    U32At(b, at, CENTRAL_SIGNATURE);
    U16At(b, at + 8, m.flags);
    U16At(b, at + 10, m.scheme);
  }

  function HeaderOf(m: Member, offset: nat): Header {
    Header(m.flags, m.scheme, |m.data|, m.uncompressedSize, |m.rawName|, |m.extra|, |m.comment|, m.attributes, offset)
  }

  lemma ReadsHeader(b: seq<Byte>, at: nat, m: Member, offset: nat)
    requires At(b, at, Central(m, offset)) && offset < 0x1_0000_0000 && Storable(m)
    ensures ReadHeader(b, at) == Ok(HeaderOf(m, offset)) && At(b, at + 46, m.rawName)
    ensures |Central(m, offset)| == Length(HeaderOf(m, offset))
  {
    FrontFields(b, at, m, offset);
    SizeFields(b, at + 20, m, offset);
    TailFields(b, at + 34, m, offset);
  }

  lemma ReadsName(b: seq<Byte>, at: nat, h: Header, bytes: seq<Byte>, naming: Naming)
    requires At(b, at + 46, bytes) && h.nameLength == |bytes|
    ensures NameAt(b, at, h, naming) == naming(bytes)
  {
    AtSlice(b, at + 46, bytes);
  }

  lemma PassesChecks(m: Member, offset: nat, total: nat)
    requires Storable(m) && total + m.uncompressedSize <= MAX_TOTAL
    ensures CheckEntry(Some(m.name), HeaderOf(m, offset), total) == Ok(Listing(m, offset))
  {
  }

  /** What the reader sees of the directory: header after header, name after name. */
  predicate EntriesAt(b: seq<Byte>, at: nat, ms: seq<Member>, offset: nat, naming: Naming)
    decreases |ms|
  {
    ms == []
    || (&& ReadHeader(b, at) == Ok(HeaderOf(ms[0], offset))
        && NameAt(b, at, HeaderOf(ms[0], offset), naming) == Some(ms[0].name)
        && EntriesAt(b, at + Length(HeaderOf(ms[0], offset)), ms[1..], offset + |Local(ms[0])|, naming))
  }

  lemma SeesEntry(b: seq<Byte>, at: nat, m: Member, offset: nat, naming: Naming) returns (next: nat)
    requires At(b, at, Central(m, offset)) && Storable(m) && naming(m.rawName) == Some(m.name) && offset < 0x1_0000_0000
    ensures ReadHeader(b, at) == Ok(HeaderOf(m, offset)) && NameAt(b, at, HeaderOf(m, offset), naming) == Some(m.name)
    ensures next == at + Length(HeaderOf(m, offset)) == at + |Central(m, offset)|
  {
    ReadsHeader(b, at, m, offset);
    ReadsName(b, at, HeaderOf(m, offset), m.rawName, naming);
    next := at + Length(HeaderOf(m, offset));
  }

  lemma EntriesStep(b: seq<Byte>, at: nat, ms: seq<Member>, offset: nat, naming: Naming, next: nat, after: nat)
    requires ms != [] && next == at + Length(HeaderOf(ms[0], offset)) && after == offset + |Local(ms[0])|
             && ReadHeader(b, at) == Ok(HeaderOf(ms[0], offset))
    requires NameAt(b, at, HeaderOf(ms[0], offset), naming) == Some(ms[0].name)
    requires EntriesAt(b, next, ms[1..], after, naming)
    ensures EntriesAt(b, at, ms, offset, naming)
  {
  }

  function LocalSize(ms: seq<Member>): nat {
    if ms == [] then 0 else |Local(ms[0])| + LocalSize(ms[1..])
  }

  lemma {:induction false} LocalSizeIs(ms: seq<Member>)
    ensures LocalSize(ms) == |Locals(ms)|
  {
    if ms != [] { LocalSizeIs(ms[1..]); }
  }

  /** The first header and name of a directory, and where the rest of it starts. */
  lemma SplitsDirectory(b: seq<Byte>, at: nat, ms: seq<Member>, offset: nat, after: nat, next: nat)
    requires At(b, at, Centrals(ms, offset)) && ms != [] && after == offset + |Local(ms[0])|
    requires next == at + |Central(ms[0], offset)|
    ensures At(b, at, Central(ms[0], offset)) && At(b, next, Centrals(ms[1..], after))
  {
    AtSplit(b, at, Central(ms[0], offset), Centrals(ms[1..], after));
  }

  /** What holds of all members holds of all but the first. */
  lemma TailMembers(ms: seq<Member>, naming: Naming, offset: nat, after: nat)
    requires ms != [] && AllStorable(ms) && Named(ms, naming) && after == offset + |Local(ms[0])|
    ensures Storable(ms[0]) && naming(ms[0].rawName) == Some(ms[0].name)
    ensures AllStorable(ms[1..]) && Named(ms[1..], naming) && after + LocalSize(ms[1..]) == offset + LocalSize(ms)
  {
  }

  lemma SeesFirst(b: seq<Byte>, at: nat, ms: seq<Member>, offset: nat, naming: Naming) returns (next: nat, after: nat)
    requires ms != [] && At(b, at, Centrals(ms, offset)) && AllStorable(ms) && Named(ms, naming)
    requires offset + LocalSize(ms) < 0x1_0000_0000
    ensures next == at + Length(HeaderOf(ms[0], offset)) && after == offset + |Local(ms[0])|
    ensures ReadHeader(b, at) == Ok(HeaderOf(ms[0], offset))
    ensures NameAt(b, at, HeaderOf(ms[0], offset), naming) == Some(ms[0].name)
    ensures At(b, next, Centrals(ms[1..], after)) && after + LocalSize(ms[1..]) < 0x1_0000_0000
  {
    var m := ms[0];
    after := offset + |Local(m)|;
    TailMembers(ms, naming, offset, after);
    SplitsDirectory(b, at, ms, offset, after, at + |Central(m, offset)|);
    next := SeesEntry(b, at, m, offset, naming);
  }

  lemma {:induction false} SeesDirectory(b: seq<Byte>, at: nat, ms: seq<Member>, offset: nat, naming: Naming)
    requires At(b, at, Centrals(ms, offset)) && AllStorable(ms) && Named(ms, naming)
    requires offset + LocalSize(ms) < 0x1_0000_0000
    ensures EntriesAt(b, at, ms, offset, naming)
    decreases |ms|
  {
    if ms != [] {
      var next, after := SeesFirst(b, at, ms, offset, naming);
      SeesDirectory(b, next, ms[1..], after, naming);
      EntriesStep(b, at, ms, offset, naming, next, after);
    }
  }

  lemma EntriesHead(b: seq<Byte>, at: nat, ms: seq<Member>, offset: nat, naming: Naming, next: nat, after: nat)
    requires EntriesAt(b, at, ms, offset, naming) && ms != []
    requires next == at + Length(HeaderOf(ms[0], offset)) && after == offset + |Local(ms[0])|
    ensures ReadHeader(b, at) == Ok(HeaderOf(ms[0], offset))
            && NameAt(b, at, HeaderOf(ms[0], offset), naming) == Some(ms[0].name)
    ensures EntriesAt(b, next, ms[1..], after, naming)
  {
  }

  lemma ListedNext(ms: seq<Member>, offset: nat, soFar: Directory, after: nat, extended: Directory)
    requires ms != [] && after == offset + |Local(ms[0])| && extended == Extended(soFar, Listing(ms[0], offset))
    ensures Listed(ms, offset, soFar) == Listed(ms[1..], after, extended)
  {
  }

  lemma {:induction false} ReadsDirectory(b: seq<Byte>, at: nat, ms: seq<Member>, offset: nat, soFar: Directory,
                                          naming: Naming)
    requires EntriesAt(b, at, ms, offset, naming) && AllStorable(ms)
             && soFar.totalUncompressedSize + Sizes(ms) <= MAX_TOTAL
    ensures ParseEntries(b, at, |ms|, soFar, naming) == Ok(Listed(ms, offset, soFar))
    decreases |ms|
  {
    if ms != [] {
      var m, h, rest := ms[0], HeaderOf(ms[0], offset), ms[1..];
      PassesChecks(m, offset, soFar.totalUncompressedSize);
      var next, after, extended := at + Length(h), offset + |Local(m)|, Extended(soFar, Listing(m, offset));
      EntriesHead(b, at, ms, offset, naming, next, after);
      ReadsDirectory(b, next, rest, after, extended, naming);
      ListedNext(ms, offset, soFar, after, extended);
      ParseNext(b, at, |ms|, soFar, naming, h, Listing(m, offset), next, |rest|, extended);
    }
  }

  // ---------------------------------------------------------------- the end record

  lemma EndFields(b: seq<Byte>, at: nat, count: nat, size: nat, offset: nat, e: EndRecord)
    requires At(b, at, End(count, size, offset, e)) && |e.disks| == 6
    requires count < 0x10000 && size < 0x1_0000_0000 && offset < 0x1_0000_0000
    ensures EndAt(b, at) && U16(b, at + 10) == Some(count) && U32(b, at + 12) == Some(size)
            && U32(b, at + 16) == Some(offset)
  {
    var r3 := Le16(|e.comment|) + e.comment;
    var r2 := Le32(size) + (Le32(offset) + r3);
    var r1 := Le16(count) + r2;
    AtSplit(b, at, Le32(END_SIGNATURE), e.disks + r1);
    AtSplit(b, at + 4, e.disks, r1);
    AtSplit(b, at + 10, Le16(count), r2);
    AtSplit(b, at + 12, Le32(size), Le32(offset) + r3);
    AtSplit(b, at + 16, Le32(offset), r3);
    U32At(b, at, END_SIGNATURE);
    U16At(b, at + 10, count);
    U32At(b, at + 12, size);
    U32At(b, at + 16, offset);
  }

  lemma Layout(ms: seq<Member>, e: EndRecord)
    ensures var b, locals, centrals := Archive(ms, e), Locals(ms), Centrals(ms, 0);
            && At(b, 0, locals) && At(b, |locals|, centrals)
            && At(b, |locals| + |centrals|, End(|ms|, |centrals|, |locals|, e))
            && |b| == |locals| + |centrals| + |End(|ms|, |centrals|, |locals|, e)|
  {
    var locals, centrals := Locals(ms), Centrals(ms, 0);
    var end := End(|ms|, |centrals|, |locals|, e);
    var b := Archive(ms, e);
    assert b[0..|b|] == b;
    AtSplit(b, 0, locals, centrals + end);
    AtSplit(b, |locals|, centrals, end);
  }

  lemma EndLength(count: int, size: int, offset: int, e: EndRecord)
    requires |e.disks| == 6
    ensures |End(count, size, offset, e)| == 22 + |e.comment|
  {
  }

  // ---------------------------------------------------------------- the round trips

  /** The end record leads the reader to the directory. */
  lemma FindsDirectory(b: seq<Byte>, at: nat, count: nat, offset: nat, size: nat, e: EndRecord, naming: Naming)
    requires At(b, at, End(count, size, offset, e)) && at == offset + size && count <= MAX_ENTRIES
    requires |e.disks| == 6 && |e.comment| < 0x10000 && at < 0x1_0000_0000 && |b| == at + 22 + |e.comment|
    requires forall n :: at < n <= |b| - 22 ==> !EndAt(b, n)
    ensures Parse(b, naming) == ParseEntries(b, offset, count, Directory([], 0), naming)
  {
    EndFields(b, at, count, size, offset, e);
    FindsEndAt(b, at);
    ParsesFrom(b, at, count, size, offset, naming);
  }

  /** A directory of `size` bytes at `offset`, then the end record, and nothing that looks like another one. */
  ghost predicate LaidOut(b: seq<Byte>, offset: nat, size: nat, ms: seq<Member>, e: EndRecord) {
    && offset == |Locals(ms)| && At(b, offset, Centrals(ms, 0)) && At(b, offset + size, End(|ms|, size, offset, e))
    && |e.disks| == 6 && |e.comment| < 0x10000 && offset + size < 0x1_0000_0000
    && |b| == offset + size + 22 + |e.comment|
    && forall at :: offset + size < at <= |b| - 22 ==> !EndAt(b, at)
  }

  lemma WritableIsLaidOut(ms: seq<Member>, e: EndRecord)
    requires Writable(ms, e)
    ensures LaidOut(Archive(ms, e), |Locals(ms)|, |Centrals(ms, 0)|, ms, e)
  {
    Layout(ms, e);
    EndLength(|ms|, |Centrals(ms, 0)|, |Locals(ms)|, e);
  }

  lemma FindsLaidOut(b: seq<Byte>, offset: nat, size: nat, ms: seq<Member>, e: EndRecord, naming: Naming)
    requires LaidOut(b, offset, size, ms, e) && |ms| <= MAX_ENTRIES
    ensures Parse(b, naming) == ParseEntries(b, offset, |ms|, Directory([], 0), naming)
  {
    FindsDirectory(b, offset + size, |ms|, offset, size, e, naming);
  }

  lemma ReadsLaidOut(b: seq<Byte>, offset: nat, ms: seq<Member>, naming: Naming)
    requires At(b, offset, Centrals(ms, 0)) && |Locals(ms)| < 0x1_0000_0000
    requires AllStorable(ms) && Named(ms, naming) && Sizes(ms) <= MAX_TOTAL
    ensures ParseEntries(b, offset, |ms|, Directory([], 0), naming) == Ok(Listed(ms, 0, Directory([], 0)))
  {
    LocalSizeIs(ms);
    SeesDirectory(b, offset, ms, 0, naming);
    ReadsDirectory(b, offset, ms, 0, Directory([], 0), naming);
  }

  lemma LaidOutParses(b: seq<Byte>, offset: nat, size: nat, ms: seq<Member>, e: EndRecord, naming: Naming)
    requires LaidOut(b, offset, size, ms, e)
    requires AllStorable(ms) && Named(ms, naming) && |ms| <= MAX_ENTRIES && Sizes(ms) <= MAX_TOTAL
    ensures Parse(b, naming) == Ok(Listed(ms, 0, Directory([], 0)))
  {
    FindsLaidOut(b, offset, size, ms, e, naming);
    ReadsLaidOut(b, offset, ms, naming);
  }

  lemma ArchiveParses(ms: seq<Member>, e: EndRecord, naming: Naming)
    requires Writable(ms, e) && Named(ms, naming)
    ensures Parse(Archive(ms, e), naming) == Ok(Listed(ms, 0, Directory([], 0)))
  {
    WritableIsLaidOut(ms, e);
    LaidOutParses(Archive(ms, e), |Locals(ms)|, |Centrals(ms, 0)|, ms, e, naming);
  }

  /** A written archive reads back as exactly its members, in order, with the sum of their sizes. */
  lemma DirectoryRoundTrip(ms: seq<Member>, e: EndRecord)
    requires Writable(ms, e) && forall i :: 0 <= i < |ms| ==> NameWritten(ms[i])
    ensures Parse(Archive(ms, e), ReadName) == Ok(Listed(ms, 0, Directory([], 0)))
  {
    WrittenNamesRead(ms);
    ArchiveParses(ms, e, ReadName);
  }

  function Offset(ms: seq<Member>, i: nat): nat
    requires i <= |ms|
  {
    if i == 0 then 0 else |Local(ms[0])| + Offset(ms[1..], i - 1)
  }

  lemma {:induction false} ListedShape(ms: seq<Member>, at: nat, soFar: Directory)
    ensures var d := Listed(ms, at, soFar);
            && d.totalUncompressedSize == soFar.totalUncompressedSize + Sizes(ms)
            && |d.entries| == |soFar.entries| + |ms| && soFar.entries <= d.entries
    decreases |ms|
  {
    if ms != [] {
      var extended := Extended(soFar, Listing(ms[0], at));
      ListedShape(ms[1..], at + |Local(ms[0])|, extended);
      assert soFar.entries <= extended.entries;
    }
  }

  /** The listing has one entry per member, each at its own offset. */
  lemma {:induction false} ListedEntry(ms: seq<Member>, at: nat, soFar: Directory, i: nat)
    requires i < |ms|
    ensures |Listed(ms, at, soFar).entries| == |soFar.entries| + |ms|
    ensures Listed(ms, at, soFar).entries[|soFar.entries| + i] == Listing(ms[i], at + Offset(ms, i))
    decreases |ms|
  {
    var next, extended := at + |Local(ms[0])|, Extended(soFar, Listing(ms[0], at));
    ListedShape(ms, at, soFar);
    if i == 0 {
      ListedShape(ms[1..], next, extended);
      assert Listed(ms, at, soFar).entries[|soFar.entries|] == extended.entries[|soFar.entries|];
    } else {
      ListedEntry(ms[1..], next, extended, i - 1);
    }
  }

  lemma {:induction false} LocalAt(b: seq<Byte>, at: nat, ms: seq<Member>, i: nat)
    requires At(b, at, Locals(ms)) && i < |ms|
    ensures At(b, at + Offset(ms, i), Local(ms[i]))
    decreases |ms|
  {
    AtSplit(b, at, Local(ms[0]), Locals(ms[1..]));
    if i > 0 { LocalAt(b, at + |Local(ms[0])|, ms[1..], i - 1); }
  }

  lemma ReadsLocal(b: seq<Byte>, at: nat, m: Member)
    requires At(b, at, Local(m)) && |m.localLead| == 22 && |m.localName| < 0x10000 && |m.localExtra| < 0x10000
    ensures U32(b, at) == Some(LOCAL_SIGNATURE) && U16(b, at + 26) == Some(|m.localName|)
            && U16(b, at + 28) == Some(|m.localExtra|)
    ensures At(b, at + 30 + |m.localName| + |m.localExtra|, m.data)
  {
    var r2 := m.localName + m.localExtra;
    var r1 := Le16(|m.localName|) + (Le16(|m.localExtra|) + r2);
    AtSplit(b, at, LocalHeader(m), m.data + m.descriptor);
    AtSplit(b, at + |LocalHeader(m)|, m.data, m.descriptor);
    AtSplit(b, at, Le32(LOCAL_SIGNATURE), m.localLead + r1);
    AtSplit(b, at + 4, m.localLead, r1);
    AtSplit(b, at + 26, Le16(|m.localName|), Le16(|m.localExtra|) + r2);
    AtSplit(b, at + 28, Le16(|m.localExtra|), r2);
    U32At(b, at, LOCAL_SIGNATURE);
    U16At(b, at + 26, |m.localName|);
    U16At(b, at + 28, |m.localExtra|);
  }

  lemma LocalReads(b: seq<Byte>, at: nat, m: Member, inflate: seq<Byte> -> Option<seq<Byte>>)
    requires At(b, at, Local(m)) && (m.scheme == 0 || m.scheme == 8)
    requires |m.localLead| == 22 && |m.localName| < 0x10000 && |m.localExtra| < 0x10000
    ensures ReadMember(b, Listing(m, at), inflate) == Contents(m, inflate)
  {
    ReadsLocal(b, at, m);
    ReadsMember(b, at, m, inflate);
  }

  function Contents(m: Member, inflate: seq<Byte> -> Option<seq<Byte>>): Result<seq<Byte>> {
    if m.scheme == 0 then Ok(m.data)
    else match inflate(m.data) case None => Err(BadDeflate) case Some(bytes) => Ok(bytes)
  }

  lemma {:induction false} EachStorable(ms: seq<Member>, i: nat)
    requires AllStorable(ms) && i < |ms|
    ensures Storable(ms[i])
  {
    if i > 0 { EachStorable(ms[1..], i - 1); }
  }

  lemma ListedAt(ms: seq<Member>, i: nat)
    requires i < |ms|
    ensures |Listed(ms, 0, Directory([], 0)).entries| == |ms|
    ensures Listed(ms, 0, Directory([], 0)).entries[i] == Listing(ms[i], Offset(ms, i))
  {
    ListedEntry(ms, 0, Directory([], 0), i);
  }

  lemma LocalsAreThere(ms: seq<Member>, e: EndRecord, i: nat)
    requires i < |ms|
    ensures At(Archive(ms, e), Offset(ms, i), Local(ms[i]))
  {
    Layout(ms, e);
    LocalAt(Archive(ms, e), 0, ms, i);
    assert 0 + Offset(ms, i) == Offset(ms, i);
  }

  /** Every member reads back: stored bytes as they are, deflated bytes through the inflater. */
  lemma MemberRoundTrip(ms: seq<Member>, e: EndRecord, i: nat, d: Directory, inflate: seq<Byte> -> Option<seq<Byte>>)
    requires Writable(ms, e) && i < |ms| && forall k :: 0 <= k < |ms| ==> NameWritten(ms[k])
    requires Parse(Archive(ms, e), ReadName) == Ok(d)
    ensures |d.entries| == |ms| && ReadMember(Archive(ms, e), d.entries[i], inflate) == Contents(ms[i], inflate)
  {
    DirectoryRoundTrip(ms, e);
    ListedAt(ms, i);
    EachStorable(ms, i);
    LocalsAreThere(ms, e, i);
    LocalReads(Archive(ms, e), Offset(ms, i), ms[i], inflate);
  }

  lemma ReadsMember(b: seq<Byte>, at: nat, m: Member, inflate: seq<Byte> -> Option<seq<Byte>>)
    requires m.scheme == 0 || m.scheme == 8
    requires U32(b, at) == Some(LOCAL_SIGNATURE) && U16(b, at + 26) == Some(|m.localName|)
             && U16(b, at + 28) == Some(|m.localExtra|)
    requires At(b, at + 30 + |m.localName| + |m.localExtra|, m.data)
    ensures ReadMember(b, Listing(m, at), inflate)
            == Contents(m, inflate)
  {
  }
}
