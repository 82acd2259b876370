/** PE images field by field (Microsoft PE Format, "MS-DOS Stub", "COFF File Header" and
    "Optional Header"), as the reference for where `tools/verify_authenticode_payload.py`
    looks: a file is a list of fields in the order of the format, and no offset is written down. */
module PeImage {
  import opened Bytes
  import opened Wrappers
  import opened Authenticode
  import DerLength

  /** The first data directories; the fifth is the certificate table. */
  datatype Entry = Entry(address: seq<byte>, size: seq<byte>)

  datatype Image = Image(
    // the DOS header between its magic and the offset of the PE header, and what follows it
    dos: seq<byte>, stub: seq<byte>,
    // the COFF file header
    machine: seq<byte>, sections: seq<byte>, timestamp: seq<byte>, symbols: seq<byte>, symbolCount: seq<byte>,
    characteristics: seq<byte>,
    // the optional header: the standard fields
    plus: bool,
    linker: seq<byte>, codeSize: seq<byte>, dataSize: seq<byte>, zeroSize: seq<byte>, entryPoint: seq<byte>,
    codeBase: seq<byte>, dataBase: seq<byte>,
    // the Windows-specific fields
    imageBase: seq<byte>, sectionAlignment: seq<byte>, fileAlignment: seq<byte>, osVersion: seq<byte>,
    imageVersion: seq<byte>, subsystemVersion: seq<byte>, win32Version: seq<byte>, imageSize: seq<byte>,
    headerSize: seq<byte>, checkSum: seq<byte>, subsystem: seq<byte>, dllCharacteristics: seq<byte>,
    stackReserve: seq<byte>, stackCommit: seq<byte>, heapReserve: seq<byte>, heapCommit: seq<byte>,
    loaderFlags: seq<byte>, directoryCount: seq<byte>,
    // the data directories
    exports: Entry, imports: Entry, resources: Entry, exceptions: Entry, certificates: Entry,
    // the rest of the optional header, and the rest of the file
    more: seq<byte>, rest: seq<byte>)

  /** Pointers and sizes of memory are 4 bytes wide in PE32 and 8 in PE32+. */
  function Wide(p: Image): nat {
    if p.plus then 8 else 4
  }

  predicate IsEntry(e: Entry) {
    |e.address| == 4 && |e.size| == 4
  }

  predicate FileFieldsFit(p: Image) {
    && |p.dos| == 58
    && |p.machine| == 2 && |p.sections| == 2 && |p.timestamp| == 4 && |p.symbols| == 4 && |p.symbolCount| == 4
    && |p.characteristics| == 2
  }

  predicate StandardFieldsFit(p: Image) {
    && |p.linker| == 2 && |p.codeSize| == 4 && |p.dataSize| == 4 && |p.zeroSize| == 4 && |p.entryPoint| == 4
    && |p.codeBase| == 4 && |p.dataBase| == if p.plus then 0 else 4
  }

  predicate EarlyFieldsFit(p: Image) {
    && |p.imageBase| == Wide(p) && |p.sectionAlignment| == 4 && |p.fileAlignment| == 4 && |p.osVersion| == 4
    && |p.imageVersion| == 4 && |p.subsystemVersion| == 4 && |p.win32Version| == 4 && |p.imageSize| == 4
    && |p.headerSize| == 4
  }

  predicate LateFieldsFit(p: Image) {
    && |p.subsystem| == 2 && |p.dllCharacteristics| == 2
    && |p.stackReserve| == Wide(p) && |p.stackCommit| == Wide(p) && |p.heapReserve| == Wide(p)
    && |p.heapCommit| == Wide(p) && |p.loaderFlags| == 4 && |p.directoryCount| == 4
  }

  predicate DirectoriesFit(p: Image) {
    IsEntry(p.exports) && IsEntry(p.imports) && IsEntry(p.resources) && IsEntry(p.exceptions) && IsEntry(p.certificates)
  }

  predicate WellFormed(p: Image) {
    && FileFieldsFit(p) && StandardFieldsFit(p) && EarlyFieldsFit(p) && |p.checkSum| == 4 && LateFieldsFit(p)
    && DirectoriesFit(p)
    && 0x40 + |p.stub| < 0x1_0000_0000 && |OptionalHeader(p)| < 0x1_0000
    && LittleEndian(p.directoryCount) > 4
  }

  function EntryBytes(e: Entry): seq<byte> {
    e.address + e.size
  }

  function Standard(p: Image): seq<byte> {
    Magic(p)
    + p.linker + p.codeSize + p.dataSize + p.zeroSize + p.entryPoint + p.codeBase + p.dataBase
  }

  /** The Windows-specific fields before and after the checksum. */
  function Early(p: Image): seq<byte> {
    p.imageBase + p.sectionAlignment + p.fileAlignment + p.osVersion + p.imageVersion + p.subsystemVersion
    + p.win32Version + p.imageSize + p.headerSize
  }

  function Late(p: Image): seq<byte> {
    p.subsystem + p.dllCharacteristics + p.stackReserve + p.stackCommit + p.heapReserve + p.heapCommit
    + p.loaderFlags + p.directoryCount
  }

  function FirstDirectories(p: Image): seq<byte> {
    EntryBytes(p.exports) + EntryBytes(p.imports) + EntryBytes(p.resources) + EntryBytes(p.exceptions)
  }

  function OptionalHeader(p: Image): seq<byte> {
    Standard(p) + Early(p) + p.checkSum + Late(p) + FirstDirectories(p) + EntryBytes(p.certificates) + p.more
  }

  /** Everything up to the optional header. */
  function FileHeader(p: Image): seq<byte> {
    [0x4D, 0x5A] + p.dos + ToLittleEndian(0x40 + |p.stub|, 4) + p.stub
    + [0x50, 0x45, 0, 0]
    + p.machine + p.sections + p.timestamp + p.symbols + p.symbolCount
    + ToLittleEndian(|OptionalHeader(p)|, 2) + p.characteristics
  }

  function ImageBytes(p: Image): seq<byte> {
    FileHeader(p) + OptionalHeader(p) + p.rest
  }

  /** What stands before the checksum, and before the entry of the certificate table. */
  function BeforeCheckSum(p: Image): seq<byte> {
    FileHeader(p) + Standard(p) + Early(p)
  }

  function BeforeCertificates(p: Image): seq<byte> {
    BeforeCheckSum(p) + p.checkSum + Late(p) + FirstDirectories(p)
  }

  // ---------------------------------------------------------------- where the fields are

  lemma Lengths(p: Image)
    requires WellFormed(p)
    ensures |FileHeader(p)| == 0x40 + |p.stub| + 24
    ensures |Standard(p)| + |Early(p)| == 64
    ensures |Late(p)| == if p.plus then 44 else 28
    ensures |FirstDirectories(p)| == 4 * 8 && |EntryBytes(p.certificates)| == 8
  {
  }

  /** One slice of a concatenation. */
  lemma Middle(a: seq<byte>, b: seq<byte>, c: seq<byte>)
    ensures (a + b + c)[|a|..|a| + |b|] == b
  {
  }

  lemma FileHeaderParts(p: Image, tail: seq<byte>)
    requires WellFormed(p)
    ensures var data, pe := FileHeader(p) + tail, 0x40 + |p.stub|;
      && |data| >= pe + 24
      && data[..2] == [0x4D, 0x5A] && data[0x3C..0x40] == ToLittleEndian(pe, 4)
      && data[pe..pe + 4] == [0x50, 0x45, 0, 0] && data[pe + 20..pe + 22] == ToLittleEndian(|OptionalHeader(p)|, 2)
  {
    hide OptionalHeader, ToLittleEndian;
    var pe, n := ToLittleEndian(0x40 + |p.stub|, 4), ToLittleEndian(|OptionalHeader(p)|, 2);
    var front, tag := [0x4D, 0x5A] + p.dos, [0x50 as byte, 0x45, 0, 0];
    var coff := p.machine + p.sections + p.timestamp + p.symbols + p.symbolCount;
    Grouped([0x4D, 0x5A], p.dos, pe, p.stub, tag, p.machine, p.sections, p.timestamp, p.symbols, p.symbolCount, n,
            p.characteristics + tail);
    assert FileHeader(p) + tail == front + pe + p.stub + tag + coff + n + (p.characteristics + tail);
    SixParts(front, pe, p.stub, tag, coff, n, p.characteristics + tail);
  }

  lemma Grouped(a: seq<byte>, b: seq<byte>, c: seq<byte>, d: seq<byte>, e: seq<byte>, f: seq<byte>, g: seq<byte>,
                h: seq<byte>, i: seq<byte>, j: seq<byte>, k: seq<byte>, l: seq<byte>)
    ensures a + b + c + d + e + f + g + h + i + j + k + l == (a + b) + c + d + e + (f + g + h + i + j) + k + l
  {
  }

  lemma SixParts(a: seq<byte>, b: seq<byte>, c: seq<byte>, d: seq<byte>, e: seq<byte>, f: seq<byte>, g: seq<byte>)
    ensures var data, n := a + b + c + d + e + f + g, |a| + |b| + |c|;
      && |data| == n + |d| + |e| + |f| + |g|
      && data[..|a|] == a && data[|a|..|a| + |b|] == b && data[n..n + |d|] == d
      && data[n + |d| + |e|..n + |d| + |e| + |f|] == f
  {
  }

  /** The parser finds the checksum and the entry of the certificate table of every image, with
      the values of that entry. */
  lemma LayoutOfImage(p: Image)
    requires WellFormed(p)
    ensures ParseLayout(ImageBytes(p)) ==
      Ok(Layout(|BeforeCheckSum(p)|, |BeforeCertificates(p)|, LittleEndian(p.certificates.address),
                LittleEndian(p.certificates.size)))
  {
    var data, optional := ImageBytes(p), |FileHeader(p)|;
    Lengths(p);
    FileHeaderParts(p, OptionalHeader(p) + p.rest);
    assert data == FileHeader(p) + (OptionalHeader(p) + p.rest);
    PowersOf256();
    LittleEndianOfBytes(0x40 + |p.stub|, 4);
    LittleEndianOfBytes(|OptionalHeader(p)|, 2);
    MagicOf(p);
    OptionalParts(p);
    hide ToLittleEndian, LittleEndian, FileHeader, OptionalHeader, Standard, Early, Late, FirstDirectories, EntryBytes;
  }

  lemma MagicOf(p: Image)
    ensures LittleEndian([0x0B, 0x02]) == 0x20B && LittleEndian([0x0B, 0x01]) == 0x10B
  {
    assert [0x0B, 0x02][1..] == [0x02 as byte] && [0x0B, 0x01][1..] == [0x01 as byte];
  }

  /** The magic number, and what else stands before the checksum. */
  function Magic(p: Image): seq<byte> {
    if p.plus then [0x0B, 0x02] else [0x0B, 0x01]
  }

  function Standard1(p: Image): seq<byte> {
    p.linker + p.codeSize + p.dataSize + p.zeroSize + p.entryPoint + p.codeBase + p.dataBase
  }

  function Late1(p: Image): seq<byte> {
    p.subsystem + p.dllCharacteristics + p.stackReserve + p.stackCommit + p.heapReserve + p.heapCommit + p.loaderFlags
  }

  lemma Regrouped(p: Image)
    ensures Standard(p) == Magic(p) + Standard1(p) && Late(p) == Late1(p) + p.directoryCount
  {
  }

  lemma ImageParts(p: Image)
    ensures ImageBytes(p)
      == FileHeader(p) + Magic(p) + (Standard1(p) + Early(p) + p.checkSum + Late1(p)) + p.directoryCount
         + FirstDirectories(p) + p.certificates.address + p.certificates.size + (p.more + p.rest)
    ensures BeforeCertificates(p)
      == FileHeader(p) + Magic(p) + (Standard1(p) + Early(p) + p.checkSum + Late1(p)) + p.directoryCount
         + FirstDirectories(p)
  {
    Regrouped(p);
    hide FileHeader, Standard, Early, Late, Magic, Standard1, Late1, FirstDirectories;
  }

  lemma EightParts(a: seq<byte>, b: seq<byte>, c: seq<byte>, d: seq<byte>, e: seq<byte>, f: seq<byte>, g: seq<byte>,
                   h: seq<byte>)
    ensures var data, n := a + b + c + d + e + f + g + h, |a| + |b| + |c| + |d| + |e|;
      && |data| == n + |f| + |g| + |h|
      && data[|a|..|a| + |b|] == b && data[|a| + |b| + |c|..|a| + |b| + |c| + |d|] == d
      && data[n..n + |f|] == f && data[n + |f|..n + |f| + |g|] == g
  {
  }

  lemma OptionalParts(p: Image)
    requires WellFormed(p)
    ensures var data, at := ImageBytes(p), |FileHeader(p)|;
      var count, directory := at + (if p.plus then 108 else 92), |BeforeCertificates(p)|;
      && |data| >= at + |OptionalHeader(p)| && |OptionalHeader(p)| >= directory + 8 - at
      && directory == count + 4 + 4 * 8
      && data[at..at + 2] == Magic(p)
      && data[count..count + 4] == p.directoryCount
      && data[directory..directory + 4] == p.certificates.address
      && data[directory + 4..directory + 8] == p.certificates.size
  {
    Lengths(p);
    Regrouped(p);
    ImageParts(p);
    hide FileHeader, Standard, Early, Late, Magic, Standard1, Late1, FirstDirectories;
    EightParts(FileHeader(p), Magic(p), Standard1(p) + Early(p) + p.checkSum + Late1(p), p.directoryCount,
               FirstDirectories(p), p.certificates.address, p.certificates.size, p.more + p.rest);
  }

  // ---------------------------------------------------------------- every parsed file is an image

  function Slice(data: seq<byte>, low: nat, high: nat): (slice: seq<byte>)
    ensures low <= high <= |data| ==> slice == data[low..high]
  {
    if low <= high <= |data| then data[low..high] else []
  }

  function EntryAt(data: seq<byte>, at: nat): Entry {
    Entry(Slice(data, at, at + 4), Slice(data, at + 4, at + 8))
  }

  /** The fields of a file whose PE header lies at `pe`. */
  function ImageOf(data: seq<byte>, pe: nat, plus: bool, end: nat): Image {
    var o, w := pe + 24, if plus then 8 else 4;
    var first := o + 80 + 4 * w;
    Image(
      Slice(data, 2, 0x3C), Slice(data, 0x40, pe),
      Slice(data, pe + 4, pe + 6), Slice(data, pe + 6, pe + 8), Slice(data, pe + 8, pe + 12),
      Slice(data, pe + 12, pe + 16), Slice(data, pe + 16, pe + 20), Slice(data, pe + 22, pe + 24),
      plus,
      Slice(data, o + 2, o + 4), Slice(data, o + 4, o + 8), Slice(data, o + 8, o + 12), Slice(data, o + 12, o + 16),
      Slice(data, o + 16, o + 20), Slice(data, o + 20, o + 24), Slice(data, o + 24, o + 32 - w),
      Slice(data, o + 32 - w, o + 32), Slice(data, o + 32, o + 36), Slice(data, o + 36, o + 40),
      Slice(data, o + 40, o + 44), Slice(data, o + 44, o + 48), Slice(data, o + 48, o + 52),
      Slice(data, o + 52, o + 56),
      Slice(data, o + 56, o + 60), Slice(data, o + 60, o + 64),
      Slice(data, o + 64, o + 68),
      Slice(data, o + 68, o + 70), Slice(data, o + 70, o + 72),
      Slice(data, o + 72, o + 72 + w), Slice(data, o + 72 + w, o + 72 + 2 * w),
      Slice(data, o + 72 + 2 * w, o + 72 + 3 * w), Slice(data, o + 72 + 3 * w, o + 72 + 4 * w),
      Slice(data, o + 72 + 4 * w, o + 76 + 4 * w), Slice(data, o + 76 + 4 * w, first),
      EntryAt(data, first), EntryAt(data, first + 8), EntryAt(data, first + 16), EntryAt(data, first + 24),
      EntryAt(data, first + 32),
      Slice(data, first + 40, end), Slice(data, end, |data|))
  }

  lemma Two(data: seq<byte>, a: nat, b: nat, c: nat)
    requires a <= b <= c <= |data|
    ensures data[a..b] + data[b..c] == data[a..c]
  {
  }

  lemma Four(data: seq<byte>, a: nat, b: nat, c: nat, d: nat, e: nat)
    requires a <= b <= c <= d <= e <= |data|
    ensures data[a..b] + data[b..c] + data[c..d] + data[d..e] == data[a..e]
  {
    Two(data, a, b, c);
    Two(data, a, c, d);
    Two(data, a, d, e);
  }

  lemma Eight(data: seq<byte>, a: nat, b: nat, c: nat, d: nat, e: nat, f: nat, g: nat, h: nat, i: nat)
    requires a <= b <= c <= d <= e <= f <= g <= h <= i <= |data|
    ensures data[a..b] + data[b..c] + data[c..d] + data[d..e] + data[e..f] + data[f..g] + data[g..h] + data[h..i]
      == data[a..i]
  {
    Two(data, a, b, c);
    Two(data, a, c, d);
    Two(data, a, d, e);
    Two(data, a, e, f);
    Two(data, a, f, g);
    Two(data, a, g, h);
    Two(data, a, h, i);
  }

  /** What the parser checked. */
  ghost predicate Parsed(data: seq<byte>, pe: nat, plus: bool, end: nat) {
    && 0x40 <= pe && pe + 24 <= end <= |data| && end < pe + 24 + 0x1_0000 && pe < 0x1_0000_0000
    && data[..2] == [0x4D, 0x5A] && data[0x3C..0x40] == ToLittleEndian(pe, 4)
    && data[pe..pe + 4] == [0x50, 0x45, 0, 0] && data[pe + 20..pe + 22] == ToLittleEndian(end - pe - 24, 2)
    && pe + 24 + (if plus then 112 else 96) + 40 <= end
    && data[pe + 24..pe + 26] == (if plus then [0x0B, 0x02] else [0x0B, 0x01])
    && LittleEndian(if plus then data[pe + 132..pe + 136] else data[pe + 116..pe + 120]) > 4
  }

  lemma ParsedHeader(data: seq<byte>) returns (pe: nat, plus: bool, end: nat)
    requires ParseLayout(data).Ok?
    ensures Parsed(data, pe, plus, end)
  {
    pe := LittleEndian(data[0x3C..0x40]);
    end := pe + 24 + LittleEndian(data[pe + 20..pe + 22]);
    var magic := data[pe + 24..pe + 26];
    plus := LittleEndian(magic) == 0x20B;
    PowersOf256();
    BytesOfLittleEndian(data[0x3C..0x40]);
    BytesOfLittleEndian(data[pe + 20..pe + 22]);
    BytesOfLittleEndian(magic);
    MagicNumbers();
    hide LittleEndian, ToLittleEndian, Pow256;
  }

  lemma MagicNumbers()
    ensures ToLittleEndian(0x20B, 2) == [0x0B, 0x02] && ToLittleEndian(0x10B, 2) == [0x0B, 0x01]
  {
    assert ToLittleEndian(2, 1) == [2] && ToLittleEndian(1, 1) == [1];
  }

  lemma OptionalHeaderOf(data: seq<byte>, pe: nat, plus: bool, end: nat)
    requires Parsed(data, pe, plus, end)
    ensures OptionalHeader(ImageOf(data, pe, plus, end)) == data[pe + 24..end]
  {
    hide LittleEndian, ToLittleEndian;
    var p, o, w := ImageOf(data, pe, plus, end), pe + 24, if plus then 8 else 4;
    var first := o + 80 + 4 * w;
    Eight(data, o, o + 2, o + 4, o + 8, o + 12, o + 16, o + 20, o + 24, o + 32 - w);
    assert Standard(p) == data[o..o + 32 - w];
    Eight(data, o + 32 - w, o + 32, o + 36, o + 40, o + 44, o + 48, o + 52, o + 56, o + 60);
    assert Early(p) == data[o + 32 - w..o + 60] + data[o + 60..o + 64] == data[o + 32 - w..o + 64];
    Eight(data, o + 68, o + 70, o + 72, o + 72 + w, o + 72 + 2 * w, o + 72 + 3 * w, o + 72 + 4 * w, o + 76 + 4 * w,
          first);
    assert Late(p) == data[o + 68..first];
    EntriesOf(data, first);
    assert FirstDirectories(p) == data[first..first + 32] && EntryBytes(p.certificates) == data[first + 32..first + 40];
    Seven(data, o, o + 32 - w, o + 64, o + 68, first, first + 32, first + 40, end);
    hide ImageOf, Standard, Early, Late, FirstDirectories;
    assert p.checkSum == data[o + 64..o + 68] && p.more == data[first + 40..end] by { Ends(data, pe, plus, end); }
  }

  lemma Ends(data: seq<byte>, pe: nat, plus: bool, end: nat)
    requires Parsed(data, pe, plus, end)
    ensures var p, o := ImageOf(data, pe, plus, end), pe + 24;
      var first := o + if plus then 112 else 96;
      p.checkSum == data[o + 64..o + 68] && p.more == data[first + 40..end] && p.rest == data[end..]
  {
    hide LittleEndian, ToLittleEndian;
    assert data[end..|data|] == data[end..];
    var p, o, w := ImageOf(data, pe, plus, end), pe + 24, if plus then 8 else 4;
    assert p.checkSum == Slice(data, o + 64, o + 68);
    assert p.more == Slice(data, o + 80 + 4 * w + 40, end) && p.rest == Slice(data, end, |data|);
  }

  lemma Seven(data: seq<byte>, a: nat, b: nat, c: nat, d: nat, e: nat, f: nat, g: nat, h: nat)
    requires a <= b <= c <= d <= e <= f <= g <= h <= |data|
    ensures data[a..b] + data[b..c] + data[c..d] + data[d..e] + data[e..f] + data[f..g] + data[g..h] == data[a..h]
  {
    Two(data, a, b, c);
    Two(data, a, c, d);
    Two(data, a, d, e);
    Two(data, a, e, f);
    Two(data, a, f, g);
    Two(data, a, g, h);
  }

  lemma EntriesOf(data: seq<byte>, at: nat)
    requires at + 40 <= |data|
    ensures EntryBytes(EntryAt(data, at)) + EntryBytes(EntryAt(data, at + 8)) + EntryBytes(EntryAt(data, at + 16))
      + EntryBytes(EntryAt(data, at + 24)) == data[at..at + 32]
    ensures EntryBytes(EntryAt(data, at + 32)) == data[at + 32..at + 40]
  {
    forall k: nat | k + 8 <= |data| ensures EntryBytes(EntryAt(data, k)) == data[k..k + 8] {
    }
    hide EntryBytes, EntryAt;
    Four(data, at, at + 8, at + 16, at + 24, at + 32);
  }

  lemma FileHeaderOf(data: seq<byte>, pe: nat, plus: bool, end: nat)
    requires Parsed(data, pe, plus, end)
    ensures FileHeader(ImageOf(data, pe, plus, end)) == data[..pe + 24]
  {
    OptionalHeaderOf(data, pe, plus, end);
    hide LittleEndian, ToLittleEndian, OptionalHeader;
    var p := ImageOf(data, pe, plus, end);
    assert |p.stub| == pe - 0x40;
    Seven(data, 0, 2, 0x3C, 0x40, pe, pe + 4, pe + 6, pe + 8);
    Five(data, 0, pe + 8, pe + 12, pe + 16, pe + 20, pe + 22);
    assert data[..pe + 22] + data[pe + 22..pe + 24] == data[..pe + 24];
  }

  lemma Five(data: seq<byte>, a: nat, b: nat, c: nat, d: nat, e: nat, f: nat)
    requires a <= b <= c <= d <= e <= f <= |data|
    ensures data[a..b] + data[b..c] + data[c..d] + data[d..e] + data[e..f] == data[a..f]
  {
    Two(data, a, b, c);
    Two(data, a, c, d);
    Two(data, a, d, e);
    Two(data, a, e, f);
  }

  /** Every file that the parser accepts is an image, and every image is accepted. */
  lemma ParsedIsImage(data: seq<byte>)
    ensures ParseLayout(data).Ok? <==> exists p :: WellFormed(p) && data == ImageBytes(p)
  {
    if ParseLayout(data).Ok? {
      var p := SomeImage(data);
    }
    if p :| WellFormed(p) && data == ImageBytes(p) {
      LayoutOfImage(p);
    }
  }

  lemma SomeImage(data: seq<byte>) returns (p: Image)
    requires ParseLayout(data).Ok?
    ensures WellFormed(p) && data == ImageBytes(p)
  {
    var pe, plus, end := ParsedHeader(data);
    p := ImageOf(data, pe, plus, end);
    OptionalHeaderOf(data, pe, plus, end);
    FileHeaderOf(data, pe, plus, end);
    Ends(data, pe, plus, end);
    FieldsFit(data, pe, plus, end);
    hide FileHeader, OptionalHeader, ImageOf, LittleEndian, ToLittleEndian;
    assert data == data[..pe + 24] + data[pe + 24..end] + data[end..];
  }

  lemma FieldsFit(data: seq<byte>, pe: nat, plus: bool, end: nat)
    requires Parsed(data, pe, plus, end)
    ensures WellFormed(ImageOf(data, pe, plus, end))
  {
    OptionalHeaderOf(data, pe, plus, end);
    hide LittleEndian, ToLittleEndian, OptionalHeader;
  }

  // ---------------------------------------------------------------- the check, on images

  ghost predicate IsUnsigned(p: Image) {
    WellFormed(p) && p.certificates == Entry([0, 0, 0, 0], [0, 0, 0, 0])
  }

  /** The image with another checksum and certificate entry, padded, and the certificate table. */
  function SignedImage(p: Image, e: Envelope): seq<byte> {
    var size := |ImageBytes(p)|;
    ImageBytes(p.(checkSum := e.checksum, certificates := SignedEntry(size, e))) + Zeros(Align8(size) - size)
      + WinCertificate(e)
  }

  function SignedEntry(size: nat, e: Envelope): Entry {
    Entry(ToLittleEndian(Align8(size), 4), ToLittleEndian(TableSize(e), 4))
  }

  lemma HeaderOfImage(p: Image, e: Envelope)
    requires WellFormed(p) && |e.checksum| == 4
    ensures ParseLayout(ImageBytes(p)).Ok?
    ensures var data, l := ImageBytes(p), ParseLayout(ImageBytes(p)).value;
      && l.checksum + 4 <= l.directory && l.directory + 8 <= |data|
      && SignedImage(p, e) == Attach(data, l, e)
  {
    var data := ImageBytes(p);
    var q := p.(checkSum := e.checksum, certificates := SignedEntry(|data|, e));
    LayoutOfImage(p);
    LayoutFits(data);
    OtherFields(p, q);
    var l := ParseLayout(data).value;
    hide ParseLayout, ImageBytes, WellFormed, WinCertificate, Align8, ToLittleEndian, BeforeCheckSum,
      BeforeCertificates;
    assert Directory(data, e) == EntryBytes(q.certificates);
  }

  /** Two images that differ in the checksum and the certificate entry alone differ in those
      bytes alone. */
  lemma OtherFields(p: Image, q: Image)
    requires WellFormed(p) && q == p.(checkSum := q.checkSum, certificates := q.certificates)
    requires |q.checkSum| == 4 && IsEntry(q.certificates)
    ensures var a, b, c, d := ImageBytes(p), ImageBytes(q), |BeforeCheckSum(p)|, |BeforeCertificates(p)|;
      && |a| == |b| && c + 4 <= d && d + 8 <= |a|
      && b == Replaced(Replaced(a, c, q.checkSum), d, EntryBytes(q.certificates))
  {
    Lengths(p);
    SameHeader(p, q);
    var x, y, z := BeforeCheckSum(p), Late(p) + FirstDirectories(p), p.more + p.rest;
    FiveParts(p);
    FiveParts(q);
    hide FileHeader, Standard, Early, Late, FirstDirectories, BeforeCheckSum, BeforeCertificates, ImageBytes;
    SwapTwo(x, p.checkSum, q.checkSum, y, EntryBytes(p.certificates), EntryBytes(q.certificates), z);
  }

  lemma SameHeader(p: Image, q: Image)
    requires WellFormed(p) && q == p.(checkSum := q.checkSum, certificates := q.certificates)
    requires |q.checkSum| == 4 && IsEntry(q.certificates)
    ensures FileHeader(q) == FileHeader(p) && BeforeCheckSum(q) == BeforeCheckSum(p)
    ensures Late(q) == Late(p) && FirstDirectories(q) == FirstDirectories(p)
  {
    hide ToLittleEndian, LittleEndian;
    assert |OptionalHeader(q)| == |OptionalHeader(p)|;
  }

  lemma FiveParts(p: Image)
    ensures ImageBytes(p)
      == BeforeCheckSum(p) + p.checkSum + (Late(p) + FirstDirectories(p)) + EntryBytes(p.certificates)
        + (p.more + p.rest)
    ensures BeforeCertificates(p) == BeforeCheckSum(p) + p.checkSum + (Late(p) + FirstDirectories(p))
  {
    hide FileHeader, Standard, Early, Late, FirstDirectories, EntryBytes;
  }

  lemma SwapTwo(x: seq<byte>, s: seq<byte>, s': seq<byte>, y: seq<byte>, t: seq<byte>, t': seq<byte>, z: seq<byte>)
    requires |s| == |s'| && |t| == |t'|
    ensures x + s' + y + t' + z == Replaced(Replaced(x + s + y + t + z, |x|, s'), |x + s + y|, t')
  {
  }

  ghost predicate IsSignedImage(unsigned: seq<byte>, signed: seq<byte>, p: Image, e: Envelope) {
    IsUnsigned(p) && unsigned == ImageBytes(p) && Permitted(unsigned, e) && signed == SignedImage(p, e)
  }

  lemma AttachedIsSignedImage(unsigned: seq<byte>, signed: seq<byte>, p: Image, e: Envelope)
    requires WellFormed(p) && unsigned == ImageBytes(p)
    ensures IsAttached(unsigned, signed, e) <==> IsSignedImage(unsigned, signed, p, e)
  {
    LayoutOfImage(p);
    ZeroEntry(p);
    if |e.checksum| == 4 {
      HeaderOfImage(p, e);
    }
    hide ParseLayout, ImageBytes, WellFormed, Attach, SignedImage, LittleEndian, DerLength.DerObjectLength, TableSize,
      BeforeCheckSum, BeforeCertificates;
  }

  lemma IsAttachedIsParsed(unsigned: seq<byte>, signed: seq<byte>)
    ensures forall e :: IsAttached(unsigned, signed, e) ==> ParseLayout(unsigned).Ok?
  {
    hide ParseLayout;
  }

  lemma SignedImageIsImage(unsigned: seq<byte>, signed: seq<byte>, p: Image, e: Envelope)
    requires IsSignedImage(unsigned, signed, p, e)
    ensures WellFormed(p) && unsigned == ImageBytes(p)
  {
    hide WellFormed, ImageBytes, SignedImage;
  }

  /** The whole check, without any offset: the verifier accepts exactly an unsigned image and the
      same image with another checksum and certificate entry, padded and followed by one
      certificate. */
  lemma AcceptsExactlySignedImages(unsigned: seq<byte>, signed: seq<byte>)
    ensures Verify(unsigned, signed).Ok? <==> exists p, e :: IsSignedImage(unsigned, signed, p, e)
  {
    AcceptsExactlyTheEnvelope(unsigned, signed);
    IsAttachedIsParsed(unsigned, signed);
    hide *;
    if e :| IsAttached(unsigned, signed, e) {
      var p := SomeImage(unsigned);
      AttachedIsSignedImage(unsigned, signed, p, e);
    }
    if p, e :| IsSignedImage(unsigned, signed, p, e) {
      SignedImageIsImage(unsigned, signed, p, e);
      AttachedIsSignedImage(unsigned, signed, p, e);
    }
  }

  lemma ZeroEntry(p: Image)
    requires WellFormed(p)
    ensures LittleEndian(p.certificates.address) == 0 && LittleEndian(p.certificates.size) == 0 <==>
      p.certificates == Entry([0, 0, 0, 0], [0, 0, 0, 0])
  {
    FourZeros(p.certificates.address);
    FourZeros(p.certificates.size);
  }

  lemma FourZeros(bytes: seq<byte>)
    requires |bytes| == 4
    ensures LittleEndian(bytes) == 0 <==> bytes == [0, 0, 0, 0]
  {
    BytesOfLittleEndian(bytes);
    BytesOfLittleEndian([0, 0, 0, 0]);
    assert LittleEndian([0, 0, 0, 0]) == 0 by {
      assert [0 as byte, 0, 0, 0][1..] == [0, 0, 0] && [0 as byte, 0, 0][1..] == [0, 0] && [0 as byte, 0][1..] == [0];
    }
  }
}
