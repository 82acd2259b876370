/** The Authenticode payload check (`tools/verify_authenticode_payload.py`): a signed PE file
    is the unsigned file plus a permitted envelope (Microsoft PE Format, "Optional Header
    Windows-Specific Fields" and "The Attribute Certificate Table"). */
module Authenticode {
  import opened Bytes
  import opened Wrappers
  import DerLength

  datatype Layout = Layout(checksum: nat, directory: nat, certificate: nat, size: nat)

  datatype PayloadError =
    | TruncatedHeader | NotDos | BadPeOffset | NoPeSignature | TruncatedOptionalHeader | UnsupportedMagic
    | NoCertificateDirectory | DirectoryOutside | PrefixTooLong | FieldOutsidePrefix | EmptyInput | LayoutChanged
    | AlreadySigned | NotAdjacent | NotAligned | TrailingData | NonZeroGap | PrefixChanged | BadWinCertificate
    | BadDer(der: DerLength.DerError) | BytesOutsideDer | NonZeroPadding

  // ---------------------------------------------------------------- the verifier

  function U16(data: seq<byte>, offset: nat): Result<nat, PayloadError> {
    if offset + 2 > |data| then Err(TruncatedHeader) else Ok(LittleEndian(data[offset..offset + 2]))
  }

  function U32(data: seq<byte>, offset: nat): Result<nat, PayloadError> {
    if offset + 4 > |data| then Err(TruncatedHeader) else Ok(LittleEndian(data[offset..offset + 4]))
  }

  /** Where the fields of an optional header of this magic number lie, from its start:
      the directory count and the first data directory. */
  function DirectoriesAt(magic: nat): Option<(nat, nat)> {
    if magic == 0x10B then Some((92, 96))
    else if magic == 0x20B then Some((108, 112))
    else None
  }

  function ParseLayout(data: seq<byte>): Result<Layout, PayloadError> {
    if |data| < 0x40 || data[..2] != [0x4D, 0x5A] then Err(NotDos) else
    var pe := LittleEndian(data[0x3C..0x40]);
    if pe < 0x40 || pe + 24 > |data| then Err(BadPeOffset) else
    if data[pe..pe + 4] != [0x50, 0x45, 0, 0] then Err(NoPeSignature) else
    var optional := pe + 24;
    var end := optional + LittleEndian(data[pe + 20..pe + 22]);
    if end > |data| then Err(TruncatedOptionalHeader) else
    var magic := U16(data, optional);
    if magic.Err? then Err(magic.error) else
    match DirectoriesAt(magic.value)
    case None => Err(UnsupportedMagic)
    case Some((countAt, firstAt)) =>
      var count := U32(data, optional + countAt);
      if count.Err? then Err(count.error) else
      if count.value <= 4 then Err(NoCertificateDirectory) else
      var directory := optional + firstAt + 4 * 8;
      if directory + 8 > end then Err(DirectoryOutside) else
      Ok(Layout(optional + 64, directory, LittleEndian(data[directory..directory + 4]),
                LittleEndian(data[directory + 4..directory + 8])))
  }

  function Zeroed(data: seq<byte>, offset: nat, size: nat): (zeroed: seq<byte>)
    requires offset + size <= |data|
    ensures |zeroed| == |data|
    ensures forall i :: 0 <= i < |data| ==> zeroed[i] == if offset <= i < offset + size then 0 else data[i]
  {
    data[..offset] + Zeros(size) + data[offset + size..]
  }

  function NormalizedPrefix(data: seq<byte>, layout: Layout, length: nat): Result<seq<byte>, PayloadError> {
    if length > |data| then Err(PrefixTooLong)
    else if layout.checksum + 4 > length || layout.directory + 8 > length then Err(FieldOutsidePrefix)
    else Ok(Zeroed(Zeroed(data[..length], layout.checksum, 4), layout.directory, 8))
  }

  /** The loop over the two mutable fields, on a copy of the prefix. */
  method NormalizePrefix(data: seq<byte>, layout: Layout, length: nat) returns (result: Result<seq<byte>, PayloadError>)
    ensures result == NormalizedPrefix(data, layout, length)
  {
    if length > |data| {
      return Err(PrefixTooLong);
    }
    var normalized := new byte[length](i requires 0 <= i < length => data[i]);
    assert normalized[..] == data[..length];
    var fields := [(layout.checksum, 4), (layout.directory, 8)];
    for k := 0 to |fields|
      invariant k >= 1 ==> layout.checksum + 4 <= length
      invariant k >= 2 ==> layout.directory + 8 <= length
      invariant normalized[..] ==
        if k == 0 then data[..length]
        else if k == 1 then Zeroed(data[..length], layout.checksum, 4)
        else Zeroed(Zeroed(data[..length], layout.checksum, 4), layout.directory, 8)
    {
      var (offset, size) := fields[k];
      if offset + size > length {
        return Err(FieldOutsidePrefix);
      }
      ghost var before := normalized[..];
      forall i | offset <= i < offset + size {
        normalized[i] := 0;
      }
      assert normalized[..] == Zeroed(before, offset, size);
    }
    result := Ok(normalized[..]);
  }

  function Align8(n: nat): (aligned: nat)
    ensures n <= aligned < n + 8 && aligned % 8 == 0
  {
    (n + 7) / 8 * 8
  }

  predicate AllZero(data: seq<byte>) {
    forall i :: 0 <= i < |data| ==> data[i] == 0
  }

  /** The first half of the check: the layout and everything before the certificate table. */
  function CheckPayload(unsigned: seq<byte>, signed: seq<byte>): Result<Layout, PayloadError> {
    if unsigned == [] || signed == [] then Err(EmptyInput) else
    var before := ParseLayout(unsigned);
    if before.Err? then Err(before.error) else
    var after := ParseLayout(signed);
    if after.Err? then Err(after.error) else
    var u, s := before.value, after.value;
    if u.checksum != s.checksum || u.directory != s.directory then Err(LayoutChanged)
    else if u.certificate != 0 || u.size != 0 then Err(AlreadySigned)
    else if s.certificate != Align8(|unsigned|) then Err(NotAdjacent)
    else if s.certificate % 8 != 0 || s.size < 8 || s.size % 8 != 0 then Err(NotAligned)
    else if s.certificate + s.size != |signed| then Err(TrailingData)
    else if !AllZero(signed[|unsigned|..s.certificate]) then Err(NonZeroGap)
    else
      var plain := NormalizedPrefix(unsigned, u, |unsigned|);
      if plain.Err? then Err(plain.error) else
      var stripped := NormalizedPrefix(signed, s, |unsigned|);
      if stripped.Err? then Err(stripped.error) else
      if plain.value != stripped.value then Err(PrefixChanged) else Ok(s)
  }

  /** The second half: one WIN_CERTIFICATE that holds one DER object. */
  function CheckCertificate(signed: seq<byte>, offset: nat): Result<(), PayloadError>
    requires offset + 8 <= |signed|
  {
    var end := |signed|;
    var length := LittleEndian(signed[offset..offset + 4]);
    var revision := LittleEndian(signed[offset + 4..offset + 6]);
    var kind := LittleEndian(signed[offset + 6..offset + 8]);
    if length <= 8 || Align8(offset + length) != end || revision != 0x0200 || kind != 0x0002 then Err(BadWinCertificate)
    else
      var der := DerLength.DerObjectLength(signed[offset + 8..offset + length]);
      if der.Err? then Err(BadDer(der.error)) else
      var derEnd := offset + 8 + der.value;
      if Align8(derEnd) != end || offset + length < derEnd then Err(BytesOutsideDer)
      else if !AllZero(signed[derEnd..]) then Err(NonZeroPadding)
      else Ok(())
  }

  function Verify(unsigned: seq<byte>, signed: seq<byte>): Result<(), PayloadError> {
    var payload := CheckPayload(unsigned, signed);
    if payload.Err? then Err(payload.error) else CheckCertificate(signed, payload.value.certificate)
  }

  // ---------------------------------------------------------------- what may differ

  predicate Mutable(layout: Layout, i: nat) {
    layout.checksum <= i < layout.checksum + 4 || layout.directory <= i < layout.directory + 8
  }

  /** `v` begins like `u` except in the two mutable fields. */
  ghost predicate SameButMutable(u: seq<byte>, v: seq<byte>, layout: Layout) {
    |u| <= |v| && forall i :: 0 <= i < |u| && !Mutable(layout, i) ==> v[i] == u[i]
  }

  lemma LayoutFits(data: seq<byte>)
    requires ParseLayout(data).Ok?
    ensures var l := ParseLayout(data).value;
      0x40 + 24 + 64 <= l.checksum && l.checksum + 4 <= l.directory && l.directory + 8 <= |data|
  {
  }

  lemma SameSlice(u: seq<byte>, v: seq<byte>, layout: Layout, low: nat, high: nat)
    requires SameButMutable(u, v, layout) && low <= high <= |u|
    requires high <= layout.checksum || (layout.checksum + 4 <= low && high <= layout.directory)
    requires layout.checksum + 4 <= layout.directory
    ensures u[low..high] == v[low..high]
  {
    forall i | low <= i < high ensures u[i] == v[i] {
      assert !Mutable(layout, i);
    }
  }

  /** Rewriting the mutable fields, or appending, never changes where the fields are. */
  lemma LayoutIgnoresMutableFields(u: seq<byte>, v: seq<byte>)
    requires ParseLayout(u).Ok? && SameButMutable(u, v, ParseLayout(u).value)
    ensures var l := ParseLayout(u).value;
            && l.directory + 8 <= |v|
            && ParseLayout(v) == Ok(Layout(l.checksum, l.directory, LittleEndian(v[l.directory..l.directory + 4]),
                                           LittleEndian(v[l.directory + 4..l.directory + 8])))
  {
    LayoutFits(u);
    var l := ParseLayout(u).value;
    var optional := l.checksum - 64;
    var pe := optional - 24;
    SameSlice(u, v, l, 0, 2);
    SameSlice(u, v, l, 0x3C, 0x40);
    SameSlice(u, v, l, pe, pe + 4);
    SameSlice(u, v, l, pe + 20, pe + 22);
    SameSlice(u, v, l, optional, optional + 2);
    var (countAt, firstAt) := DirectoriesAt(U16(u, optional).value).value;
    SameSlice(u, v, l, optional + countAt, optional + countAt + 4);
  }

  lemma NormalizedAgree(u: seq<byte>, v: seq<byte>, layout: Layout, layout': Layout)
    requires |u| <= |v| && layout.checksum + 4 <= |u| && layout.directory + 8 <= |u|
    requires layout'.checksum == layout.checksum && layout'.directory == layout.directory
    ensures NormalizedPrefix(u, layout, |u|).Ok? && NormalizedPrefix(v, layout', |u|).Ok?
    ensures NormalizedPrefix(u, layout, |u|).value == NormalizedPrefix(v, layout', |u|).value <==>
      SameButMutable(u, v, layout)
  {
    var a, b := NormalizedPrefix(u, layout, |u|).value, NormalizedPrefix(v, layout', |u|).value;
    assert forall i :: 0 <= i < |u| ==> a[i] == if Mutable(layout, i) then 0 else u[i];
    assert forall i :: 0 <= i < |u| ==> b[i] == if Mutable(layout, i) then 0 else v[i];
    if a == b {
      forall i | 0 <= i < |u| && !Mutable(layout, i) ensures v[i] == u[i] {
        assert a[i] == b[i];
      }
    }
  }

  /** The verifier can therefore never report that a normalized prefix is too long or that a
      mutable field lies outside it. */
  lemma RangeErrorsAreUnreachable(unsigned: seq<byte>, signed: seq<byte>)
    ensures Verify(unsigned, signed) != Err(PrefixTooLong)
    ensures Verify(unsigned, signed) != Err(FieldOutsidePrefix)
  {
    if ParseLayout(unsigned).Ok? {
      LayoutFits(unsigned);
    }
    hide ParseLayout, Align8, LittleEndian, AllZero, Zeroed, DerLength.DerObjectLength;
  }

  // ---------------------------------------------------------------- the permitted envelope

  /** A new checksum, the WIN_CERTIFICATE's own length, and its DER object. */
  datatype Envelope = Envelope(checksum: seq<byte>, length: nat, der: seq<byte>)

  function TableSize(e: Envelope): nat {
    Align8(8 + |e.der|)
  }

  ghost predicate Permitted(unsigned: seq<byte>, e: Envelope) {
    && |e.checksum| == 4
    && DerLength.DerObjectLength(e.der) == Ok(|e.der|)
    && 8 + |e.der| <= e.length <= TableSize(e)
    && Align8(|unsigned|) < 0x1_0000_0000 && TableSize(e) < 0x1_0000_0000
  }

  ghost predicate Unsigned(data: seq<byte>) {
    ParseLayout(data).Ok? && ParseLayout(data).value.certificate == 0 && ParseLayout(data).value.size == 0
  }

  function Replaced(data: seq<byte>, offset: nat, field: seq<byte>): (r: seq<byte>)
    requires offset + |field| <= |data|
    ensures |r| == |data|
    ensures forall i :: 0 <= i < |data| ==>
      r[i] == if offset <= i < offset + |field| then field[i - offset] else data[i]
  {
    data[..offset] + field + data[offset + |field|..]
  }

  function Directory(unsigned: seq<byte>, e: Envelope): (d: seq<byte>)
    ensures |d| == 8
  {
    ToLittleEndian(Align8(|unsigned|), 4) + ToLittleEndian(TableSize(e), 4)
  }

  function Header(unsigned: seq<byte>, layout: Layout, e: Envelope): (h: seq<byte>)
    requires |e.checksum| == 4 && layout.checksum + 4 <= |unsigned| && layout.directory + 8 <= |unsigned|
    ensures |h| == |unsigned|
  {
    Replaced(Replaced(unsigned, layout.checksum, e.checksum), layout.directory, Directory(unsigned, e))
  }

  /** One WIN_CERTIFICATE of revision 2.0 that holds PKCS#7 signed data. */
  function WinCertificate(e: Envelope): (c: seq<byte>)
    ensures |c| == TableSize(e)
  {
    ToLittleEndian(e.length, 4) + ToLittleEndian(0x0200, 2) + ToLittleEndian(0x0002, 2) + e.der
    + Zeros(TableSize(e) - 8 - |e.der|)
  }

  /** The unsigned file with the envelope attached as the format prescribes. */
  function Attach(unsigned: seq<byte>, layout: Layout, e: Envelope): (signed: seq<byte>)
    requires |e.checksum| == 4 && layout.checksum + 4 <= |unsigned| && layout.directory + 8 <= |unsigned|
    ensures |signed| == Align8(|unsigned|) + TableSize(e)
  {
    Header(unsigned, layout, e) + Zeros(Align8(|unsigned|) - |unsigned|) + WinCertificate(e)
  }

  ghost predicate IsAttached(unsigned: seq<byte>, signed: seq<byte>, e: Envelope) {
    Unsigned(unsigned) && Permitted(unsigned, e)
    && (LayoutFits(unsigned); signed == Attach(unsigned, ParseLayout(unsigned).value, e))
  }

  // ---------------------------------------------------------------- completeness

  lemma AttachedHeader(unsigned: seq<byte>, signed: seq<byte>, e: Envelope)
    requires IsAttached(unsigned, signed, e)
    ensures var l := ParseLayout(unsigned).value;
            && SameButMutable(unsigned, signed, l)
            && ParseLayout(signed) == Ok(Layout(l.checksum, l.directory, Align8(|unsigned|), TableSize(e)))
  {
    LayoutFits(unsigned);
    var l := ParseLayout(unsigned).value;
    hide ParseLayout, WinCertificate, Align8, LittleEndian, ToLittleEndian;
    var h := Header(unsigned, l, e);
    assert signed[..|unsigned|] == h;
    forall i | 0 <= i < |unsigned| && !Mutable(l, i) ensures signed[i] == unsigned[i] {
      assert signed[i] == h[i];
    }
    LayoutIgnoresMutableFields(unsigned, signed);
    PowersOf256();
    LittleEndianOfBytes(Align8(|unsigned|), 4);
    LittleEndianOfBytes(TableSize(e), 4);
    assert signed[l.directory..l.directory + 4] == ToLittleEndian(Align8(|unsigned|), 4);
    assert signed[l.directory + 4..l.directory + 8] == ToLittleEndian(TableSize(e), 4);
  }

  lemma AttachedPayloadIsAccepted(unsigned: seq<byte>, signed: seq<byte>, e: Envelope)
    requires IsAttached(unsigned, signed, e)
    ensures CheckPayload(unsigned, signed).Ok? && CheckPayload(unsigned, signed).value.certificate == Align8(|unsigned|)
  {
    LayoutFits(unsigned);
    var l := ParseLayout(unsigned).value;
    AttachedHeader(unsigned, signed, e);
    NormalizedAgree(unsigned, signed, l, ParseLayout(signed).value);
    assert signed[|unsigned|..Align8(|unsigned|)] == Zeros(Align8(|unsigned|) - |unsigned|);
  }

  lemma SubSlice(data: seq<byte>, offset: nat, low: nat, high: nat)
    requires low <= high && offset + high <= |data|
    ensures data[offset..][low..high] == data[offset + low..offset + high]
  {
  }

  lemma AlignShift(offset: nat, n: nat)
    requires offset % 8 == 0
    ensures Align8(offset + n) == offset + Align8(n)
  {
  }

  lemma AlignBetween(a: nat, b: nat)
    requires a <= b <= Align8(a)
    ensures Align8(b) == Align8(a)
  {
  }

  lemma CertificateParts(e: Envelope)
    requires 8 + |e.der| <= e.length <= TableSize(e) < 0x1_0000_0000
    ensures var c := WinCertificate(e);
            && LittleEndian(c[..4]) == e.length && LittleEndian(c[4..6]) == 0x0200 && LittleEndian(c[6..8]) == 0x0002
            && c[8..8 + |e.der|] == e.der && AllZero(c[8 + |e.der|..])
  {
    PowersOf256();
    LittleEndianOfBytes(e.length, 4);
    LittleEndianOfBytes(0x0200, 2);
    LittleEndianOfBytes(0x0002, 2);
    var c := WinCertificate(e);
    assert c[..4] == ToLittleEndian(e.length, 4);
    assert c[4..6] == ToLittleEndian(0x0200, 2);
    assert c[6..8] == ToLittleEndian(0x0002, 2);
    assert c[8..8 + |e.der|] == e.der;
    assert c[8 + |e.der|..] == Zeros(TableSize(e) - 8 - |e.der|);
  }

  /** The parts of the table that starts at `offset` are those of `e`. */
  ghost predicate HasParts(signed: seq<byte>, offset: nat, e: Envelope) {
    && offset + 8 + |e.der| <= |signed|
    && LittleEndian(signed[offset..offset + 4]) == e.length
    && LittleEndian(signed[offset + 4..offset + 6]) == 0x0200
    && LittleEndian(signed[offset + 6..offset + 8]) == 0x0002
    && signed[offset + 8..offset + 8 + |e.der|] == e.der
    && AllZero(signed[offset + 8 + |e.der|..])
  }

  lemma AttachedParts(signed: seq<byte>, offset: nat, e: Envelope)
    requires offset <= |signed| && signed[offset..] == WinCertificate(e)
    requires 8 + |e.der| <= e.length <= TableSize(e) < 0x1_0000_0000
    ensures HasParts(signed, offset, e)
  {
    CertificateParts(e);
    hide WinCertificate, LittleEndian;
    var size := |signed| - offset;
    SubSlice(signed, offset, 0, 4);
    SubSlice(signed, offset, 4, 6);
    SubSlice(signed, offset, 6, 8);
    SubSlice(signed, offset, 8, 8 + |e.der|);
    SubSlice(signed, offset, 8 + |e.der|, size);
    assert signed[offset..][8 + |e.der|..size] == signed[offset..][8 + |e.der|..];
    assert signed[offset + 8 + |e.der|..offset + size] == signed[offset + 8 + |e.der|..];
  }

  lemma PartsAreAccepted(signed: seq<byte>, offset: nat, e: Envelope)
    requires offset % 8 == 0 && |signed| == offset + TableSize(e) && HasParts(signed, offset, e)
    requires DerLength.DerObjectLength(e.der) == Ok(|e.der|) && 8 + |e.der| <= e.length <= TableSize(e)
    ensures CheckCertificate(signed, offset) == Ok(())
  {
    AlignShift(offset, e.length);
    AlignShift(offset, 8 + |e.der|);
    AlignBetween(8 + |e.der|, e.length);
    hide Align8, DerLength.DerObjectLength, LittleEndian, AllZero;
    var inner := signed[offset + 8..offset + e.length];
    assert inner[..|e.der|] == signed[offset + 8..offset + 8 + |e.der|];
    DerLength.ObjectAlone(inner, |e.der|);
  }

  // ---------------------------------------------------------------- soundness

  /** The certificate of an accepted table, cut into its parts. */
  lemma AcceptedCertificate(signed: seq<byte>, offset: nat, checksum: seq<byte>) returns (e: Envelope)
    requires offset % 8 == 0 && offset + 8 <= |signed| && CheckCertificate(signed, offset).Ok?
    ensures e.checksum == checksum && DerLength.DerObjectLength(e.der) == Ok(|e.der|)
    ensures 8 + |e.der| <= e.length <= TableSize(e) && |signed| == offset + TableSize(e)
    ensures signed[offset..] == WinCertificate(e)
  {
    hide WinCertificate, Align8, DerLength.DerObjectLength, LittleEndian, AllZero;
    var length := LittleEndian(signed[offset..offset + 4]);
    var inner := signed[offset + 8..offset + length];
    var size := DerLength.DerObjectLength(inner).value;
    DerLength.ObjectAlone(inner, size);
    AlignShift(offset, 8 + size);
    e := Envelope(checksum, length, inner[..size]);
    RebuildCertificate(signed, offset, e);
  }

  lemma RebuildCertificate(signed: seq<byte>, offset: nat, e: Envelope)
    requires offset % 8 == 0 && |signed| == offset + TableSize(e) && HasParts(signed, offset, e)
    ensures signed[offset..] == WinCertificate(e)
  {
    BytesOfLittleEndian(signed[offset..offset + 4]);
    BytesOfLittleEndian(signed[offset + 4..offset + 6]);
    BytesOfLittleEndian(signed[offset + 6..offset + 8]);
    var zeros := signed[offset + 8 + |e.der|..];
    assert zeros == Zeros(|zeros|);
    assert signed[offset..] == signed[offset..offset + 4] + signed[offset + 4..offset + 6]
      + signed[offset + 6..offset + 8]
      + signed[offset + 8..offset + 8 + |e.der|] + zeros;
  }

  lemma RebuildHeader(unsigned: seq<byte>, signed: seq<byte>, l: Layout, e: Envelope)
    requires SameButMutable(unsigned, signed, l) && l.checksum + 4 <= l.directory && l.directory + 8 <= |unsigned|
    requires e.checksum == signed[l.checksum..l.checksum + 4]
    requires LittleEndian(signed[l.directory..l.directory + 4]) == Align8(|unsigned|)
    requires LittleEndian(signed[l.directory + 4..l.directory + 8]) == TableSize(e)
    ensures signed[..|unsigned|] == Header(unsigned, l, e)
  {
    BytesOfLittleEndian(signed[l.directory..l.directory + 4]);
    BytesOfLittleEndian(signed[l.directory + 4..l.directory + 8]);
    assert Directory(unsigned, e) == signed[l.directory..l.directory + 8];
    var h := Header(unsigned, l, e);
    forall i | 0 <= i < |unsigned| ensures signed[i] == h[i] {
      if !Mutable(l, i) {
        assert signed[i] == unsigned[i];
      }
    }
  }

  /** An accepted signed file is the unsigned file with a permitted envelope. */
  lemma AcceptedIsAttached(unsigned: seq<byte>, signed: seq<byte>) returns (e: Envelope)
    requires Verify(unsigned, signed).Ok?
    ensures IsAttached(unsigned, signed, e)
  {
    hide CheckCertificate, ParseLayout, Align8, Attach, Header, WinCertificate;
    AcceptedHeader(unsigned, signed);
    var l := ParseLayout(unsigned).value;
    var offset := Align8(|unsigned|);
    e := AcceptedCertificate(signed, offset, signed[l.checksum..l.checksum + 4]);
    RebuildHeader(unsigned, signed, l, e);
    Reassemble(unsigned, signed, l, e);
  }

  lemma AcceptedHeader(unsigned: seq<byte>, signed: seq<byte>)
    requires CheckPayload(unsigned, signed).Ok?
    ensures Unsigned(unsigned)
    ensures var l := ParseLayout(unsigned).value;
            && SameButMutable(unsigned, signed, l) && l.checksum + 4 <= l.directory && l.directory + 8 <= |unsigned|
            && CheckPayload(unsigned, signed).value.certificate == Align8(|unsigned|) <= |signed|
            && LittleEndian(signed[l.directory..l.directory + 4]) == Align8(|unsigned|) < 0x1_0000_0000
            && Align8(|unsigned|) + LittleEndian(signed[l.directory + 4..l.directory + 8]) == |signed|
            && LittleEndian(signed[l.directory + 4..l.directory + 8]) < 0x1_0000_0000
            && AllZero(signed[|unsigned|..Align8(|unsigned|)])
  {
    hide Align8;
    LayoutFits(unsigned);
    var l := ParseLayout(unsigned).value;
    NormalizedAgree(unsigned, signed, l, ParseLayout(signed).value);
    LayoutIgnoresMutableFields(unsigned, signed);
    BytesOfLittleEndian(signed[l.directory..l.directory + 4]);
    BytesOfLittleEndian(signed[l.directory + 4..l.directory + 8]);
    PowersOf256();
  }

  lemma Reassemble(unsigned: seq<byte>, signed: seq<byte>, l: Layout, e: Envelope)
    requires |e.checksum| == 4 && l.checksum + 4 <= |unsigned| && l.directory + 8 <= |unsigned|
    requires |unsigned| <= Align8(|unsigned|) <= |signed| && signed[..|unsigned|] == Header(unsigned, l, e)
    requires AllZero(signed[|unsigned|..Align8(|unsigned|)]) && signed[Align8(|unsigned|)..] == WinCertificate(e)
    ensures signed == Attach(unsigned, l, e)
  {
    var gap := signed[|unsigned|..Align8(|unsigned|)];
    assert gap == Zeros(|gap|);
    assert signed == signed[..|unsigned|] + gap + signed[Align8(|unsigned|)..];
  }

  /** The verifier accepts exactly the unsigned file with a permitted envelope attached. */
  lemma AcceptsExactlyTheEnvelope(unsigned: seq<byte>, signed: seq<byte>)
    ensures Verify(unsigned, signed).Ok? <==> exists e :: IsAttached(unsigned, signed, e)
  {
    if Verify(unsigned, signed).Ok? {
      var e := AcceptedIsAttached(unsigned, signed);
    }
    if e :| IsAttached(unsigned, signed, e) {
      AttachedIsAccepted(unsigned, signed, e);
    }
  }

  /** Every permitted envelope is accepted. */
  lemma AttachedIsAccepted(unsigned: seq<byte>, signed: seq<byte>, e: Envelope)
    requires IsAttached(unsigned, signed, e)
    ensures Verify(unsigned, signed).Ok?
  {
    LayoutFits(unsigned);
    AttachedPayloadIsAccepted(unsigned, signed, e);
    hide ParseLayout, CheckPayload, CheckCertificate;
    assert signed[Align8(|unsigned|)..] == WinCertificate(e);
    AttachedParts(signed, Align8(|unsigned|), e);
    PartsAreAccepted(signed, Align8(|unsigned|), e);
  }

  // ---------------------------------------------------------------- uniqueness

  /** The part of a file that signing must keep, padded to the start of the table. */
  function Kept(data: seq<byte>): seq<byte>
    requires ParseLayout(data).Ok?
  {
    LayoutFits(data);
    NormalizedPrefix(data, ParseLayout(data).value, |data|).value + Zeros(Align8(|data|) - |data|)
  }

  lemma KeptIsSigned(unsigned: seq<byte>, signed: seq<byte>)
    requires Verify(unsigned, signed).Ok?
    ensures ParseLayout(unsigned).Ok? && ParseLayout(signed).Ok? && ParseLayout(signed).value.certificate <= |signed|
    ensures var l := ParseLayout(signed).value;
            && NormalizedPrefix(signed, l, l.certificate).Ok?
            && Kept(unsigned) == NormalizedPrefix(signed, l, l.certificate).value
  {
    LayoutFits(unsigned);
    var u, l := ParseLayout(unsigned).value, ParseLayout(signed).value;
    NormalizedAgree(unsigned, signed, u, l);
    var kept, whole := Kept(unsigned), NormalizedPrefix(signed, l, l.certificate).value;
    var plain := NormalizedPrefix(unsigned, u, |unsigned|).value;
    var gap := signed[|unsigned|..l.certificate];
    forall i | 0 <= i < l.certificate ensures kept[i] == whole[i] {
      if i < |unsigned| {
        assert kept[i] == plain[i];
        assert plain[i] == if Mutable(u, i) then 0 else unsigned[i];
        assert Mutable(u, i) || signed[i] == unsigned[i];
      } else {
        assert gap[i - |unsigned|] == 0;
      }
    }
  }

  /** A signed file vouches for one payload only. */
  lemma PayloadIsUnique(unsigned: seq<byte>, unsigned': seq<byte>, signed: seq<byte>)
    requires Verify(unsigned, signed).Ok? && Verify(unsigned', signed).Ok?
    ensures ParseLayout(unsigned).Ok? && ParseLayout(unsigned').Ok? && Kept(unsigned) == Kept(unsigned')
  {
    KeptIsSigned(unsigned, signed);
    KeptIsSigned(unsigned', signed);
  }
}
