/** The size of one canonical definite-length DER SEQUENCE
    (`tools/verify_authenticode_payload.py`, `_der_object_length`). */
module DerLength {
  import opened Bytes
  import opened Wrappers

  datatype DerError = NotSequence | InvalidLength | NotCanonical | Truncated

  function DerObjectLength(data: seq<byte>): (size: Result<nat, DerError>)
    ensures size.Ok? ==> 2 <= size.value <= |data|
  {
    if |data| < 2 || data[0] != 0x30 then Err(NotSequence)
    else if data[1] < 0x80 then WithinData(2, data[1] as nat, data)
    else
      var octets := data[1] as nat - 0x80;
      if octets == 0 || octets > 4 || 2 + octets > |data| then Err(InvalidLength)
      else if data[2] == 0 then Err(NotCanonical)
      else
        var content := BigEndian(data[2..2 + octets]);
        if content < 0x80 then Err(NotCanonical) else WithinData(2 + octets, content, data)
  }

  function WithinData(header: nat, content: nat, data: seq<byte>): Result<nat, DerError> {
    if header + content > |data| then Err(Truncated) else Ok(header + content)
  }

  /** The number of octets that `n` needs. */
  function Octets(n: nat): nat {
    if n == 0 then 0 else 1 + Octets(n / 256)
  }

  /** The header of a SEQUENCE of `n` content octets: the shortest definite form
      (ITU-T X.690, sections 8.1.3 and 10.1). */
  function MinimalHeader(n: nat): (header: seq<byte>)
    requires n < 0x1_0000_0000
  {
    if n < 0x80 then [0x30, n as byte]
    else
      OctetsBound(n, 4);
      [0x30, (0x80 + Octets(n)) as byte] + ToBigEndian(n, Octets(n))
  }

  lemma {:induction false} OctetsBound(n: nat, width: nat)
    requires n < (if width == 4 then 0x1_0000_0000 else Pow256(width))
    ensures Octets(n) <= width && n < Pow256(Octets(n))
  {
    PowersOf256();
    if n > 0 {
      OctetsBound(n / 256, width - 1);
    }
  }

  lemma {:induction false} LeadingOctet(n: nat)
    requires n > 0
    ensures Octets(n) > 0 && ToBigEndian(n, Octets(n))[0] != 0
  {
    if n >= 256 {
      LeadingOctet(n / 256);
    }
  }

  lemma {:induction false} OctetsOf(bytes: seq<byte>)
    requires bytes != [] && bytes[0] != 0
    ensures Octets(BigEndian(bytes)) == |bytes|
  {
    var n := |bytes| - 1;
    assert BigEndian(bytes) / 256 == BigEndian(bytes[..n]);
    if n > 0 {
      OctetsOf(bytes[..n]);
    } else {
      assert bytes[..0] == [];
    }
  }

  /** Every content length below 2^32 has a header that is accepted, whatever follows the
      object. */
  lemma MinimalHeaderIsAccepted(content: seq<byte>, rest: seq<byte>)
    requires |content| < 0x1_0000_0000
    ensures var header := MinimalHeader(|content|);
            DerObjectLength(header + content + rest) == Ok(|header| + |content|)
  {
    var n := |content|;
    var data := MinimalHeader(n) + content + rest;
    if n >= 0x80 {
      OctetsBound(n, 4);
      LeadingOctet(n);
      BigEndianOfBytes(n, Octets(n));
      assert data[2..2 + Octets(n)] == ToBigEndian(n, Octets(n));
    }
  }

  /** Everything that is accepted starts with the minimal header of its content length. */
  lemma AcceptedHeaderIsMinimal(data: seq<byte>) returns (n: nat)
    requires DerObjectLength(data).Ok?
    ensures n < 0x1_0000_0000 && MinimalHeader(n) <= data
    ensures DerObjectLength(data) == Ok(|MinimalHeader(n)| + n) && |MinimalHeader(n)| + n <= |data|
  {
    if data[1] < 0x80 {
      n := data[1] as nat;
    } else {
      var octets := data[1] as nat - 0x80;
      n := LongForm(data[2..2 + octets]);
      assert data[..2 + octets] == data[..2] + data[2..2 + octets];
    }
  }

  lemma LongForm(encoded: seq<byte>) returns (n: nat)
    requires 0 < |encoded| <= 4 && encoded[0] != 0 && BigEndian(encoded) >= 0x80
    ensures n == BigEndian(encoded) && 0x80 <= n < 0x1_0000_0000
    ensures MinimalHeader(n) == [0x30, (0x80 + |encoded|) as byte] + encoded
  {
    n := BigEndian(encoded);
    BytesOfBigEndian(encoded);
    OctetsOf(encoded);
    SmallWidth(|encoded|);
  }

  lemma SmallWidth(octets: nat)
    requires octets <= 4
    ensures Pow256(octets) <= 0x1_0000_0000
  {
    PowersOf256();
    assert Pow256(3) == 256 * Pow256(2);
  }

  /** No two content lengths have headers that start the same data. */
  lemma HeaderIsUnique(m: nat, n: nat, data: seq<byte>)
    requires m < 0x1_0000_0000 && n < 0x1_0000_0000
    requires MinimalHeader(m) <= data && MinimalHeader(n) <= data
    ensures m == n
  {
    assert data[1] == MinimalHeader(m)[1] == MinimalHeader(n)[1];
    OctetsBound(m, 4);
    OctetsBound(n, 4);
    if m >= 0x80 && n >= 0x80 {
      BigEndianOfBytes(m, Octets(m));
      BigEndianOfBytes(n, Octets(n));
      assert ToBigEndian(m, Octets(m)) == data[2..2 + Octets(m)] == ToBigEndian(n, Octets(n));
    } else if m >= 0x80 {
      LeadingOctet(m);
    } else if n >= 0x80 {
      LeadingOctet(n);
    }
  }

  /** Data is accepted exactly if it starts with a whole object whose length is in minimal
      form, and then that object's size is returned. */
  ghost predicate StartsWithObject(data: seq<byte>, size: nat) {
    exists n: nat :: n < 0x1_0000_0000 && MinimalHeader(n) <= data && size == |MinimalHeader(n)| + n && size <= |data|
  }

  lemma AcceptedExactly(data: seq<byte>, size: nat)
    ensures DerObjectLength(data) == Ok(size) <==> StartsWithObject(data, size)
  {
    hide DerObjectLength, MinimalHeader;
    if DerObjectLength(data) == Ok(size) {
      var n := AcceptedHeaderIsMinimal(data);
    }
    if StartsWithObject(data, size) {
      var n: nat :| n < 0x1_0000_0000 && MinimalHeader(n) <= data && size == |MinimalHeader(n)| + n && size <= |data|;
      var header := MinimalHeader(n);
      MinimalHeaderIsAccepted(data[|header|..size], data[size..]);
      assert header + data[|header|..size] + data[size..] == data;
    }
  }

  /** What follows a whole object does not matter, and cutting it off neither. */
  lemma ObjectAlone(data: seq<byte>, size: nat)
    requires size <= |data|
    ensures DerObjectLength(data) == Ok(size) <==> DerObjectLength(data[..size]) == Ok(size)
  {
    hide DerObjectLength, MinimalHeader;
    AcceptedExactly(data, size);
    AcceptedExactly(data[..size], size);
    if StartsWithObject(data, size) {
      var n: nat :| n < 0x1_0000_0000 && MinimalHeader(n) <= data && size == |MinimalHeader(n)| + n && size <= |data|;
      assert MinimalHeader(n) <= data[..size];
    }
    if StartsWithObject(data[..size], size) {
      var n: nat :| n < 0x1_0000_0000 && MinimalHeader(n) <= data[..size] && size == |MinimalHeader(n)| + n
        && size <= |data[..size]|;
      assert MinimalHeader(n) <= data;
    }
  }
}
