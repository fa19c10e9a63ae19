/** Fragments as bytes: the gateway's packed header and the browser's parser. */
module VideoPacket {
  import opened Wrappers
  import opened Octets
  import opened VideoFrames
  import opened MachineWords

  const MAGIC_1 := 0x56504631
  const MAGIC_2 := 0x56504632
  const MAGIC_3 := 0x56504633

  function HeaderSize(magic: nat): nat {
    if magic == MAGIC_3 then 64 else if magic == MAGIC_2 then 24 else if magic == MAGIC_1 then 16 else 0
  }

  function ParseFragment(b: seq<Byte>): Option<Packet> {
    if |b| < 16 then None
    else
      var size := HeaderSize(FromBigEndian(b[..4]));
      if size == 0 || |b| < size then None
      else
        var id, index, total, length :=
          FromBigEndian(b[4..8]), FromBigEndian(b[8..10]), FromBigEndian(b[10..12]), FromBigEndian(b[12..16]);
        if total == 0 || total > MAX_FRAGMENTS || index >= total || length == 0 || length > MAX_BYTES
           || |b| != size + length
        then None
        else
          FourBytes(b[4..8]);
          Some(Parsed(id, index, total, b[size..],
               if size >= 24 then Some(FromBigEndian(b[16..20]) * 0x1_0000_0000 + FromBigEndian(b[20..24])) else None))
  }

  lemma FourBytes(s: seq<Byte>)
    requires |s| == 4
    ensures FromBigEndian(s) < 0x1_0000_0000
  {
    assert s[..3][..2][..1][..0] == [];
    assert FromBigEndian(s[..3][..2][..1]) < 0x100;
    assert FromBigEndian(s[..3][..2]) < 0x1_0000;
  }

  /** A fragment as the gateway sends it, which may have more parts than the browser accepts. */
  datatype Outgoing = Outgoing(id: U32, index: nat, total: nat, payload: seq<Byte>, published: nat) {
    predicate Sendable() {
      index < total <= 0xffff && 0 < |payload| <= MAX_BYTES && published < 0x1_0000_0000_0000_0000
    }
  }

  function Encode(o: Outgoing): seq<Byte> {
    BigEndian(MAGIC_2, 4) + BigEndian(o.id, 4) + BigEndian(o.index, 2) + BigEndian(o.total, 2)
    + BigEndian(|o.payload|, 4) + BigEndian(o.published / 0x1_0000_0000, 4) + BigEndian(o.published % 0x1_0000_0000, 4)
    + o.payload
  }

  /** The browser reads back exactly what the gateway wrote, unless the frame has more parts than it accepts. */
  lemma FragmentRoundTrip(o: Outgoing)
    requires o.Sendable()
    ensures ParseFragment(Encode(o)) ==
      if o.total <= MAX_FRAGMENTS then Some(Parsed(o.id, o.index, o.total, o.payload, Some(o.published))) else None
  {
    Fields(o);
    FieldsRead(o);
    hide BigEndian, FromBigEndian, Encode, Power;
  }

  /** Where the fields lie. */
  lemma Fields(o: Outgoing)
    requires o.Sendable()
    ensures var b := Encode(o);
      && |b| == 24 + |o.payload|
      && b[..4] == BigEndian(MAGIC_2, 4) && b[4..8] == BigEndian(o.id, 4) && b[8..10] == BigEndian(o.index, 2)
      && b[10..12] == BigEndian(o.total, 2) && b[12..16] == BigEndian(|o.payload|, 4) && b[24..] == o.payload
      && b[16..20] == BigEndian(o.published / 0x1_0000_0000, 4)
      && b[20..24] == BigEndian(o.published % 0x1_0000_0000, 4)
  {
    hide BigEndian;
  }

  lemma FieldsRead(o: Outgoing)
    requires o.Sendable()
    ensures FromBigEndian(BigEndian(MAGIC_2, 4)) == MAGIC_2 && FromBigEndian(BigEndian(o.id, 4)) == o.id
    ensures FromBigEndian(BigEndian(o.index, 2)) == o.index && FromBigEndian(BigEndian(o.total, 2)) == o.total
    ensures FromBigEndian(BigEndian(|o.payload|, 4)) == |o.payload|
    ensures FromBigEndian(BigEndian(o.published / 0x1_0000_0000, 4)) == o.published / 0x1_0000_0000
    ensures FromBigEndian(BigEndian(o.published % 0x1_0000_0000, 4)) == o.published % 0x1_0000_0000
  {
    assert Power(2) == 0x1_0000;
    assert Power(4) == 0x1_0000_0000;
    hide BigEndian, FromBigEndian;
    BigEndianRoundTrip(MAGIC_2, 4);
    BigEndianRoundTrip(o.id, 4);
    BigEndianRoundTrip(o.index, 2);
    BigEndianRoundTrip(o.total, 2);
    BigEndianRoundTrip(|o.payload|, 4);
    BigEndianRoundTrip(o.published / 0x1_0000_0000, 4);
    BigEndianRoundTrip(o.published % 0x1_0000_0000, 4);
  }
}
