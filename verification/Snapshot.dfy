/** Decoding an archival record into a snapshot: struct views of the attributes, and two bit masks about them. */
module Snapshot {
  import opened Bytes
  import opened LittleEndian
  import opened Bits
  import InetDiag
  import opened Archival

  // Attribute kinds that are decoded.
  const MEMINFO := 1
  const INFO := 2
  const VEGASINFO := 3
  const CONG := 4
  const TOS := 5
  const TCLASS := 6
  const SKMEMINFO := 7
  const SHUTDOWN := 8
  const DCTCPINFO := 9
  const PROTOCOL := 10
  const MARK := 15
  const BBRINFO := 16
  const CLASS_ID := 17

  // Sizes of the structs that attributes are viewed as.
  const SIZEOF_MEMINFO := 16
  const SIZEOF_TCPINFO := 232
  const SIZEOF_VEGASINFO := 16
  const SIZEOF_SKMEMINFO := 36
  const SIZEOF_DCTCPINFO := 16
  const SIZEOF_BBRINFO := 24

  /** A struct pointer is given by the bytes of the struct; nil is None. */
  datatype Snapshot = Snapshot(
    timestamp: Time,
    observed: nat,
    notFullyParsed: nat,
    inetDiagMsg: Slot,
    congestionAlgorithm: seq<Byte>,
    tos: Byte,
    tclass: Byte,
    classID: Byte,
    shutdown: Byte,
    protocol: Byte,
    mark: nat,
    tcpInfo: Slot,
    memInfo: Slot,
    socketMem: Slot,
    vegasInfo: Slot,
    dctcpInfo: Slot,
    bbrInfo: Slot)

  datatype DecodeError = ErrEmptyRecord | ErrBadHeader

  /** DecodePanic is raw[:len(raw)-1] of an empty congestion algorithm. */
  datatype Decoded = Ok(metadata: Option<Metadata>, snapshot: Snapshot) | Err(error: DecodeError) | DecodePanic

  // ---------------------------------------------------------------- struct views

  /** The bytes of a struct of the given size: as much of the attribute as fits, then zeros. */
  function View(raw: seq<Byte>, size: nat): (r: seq<Byte>)
    ensures |r| == size
    ensures forall i :: 0 <= i < size ==> r[i] == if i < |raw| then raw[i] else 0
  {
    if |raw| < size then raw + Zeros(size - |raw|) else raw[..size]
  }

  /** Copies an attribute that is too short into a zeroed buffer; ok is false if it is too long. */
  method MaybeCopy(src: seq<Byte>, size: nat) returns (data: seq<Byte>, ok: bool)
    ensures data == View(src, size)
    ensures ok <==> |src| <= size
  {
    if |src| < size {
      var buffer := new Byte[size](_ => 0);
      for i := 0 to |src|
        invariant forall j :: 0 <= j < size ==> buffer[j] == if j < i then src[j] else 0
      {
        buffer[i] := src[i];
      }
      return buffer[..], true;
    }
    return src[..size], |src| == size;
  }

  function FirstByte(raw: seq<Byte>): Byte {
    if |raw| < 1 then 0 else raw[0]
  }

  function MarkOf(raw: seq<Byte>): nat {
    if |raw| != 4 then 0 else U32At(raw, 0)
  }

  // ---------------------------------------------------------------- masks

  /** uint8(t - 1) */
  function Shift(t: nat): nat {
    if t == 0 then 255 else (t - 1) % 256
  }

  /** uint32(1) << uint8(t - 1): shifted out at 32. */
  function BitFor(t: nat): nat {
    if Shift(t) < 32 then Pow2(Shift(t)) else 0
  }

  /** Whether an attribute is decoded in full. */
  predicate ParsedInFull(t: nat, raw: seq<Byte>) {
    if t == MEMINFO then |raw| <= SIZEOF_MEMINFO
    else if t == INFO then |raw| <= SIZEOF_TCPINFO
    else if t == VEGASINFO then |raw| <= SIZEOF_VEGASINFO
    else if t == CONG then true
    else if t == SKMEMINFO then |raw| <= SIZEOF_SKMEMINFO
    else if t == DCTCPINFO then |raw| <= SIZEOF_DCTCPINFO
    else if t == MARK then |raw| == 4
    else if t == BBRINFO then |raw| <= SIZEOF_BBRINFO
    else t in {TOS, TCLASS, SHUTDOWN, PROTOCOL, CLASS_ID} && |raw| >= 1
  }

  predicate Present(attributes: seq<Slot>, t: nat) {
    t < |attributes| && attributes[t].Some?
  }

  predicate NotParsed(attributes: seq<Slot>, t: nat) {
    Present(attributes, t) && !ParsedInFull(t, attributes[t].value)
  }

  /** The mask of the slots below n that are present, or of those that are present and not parsed in full. */
  function Mask(attributes: seq<Slot>, unparsed: bool, n: nat): nat {
    if n == 0 then 0
    else
      var init := Mask(attributes, unparsed, n - 1);
      if (if unparsed then NotParsed(attributes, n - 1) else Present(attributes, n - 1))
      then Or(init, BitFor(n - 1)) else init
  }

  // ---------------------------------------------------------------- decoding

  function ViewAt(attributes: seq<Slot>, n: nat, t: nat, size: nat): Slot {
    if t < n && Present(attributes, t) then Some(View(attributes[t].value, size)) else None
  }

  function ByteAt(attributes: seq<Slot>, n: nat, t: nat): Byte {
    if t < n && Present(attributes, t) then FirstByte(attributes[t].value) else 0
  }

  /** The snapshot after the first n slots. */
  function SnapshotAfter(ar: ArchivalRecord, n: nat): Snapshot {
    var a := ar.attributes;
    Snapshot(
      ar.timestamp, Mask(a, false, n), Mask(a, true, n), ar.rawIDM,
      (if CONG < n && Present(a, CONG) && |a[CONG].value| > 0 then a[CONG].value[..|a[CONG].value| - 1] else []),
      ByteAt(a, n, TOS), ByteAt(a, n, TCLASS), ByteAt(a, n, CLASS_ID), ByteAt(a, n, SHUTDOWN), ByteAt(a, n, PROTOCOL),
      (if MARK < n && Present(a, MARK) then MarkOf(a[MARK].value) else 0),
      ViewAt(a, n, INFO, SIZEOF_TCPINFO), ViewAt(a, n, MEMINFO, SIZEOF_MEMINFO),
      ViewAt(a, n, SKMEMINFO, SIZEOF_SKMEMINFO),
      ViewAt(a, n, VEGASINFO, SIZEOF_VEGASINFO), ViewAt(a, n, DCTCPINFO, SIZEOF_DCTCPINFO),
      ViewAt(a, n, BBRINFO, SIZEOF_BBRINFO))
  }

  predicate EmptyCongestion(ar: ArchivalRecord) {
    CONG < |ar.attributes| && ar.attributes[CONG] == Some([])
  }

  /** What Decode returns. */
  function DecodeOf(ar: ArchivalRecord): Decoded {
    if ar.metadata.None? && ar.rawIDM.None? then Err(ErrEmptyRecord)
    else if ar.rawIDM.Some? && !InetDiag.Parses(ar.rawIDM.value) then Err(ErrBadHeader)
    else if EmptyCongestion(ar) then DecodePanic
    else Ok(ar.metadata, SnapshotAfter(ar, |ar.attributes|))
  }

  /** The struct cases of the switch in Decode. */
  method DecodeStruct(s: Snapshot, t: nat, raw: seq<Byte>) returns (r: Snapshot, ok: bool)
    requires t in {MEMINFO, INFO, VEGASINFO, SKMEMINFO, DCTCPINFO, BBRINFO}
    ensures ok == ParsedInFull(t, raw)
    ensures t == MEMINFO ==> r == s.(memInfo := Some(View(raw, SIZEOF_MEMINFO)))
    ensures t == INFO ==> r == s.(tcpInfo := Some(View(raw, SIZEOF_TCPINFO)))
    ensures t == VEGASINFO ==> r == s.(vegasInfo := Some(View(raw, SIZEOF_VEGASINFO)))
    ensures t == SKMEMINFO ==> r == s.(socketMem := Some(View(raw, SIZEOF_SKMEMINFO)))
    ensures t == DCTCPINFO ==> r == s.(dctcpInfo := Some(View(raw, SIZEOF_DCTCPINFO)))
    ensures t == BBRINFO ==> r == s.(bbrInfo := Some(View(raw, SIZEOF_BBRINFO)))
  {
    var data;
    if t == MEMINFO {
      data, ok := MaybeCopy(raw, SIZEOF_MEMINFO);
      r := s.(memInfo := Some(data));
    } else if t == INFO {
      data, ok := MaybeCopy(raw, SIZEOF_TCPINFO);
      r := s.(tcpInfo := Some(data));
    } else if t == VEGASINFO {
      data, ok := MaybeCopy(raw, SIZEOF_VEGASINFO);
      r := s.(vegasInfo := Some(data));
    } else if t == SKMEMINFO {
      data, ok := MaybeCopy(raw, SIZEOF_SKMEMINFO);
      r := s.(socketMem := Some(data));
    } else if t == DCTCPINFO {
      data, ok := MaybeCopy(raw, SIZEOF_DCTCPINFO);
      r := s.(dctcpInfo := Some(data));
    } else {
      data, ok := MaybeCopy(raw, SIZEOF_BBRINFO);
      r := s.(bbrInfo := Some(data));
    }
  }

  /** The other cases of the switch. */
  method DecodeScalar(s: Snapshot, t: nat, raw: seq<Byte>) returns (r: Snapshot, ok: bool)
    requires t !in {MEMINFO, INFO, VEGASINFO, SKMEMINFO, DCTCPINFO, BBRINFO}
    requires t == CONG ==> raw != []
    ensures ok == ParsedInFull(t, raw)
    ensures t == CONG ==> r == s.(congestionAlgorithm := raw[..|raw| - 1])
    ensures t == TOS ==> r == s.(tos := FirstByte(raw))
    ensures t == TCLASS ==> r == s.(tclass := FirstByte(raw))
    ensures t == SHUTDOWN ==> r == s.(shutdown := FirstByte(raw))
    ensures t == PROTOCOL ==> r == s.(protocol := FirstByte(raw))
    ensures t == CLASS_ID ==> r == s.(classID := FirstByte(raw))
    ensures t == MARK ==> r == s.(mark := MarkOf(raw))
    ensures t !in {CONG, TOS, TCLASS, SHUTDOWN, PROTOCOL, CLASS_ID, MARK} ==> r == s
  {
    r, ok := s, false;
    if t == CONG {
      r, ok := s.(congestionAlgorithm := raw[..|raw| - 1]), true;
    } else if t == MARK {
      r, ok := s.(mark := MarkOf(raw)), |raw| == 4;
    } else if t in {TOS, TCLASS, SHUTDOWN, PROTOCOL, CLASS_ID} {
      ok := |raw| >= 1;
      var b := FirstByte(raw);
      if t == TOS {
        r := s.(tos := b);
      } else if t == TCLASS {
        r := s.(tclass := b);
      } else if t == SHUTDOWN {
        r := s.(shutdown := b);
      } else if t == PROTOCOL {
        r := s.(protocol := b);
      } else {
        r := s.(classID := b);
      }
    }
  }

  method Decode(ar: ArchivalRecord) returns (r: Decoded)
    ensures r == DecodeOf(ar)
  {
    if ar.metadata.None? && ar.rawIDM.None? {
      return Err(ErrEmptyRecord);
    }
    if ar.rawIDM.Some? && !InetDiag.Parses(ar.rawIDM.value) {
      return Err(ErrBadHeader);
    }
    var s := Snapshot(ar.timestamp, 0, 0, ar.rawIDM, [], 0, 0, 0, 0, 0, 0, None, None, None, None, None, None);
    for t := 0 to |ar.attributes|
      invariant s == SnapshotAfter(ar, t)
      invariant t > CONG ==> !EmptyCongestion(ar)
    {
      if ar.attributes[t].None? {
        continue;
      }
      var raw := ar.attributes[t].value;
      if t == CONG && raw == [] {
        return DecodePanic;
      }
      var ok;
      if t in {MEMINFO, INFO, VEGASINFO, SKMEMINFO, DCTCPINFO, BBRINFO} {
        s, ok := DecodeStruct(s, t, raw);
      } else {
        s, ok := DecodeScalar(s, t, raw);
      }
      s := s.(observed := Or(s.observed, BitFor(t)));
      if !ok {
        s := s.(notFullyParsed := Or(s.notFullyParsed, BitFor(t)));
      }
    }
    return Ok(ar.metadata, s);
  }

  // ---------------------------------------------------------------- results

  /** The first byte of slot t, or 0 where there is none. */
  predicate IsFirstByte(x: Byte, a: seq<Slot>, t: nat) {
    if t < |a| && a[t].Some? && |a[t].value| > 0 then x == a[t].value[0] else x == 0
  }

  /** The bytes of slot t, cut or padded with zeros to a size; nil where the slot is. */
  predicate IsView(v: Slot, a: seq<Slot>, t: nat, size: nat) {
    if t < |a| && a[t].Some? then
      var raw := a[t].value;
      && v.Some? && |v.value| == size
      && forall i :: 0 <= i < size ==> v.value[i] == if i < |raw| then raw[i] else 0
    else v.None?
  }

  /** Which slot each field of a snapshot is decoded from, and how. */
  lemma DecodedFields(ar: ArchivalRecord)
    requires DecodeOf(ar).Ok?
    ensures
      var s, a := DecodeOf(ar).snapshot, ar.attributes;
      && s.timestamp == ar.timestamp && s.inetDiagMsg == ar.rawIDM && DecodeOf(ar).metadata == ar.metadata
      && IsFirstByte(s.tos, a, 5) && IsFirstByte(s.tclass, a, 6) && IsFirstByte(s.shutdown, a, 8)
      && IsFirstByte(s.protocol, a, 10) && IsFirstByte(s.classID, a, 17)
      && IsView(s.memInfo, a, 1, 16) && IsView(s.tcpInfo, a, 2, 232) && IsView(s.vegasInfo, a, 3, 16)
      && IsView(s.socketMem, a, 7, 36) && IsView(s.dctcpInfo, a, 9, 16) && IsView(s.bbrInfo, a, 16, 24)
  {
  }

  /** The mark is the little-endian number in slot 15, if that has 4 bytes. */
  lemma DecodedMark(ar: ArchivalRecord)
    requires DecodeOf(ar).Ok?
    ensures
      var s, a := DecodeOf(ar).snapshot, ar.attributes;
      && s.mark < 0x1_0000_0000
      && if |a| > 15 && a[15].Some? && |a[15].value| == 4 then a[15].value == U32Bytes(s.mark) else s.mark == 0
  {
    var s, a := DecodeOf(ar).snapshot, ar.attributes;
    if |a| > 15 && a[15].Some? && |a[15].value| == 4 {
      U32Reads(a[15].value, 0, s.mark);
      assert a[15].value[0..4] == a[15].value;
    }
  }

  /** The congestion algorithm is slot 4 without its last byte. */
  lemma DecodedCongestion(ar: ArchivalRecord)
    requires DecodeOf(ar).Ok?
    ensures
      var s, a := DecodeOf(ar).snapshot, ar.attributes;
      if |a| > 4 && a[4].Some? then |a[4].value| > 0 && s.congestionAlgorithm == a[4].value[..|a[4].value| - 1]
      else s.congestionAlgorithm == []
  {
  }

  /** When Decode fails, and when it slices out of range. */
  lemma DecodeOutcome(ar: ArchivalRecord)
    ensures DecodeOf(ar) == Err(ErrEmptyRecord) <==> ar.metadata.None? && ar.rawIDM.None?
    ensures DecodeOf(ar) == Err(ErrBadHeader) <==> ar.rawIDM.Some? && |ar.rawIDM.value| < 72
    ensures DecodeOf(ar) == DecodePanic <==>
      && (ar.metadata.Some? || ar.rawIDM.Some?) && (ar.rawIDM.Some? ==> |ar.rawIDM.value| >= 72)
      && |ar.attributes| > 4 && ar.attributes[4] == Some([])
  {
  }

  /** Which attributes are decoded in full: structs that are not longer than expected, and scalars of the right size. */
  lemma ParsedInFullExact(t: nat, raw: seq<Byte>)
    ensures ParsedInFull(t, raw) <==>
      || (t in {1, 3, 9} && |raw| <= 16) || (t == 2 && |raw| <= 232) || (t == 7 && |raw| <= 36)
      || (t == 16 && |raw| <= 24) || t == 4 || (t == 15 && |raw| == 4)
      || (t in {5, 6, 8, 10, 17} && |raw| >= 1)
  {
  }

  ghost predicate SlotSets(attributes: seq<Slot>, unparsed: bool, n: nat, j: nat) {
    exists t :: 0 <= t < n && Shift(t) == j && Present(attributes, t) && (unparsed ==> NotParsed(attributes, t))
  }

  lemma BitForExact(t: nat, j: nat)
    requires j < 32
    ensures BitAt(BitFor(t), j) <==> Shift(t) == j
  {
    if Shift(t) < 32 {
      Pow2HasOneBit(Shift(t), j);
    } else {
      ZeroHasNoBits(j);
    }
  }

  /** Bit j of a mask is set exactly when some slot sets it. */
  lemma {:induction false} MaskExact(attributes: seq<Slot>, unparsed: bool, n: nat, j: nat)
    requires j < 32
    ensures BitAt(Mask(attributes, unparsed, n), j) <==> SlotSets(attributes, unparsed, n, j)
  {
    if n == 0 {
      ZeroHasNoBits(j);
    } else {
      MaskExact(attributes, unparsed, n - 1, j);
      OrIsUnion(Mask(attributes, unparsed, n - 1), BitFor(n - 1), j);
      BitForExact(n - 1, j);
    }
  }

  lemma BitFits(t: nat, width: nat)
    requires width >= 32
    ensures BitFor(t) < Pow2(width)
  {
    if Shift(t) < 32 {
      Pow2Grows(Shift(t), width);
    }
  }

  lemma {:induction false} MaskFitsIn(attributes: seq<Slot>, unparsed: bool, n: nat, width: nat)
    requires width >= 32
    ensures Mask(attributes, unparsed, n) < Pow2(width)
  {
    if n == 0 {
    } else {
      MaskFitsIn(attributes, unparsed, n - 1, width);
      BitFits(n - 1, width);
      OrFits(Mask(attributes, unparsed, n - 1), BitFor(n - 1), width);
    }
  }

  /** A mask fits a uint32. */
  lemma MaskFits(attributes: seq<Slot>, unparsed: bool, n: nat)
    ensures Mask(attributes, unparsed, n) < Pow2(32)
  {
    MaskFitsIn(attributes, unparsed, n, 32);
  }

  lemma ShiftIsInjective(t: nat, u: nat)
    requires u < 257 && 1 <= t <= 32
    ensures Shift(u) == t - 1 <==> u == t
  {
    if u > 0 {
      assert (u - 1) % 256 == u - 1;
    }
  }

  /** In a table that is not too long, only slot t sets the bit of slot t. */
  lemma OnlySlot(attributes: seq<Slot>, unparsed: bool, t: nat)
    requires |attributes| <= 257 && 1 <= t <= 32
    ensures SlotSets(attributes, unparsed, |attributes|, t - 1) <==>
      if unparsed then NotParsed(attributes, t) else Present(attributes, t)
  {
    forall u: nat | u < |attributes| ensures Shift(u) == t - 1 <==> u == t {
      ShiftIsInjective(t, u);
    }
  }

  /**
    NotFullyParsed is a subset of Observed. In a table of at most 257 slots, which every record made from a
    message has, bit t - 1 of Observed is set exactly for the slots t from 1 to 32 that are not nil, and bit t - 1
    of NotFullyParsed exactly for those of them that are not decoded in full.
   */
  lemma MasksAreExact(ar: ArchivalRecord, t: nat)
    requires DecodeOf(ar).Ok? && 1 <= t <= 32
    ensures
      var s := DecodeOf(ar).snapshot;
      && (BitAt(s.notFullyParsed, t - 1) ==> BitAt(s.observed, t - 1))
      && (|ar.attributes| <= 257 ==>
            && (BitAt(s.observed, t - 1) <==> Present(ar.attributes, t))
            && (BitAt(s.notFullyParsed, t - 1) <==> NotParsed(ar.attributes, t)))
  {
    var a := ar.attributes;
    MaskExact(a, false, |a|, t - 1);
    MaskExact(a, true, |a|, t - 1);
    if |a| <= 257 {
      OnlySlot(a, false, t);
      OnlySlot(a, true, t);
    }
  }

  /** Slot 257 sets the bit of slot 1: the bound in MasksAreExact is the best possible. */
  lemma MasksAlias(ar: ArchivalRecord)
    requires DecodeOf(ar).Ok? && |ar.attributes| > 257 && ar.attributes[257].Some? && ar.attributes[1].None?
    ensures BitAt(DecodeOf(ar).snapshot.observed, 0) && !Present(ar.attributes, 1)
  {
    MaskExact(ar.attributes, false, |ar.attributes|, 0);
    assert Shift(257) == 0;
  }

  /** BytesSent and BytesReceived of the decoded TCPInfo, as the unsigned numbers they stand for. */
  function DecodedStats(info: seq<Byte>): Stats
    requires |info| == SIZEOF_TCPINFO
  {
    Stats(AsUint64(AsInt64(U64At(info, BYTES_SENT_OFFSET))), AsUint64(AsInt64(U64At(info, BYTES_RECEIVED_OFFSET))))
  }

  lemma SameWindow(a: seq<Byte>, b: seq<Byte>, at: nat)
    requires at + 8 <= |a| && at + 8 <= |b|
    requires forall i :: at <= i < at + 8 ==> a[i] == b[i]
    ensures U64At(a, at) == U64At(b, at)
  {
  }

  lemma ZeroWindow(b: seq<Byte>, at: nat)
    requires at + 8 <= |b|
    ensures U64At(b, at) == 0 <==> forall i :: at <= i < at + 8 ==> b[i] == 0
  {
    if U64At(b, at) == 0 {
      assert b[at] == b[at + 1] == b[at + 2] == b[at + 3] == 0;
      assert b[at + 4] == b[at + 5] == b[at + 6] == b[at + 7] == 0;
    }
  }

  /** The bytes of a TCPInfo attribute that belong to the two counters. */
  predicate InCounters(i: nat) {
    BYTES_RECEIVED_OFFSET <= i < BYTES_RECEIVED_OFFSET + 8 || BYTES_SENT_OFFSET <= i < BYTES_SENT_OFFSET + 8
  }

  /** No byte of the counters that is there is set. */
  predicate CountersZero(raw: seq<Byte>) {
    forall i :: 0 <= i < |raw| && InCounters(i) ==> raw[i] == 0
  }

  lemma DecodedZero(raw: seq<Byte>)
    ensures DecodedStats(View(raw, SIZEOF_TCPINFO)) == NO_BYTES <==> CountersZero(raw)
  {
    var info := View(raw, SIZEOF_TCPINFO);
    ZeroWindow(info, BYTES_SENT_OFFSET);
    ZeroWindow(info, BYTES_RECEIVED_OFFSET);
    assert forall i :: 0 <= i < |raw| && InCounters(i) ==> info[i] == raw[i];
    assert forall i :: |raw| <= i < SIZEOF_TCPINFO ==> info[i] == 0;
  }

  /**
    The decoded counters are those of the fast path, GetStats, if and only if TCPInfo has at least 208 bytes or no
    byte of the counters that is there is set.
   */
  lemma DecodedStatsAgree(ar: ArchivalRecord)
    requires DecodeOf(ar).Ok? && InfoOf(ar).Some?
    ensures
      var s := DecodeOf(ar).snapshot;
      && s.tcpInfo.Some? && |s.tcpInfo.value| == SIZEOF_TCPINFO
      && (DecodedStats(s.tcpInfo.value) == GetStats(ar) <==>
            |InfoOf(ar).value| >= BYTES_SENT_OFFSET + 8 || CountersZero(InfoOf(ar).value))
  {
    var raw := InfoOf(ar).value;
    var info := View(raw, SIZEOF_TCPINFO);
    if |raw| >= BYTES_SENT_OFFSET + 8 {
      SameWindow(raw, info, BYTES_SENT_OFFSET);
      SameWindow(raw, info, BYTES_RECEIVED_OFFSET);
    } else {
      DecodedZero(raw);
    }
  }

  /** The TCPInfo of an older kernel: 192 bytes, with one byte received. */
  function OldInfo(): seq<Byte> {
    Zeros(BYTES_RECEIVED_OFFSET) + [1] + Zeros(63)
  }

  /** Decode then sees bytes that GetStats does not. */
  lemma OldInfoDisagrees(raw: seq<Byte>)
    requires InetDiag.Parses(raw)
    ensures
      var ar := ArchivalRecord(0, Some(raw), [None, None, Some(OldInfo())], None);
      && DecodeOf(ar).Ok? && GetStats(ar) == NO_BYTES
      && DecodedStats(DecodeOf(ar).snapshot.tcpInfo.value).received != 0
  {
    var ar := ArchivalRecord(0, Some(raw), [None, None, Some(OldInfo())], None);
    var info := View(OldInfo(), SIZEOF_TCPINFO);
    assert OldInfo()[BYTES_RECEIVED_OFFSET] == 1;
    assert info[BYTES_RECEIVED_OFFSET] == 1;
    ZeroWindow(info, BYTES_RECEIVED_OFFSET);
    assert InfoOf(ar) == Some(OldInfo());
    DecodedStatsAgree(ar);
  }
}
