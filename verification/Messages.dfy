/** What becomes of a netlink message, said of its bytes, with the offsets as numbers. */
module Messages {
  import opened Bytes
  import opened LittleEndian
  import InetDiag
  import RouteAttr
  import opened Archival

  // ---------------------------------------------------------------- the header

  /** The cookie is the little-endian number in bytes 44 to 51. */
  lemma CookieInHeader(raw: seq<Byte>, c: U64)
    requires |raw| >= 72
    ensures InetDiag.Cookie(raw) == c <==> raw[44..52] == U64Bytes(c)
  {
    U64Reads(raw, 44, c);
  }

  /** The form of an address: 4 bytes when the other 12 are zero, else 16. */
  predicate IsAddress(ip: seq<Byte>, field: seq<Byte>)
    requires |field| == 16
  {
    if forall i :: 4 <= i < 16 ==> field[i] == 0 then ip == field[..4] else ip == field
  }

  lemma AddressForm(field: seq<Byte>)
    requires |field| == 16
    ensures IsAddress(InetDiag.Ip(field), field)
  {
    if forall i :: 4 <= i < 16 ==> field[i] == 0 {
      assert field[4..] == Zeros(12);
    } else {
      var i :| 4 <= i < 16 && field[i] != 0;
      assert field[4..][i - 4] != Zeros(12)[i - 4];
    }
  }

  /** Two bytes, and two pairs of bytes, highest first. */
  function Pair(high: int, low: int): int {
    256 * high + low
  }

  function Pairs(high: int, low: int): int {
    0x1_0000 * high + low
  }

  lemma BigEndianOfTwo(bytes: seq<Byte>)
    requires |bytes| == 2
    ensures InetDiag.BigEndian(bytes) == Pair(bytes[0], bytes[1])
  {
    assert InetDiag.BigEndian(bytes[..1]) == bytes[0];
  }

  lemma BigEndianOfFour(bytes: seq<Byte>)
    requires |bytes| == 4
    ensures InetDiag.BigEndian(bytes) == Pairs(Pair(bytes[0], bytes[1]), Pair(bytes[2], bytes[3]))
  {
    assert bytes[..3][..2] == bytes[..2];
    BigEndianOfTwo(bytes[..2]);
    assert InetDiag.BigEndian(bytes[..3]) == Pair(InetDiag.BigEndian(bytes[..2]), bytes[2]);
  }

  /**
    The source address is in bytes 8 to 23, the destination in bytes 24 to 39; their ports are the two pairs of bytes
    from 4 on and the interface is in bytes 40 to 43, highest byte first.
   */
  lemma SocketInHeader(raw: seq<Byte>)
    requires |raw| >= 72
    ensures
      var id := InetDiag.GetSockID(raw);
      && IsAddress(id.srcIP, raw[8..24]) && IsAddress(id.dstIP, raw[24..40])
      && id.sPort == Pair(raw[4], raw[5]) && id.dPort == Pair(raw[6], raw[7])
      && id.interface == Pairs(Pair(raw[40], raw[41]), Pair(raw[42], raw[43]))
      && InetDiag.CookieUint64(id) == InetDiag.Cookie(raw)
  {
    AddressForm(raw[8..24]);
    AddressForm(raw[24..40]);
    BigEndianOfTwo(raw[4..6]);
    BigEndianOfTwo(raw[6..8]);
    BigEndianOfFour(raw[40..44]);
  }

  // ---------------------------------------------------------------- the counters

  /** The TCPInfo attribute is there, and long enough for both counters. */
  predicate HasCounters(r: ArchivalRecord) {
    |r.attributes| > 2 && r.attributes[2].Some? && |r.attributes[2].value| >= 208
  }

  /**
    The byte counts are the little-endian numbers in bytes 200 to 207, sent, and 128 to 135, received, of the TCPInfo
    attribute; and zero when that is not there or too short.
   */
  lemma StatsInRecord(r: ArchivalRecord, sent: U64, received: U64)
    ensures HasCounters(r) ==>
      var info := r.attributes[2].value;
      GetStats(r) == Stats(sent, received) <==> info[200..208] == U64Bytes(sent) && info[128..136] == U64Bytes(received)
    ensures !HasCounters(r) ==> GetStats(r) == Stats(0, 0)
  {
    if HasCounters(r) {
      var info := r.attributes[2].value;
      U64Reads(info, 200, sent);
      U64Reads(info, 128, received);
    }
  }

  // ---------------------------------------------------------------- what is made of a message

  /** One of the two addresses in the header is local. */
  predicate IsLocalMessage(isLocal: seq<Byte> -> bool, data: seq<Byte>)
    requires |data| >= 72
  {
    isLocal(InetDiag.Ip(data[8..24])) || isLocal(InetDiag.Ip(data[24..40]))
  }

  /** The message has type 20 and a header, and is not left out as local. */
  predicate Accepted(isLocal: seq<Byte> -> bool, msg: NetlinkMessage, skipLocal: bool) {
    msg.kind == 20 && |msg.data| >= 72 && !(skipLocal && IsLocalMessage(isLocal, msg.data))
  }

  /** Some walk over the attribute headers behind the first 72 bytes ends in this way. */
  ghost predicate WalkEnds(data: seq<Byte>, ends: (seq<Byte>, nat) -> bool)
    requires |data| >= 72
  {
    exists offsets :: RouteAttr.Walk(data[72..], offsets) && ends(data[72..], RouteAttr.Last(offsets))
  }

  lemma SplitMessage(msg: NetlinkMessage)
    requires |msg.data| >= 72
    ensures InetDiag.SplitInetDiagMsg(msg.data) == Some((msg.data[..72], msg.data[72..]))
    ensures InetDiag.Src(msg.data[..72]) == msg.data[8..24] && InetDiag.Dst(msg.data[..72]) == msg.data[24..40]
  {
  }

  /** Of which messages a record is made, and which are left out or fail, and how. */
  lemma MessageOutcome(isLocal: seq<Byte> -> bool, msg: NetlinkMessage, skipLocal: bool)
    ensures
      var r := RecordOf(isLocal, msg, skipLocal);
      && (r == Failed(ErrNotType20) <==> msg.kind != 20)
      && (r == Failed(ErrParseFailed) <==> msg.kind == 20 && |msg.data| < 72)
      && (r == Local <==> msg.kind == 20 && |msg.data| >= 72 && skipLocal && IsLocalMessage(isLocal, msg.data))
      && (r.Made? <==> Accepted(isLocal, msg, skipLocal) && WalkEnds(msg.data, RouteAttr.EndsClean))
      && (r == Failed(EINVAL) <==> Accepted(isLocal, msg, skipLocal) && WalkEnds(msg.data, RouteAttr.EndsBad))
      && (r == MakePanic <==> Accepted(isLocal, msg, skipLocal) && WalkEnds(msg.data, RouteAttr.EndsPast))
  {
    if |msg.data| >= 72 {
      SplitMessage(msg);
      RouteAttr.ParseOutcome(msg.data[72..]);
    }
  }

  /** Some attribute on the walk has type 2 or more. */
  ghost predicate SomeKindFromTwo(area: seq<Byte>, offsets: seq<nat>)
    requires RouteAttr.Walk(area, offsets)
  {
    exists i :: 0 <= i < |offsets| - 1 && U16At(area, offsets[i] + 2) >= 2
  }

  /** The attributes are those at the headers on the walk. */
  ghost predicate Lists(area: seq<Byte>, offsets: seq<nat>, attrs: seq<RouteAttr.Attr>)
    requires RouteAttr.Walk(area, offsets)
  {
    |attrs| == |offsets| - 1 && forall i :: 0 <= i < |attrs| ==> attrs[i] == RouteAttr.AttrAt(area, offsets[i])
  }

  lemma KindsReach(area: seq<Byte>, offsets: seq<nat>, attrs: seq<RouteAttr.Attr>)
    requires RouteAttr.Walk(area, offsets) && Lists(area, offsets, attrs)
    ensures Reaches(attrs, 2) <==> SomeKindFromTwo(area, offsets)
  {
    if SomeKindFromTwo(area, offsets) {
      var i :| 0 <= i < |offsets| - 1 && U16At(area, offsets[i] + 2) >= 2;
      assert attrs[i].kind >= 2;
    }
  }

  lemma ParseLists(area: seq<Byte>, offsets: seq<nat>)
    requires RouteAttr.Walk(area, offsets) && RouteAttr.EndsClean(area, RouteAttr.Last(offsets))
    ensures RouteAttr.ParseFrom(area, 0).Ok?
    ensures Lists(area, offsets, RouteAttr.ParseFrom(area, 0).attrs)
  {
    RouteAttr.WalkDecides(area, offsets, 0);
    var attrs := RouteAttr.ParseFrom(area, 0).attrs;
    forall i | 0 <= i < |attrs| ensures attrs[i] == RouteAttr.AttrAt(area, offsets[i]) {
      assert attrs[i - 0] == RouteAttr.AttrAt(area, offsets[i]);
    }
  }

  lemma ParsedReaches(area: seq<Byte>, offsets: seq<nat>)
    requires RouteAttr.Walk(area, offsets) && RouteAttr.EndsClean(area, RouteAttr.Last(offsets))
    ensures RouteAttr.ParseFrom(area, 0).Ok?
    ensures Reaches(RouteAttr.ParseFrom(area, 0).attrs, 2) <==> SomeKindFromTwo(area, offsets)
  {
    ParseLists(area, offsets);
    KindsReach(area, offsets, RouteAttr.ParseFrom(area, 0).attrs);
  }

  /** HasDiagInfo holds of a record if and only if some attribute in its message has type 2 or more. */
  lemma DiagInfoInMessage(isLocal: seq<Byte> -> bool, msg: NetlinkMessage, skipLocal: bool, offsets: seq<nat>)
    requires RecordOf(isLocal, msg, skipLocal).Made? && |msg.data| >= 72
    requires RouteAttr.Walk(msg.data[72..], offsets)
    requires RouteAttr.EndsClean(msg.data[72..], RouteAttr.Last(offsets))
    ensures HasDiagInfo(RecordOf(isLocal, msg, skipLocal).record) <==> SomeKindFromTwo(msg.data[72..], offsets)
  {
    MadeFrom(isLocal, msg, skipLocal);
    ParsedReaches(msg.data[72..], offsets);
    TableLength(RouteAttr.ParseFrom(msg.data[72..], 0).attrs, 2);
  }

  /** A message with one attribute of type 1 yields a table of two slots, which is no TCPInfo to HasDiagInfo. */
  lemma OneMemInfo(isLocal: seq<Byte> -> bool, raw: seq<Byte>, value: seq<Byte>)
    requires |raw| == 72 && |value| < 0x1_0000 - 4
    ensures
      var attrs := [RouteAttr.Attr(1, value)];
      var r := RecordOf(isLocal, NetlinkMessage(20, raw + RouteAttr.Encode(attrs)), false);
      r.Made? && |r.record.attributes| == 2 && !HasDiagInfo(r.record)
  {
    var attrs := [RouteAttr.Attr(1, value)];
    MessageRoundTrip(isLocal, raw, attrs, false);
    TableLength(attrs, 1);
    TableLength(attrs, 2);
    assert attrs[0].kind == 1;
  }
}
