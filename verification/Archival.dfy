/** Archival records: construction from a netlink message, byte counters and the change detector. */
module Archival {
  import opened Bytes
  import InetDiag
  import RouteAttr

  // Attribute kinds, and the last one plus one.
  const INET_DIAG_INFO := 2
  const INET_DIAG_MAX := 19
  const MAX_KIND := 2 * INET_DIAG_MAX

  // Field offsets in LinuxTCPInfo.
  const LAST_DATA_SENT_OFFSET := 44
  const PMTU_OFFSET := 60
  const BYTES_RECEIVED_OFFSET := 128
  const BUSY_TIME_OFFSET := 168
  const BYTES_SENT_OFFSET := 200

  /** Nanoseconds. */
  type Time = int

  datatype Metadata = Metadata(cookie: U64, sequence: nat, startTime: Time)

  /** A byte slice that may be nil. */
  type Slot = Option<seq<Byte>>

  datatype ArchivalRecord = ArchivalRecord(
    timestamp: Time,
    rawIDM: Slot,
    attributes: seq<Slot>,
    metadata: Option<Metadata>)

  datatype NetlinkMessage = NetlinkMessage(kind: U16, data: seq<Byte>)

  datatype MakeError = ErrNotType20 | ErrParseFailed | EINVAL

  datatype MakeResult = Made(record: ArchivalRecord) | Local | Failed(error: MakeError) | MakePanic

  /** The bytes of the raw header; a nil slice has none. */
  function RawOf(r: ArchivalRecord): InetDiag.Raw {
    match r.rawIDM
    case None => []
    case Some(raw) => raw
  }

  // ---------------------------------------------------------------- the attribute table

  function MaxKind(attrs: seq<RouteAttr.Attr>): (r: nat)
    ensures forall a :: a in attrs ==> a.kind <= r
    ensures r == 0 || exists a :: a in attrs && a.kind == r
  {
    if attrs == [] then 0
    else
      var init, last := attrs[..|attrs| - 1], attrs[|attrs| - 1];
      assert attrs == init + [last];
      var m := MaxKind(init);
      assert m != 0 ==> exists a :: a in init && a.kind == m;
      assert forall a :: a in init ==> a in attrs;
      if last.kind > m then last.kind else m
  }

  /** The value of the last attribute of a kind. */
  function LastValue(attrs: seq<RouteAttr.Attr>, kind: nat): Slot {
    if attrs == [] then None
    else if attrs[|attrs| - 1].kind == kind then Some(attrs[|attrs| - 1].value)
    else LastValue(attrs[..|attrs| - 1], kind)
  }

  /** Whether the kind of attribute i occurs again behind it. */
  predicate Repeats(attrs: seq<RouteAttr.Attr>, i: nat)
    requires i < |attrs|
  {
    exists j :: i < j < |attrs| && attrs[j].kind == attrs[i].kind
  }

  /** A slot is nil exactly when the kind is absent, and otherwise holds the last attribute of that kind. */
  lemma {:induction false} LastValueMeaning(attrs: seq<RouteAttr.Attr>, kind: nat)
    ensures LastValue(attrs, kind).None? <==> forall i :: 0 <= i < |attrs| ==> attrs[i].kind != kind
    ensures forall i | 0 <= i < |attrs| && attrs[i].kind == kind && !Repeats(attrs, i) ::
              LastValue(attrs, kind) == Some(attrs[i].value)
  {
    if attrs == [] {
    } else {
      var init := attrs[..|attrs| - 1];
      LastValueMeaning(init, kind);
      assert forall i | 0 <= i < |init| && !Repeats(attrs, i) ::
        attrs[|attrs| - 1].kind != init[i].kind && !Repeats(init, i);
    }
  }

  /** Highest slot index: the largest kind, capped. */
  function TopKind(attrs: seq<RouteAttr.Attr>): nat {
    var m := MaxKind(attrs);
    if m > MAX_KIND then MAX_KIND else m
  }

  /** The table MakeArchivalRecord builds. */
  function Table(attrs: seq<RouteAttr.Attr>): (r: seq<Slot>)
    ensures 1 <= |r| <= MAX_KIND + 1
  {
    seq(TopKind(attrs) + 1, kind requires 0 <= kind => LastValue(attrs, kind))
  }

  /** Whether a table of these attributes has a slot n: an attribute of type n or more, and n is at most 38. */
  predicate Reaches(attrs: seq<RouteAttr.Attr>, n: nat) {
    n == 0 || (n <= 38 && exists i :: 0 <= i < |attrs| && attrs[i].kind >= n)
  }

  /** The table has exactly the slots that some attribute reaches. */
  lemma TableLength(attrs: seq<RouteAttr.Attr>, n: nat)
    ensures n < |Table(attrs)| <==> Reaches(attrs, n)
  {
    var m := MaxKind(attrs);
    if exists i :: 0 <= i < |attrs| && attrs[i].kind >= n {
      var i :| 0 <= i < |attrs| && attrs[i].kind >= n;
      assert attrs[i] in attrs;
    }
    if 0 < n <= m {
      var a :| a in attrs && a.kind == m;
      var i :| 0 <= i < |attrs| && attrs[i] == a;
      assert attrs[i].kind >= n;
    }
  }

  /** Kinds above MAX_KIND are the only data the table drops. */
  lemma TableKeepsAll(attrs: seq<RouteAttr.Attr>, i: nat)
    requires i < |attrs|
    ensures attrs[i].kind <= 38 <==> attrs[i].kind < |Table(attrs)|
    ensures attrs[i].kind <= 38 ==> Table(attrs)[attrs[i].kind].Some?
    ensures attrs[i].kind <= 38 && !Repeats(attrs, i) ==> Table(attrs)[attrs[i].kind] == Some(attrs[i].value)
  {
    assert attrs[i] in attrs;
    LastValueMeaning(attrs, attrs[i].kind);
  }

  lemma LastValueSnoc(attrs: seq<RouteAttr.Attr>, i: nat, kind: nat)
    requires i < |attrs|
    ensures LastValue(attrs[..i + 1], kind) ==
      if attrs[i].kind == kind then Some(attrs[i].value) else LastValue(attrs[..i], kind)
  {
    assert attrs[..i + 1][..i] == attrs[..i];
  }

  /** The first loop of MakeArchivalRecord finds the largest kind. */
  method FindTopKind(attrs: seq<RouteAttr.Attr>) returns (maxKind: nat)
    ensures maxKind == TopKind(attrs)
  {
    maxKind := 0;
    for i := 0 to |attrs|
      invariant maxKind == MaxKind(attrs[..i])
    {
      assert attrs[..i + 1][..i] == attrs[..i];
      if attrs[i].kind > maxKind {
        maxKind := attrs[i].kind;
      }
    }
    assert attrs[..|attrs|] == attrs;
    if maxKind > MAX_KIND {
      maxKind := MAX_KIND;
    }
  }

  /** The second loop fills the table in order, skipping kinds above the largest. */
  method BuildTable(attrs: seq<RouteAttr.Attr>) returns (table: seq<Slot>)
    ensures table == Table(attrs)
    ensures forall n: nat :: n < |table| <==> Reaches(attrs, n)
  {
    var maxKind := FindTopKind(attrs);
    table := seq(maxKind + 1, _ => None);
    for i := 0 to |attrs|
      invariant |table| == maxKind + 1
      invariant forall kind :: 0 <= kind <= maxKind ==> table[kind] == LastValue(attrs[..i], kind)
    {
      forall kind: nat | kind <= maxKind {
        LastValueSnoc(attrs, i, kind);
      }
      if attrs[i].kind <= maxKind {
        table := table[attrs[i].kind := Some(attrs[i].value)];
      }
    }
    assert attrs[..|attrs|] == attrs;
    forall n: nat ensures n < |table| <==> Reaches(attrs, n) {
      TableLength(attrs, n);
    }
  }

  /** What MakeArchivalRecord returns. isLocal stands for the net.IP classification. */
  function RecordOf(isLocal: seq<Byte> -> bool, msg: NetlinkMessage, skipLocal: bool): (r: MakeResult)
    ensures r.Made? ==> InetDiag.Parses(RawOf(r.record)) && r.record.attributes != []
  {
    if msg.kind != 20 then Failed(ErrNotType20)
    else match InetDiag.SplitInetDiagMsg(msg.data)
      case None => Failed(ErrParseFailed)
      case Some((raw, area)) =>
        if skipLocal && (isLocal(InetDiag.Ip(InetDiag.Src(raw))) || isLocal(InetDiag.Ip(InetDiag.Dst(raw)))) then Local
        else match RouteAttr.ParseFrom(area, 0)
          case Ok(attrs) => Made(ArchivalRecord(0, Some(raw), Table(attrs), None))
          case Invalid => Failed(EINVAL)
          case Panic => MakePanic
  }

  method MakeArchivalRecord(isLocal: seq<Byte> -> bool, msg: NetlinkMessage, skipLocal: bool) returns (r: MakeResult)
    ensures r == RecordOf(isLocal, msg, skipLocal)
  {
    if msg.kind != 20 {
      return Failed(ErrNotType20);
    }
    var split := InetDiag.SplitInetDiagMsg(msg.data);
    if split.None? {
      return Failed(ErrParseFailed);
    }
    var (raw, area) := split.value;
    if skipLocal && (isLocal(InetDiag.Ip(InetDiag.Src(raw))) || isLocal(InetDiag.Ip(InetDiag.Dst(raw)))) {
      return Local;
    }
    var attrs := RouteAttr.ParseRouteAttr(area);
    match attrs
    case Invalid => return Failed(EINVAL);
    case Panic => return MakePanic;
    case Ok(list) =>
      var table := BuildTable(list);
      return Made(ArchivalRecord(0, Some(raw), table, None));
  }

  /** A message made of a header and an encoded attribute list yields the record with that header and table. */
  lemma MessageRoundTrip(
    isLocal: seq<Byte> -> bool, raw: seq<Byte>, attrs: seq<RouteAttr.Attr>, skipLocal: bool)
    requires |raw| == InetDiag.SIZEOF_INET_DIAG_MSG && forall a :: a in attrs ==> RouteAttr.Encodable(a)
    requires skipLocal ==> !isLocal(InetDiag.Ip(InetDiag.Src(raw))) && !isLocal(InetDiag.Ip(InetDiag.Dst(raw)))
    ensures RecordOf(isLocal, NetlinkMessage(20, raw + RouteAttr.Encode(attrs)), skipLocal) ==
      Made(ArchivalRecord(0, Some(raw), Table(attrs), None))
  {
    var area := RouteAttr.Encode(attrs);
    assert (raw + area)[..|raw|] == raw && (raw + area)[|raw|..] == area;
    RouteAttr.ParseInvertsEncode(attrs);
  }

  /** Attribute i of a walk is the last one of its type, which is up to 38. */
  ghost predicate IsLastOfKind(area: seq<Byte>, offsets: seq<nat>, i: nat)
    requires RouteAttr.Walk(area, offsets) && i < |offsets| - 1
  {
    var kind := RouteAttr.AttrAt(area, offsets[i]).kind;
    kind <= 38 && forall j :: i < j < |offsets| - 1 ==> RouteAttr.AttrAt(area, offsets[j]).kind != kind
  }

  lemma LastFillsSlot(area: seq<Byte>, offsets: seq<nat>, attrs: seq<RouteAttr.Attr>, i: nat)
    requires RouteAttr.Walk(area, offsets) && |attrs| == |offsets| - 1
    requires forall j :: 0 <= j < |attrs| ==> attrs[j] == RouteAttr.AttrAt(area, offsets[j])
    requires i < |attrs| && IsLastOfKind(area, offsets, i)
    ensures attrs[i].kind < |Table(attrs)| && Table(attrs)[attrs[i].kind] == Some(attrs[i].value)
  {
    assert !Repeats(attrs, i);
    TableKeepsAll(attrs, i);
  }

  lemma WalkFillsSlot(area: seq<Byte>, offsets: seq<nat>, i: nat)
    requires RouteAttr.Walk(area, offsets) && RouteAttr.EndsClean(area, RouteAttr.Last(offsets))
    requires i < |offsets| - 1 && IsLastOfKind(area, offsets, i)
    ensures RouteAttr.ParseFrom(area, 0).Ok?
    ensures
      var table, attr := Table(RouteAttr.ParseFrom(area, 0).attrs), RouteAttr.AttrAt(area, offsets[i]);
      attr.kind < |table| && table[attr.kind] == Some(attr.value)
  {
    RouteAttr.WalkDecides(area, offsets, 0);
    LastFillsSlot(area, offsets, RouteAttr.ParseFrom(area, 0).attrs, i);
  }

  lemma MadeFrom(isLocal: seq<Byte> -> bool, msg: NetlinkMessage, skipLocal: bool)
    requires RecordOf(isLocal, msg, skipLocal).Made?
    ensures |msg.data| >= 72
    ensures
      var raw, area := msg.data[..72], msg.data[72..];
      var parsed := RouteAttr.ParseFrom(area, 0);
      parsed.Ok? && RecordOf(isLocal, msg, skipLocal).record == ArchivalRecord(0, Some(raw), Table(parsed.attrs), None)
  {
  }

  /**
    Of any message that yields a record: the header is its first 72 bytes, and the last attribute of each type up to
    38, wherever it lies in the message, is in its slot, byte for byte.
   */
  lemma RecordTellsMessage(
    isLocal: seq<Byte> -> bool, msg: NetlinkMessage, skipLocal: bool, area: seq<Byte>, offsets: seq<nat>, i: nat)
    requires RecordOf(isLocal, msg, skipLocal).Made? && area == msg.data[72..]
    requires RouteAttr.Walk(area, offsets) && RouteAttr.EndsClean(area, RouteAttr.Last(offsets))
    requires i < |offsets| - 1 && IsLastOfKind(area, offsets, i)
    ensures
      var r := RecordOf(isLocal, msg, skipLocal).record;
      var attr := RouteAttr.AttrAt(area, offsets[i]);
      && r.rawIDM == Some(msg.data[..72])
      && attr.kind < |r.attributes| && r.attributes[attr.kind] == Some(attr.value)
  {
    var raw, attr := msg.data[..72], RouteAttr.AttrAt(area, offsets[i]);
    assert RouteAttr.ParseFrom(area, 0).Ok? by {
      MadeFrom(isLocal, msg, skipLocal);
    }
    var table := Table(RouteAttr.ParseFrom(area, 0).attrs);
    assert RecordOf(isLocal, msg, skipLocal).record == ArchivalRecord(0, Some(raw), table, None) by {
      MadeFrom(isLocal, msg, skipLocal);
    }
    assert attr.kind < |table| && table[attr.kind] == Some(attr.value) by {
      WalkFillsSlot(area, offsets, i);
    }
  }

  // ---------------------------------------------------------------- byte counters

  /** A pair of byte counts. The source keeps each in a uint64; a reference ledger keeps them exact. */
  datatype Stats = Stats(sent: int, received: int)

  const NO_BYTES := Stats(0, 0)

  /** Whether the table reaches past INET_DIAG_INFO; the slot itself may still be nil. */
  predicate HasDiagInfo(r: ArchivalRecord) {
    |r.attributes| > INET_DIAG_INFO
  }

  function GetStats(r: ArchivalRecord): (s: Stats)
    ensures 0 <= s.sent < TWO64 && 0 <= s.received < TWO64
    ensures !HasDiagInfo(r) ==> s == NO_BYTES
  {
    match CountersIn(r)
    case None => NO_BYTES
    case Some(s) => s
  }

  /** The byte counters a record really carries. */
  function CountersIn(r: ArchivalRecord): (s: Option<Stats>)
    ensures s.Some? ==> HasDiagInfo(r)
    ensures s.Some? ==> 0 <= s.value.sent < TWO64 && 0 <= s.value.received < TWO64
  {
    if |r.attributes| <= INET_DIAG_INFO then None
    else match r.attributes[INET_DIAG_INFO]
      case None => None
      case Some(raw) =>
        if |raw| < BYTES_SENT_OFFSET + 8 || |raw| < BYTES_RECEIVED_OFFSET + 8 then None
        else Some(Stats(U64At(raw, BYTES_SENT_OFFSET), U64At(raw, BYTES_RECEIVED_OFFSET)))
  }

  // ---------------------------------------------------------------- change detection

  datatype ChangeType =
    | NoMajorChange
    | IDiagStateChange
    | NoTCPInfo
    | NewAttribute
    | LostAttribute
    | AttributeLength
    | StateOrCounterChange
    | PreviousWasNil
    | Other

  datatype CompareResult = Change(change: ChangeType) | CompareFailed

  /** The TCPInfo slice of a record, when it has one. */
  function InfoOf(r: ArchivalRecord): Slot {
    if |r.attributes| <= INET_DIAG_INFO then None else r.attributes[INET_DIAG_INFO]
  }

  /** The domain of Compare: Go re-slices a shorter slice into whatever lies behind it in the buffer. */
  predicate InfoLongEnough(r: ArchivalRecord) {
    InfoOf(r).Some? ==> |InfoOf(r).value| >= BUSY_TIME_OFFSET
  }

  /** What the loop over the attributes returns, from slot kind on. */
  function CompareSlots(previous: seq<Slot>, current: seq<Slot>, kind: nat): ChangeType
    requires kind <= |previous| == |current|
    decreases |previous| - kind
  {
    if kind == |previous| then NoMajorChange
    else if kind == INET_DIAG_INFO || previous[kind] == current[kind] then CompareSlots(previous, current, kind + 1)
    else if previous[kind].None? then NewAttribute
    else if current[kind].None? then LostAttribute
    else if |previous[kind].value| != |current[kind].value| then AttributeLength
    else Other
  }

  /** What Compare returns for current against previous. */
  function CompareTo(current: ArchivalRecord, previous: Option<ArchivalRecord>): CompareResult
    requires InfoLongEnough(current)
    requires previous.Some? ==> InfoLongEnough(previous.value)
  {
    if previous.None? then Change(PreviousWasNil)
    else
      var prior := previous.value;
      if !InetDiag.Parses(RawOf(prior)) || !InetDiag.Parses(RawOf(current)) then CompareFailed
      else if InetDiag.DiagState(RawOf(prior)) != InetDiag.DiagState(RawOf(current)) then Change(IDiagStateChange)
      else if InfoOf(prior).None? || InfoOf(current).None? then Change(NoTCPInfo)
      else
        var a, b := InfoOf(prior).value, InfoOf(current).value;
        if a[PMTU_OFFSET..BUSY_TIME_OFFSET] != b[PMTU_OFFSET..BUSY_TIME_OFFSET]
        || a[..LAST_DATA_SENT_OFFSET] != b[..LAST_DATA_SENT_OFFSET] then Change(StateOrCounterChange)
        else if |prior.attributes| < |current.attributes| then Change(NewAttribute)
        else if |prior.attributes| > |current.attributes| then Change(LostAttribute)
        else Change(CompareSlots(prior.attributes, current.attributes, 0))
  }

  /** The early-exit loop of the source. */
  method Compare(current: ArchivalRecord, previous: Option<ArchivalRecord>) returns (r: CompareResult)
    requires InfoLongEnough(current)
    requires previous.Some? ==> InfoLongEnough(previous.value)
    ensures r == CompareTo(current, previous)
  {
    if previous.None? {
      return Change(PreviousWasNil);
    }
    var prior := previous.value;
    if !InetDiag.Parses(RawOf(prior)) || !InetDiag.Parses(RawOf(current)) {
      return CompareFailed;
    }
    if InetDiag.DiagState(RawOf(prior)) != InetDiag.DiagState(RawOf(current)) {
      return Change(IDiagStateChange);
    }
    if |prior.attributes| <= INET_DIAG_INFO || |current.attributes| <= INET_DIAG_INFO {
      return Change(NoTCPInfo);
    }
    if prior.attributes[INET_DIAG_INFO].None? || current.attributes[INET_DIAG_INFO].None? {
      return Change(NoTCPInfo);
    }
    var a, b := prior.attributes[INET_DIAG_INFO].value, current.attributes[INET_DIAG_INFO].value;
    if a[PMTU_OFFSET..BUSY_TIME_OFFSET] != b[PMTU_OFFSET..BUSY_TIME_OFFSET] {
      return Change(StateOrCounterChange);
    }
    if a[..LAST_DATA_SENT_OFFSET] != b[..LAST_DATA_SENT_OFFSET] {
      return Change(StateOrCounterChange);
    }
    if |prior.attributes| < |current.attributes| {
      return Change(NewAttribute);
    }
    if |prior.attributes| > |current.attributes| {
      return Change(LostAttribute);
    }
    for kind := 0 to |prior.attributes|
      invariant CompareSlots(prior.attributes, current.attributes, 0) ==
        CompareSlots(prior.attributes, current.attributes, kind)
    {
      if kind != INET_DIAG_INFO {
        var x, y := prior.attributes[kind], current.attributes[kind];
        if x.None? && y.Some? {
          return Change(NewAttribute);
        }
        if x.Some? && y.None? {
          return Change(LostAttribute);
        }
        if x.None? && y.None? {
          continue;
        }
        if |x.value| != |y.value| {
          return Change(AttributeLength);
        }
        if x.value != y.value {
          return Change(Other);
        }
      }
    }
    return Change(NoMajorChange);
  }

  /** The part of a record whose change is significant; None when there is no header or no TCPInfo. */
  datatype Significance = Significance(state: Byte, counters: seq<Byte>, early: seq<Byte>, others: seq<Slot>)

  function Significant(r: ArchivalRecord): Option<Significance>
    requires InfoLongEnough(r)
  {
    if !InetDiag.Parses(RawOf(r)) || InfoOf(r).None? then None
    else
      var info := InfoOf(r).value;
      Some(Significance(
        InetDiag.DiagState(RawOf(r)),
        info[PMTU_OFFSET..BUSY_TIME_OFFSET],
        info[..LAST_DATA_SENT_OFFSET],
        r.attributes[INET_DIAG_INFO := None]))
  }

  predicate Unchanged(current: ArchivalRecord, previous: ArchivalRecord)
    requires InfoLongEnough(current) && InfoLongEnough(previous)
  {
    CompareTo(current, Some(previous)) == Change(NoMajorChange)
  }

  lemma {:induction false} CompareSlotsExact(a: seq<Slot>, b: seq<Slot>, kind: nat)
    requires kind <= |a| == |b|
    ensures CompareSlots(a, b, kind) == NoMajorChange
      <==> forall i :: kind <= i < |a| && i != INET_DIAG_INFO ==> a[i] == b[i]
    ensures CompareSlots(b, a, kind) == Mirror(CompareSlots(a, b, kind))
    decreases |a| - kind
  {
    if kind < |a| {
      CompareSlotsExact(a, b, kind + 1);
    }
  }

  /** NoMajorChange is reported exactly when both records have the same significant part. */
  lemma UnchangedExact(current: ArchivalRecord, previous: ArchivalRecord)
    requires InfoLongEnough(current) && InfoLongEnough(previous)
    ensures Unchanged(current, previous) <==>
      Significant(current).Some? && Significant(current) == Significant(previous)
  {
    if Significant(current).Some? && Significant(previous).Some? {
      var a, b := previous.attributes, current.attributes;
      if |a| == |b| {
        CompareSlotsExact(a, b, 0);
        assert forall i :: 0 <= i < |a| && i != INET_DIAG_INFO ==>
            a[INET_DIAG_INFO := None][i] == a[i] && b[INET_DIAG_INFO := None][i] == b[i];
        if forall i :: 0 <= i < |a| && i != INET_DIAG_INFO ==> a[i] == b[i] {
          assert a[INET_DIAG_INFO := None] == b[INET_DIAG_INFO := None];
        }
      } else {
        assert |a[INET_DIAG_INFO := None]| == |a| && |b[INET_DIAG_INFO := None]| == |b|;
      }
    }
  }

  /** NoMajorChange is an equivalence on the records that have a header and TCPInfo. */
  lemma UnchangedIsEquivalence(a: ArchivalRecord, b: ArchivalRecord, c: ArchivalRecord)
    requires InfoLongEnough(a) && InfoLongEnough(b) && InfoLongEnough(c)
    ensures Unchanged(a, a) <==> InetDiag.Parses(RawOf(a)) && InfoOf(a).Some?
    ensures Unchanged(a, b) <==> Unchanged(b, a)
    ensures Unchanged(a, b) && Unchanged(b, c) ==> Unchanged(a, c)
  {
    UnchangedExact(a, a);
    UnchangedExact(a, b);
    UnchangedExact(b, a);
    UnchangedExact(b, c);
    UnchangedExact(a, c);
  }

  /** Exchanges gained and lost attributes. */
  function Mirror(c: ChangeType): ChangeType {
    match c
    case NewAttribute => LostAttribute
    case LostAttribute => NewAttribute
    case _ => c
  }

  /** Swapping the two records swaps NewAttribute and LostAttribute and changes nothing else. */
  lemma CompareSwaps(a: ArchivalRecord, b: ArchivalRecord)
    requires InfoLongEnough(a) && InfoLongEnough(b)
    ensures CompareTo(a, Some(b)).CompareFailed? <==> CompareTo(b, Some(a)).CompareFailed?
    ensures CompareTo(a, Some(b)).Change? ==> CompareTo(b, Some(a)) == Change(Mirror(CompareTo(a, Some(b)).change))
  {
    if |a.attributes| == |b.attributes| {
      CompareSlotsExact(b.attributes, a.attributes, 0);
    }
  }

  // ---------------------------------------------------------------- anonymized records

  /** b is a with some address bytes rewritten. */
  predicate SameButAddresses(a: ArchivalRecord, b: ArchivalRecord) {
    && a.timestamp == b.timestamp && a.attributes == b.attributes && a.metadata == b.metadata
    && a.rawIDM.Some? == b.rawIDM.Some?
    && InetDiag.SameButAddresses(RawOf(a), RawOf(b))
  }

  /** Nothing the saver decides by looks at an address. */
  lemma AddressesDoNotMatter(a: ArchivalRecord, a': ArchivalRecord, b: ArchivalRecord, b': ArchivalRecord)
    requires InfoLongEnough(a) && InfoLongEnough(b)
    requires SameButAddresses(a, a') && SameButAddresses(b, b')
    ensures InfoLongEnough(a') && InfoLongEnough(b')
    ensures HasDiagInfo(a) == HasDiagInfo(a') && GetStats(a) == GetStats(a')
    ensures CompareTo(a, Some(b)) == CompareTo(a', Some(b'))
  {
    InetDiag.AddressesDoNotMatter(RawOf(a), RawOf(a'));
    InetDiag.AddressesDoNotMatter(RawOf(b), RawOf(b'));
  }
}
