/** The raw inet_diag_msg header of a record: layout, accessors and in-place anonymization. */
module InetDiag {
  import opened Bytes

  // Size and field offsets of InetDiagMsg.
  const SIZEOF_INET_DIAG_MSG := 72
  const FAMILY_OFFSET := 0
  const STATE_OFFSET := 1
  const SPORT_OFFSET := 4
  const DPORT_OFFSET := 6
  const SRC_OFFSET := 8
  const DST_OFFSET := 24
  const IF_OFFSET := 40
  const COOKIE_OFFSET := 44
  const SIZEOF_IP := 16

  const AF_INET := 2
  const AF_INET6 := 10

  type Raw = seq<Byte>

  datatype AnonymizeError = ErrParseFailed | ErrUnknownAF

  datatype Anonymized = Ok(raw: Raw) | Err(error: AnonymizeError)

  /** Splits message data into the header and the attribute area; None is the nil header of the source. */
  function SplitInetDiagMsg(data: seq<Byte>): (r: Option<(Raw, seq<Byte>)>)
    ensures r.Some? <==> |data| >= 72
    ensures r.Some? ==> data == r.value.0 + r.value.1 && |r.value.0| == 72 && Parses(r.value.0)
  {
    var align := RtaAlignOf(SIZEOF_INET_DIAG_MSG);
    if |data| < align then None else Some((data[..align], data[align..]))
  }

  /** Whether Parse returns a header rather than ErrParseFailed. */
  predicate Parses(raw: Raw) {
    |raw| >= RtaAlignOf(SIZEOF_INET_DIAG_MSG)
  }

  function Cookie(raw: Raw): U64
    requires Parses(raw)
  {
    U64At(raw, COOKIE_OFFSET)
  }

  function DiagState(raw: Raw): Byte
    requires Parses(raw)
  {
    raw[STATE_OFFSET]
  }

  function Src(raw: Raw): (r: seq<Byte>)
    requires Parses(raw)
    ensures |r| == SIZEOF_IP
  {
    raw[SRC_OFFSET..SRC_OFFSET + SIZEOF_IP]
  }

  function Dst(raw: Raw): (r: seq<Byte>)
    requires Parses(raw)
    ensures |r| == SIZEOF_IP
  {
    raw[DST_OFFSET..DST_OFFSET + SIZEOF_IP]
  }

  /** The byte form net.IP gets: 16 bytes when any byte past the fourth is set, else 4. */
  function Ip(bytes: seq<Byte>): (r: seq<Byte>)
    requires |bytes| == SIZEOF_IP
    ensures r == if bytes[4..] == Zeros(12) then bytes[..4] else bytes
  {
    if exists i :: 4 <= i < SIZEOF_IP && bytes[i] != 0 then bytes
    else assert bytes[4..] == Zeros(12); bytes[..4]
  }

  /** Ports and interface are in network byte order. */
  function BigEndian(bytes: seq<Byte>): nat {
    if bytes == [] then 0 else 256 * BigEndian(bytes[..|bytes| - 1]) + bytes[|bytes| - 1]
  }

  /** A socket as it is announced. The cookie is stored signed. */
  datatype SockID = SockID(
    sPort: nat, dPort: nat, srcIP: seq<Byte>, dstIP: seq<Byte>, interface: nat, cookie: I64)

  /** GetSockID followed by CookieUint64 gives back the kernel's cookie. */
  function GetSockID(raw: Raw): (r: SockID)
    requires Parses(raw)
    ensures CookieUint64(r) == Cookie(raw)
  {
    SockID(
      BigEndian(raw[SPORT_OFFSET..DPORT_OFFSET]), BigEndian(raw[DPORT_OFFSET..SRC_OFFSET]), Ip(Src(raw)), Ip(Dst(raw)),
      BigEndian(raw[IF_OFFSET..COOKIE_OFFSET]), AsInt64(Cookie(raw)))
  }

  function CookieUint64(id: SockID): U64 {
    AsUint64(id.cookie)
  }

  // ---------------------------------------------------------------- anonymization

  ghost predicate LengthPreserving(anon: seq<Byte> -> seq<Byte>) {
    forall s :: |anon(s)| == |s|
  }

  /** An IP anonymizer rewrites an address in place, so it keeps the length. */
  type Anonymizer = anon: seq<Byte> -> seq<Byte> | LengthPreserving(anon) witness (s: seq<Byte>) => s

  /** How many bytes of each 16 byte address field are rewritten for an address family. */
  function AddressWidth(family: Byte): Option<nat> {
    if family == AF_INET6 then Some(SIZEOF_IP)
    else if family == AF_INET then Some(4)
    else None
  }

  /** raw with bytes [at, at + |with|) replaced. */
  function Splice(raw: Raw, at: nat, with: seq<Byte>): (r: Raw)
    requires at + |with| <= |raw|
    ensures |r| == |raw|
    ensures forall i :: 0 <= i < |raw| ==> r[i] == if at <= i < at + |with| then with[i - at] else raw[i]
  {
    raw[..at] + with + raw[at + |with|..]
  }

  /** What Anonymize leaves in the buffer, or the error it returns. */
  function Anonymize(anon: Anonymizer, raw: Raw): (r: Anonymized)
    ensures r.Ok? <==> |raw| >= 72 && raw[0] in {2, 10}
    ensures |raw| < 72 <==> r == Err(ErrParseFailed)
    ensures r.Ok? ==> |r.raw| == |raw| && r.raw[..8] == raw[..8] && r.raw[40..] == raw[40..]
    ensures r.Ok? && raw[0] == 10 ==> r.raw[8..24] == anon(raw[8..24]) && r.raw[24..40] == anon(raw[24..40])
    ensures r.Ok? && raw[0] == 2 ==>
      && r.raw[8..24] == anon(raw[8..12]) + raw[12..24]
      && r.raw[24..40] == anon(raw[24..28]) + raw[28..40]
    ensures r.Ok? ==> SameButAddresses(raw, r.raw)
  {
    if !Parses(raw) then Err(ErrParseFailed)
    else match AddressWidth(raw[FAMILY_OFFSET])
      case None => Err(ErrUnknownAF)
      case Some(w) =>
        var src := anon(raw[SRC_OFFSET..SRC_OFFSET + w]);
        var dst := anon(raw[DST_OFFSET..DST_OFFSET + w]);
        assert Src(raw)[..w] == raw[SRC_OFFSET..SRC_OFFSET + w] && Dst(raw)[..w] == raw[DST_OFFSET..DST_OFFSET + w];
        Ok(Splice(Splice(raw, SRC_OFFSET, src), DST_OFFSET, dst))
  }

  /** The source rewrites the shared buffer in place. */
  method AnonymizeInPlace(anon: Anonymizer, raw: array<Byte>) returns (error: Option<AnonymizeError>)
    modifies raw
    ensures match Anonymize(anon, old(raw[..]))
            case Ok(rewritten) => error.None? && raw[..] == rewritten
            case Err(e) => error == Some(e) && raw[..] == old(raw[..])
  {
    if !Parses(raw[..]) {
      return Some(ErrParseFailed);
    }
    var width := AddressWidth(raw[FAMILY_OFFSET]);
    if width.None? {
      return Some(ErrUnknownAF);
    }
    ghost var before := raw[..];
    RewriteAddress(anon, raw, SRC_OFFSET, width.value);
    ghost var between := raw[..];
    assert between[DST_OFFSET..DST_OFFSET + width.value] == before[DST_OFFSET..DST_OFFSET + width.value];
    RewriteAddress(anon, raw, DST_OFFSET, width.value);
    return None;
  }

  /** anon.IP on one address window of the buffer. */
  method RewriteAddress(anon: Anonymizer, raw: array<Byte>, at: nat, width: nat)
    requires at + width <= raw.Length
    modifies raw
    ensures raw[..] == Splice(old(raw[..]), at, anon(old(raw[at..at + width])))
  {
    var rewritten := anon(raw[at..at + width]);
    for i := 0 to width
      invariant forall j :: 0 <= j < raw.Length ==>
        raw[j] == if at <= j < at + i then rewritten[j - at] else old(raw[j])
    {
      raw[at + i] := rewritten[i];
    }
  }

  /** Two headers that agree everywhere outside the source and destination addresses. */
  predicate SameButAddresses(a: Raw, b: Raw) {
    && |a| == |b|
    && forall i :: 0 <= i < |a| && !(SRC_OFFSET <= i < DST_OFFSET + SIZEOF_IP) ==> a[i] == b[i]
  }

  /** Cookie, state and family do not depend on the addresses. */
  lemma AddressesDoNotMatter(a: Raw, b: Raw)
    requires SameButAddresses(a, b)
    ensures Parses(a) == Parses(b)
    ensures Parses(a) ==> Cookie(a) == Cookie(b) && DiagState(a) == DiagState(b)
  {
    if Parses(a) {
      assert a[COOKIE_OFFSET..COOKIE_OFFSET + 8] == b[COOKIE_OFFSET..COOKIE_OFFSET + 8];
    }
  }
}
