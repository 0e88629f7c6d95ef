/** The netlink route attribute list: a sequence of (length, type, value) entries padded to 4 bytes. */
module RouteAttr {
  import opened Bytes

  const SIZEOF_RT_ATTR := 4

  datatype Attr = Attr(kind: U16, value: seq<Byte>)

  /**
    Invalid is the EINVAL of netlinkRouteAttrAndValue.
    Panic is the slice expression b[alen:] with alen past the end of b.
   */
  datatype Outcome = Ok(attrs: seq<Attr>) | Invalid | Panic

  // ---------------------------------------------------------------- one header

  function LengthAt(b: seq<Byte>, at: nat): U16
    requires at + SIZEOF_RT_ATTR <= |b|
  {
    U16At(b, at)
  }

  predicate GoodHeader(b: seq<Byte>, at: nat) {
    && at + SIZEOF_RT_ATTR <= |b|
    && SIZEOF_RT_ATTR <= LengthAt(b, at) <= |b| - at
  }

  function AttrAt(b: seq<Byte>, at: nat): Attr
    requires GoodHeader(b, at)
  {
    Attr(U16At(b, at + 2), b[at + SIZEOF_RT_ATTR..at + LengthAt(b, at)])
  }

  function NextAt(b: seq<Byte>, at: nat): (r: nat)
    requires GoodHeader(b, at)
    ensures at + SIZEOF_RT_ATTR <= r < |b| + RTA_ALIGNTO
  {
    at + RtaAlignOf(LengthAt(b, at))
  }

  // ---------------------------------------------------------------- parsing

  /** What ParseRouteAttr makes of the part of b from offset at on. */
  function ParseFrom(b: seq<Byte>, at: nat): Outcome
    decreases |b| + RTA_ALIGNTO - at
  {
    if at > |b| then Panic
    else if |b| - at < SIZEOF_RT_ATTR then Ok([])
    else if !GoodHeader(b, at) then Invalid
    else
      match ParseFrom(b, NextAt(b, at))
      case Ok(rest) => Ok([AttrAt(b, at)] + rest)
      case Invalid => Invalid
      case Panic => Panic
  }

  function Prepend(attrs: seq<Attr>, o: Outcome): Outcome {
    match o
    case Ok(rest) => Ok(attrs + rest)
    case Invalid => Invalid
    case Panic => Panic
  }

  lemma SuffixHeader(buf: seq<Byte>, at: nat, b: seq<Byte>)
    requires at <= |buf| && b == buf[at..] && |b| >= SIZEOF_RT_ATTR
    ensures U16At(b, 0) == LengthAt(buf, at)
    ensures GoodHeader(buf, at) ==> Attr(U16At(b, 2), b[SIZEOF_RT_ATTR..U16At(b, 0)]) == AttrAt(buf, at)
  {
  }

  lemma PrependNext(buf: seq<Byte>, at: nat, attrs: seq<Attr>)
    requires GoodHeader(buf, at)
    ensures Prepend(attrs, ParseFrom(buf, at)) == Prepend(attrs + [AttrAt(buf, at)], ParseFrom(buf, NextAt(buf, at)))
  {
    var attr, rest := AttrAt(buf, at), ParseFrom(buf, NextAt(buf, at));
    assert rest.Ok? ==> attrs + ([attr] + rest.attrs) == attrs + [attr] + rest.attrs;
  }

  /** The loop over a shrinking slice. */
  method ParseRouteAttr(buf: seq<Byte>) returns (r: Outcome)
    ensures r == ParseFrom(buf, 0)
  {
    var b := buf;
    var attrs: seq<Attr> := [];
    ghost var at: nat := 0;
    while |b| >= SIZEOF_RT_ATTR
      invariant at <= |buf| && b == buf[at..]
      invariant Prepend(attrs, ParseFrom(buf, at)) == ParseFrom(buf, 0)
      decreases |b|
    {
      var length := U16At(b, 0);
      SuffixHeader(buf, at, b);
      if length < SIZEOF_RT_ATTR || length > |b| {
        return Invalid;
      }
      var alen := RtaAlignOf(length);
      if alen > |b| {
        return Panic;
      }
      PrependNext(buf, at, attrs);
      attrs := attrs + [Attr(U16At(b, 2), b[SIZEOF_RT_ATTR..length])];
      b := b[alen..];
      at := NextAt(buf, at);
    }
    assert attrs + [] == attrs;
    return Ok(attrs);
  }

  // ---------------------------------------------------------------- what the walk decides

  /** offsets lists header positions reached from the start of b by stepping over good headers. */
  ghost predicate Walk(b: seq<Byte>, offsets: seq<nat>) {
    && |offsets| > 0 && offsets[0] == 0
    && forall i :: 0 <= i < |offsets| - 1 ==> GoodHeader(b, offsets[i]) && offsets[i + 1] == NextAt(b, offsets[i])
  }

  function Last(offsets: seq<nat>): nat
    requires |offsets| > 0
  {
    offsets[|offsets| - 1]
  }

  /** The walk has used up b, but for at most 3 bytes too few for another header. */
  predicate EndsClean(b: seq<Byte>, at: nat) {
    at <= |b| < at + SIZEOF_RT_ATTR
  }

  /** The walk stands on a header whose length is below 4 or past the remaining bytes. */
  predicate EndsBad(b: seq<Byte>, at: nat) {
    at + SIZEOF_RT_ATTR <= |b| && !GoodHeader(b, at)
  }

  /** The padding of the last attribute would lie past the end of b. */
  predicate EndsPast(b: seq<Byte>, at: nat) {
    at > |b|
  }

  /** Any walk that reaches an end decides the outcome, and lists the attributes of a good one. */
  lemma {:induction false} WalkDecides(b: seq<Byte>, offsets: seq<nat>, i: nat)
    requires Walk(b, offsets) && i < |offsets|
    ensures EndsClean(b, Last(offsets)) ==>
      && ParseFrom(b, offsets[i]).Ok?
      && |ParseFrom(b, offsets[i]).attrs| == |offsets| - 1 - i
      && forall j :: i <= j < |offsets| - 1 ==> ParseFrom(b, offsets[i]).attrs[j - i] == AttrAt(b, offsets[j])
    ensures EndsBad(b, Last(offsets)) ==> ParseFrom(b, offsets[i]) == Invalid
    ensures EndsPast(b, Last(offsets)) ==> ParseFrom(b, offsets[i]) == Panic
    decreases |offsets| - i
  {
    if i < |offsets| - 1 {
      WalkDecides(b, offsets, i + 1);
    }
  }

  /** Every buffer has a walk that reaches one of the three ends. */
  lemma {:induction false} WalkExists(b: seq<Byte>, prefix: seq<nat>) returns (offsets: seq<nat>)
    requires Walk(b, prefix)
    ensures Walk(b, offsets)
    ensures EndsClean(b, Last(offsets)) || EndsBad(b, Last(offsets)) || EndsPast(b, Last(offsets))
    decreases |b| + RTA_ALIGNTO - Last(prefix)
  {
    if GoodHeader(b, Last(prefix)) {
      offsets := WalkExists(b, prefix + [NextAt(b, Last(prefix))]);
    } else {
      offsets := prefix;
    }
  }

  /**
    ParseRouteAttr succeeds, fails or panics exactly when the walk over the headers ends clean,
    on a bad header, or past the end of the buffer.
   */
  lemma ParseOutcome(b: seq<Byte>)
    ensures ParseFrom(b, 0).Ok? <==> exists offsets :: Walk(b, offsets) && EndsClean(b, Last(offsets))
    ensures ParseFrom(b, 0).Invalid? <==> exists offsets :: Walk(b, offsets) && EndsBad(b, Last(offsets))
    ensures ParseFrom(b, 0).Panic? <==> exists offsets :: Walk(b, offsets) && EndsPast(b, Last(offsets))
  {
    var witness_ := WalkExists(b, [0]);
    WalkDecides(b, witness_, 0);
    forall offsets | Walk(b, offsets)
      ensures EndsClean(b, Last(offsets)) ==> ParseFrom(b, 0).Ok?
      ensures EndsBad(b, Last(offsets)) ==> ParseFrom(b, 0).Invalid?
      ensures EndsPast(b, Last(offsets)) ==> ParseFrom(b, 0).Panic?
    {
      WalkDecides(b, offsets, 0);
    }
  }

  lemma NextAligned(b: seq<Byte>, at: nat)
    requires |b| % RTA_ALIGNTO == 0 && at % RTA_ALIGNTO == 0 && GoodHeader(b, at)
    ensures NextAt(b, at) % RTA_ALIGNTO == 0 && NextAt(b, at) <= |b|
  {
  }

  /** On a 4-aligned buffer every reachable offset is aligned and inside the buffer. */
  lemma {:induction false} WalkAligned(b: seq<Byte>, offsets: seq<nat>, i: nat)
    requires |b| % RTA_ALIGNTO == 0
    requires Walk(b, offsets) && i < |offsets|
    ensures offsets[i] % RTA_ALIGNTO == 0 && offsets[i] <= |b|
  {
    if i == 0 {
    } else {
      WalkAligned(b, offsets, i - 1);
      NextAligned(b, offsets[i - 1]);
    }
  }

  lemma EndsAligned(b: seq<Byte>, at: nat)
    requires |b| % RTA_ALIGNTO == 0 && at % RTA_ALIGNTO == 0
    ensures EndsClean(b, at) ==> at == |b|
  {
  }

  /** A 4-aligned buffer is never sliced out of range, and a successful parse uses every byte of it. */
  lemma AlignedIsSafe(b: seq<Byte>)
    requires |b| % 4 == 0
    ensures !ParseFrom(b, 0).Panic?
    ensures ParseFrom(b, 0).Ok? ==> exists offsets :: Walk(b, offsets) && Last(offsets) == |b|
  {
    var offsets := WalkExists(b, [0]);
    WalkDecides(b, offsets, 0);
    WalkAligned(b, offsets, |offsets| - 1);
    EndsAligned(b, Last(offsets));
  }

  /** One unpadded attribute of 5 bytes: the 4-alignment in AlignedIsSafe cannot be dropped. */
  lemma UnalignedPanics()
    ensures ParseFrom([5, 0, 8, 0, 1], 0) == Panic
  {
    var b: seq<Byte> := [5, 0, 8, 0, 1];
    assert GoodHeader(b, 0) && NextAt(b, 0) == 8;
    assert ParseFrom(b, 8) == Panic;
  }

  // ---------------------------------------------------------------- encoding

  /** An attribute whose total length fits the 16 bit length field. */
  predicate Encodable(a: Attr) {
    SIZEOF_RT_ATTR + |a.value| < 0x1_0000
  }

  function EncodeOne(a: Attr): (r: seq<Byte>)
    requires Encodable(a)
    ensures |r| == RtaAlignOf(SIZEOF_RT_ATTR + |a.value|)
  {
    var length := SIZEOF_RT_ATTR + |a.value|;
    U16Bytes(length) + U16Bytes(a.kind) + a.value + Zeros(RtaAlignOf(length) - length)
  }

  lemma SumAligned(a: nat, b: nat)
    requires a % RTA_ALIGNTO == 0 && b % RTA_ALIGNTO == 0
    ensures (a + b) % RTA_ALIGNTO == 0
  {
  }

  function Encode(attrs: seq<Attr>): (r: seq<Byte>)
    requires forall a :: a in attrs ==> Encodable(a)
    ensures |r| % RTA_ALIGNTO == 0
  {
    if attrs == [] then []
    else
      var head, tail := EncodeOne(attrs[0]), Encode(attrs[1..]);
      assert |head + tail| == |head| + |tail|;
      SumAligned(|head|, |tail|);
      head + tail
  }

  lemma HeaderReadsBack(before: seq<Byte>, a: Attr, after: seq<Byte>)
    requires Encodable(a)
    ensures
      var b := before + EncodeOne(a) + after;
      U16At(b, |before|) == SIZEOF_RT_ATTR + |a.value| && U16At(b, |before| + 2) == a.kind
  {
    var b, at, e := before + EncodeOne(a) + after, |before|, EncodeOne(a);
    var length := U16Bytes(SIZEOF_RT_ATTR + |a.value|);
    assert e[0] == length[0] && e[1] == length[1] && e[2] == U16Bytes(a.kind)[0] && e[3] == U16Bytes(a.kind)[1];
    assert b[at] == e[0] && b[at + 1] == e[1] && b[at + 2] == e[2] && b[at + 3] == e[3];
  }

  lemma ValueReadsBack(before: seq<Byte>, a: Attr, after: seq<Byte>)
    requires Encodable(a)
    ensures
      var b, at := before + EncodeOne(a) + after, |before| + SIZEOF_RT_ATTR;
      b[at..at + |a.value|] == a.value
  {
    var b, at, e := before + EncodeOne(a) + after, |before|, EncodeOne(a);
    forall i | 0 <= i < |a.value| ensures b[at + SIZEOF_RT_ATTR + i] == a.value[i] {
      assert b[at + (SIZEOF_RT_ATTR + i)] == e[SIZEOF_RT_ATTR + i];
    }
  }

  /** The header and value written by EncodeOne are read back wherever they lie. */
  lemma HeadReadsBack(before: seq<Byte>, a: Attr, after: seq<Byte>)
    requires Encodable(a)
    ensures
      var b := before + EncodeOne(a) + after;
      && GoodHeader(b, |before|)
      && AttrAt(b, |before|) == a
      && NextAt(b, |before|) == |before| + |EncodeOne(a)|
  {
    HeaderReadsBack(before, a, after);
    ValueReadsBack(before, a, after);
  }

  /** Parsing the encoding of any attribute list returns that list. */
  lemma {:induction false} RoundTrip(before: seq<Byte>, attrs: seq<Attr>)
    requires forall a :: a in attrs ==> Encodable(a)
    ensures ParseFrom(before + Encode(attrs), |before|) == Ok(attrs)
    decreases |attrs|
  {
    if attrs == [] {
      assert before + Encode(attrs) == before;
    } else {
      var b := before + Encode(attrs);
      var at := |before|;
      var next := before + EncodeOne(attrs[0]);
      assert b == next + Encode(attrs[1..]);
      assert GoodHeader(b, at) && AttrAt(b, at) == attrs[0] && NextAt(b, at) == |next| by {
        HeadReadsBack(before, attrs[0], Encode(attrs[1..]));
      }
      assert ParseFrom(b, |next|) == Ok(attrs[1..]) by {
        RoundTrip(next, attrs[1..]);
      }
      assert [attrs[0]] + attrs[1..] == attrs;
    }
  }

  lemma {:induction false} ParsedIsEncodable(b: seq<Byte>, at: nat)
    ensures ParseFrom(b, at).Ok? ==> forall a :: a in ParseFrom(b, at).attrs ==> Encodable(a)
    decreases |b| + RTA_ALIGNTO - at
  {
    if GoodHeader(b, at) {
      ParsedIsEncodable(b, NextAt(b, at));
    }
  }

  /** Parsing inverts the padded encoding. */
  lemma ParseInvertsEncode(attrs: seq<Attr>)
    requires forall a :: a in attrs ==> Encodable(a)
    ensures ParseFrom(Encode(attrs), 0) == Ok(attrs)
  {
    RoundTrip([], attrs);
    assert [] + Encode(attrs) == Encode(attrs);
  }

  /** Whatever was parsed, of any buffer, can be encoded afresh, and parses to the same list. */
  lemma ParsedAgain(b: seq<Byte>)
    requires ParseFrom(b, 0).Ok?
    ensures forall a :: a in ParseFrom(b, 0).attrs ==> Encodable(a)
    ensures ParseFrom(Encode(ParseFrom(b, 0).attrs), 0) == ParseFrom(b, 0)
  {
    ParsedIsEncodable(b, 0);
    ParseInvertsEncode(ParseFrom(b, 0).attrs);
  }
}
