/** Each answer of Compare, said of the bytes and slots of the two records, with the offsets as numbers. */
module CompareAnswers {
  import opened Bytes
  import InetDiag
  import opened Archival

  /** Both records have a header of 72 bytes. */
  predicate Headers(a: ArchivalRecord, b: ArchivalRecord) {
    |RawOf(a)| >= 72 && |RawOf(b)| >= 72
  }

  /** The TCP state is byte 1 of the header. */
  predicate SameState(a: ArchivalRecord, b: ArchivalRecord)
    requires Headers(a, b)
  {
    RawOf(a)[1] == RawOf(b)[1]
  }

  /** The TCPInfo attribute is in slot 2. */
  predicate HasInfo(a: ArchivalRecord) {
    |a.attributes| > 2 && a.attributes[2].Some?
  }

  /** The parts of TCPInfo that count: bytes 0 to 43 and 60 to 167. */
  predicate SameInfo(a: ArchivalRecord, b: ArchivalRecord)
    requires HasInfo(a) && HasInfo(b) && InfoLongEnough(a) && InfoLongEnough(b)
  {
    var x, y := a.attributes[2].value, b.attributes[2].value;
    && (forall i :: 0 <= i < 44 ==> x[i] == y[i])
    && (forall i :: 60 <= i < 168 ==> x[i] == y[i])
  }

  /** The records agree as far as they are looked at before the tables. */
  predicate SameSoFar(a: ArchivalRecord, b: ArchivalRecord)
    requires InfoLongEnough(a) && InfoLongEnough(b)
  {
    Headers(a, b) && SameState(a, b) && HasInfo(a) && HasInfo(b) && SameInfo(a, b)
  }

  /** Slot i is the first, other than slot 2, in which the tables differ. */
  predicate FirstDifference(a: seq<Slot>, b: seq<Slot>, i: nat) {
    && i < |a| == |b| && i != 2 && a[i] != b[i]
    && forall j :: 0 <= j < i && j != 2 ==> a[j] == b[j]
  }

  predicate SameTables(a: seq<Slot>, b: seq<Slot>) {
    |a| == |b| && forall i :: 0 <= i < |a| && i != 2 ==> a[i] == b[i]
  }

  /** The first slot that differs does so in this way. */
  ghost predicate FirstDiffers(a: seq<Slot>, b: seq<Slot>, how: (Slot, Slot) -> bool) {
    exists i: nat :: FirstDifference(a, b, i) && how(a[i], b[i])
  }

  predicate IsNew(x: Slot, y: Slot) {
    x.None? && y.Some?
  }

  predicate IsLost(x: Slot, y: Slot) {
    x.Some? && y.None?
  }

  predicate HasNewLength(x: Slot, y: Slot) {
    x.Some? && y.Some? && |x.value| != |y.value|
  }

  predicate HasNewBytes(x: Slot, y: Slot) {
    x.Some? && y.Some? && |x.value| == |y.value| && x.value != y.value
  }

  // ---------------------------------------------------------------- the loop over the slots

  /** What a difference in a slot is called. */
  predicate Called(x: Slot, y: Slot, c: ChangeType) {
    || (c == NewAttribute && IsNew(x, y)) || (c == LostAttribute && IsLost(x, y))
    || (c == AttributeLength && HasNewLength(x, y)) || (c == Other && HasNewBytes(x, y))
  }

  /** The loop names the first difference from a slot on, if there is one. */
  lemma {:induction false} SlotsAnswer(a: seq<Slot>, b: seq<Slot>, from: nat) returns (i: nat)
    requires from <= |a| == |b|
    ensures from <= i <= |a| && forall j :: from <= j < i && j != 2 ==> a[j] == b[j]
    ensures i == |a| ==> CompareSlots(a, b, from) == NoMajorChange
    ensures i < |a| ==> i != 2 && a[i] != b[i] && Called(a[i], b[i], CompareSlots(a, b, from))
    decreases |a| - from
  {
    if from == |a| {
      i := from;
    } else if from == 2 || a[from] == b[from] {
      i := SlotsAnswer(a, b, from + 1);
    } else {
      i := from;
    }
  }

  lemma TablesAnswer(a: seq<Slot>, b: seq<Slot>)
    requires |a| == |b|
    ensures
      var c := CompareSlots(a, b, 0);
      && (c == NoMajorChange <==> SameTables(a, b))
      && (c == NewAttribute <==> FirstDiffers(a, b, IsNew))
      && (c == LostAttribute <==> FirstDiffers(a, b, IsLost))
      && (c == AttributeLength <==> FirstDiffers(a, b, HasNewLength))
      && (c == Other <==> FirstDiffers(a, b, HasNewBytes))
      && c !in {IDiagStateChange, NoTCPInfo, StateOrCounterChange, PreviousWasNil}
  {
    var i := SlotsAnswer(a, b, 0);
    if i == |a| {
      assert SameTables(a, b);
      assert forall j: nat :: !FirstDifference(a, b, j);
    } else {
      assert FirstDifference(a, b, i);
      assert forall j: nat :: FirstDifference(a, b, j) ==> j == i;
    }
  }

  // ---------------------------------------------------------------- every answer

  lemma InfoWindows(a: ArchivalRecord, b: ArchivalRecord)
    requires HasInfo(a) && HasInfo(b) && InfoLongEnough(a) && InfoLongEnough(b)
    ensures
      var x, y := InfoOf(a).value, InfoOf(b).value;
      SameInfo(a, b) <==> x[60..168] == y[60..168] && x[..44] == y[..44]
  {
    var x, y := InfoOf(a).value, InfoOf(b).value;
    if x[60..168] == y[60..168] && x[..44] == y[..44] {
      assert forall i :: 60 <= i < 168 ==> x[60..168][i - 60] == x[i] && y[60..168][i - 60] == y[i];
      assert forall i :: 0 <= i < 44 ==> x[..44][i] == x[i] && y[..44][i] == y[i];
    }
  }

  /** Up to the tables: no previous record, a bad header, another state, no TCPInfo, or a change in it. */
  lemma EarlyAnswers(current: ArchivalRecord, previous: Option<ArchivalRecord>)
    requires InfoLongEnough(current) && (previous.Some? ==> InfoLongEnough(previous.value))
    ensures CompareTo(current, previous) == Change(PreviousWasNil) <==> previous.None?
    ensures CompareTo(current, previous) == CompareFailed <==> previous.Some? && !Headers(previous.value, current)
    ensures CompareTo(current, previous) == Change(IDiagStateChange) <==>
      previous.Some? && Headers(previous.value, current) && !SameState(previous.value, current)
    ensures CompareTo(current, previous) == Change(NoTCPInfo) <==>
      && previous.Some? && Headers(previous.value, current) && SameState(previous.value, current)
      && !(HasInfo(previous.value) && HasInfo(current))
    ensures CompareTo(current, previous) == Change(StateOrCounterChange) <==>
      && previous.Some? && Headers(previous.value, current) && SameState(previous.value, current)
      && HasInfo(previous.value) && HasInfo(current) && !SameInfo(previous.value, current)
  {
    if previous.Some? {
      var prior := previous.value;
      if HasInfo(prior) && HasInfo(current) {
        InfoWindows(prior, current);
        if |prior.attributes| == |current.attributes| {
          TablesAnswer(prior.attributes, current.attributes);
        }
      }
    }
  }

  /** At the tables: longer, shorter, or by the first slot that differs. */
  lemma TableAnswers(current: ArchivalRecord, previous: ArchivalRecord)
    requires InfoLongEnough(current) && InfoLongEnough(previous)
    ensures
      var r, a, b := CompareTo(current, Some(previous)), previous.attributes, current.attributes;
      && (r == Change(NewAttribute) <==> SameSoFar(previous, current) && (|a| < |b| || FirstDiffers(a, b, IsNew)))
      && (r == Change(LostAttribute) <==> SameSoFar(previous, current) && (|a| > |b| || FirstDiffers(a, b, IsLost)))
      && (r == Change(AttributeLength) <==> SameSoFar(previous, current) && FirstDiffers(a, b, HasNewLength))
      && (r == Change(Other) <==> SameSoFar(previous, current) && FirstDiffers(a, b, HasNewBytes))
      && (r == Change(NoMajorChange) <==> SameSoFar(previous, current) && SameTables(a, b))
  {
    EarlyAnswers(current, Some(previous));
    if SameSoFar(previous, current) {
      InfoWindows(previous, current);
      if |previous.attributes| == |current.attributes| {
        TablesAnswer(previous.attributes, current.attributes);
      }
    }
  }
}
