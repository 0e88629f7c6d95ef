/** The rate histograms: what is observed, and how it adds up, whatever the accounting does. */
module Rates {
  import opened Bytes
  import opened Archival
  import opened SaverModel
  import opened Sums

  function SumBits(bits: seq<int>): int {
    if bits == [] then 0 else SumBits(bits[..|bits| - 1]) + bits[|bits| - 1]
  }

  predicate InRange(bits: seq<int>) {
    forall i :: 0 <= i < |bits| ==> 0 <= bits[i] <= 100_000_000_000
  }

  /** An observed value, with the second of its report. */
  datatype Entry = Entry(second: int, bits: int)

  /** The observation of one counter that an action makes, if it does. */
  function EntryOf(k: Counter, s: State, a: Action): seq<Entry> {
    if a.EndBlock? && Unix(a.v4Time) > s.tally.lastReport then
      match Observation(Of(k, Totals(s)), Of(k, s.tally.reported))
      case None => []
      case Some(bits) => [Entry(Unix(a.v4Time), bits)]
    else []
  }

  /** The observations of one counter that a run makes. */
  function Entries(k: Counter, env: Env, actions: seq<Action>): seq<Entry>
    requires IsRun(env, actions)
  {
    if actions == [] then []
    else
      var n := |actions| - 1;
      RunSplits(env, actions);
      Entries(k, env, actions[..n]) + EntryOf(k, After(env, actions[..n]), actions[n])
  }

  /** The values in the histogram of one counter. */
  function BitsOf(k: Counter, t: Tally): seq<int> {
    match k
    case Sent => t.sentBits
    case Received => t.receivedBits
  }

  /** The histogram holds exactly these observations, and no second has more than one. */
  predicate Records(bits: seq<int>, lastReport: int, entries: seq<Entry>) {
    && |bits| == |entries|
    && (forall i :: 0 <= i < |entries| ==> bits[i] == entries[i].bits && entries[i].second <= lastReport)
    && forall i, j :: 0 <= i < j < |entries| ==> entries[i].second < entries[j].second
  }

  /** An observation is in range even when the uint64 threshold wraps. */
  lemma ObservationInRange(total: U64, reported: U64)
    ensures
      var o := Observation(total, reported);
      o.Some? ==> reported <= total && o.value == 8 * (total - reported) && 0 <= o.value <= 100_000_000_000
  {
    WrapShift(MAX_INCREMENT + reported - TWO64);
  }

  /** A total is accepted exactly when it is from 0 to 12.5 billion bytes above a value that far below 2^64. */
  lemma ObservationExact(total: U64, reported: U64)
    ensures Observation(total, reported) ==
      if reported <= total <= reported + 12_500_000_000 && reported + 12_500_000_000 < 0x1_0000_0000_0000_0000
      then Some(8 * (total - reported)) else None
  {
    WrapShift(MAX_INCREMENT + reported - TWO64);
  }

  /** Time is in nanoseconds, and a second has a billion of them, before 1970 as well as after. */
  lemma SecondOf(t: Time, second: int)
    ensures Unix(t) == second <==> 1_000_000_000 * second <= t < 1_000_000_000 * (second + 1)
  {
  }

  /** At the end of a block, the counter is observed exactly in these cases, and with this value. */
  lemma ObservedWhen(k: Counter, s: State, t: Time)
    requires 0 <= Of(k, s.tally.reported) < TWO64
    ensures
      var total, reported, entry := Of(k, Totals(s)), Of(k, s.tally.reported), EntryOf(k, s, EndBlock(t));
      && (entry != [] <==>
            && t >= 1_000_000_000 * (s.tally.lastReport + 1)
            && reported <= total <= reported + 12_500_000_000
            && reported + 12_500_000_000 < 0x1_0000_0000_0000_0000)
      && (entry != [] ==>
            && |entry| == 1 && entry[0].bits == 8 * (total - reported)
            && 1_000_000_000 * entry[0].second <= t < 1_000_000_000 * (entry[0].second + 1))
  {
    ObservationExact(Of(k, Totals(s)), Of(k, s.tally.reported));
    SecondOf(t, Unix(t));
  }

  /** Before the first report, every block from the year 1 on is late enough for one. */
  lemma FirstReport(k: Counter, s: State, t: Time)
    requires s.tally == NEW_TALLY && Of(k, Totals(s)) <= 12_500_000_000
    ensures EntryOf(k, s, EndBlock(t)) != [] <==> t >= 1_000_000_000 * -62_135_596_799
  {
    ObservedWhen(k, s, t);
  }

  /** A new second in which no bytes were added is observed as 0. */
  lemma IdleSecondIsObserved(k: Counter, s: State, t: Time)
    requires 0 <= Of(k, s.tally.reported) && Of(k, s.tally.reported) + 12_500_000_000 < 0x1_0000_0000_0000_0000
    requires Of(k, Totals(s)) == Of(k, s.tally.reported) && t >= 1_000_000_000 * (s.tally.lastReport + 1)
    ensures EntryOf(k, s, EndBlock(t)) == [Entry(Unix(t), 0)]
  {
    ObservedWhen(k, s, t);
    SecondOf(t, Unix(t));
  }

  lemma ObservedKeeps(bits: seq<int>, total: U64, reported: U64)
    requires InRange(bits) && SumBits(bits) == 8 * reported
    ensures
      var o := Observation(total, reported);
      var reported' := if o.Some? then total else reported;
      && InRange(Observed(bits, o))
      && SumBits(Observed(bits, o)) == 8 * reported'
      && |bits| <= |Observed(bits, o)| <= |bits| + 1
  {
    ObservationInRange(total, reported);
    var o := Observation(total, reported);
    if o.Some? {
      assert (bits + [o.value])[..|bits|] == bits;
    }
  }

  /** What holds of a histogram, the value reported, the time of the last report, and the observations made. */
  predicate Agree(bits: seq<int>, reported: int, lastReport: int, entries: seq<Entry>) {
    && 0 <= reported < TWO64 && InRange(bits) && SumBits(bits) == 8 * reported
    && Records(bits, lastReport, entries)
  }

  predicate RatesInv(k: Counter, t: Tally, entries: seq<Entry>) {
    Agree(BitsOf(k, t), Of(k, t.reported), t.lastReport, entries)
  }

  lemma ObservationAgrees(bits: seq<int>, total: U64, reported: U64, lastReport: int, entries: seq<Entry>, second: int)
    requires Agree(bits, reported, lastReport, entries) && second > lastReport
    ensures
      var o := Observation(total, reported);
      var entry := if o.Some? then [Entry(second, o.value)] else [];
      Agree(Observed(bits, o), if o.Some? then total else reported, second, entries + entry)
  {
    ObservedKeeps(bits, total, reported);
    var o := Observation(total, reported);
    if o.Some? {
      RecordsSnoc(bits, lastReport, entries, Entry(second, o.value));
    } else {
      assert entries + [] == entries;
    }
  }

  lemma RecordsSnoc(bits: seq<int>, lastReport: int, entries: seq<Entry>, e: Entry)
    requires Records(bits, lastReport, entries) && e.second > lastReport
    ensures Records(bits + [e.bits], e.second, entries + [e])
  {
  }

  lemma ReportParts(k: Counter, s: State, v4Time: Time)
    requires Unix(v4Time) > s.tally.lastReport
    ensures
      var t, o := Report(s, v4Time).tally, Observation(Of(k, Totals(s)), Of(k, s.tally.reported));
      && BitsOf(k, t) == Observed(BitsOf(k, s.tally), o) && t.lastReport == Unix(v4Time)
      && Of(k, t.reported) == if o.Some? then Of(k, Totals(s)) else Of(k, s.tally.reported)
  {
  }

  lemma ReportKeepsRates(k: Counter, s: State, v4Time: Time, entries: seq<Entry>)
    requires RatesInv(k, s.tally, entries) && Unix(v4Time) > s.tally.lastReport
    ensures RatesInv(k, Report(s, v4Time).tally, entries + EntryOf(k, s, EndBlock(v4Time)))
  {
    var t := s.tally;
    ReportParts(k, s, v4Time);
    ObservationAgrees(BitsOf(k, t), Of(k, Totals(s)), Of(k, t.reported), t.lastReport, entries, Unix(v4Time));
  }

  /** Everything but the report leaves these alone. */
  lemma OthersKeepRates(k: Counter, env: Env, s: State, a: Action)
    requires Enabled(s, a)
    ensures
      var t, t' := s.tally, Step(env, s, a).tally;
      if a.EndBlock? && Unix(a.v4Time) > t.lastReport then
        var r := Report(s, a.v4Time).tally;
        BitsOf(k, t') == BitsOf(k, r) && t'.reported == r.reported && t'.lastReport == r.lastReport
      else BitsOf(k, t') == BitsOf(k, t) && t'.reported == t.reported && t'.lastReport == t.lastReport
  {
  }

  lemma StepKeepsRates(k: Counter, env: Env, s: State, a: Action, entries: seq<Entry>)
    requires Enabled(s, a) && RatesInv(k, s.tally, entries)
    ensures RatesInv(k, Step(env, s, a).tally, entries + EntryOf(k, s, a))
  {
    OthersKeepRates(k, env, s, a);
    if a.EndBlock? && Unix(a.v4Time) > s.tally.lastReport {
      ReportKeepsRates(k, s, a.v4Time, entries);
    } else {
      assert EntryOf(k, s, a) == [];
      assert entries + [] == entries;
    }
  }

  /**
    In every run, whatever the accounting does: the observations of each counter add up to 8 times the bytes
    reported, each lies between 0 and 10 times the switch speed, and each belongs to a report of its own second.
   */
  lemma {:induction false} ObservationsAddUp(k: Counter, env: Env, actions: seq<Action>)
    requires IsRun(env, actions)
    ensures RatesInv(k, After(env, actions).tally, Entries(k, env, actions))
  {
    if actions == [] {
    } else {
      var n := |actions| - 1;
      RunSplits(env, actions);
      ObservationsAddUp(k, env, actions[..n]);
      StepKeepsRates(k, env, After(env, actions[..n]), actions[n], Entries(k, env, actions[..n]));
    }
  }
}
