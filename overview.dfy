/** The overview chart's data: each appointment's start hour classified as
    morning, afternoon or evening, counted per slot. */
module OverviewChart {
  import opened Appointments
  import Text
  import Buckets

  datatype Slot = Morning | Afternoon | Evening

  /** A number produced by `parseInt`: an integer or NaN. */
  datatype Hour = Num(value: int) | NaN

  /** One bar of the chart. */
  datatype SlotTotal = SlotTotal(name: Slot, total: nat)

  predicate IsDigit(c: char)
  {
    '0' <= c <= '9'
  }

  function DigitValue(c: char): nat
    requires IsDigit(c)
  {
    c as int - '0' as int
  }

  /** The longest prefix of `s` made of decimal digits. */
  function LeadingDigits(s: string): (ds: string)
    ensures ds <= s
    ensures forall i :: 0 <= i < |ds| ==> IsDigit(ds[i])
    ensures |ds| < |s| ==> !IsDigit(s[|ds|])
  {
    if s == [] || !IsDigit(s[0]) then [] else [s[0]] + LeadingDigits(s[1..])
  }

  /** The value of a string of decimal digits. */
  function DigitsValue(ds: string): nat
    requires forall i :: 0 <= i < |ds| ==> IsDigit(ds[i])
    decreases |ds|
  {
    if ds == [] then 0 else 10 * DigitsValue(ds[..|ds| - 1]) + DigitValue(ds[|ds| - 1])
  }

  /** `s` without a leading sign. */
  function Unsigned(s: string): string
  {
    if |s| > 0 && (s[0] == '-' || s[0] == '+') then s[1..] else s
  }

  /** `parseInt(s)`: an optional sign, then the leading decimal digits; NaN
      when no digit follows. */
  function ParseInt(s: string): (h: Hour)
    ensures h.NaN? <==> LeadingDigits(Unsigned(s)) == []
    ensures h.Num? && !(|s| > 0 && s[0] == '-') ==> h.value >= 0
  {
    var digits := LeadingDigits(Unsigned(s));
    if digits == [] then NaN
    else if |s| > 0 && s[0] == '-' then Num(-(DigitsValue(digits) as int))
    else Num(DigitsValue(digits))
  }

  /** `hour < 12 ? 'Morning' : hour < 17 ? 'Afternoon' : 'Evening'`; NaN
      fails both comparisons and so is evening. */
  function Classify(h: Hour): (slot: Slot)
    ensures slot == Morning <==> h.Num? && h.value < 12
    ensures slot == Afternoon <==> h.Num? && 12 <= h.value < 17
    ensures slot == Evening <==> h.NaN? || h.value >= 17
  {
    match h
    case NaN => Evening
    case Num(n) => if n < 12 then Morning else if n < 17 then Afternoon else Evening
  }

  /** The slot of a start time: `parseInt(startTime.split(':')[0])`,
      classified. A start time is in the morning exactly when the text before
      its first ':' reads as an hour below 12, in the afternoon from 12 to 16,
      and in the evening from 17 on or when it reads as no number at all. */
  function SlotOfTime(startTime: string): (slot: Slot)
    ensures var h := ParseInt(Text.FirstPiece(startTime, ':'));
      && (slot == Morning <==> h.Num? && h.value < 12)
      && (slot == Afternoon <==> h.Num? && 12 <= h.value < 17)
      && (slot == Evening <==> h.NaN? || h.value >= 17)
  {
    Classify(ParseInt(Text.FirstPiece(startTime, ':')))
  }

  /** The slot of an appointment is that of its start time. */
  function SlotOf(a: Appointment): Slot
  {
    SlotOfTime(a.startTime)
  }

  /** A string of digits is its own run of leading digits. */
  lemma {:induction false} AllDigitsLead(ds: string)
    requires forall i :: 0 <= i < |ds| ==> IsDigit(ds[i])
    ensures LeadingDigits(ds) == ds
    decreases |ds|
  {
    if ds != [] {
      AllDigitsLead(ds[1..]);
    }
  }

  /** For a time of the form `H...H:...` (one or more digits, then ':') the
      hour is the number those digits spell. */
  lemma ClockHour(t: string, k: nat)
    requires 0 < k < |t| && t[k] == ':'
    requires forall i :: 0 <= i < k ==> IsDigit(t[i])
    ensures ParseInt(Text.FirstPiece(t, ':')) == Num(DigitsValue(t[..k]))
  {
    var piece := Text.FirstPiece(t, ':');
    assert piece == t[..k];
    AllDigitsLead(piece);
    assert Unsigned(piece) == piece;
  }

  /** `"9:30"` is at hour 9, in the morning. */
  lemma SingleDigitHourExample()
    ensures ParseInt(Text.FirstPiece("9:30", ':')) == Num(9)
    ensures SlotOfTime("9:30") == Morning
  {
    ClockHour("9:30", 1);
    assert "9:30"[..1] == "9";
    assert "9"[..0] == [];
  }

  /** A start time that does not begin with a digit or a sign has no hour,
      and is counted as evening. */
  lemma NonNumericIsEvening(t: string)
    requires t == [] || (!IsDigit(t[0]) && t[0] != '-' && t[0] != '+')
    ensures ParseInt(Text.FirstPiece(t, ':')) == NaN
    ensures SlotOfTime(t) == Evening
  {
    var piece := Text.FirstPiece(t, ':');
    if piece != [] {
      assert piece[0] == t[0];
    }
  }

  // ---------------------------------------------------------------------
  // The accumulator

  /** One step of the reduce, `acc.find(d => d.name === slot)` followed by
      an increment of the entry found, or by a push of a new entry with
      total 1 when there is none. */
  function Tally(acc: seq<SlotTotal>, slot: Slot): (r: seq<SlotTotal>)
    ensures |acc| <= |r| <= |acc| + 1
    ensures forall i :: 0 <= i < |acc| ==> r[i].name == acc[i].name
    ensures |r| == |acc| + 1 ==> r[|acc|] == SlotTotal(slot, 1)
    ensures SumTotals(r) == SumTotals(acc) + 1
  {
    if acc == [] then [SlotTotal(slot, 1)]
    else if acc[0].name == slot then [acc[0].(total := acc[0].total + 1)] + acc[1..]
    else [acc[0]] + Tally(acc[1..], slot)
  }

  /** When `j` is the first entry named `slot`, that entry is incremented. */
  lemma {:induction false} TallyFound(acc: seq<SlotTotal>, slot: Slot, j: nat)
    requires j < |acc| && acc[j].name == slot
    requires forall i :: 0 <= i < j ==> acc[i].name != slot
    ensures Tally(acc, slot) == acc[j := acc[j].(total := acc[j].total + 1)]
  {
    if j > 0 {
      TallyFound(acc[1..], slot, j - 1);
    }
  }

  /** When no entry is named `slot`, a new entry is pushed. */
  lemma {:induction false} TallyMissing(acc: seq<SlotTotal>, slot: Slot)
    requires forall i :: 0 <= i < |acc| ==> acc[i].name != slot
    ensures Tally(acc, slot) == acc + [SlotTotal(slot, 1)]
  {
    if acc != [] {
      TallyMissing(acc[1..], slot);
    }
  }

  /** The chart data after the reduce has consumed `s`. */
  function Histogram(s: seq<Appointment>): (r: seq<SlotTotal>)
    ensures |r| <= |s|
    ensures r == [] <==> s == []
    ensures SumTotals(r) == |s|
    decreases |s|
  {
    if s == [] then [] else Tally(Histogram(s[..|s| - 1]), SlotOf(s[|s| - 1]))
  }

  /** The body of the reduce: find the slot's entry, then increment it or
      push a new one. */
  method CountSlot(acc: seq<SlotTotal>, slot: Slot) returns (r: seq<SlotTotal>)
    ensures r == Tally(acc, slot)
  {
    var j := 0;
    while j < |acc| && acc[j].name != slot
      invariant 0 <= j <= |acc|
      invariant forall k :: 0 <= k < j ==> acc[k].name != slot
    {
      j := j + 1;
    }
    if j < |acc| {
      TallyFound(acc, slot, j);
      r := acc[j := acc[j].(total := acc[j].total + 1)];
    } else {
      TallyMissing(acc, slot);
      r := acc + [SlotTotal(slot, 1)];
    }
  }

  /** The reduce that builds the chart data, one appointment at a time. */
  method OverviewData(appointments: seq<Appointment>) returns (data: seq<SlotTotal>)
    ensures data == Histogram(appointments)
  {
    data := [];
    var i := 0;
    while i < |appointments|
      invariant 0 <= i <= |appointments|
      invariant data == Histogram(appointments[..i])
    {
      data := CountSlot(data, SlotOf(appointments[i]));
      assert appointments[..i + 1][..i] == appointments[..i];
      i := i + 1;
    }
    assert appointments[..i] == appointments;
  }

  /** `acc` is the chart data of `s`: its entries are the slots of `s` in
      order of first occurrence, and each entry's total is the number of
      appointments of `s` in its slot. */
  ghost predicate Describes(acc: seq<SlotTotal>, s: seq<Appointment>)
  {
    var f := Buckets.FirstOccurrences(s, SlotOf);
    && |acc| == |f|
    && forall j :: 0 <= j < |acc| ==>
         acc[j].name == f[j] && acc[j].total == |Buckets.Select(s, SlotOf, f[j])|
  }

  /** A step that finds the slot's entry keeps the accumulator describing
      what it has consumed. */
  lemma {:induction false} TallyStepFound(acc: seq<SlotTotal>, p: seq<Appointment>, x: Appointment, j: nat)
    requires Describes(acc, p)
    requires j < |acc| && acc[j].name == SlotOf(x)
    ensures Describes(Tally(acc, SlotOf(x)), p + [x])
  {
    var k := SlotOf(x);
    var f := Buckets.FirstOccurrences(p, SlotOf);
    Buckets.FirstOccurrencesSnoc(p, x, SlotOf);
    assert forall i :: 0 <= i < j ==> acc[i].name != k;
    var acc' := acc[j := acc[j].(total := acc[j].total + 1)];
    forall i | 0 <= i < |acc'|
      ensures acc'[i].name == f[i] && acc'[i].total == |Buckets.Select(p + [x], SlotOf, f[i])|
    {
      Buckets.SelectSnoc(p, x, SlotOf, f[i]);
    }
    assert Describes(acc', p + [x]);
    TallyFound(acc, k, j);
  }

  /** A step that pushes a new entry keeps the accumulator describing what it
      has consumed. */
  lemma {:induction false} TallyStepMissing(acc: seq<SlotTotal>, p: seq<Appointment>, x: Appointment)
    requires Describes(acc, p)
    requires forall i :: 0 <= i < |acc| ==> acc[i].name != SlotOf(x)
    ensures Describes(Tally(acc, SlotOf(x)), p + [x])
  {
    var k := SlotOf(x);
    var f := Buckets.FirstOccurrences(p, SlotOf);
    assert k !in f;
    Buckets.FirstOccurrencesSnoc(p, x, SlotOf);
    var f' := f + [k];
    Buckets.SelectEmpty(p, SlotOf, k);
    var acc' := acc + [SlotTotal(k, 1)];
    forall i | 0 <= i < |acc'|
      ensures acc'[i].name == f'[i] && acc'[i].total == |Buckets.Select(p + [x], SlotOf, f'[i])|
    {
      Buckets.SelectSnoc(p, x, SlotOf, f'[i]);
    }
    assert Describes(acc', p + [x]);
    TallyMissing(acc, k);
  }

  /** One step of the reduce keeps the accumulator describing what it has
      consumed. */
  lemma {:induction false} TallyStep(acc: seq<SlotTotal>, p: seq<Appointment>, x: Appointment)
    requires Describes(acc, p)
    ensures Describes(Tally(acc, SlotOf(x)), p + [x])
  {
    if j :| 0 <= j < |acc| && acc[j].name == SlotOf(x) {
      TallyStepFound(acc, p, x, j);
    } else {
      TallyStepMissing(acc, p, x);
    }
  }

  /** The reduce's result describes its input. */
  lemma {:induction false} HistogramShape(s: seq<Appointment>)
    ensures Describes(Histogram(s), s)
    decreases |s|
  {
    if s != [] {
      var p, x := s[..|s| - 1], s[|s| - 1];
      assert s == p + [x];
      HistogramShape(p);
      TallyStep(Histogram(p), p, x);
    }
  }

  /** The sum of the bar totals. */
  function SumTotals(acc: seq<SlotTotal>): nat
  {
    if acc == [] then 0 else acc[0].total + SumTotals(acc[1..])
  }

  /** Pairwise distinct values drawn from a set are no more than the set. */
  lemma {:induction false} DistinctWithin(ks: seq<Slot>, avail: set<Slot>)
    requires Buckets.NoDup(ks)
    requires forall i :: 0 <= i < |ks| ==> ks[i] in avail
    ensures |ks| <= |avail|
  {
    if ks != [] {
      forall i | 0 <= i < |ks[1..]| ensures ks[1..][i] in avail - {ks[0]} {
        assert ks[1..][i] == ks[i + 1];
      }
      assert Buckets.NoDup(ks[1..]) by {
        forall i, j | 0 <= i < j < |ks[1..]| ensures ks[1..][i] != ks[1..][j] {
          assert ks[1..][i] == ks[i + 1] && ks[1..][j] == ks[j + 1];
        }
      }
      DistinctWithin(ks[1..], avail - {ks[0]});
    }
  }

  /** Three slots allow at most three distinct names. */
  lemma DistinctSlotsAtMostThree(ks: seq<Slot>)
    requires Buckets.NoDup(ks)
    ensures |ks| <= 3
  {
    var all := {Morning, Afternoon, Evening};
    forall i | 0 <= i < |ks| ensures ks[i] in all {
      match ks[i] case Morning => case Afternoon => case Evening =>
    }
    DistinctWithin(ks, all);
  }

  /** What the chart shows: distinct slot names, so at most three bars; no
      bar of zero (an empty input gives no bars at all); totals that add up
      to the number of appointments; and bars in the order their slots first
      occur, not in a fixed order. */
  lemma HistogramProperties(s: seq<Appointment>)
    ensures forall i, j :: 0 <= i < j < |Histogram(s)| ==> Histogram(s)[i].name != Histogram(s)[j].name
    ensures |Histogram(s)| <= 3
    ensures s == [] ==> Histogram(s) == []
    ensures forall j :: 0 <= j < |Histogram(s)| ==> Histogram(s)[j].total >= 1
    ensures SumTotals(Histogram(s)) == |s|
    ensures forall i, j :: 0 <= i < j < |Histogram(s)| ==>
              Buckets.OccursBefore(s, SlotOf, Histogram(s)[i].name, Histogram(s)[j].name)
  {
    var h := Histogram(s);
    var ks := Buckets.FirstOccurrences(s, SlotOf);
    assert |h| == |ks| && forall j :: 0 <= j < |h| ==> h[j].name == ks[j] by {
      HistogramShape(s);
    }
    assert |h| <= 3 by {
      DistinctSlotsAtMostThree(ks);
    }
    assert forall j :: 0 <= j < |h| ==> h[j].total >= 1 by {
      HistogramShape(s);
      forall j | 0 <= j < |h| ensures h[j].total >= 1 {
        assert ks[j] in Buckets.KeysOf(s, SlotOf);
        Buckets.SelectEmpty(s, SlotOf, ks[j]);
      }
    }
    forall i, j | 0 <= i < j < |h|
      ensures Buckets.OccursBefore(s, SlotOf, h[i].name, h[j].name)
    {
      Buckets.FirstOccurrencesInOrder(s, SlotOf, i, j);
    }
  }
}
