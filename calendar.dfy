/** The calendar's index of appointments by day, and the lookup of the
    appointments of the selected day. */
module Calendar {
  import opened Appointments
  import Buckets

  /** The key of appointments whose date is empty. */
  const Unknown := "unknown"

  /** The bucket key of an appointment: its stored `yyyy-MM-dd` date, or
      `Unknown` when the date is empty. */
  function DateKey(a: Appointment): (k: string)
    ensures a.date == "" ==> k == Unknown
    ensures a.date != "" ==> k == a.date
  {
    if a.date == "" then Unknown else a.date
  }

  type Index = map<string, seq<Appointment>>

  /** The index after the reduce has consumed `s`: each appointment is pushed
      onto the bucket of its key, the bucket being created first if needed.
      Every appointment lands in the bucket of its own key, and no bucket is
      empty or holds an appointment of another key. */
  function ByDate(s: seq<Appointment>): (r: Index)
    ensures forall i :: 0 <= i < |s| ==> DateKey(s[i]) in r && s[i] in r[DateKey(s[i])]
    ensures forall k :: k in r ==> r[k] != [] && forall a :: a in r[k] ==> DateKey(a) == k
    decreases |s|
  {
    if s == [] then map[]
    else
      var p := s[..|s| - 1];
      assert forall i :: 0 <= i < |p| ==> p[i] == s[i];
      var index := ByDate(p);
      var a := s[|s| - 1];
      var k := DateKey(a);
      index[k := (if k in index then index[k] else []) + [a]]
  }

  /** The index is the partition of `s` by key: its keys are the keys that
      occur, and each bucket holds exactly the appointments with that key, in
      their order in `s`. */
  lemma {:induction false} ByDateIsPartition(s: seq<Appointment>)
    ensures ByDate(s).Keys == Buckets.KeysOf(s, DateKey)
    ensures forall k :: k in ByDate(s) ==> ByDate(s)[k] == Buckets.Select(s, DateKey, k)
    decreases |s|
  {
    if s != [] {
      var p, a := s[..|s| - 1], s[|s| - 1];
      assert s == p + [a];
      ByDateIsPartition(p);
      Buckets.KeysOfSnoc(p, a, DateKey);
      assert ByDate(s).Keys == ByDate(p).Keys + {DateKey(a)};
      ByDateSnocBuckets(p, a);
    }
  }

  /** The step of the partition proof: after one more appointment every
      bucket is still the group of its key. */
  lemma ByDateSnocBuckets(p: seq<Appointment>, a: Appointment)
    requires forall k :: k in ByDate(p) ==> ByDate(p)[k] == Buckets.Select(p, DateKey, k)
    requires ByDate(p).Keys == Buckets.KeysOf(p, DateKey)
    ensures forall k :: k in ByDate(p + [a]) ==> ByDate(p + [a])[k] == Buckets.Select(p + [a], DateKey, k)
  {
    var s := p + [a];
    assert s[..|s| - 1] == p;
    var index, ka := ByDate(p), DateKey(a);
    var r := index[ka := (if ka in index then index[ka] else []) + [a]];
    assert ByDate(s) == r;
    forall k | k in r ensures r[k] == Buckets.Select(s, DateKey, k) {
      Buckets.SelectSnoc(p, a, DateKey, k);
      if k == ka && k !in index {
        Buckets.SelectEmpty(p, DateKey, k);
      }
    }
  }

  /** The `reduce` that builds the index, one appointment at a time. */
  method IndexByDate(appointments: seq<Appointment>) returns (index: Index)
    ensures index == ByDate(appointments)
    ensures index.Keys == Buckets.KeysOf(appointments, DateKey)
    ensures forall k :: k in index ==> index[k] == Buckets.Select(appointments, DateKey, k)
  {
    index := map[];
    var i := 0;
    while i < |appointments|
      invariant 0 <= i <= |appointments|
      invariant index == ByDate(appointments[..i])
    {
      var a := appointments[i];
      var k := DateKey(a);
      if k !in index {
        index := index[k := []];
      }
      index := index[k := index[k] + [a]];
      assert appointments[..i + 1][..i] == appointments[..i];
      i := i + 1;
    }
    assert appointments[..i] == appointments;
    ByDateIsPartition(appointments);
  }

  /** No bucket is empty. */
  lemma BucketsNonEmpty(s: seq<Appointment>, k: string)
    requires k in ByDate(s)
    ensures ByDate(s)[k] != []
  {
    ByDateIsPartition(s);
    Buckets.SelectEmpty(s, DateKey, k);
  }

  /** Every appointment is in the bucket of its key and in no other. */
  lemma InExactlyOneBucket(s: seq<Appointment>, i: nat, k: string)
    requires i < |s|
    ensures DateKey(s[i]) in ByDate(s) && s[i] in ByDate(s)[DateKey(s[i])]
    ensures k in ByDate(s) && s[i] in ByDate(s)[k] ==> k == DateKey(s[i])
  {
    ByDateIsPartition(s);
    assert DateKey(s[i]) in Buckets.KeysOf(s, DateKey);
  }

  /** An appointment with an empty date is in the `Unknown` bucket. */
  lemma EmptyDateIsUnknown(s: seq<Appointment>, i: nat)
    requires i < |s| && s[i].date == ""
    ensures Unknown in ByDate(s) && s[i] in ByDate(s)[Unknown]
  {
    InExactlyOneBucket(s, i, Unknown);
  }

  /** Total size of the buckets of the keys in `ks`. */
  function BucketSizes(index: Index, ks: seq<string>): nat
  {
    if ks == [] then 0
    else (if ks[0] in index then |index[ks[0]]| else 0) + BucketSizes(index, ks[1..])
  }

  lemma {:induction false} BucketSizesAreSelectSizes(s: seq<Appointment>, ks: seq<string>)
    requires forall j :: 0 <= j < |ks| ==> ks[j] in ByDate(s)
    ensures BucketSizes(ByDate(s), ks) == Buckets.SumSizes(ks, s, DateKey)
  {
    ByDateIsPartition(s);
    if ks != [] {
      BucketSizesAreSelectSizes(s, ks[1..]);
    }
  }

  /** The bucket sizes, each key counted once, add up to the number of
      appointments. */
  lemma BucketSizesSum(s: seq<Appointment>, ks: seq<string>)
    requires Buckets.NoDup(ks)
    requires forall k :: k in ks <==> k in ByDate(s)
    ensures BucketSizes(ByDate(s), ks) == |s|
  {
    ByDateIsPartition(s);
    forall i | 0 <= i < |s| ensures DateKey(s[i]) in ks {
      assert DateKey(s[i]) in Buckets.KeysOf(s, DateKey);
    }
    BucketSizesAreSelectSizes(s, ks);
    Buckets.SumSizesIsLength(ks, s, DateKey);
  }

  /** The appointments shown for the selected day (`yyyy-MM-dd`): none when
      no day is selected or the day has no bucket, else its bucket. */
  function SelectedDateAppointments(index: Index, selected: Option<string>): (r: seq<Appointment>)
    ensures selected.None? ==> r == []
    ensures r != [] ==> selected.Some? && selected.value in index
  {
    if selected.None? then []
    else if selected.value in index then index[selected.value]
    else []
  }

  /** The selected day shows exactly the appointments whose key is that day,
      in their order in the collection. */
  lemma SelectedAreThoseOfTheDay(s: seq<Appointment>, day: string)
    ensures SelectedDateAppointments(ByDate(s), Some(day)) == Buckets.Select(s, DateKey, day)
  {
    ByDateIsPartition(s);
    Buckets.SelectEmpty(s, DateKey, day);
  }

  /** The day cell marks a day exactly when it has a bucket, so exactly when
      some appointment has that day as its key. */
  predicate HasAppointments(index: Index, day: string)
  {
    day in index
  }

  lemma MarkedDaysHaveAppointments(s: seq<Appointment>, day: string)
    ensures HasAppointments(ByDate(s), day) <==> exists i :: 0 <= i < |s| && DateKey(s[i]) == day
  {
    ByDateIsPartition(s);
  }
}
