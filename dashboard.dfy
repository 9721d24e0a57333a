/** The figures the dashboard derives from the collection: the number of
    appointments, the number completed, the total and average duration, and
    the list of recent appointments. */
module Dashboard {
  import opened Appointments
  import AppointmentStore
  import Buckets

  /** How many appointments the recent list shows. */
  const RecentLimit := 5

  /** Appointments whose status is completed. */
  function CompletedCount(s: seq<Appointment>): (n: nat)
    ensures n <= |s|
    ensures n == 0 <==> forall i :: 0 <= i < |s| ==> s[i].status != Some(Completed)
    ensures n == |s| <==> forall i :: 0 <= i < |s| ==> s[i].status == Some(Completed)
    decreases |s|
  {
    if s == [] then 0
    else
      var p := s[..|s| - 1];
      assert forall i :: 0 <= i < |p| ==> p[i] == s[i];
      CompletedCount(p) + (if s[|s| - 1].status == Some(Completed) then 1 else 0)
  }

  function StatusOf(a: Appointment): Option<Status>
  {
    a.status
  }

  /** The count is the length of `appointments.filter(a => a.status ===
      'completed')`. */
  lemma {:induction false} CompletedIsFilterLength(s: seq<Appointment>)
    ensures CompletedCount(s) == |Buckets.Select(s, StatusOf, Some(Completed))|
    decreases |s|
  {
    if s != [] {
      var p, x := s[..|s| - 1], s[|s| - 1];
      assert s == p + [x];
      CompletedIsFilterLength(p);
      Buckets.SelectSnoc(p, x, StatusOf, Some(Completed));
    }
  }

  /** Sum of `duration` over every appointment, whatever its status. */
  function TotalDuration(s: seq<Appointment>): int
    decreases |s|
  {
    if s == [] then 0 else TotalDuration(s[..|s| - 1]) + s[|s| - 1].duration
  }

  /** With no negative duration the sum is non-negative, and at least each
      single duration. */
  lemma {:induction false} TotalDurationBounds(s: seq<Appointment>)
    requires forall i :: 0 <= i < |s| ==> s[i].duration >= 0
    ensures TotalDuration(s) >= 0
    ensures forall i :: 0 <= i < |s| ==> s[i].duration <= TotalDuration(s)
    decreases |s|
  {
    if s != [] {
      var p := s[..|s| - 1];
      assert forall i :: 0 <= i < |p| ==> p[i] == s[i];
      TotalDurationBounds(p);
    }
  }

  /** The sum over a concatenation is the sum of the sums. */
  lemma {:induction false} TotalDurationAppend(a: seq<Appointment>, b: seq<Appointment>)
    ensures TotalDuration(a + b) == TotalDuration(a) + TotalDuration(b)
    decreases |b|
  {
    if b == [] {
      assert a + b == a;
    } else {
      var b' := b[..|b| - 1];
      TotalDurationAppend(a, b');
      assert (a + b)[..|a + b| - 1] == a + b';
    }
  }

  /** The total depends only on the durations: changing statuses (or any
      other field) leaves it alone. */
  lemma {:induction false} TotalDurationIgnoresStatus(s: seq<Appointment>, t: seq<Appointment>)
    requires |s| == |t|
    requires forall i :: 0 <= i < |s| ==> s[i].duration == t[i].duration
    ensures TotalDuration(s) == TotalDuration(t)
    decreases |s|
  {
    if s != [] {
      TotalDurationIgnoresStatus(s[..|s| - 1], t[..|t| - 1]);
    }
  }

  /** Cancelled appointments still count towards the total duration. */
  lemma CancelKeepsTotalDuration(s: seq<Appointment>, id: string)
    ensures TotalDuration(AppointmentStore.CancelById(s, id)) == TotalDuration(s)
  {
    var c := AppointmentStore.CancelById(s, id);
    forall i | 0 <= i < |s| ensures c[i].duration == s[i].duration {
      assert c[i].(status := s[i].status) == s[i];
    }
    TotalDurationIgnoresStatus(c, s);
  }

  /** `totalDuration / totalAppointments`. For the empty collection this is
      0 / 0, which is NaN in JavaScript; `None` stands for that. */
  function AverageDuration(s: seq<Appointment>): (avg: Option<real>)
    ensures avg.Some? <==> |s| > 0
    ensures avg.Some? ==> avg.value * (|s| as real) == TotalDuration(s) as real
  {
    if |s| == 0 then None else Some(TotalDuration(s) as real / |s| as real)
  }

  /** The four figures of the overview cards. */
  datatype Summary = Summary(total: nat, completed: nat, totalDuration: int, average: Option<real>)

  function Summarize(s: seq<Appointment>): (m: Summary)
    ensures m.total == |s|
    ensures m.completed == CompletedCount(s) && m.completed <= m.total
    ensures m.totalDuration == TotalDuration(s)
    ensures m.average.Some? <==> m.total > 0
    ensures m.average.Some? ==> m.average.value * (m.total as real) == m.totalDuration as real
  {
    var avg := AverageDuration(s);
    Summary(|s|, CompletedCount(s), TotalDuration(s), avg)
  }

  /** `appointments.slice(0, 5)`: the first five in storage order, or all
      of them when there are fewer; nothing is sorted. */
  function Recent(s: seq<Appointment>): (r: seq<Appointment>)
    ensures |r| == if |s| < RecentLimit then |s| else RecentLimit
    ensures r <= s
  {
    if |s| < RecentLimit then s else s[..RecentLimit]
  }

  /** Once there are five appointments, a newly created one (appended at the
      end) does not appear in the recent list. */
  lemma RecentIgnoresAppended(s: seq<Appointment>, created: Appointment)
    requires |s| >= RecentLimit
    ensures Recent(s + [created]) == Recent(s)
  {
    assert (s + [created])[..RecentLimit] == s[..RecentLimit];
  }
}
