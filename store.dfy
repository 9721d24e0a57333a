/** The appointment store behind the `useAppointmentData` hook: the collection
    of appointments, the loading flag and the last load error, with the load,
    update, create, delete and cancel operations.

    Each remote call is represented by the reply it settles to, passed in as
    a `Remote` value and consulted only when the call is actually made; the
    load, update, create and cancel also return the request they send, if
    any (delete sends none). The collection
    updates themselves are pure functions over sequences. */
module AppointmentStore {
  import opened Appointments
  import Text
  import Buckets

  /** Why an operation failed: a missing `_id`, a missing `userId`, no local
      record with the id, or a failed remote call. */
  datatype StoreError = MissingId | MissingUserId | NotFound | RemoteFailure

  datatype Result<T> = Ok(value: T) | Err(error: StoreError)

  /** What a remote call settles to: the payload the server sent, or a
      failure (transport error, error status, or a payload that cannot be
      read). */
  datatype Remote<T> = Answered(body: T) | Failed

  /** The requests the store sends: GET /appointments,
      PUT /appointments/{id}, POST /book/appointment and
      PUT /appointments/{userId}/{id}. */
  datatype Request =
    | GetAppointments
    | PutAppointment(id: string, body: Appointment)
    | BookAppointment(body: Appointment)
    | PutUserAppointment(userId: string, id: string, body: Appointment)

  /** `new Date(d).toISOString()`: `None` where the date is invalid, which
      is where the JavaScript call throws a RangeError. */
  type IsoFormatter = string -> Option<string>

  const FetchFailedMessage := "Failed to fetch appointments"

  // ---------------------------------------------------------------------
  // Loading

  /** One record of the load transform: the date becomes the part of its
      ISO form before the 'T', a missing status becomes scheduled, and every
      other field is copied. `None` when the date cannot be formatted. */
  function Normalize(apt: Appointment, toIso: IsoFormatter): (r: Option<Appointment>)
    ensures r.Some? <==> toIso(apt.date).Some?
    ensures r.Some? ==> r.value.status.Some?
    ensures r.Some? && apt.status.Some? ==> r.value.status == apt.status
    ensures r.Some? && apt.status.None? ==> r.value.status == Some(Scheduled)
    ensures r.Some? ==> r.value.date <= toIso(apt.date).value && 'T' !in r.value.date
    ensures r.Some? && |r.value.date| < |toIso(apt.date).value| ==>
              toIso(apt.date).value[|r.value.date|] == 'T'
    ensures r.Some? ==> r.value.(date := apt.date, status := apt.status) == apt
  {
    match toIso(apt.date)
    case None => None
    case Some(iso) =>
      Some(apt.(date := Text.FirstPiece(iso, 'T'),
                status := if apt.status.Some? then apt.status else Some(Scheduled)))
  }

  /** The `map` over the server's list: it succeeds only when every date can
      be formatted (one throw aborts the whole load), and then it
      normalises each record in place. */
  function NormalizeAll(list: seq<Appointment>, toIso: IsoFormatter): (r: Option<seq<Appointment>>)
    ensures r.Some? <==> forall i :: 0 <= i < |list| ==> toIso(list[i].date).Some?
    ensures r.Some? ==> |r.value| == |list|
    ensures r.Some? ==> forall i :: 0 <= i < |list| ==> Normalize(list[i], toIso) == Some(r.value[i])
    decreases |list|
  {
    if list == [] then Some([])
    else
      match Normalize(list[0], toIso)
      case None => None
      case Some(first) =>
        match NormalizeAll(list[1..], toIso)
        case None => None
        case Some(rest) => Some([first] + rest)
  }

  // ---------------------------------------------------------------------
  // Collection updates

  /** The update's `map`: every record with the id is replaced by the
      confirmed record, every other record is kept. */
  function ReplaceById(s: seq<Appointment>, id: string, confirmed: Appointment): (r: seq<Appointment>)
    ensures |r| == |s|
    ensures forall i :: 0 <= i < |s| && HasId(s[i], id) ==> r[i] == confirmed
    ensures forall i :: 0 <= i < |s| && !HasId(s[i], id) ==> r[i] == s[i]
    decreases |s|
  {
    if s == [] then []
    else [if HasId(s[0], id) then confirmed else s[0]] + ReplaceById(s[1..], id, confirmed)
  }

  /** Applying the same confirmed record twice is applying it once. */
  lemma ReplaceByIdIdempotent(s: seq<Appointment>, id: string, confirmed: Appointment)
    ensures ReplaceById(ReplaceById(s, id, confirmed), id, confirmed) == ReplaceById(s, id, confirmed)
  {
    var once := ReplaceById(s, id, confirmed);
    var twice := ReplaceById(once, id, confirmed);
    forall i | 0 <= i < |s| ensures twice[i] == once[i] {
      if HasId(s[i], id) { assert once[i] == confirmed; }
    }
  }

  /** The cancel's `map`: records with the id get status cancelled and keep
      every other field; all other records are kept. */
  function CancelById(s: seq<Appointment>, id: string): (r: seq<Appointment>)
    ensures |r| == |s|
    ensures forall i :: 0 <= i < |s| ==> r[i].(status := s[i].status) == s[i]
    ensures forall i :: 0 <= i < |s| && HasId(s[i], id) ==> r[i].status == Some(Cancelled)
    ensures forall i :: 0 <= i < |s| && !HasId(s[i], id) ==> r[i] == s[i]
    decreases |s|
  {
    if s == [] then []
    else [if HasId(s[0], id) then s[0].(status := Some(Cancelled)) else s[0]] + CancelById(s[1..], id)
  }

  /** Cancelling twice is cancelling once. */
  lemma CancelByIdIdempotent(s: seq<Appointment>, id: string)
    ensures CancelById(CancelById(s, id), id) == CancelById(s, id)
  {
    var once := CancelById(s, id);
    var twice := CancelById(once, id);
    forall i | 0 <= i < |s| ensures twice[i] == once[i] {
      assert HasId(once[i], id) == HasId(s[i], id);
    }
  }

  /** Cancelling an id no record has changes nothing. */
  lemma CancelAbsentIsNoop(s: seq<Appointment>, id: string)
    requires forall i :: 0 <= i < |s| ==> !HasId(s[i], id)
    ensures CancelById(s, id) == s
  {
  }

  /** The key that the delete's filter tests. */
  function IdKey(id: string): Appointment -> bool
  {
    a => HasId(a, id)
  }

  /** The delete's `filter`: the records without the id, in their order. */
  function RemoveById(s: seq<Appointment>, id: string): (r: seq<Appointment>)
    ensures |r| <= |s|
    ensures forall x :: x in r <==> x in s && !HasId(x, id)
  {
    Buckets.Select(s, IdKey(id), false)
  }

  /** Deleting an id no record has changes nothing. */
  lemma {:induction false} RemoveAbsentIsNoop(s: seq<Appointment>, id: string)
    requires forall i :: 0 <= i < |s| ==> !HasId(s[i], id)
    ensures RemoveById(s, id) == s
    decreases |s|
  {
    if s != [] {
      var p := s[..|s| - 1];
      RemoveAbsentIsNoop(p, id);
      assert s == p + [s[|s| - 1]];
    }
  }

  /** Deleting twice is deleting once. */
  lemma RemoveByIdIdempotent(s: seq<Appointment>, id: string)
    ensures RemoveById(RemoveById(s, id), id) == RemoveById(s, id)
  {
    var r := RemoveById(s, id);
    forall i | 0 <= i < |r| ensures !HasId(r[i], id) {
      assert r[i] in r;
    }
    RemoveAbsentIsNoop(r, id);
  }

  /** Deleting keeps the remaining records in their order: it acts on each
      part of a concatenation separately. */
  lemma RemoveByIdKeepsOrder(a: seq<Appointment>, b: seq<Appointment>, id: string)
    ensures RemoveById(a + b, id) == RemoveById(a, id) + RemoveById(b, id)
  {
    Buckets.SelectAppend(a, b, IdKey(id), false);
  }

  /** `appointments.find(apt => apt._id === id)`: the first record with the
      id, or `None` when there is none. */
  function FindById(s: seq<Appointment>, id: string): (r: Option<Appointment>)
    ensures r.None? <==> forall i :: 0 <= i < |s| ==> !HasId(s[i], id)
    ensures r.Some? ==> exists i :: 0 <= i < |s| && s[i] == r.value && HasId(s[i], id) &&
                                    forall j :: 0 <= j < i ==> !HasId(s[j], id)
    decreases |s|
  {
    if s == [] then None
    else if HasId(s[0], id) then Some(s[0])
    else
      var r := FindById(s[1..], id);
      assert r.Some? ==> exists i :: 0 < i < |s| && s[i] == r.value && HasId(s[i], id) &&
                                     forall j :: 0 <= j < i ==> !HasId(s[j], id) by {
        if r.Some? {
          var k :| 0 <= k < |s[1..]| && s[1..][k] == r.value && HasId(s[1..][k], id) &&
                   forall j :: 0 <= j < k ==> !HasId(s[1..][j], id);
          assert s[k + 1] == r.value;
          forall j | 0 <= j < k + 1 ensures !HasId(s[j], id) {
            if j > 0 { assert s[j] == s[1..][j - 1]; }
          }
        }
      }
      r
  }

  // ---------------------------------------------------------------------
  // The hook's state

  class Store {
    /** The `userId` the hook was called with. */
    const userId: Option<string>
    var appointments: seq<Appointment>
    var isLoading: bool
    var error: Option<string>

    /** Initial state: no appointments, loading, no error. */
    constructor (userId: Option<string>)
      ensures this.userId == userId
      ensures appointments == [] && isLoading && error == None
    {
      this.userId := userId;
      appointments := [];
      isLoading := true;
      error := None;
    }

    /** GET /appointments. On a reply whose list can be normalised the
        collection is replaced outright by the normalised list and the error
        is cleared; otherwise the collection is emptied and the error set.
        Either way loading has finished. */
    method FetchAppointments(response: Remote<seq<Appointment>>, toIso: IsoFormatter)
      returns (sent: Request)
      modifies this
      ensures sent == GetAppointments
      ensures !isLoading
      ensures response.Answered? && NormalizeAll(response.body, toIso).Some? ==>
                appointments == NormalizeAll(response.body, toIso).value && error == None
      ensures response.Failed? || NormalizeAll(response.body, toIso).None? ==>
                appointments == [] && error == Some(FetchFailedMessage)
    {
      isLoading := true;
      sent := GetAppointments;
      var transformed := if response.Answered? then NormalizeAll(response.body, toIso) else None;
      if transformed.Some? {
        appointments := transformed.value;
        error := None;
      } else {
        error := Some(FetchFailedMessage);
        appointments := [];
      }
      isLoading := false;
    }

    /** PUT /appointments/{id}. A missing or empty `_id` fails before any
        request; a failed call changes nothing; on success every record with
        that id is replaced by the server's record, which is returned. */
    method UpdateAppointment(updated: Appointment, response: Remote<Appointment>)
      returns (result: Result<Appointment>, sent: Option<Request>)
      modifies this`appointments
      ensures !Truthy(updated.id) ==>
                result == Err(MissingId) && sent == None && appointments == old(appointments)
      ensures Truthy(updated.id) ==> sent == Some(PutAppointment(updated.id.value, updated))
      ensures Truthy(updated.id) && response.Failed? ==>
                result == Err(RemoteFailure) && appointments == old(appointments)
      ensures Truthy(updated.id) && response.Answered? ==>
                result == Ok(response.body) &&
                appointments == ReplaceById(old(appointments), updated.id.value, response.body)
    {
      if !Truthy(updated.id) {
        return Err(MissingId), None;
      }
      var id := updated.id.value;
      sent := Some(PutAppointment(id, updated));
      match response
      case Failed =>
        result := Err(RemoteFailure);
      case Answered(confirmed) =>
        appointments := ReplaceById(appointments, id, confirmed);
        result := Ok(confirmed);
    }

    /** POST /book/appointment with the hook's `userId` added to the draft.
        Without a `userId` it fails before any request; a failed call changes
        nothing; on success the server's record is appended and returned. */
    method CreateAppointment(draft: Appointment, response: Remote<Appointment>)
      returns (result: Result<Appointment>, sent: Option<Request>)
      modifies this`appointments
      ensures !Truthy(userId) ==>
                result == Err(MissingUserId) && sent == None && appointments == old(appointments)
      ensures Truthy(userId) ==> sent == Some(BookAppointment(draft.(userId := userId)))
      ensures Truthy(userId) && response.Failed? ==>
                result == Err(RemoteFailure) && appointments == old(appointments)
      ensures Truthy(userId) && response.Answered? ==>
                result == Ok(response.body) && appointments == old(appointments) + [response.body]
    {
      if !Truthy(userId) {
        return Err(MissingUserId), None;
      }
      sent := Some(BookAppointment(draft.(userId := userId)));
      match response
      case Failed =>
        result := Err(RemoteFailure);
      case Answered(confirmed) =>
        appointments := appointments + [confirmed];
        result := Ok(confirmed);
    }

    /** Local-only delete: no request is sent, only the collection changes. */
    method DeleteAppointment(appointmentId: string)
      modifies this`appointments
      ensures appointments == RemoveById(old(appointments), appointmentId)
    {
      appointments := RemoveById(appointments, appointmentId);
    }

    /** PUT /appointments/{userId}/{id} with the current record and status
        cancelled. Fails without a `userId`, then when no current record has
        the id, each before any request; a failed call changes nothing. On
        success the local records with the id are cancelled (the server's
        reply is returned but not stored). */
    method CancelAppointment(appointmentId: string, response: Remote<Appointment>)
      returns (result: Result<Appointment>, sent: Option<Request>)
      modifies this`appointments
      ensures !Truthy(userId) ==>
                result == Err(MissingUserId) && sent == None && appointments == old(appointments)
      ensures Truthy(userId) && FindById(old(appointments), appointmentId).None? ==>
                result == Err(NotFound) && sent == None && appointments == old(appointments)
      ensures Truthy(userId) && FindById(old(appointments), appointmentId).Some? ==>
                sent == Some(PutUserAppointment(userId.value, appointmentId,
                  FindById(old(appointments), appointmentId).value.(status := Some(Cancelled))))
      ensures Truthy(userId) && FindById(old(appointments), appointmentId).Some? && response.Failed? ==>
                result == Err(RemoteFailure) && appointments == old(appointments)
      ensures Truthy(userId) && FindById(old(appointments), appointmentId).Some? && response.Answered? ==>
                result == Ok(response.body) && appointments == CancelById(old(appointments), appointmentId)
    {
      if !Truthy(userId) {
        return Err(MissingUserId), None;
      }
      var current := FindById(appointments, appointmentId);
      if current.None? {
        return Err(NotFound), None;
      }
      sent := Some(PutUserAppointment(userId.value, appointmentId, current.value.(status := Some(Cancelled))));
      match response
      case Failed =>
        result := Err(RemoteFailure);
      case Answered(reply) =>
        appointments := CancelById(appointments, appointmentId);
        result := Ok(reply);
    }
  }

  /** The dashboard creates its store without a `userId` and hands its
      cancel to the manage tab; on that store every cancel fails its guard,
      whatever the collection and the id, and sends nothing. */
  method DashboardCancel(loaded: seq<Appointment>, appointmentId: string, response: Remote<Appointment>)
    returns (cancelled: Result<Appointment>, sent: Option<Request>)
    ensures cancelled == Err(MissingUserId) && sent == None
  {
    var store := new Store(None);
    store.appointments := loaded;
    cancelled, sent := store.CancelAppointment(appointmentId, response);
  }

  /** The same cancel on a store created with the signed-in user's id:
      cancelling a loaded appointment sends the request and, once it is
      answered, cancels that appointment locally. */
  method DashboardCancelWithUser(uid: string, loaded: seq<Appointment>, appointmentId: string, reply: Appointment)
    returns (cancelled: Result<Appointment>, after: seq<Appointment>)
    requires uid != ""
    requires exists i :: 0 <= i < |loaded| && HasId(loaded[i], appointmentId)
    ensures cancelled == Ok(reply)
    ensures after == CancelById(loaded, appointmentId)
  {
    var store := new Store(Some(uid));
    store.appointments := loaded;
    var sent;
    cancelled, sent := store.CancelAppointment(appointmentId, Answered(reply));
    after := store.appointments;
  }
}
