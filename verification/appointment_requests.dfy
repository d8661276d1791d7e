/** components/counsellor/AppointmentRequests.tsx: the counsellor's
    pending requests, each with Confirm and Reject buttons. */
module AppointmentRequests {
  import opened Wrappers
  import opened Types
  import AppointmentSection

  /** The requests after the fetch: the pending appointments, or none when
      the fetch was rejected (the list then stays at its initial `[]`). */
  function Mount(fetched: Result<seq<Appointment>, string>): (requests: seq<Appointment>)
    ensures fetched.Failure? ==> requests == []
    ensures forall i :: 0 <= i < |requests| ==> requests[i].status == Pending
    ensures fetched.Success? ==> requests == AppointmentSection.WithStatus(fetched.value, Pending)
  {
    match fetched
    case Failure(_) => []
    case Success(all) => AppointmentSection.WithStatus(all, Pending)
  }

  /** The two buttons on a request. */
  datatype Action = Confirm | Reject

  /** The status each button sends. */
  function ActionStatus(a: Action): (st: AppointmentStatus)
    ensures st == Confirmed <==> a == Confirm
    ensures st == Rejected <==> a == Reject
  {
    match a
    case Confirm => Confirmed
    case Reject => Rejected
  }

  /** `requests.filter(req => req.id !== id)`. */
  function RemoveId(requests: seq<Appointment>, id: string): (r: seq<Appointment>)
    ensures |r| <= |requests|
    ensures forall i :: 0 <= i < |r| ==> r[i].id != id
    ensures multiset(r) <= multiset(requests)
  {
    if |requests| == 0 then []
    else
      assert requests == [requests[0]] + requests[1..];
      (if requests[0].id != id then [requests[0]] else []) + RemoveId(requests[1..], id)
  }

  /** Removal keeps every other request, in order. */
  lemma {:induction false} RemoveIdKeepsOthers(a: seq<Appointment>, b: seq<Appointment>, id: string)
    ensures RemoveId(a + b, id) == RemoveId(a, id) + RemoveId(b, id)
  {
    if |a| == 0 {
      assert a + b == b;
    } else {
      assert (a + b)[1..] == a[1..] + b;
      RemoveIdKeepsOthers(a[1..], b, id);
    }
  }

  /** Removing the id of a request that appears once shortens the list by
      exactly one. */
  lemma {:induction false} RemoveIdOnce(requests: seq<Appointment>, k: int)
    requires 0 <= k < |requests|
    requires forall j :: 0 <= j < |requests| && j != k ==> requests[j].id != requests[k].id
    ensures |RemoveId(requests, requests[k].id)| == |requests| - 1
  {
    var tail := requests[1..];
    if k == 0 {
      assert forall j :: 0 <= j < |tail| ==> tail[j] == requests[j + 1];
      RemoveIdNone(tail, requests[k].id);
    } else {
      assert forall j :: 0 <= j < |tail| ==> tail[j] == requests[j + 1];
      RemoveIdOnce(tail, k - 1);
    }
  }

  lemma {:induction false} RemoveIdNone(requests: seq<Appointment>, id: string)
    requires forall j :: 0 <= j < |requests| ==> requests[j].id != id
    ensures RemoveId(requests, id) == requests
  {
    if |requests| > 0 {
      RemoveIdNone(requests[1..], id);
    }
  }

  datatype UpdateRequest = UpdateRequest(appointmentId: string, status: AppointmentStatus)

  /** `handleUpdateStatus(id, status)`.  `requests` is the list the click
      handler captured and `current` the list when the awaited update
      resolves.  Once the store accepts the update the list becomes the
      CAPTURED list without the request; when it rejects it the awaited call
      throws and `current` stays. */
  function HandleUpdateStatus(requests: seq<Appointment>, current: seq<Appointment>, id: string, action: Action, accepted: bool)
    : (out: (seq<Appointment>, UpdateRequest))
    ensures out.1 == UpdateRequest(id, ActionStatus(action))
    ensures !accepted ==> out.0 == current
    ensures accepted ==> forall i :: 0 <= i < |out.0| ==> out.0[i].id != id
    ensures accepted ==> forall i :: 0 <= i < |requests| && requests[i].id != id ==> requests[i] in out.0
    ensures accepted ==> multiset(out.0) <= multiset(requests)
    ensures accepted ==> out.0 == RemoveId(requests, id)
  {
    var req := UpdateRequest(id, ActionStatus(action));
    if accepted then
      var r := RemoveId(requests, id);
      assert forall i :: 0 <= i < |requests| && requests[i].id != id ==> requests[i] in r by {
        forall i | 0 <= i < |requests| && requests[i].id != id
          ensures requests[i] in r
        {
          assert requests == requests[..i] + [requests[i]] + requests[i + 1..];
          RemoveIdKeepsOthers(requests[..i] + [requests[i]], requests[i + 1..], id);
          RemoveIdKeepsOthers(requests[..i], [requests[i]], id);
          assert RemoveId([requests[i]], id) == [requests[i]] + RemoveId([], id);
        }
      }
      (r, req)
    else (current, req)
  }

  /** What the list area shows. */
  datatype RequestsView = NoPendingMessage | RequestList(requests: seq<Appointment>)

  function View(requests: seq<Appointment>): (v: RequestsView)
    ensures v.NoPendingMessage? <==> |requests| == 0
    ensures v.RequestList? ==> v.requests == requests
  {
    if |requests| > 0 then RequestList(requests) else NoPendingMessage
  }

  /** Handling the only request leaves the "no pending" message. */
  lemma LastRequestHandled(a: Appointment, action: Action)
    ensures View(HandleUpdateStatus([a], [a], a.id, action, true).0) == NoPendingMessage
  {
  }

  /** Two requests handled while both updates are in flight: each handler
      filters the list it captured, so whichever resolves second puts the
      first one back on the list although its update was accepted. */
  lemma OverlappingUpdatesRestoreFirst(requests: seq<Appointment>, i: int, j: int, first: Action, second: Action)
    requires 0 <= i < |requests| && 0 <= j < |requests| && requests[i].id != requests[j].id
    ensures var afterFirst := HandleUpdateStatus(requests, requests, requests[i].id, first, true).0;
      var afterSecond := HandleUpdateStatus(requests, afterFirst, requests[j].id, second, true).0;
      && requests[i] !in afterFirst
      && requests[i] in afterSecond
      && requests[j] !in afterSecond
  {
  }
}
