/**
 * The parsed response of the transit API's predictions endpoint and the selections the
 * formatter makes from it: the first stop, the trips that pass the headsign filter, the
 * predictions for those trips (at most three, in received order) and the alerts to count.
 */
module Response {
  import opened Wrappers
  import opened Seqs

  /** An object of the response's `included` list, told apart by its `type`. */
  datatype Resource =
    | Stop(name: string)
    | Trip(id: string, headsign: string)
    | Alert(cause: string)
    | Other(kind: string)

  /**
   * An element of the response's `data` list: the id of the trip it belongs to and its
   * arrival time, in whole seconds since the epoch.
   */
  datatype Prediction = Prediction(tripId: string, arrival: int)

  /**
   * The parsed body. `error` and `errors` say whether the field of that name is present
   * with a truthy value.
   */
  datatype Body = Body(data: seq<Prediction>, included: seq<Resource>, error: bool, errors: bool)

  /** The station preference configured for a network: a stop id and an optional headsign. */
  datatype StationPref = StationPref(stop: string, headsign: Option<string>)

  /** Number of predictions the status line shows at most. */
  const MaxShown: nat := 3

  /** The cause of the alerts that are not counted. */
  const Maintenance: string := "MAINTENANCE"

  // ---------------------------------------------------------------------------
  // The stop

  predicate HasStop(included: seq<Resource>) {
    exists i :: 0 <= i < |included| && included[i].Stop?
  }

  /** Where the first stop object of `included` sits. */
  function FirstStopIndex(included: seq<Resource>): (k: nat)
    requires HasStop(included)
    ensures k < |included| && included[k].Stop?
    ensures forall j :: 0 <= j < k ==> !included[j].Stop?
    decreases |included|
  {
    if included[0].Stop? then 0
    else
      assert HasStop(included[1..]) by {
        var i :| 0 <= i < |included| && included[i].Stop?;
        assert included[1..][i - 1] == included[i];
      }
      FirstStopIndex(included[1..]) + 1
  }

  /** The name of the first stop object, which names the status line. */
  function FirstStopName(included: seq<Resource>): string
    requires HasStop(included)
  {
    included[FirstStopIndex(included)].name
  }

  // ---------------------------------------------------------------------------
  // The trips

  /** The headsign filter applies only when the preference has a non-empty headsign. */
  predicate HeadsignFilterOn(pref: StationPref) {
    pref.headsign.Some? && pref.headsign.value != ""
  }

  /** A trip object that passes the preference's headsign filter. */
  predicate Selected(r: Resource, pref: StationPref) {
    r.Trip? && (HeadsignFilterOn(pref) ==> r.headsign == pref.headsign.value)
  }

  /** `id` is the id of some included trip that passes the headsign filter. */
  ghost predicate IsSelectedTrip(included: seq<Resource>, pref: StationPref, id: string) {
    exists i :: 0 <= i < |included| && Selected(included[i], pref) && included[i].id == id
  }

  /** The ids of the selected trips, in the order of `included`. */
  function TripIds(included: seq<Resource>, pref: StationPref): (ids: seq<string>)
    ensures forall id :: id in ids <==> IsSelectedTrip(included, pref, id)
    decreases |included|
  {
    if |included| == 0 then []
    else
      var rest := TripIds(included[1..], pref);
      assert forall id :: IsSelectedTrip(included[1..], pref, id) ==> IsSelectedTrip(included, pref, id) by {
        forall id | IsSelectedTrip(included[1..], pref, id)
          ensures IsSelectedTrip(included, pref, id)
        {
          var i :| 0 <= i < |included[1..]| && Selected(included[1..][i], pref) && included[1..][i].id == id;
          assert included[i + 1] == included[1..][i];
        }
      }
      assert forall id :: IsSelectedTrip(included, pref, id) ==>
        (Selected(included[0], pref) && included[0].id == id) || IsSelectedTrip(included[1..], pref, id) by {
        forall id | IsSelectedTrip(included, pref, id)
          ensures (Selected(included[0], pref) && included[0].id == id) || IsSelectedTrip(included[1..], pref, id)
        {
          var i :| 0 <= i < |included| && Selected(included[i], pref) && included[i].id == id;
          if i > 0 {
            assert included[1..][i - 1] == included[i];
          }
        }
      }
      (if Selected(included[0], pref) then [included[0].id] else []) + rest
  }

  /** The ids of a sequence with a given first object. */
  lemma TripIdsCons(r: Resource, rest: seq<Resource>, pref: StationPref)
    ensures TripIds([r] + rest, pref) == (if Selected(r, pref) then [r.id] else []) + TripIds(rest, pref)
  {
    assert ([r] + rest)[1..] == rest;
  }

  // ---------------------------------------------------------------------------
  // The predictions

  function KeepsTrip(ids: seq<string>): Prediction -> bool {
    (p: Prediction) => p.tripId in ids
  }

  /** The predictions for the given trips, in received order. */
  function ForTrips(data: seq<Prediction>, ids: seq<string>): seq<Prediction> {
    Filter(data, KeepsTrip(ids))
  }

  /** The predictions the status line shows: those of selected trips, the first three. */
  function Eligible(body: Body, pref: StationPref): seq<Prediction> {
    Take(ForTrips(body.data, TripIds(body.included, pref)), MaxShown)
  }

  ghost predicate IsWanted(body: Body, pref: StationPref, p: Prediction) {
    IsSelectedTrip(body.included, pref, p.tripId)
  }

  /**
   * The eligible predictions are `body.data` read at increasing positions `idx`, at most
   * three; each belongs to a selected trip; and no prediction of a selected trip is passed
   * over: every one before the last shown is shown, and when fewer than three are shown,
   * all of them are.
   */
  lemma EligibleSpec(body: Body, pref: StationPref) returns (idx: seq<nat>)
    ensures |Eligible(body, pref)| <= MaxShown
    ensures Embeds(Eligible(body, pref), body.data, idx)
    ensures forall k :: 0 <= k < |Eligible(body, pref)| ==> IsWanted(body, pref, Eligible(body, pref)[k])
    ensures forall j :: 0 <= j < |body.data| && IsWanted(body, pref, body.data[j]) ==>
              (|idx| < MaxShown || j <= idx[|idx| - 1] ==> j in idx)
  {
    var ids := TripIds(body.included, pref);
    var e := Eligible(body, pref);
    idx := TakeFilterPositions(body.data, KeepsTrip(ids), MaxShown);
    forall k | 0 <= k < |e|
      ensures IsWanted(body, pref, e[k])
    {
      assert e[k] in ForTrips(body.data, ids);
    }
  }

  // ---------------------------------------------------------------------------
  // The alerts

  /** An alert that is counted: any cause but scheduled maintenance. */
  predicate Counted(r: Resource) {
    r.Alert? && r.cause != Maintenance
  }

  /** The counted alerts, in the order of `included`. */
  function Alerts(included: seq<Resource>): seq<Resource> {
    Filter(included, Counted)
  }

  /**
   * The alerts counted are the non-maintenance alerts of `included`, each as often as it
   * occurs there; maintenance alerts and other objects are never counted.
   */
  lemma AlertsSpec(included: seq<Resource>, x: Resource)
    ensures multiset(Alerts(included))[x] == if Counted(x) then multiset(included)[x] else 0
  {
    FilterMultiset(included, Counted, x);
  }

  /** There is no counted alert exactly when `included` holds no non-maintenance alert. */
  lemma NoAlertsIff(included: seq<Resource>)
    ensures |Alerts(included)| == 0 <==> forall i :: 0 <= i < |included| ==> !Counted(included[i])
  {
    var idx := FilterPositions(included, Counted);
    if |Alerts(included)| == 0 {
      assert idx == [];
    } else {
      var i := idx[0];
      assert Counted(included[i]);
    }
  }

  /** The alert count of a concatenation is the sum of the counts of its parts. */
  lemma AlertsAppend(a: seq<Resource>, b: seq<Resource>)
    ensures |Alerts(a + b)| == |Alerts(a)| + |Alerts(b)|
  {
    FilterAppend(a, b, Counted);
  }
}
