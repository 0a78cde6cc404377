/**
 * The map interaction hook: which activity a click on a route layer
 * selects, the popup coordinate, and the cursor shown over routes.
 */
module MapInteraction {
  import opened Wrappers
  import opened StravaTypes

  datatype LngLat = LngLat(lng: real, lat: real)

  /** One hit-tested feature of a click: the id of its layer, when it has a layer. */
  datatype Feature = Feature(layerId: Option<string>)

  /** A click on the map: the features hit, topmost first (absent when none are reported), and where. */
  datatype ClickEvent = ClickEvent(features: Option<seq<Feature>>, lngLat: LngLat)

  /** `routes.find(route => String(route.id) === layerId)`: the first route drawn on that layer. */
  function FindRoute(routes: seq<Activity>, layerId: string): (r: Option<Activity>)
    ensures r.None? <==> forall i :: 0 <= i < |routes| ==> LayerId(routes[i]) != layerId
    ensures r.Some? ==>
              exists k :: 0 <= k < |routes| && routes[k] == r.value && LayerId(routes[k]) == layerId &&
                          forall i :: 0 <= i < k ==> LayerId(routes[i]) != layerId
  {
    if routes == [] then None
    else if LayerId(routes[0]) == layerId then Some(routes[0])
    else
      var r := FindRoute(routes[1..], layerId);
      assert forall i :: 1 <= i < |routes| ==> routes[i] == routes[1..][i - 1];
      r
  }

  /** With unique ids, the layer of a route leads back to that very route. */
  lemma FindRouteById(routes: seq<Activity>, k: int)
    requires 0 <= k < |routes|
    requires forall i, j :: 0 <= i < j < |routes| ==> routes[i].id != routes[j].id
    ensures FindRoute(routes, LayerId(routes[k])) == Some(routes[k])
  {
    var r := FindRoute(routes, LayerId(routes[k]));
    var m :| 0 <= m < |routes| && routes[m] == r.value && LayerId(routes[m]) == LayerId(routes[k]) &&
      forall i :: 0 <= i < m ==> LayerId(routes[i]) != LayerId(routes[k]);
    LayerIdMatchesId(routes[m], routes[k]);
  }

  /** `Math.round(mps * 3.6)`: metres per second to whole km/h, halves rounded up. */
  function KmhRounded(mps: real): (kmh: int)
    ensures kmh as real - 0.5 <= mps * 3.6 < kmh as real + 0.5
  {
    (mps * 3.6 + 0.5).Floor
  }

  /**
   * The copy shown in the popup: the date formatted for display and both
   * speeds in whole km/h; every other field as stored.
   */
  function ForDisplay(a: Activity, formatDateTime: string -> string): (d: Activity)
    ensures d == a.(start_date := d.start_date, average_speed := d.average_speed, max_speed := d.max_speed)
    ensures d.start_date == formatDateTime(a.start_date)
    ensures d.average_speed == KmhRounded(a.average_speed) as real
    ensures d.max_speed == KmhRounded(a.max_speed) as real
  {
    a.(start_date := formatDateTime(a.start_date),
       average_speed := KmhRounded(a.average_speed) as real,
       max_speed := KmhRounded(a.max_speed) as real)
  }

  /** The cursor after a pointer enters or leaves a route: "pointer" becomes "auto", anything else "pointer". */
  function NextCursor(cursor: string): (c: string)
    ensures c == "auto" || c == "pointer"
    ensures c == "auto" <==> cursor == "pointer"
  {
    if cursor == "pointer" then "auto" else "pointer"
  }

  /** Over the two cursor values, two changes restore the cursor. */
  lemma NextCursorTwiceRestores(cursor: string)
    requires cursor == "auto" || cursor == "pointer"
    ensures NextCursor(NextCursor(cursor)) == cursor
  {
  }

  /** The hook's three state cells; `Valid` says the cursor is one of its two values. */
  class Interaction {
    var clickedPoint: Option<LngLat>
    var cursor: string
    var selectedActivity: Option<Activity>
    const formatDateTime: string -> string

    ghost predicate Valid()
      reads this
    {
      cursor == "auto" || cursor == "pointer"
    }

    constructor (formatDateTime: string -> string)
      ensures Valid()
      ensures clickedPoint == None && cursor == "auto" && selectedActivity == None
      ensures this.formatDateTime == formatDateTime
    {
      clickedPoint := None;
      cursor := "auto";
      selectedActivity := None;
      this.formatDateTime := formatDateTime;
    }

    /**
     * A click: no features clears the selection; a top feature whose layer
     * id is missing or empty changes nothing; otherwise the popup moves to
     * the click and shows the first route drawn on that layer, or nothing.
     */
    method HandleMapClick(routes: seq<Activity>, e: ClickEvent)
      requires Valid()
      modifies this`clickedPoint, this`selectedActivity
      ensures Valid() && cursor == old(cursor)
      ensures e.features.None? || e.features.value == [] ==>
        selectedActivity == None && clickedPoint == old(clickedPoint)
      ensures e.features.Some? && e.features.value != [] && !Truthy(e.features.value[0].layerId) ==>
        selectedActivity == old(selectedActivity) && clickedPoint == old(clickedPoint)
      ensures e.features.Some? && e.features.value != [] && Truthy(e.features.value[0].layerId) ==>
        clickedPoint == Some(e.lngLat) &&
        selectedActivity == match FindRoute(routes, e.features.value[0].layerId.value)
          case Some(found) => Some(ForDisplay(found, formatDateTime))
          case None => None
    {
      if e.features.Some? && |e.features.value| > 0 {
        var clickedRoute := e.features.value[0].layerId;
        if Truthy(clickedRoute) {
          clickedPoint := Some(e.lngLat);
          var foundRoute := FindRoute(routes, clickedRoute.value);
          if foundRoute.Some? {
            selectedActivity := Some(ForDisplay(foundRoute.value, formatDateTime));
          } else {
            selectedActivity := None;
          }
        }
      } else {
        selectedActivity := None;
      }
    }

    method HandlePointerChange()
      modifies this`cursor
      ensures Valid()
      ensures cursor == NextCursor(old(cursor))
    {
      if cursor == "pointer" {
        cursor := "auto";
      } else {
        cursor := "pointer";
      }
    }

    method ClosePopup()
      modifies this`selectedActivity
      ensures selectedActivity == None
    {
      selectedActivity := None;
    }
  }
}
