/**
 * The activity record of the fitness feed, reduced to the fields the hooks
 * read or rewrite plus `name`, `distance` and `kudos_count`, which they pass
 * through untouched. The feed record's other fields are dropped.
 */
module StravaTypes {
  import opened Wrappers
  import Decimal

  /** The `map` object of an activity: its id and its encoded path geometry. */
  datatype RouteMap = RouteMap(id: string, summary_polyline: string)

  /**
   * One activity. `route_map` is the record's `map` field (a reserved word
   * here), `None` where the feed sends no map object;
   * speeds are in metres per second as received, and become whole km/h
   * only in the copy made for a popup.
   */
  datatype Activity = Activity(
    id: int,
    name: string,
    distance: real,
    start_date: string,
    route_map: Option<RouteMap>,
    average_speed: real,
    max_speed: real,
    kudos_count: int,
    color: string)

  /** JavaScript truthiness of a nullable string: present and not empty. */
  predicate Truthy(s: Option<string>) {
    s.Some? && s.value != ""
  }

  /** `activity.map && activity.map.summary_polyline`: a map object with a non-empty polyline. */
  predicate HasGeometry(a: Activity) {
    a.route_map.Some? && a.route_map.value.summary_polyline != ""
  }

  /** `String(activity.id)`, the identifier of the map layer that draws the activity. */
  function LayerId(a: Activity): (layer: string)
    ensures Decimal.ParseNumber(layer) == Some(a.id)
  {
    Decimal.ParseNumberOfIntToString(a.id);
    Decimal.IntToString(a.id)
  }

  /** Two activities share a layer identifier exactly when they share an id. */
  lemma LayerIdMatchesId(a: Activity, b: Activity)
    ensures LayerId(a) == LayerId(b) <==> a.id == b.id
  {
    if LayerId(a) == LayerId(b) {
      Decimal.IntToStringInjective(a.id, b.id);
    }
  }
}
