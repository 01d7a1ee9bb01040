/** The InfoPoint route list reshaped as GTFS route records, so that the
    GTFS pipeline can run on it. The map fills `routeTextColor`, which the
    pipeline's normalizer does not read, and no sort order. */
module UseInfoPointRoutes {
  import opened Common
  import opened StableSort
  import opened InfoPoint
  import opened PublicMessagesFromGtfs

  /** One route: `RouteId`, `RouteAbbreviation`, `Color` and `TextColor`
      copied as they are; no `textColor` and no `routeSortOrder`. */
  function AdaptRoute(r: InfoPointRoute): GtfsRoute
  {
    GtfsRoute(r.routeId, r.routeAbbreviation, r.color, r.textColor, None, None)
  }

  /** The mapped route list. */
  function AdaptRoutes(json: seq<InfoPointRoute>): (rs: seq<GtfsRoute>)
    ensures |rs| == |json|
  {
    seq(|json|, i requires 0 <= i < |json| => AdaptRoute(json[i]))
  }

  /** Route `i` is InfoPoint route `i`: id, abbreviation and both colours
      copied without defaulting, no `textColor`, no sort order. */
  lemma AdaptRoutesFields(json: seq<InfoPointRoute>, i: nat)
    requires i < |json|
    ensures var r := AdaptRoutes(json)[i];
      && r.routeId == json[i].routeId && r.routeShortName == json[i].routeAbbreviation
      && r.routeColor == json[i].color && r.routeTextColor == json[i].textColor
      && r.textColor.None? && r.routeSortOrder.None?
  {
  }

  /** Without sort orders every route ranks +∞, so the route sort leaves an
      alert's routes in the order of its entities. */
  lemma AdaptedRoutesKeepOrder(json: seq<InfoPointRoute>, a: NestedAlert)
    requires forall k :: 0 <= k < |a.routes| ==> a.routes[k] in AdaptRoutes(json)
    ensures SortRoutes(a) == a
  {
    forall k | 0 <= k < |a.routes| ensures RouteRank(a.routes[k]) == [PosInf] {
      var q :| 0 <= q < |AdaptRoutes(json)| && AdaptRoutes(json)[q] == a.routes[k];
    }
    SortByConstantRank(a.routes, RouteRank, [PosInf]);
  }

  /** A normalized adapted route has no text colour, and the id,
      abbreviation and `Color` of an InfoPoint route. */
  lemma NormalizedAdaptedRoute(json: seq<InfoPointRoute>, r: GtfsRoute)
    requires r in AdaptRoutes(json)
    ensures var o := NormalizeRoute(r);
      && o.textColor.None?
      && exists q :: (0 <= q < |json| && json[q].routeId == o.id
                      && json[q].routeAbbreviation == o.abbreviation && json[q].color == o.color)
  {
    var q :| 0 <= q < |AdaptRoutes(json)| && AdaptRoutes(json)[q] == r;
    assert r == AdaptRoute(json[q]);
  }

  /** Through the GTFS pipeline every shown route of an InfoPoint route
      list has no text colour, whatever `TextColor` held, and has the
      abbreviation and `Color` of an InfoPoint route with its id. */
  lemma AdaptedTextColorLost(json: seq<InfoPointRoute>, alerts: seq<FeedEntity>, filter: Option<seq<string>>,
                             ms: seq<GtfsMessage>, k: nat, p: nat)
    requires PublicMessagesFromGtfs.PublicMessagesFromGtfs(Ready(AdaptRoutes(json)), Ready(alerts), filter) == Normal(Ready(ms))
    requires k < |ms| && p < |ms[k].routes|
    ensures ms[k].routes[p].textColor.None?
    ensures exists q :: (0 <= q < |json| && json[q].routeId == ms[k].routes[p].id
                         && json[q].routeAbbreviation == ms[k].routes[p].abbreviation
                         && json[q].color == ms[k].routes[p].color)
  {
    ShownRouteInSnapshot(AdaptRoutes(json), alerts, filter, ms, k, p);
    var r :| r in AdaptRoutes(json) && ms[k].routes[p] == NormalizeRoute(r);
    NormalizedAdaptedRoute(json, r);
  }
}
