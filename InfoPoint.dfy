/** The records an Avail InfoPoint REST installation returns, as decoded
    JSON. Both the older message hook and the adapters that feed the GTFS
    pipeline start from these. */
module InfoPoint {
  import opened Common

  /** An element of `Routes/GetAllRoutes`. `sortOrder` is `Some` when the
      `SortOrder` field holds a number and `None` otherwise. Route ids are
      numbers in the JSON; they are kept as the property keys they become. */
  datatype InfoPointRoute = InfoPointRoute(
    routeId: string,
    routeAbbreviation: string,
    color: Option<string>,
    textColor: Option<string>,
    sortOrder: Option<int>)

  /** An element of `PublicMessages/GetCurrentMessages`. `priority` is `Some`
      when `Priority` holds a number; `routes` is `None` when `Routes` is
      absent or null. */
  datatype InfoPointMessage = InfoPointMessage(
    messageId: string,
    message: string,
    priority: Option<int>,
    routes: Option<seq<string>>)

  function InfoPointRouteId(r: InfoPointRoute): string
  {
    r.routeId
  }
}
