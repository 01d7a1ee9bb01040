/** The InfoPoint current messages reshaped as GTFS-realtime alert
    entities, so that the GTFS pipeline can run on them. The map fills a
    description but no header, and leaves the informed entities undefined
    when a message has no `Routes`; the pipeline dereferences both. */
module UseInfoPointPublicMessages {
  import opened Common
  import opened InfoPoint
  import opened PublicMessagesFromGtfs

  /** The informed entities of a message: one `{routeId}` per entry of
      `Routes`, undefined when `Routes` is absent. */
  function AdaptEntities(routes: Option<seq<string>>): Option<seq<EntitySelector>>
  {
    if routes.None? then None
    else Some(seq(|routes.value|, k requires 0 <= k < |routes.value| => EntitySelector(None, routes.value[k])))
  }

  /** One message as an alert entity. */
  function AdaptMessage(m: InfoPointMessage): FeedEntity
  {
    FeedEntity(m.messageId,
               Alert([], None, Some(TranslatedString([Translation(m.message)])), AdaptEntities(m.routes)))
  }

  function AdaptMessages(json: seq<InfoPointMessage>): (alerts: seq<FeedEntity>)
    ensures |alerts| == |json|
  {
    seq(|json|, i requires 0 <= i < |json| => AdaptMessage(json[i]))
  }

  /** The value the fetcher settles to. `url` is the configured location,
      `None` when it is `null`: then the fetcher gives `null` (the failure
      state) without fetching. */
  function FetchAlerts(url: Option<string>, json: seq<InfoPointMessage>): (r: Res<seq<FeedEntity>>)
    ensures !r.Pending?
    ensures r.Failed? <==> url.None?
    ensures r.Ready? ==> |r.value| == |json|
  {
    if url.None? then Failed else Ready(AdaptMessages(json))
  }

  /** Alert `i` is message `i`: its id, an empty active period, no header,
      a description of exactly one translation holding the message text,
      and one entity per route id, in order, with no agency id. */
  lemma AdaptMessagesFields(json: seq<InfoPointMessage>, i: nat)
    requires i < |json|
    ensures var a := AdaptMessages(json)[i];
      && a.id == json[i].messageId
      && a.alert.activePeriod == []
      && a.alert.headerText.None?
      && a.alert.descriptionText == Some(TranslatedString([Translation(json[i].message)]))
      && (a.alert.informedEntity.None? <==> json[i].routes.None?)
      && (json[i].routes.Some? ==>
            |a.alert.informedEntity.value| == |json[i].routes.value|
            && forall k :: 0 <= k < |json[i].routes.value| ==>
                 a.alert.informedEntity.value[k].routeId == json[i].routes.value[k]
                 && a.alert.informedEntity.value[k].agencyId.None?)
  {
  }

  /** The InfoPoint messages through the GTFS pipeline, with any route
      list. */
  function ThroughGtfs(routes: seq<GtfsRoute>, json: seq<InfoPointMessage>, filter: Option<seq<string>>): Completion<Res<seq<GtfsMessage>>>
  {
    PublicMessagesFromGtfs.PublicMessagesFromGtfs(Ready(routes), Ready(AdaptMessages(json)), filter)
  }

  /** When every message has `Routes`, nesting succeeds. */
  lemma AdaptedNestNormal(routes: seq<GtfsRoute>, json: seq<InfoPointMessage>)
    requires forall j :: 0 <= j < |json| ==> json[j].routes.Some?
    ensures Nest(routes, AdaptMessages(json)).Normal?
  {
    var alerts := AdaptMessages(json);
    forall j | 0 <= j < |alerts| ensures HasEntities(alerts[j]) {
      assert alerts[j] == AdaptMessage(json[j]);
    }
  }

  /** Every alert that reaches the normalizer lacks a header. */
  lemma AdaptedSortedHeaderless(routes: seq<GtfsRoute>, json: seq<InfoPointMessage>, filter: Option<seq<string>>, x: NestedAlert)
    requires Nest(routes, AdaptMessages(json)).Normal?
    requires x in SortGtfs(FilterGtfs(Nest(routes, AdaptMessages(json)).value, filter))
    ensures x.headerText.None?
  {
    var alerts := AdaptMessages(json);
    StagesSource(routes, alerts, filter, x);
    var i :| 0 <= i < |alerts| && alerts[i].alert.informedEntity.Some?
             && Retained(RouteIndex(routes), alerts[i].alert.informedEntity.value)
             && x == SortRoutes(Pruned(NestAlert(RouteIndex(routes), alerts[i]), filter));
    assert alerts[i] == AdaptMessage(json[i]);
  }

  /** Through the GTFS pipeline the InfoPoint messages are never shown: it
      either succeeds with no message or throws, for an absent `Routes` or
      for a missing header. */
  lemma AdaptedMessagesNeverShown(routes: seq<GtfsRoute>, json: seq<InfoPointMessage>, filter: Option<seq<string>>)
    ensures ThroughGtfs(routes, json, filter).Normal? ==> ThroughGtfs(routes, json, filter).value == Ready([])
    ensures ThroughGtfs(routes, json, filter).Throw? ==>
      ThroughGtfs(routes, json, filter).reason in {InformedEntityUndefined, HeaderTextUndefined}
  {
    var alerts := AdaptMessages(json);
    if Nest(routes, alerts).Normal? {
      var sorted := SortGtfs(FilterGtfs(Nest(routes, alerts).value, filter));
      if sorted != [] {
        AdaptedSortedHeaderless(routes, json, filter, sorted[0]);
        NormalizeHeaderless(sorted);
      }
      PipelineOutcome(routes, alerts, filter);
    } else {
      PipelineNestThrows(routes, alerts, filter);
    }
  }

  /** A message without `Routes` makes nesting throw. */
  lemma AbsentRoutesThrow(routes: seq<GtfsRoute>, json: seq<InfoPointMessage>, filter: Option<seq<string>>, i: nat)
    requires i < |json| && json[i].routes.None?
    ensures ThroughGtfs(routes, json, filter) == Throw(InformedEntityUndefined)
  {
    assert !HasEntities(AdaptMessages(json)[i]);
    PipelineNestThrows(routes, AdaptMessages(json), filter);
  }

  /** Otherwise a general message reaches the normalizer and makes it throw. */
  lemma GeneralMessageThrows(routes: seq<GtfsRoute>, json: seq<InfoPointMessage>, filter: Option<seq<string>>, i: nat)
    requires forall j :: 0 <= j < |json| ==> json[j].routes.Some?
    requires i < |json| && json[i].routes == Some([])
    ensures ThroughGtfs(routes, json, filter) == Throw(HeaderTextUndefined)
  {
    var alerts := AdaptMessages(json);
    AdaptedNestNormal(routes, json);
    assert alerts[i] == AdaptMessage(json[i]);
    assert |alerts[i].alert.informedEntity.value| == 0;
    GeneralAlertSorted(routes, alerts, filter, i);
    var sorted := SortGtfs(FilterGtfs(Nest(routes, alerts).value, filter));
    AdaptedSortedHeaderless(routes, json, filter, sorted[0]);
    NormalizeHeaderless(sorted);
    PipelineOutcome(routes, AdaptMessages(json), filter);
  }
}
