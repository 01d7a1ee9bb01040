/** The live reconciliation pipeline: decoded GTFS routes and decoded
    GTFS-realtime alert entities become an ordered list of display
    messages, in four stages (nest, filter, sort, normalize) behind a
    check of the two inputs' fetch states. */
module PublicMessagesFromGtfs {
  import opened Common
  import opened StableSort

  // ---------------------------------------------------------------------
  // Records

  datatype Translation = Translation(text: string)
  datatype TranslatedString = TranslatedString(translation: seq<Translation>)
  datatype TimeRange = TimeRange(start: int, end: int)

  /** An informed entity. Protobuf decoding leaves an absent route id as
      the empty string; an agency-wide entity carries an agency id and an
      empty route id. */
  datatype EntitySelector = EntitySelector(agencyId: Option<string>, routeId: string)

  datatype Alert = Alert(
    activePeriod: seq<TimeRange>,
    headerText: Option<TranslatedString>,
    descriptionText: Option<TranslatedString>,
    informedEntity: Option<seq<EntitySelector>>)

  datatype FeedEntity = FeedEntity(id: string, alert: Alert)

  /** A route record. `routeSortOrder` is the number `parseInt` reads from a
      truthy sort-order field, `None` when the field is absent or empty.
      `textColor` is the field the normalizer reads; neither route source
      fills it. */
  datatype GtfsRoute = GtfsRoute(
    routeId: string,
    routeShortName: string,
    routeColor: Option<string>,
    routeTextColor: Option<string>,
    textColor: Option<string>,
    routeSortOrder: Option<int>)

  /** An alert after nesting: its informed entities replaced by the route
      records they name. */
  datatype NestedAlert = NestedAlert(
    id: string,
    activePeriod: seq<TimeRange>,
    headerText: Option<TranslatedString>,
    descriptionText: Option<TranslatedString>,
    routes: seq<GtfsRoute>)

  /** A display message. */
  datatype GtfsMessage = GtfsMessage(id: string, header: string, description: string, routes: seq<RouteObject>)

  // ---------------------------------------------------------------------
  // Nesting

  function RouteIdOf(r: GtfsRoute): string
  {
    r.routeId
  }

  /** The object `routesGtfsMap`: route id to route record, the last record
      winning for a repeated id. */
  function RouteIndex(routes: seq<GtfsRoute>): map<string, GtfsRoute>
  {
    IndexBy(routes, RouteIdOf)
  }

  predicate AgencyWide(e: EntitySelector)
  {
    Truthy(e.agencyId) && e.routeId == ""
  }

  /** The drop policy: an alert stays when every entity names a known route
      or every entity is agency-wide. */
  predicate Retained(index: map<string, GtfsRoute>, es: seq<EntitySelector>)
  {
    (forall i :: 0 <= i < |es| ==> es[i].routeId in index)
    || (forall i :: 0 <= i < |es| ==> AgencyWide(es[i]))
  }

  function RouteIds(es: seq<EntitySelector>): (ids: seq<string>)
    ensures |ids| == |es|
    ensures forall i :: 0 <= i < |es| ==> ids[i] == es[i].routeId
  {
    seq(|es|, i requires 0 <= i < |es| => es[i].routeId)
  }

  /** Position of the first occurrence of `x` in `s`. */
  function FirstIndex<T(==)>(s: seq<T>, x: T): (i: nat)
    requires x in s
    ensures i < |s| && s[i] == x && x !in s[..i]
  {
    if s[0] == x then 0
    else
      var j := FirstIndex(s[1..], x);
      assert s[..j + 1] == [s[0]] + s[1..][..j];
      j + 1
  }

  /** `[...new Set(xs.filter((x) => x))]`: the elements other than the falsy
      `blank`, each once. */
  function DistinctExcept<T(==)>(xs: seq<T>, blank: T): (r: seq<T>)
    ensures forall i :: 0 <= i < |r| ==> r[i] in xs && r[i] != blank
    ensures forall i :: 0 <= i < |xs| && xs[i] != blank ==> xs[i] in r
    ensures forall i, j :: 0 <= i < j < |r| ==> r[i] != r[j]
  {
    if xs == [] then []
    else
      var prefix := xs[..|xs| - 1];
      var x := xs[|xs| - 1];
      var d := DistinctExcept(prefix, blank);
      assert xs == prefix + [x];
      if x == blank || x in d then d else d + [x]
  }

  /** Only blanks leave nothing. */
  lemma {:induction false} DistinctExceptAllBlank<T>(xs: seq<T>, blank: T)
    requires forall i :: 0 <= i < |xs| ==> xs[i] == blank
    ensures DistinctExcept(xs, blank) == []
  {
    if xs != [] {
      DistinctExceptAllBlank(xs[..|xs| - 1], blank);
    }
  }

  /** The non-empty route ids, each once. */
  function DistinctNonEmpty(ids: seq<string>): seq<string>
  {
    DistinctExcept(ids, "")
  }

  lemma FirstIndexExtend<T>(p: seq<T>, x: T, y: T)
    requires y in p
    ensures FirstIndex(p + [x], y) == FirstIndex(p, y)
  {
    var i := FirstIndex(p, y);
    assert (p + [x])[i] == y;
    assert (p + [x])[..i] == p[..i];
  }

  lemma FirstIndexLast<T>(p: seq<T>, x: T)
    requires x !in p
    ensures FirstIndex(p + [x], x) == |p|
  {
    assert (p + [x])[..|p|] == p;
  }

  /** The elements of `r` stand in the order of their first occurrences in `xs`. */
  predicate InFirstAppearanceOrder<T(==)>(xs: seq<T>, r: seq<T>)
  {
    forall i, j :: 0 <= i < j < |r| && r[i] in xs && r[j] in xs ==> FirstIndex(xs, r[i]) < FirstIndex(xs, r[j])
  }

  /** The distinct elements keep the order in which they first appear. */
  lemma {:induction false} DistinctExceptFirstAppearance<T>(xs: seq<T>, blank: T)
    ensures InFirstAppearanceOrder(xs, DistinctExcept(xs, blank))
  {
    if xs != [] {
      var prefix := xs[..|xs| - 1];
      var x := xs[|xs| - 1];
      var d := DistinctExcept(prefix, blank);
      assert xs == prefix + [x];
      DistinctExceptFirstAppearance(prefix, blank);
      assert forall i, j :: 0 <= i < j < |d| ==> FirstIndex(prefix, d[i]) < FirstIndex(prefix, d[j]);
      var r := DistinctExcept(xs, blank);
      assert r == if x == blank || x in d then d else d + [x];
      forall i, j | 0 <= i < j < |r| && r[i] in xs && r[j] in xs ensures FirstIndex(xs, r[i]) < FirstIndex(xs, r[j]) {
        assert r[i] == d[i];
        FirstIndexExtend(prefix, x, d[i]);
        if j < |d| {
          assert r[j] == d[j];
          FirstIndexExtend(prefix, x, d[j]);
          assert FirstIndex(prefix, d[i]) < FirstIndex(prefix, d[j]);
        } else {
          assert r[j] == x && x != blank && x !in d;
          assert x !in prefix;
          FirstIndexLast(prefix, x);
          assert FirstIndex(prefix, d[i]) < |prefix|;
        }
      }
    }
  }

  /** The nested form of a retained alert: its distinct route ids resolved
      against the index. */
  function NestAlert(index: map<string, GtfsRoute>, a: FeedEntity): (n: NestedAlert)
    requires a.alert.informedEntity.Some? && Retained(index, a.alert.informedEntity.value)
    ensures n.id == a.id && n.headerText == a.alert.headerText && n.descriptionText == a.alert.descriptionText
    ensures var ids := DistinctNonEmpty(RouteIds(a.alert.informedEntity.value));
      |n.routes| == |ids| && forall k :: 0 <= k < |ids| ==> ids[k] in index && n.routes[k] == index[ids[k]]
  {
    var es := a.alert.informedEntity.value;
    var ids := DistinctNonEmpty(RouteIds(es));
    assert forall k :: 0 <= k < |ids| ==> ids[k] in index by {
      forall k | 0 <= k < |ids| ensures ids[k] in index {
        var i :| 0 <= i < |es| && RouteIds(es)[i] == ids[k];
        assert !AgencyWide(es[i]);
      }
    }
    NestedAlert(a.id, a.alert.activePeriod, a.alert.headerText, a.alert.descriptionText,
                seq(|ids|, k requires 0 <= k < |ids| => index[ids[k]]))
  }

  predicate HasEntities(a: FeedEntity)
  {
    a.alert.informedEntity.Some?
  }

  function NestAll(index: map<string, GtfsRoute>, alerts: seq<FeedEntity>): (r: Completion<seq<NestedAlert>>)
    ensures r.Throw? <==> exists i :: 0 <= i < |alerts| && !HasEntities(alerts[i])
    ensures r.Throw? ==> r.reason == InformedEntityUndefined
    ensures r.Normal? ==> |r.value| <= |alerts|
  {
    if alerts == [] then Normal([])
    else if !HasEntities(alerts[0]) then Throw(InformedEntityUndefined)
    else
      var rest := NestAll(index, alerts[1..]);
      assert forall i :: 0 <= i < |alerts| - 1 ==> alerts[1..][i] == alerts[i + 1];
      if rest.Throw? then rest
      else if Retained(index, alerts[0].alert.informedEntity.value) then
        Normal([NestAlert(index, alerts[0])] + rest.value)
      else rest
  }

  /** `nestGtfs`: drop the alerts the route snapshot cannot explain and
      resolve the rest. Throws when an alert has no informed-entity list. */
  function Nest(routes: seq<GtfsRoute>, alerts: seq<FeedEntity>): (r: Completion<seq<NestedAlert>>)
    ensures r.Throw? <==> exists i :: 0 <= i < |alerts| && !HasEntities(alerts[i])
    ensures r.Normal? ==> |r.value| <= |alerts|
  {
    NestAll(RouteIndex(routes), alerts)
  }

  /** One step of `NestAll`: the first alert's nested form, when it is
      retained, in front of the rest's. */
  lemma NestAllStep(index: map<string, GtfsRoute>, alerts: seq<FeedEntity>)
    requires alerts != [] && NestAll(index, alerts).Normal?
    ensures NestAll(index, alerts[1..]).Normal? && HasEntities(alerts[0])
    ensures NestAll(index, alerts).value ==
      (if Retained(index, alerts[0].alert.informedEntity.value)
       then [NestAlert(index, alerts[0])] + NestAll(index, alerts[1..]).value
       else NestAll(index, alerts[1..]).value)
  {
  }

  /** Every output alert is the nested form of a retained input alert. */
  lemma {:induction false} NestAllSound(index: map<string, GtfsRoute>, alerts: seq<FeedEntity>, k: nat)
    requires NestAll(index, alerts).Normal? && k < |NestAll(index, alerts).value|
    ensures exists i :: 0 <= i < |alerts| && HasEntities(alerts[i])
                        && Retained(index, alerts[i].alert.informedEntity.value)
                        && NestAll(index, alerts).value[k] == NestAlert(index, alerts[i])
  {
    var tail := alerts[1..];
    NestAllStep(index, alerts);
    var out := NestAll(index, alerts).value;
    var rest := NestAll(index, tail).value;
    if Retained(index, alerts[0].alert.informedEntity.value) && k == 0 {
      assert out[0] == NestAlert(index, alerts[0]);
    } else {
      var k' := if Retained(index, alerts[0].alert.informedEntity.value) then k - 1 else k;
      assert out[k] == rest[k'];
      NestAllSound(index, tail, k');
      var i :| 0 <= i < |tail| && HasEntities(tail[i]) && Retained(index, tail[i].alert.informedEntity.value)
               && rest[k'] == NestAlert(index, tail[i]);
      assert tail[i] == alerts[i + 1];
    }
  }

  /** A lone alert with entities nests to its nested form when the
      snapshot explains it, and to nothing otherwise. */
  lemma NestAllSingle(index: map<string, GtfsRoute>, a: FeedEntity)
    requires HasEntities(a)
    ensures NestAll(index, [a]) ==
      Normal(if Retained(index, a.alert.informedEntity.value) then [NestAlert(index, a)] else [])
  {
    assert [a][1..] == [];
    assert NestAll(index, [a][1..]) == Normal([]);
    if Retained(index, a.alert.informedEntity.value) {
      assert [NestAlert(index, [a][0])] + [] == [NestAlert(index, a)];
    }
  }

  /** Nesting goes alert by alert: a concatenation nests without throwing
      exactly when both parts do, and then to the parts' results in order. */
  lemma NestAllAppend(index: map<string, GtfsRoute>, xs: seq<FeedEntity>, ys: seq<FeedEntity>)
    ensures NestAll(index, xs + ys).Normal? <==> NestAll(index, xs).Normal? && NestAll(index, ys).Normal?
    ensures NestAll(index, xs + ys).Normal? ==>
      NestAll(index, xs + ys).value == NestAll(index, xs).value + NestAll(index, ys).value
  {
    NestAllAppendNormal(index, xs, ys);
    if NestAll(index, xs).Normal? && NestAll(index, ys).Normal? {
      NestAllAppendValue(index, xs, ys);
    }
  }

  lemma {:induction false} NestAllAppendValue(index: map<string, GtfsRoute>, xs: seq<FeedEntity>, ys: seq<FeedEntity>)
    requires NestAll(index, xs).Normal? && NestAll(index, ys).Normal?
    ensures NestAll(index, xs + ys) == Normal(NestAll(index, xs).value + NestAll(index, ys).value)
  {
    if xs == [] {
      assert xs + ys == ys;
      assert NestAll(index, xs).value + NestAll(index, ys).value == NestAll(index, ys).value;
    } else {
      NestAllStep(index, xs);
      NestAllAppendValue(index, xs[1..], ys);
      assert xs == [xs[0]] + xs[1..];
      assert xs + ys == [xs[0]] + (xs[1..] + ys);
      NestAllAppendStep(index, xs[0], xs[1..], ys);
    }
  }

  lemma NestAllAppendStep(index: map<string, GtfsRoute>, x: FeedEntity, rest: seq<FeedEntity>, ys: seq<FeedEntity>)
    requires HasEntities(x) && NestAll(index, rest).Normal? && NestAll(index, ys).Normal?
    requires NestAll(index, rest + ys) == Normal(NestAll(index, rest).value + NestAll(index, ys).value)
    ensures NestAll(index, [x] + (rest + ys)) == Normal(NestAll(index, [x] + rest).value + NestAll(index, ys).value)
  {
    var head := NestAll(index, [x]).value;
    var a, b := NestAll(index, rest).value, NestAll(index, ys).value;
    NestAllUnfold(index, x, rest + ys);
    NestAllUnfold(index, x, rest);
    ConcatAssoc(head, a, b);
  }

  /** An alert with entities in front of alerts that nest: its own result
      before theirs. */
  lemma NestAllUnfold(index: map<string, GtfsRoute>, x: FeedEntity, rest: seq<FeedEntity>)
    requires HasEntities(x) && NestAll(index, rest).Normal?
    ensures NestAll(index, [x] + rest) == Normal(NestAll(index, [x]).value + NestAll(index, rest).value)
  {
    NestAllSingle(index, x);
    assert ([x] + rest)[0] == x && ([x] + rest)[1..] == rest;
    if Retained(index, x.alert.informedEntity.value) {
      assert NestAll(index, [x] + rest) == Normal([NestAlert(index, x)] + NestAll(index, rest).value);
    } else {
      assert NestAll(index, [x] + rest) == NestAll(index, rest);
      assert NestAll(index, [x]).value + NestAll(index, rest).value == NestAll(index, rest).value;
    }
  }

  lemma NestAllAppendNormal(index: map<string, GtfsRoute>, xs: seq<FeedEntity>, ys: seq<FeedEntity>)
    ensures NestAll(index, xs + ys).Normal? <==> NestAll(index, xs).Normal? && NestAll(index, ys).Normal?
  {
    if NestAll(index, xs + ys).Throw? {
      var i :| 0 <= i < |xs + ys| && !HasEntities((xs + ys)[i]);
      if i < |xs| {
        assert xs[i] == (xs + ys)[i];
      } else {
        assert ys[i - |xs|] == (xs + ys)[i];
      }
    }
    if NestAll(index, xs).Throw? {
      var i :| 0 <= i < |xs| && !HasEntities(xs[i]);
      assert (xs + ys)[i] == xs[i];
    }
    if NestAll(index, ys).Throw? {
      var i :| 0 <= i < |ys| && !HasEntities(ys[i]);
      assert (xs + ys)[|xs| + i] == ys[i];
    }
  }

  /** Every retained input alert's nested form is in the output. */
  lemma {:induction false} NestAllComplete(index: map<string, GtfsRoute>, alerts: seq<FeedEntity>, i: nat)
    requires NestAll(index, alerts).Normal? && i < |alerts|
    requires HasEntities(alerts[i]) && Retained(index, alerts[i].alert.informedEntity.value)
    ensures NestAlert(index, alerts[i]) in NestAll(index, alerts).value
  {
    NestAllStep(index, alerts);
    if i > 0 {
      assert alerts[i] == alerts[1..][i - 1];
      NestAllComplete(index, alerts[1..], i - 1);
    }
  }

  /** Nesting keeps exactly the retained alerts: every output alert is the
      nested form of a retained input alert, and every retained input
      alert's nested form is in the output. */
  lemma NestAllKeepsRetained(index: map<string, GtfsRoute>, alerts: seq<FeedEntity>)
    requires NestAll(index, alerts).Normal?
    ensures var out := NestAll(index, alerts).value;
      && (forall k :: 0 <= k < |out| ==>
            exists i :: 0 <= i < |alerts| && HasEntities(alerts[i])
                        && Retained(index, alerts[i].alert.informedEntity.value)
                        && out[k] == NestAlert(index, alerts[i]))
      && (forall i :: 0 <= i < |alerts| && Retained(index, alerts[i].alert.informedEntity.value) ==>
            NestAlert(index, alerts[i]) in out)
  {
    var out := NestAll(index, alerts).value;
    forall k | 0 <= k < |out|
      ensures exists i :: 0 <= i < |alerts| && HasEntities(alerts[i])
                          && Retained(index, alerts[i].alert.informedEntity.value)
                          && out[k] == NestAlert(index, alerts[i])
    {
      NestAllSound(index, alerts, k);
    }
    forall i | 0 <= i < |alerts| && Retained(index, alerts[i].alert.informedEntity.value)
      ensures NestAlert(index, alerts[i]) in out
    {
      NestAllComplete(index, alerts, i);
    }
  }

  /** A nested alert's routes are the records of its distinct non-empty
      route ids, in first-appearance order: no duplicate, no unresolved
      entry, every record taken from the route snapshot. */
  lemma NestedRoutesResolved(routes: seq<GtfsRoute>, a: FeedEntity)
    requires a.alert.informedEntity.Some? && Retained(RouteIndex(routes), a.alert.informedEntity.value)
    ensures var n := NestAlert(RouteIndex(routes), a);
      var ids := DistinctNonEmpty(RouteIds(a.alert.informedEntity.value));
      && |n.routes| == |ids|
      && (forall k :: 0 <= k < |n.routes| ==> n.routes[k].routeId == ids[k] && n.routes[k] in routes)
      && DistinctBy(n.routes, RouteIdOf)
  {
  }

  // ---------------------------------------------------------------------
  // Filtering

  predicate InFilter(filter: Option<seq<string>>, r: GtfsRoute)
  {
    filter.None? || r.routeShortName in filter.value
  }

  /** Whether an alert survives the whitelist. */
  predicate Passes(a: NestedAlert, filter: Option<seq<string>>)
  {
    filter.None? || |a.routes| == 0
    || exists i :: 0 <= i < |a.routes| && a.routes[i].routeShortName in filter.value
  }

  /** The route list of a surviving alert, pruned to the whitelist. */
  function PruneRoutes(routes: seq<GtfsRoute>, filter: Option<seq<string>>): (r: seq<GtfsRoute>)
    ensures forall i :: 0 <= i < |r| ==> r[i] in routes && InFilter(filter, r[i])
    ensures forall i :: 0 <= i < |routes| && InFilter(filter, routes[i]) ==> routes[i] in r
    ensures Subsequence(r, routes)
    ensures KeptCounts(r, routes, g => InFilter(filter, g))
  {
    if routes == [] then []
    else
      var rest := PruneRoutes(routes[1..], filter);
      PruneRoutesStep(routes, rest, filter);
      if InFilter(filter, routes[0]) then [routes[0]] + rest else rest
  }

  lemma PruneRoutesStep(routes: seq<GtfsRoute>, rest: seq<GtfsRoute>, filter: Option<seq<string>>)
    requires routes != []
    requires forall i :: 0 <= i < |rest| ==> rest[i] in routes[1..] && InFilter(filter, rest[i])
    requires forall i :: 0 <= i < |routes| - 1 && InFilter(filter, routes[1..][i]) ==> routes[1..][i] in rest
    requires Subsequence(rest, routes[1..])
    requires KeptCounts(rest, routes[1..], g => InFilter(filter, g))
    ensures var r := if InFilter(filter, routes[0]) then [routes[0]] + rest else rest;
      && (forall i :: 0 <= i < |r| ==> r[i] in routes && InFilter(filter, r[i]))
      && (forall i :: 0 <= i < |routes| && InFilter(filter, routes[i]) ==> routes[i] in r)
      && Subsequence(r, routes)
      && KeptCounts(r, routes, g => InFilter(filter, g))
  {
    assert [routes[0]] + routes[1..] == routes;
    KeepCons(routes[0], routes[1..], rest, g => InFilter(filter, g));
  }

  function Pruned(a: NestedAlert, filter: Option<seq<string>>): NestedAlert
  {
    a.(routes := PruneRoutes(a.routes, filter))
  }

  /** `filterGtfs`: keep the alerts that pass and prune their routes. */
  function FilterGtfs(alerts: seq<NestedAlert>, filter: Option<seq<string>>): (r: seq<NestedAlert>)
    ensures |r| <= |alerts|
  {
    if alerts == [] then []
    else (if Passes(alerts[0], filter) then [Pruned(alerts[0], filter)] else []) + FilterGtfs(alerts[1..], filter)
  }

  lemma {:induction false} PruneRoutesNull(routes: seq<GtfsRoute>)
    ensures PruneRoutes(routes, None) == routes
  {
    if routes != [] {
      PruneRoutesNull(routes[1..]);
    }
  }

  /** With no whitelist nothing is removed and nothing is pruned. */
  lemma {:induction false} FilterNullIsIdentity(alerts: seq<NestedAlert>)
    ensures FilterGtfs(alerts, None) == alerts
  {
    if alerts != [] {
      PruneRoutesNull(alerts[0].routes);
      FilterNullIsIdentity(alerts[1..]);
    }
  }

  /** A lone alert stays, pruned, exactly when it passes. */
  lemma FilterGtfsSingle(a: NestedAlert, filter: Option<seq<string>>)
    ensures FilterGtfs([a], filter) == if Passes(a, filter) then [Pruned(a, filter)] else []
  {
    assert [a][1..] == [];
  }

  /** The filter goes alert by alert: a concatenation filters to the
      parts' results in order. */
  lemma {:induction false} FilterGtfsAppend(xs: seq<NestedAlert>, ys: seq<NestedAlert>, filter: Option<seq<string>>)
    ensures FilterGtfs(xs + ys, filter) == FilterGtfs(xs, filter) + FilterGtfs(ys, filter)
  {
    if xs == [] {
      assert xs + ys == ys;
    } else {
      var head := if Passes(xs[0], filter) then [Pruned(xs[0], filter)] else [];
      assert (xs + ys)[0] == xs[0];
      assert (xs + ys)[1..] == xs[1..] + ys;
      FilterGtfsAppend(xs[1..], ys, filter);
      ConcatAssoc(head, FilterGtfs(xs[1..], filter), FilterGtfs(ys, filter));
    }
  }

  /** Exactly the passing alerts survive, each pruned to the whitelist. */
  lemma {:induction false} FilterMembership(alerts: seq<NestedAlert>, filter: Option<seq<string>>, x: NestedAlert)
    ensures x in FilterGtfs(alerts, filter) <==>
      exists i :: 0 <= i < |alerts| && Passes(alerts[i], filter) && x == Pruned(alerts[i], filter)
  {
    if alerts != [] {
      FilterMembership(alerts[1..], filter, x);
      assert forall i :: 0 <= i < |alerts| - 1 ==> alerts[1..][i] == alerts[i + 1];
      if x in FilterGtfs(alerts, filter) && x !in FilterGtfs(alerts[1..], filter) {
        assert x == Pruned(alerts[0], filter);
      }
    }
  }

  /** A routeless alert passes every whitelist unchanged. */
  lemma RoutelessPasses(alerts: seq<NestedAlert>, filter: Option<seq<string>>, i: nat)
    requires i < |alerts| && alerts[i].routes == []
    ensures alerts[i] in FilterGtfs(alerts, filter)
  {
    assert PruneRoutes([], filter) == [];
    assert Pruned(alerts[i], filter) == alerts[i];
    FilterMembership(alerts, filter, alerts[i]);
  }

  /** Under a whitelist every surviving route is whitelisted, and a routed
      alert survives only with at least one route left. */
  lemma FilteredRoutesWhitelisted(alerts: seq<NestedAlert>, w: seq<string>, x: NestedAlert)
    requires x in FilterGtfs(alerts, Some(w))
    ensures forall k :: 0 <= k < |x.routes| ==> x.routes[k].routeShortName in w
    ensures x.routes == [] ==> x in alerts
  {
    FilterMembership(alerts, Some(w), x);
    var i :| 0 <= i < |alerts| && Passes(alerts[i], Some(w)) && x == Pruned(alerts[i], Some(w));
    if alerts[i].routes != [] {
      var j :| 0 <= j < |alerts[i].routes| && alerts[i].routes[j].routeShortName in w;
      assert alerts[i].routes[j] in x.routes;
    } else {
      assert PruneRoutes([], Some(w)) == [];
    }
  }

  // ---------------------------------------------------------------------
  // Sorting

  /** A route's sort key: a missing or falsy sort order counts as +∞. */
  function RouteKey(r: GtfsRoute): ExtInt
  {
    if r.routeSortOrder.Some? then Fin(r.routeSortOrder.value) else PosInf
  }

  function RouteRank(r: GtfsRoute): Rank
  {
    [RouteKey(r)]
  }

  /** An alert's sort key: the least key of its routes, −∞ for a routeless alert. */
  function AlertKey(a: NestedAlert): (k: ExtInt)
    ensures a.routes == [] <==> k == NegInf
    ensures forall i :: 0 <= i < |a.routes| ==> ExtLe(k, RouteKey(a.routes[i]))
    ensures a.routes != [] ==> exists i :: 0 <= i < |a.routes| && k == RouteKey(a.routes[i])
  {
    if a.routes == [] then NegInf
    else
      var ks := seq(|a.routes|, i requires 0 <= i < |a.routes| => RouteKey(a.routes[i]));
      var m := MinOf(ks);
      assert forall i :: 0 <= i < |a.routes| ==> ks[i] == RouteKey(a.routes[i]);
      assert exists i :: 0 <= i < |ks| && ks[i] == m;
      m
  }

  function AlertRank(a: NestedAlert): Rank
  {
    [AlertKey(a)]
  }

  function SortRoutes(a: NestedAlert): NestedAlert
  {
    a.(routes := SortBy(a.routes, RouteRank))
  }

  function SortAllRoutes(alerts: seq<NestedAlert>): (r: seq<NestedAlert>)
    ensures |r| == |alerts| && forall i :: 0 <= i < |r| ==> r[i] == SortRoutes(alerts[i])
  {
    seq(|alerts|, i requires 0 <= i < |alerts| => SortRoutes(alerts[i]))
  }

  /** `sortGtfs`: each alert's routes by sort order, then the alerts by
      their least route sort order. */
  function SortGtfs(alerts: seq<NestedAlert>): (r: seq<NestedAlert>)
    ensures |r| == |alerts|
  {
    SortBy(SortAllRoutes(alerts), AlertRank)
  }

  /** The sorted alerts are the input alerts, each with its routes sorted:
      the same number, a permutation. */
  lemma SortGtfsPermutation(alerts: seq<NestedAlert>)
    ensures |SortGtfs(alerts)| == |alerts|
    ensures multiset(SortGtfs(alerts)) == multiset(SortAllRoutes(alerts))
  {
  }

  /** Each sorted alert is an input alert whose routes are reordered: a
      permutation of them, non-decreasing by sort order, ties in input order. */
  lemma SortGtfsRoutesOrdered(alerts: seq<NestedAlert>, x: NestedAlert)
    requires x in SortGtfs(alerts)
    ensures exists i :: (0 <= i < |alerts| && x == SortRoutes(alerts[i])
      && multiset(x.routes) == multiset(alerts[i].routes)
      && (forall k :: Select(x.routes, RouteRank, k) == Select(alerts[i].routes, RouteRank, k)))
    ensures forall p, q :: 0 <= p < q < |x.routes| ==> ExtLe(RouteKey(x.routes[p]), RouteKey(x.routes[q]))
  {
    var mapped := SortAllRoutes(alerts);
    assert x in multiset(mapped);
    var i :| 0 <= i < |mapped| && mapped[i] == x;
    forall k ensures Select(x.routes, RouteRank, k) == Select(alerts[i].routes, RouteRank, k) {
      SortByStable(alerts[i].routes, RouteRank, k);
    }
    forall p, q | 0 <= p < q < |x.routes| ensures ExtLe(RouteKey(x.routes[p]), RouteKey(x.routes[q])) {
      LexLeSingle(RouteKey(x.routes[p]), RouteKey(x.routes[q]));
    }
  }

  /** The alerts come out ascending by their least route sort order, and
      every routeless alert precedes every routed one. */
  lemma SortGtfsAlertsOrdered(alerts: seq<NestedAlert>)
    ensures var out := SortGtfs(alerts);
      forall i, j :: 0 <= i < j < |out| ==>
        ExtLe(AlertKey(out[i]), AlertKey(out[j])) && (out[i].routes != [] ==> out[j].routes != [])
  {
    var out := SortGtfs(alerts);
    forall i, j | 0 <= i < j < |out|
      ensures ExtLe(AlertKey(out[i]), AlertKey(out[j])) && (out[i].routes != [] ==> out[j].routes != [])
    {
      LexLeSingle(AlertKey(out[i]), AlertKey(out[j]));
    }
  }

  /** Alerts of equal sort key keep their input order. */
  lemma SortGtfsStable(alerts: seq<NestedAlert>, k: ExtInt)
    ensures Select(SortGtfs(alerts), AlertRank, [k]) == Select(SortAllRoutes(alerts), AlertRank, [k])
  {
    SortByStable(SortAllRoutes(alerts), AlertRank, [k]);
  }

  // ---------------------------------------------------------------------
  // Normalization

  /** `text.translation[0].text`, throwing where JavaScript does. */
  function FirstText(t: Option<TranslatedString>, absent: TypeErrorReason): (r: Completion<string>)
    ensures r.Normal? <==> t.Some? && |t.value.translation| > 0
    ensures r.Normal? ==> r.value == t.value.translation[0].text
    ensures r.Throw? ==> r.reason == (if t.None? then absent else TranslationEmpty)
  {
    if t.None? then Throw(absent)
    else if |t.value.translation| == 0 then Throw(TranslationEmpty)
    else Normal(t.value.translation[0].text)
  }

  function NormalizeRoute(r: GtfsRoute): RouteObject
  {
    RouteObject(r.routeId, r.routeShortName, r.routeColor, r.textColor)
  }

  /** A throw on reading an alert's texts: a missing header or description,
      or an empty translation list. */
  predicate TextReason(e: TypeErrorReason)
  {
    e == HeaderTextUndefined || e == DescriptionTextUndefined || e == TranslationEmpty
  }

  predicate Displayable(a: NestedAlert)
  {
    FirstText(a.headerText, HeaderTextUndefined).Normal?
    && FirstText(a.descriptionText, DescriptionTextUndefined).Normal?
  }

  function NormalizeAlert(a: NestedAlert): (r: Completion<GtfsMessage>)
    ensures r.Normal? <==> Displayable(a)
    ensures r.Throw? ==> TextReason(r.reason)
  {
    match FirstText(a.headerText, HeaderTextUndefined)
    case Throw(e) => Throw(e)
    case Normal(header) =>
      match FirstText(a.descriptionText, DescriptionTextUndefined)
      case Throw(e) => Throw(e)
      case Normal(description) =>
        Normal(GtfsMessage(a.id, header, description,
                           seq(|a.routes|, k requires 0 <= k < |a.routes| => NormalizeRoute(a.routes[k]))))
  }

  /** `normalizeGtfs`: one message per alert, in order; throws at the first
      alert without header or description text. */
  function NormalizeGtfs(alerts: seq<NestedAlert>): (r: Completion<seq<GtfsMessage>>)
    ensures r.Normal? <==> forall i :: 0 <= i < |alerts| ==> Displayable(alerts[i])
    ensures r.Normal? ==> |r.value| == |alerts|
    ensures r.Throw? ==> TextReason(r.reason)
  {
    if alerts == [] then Normal([])
    else
      assert forall i :: 0 <= i < |alerts| - 1 ==> alerts[1..][i] == alerts[i + 1];
      match NormalizeAlert(alerts[0])
      case Throw(e) => Throw(e)
      case Normal(m) =>
        match NormalizeGtfs(alerts[1..])
        case Throw(e) => Throw(e)
        case Normal(rest) => Normal([m] + rest)
  }

  /** Message `i` is alert `i`: the same id, the first translation of its
      header and description, and its routes in order as
      `{id, abbreviation, color, textColor}`. */
  lemma {:induction false} NormalizeGtfsFields(alerts: seq<NestedAlert>, i: nat)
    requires NormalizeGtfs(alerts).Normal? && i < |alerts|
    ensures var m := NormalizeGtfs(alerts).value[i];
      && m.id == alerts[i].id
      && m.header == alerts[i].headerText.value.translation[0].text
      && m.description == alerts[i].descriptionText.value.translation[0].text
      && |m.routes| == |alerts[i].routes|
      && forall k :: 0 <= k < |m.routes| ==>
           m.routes[k] == RouteObject(alerts[i].routes[k].routeId, alerts[i].routes[k].routeShortName,
                                      alerts[i].routes[k].routeColor, alerts[i].routes[k].textColor)
  {
    if i > 0 {
      NormalizeGtfsFields(alerts[1..], i - 1);
      assert alerts[1..][i - 1] == alerts[i];
    }
  }

  // ---------------------------------------------------------------------
  // The pipeline

  /** `publicMessagesFromGtfs`: a failed input makes the result failed, else
      a pending input makes it pending, else the four stages run. */
  function PublicMessagesFromGtfs(routes: Res<seq<GtfsRoute>>, alerts: Res<seq<FeedEntity>>,
                                  filter: Option<seq<string>>): (r: Completion<Res<seq<GtfsMessage>>>)
    ensures r.Throw? ==> routes.Ready? && alerts.Ready?
    ensures r.Normal? && r.value.Ready? ==> routes.Ready? && alerts.Ready? && |r.value.value| <= |alerts.value|
  {
    if routes.Failed? || alerts.Failed? then Normal(Failed)
    else if routes.Pending? || alerts.Pending? then Normal(Pending)
    else
      match Nest(routes.value, alerts.value)
      case Throw(e) => Throw(e)
      case Normal(nested) =>
        match NormalizeGtfs(SortGtfs(FilterGtfs(nested, filter)))
        case Throw(e) => Throw(e)
        case Normal(messages) => Normal(Ready(messages))
  }

  /** The routes the pipeline shows for a retained alert, after pruning and
      sorting: records from the snapshot, named by the alert's entities,
      inside the whitelist, and no route id twice. */
  lemma {:induction false} ShownRoutes(routes: seq<GtfsRoute>, a: FeedEntity, filter: Option<seq<string>>)
    requires a.alert.informedEntity.Some? && Retained(RouteIndex(routes), a.alert.informedEntity.value)
    ensures var x := SortRoutes(Pruned(NestAlert(RouteIndex(routes), a), filter));
      && DistinctBy(x.routes, RouteIdOf)
      && forall p :: 0 <= p < |x.routes| ==>
           x.routes[p] in routes && x.routes[p].routeId in RouteIds(a.alert.informedEntity.value)
           && InFilter(filter, x.routes[p])
  {
    var n := NestAlert(RouteIndex(routes), a);
    var ids := DistinctNonEmpty(RouteIds(a.alert.informedEntity.value));
    NestedRoutesResolved(routes, a);
    var pruned := PruneRoutes(n.routes, filter);
    SubsequenceKeepsDistinct(pruned, n.routes, RouteIdOf);
    SortByKeepsDistinct(pruned, RouteRank, RouteIdOf);
    var sorted := SortBy(pruned, RouteRank);
    forall p | 0 <= p < |sorted|
      ensures sorted[p] in routes && sorted[p].routeId in RouteIds(a.alert.informedEntity.value)
              && InFilter(filter, sorted[p])
    {
      SortedPrunedRoute(n.routes, filter, sorted[p]);
      var t :| 0 <= t < |n.routes| && n.routes[t] == sorted[p];
      assert n.routes[t].routeId == ids[t];
    }
  }

  /** A route left after pruning and sorting is an in-filter route of the
      list pruned. */
  lemma SortedPrunedRoute(rs: seq<GtfsRoute>, filter: Option<seq<string>>, r: GtfsRoute)
    requires r in SortBy(PruneRoutes(rs, filter), RouteRank)
    ensures r in rs && InFilter(filter, r)
  {
    assert r in multiset(PruneRoutes(rs, filter));
  }

  /** Message `m` is what the pipeline shows for input alert `a`: `a` is
      retained, `m` carries its id and first header and description
      translations, and `m`'s routes are normalized snapshot records named
      by `a`, inside the whitelist, with no id twice. */
  predicate ShownFor(routes: seq<GtfsRoute>, a: FeedEntity, filter: Option<seq<string>>, m: GtfsMessage)
  {
    && a.alert.informedEntity.Some?
    && Retained(RouteIndex(routes), a.alert.informedEntity.value)
    && m.id == a.id
    && a.alert.headerText.Some? && |a.alert.headerText.value.translation| > 0
    && m.header == a.alert.headerText.value.translation[0].text
    && a.alert.descriptionText.Some? && |a.alert.descriptionText.value.translation| > 0
    && m.description == a.alert.descriptionText.value.translation[0].text
    && (forall p, q :: 0 <= p < q < |m.routes| ==> m.routes[p].id != m.routes[q].id)
    && forall p :: 0 <= p < |m.routes| ==>
         exists r :: r in routes && m.routes[p] == NormalizeRoute(r)
                     && r.routeId in RouteIds(a.alert.informedEntity.value) && InFilter(filter, r)
  }

  /** Each alert leaving the sort stage is a retained input alert, nested,
      pruned to the whitelist and with its routes sorted. */
  lemma StagesSource(routes: seq<GtfsRoute>, alerts: seq<FeedEntity>, filter: Option<seq<string>>, x: NestedAlert)
    requires Nest(routes, alerts).Normal?
    requires x in SortGtfs(FilterGtfs(Nest(routes, alerts).value, filter))
    ensures exists i :: (0 <= i < |alerts| && alerts[i].alert.informedEntity.Some?
      && Retained(RouteIndex(routes), alerts[i].alert.informedEntity.value)
      && Passes(NestAlert(RouteIndex(routes), alerts[i]), filter)
      && x == SortRoutes(Pruned(NestAlert(RouteIndex(routes), alerts[i]), filter)))
  {
    var index := RouteIndex(routes);
    var nested := Nest(routes, alerts).value;
    var f := FilterGtfs(nested, filter);
    SortGtfsPermutation(f);
    assert x in multiset(SortAllRoutes(f));
    var j :| 0 <= j < |f| && SortAllRoutes(f)[j] == x;
    FilterMembership(nested, filter, f[j]);
    var j' :| 0 <= j' < |nested| && Passes(nested[j'], filter) && f[j] == Pruned(nested[j'], filter);
    NestAllSound(index, alerts, j');
    var i :| 0 <= i < |alerts| && HasEntities(alerts[i]) && Retained(index, alerts[i].alert.informedEntity.value)
             && nested[j'] == NestAlert(index, alerts[i]);
    assert x == SortRoutes(Pruned(NestAlert(index, alerts[i]), filter));
  }

  /** A successful run went through every stage: nesting succeeded and the
      messages are the normalized sorted, filtered alerts. */
  lemma PipelineStages(routes: seq<GtfsRoute>, alerts: seq<FeedEntity>, filter: Option<seq<string>>, ms: seq<GtfsMessage>)
    requires PublicMessagesFromGtfs(Ready(routes), Ready(alerts), filter) == Normal(Ready(ms))
    ensures Nest(routes, alerts).Normal?
    ensures NormalizeGtfs(SortGtfs(FilterGtfs(Nest(routes, alerts).value, filter))) == Normal(ms)
  {
  }

  /** On fetched inputs the pipeline throws what nesting throws. */
  lemma PipelineNestThrows(routes: seq<GtfsRoute>, alerts: seq<FeedEntity>, filter: Option<seq<string>>)
    requires Nest(routes, alerts).Throw?
    ensures PublicMessagesFromGtfs(Ready(routes), Ready(alerts), filter) == Throw(Nest(routes, alerts).reason)
  {
  }

  /** Once nesting succeeds, the pipeline throws what normalization throws
      and otherwise yields the normalized messages. */
  lemma PipelineOutcome(routes: seq<GtfsRoute>, alerts: seq<FeedEntity>, filter: Option<seq<string>>)
    requires Nest(routes, alerts).Normal?
    ensures var out := NormalizeGtfs(SortGtfs(FilterGtfs(Nest(routes, alerts).value, filter)));
      && (out.Throw? ==> PublicMessagesFromGtfs(Ready(routes), Ready(alerts), filter) == Throw(out.reason))
      && (out.Normal? ==> PublicMessagesFromGtfs(Ready(routes), Ready(alerts), filter) == Normal(Ready(out.value)))
  {
    var out := NormalizeGtfs(SortGtfs(FilterGtfs(Nest(routes, alerts).value, filter)));
    if out.Throw? {
      PipelineNormalizerThrows(routes, alerts, filter);
    } else {
      PipelineNormalizerValue(routes, alerts, filter);
    }
  }

  /** A normalizer throw after successful nesting is the pipeline's throw. */
  lemma PipelineNormalizerThrows(routes: seq<GtfsRoute>, alerts: seq<FeedEntity>, filter: Option<seq<string>>)
    requires Nest(routes, alerts).Normal?
    requires NormalizeGtfs(SortGtfs(FilterGtfs(Nest(routes, alerts).value, filter))).Throw?
    ensures PublicMessagesFromGtfs(Ready(routes), Ready(alerts), filter)
         == Throw(NormalizeGtfs(SortGtfs(FilterGtfs(Nest(routes, alerts).value, filter))).reason)
  {
  }

  /** Normalized messages after successful nesting are the pipeline's result. */
  lemma PipelineNormalizerValue(routes: seq<GtfsRoute>, alerts: seq<FeedEntity>, filter: Option<seq<string>>)
    requires Nest(routes, alerts).Normal?
    requires NormalizeGtfs(SortGtfs(FilterGtfs(Nest(routes, alerts).value, filter))).Normal?
    ensures PublicMessagesFromGtfs(Ready(routes), Ready(alerts), filter)
         == Normal(Ready(NormalizeGtfs(SortGtfs(FilterGtfs(Nest(routes, alerts).value, filter))).value))
  {
  }

  /** Input alert `a` carries a header and a description text, each with a
      first translation. */
  predicate AlertDisplayable(a: FeedEntity)
  {
    && a.alert.headerText.Some? && |a.alert.headerText.value.translation| > 0
    && a.alert.descriptionText.Some? && |a.alert.descriptionText.value.translation| > 0
  }

  /** Input alert `a` reaches the normalizer: it has entities, the snapshot
      explains it, and its nested form passes the whitelist. */
  predicate ReachesNormalizer(routes: seq<GtfsRoute>, a: FeedEntity, filter: Option<seq<string>>)
  {
    && HasEntities(a)
    && Retained(RouteIndex(routes), a.alert.informedEntity.value)
    && Passes(NestAlert(RouteIndex(routes), a), filter)
  }

  /** On fetched inputs the pipeline throws exactly when some alert has no
      `informedEntity`, or some alert that reaches the normalizer lacks a
      header or description text. The first cause wins and throws on
      `informedEntity`; otherwise the throw is on a missing text or an empty
      translation list. A run that does not throw yields fetched messages. */
  lemma PipelineThrows(routes: seq<GtfsRoute>, alerts: seq<FeedEntity>, filter: Option<seq<string>>)
    ensures var r := PublicMessagesFromGtfs(Ready(routes), Ready(alerts), filter);
      && (r.Throw? <==>
            (exists i :: 0 <= i < |alerts| && !HasEntities(alerts[i]))
            || (exists i :: 0 <= i < |alerts| && ReachesNormalizer(routes, alerts[i], filter) && !AlertDisplayable(alerts[i])))
      && ((exists i :: 0 <= i < |alerts| && !HasEntities(alerts[i])) ==> r == Throw(InformedEntityUndefined))
      && (r.Throw? && r.reason != InformedEntityUndefined ==>
            TextReason(r.reason))
      && (r.Normal? ==> r.value.Ready?)
  {
    if Nest(routes, alerts).Throw? {
      PipelineNestThrows(routes, alerts, filter);
    } else {
      PipelineOutcome(routes, alerts, filter);
      NormalizerThrows(routes, alerts, filter);
    }
  }

  /** Once nesting succeeds, normalization throws exactly when an alert
      that reaches it lacks a text. */
  lemma NormalizerThrows(routes: seq<GtfsRoute>, alerts: seq<FeedEntity>, filter: Option<seq<string>>)
    requires Nest(routes, alerts).Normal?
    ensures NormalizeGtfs(SortGtfs(FilterGtfs(Nest(routes, alerts).value, filter))).Throw? <==>
      exists i :: 0 <= i < |alerts| && ReachesNormalizer(routes, alerts[i], filter) && !AlertDisplayable(alerts[i])
  {
    var sorted := SortGtfs(FilterGtfs(Nest(routes, alerts).value, filter));
    if NormalizeGtfs(sorted).Throw? {
      var j :| 0 <= j < |sorted| && !Displayable(sorted[j]);
      UndisplayableHasCulprit(routes, alerts, filter, j);
    }
    if exists i :: 0 <= i < |alerts| && ReachesNormalizer(routes, alerts[i], filter) && !AlertDisplayable(alerts[i]) {
      var i :| 0 <= i < |alerts| && ReachesNormalizer(routes, alerts[i], filter) && !AlertDisplayable(alerts[i]);
      CulpritThrows(routes, alerts, filter, i);
    }
  }

  lemma UndisplayableHasCulprit(routes: seq<GtfsRoute>, alerts: seq<FeedEntity>, filter: Option<seq<string>>, j: nat)
    requires Nest(routes, alerts).Normal?
    requires j < |SortGtfs(FilterGtfs(Nest(routes, alerts).value, filter))|
    requires !Displayable(SortGtfs(FilterGtfs(Nest(routes, alerts).value, filter))[j])
    ensures exists i :: 0 <= i < |alerts| && ReachesNormalizer(routes, alerts[i], filter) && !AlertDisplayable(alerts[i])
  {
    var x := SortGtfs(FilterGtfs(Nest(routes, alerts).value, filter))[j];
    StagesSource(routes, alerts, filter, x);
    var i :| 0 <= i < |alerts| && alerts[i].alert.informedEntity.Some?
             && Retained(RouteIndex(routes), alerts[i].alert.informedEntity.value)
             && Passes(NestAlert(RouteIndex(routes), alerts[i]), filter)
             && x == SortRoutes(Pruned(NestAlert(RouteIndex(routes), alerts[i]), filter));
    assert x.headerText == alerts[i].alert.headerText && x.descriptionText == alerts[i].alert.descriptionText;
    assert ReachesNormalizer(routes, alerts[i], filter);
  }

  lemma CulpritThrows(routes: seq<GtfsRoute>, alerts: seq<FeedEntity>, filter: Option<seq<string>>, i: nat)
    requires Nest(routes, alerts).Normal? && i < |alerts|
    requires ReachesNormalizer(routes, alerts[i], filter) && !AlertDisplayable(alerts[i])
    ensures NormalizeGtfs(SortGtfs(FilterGtfs(Nest(routes, alerts).value, filter))).Throw?
  {
    var sorted := SortGtfs(FilterGtfs(Nest(routes, alerts).value, filter));
    ReachesSort(routes, alerts, filter, i);
    var x := SortRoutes(Pruned(NestAlert(RouteIndex(routes), alerts[i]), filter));
    var j :| 0 <= j < |sorted| && sorted[j] == x;
    assert !Displayable(sorted[j]);
  }

  /** An alert that reaches the normalizer leaves the sort stage nested,
      pruned and with its routes sorted. */
  lemma ReachesSort(routes: seq<GtfsRoute>, alerts: seq<FeedEntity>, filter: Option<seq<string>>, i: nat)
    requires Nest(routes, alerts).Normal? && i < |alerts|
    requires ReachesNormalizer(routes, alerts[i], filter)
    ensures SortRoutes(Pruned(NestAlert(RouteIndex(routes), alerts[i]), filter))
      in SortGtfs(FilterGtfs(Nest(routes, alerts).value, filter))
  {
    var index := RouteIndex(routes);
    var nested := Nest(routes, alerts).value;
    var n := NestAlert(index, alerts[i]);
    NestAllComplete(index, alerts, i);
    var q :| 0 <= q < |nested| && nested[q] == n;
    FilterMembership(nested, filter, Pruned(n, filter));
    var f := FilterGtfs(nested, filter);
    var t :| 0 <= t < |f| && f[t] == Pruned(n, filter);
    SortGtfsPermutation(f);
    assert SortAllRoutes(f)[t] in multiset(SortGtfs(f));
  }

  /** Every message the pipeline shows comes from a retained input alert,
      and shows only known, whitelisted routes of that alert, each once. */
  lemma PipelineMessageSource(routes: seq<GtfsRoute>, alerts: seq<FeedEntity>, filter: Option<seq<string>>,
                              ms: seq<GtfsMessage>, k: nat)
    requires PublicMessagesFromGtfs(Ready(routes), Ready(alerts), filter) == Normal(Ready(ms))
    requires k < |ms|
    ensures exists i :: 0 <= i < |alerts| && ShownFor(routes, alerts[i], filter, ms[k])
  {
    var index := RouteIndex(routes);
    PipelineStages(routes, alerts, filter, ms);
    var sorted := SortGtfs(FilterGtfs(Nest(routes, alerts).value, filter));
    NormalizeGtfsFields(sorted, k);
    assert Displayable(sorted[k]);
    StagesSource(routes, alerts, filter, sorted[k]);
    var i :| 0 <= i < |alerts| && alerts[i].alert.informedEntity.Some?
             && Retained(index, alerts[i].alert.informedEntity.value)
             && sorted[k] == SortRoutes(Pruned(NestAlert(index, alerts[i]), filter));
    NormalizedShownFor(routes, alerts[i], filter, sorted[k], ms[k]);
  }

  /** The normalized form of what the sort stage makes of a retained alert
      is shown for that alert. */
  lemma NormalizedShownFor(routes: seq<GtfsRoute>, a: FeedEntity, filter: Option<seq<string>>, x: NestedAlert, m: GtfsMessage)
    requires a.alert.informedEntity.Some? && Retained(RouteIndex(routes), a.alert.informedEntity.value)
    requires x == SortRoutes(Pruned(NestAlert(RouteIndex(routes), a), filter))
    requires Displayable(x)
    requires m.id == x.id && m.header == x.headerText.value.translation[0].text
             && m.description == x.descriptionText.value.translation[0].text
    requires |m.routes| == |x.routes| && forall p :: 0 <= p < |m.routes| ==> m.routes[p] == NormalizeRoute(x.routes[p])
    ensures ShownFor(routes, a, filter, m)
  {
    ShownRoutes(routes, a, filter);
    var es := a.alert.informedEntity.value;
    forall p | 0 <= p < |m.routes|
      ensures exists r :: r in routes && m.routes[p] == NormalizeRoute(r)
                          && r.routeId in RouteIds(es) && InFilter(filter, r)
    {
      assert x.routes[p] in routes;
    }
    forall p, q | 0 <= p < q < |m.routes| ensures m.routes[p].id != m.routes[q].id {
      assert m.routes[p].id == RouteIdOf(x.routes[p]) && m.routes[q].id == RouteIdOf(x.routes[q]);
    }
  }

  /** In particular every shown route is a normalized snapshot record. */
  lemma ShownRouteInSnapshot(routes: seq<GtfsRoute>, alerts: seq<FeedEntity>, filter: Option<seq<string>>,
                             ms: seq<GtfsMessage>, k: nat, p: nat)
    requires PublicMessagesFromGtfs(Ready(routes), Ready(alerts), filter) == Normal(Ready(ms))
    requires k < |ms| && p < |ms[k].routes|
    ensures exists r :: r in routes && ms[k].routes[p] == NormalizeRoute(r)
  {
    PipelineStages(routes, alerts, filter, ms);
    var sorted := SortGtfs(FilterGtfs(Nest(routes, alerts).value, filter));
    NormalizeGtfsFields(sorted, k);
    StagesSource(routes, alerts, filter, sorted[k]);
    var i :| 0 <= i < |alerts| && alerts[i].alert.informedEntity.Some?
             && Retained(RouteIndex(routes), alerts[i].alert.informedEntity.value)
             && sorted[k] == SortRoutes(Pruned(NestAlert(RouteIndex(routes), alerts[i]), filter));
    ShownRoutes(routes, alerts[i], filter);
    assert sorted[k].routes[p] in routes;
    assert ms[k].routes[p] == NormalizeRoute(sorted[k].routes[p]);
  }

  /** Normalization throws at a first alert without header. */
  lemma NormalizeHeaderless(alerts: seq<NestedAlert>)
    requires alerts != [] && alerts[0].headerText.None?
    ensures NormalizeGtfs(alerts) == Throw(HeaderTextUndefined)
  {
    assert NormalizeAlert(alerts[0]) == Throw(HeaderTextUndefined);
  }

  /** An alert the route snapshot cannot explain is not shown: no message
      carries its id, as long as no other alert shares that id. */
  lemma UnexplainedAlertHidden(routes: seq<GtfsRoute>, alerts: seq<FeedEntity>, filter: Option<seq<string>>,
                               ms: seq<GtfsMessage>, i: nat)
    requires PublicMessagesFromGtfs(Ready(routes), Ready(alerts), filter) == Normal(Ready(ms))
    requires i < |alerts| && alerts[i].alert.informedEntity.Some?
    requires !Retained(RouteIndex(routes), alerts[i].alert.informedEntity.value)
    requires forall j :: 0 <= j < |alerts| && j != i ==> alerts[j].id != alerts[i].id
    ensures forall k :: 0 <= k < |ms| ==> ms[k].id != alerts[i].id
  {
    forall k | 0 <= k < |ms| ensures ms[k].id != alerts[i].id {
      PipelineMessageSource(routes, alerts, filter, ms, k);
    }
  }

  /** An alert whose entities are all agency-wide (or that has none) is
      retained and nests to an alert without routes. */
  lemma AgencyWideNestsRouteless(routes: seq<GtfsRoute>, a: FeedEntity)
    requires a.alert.informedEntity.Some?
    requires forall e :: e in a.alert.informedEntity.value ==> AgencyWide(e)
    ensures Retained(RouteIndex(routes), a.alert.informedEntity.value)
    ensures NestAlert(RouteIndex(routes), a).routes == []
  {
    var es := a.alert.informedEntity.value;
    assert forall t :: 0 <= t < |es| ==> AgencyWide(es[t]);
    DistinctExceptAllBlank(RouteIds(es), "");
  }

  /** Such an alert reaches the sorted list under every whitelist, as an
      alert without routes. */
  lemma GeneralAlertSorted(routes: seq<GtfsRoute>, alerts: seq<FeedEntity>, filter: Option<seq<string>>, i: nat)
    requires Nest(routes, alerts).Normal?
    requires i < |alerts| && alerts[i].alert.informedEntity.Some?
    requires forall e :: e in alerts[i].alert.informedEntity.value ==> AgencyWide(e)
    ensures Retained(RouteIndex(routes), alerts[i].alert.informedEntity.value)
    ensures NestAlert(RouteIndex(routes), alerts[i]).routes == []
    ensures NestAlert(RouteIndex(routes), alerts[i]) in SortGtfs(FilterGtfs(Nest(routes, alerts).value, filter))
  {
    var index := RouteIndex(routes);
    var nested := Nest(routes, alerts).value;
    var f := FilterGtfs(nested, filter);
    AgencyWideNestsRouteless(routes, alerts[i]);
    NestAllKeepsRetained(index, alerts);
    var n := NestAlert(index, alerts[i]);
    var q :| 0 <= q < |nested| && nested[q] == n;
    RoutelessPasses(nested, filter, q);
    var qf :| 0 <= qf < |f| && f[qf] == n;
    assert SortAllRoutes(f)[qf] == n;
    assert n in multiset(SortGtfs(f));
  }

  /** Such an alert is shown under every whitelist, as a general message. */
  lemma GeneralAlertShown(routes: seq<GtfsRoute>, alerts: seq<FeedEntity>, filter: Option<seq<string>>,
                          ms: seq<GtfsMessage>, i: nat)
    requires PublicMessagesFromGtfs(Ready(routes), Ready(alerts), filter) == Normal(Ready(ms))
    requires i < |alerts| && alerts[i].alert.informedEntity.Some?
    requires forall e :: e in alerts[i].alert.informedEntity.value ==> AgencyWide(e)
    ensures exists k :: 0 <= k < |ms| && ms[k].id == alerts[i].id && ms[k].routes == []
  {
    var sorted := SortGtfs(FilterGtfs(Nest(routes, alerts).value, filter));
    assert NormalizeGtfs(sorted) == Normal(ms);
    GeneralAlertSorted(routes, alerts, filter, i);
    var n := NestAlert(RouteIndex(routes), alerts[i]);
    var qs :| 0 <= qs < |sorted| && sorted[qs] == n;
    NormalizeGtfsFields(sorted, qs);
  }

  /** Failure takes precedence over pending, and neither looks at the data. */
  lemma SentinelPropagation(routes: Res<seq<GtfsRoute>>, alerts: Res<seq<FeedEntity>>, filter: Option<seq<string>>)
    ensures PublicMessagesFromGtfs(routes, alerts, filter) == Normal(Failed) <==> routes.Failed? || alerts.Failed?
    ensures PublicMessagesFromGtfs(routes, alerts, filter) == Normal(Pending) <==>
      !routes.Failed? && !alerts.Failed? && (routes.Pending? || alerts.Pending?)
  {
  }
}
