/** The older InfoPoint message pipeline: join the current messages to the
    route list, apply the abbreviation whitelist, sort by priority and then
    by least route sort order, and normalize, behind a check that the
    fetched value is a list. Two defects of the filter and the sort are
    modelled as written next to the corrected stages the pipeline uses. */
module UsePublicMessages {
  import opened Common
  import opened StableSort
  import opened InfoPoint

  // ---------------------------------------------------------------------
  // Records

  /** A message after the join: each route id replaced by its route record,
      or by `None` (`undefined`) where no route carries that id. */
  datatype JoinedMessage = JoinedMessage(
    messageId: string,
    message: string,
    priority: Option<int>,
    routes: seq<Option<InfoPointRoute>>)

  /** A message whose route entries are all records. */
  datatype RoutedMessage = RoutedMessage(
    messageId: string,
    message: string,
    priority: Option<int>,
    routes: seq<InfoPointRoute>)

  /** A display message. */
  datatype PublicMessage = PublicMessage(id: string, message: string, priority: Option<int>, routes: seq<RouteObject>)

  // ---------------------------------------------------------------------
  // The join

  function Lookup(index: map<string, InfoPointRoute>, id: string): Option<InfoPointRoute>
  {
    if id in index then Some(index[id]) else None
  }

  /** One message with its `Routes` replaced by lookups, `[]` when absent. */
  function JoinMessage(index: map<string, InfoPointRoute>, m: InfoPointMessage): JoinedMessage
  {
    var ids := if m.routes.Some? then m.routes.value else [];
    JoinedMessage(m.messageId, m.message, m.priority,
                  seq(|ids|, k requires 0 <= k < |ids| => Lookup(index, ids[k])))
  }

  /** `j` is message `m` joined against the route list: id, text and
      priority kept; an absent `Routes` becomes `[]`; every route id keeps
      its position, holding a record with that id taken from the route
      list, or `undefined` exactly when no route carries the id. */
  predicate JoinedFrom(routesJson: seq<InfoPointRoute>, m: InfoPointMessage, j: JoinedMessage)
  {
    && j.messageId == m.messageId && j.message == m.message && j.priority == m.priority
    && (m.routes.None? ==> j.routes == [])
    && (m.routes.Some? ==> |j.routes| == |m.routes.value|)
    && (m.routes.Some? ==> forall k :: 0 <= k < |j.routes| ==>
          && (j.routes[k].None? <==> forall r :: r in routesJson ==> r.routeId != m.routes.value[k])
          && (j.routes[k].Some? ==> j.routes[k].value in routesJson && j.routes[k].value.routeId == m.routes.value[k]))
  }

  /** A lookup in the route object finds a record with the id, taken from
      the route list, or `undefined` exactly when no route has the id. */
  lemma LookupMeaning(routesJson: seq<InfoPointRoute>, id: string)
    ensures var e := Lookup(IndexBy(routesJson, InfoPointRouteId), id);
      && (e.None? <==> forall r :: r in routesJson ==> r.routeId != id)
      && (e.Some? ==> e.value in routesJson && e.value.routeId == id)
  {
    var index := IndexBy(routesJson, InfoPointRouteId);
    if id !in index {
      forall r | r in routesJson ensures r.routeId != id {
        var q :| 0 <= q < |routesJson| && routesJson[q] == r;
        assert InfoPointRouteId(routesJson[q]) in index;
      }
    } else {
      assert InfoPointRouteId(index[id]) == id;
    }
  }

  lemma JoinMessageMeaning(routesJson: seq<InfoPointRoute>, m: InfoPointMessage)
    ensures JoinedFrom(routesJson, m, JoinMessage(IndexBy(routesJson, InfoPointRouteId), m))
  {
    var index := IndexBy(routesJson, InfoPointRouteId);
    var j := JoinMessage(index, m);
    if m.routes.Some? {
      forall k | 0 <= k < |j.routes|
        ensures && (j.routes[k].None? <==> forall r :: r in routesJson ==> r.routeId != m.routes.value[k])
                && (j.routes[k].Some? ==> j.routes[k].value in routesJson && j.routes[k].value.routeId == m.routes.value[k])
      {
        LookupMeaning(routesJson, m.routes.value[k]);
      }
    }
  }

  lemma JoinAllMeaning(routesJson: seq<InfoPointRoute>, messagesJson: seq<InfoPointMessage>)
    ensures forall i :: 0 <= i < |messagesJson| ==>
      JoinedFrom(routesJson, messagesJson[i], JoinMessage(IndexBy(routesJson, InfoPointRouteId), messagesJson[i]))
  {
    forall i | 0 <= i < |messagesJson|
      ensures JoinedFrom(routesJson, messagesJson[i], JoinMessage(IndexBy(routesJson, InfoPointRouteId), messagesJson[i]))
    {
      JoinMessageMeaning(routesJson, messagesJson[i]);
    }
  }

  /** The value `fetchPublicMessages` resolves to, given the two decoded
      responses: every message, in order, joined against the route list. */
  function Join(routesJson: seq<InfoPointRoute>, messagesJson: seq<InfoPointMessage>): (r: seq<JoinedMessage>)
    ensures |r| == |messagesJson|
    ensures forall i :: 0 <= i < |r| ==> JoinedFrom(routesJson, messagesJson[i], r[i])
  {
    var index := IndexBy(routesJson, InfoPointRouteId);
    JoinAllMeaning(routesJson, messagesJson);
    seq(|messagesJson|, i requires 0 <= i < |messagesJson| => JoinMessage(index, messagesJson[i]))
  }

  /** The join as the source performs it: the route object filled one
      assignment per route, then one mapped message per message. */
  method FetchJoin(routesJson: seq<InfoPointRoute>, messagesJson: seq<InfoPointMessage>)
    returns (joined: seq<JoinedMessage>)
    ensures joined == Join(routesJson, messagesJson)
  {
    var routesById := BuildIndex(routesJson, InfoPointRouteId);
    joined := [];
    for i := 0 to |messagesJson|
      invariant joined == Join(routesJson, messagesJson[..i])
    {
      assert messagesJson[..i + 1] == messagesJson[..i] + [messagesJson[i]];
      joined := joined + [JoinMessage(routesById, messagesJson[i])];
    }
    assert messagesJson[..|messagesJson|] == messagesJson;
  }

  /** Where several routes share an id, a lookup finds the last of them. */
  lemma JoinLastRouteWins(routesJson: seq<InfoPointRoute>, messagesJson: seq<InfoPointMessage>, i: nat, k: nat, q: nat)
    requires i < |messagesJson| && messagesJson[i].routes.Some? && k < |messagesJson[i].routes.value|
    requires q < |routesJson| && routesJson[q].routeId == messagesJson[i].routes.value[k]
    requires forall t :: q < t < |routesJson| ==> routesJson[t].routeId != routesJson[q].routeId
    ensures Join(routesJson, messagesJson)[i].routes[k] == Some(routesJson[q])
  {
    var index := IndexBy(routesJson, InfoPointRouteId);
    IndexByLastWins(routesJson, InfoPointRouteId, q);
    var j := Join(routesJson, messagesJson)[i];
    assert j == JoinMessage(index, messagesJson[i]);
    assert j.routes[k] == Lookup(index, messagesJson[i].routes.value[k]);
  }

  // ---------------------------------------------------------------------
  // Filtering

  /** The message has an entry whose id matched no route. */
  predicate Unresolved(m: JoinedMessage)
  {
    exists k :: 0 <= k < |m.routes| && m.routes[k].None?
  }

  function ResolveMessage(m: JoinedMessage): (r: RoutedMessage)
    requires !Unresolved(m)
    ensures r.messageId == m.messageId && r.message == m.message && r.priority == m.priority
    ensures |r.routes| == |m.routes| && forall k :: 0 <= k < |r.routes| ==> m.routes[k] == Some(r.routes[k])
  {
    RoutedMessage(m.messageId, m.message, m.priority,
                  seq(|m.routes|, k requires 0 <= k < |m.routes| => m.routes[k].value))
  }

  /** The route-property reads the later stages make: the first one on an
      `undefined` entry throws. */
  function ResolveAll(ms: seq<JoinedMessage>): (r: Completion<seq<RoutedMessage>>)
    ensures r.Throw? <==> exists i :: 0 <= i < |ms| && Unresolved(ms[i])
    ensures r.Throw? ==> r.reason == RouteUndefined
    ensures r.Normal? ==> |r.value| == |ms| && forall i :: 0 <= i < |ms| ==> r.value[i] == ResolveMessage(ms[i])
  {
    if ms == [] then Normal([])
    else
      assert forall i :: 0 <= i < |ms| - 1 ==> ms[1..][i] == ms[i + 1];
      if Unresolved(ms[0]) then Throw(RouteUndefined)
      else
        match ResolveAll(ms[1..])
        case Throw(e) => Throw(e)
        case Normal(rest) => Normal([ResolveMessage(ms[0])] + rest)
  }

  /** Whether a message survives the list filter: it is general, or some
      route's abbreviation is listed. */
  predicate Kept(m: RoutedMessage, w: seq<string>)
  {
    |m.routes| == 0 || exists k :: 0 <= k < |m.routes| && m.routes[k].routeAbbreviation in w
  }

  /** The routes whose abbreviation is listed, in their order. */
  function PruneToList(routes: seq<InfoPointRoute>, w: seq<string>): (r: seq<InfoPointRoute>)
    ensures forall i :: 0 <= i < |r| ==> r[i] in routes && r[i].routeAbbreviation in w
    ensures forall i :: 0 <= i < |routes| && routes[i].routeAbbreviation in w ==> routes[i] in r
    ensures Subsequence(r, routes)
    ensures KeptCounts(r, routes, (x: InfoPointRoute) => x.routeAbbreviation in w)
  {
    if routes == [] then []
    else
      var rest := PruneToList(routes[1..], w);
      PruneToListStep(routes, rest, w);
      if routes[0].routeAbbreviation in w then [routes[0]] + rest else rest
  }

  /** Listing the first route in front of the pruned rest, when it is
      listed, keeps the four properties of `PruneToList`. */
  lemma PruneToListStep(routes: seq<InfoPointRoute>, rest: seq<InfoPointRoute>, w: seq<string>)
    requires routes != []
    requires forall i :: 0 <= i < |rest| ==> rest[i] in routes[1..] && rest[i].routeAbbreviation in w
    requires forall i :: 0 <= i < |routes| - 1 && routes[1..][i].routeAbbreviation in w ==> routes[1..][i] in rest
    requires Subsequence(rest, routes[1..])
    requires KeptCounts(rest, routes[1..], (x: InfoPointRoute) => x.routeAbbreviation in w)
    ensures var r := if routes[0].routeAbbreviation in w then [routes[0]] + rest else rest;
      && (forall i :: 0 <= i < |r| ==> r[i] in routes && r[i].routeAbbreviation in w)
      && (forall i :: 0 <= i < |routes| && routes[i].routeAbbreviation in w ==> routes[i] in r)
      && Subsequence(r, routes)
      && KeptCounts(r, routes, (x: InfoPointRoute) => x.routeAbbreviation in w)
  {
    assert [routes[0]] + routes[1..] == routes;
    KeepCons(routes[0], routes[1..], rest, (x: InfoPointRoute) => x.routeAbbreviation in w);
  }

  function PrunedToList(m: RoutedMessage, w: seq<string>): RoutedMessage
  {
    m.(routes := PruneToList(m.routes, w))
  }

  /** The list filter on resolved messages: keep, then prune. */
  function FilterByList(ms: seq<RoutedMessage>, w: seq<string>): (r: seq<RoutedMessage>)
    ensures |r| <= |ms|
  {
    if ms == [] then []
    else (if Kept(ms[0], w) then [PrunedToList(ms[0], w)] else []) + FilterByList(ms[1..], w)
  }

  /** A lone message stays, pruned, exactly when it is kept. */
  lemma FilterByListSingle(m: RoutedMessage, w: seq<string>)
    ensures FilterByList([m], w) == if Kept(m, w) then [PrunedToList(m, w)] else []
  {
    assert [m][1..] == [];
  }

  /** The list filter goes message by message: a concatenation filters to
      the parts' results in order. */
  lemma {:induction false} FilterByListAppend(xs: seq<RoutedMessage>, ys: seq<RoutedMessage>, w: seq<string>)
    ensures FilterByList(xs + ys, w) == FilterByList(xs, w) + FilterByList(ys, w)
  {
    if xs == [] {
      assert xs + ys == ys;
    } else {
      var head := if Kept(xs[0], w) then [PrunedToList(xs[0], w)] else [];
      assert (xs + ys)[0] == xs[0];
      assert (xs + ys)[1..] == xs[1..] + ys;
      FilterByListAppend(xs[1..], ys, w);
      ConcatAssoc(head, FilterByList(xs[1..], w), FilterByList(ys, w));
    }
  }

  /** Exactly the kept messages survive, each pruned to the list. */
  lemma {:induction false} FilterByListMembership(ms: seq<RoutedMessage>, w: seq<string>, x: RoutedMessage)
    ensures x in FilterByList(ms, w) <==> exists i :: 0 <= i < |ms| && Kept(ms[i], w) && x == PrunedToList(ms[i], w)
  {
    if ms != [] {
      FilterByListMembership(ms[1..], w, x);
      assert forall i :: 0 <= i < |ms| - 1 ==> ms[1..][i] == ms[i + 1];
      if x in FilterByList(ms, w) && x !in FilterByList(ms[1..], w) {
        assert x == PrunedToList(ms[0], w);
      }
    }
  }

  /** A general message survives every list unchanged; a routed survivor
      keeps at least one route, and only listed ones. */
  lemma FilterByListShape(ms: seq<RoutedMessage>, w: seq<string>, x: RoutedMessage)
    ensures forall i :: 0 <= i < |ms| && ms[i].routes == [] ==> ms[i] in FilterByList(ms, w)
    ensures x in FilterByList(ms, w) ==>
      (forall k :: 0 <= k < |x.routes| ==> x.routes[k].routeAbbreviation in w)
      && (x.routes == [] ==> x in ms)
  {
    forall i | 0 <= i < |ms| && ms[i].routes == [] ensures ms[i] in FilterByList(ms, w) {
      assert PruneToList([], w) == [];
      assert PrunedToList(ms[i], w) == ms[i];
      FilterByListMembership(ms, w, ms[i]);
    }
    if x in FilterByList(ms, w) {
      FilterByListMembership(ms, w, x);
      var i :| 0 <= i < |ms| && Kept(ms[i], w) && x == PrunedToList(ms[i], w);
      if ms[i].routes != [] {
        var k :| 0 <= k < |ms[i].routes| && ms[i].routes[k].routeAbbreviation in w;
        assert ms[i].routes[k] in x.routes;
      } else {
        assert PruneToList([], w) == [];
      }
    }
  }

  /** `filterPublicMessages` as written. With a list it throws on an
      unresolved entry and otherwise keeps and prunes; with `null` it keeps
      every message but then calls `includes` on `null` for each message
      that has routes, which throws. */
  function FilterPublicMessagesAsWritten(ms: seq<JoinedMessage>, filter: Option<seq<string>>): (r: Completion<seq<RoutedMessage>>)
    ensures r.Throw? ==> r.reason == FilterNull || r.reason == RouteUndefined
    ensures r.Normal? ==> |r.value| <= |ms|
  {
    if filter.None? && exists i :: 0 <= i < |ms| && |ms[i].routes| > 0 then Throw(FilterNull)
    else
      match ResolveAll(ms)
      case Throw(e) => Throw(e)
      case Normal(rs) => Normal(if filter.None? then rs else FilterByList(rs, filter.value))
  }

  /** The filter as documented: `null` filters nothing. The pipeline uses
      this one. */
  function FilterPublicMessages(ms: seq<JoinedMessage>, filter: Option<seq<string>>): (r: Completion<seq<RoutedMessage>>)
    ensures r.Throw? ==> r.reason == RouteUndefined
    ensures r.Normal? ==> |r.value| <= |ms|
    ensures r.Normal? && filter.None? ==> |r.value| == |ms|
  {
    match ResolveAll(ms)
    case Throw(e) => Throw(e)
    case Normal(rs) => Normal(if filter.None? then rs else FilterByList(rs, filter.value))
  }

  /** The defect: without a list, the written filter fails exactly when
      some message has routes, where the documented one keeps every
      message and every route. The two agree whenever a list is given. */
  lemma FilterNullDefect(ms: seq<JoinedMessage>, w: seq<string>)
    ensures FilterPublicMessagesAsWritten(ms, None) == Throw(FilterNull) <==> exists i :: 0 <= i < |ms| && |ms[i].routes| > 0
    ensures (forall i :: 0 <= i < |ms| ==> !Unresolved(ms[i])) ==>
      FilterPublicMessages(ms, None).Normal? && |FilterPublicMessages(ms, None).value| == |ms|
      && forall i :: 0 <= i < |ms| ==> |FilterPublicMessages(ms, None).value[i].routes| == |ms[i].routes|
    ensures FilterPublicMessagesAsWritten(ms, Some(w)) == FilterPublicMessages(ms, Some(w))
  {
  }

  /** One routed message and no list: the written filter throws, the
      documented one passes the message through. */
  lemma FilterNullCounterexample()
    ensures var route := InfoPointRoute("20", "B43", Some("0000FF"), None, Some(1));
      var m := JoinedMessage("7", "Detour", Some(1), [Some(route)]);
      && FilterPublicMessagesAsWritten([m], None) == Throw(FilterNull)
      && FilterPublicMessages([m], None) == Normal([RoutedMessage("7", "Detour", Some(1), [route])])
  {
    var route := InfoPointRoute("20", "B43", Some("0000FF"), None, Some(1));
    var m := JoinedMessage("7", "Detour", Some(1), [Some(route)]);
    assert |[m][0].routes| > 0;
    assert !Unresolved(m);
    assert ResolveMessage(m) == RoutedMessage("7", "Detour", Some(1), [route]);
    assert forall i :: 0 <= i < 1 ==> !Unresolved([m][i]);
    assert ResolveAll([m]).Normal?;
    assert ResolveAll([m]).value == [ResolveMessage(m)];
  }

  // ---------------------------------------------------------------------
  // Sorting

  /** `ensureComparable`: a number is itself, anything else +∞. */
  function Comparable(v: Option<int>): (k: ExtInt)
    ensures k != NegInf
    ensures v.Some? ==> k == Fin(v.value)
    ensures v.None? ==> k == PosInf
  {
    if v.Some? then Fin(v.value) else PosInf
  }

  function SortOrderKey(r: InfoPointRoute): ExtInt
  {
    Comparable(r.sortOrder)
  }

  function RouteRank(r: InfoPointRoute): Rank
  {
    [SortOrderKey(r)]
  }

  function RouteKeys(routes: seq<InfoPointRoute>): (ks: seq<ExtInt>)
    ensures |ks| == |routes| && forall i :: 0 <= i < |routes| ==> ks[i] == SortOrderKey(routes[i])
  {
    seq(|routes|, i requires 0 <= i < |routes| => SortOrderKey(routes[i]))
  }

  /** `minimumComparable` as intended: the least key, +∞ for no keys. */
  function MinComparable(keys: seq<ExtInt>): (k: ExtInt)
    ensures keys == [] ==> k == PosInf
    ensures keys != [] ==> k in keys
    ensures forall i :: 0 <= i < |keys| ==> ExtLe(k, keys[i])
  {
    if keys == [] then PosInf else MinOf(keys)
  }

  /** `minimumComparable` as written: `Math.min` given the array itself
      converts it to a number, which succeeds only for a one-element array;
      `None` stands for the resulting NaN. */
  function MinComparableAsWritten(keys: seq<ExtInt>): (r: Option<ExtInt>)
    ensures r.Some? ==> forall i :: 0 <= i < |keys| ==> ExtLe(r.value, keys[i])
  {
    if |keys| == 0 then Some(PosInf)
    else if |keys| == 1 then Some(keys[0])
    else None
  }

  /** The written minimum is the intended one exactly for messages with at
      most one route. */
  lemma MinComparableDefect(keys: seq<ExtInt>)
    ensures MinComparableAsWritten(keys) == Some(MinComparable(keys)) <==> |keys| <= 1
  {
    if |keys| == 1 {
      assert MinComparable(keys) == keys[0];
    }
  }

  /** Two routes with sort orders 5 and 1: the intended key is 1, the
      written key is not a number. */
  lemma MinComparableCounterexample()
    ensures MinComparableAsWritten([Fin(5), Fin(1)]).None?
    ensures MinComparable([Fin(5), Fin(1)]) == Fin(1)
  {
    assert ExtLe(MinComparable([Fin(5), Fin(1)]), [Fin(5), Fin(1)][1]);
  }

  function PriorityKey(m: RoutedMessage): ExtInt
  {
    Comparable(m.priority)
  }

  function RouteSortKey(m: RoutedMessage): ExtInt
  {
    MinComparable(RouteKeys(m.routes))
  }

  /** The message comparator's keys: priority, then least route sort order. */
  function MessageRank(m: RoutedMessage): Rank
  {
    [PriorityKey(m), RouteSortKey(m)]
  }

  function SortMessageRoutes(m: RoutedMessage): RoutedMessage
  {
    m.(routes := SortBy(m.routes, RouteRank))
  }

  function SortAllMessageRoutes(ms: seq<RoutedMessage>): (r: seq<RoutedMessage>)
    ensures |r| == |ms| && forall i :: 0 <= i < |r| ==> r[i] == SortMessageRoutes(ms[i])
  {
    seq(|ms|, i requires 0 <= i < |ms| => SortMessageRoutes(ms[i]))
  }

  /** `sortPublicMessages` with the intended minimum. */
  function SortPublicMessages(ms: seq<RoutedMessage>): (r: seq<RoutedMessage>)
    ensures |r| == |ms|
  {
    SortBy(SortAllMessageRoutes(ms), MessageRank)
  }

  /** The sorted messages are the input messages, each with its routes
      sorted: the same number, a permutation. */
  lemma SortPublicMessagesPermutation(ms: seq<RoutedMessage>)
    ensures |SortPublicMessages(ms)| == |ms|
    ensures multiset(SortPublicMessages(ms)) == multiset(SortAllMessageRoutes(ms))
  {
  }

  /** Each sorted message is an input message whose routes are a
      permutation of its own, ascending by sort order (a non-number as +∞),
      ties in input order. */
  lemma SortPublicMessagesRoutesOrdered(ms: seq<RoutedMessage>, x: RoutedMessage)
    requires x in SortPublicMessages(ms)
    ensures exists i :: (0 <= i < |ms| && x == SortMessageRoutes(ms[i])
      && multiset(x.routes) == multiset(ms[i].routes)
      && (forall k :: Select(x.routes, RouteRank, k) == Select(ms[i].routes, RouteRank, k)))
    ensures forall p, q :: 0 <= p < q < |x.routes| ==> ExtLe(SortOrderKey(x.routes[p]), SortOrderKey(x.routes[q]))
  {
    var mapped := SortAllMessageRoutes(ms);
    assert x in multiset(mapped);
    var i :| 0 <= i < |mapped| && mapped[i] == x;
    forall k ensures Select(x.routes, RouteRank, k) == Select(ms[i].routes, RouteRank, k) {
      SortByStable(ms[i].routes, RouteRank, k);
    }
    forall p, q | 0 <= p < q < |x.routes| ensures ExtLe(SortOrderKey(x.routes[p]), SortOrderKey(x.routes[q])) {
      LexLeSingle(SortOrderKey(x.routes[p]), SortOrderKey(x.routes[q]));
    }
  }

  /** Messages come out by priority, a non-number priority after every
      number; at equal priority by least route sort order, so a general
      message follows every message with a numbered route. */
  lemma SortPublicMessagesOrdered(ms: seq<RoutedMessage>)
    ensures var out := SortPublicMessages(ms);
      forall i, j :: 0 <= i < j < |out| ==>
        && ExtLe(PriorityKey(out[i]), PriorityKey(out[j]))
        && (out[i].priority.None? ==> out[j].priority.None?)
        && (PriorityKey(out[i]) == PriorityKey(out[j]) ==> ExtLe(RouteSortKey(out[i]), RouteSortKey(out[j])))
        && (PriorityKey(out[i]) == PriorityKey(out[j]) && out[i].routes == [] ==>
              forall k :: 0 <= k < |out[j].routes| ==> out[j].routes[k].sortOrder.None?)
  {
    var out := SortPublicMessages(ms);
    forall i, j | 0 <= i < j < |out|
      ensures && ExtLe(PriorityKey(out[i]), PriorityKey(out[j]))
              && (out[i].priority.None? ==> out[j].priority.None?)
              && (PriorityKey(out[i]) == PriorityKey(out[j]) ==> ExtLe(RouteSortKey(out[i]), RouteSortKey(out[j])))
              && (PriorityKey(out[i]) == PriorityKey(out[j]) && out[i].routes == [] ==>
                    forall k :: 0 <= k < |out[j].routes| ==> out[j].routes[k].sortOrder.None?)
    {
      LexLePair(PriorityKey(out[i]), RouteSortKey(out[i]), PriorityKey(out[j]), RouteSortKey(out[j]));
      if PriorityKey(out[i]) == PriorityKey(out[j]) && out[i].routes == [] {
        forall k | 0 <= k < |out[j].routes| ensures out[j].routes[k].sortOrder.None? {
          assert ExtLe(RouteSortKey(out[j]), RouteKeys(out[j].routes)[k]);
        }
      }
    }
  }

  /** Messages of equal rank keep their input order. */
  lemma SortPublicMessagesStable(ms: seq<RoutedMessage>, k: Rank)
    ensures Select(SortPublicMessages(ms), MessageRank, k) == Select(SortAllMessageRoutes(ms), MessageRank, k)
  {
    SortByStable(SortAllMessageRoutes(ms), MessageRank, k);
  }

  // ---------------------------------------------------------------------
  // Normalization

  function NormalizeRoute(r: InfoPointRoute): RouteObject
  {
    RouteObject(r.routeId, r.routeAbbreviation, OrNull(r.color), OrNull(r.textColor))
  }

  function NormalizeMessage(m: RoutedMessage): PublicMessage
  {
    PublicMessage(m.messageId, m.message, m.priority,
                  seq(|m.routes|, k requires 0 <= k < |m.routes| => NormalizeRoute(m.routes[k])))
  }

  /** `normalizePublicMessages`. */
  function NormalizePublicMessages(ms: seq<RoutedMessage>): (r: seq<PublicMessage>)
    ensures |r| == |ms|
  {
    seq(|ms|, i requires 0 <= i < |ms| => NormalizeMessage(ms[i]))
  }

  /** Message `i` is input message `i` with its id, text and priority; its
      routes are the input routes in order, a falsy colour becoming `null`
      and a present one kept. */
  lemma NormalizeFields(ms: seq<RoutedMessage>, i: nat)
    requires i < |ms|
    ensures var m := NormalizePublicMessages(ms)[i];
      && m.id == ms[i].messageId && m.message == ms[i].message && m.priority == ms[i].priority
      && |m.routes| == |ms[i].routes|
      && forall k :: 0 <= k < |m.routes| ==>
           var r := ms[i].routes[k];
           && m.routes[k].id == r.routeId && m.routes[k].abbreviation == r.routeAbbreviation
           && (m.routes[k].color.Some? <==> Truthy(r.color)) && (m.routes[k].color.Some? ==> m.routes[k].color == r.color)
           && (m.routes[k].textColor.Some? <==> Truthy(r.textColor))
           && (m.routes[k].textColor.Some? ==> m.routes[k].textColor == r.textColor)
  {
  }

  // ---------------------------------------------------------------------
  // The dispatch

  /** The value the hook returns: a pending or failed fetch as it is, a
      fetched list through filter, sort and normalize. */
  function PublicMessages(state: Res<seq<JoinedMessage>>, filter: Option<seq<string>>): (r: Completion<Res<seq<PublicMessage>>>)
    ensures r.Throw? ==> state.Ready?
    ensures r.Normal? && r.value.Ready? ==> state.Ready? && |r.value.value| <= |state.value|
  {
    match state
    case Pending => Normal(Pending)
    case Failed => Normal(Failed)
    case Ready(ms) =>
      match FilterPublicMessages(ms, filter)
      case Throw(e) => Throw(e)
      case Normal(rs) => Normal(Ready(NormalizePublicMessages(SortPublicMessages(rs))))
  }

  /** Pending and failed pass through; a fetched list throws exactly when a
      message names a route id the route list does not have. */
  lemma PublicMessagesOutcome(state: Res<seq<JoinedMessage>>, filter: Option<seq<string>>)
    ensures state.Pending? ==> PublicMessages(state, filter) == Normal(Pending)
    ensures state.Failed? ==> PublicMessages(state, filter) == Normal(Failed)
    ensures state.Ready? ==>
      (PublicMessages(state, filter).Throw? <==> exists i :: 0 <= i < |state.value| && Unresolved(state.value[i]))
    ensures PublicMessages(state, filter).Throw? ==> PublicMessages(state, filter).reason == RouteUndefined
  {
  }

  /** A fetched list that is shown went through every stage: the filter
      succeeded and the messages are its survivors, sorted and normalized. */
  lemma PublicMessagesStages(ms: seq<JoinedMessage>, filter: Option<seq<string>>, out: seq<PublicMessage>)
    requires PublicMessages(Ready(ms), filter) == Normal(Ready(out))
    ensures FilterPublicMessages(ms, filter).Normal?
    ensures out == NormalizePublicMessages(SortPublicMessages(FilterPublicMessages(ms, filter).value))
  {
  }

  /** Without a list every fetched message is shown, with all its routes. */
  lemma PublicMessagesNullFilter(ms: seq<JoinedMessage>, out: seq<PublicMessage>, i: nat)
    requires PublicMessages(Ready(ms), None) == Normal(Ready(out))
    requires i < |ms|
    ensures |out| == |ms|
    ensures exists k :: 0 <= k < |out| && out[k].id == ms[i].messageId && |out[k].routes| == |ms[i].routes|
  {
    PublicMessagesStages(ms, None, out);
    var rs := FilterPublicMessages(ms, None).value;
    assert rs == ResolveAll(ms).value;
    var sorted := SortPublicMessages(rs);
    SortPublicMessagesPermutation(rs);
    var x := SortAllMessageRoutes(rs)[i];
    assert x in multiset(sorted);
    var k :| 0 <= k < |sorted| && sorted[k] == x;
    assert out[k] == NormalizeMessage(sorted[k]);
  }

  /** Shown messages are ordered by priority, a non-number priority last. */
  lemma PublicMessagesByPriority(ms: seq<JoinedMessage>, filter: Option<seq<string>>, out: seq<PublicMessage>)
    requires PublicMessages(Ready(ms), filter) == Normal(Ready(out))
    ensures forall i, j :: 0 <= i < j < |out| ==> ExtLe(Comparable(out[i].priority), Comparable(out[j].priority))
  {
    PublicMessagesStages(ms, filter, out);
    var rs := FilterPublicMessages(ms, filter).value;
    var sorted := SortPublicMessages(rs);
    SortPublicMessagesOrdered(rs);
    forall i, j | 0 <= i < j < |out| ensures ExtLe(Comparable(out[i].priority), Comparable(out[j].priority)) {
      assert out[i].priority == sorted[i].priority && out[j].priority == sorted[j].priority;
      assert ExtLe(PriorityKey(sorted[i]), PriorityKey(sorted[j]));
    }
  }
}
