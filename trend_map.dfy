/** Placing trends on the map (components/TrendMap.tsx): resolving each trend's coordinate
    from the newer or the legacy columns, keeping the trends that have one, and turning
    those into markers. The coordinate values themselves are never computed with, only
    passed along, so their type N is left open. */
module TrendMap {
  import opened Types

  datatype Coordinate<N> = Coordinate(latitude: N, longitude: N)

  /** A marker on the map, keyed by the trend's id. */
  datatype Marker<N> = Marker(key: string, coordinate: Coordinate<N>, title: string, description: string)

  /** `a ?? b`: JavaScript's nullish coalescing. */
  function Coalesce<N>(a: NumberField<N>, b: NumberField<N>): (r: NumberField<N>)
    ensures r.Num? ==> ResolvesTo(a, b, r.value)
    ensures !r.Num? <==> Unresolved(a, b)
    ensures r.IsNullish() <==> a.IsNullish() && b.IsNullish()
  {
    if a.IsNullish() then b else a
  }

  /** One component resolves to the number `x`: the newer column holds `x`, or it is null
      or missing and the legacy column holds `x`. */
  ghost predicate ResolvesTo<N>(primary: NumberField<N>, legacy: NumberField<N>, x: N) {
    primary == Num(x) || (primary.IsNullish() && legacy == Num(x))
  }

  /** One component resolves to no number: the newer column holds something that is not a
      number, or it is null or missing and the legacy column holds no number either. */
  ghost predicate Unresolved<N>(primary: NumberField<N>, legacy: NumberField<N>) {
    primary.NonNumber? || (primary.IsNullish() && !legacy.Num?)
  }

  /** getTrendCoordinate: a full pair when both components resolve to numbers, nothing
      otherwise; never half a pair. */
  function GetTrendCoordinate<N>(trend: Trend<N>): (c: Option<Coordinate<N>>)
    ensures c.Some? ==> ResolvesTo(trend.latitude, trend.lat, c.value.latitude)
    ensures c.Some? ==> ResolvesTo(trend.longitude, trend.lng, c.value.longitude)
    ensures c.None? <==> Unresolved(trend.latitude, trend.lat) || Unresolved(trend.longitude, trend.lng)
  {
    var latitude := Coalesce(trend.latitude, trend.lat);
    var longitude := Coalesce(trend.longitude, trend.lng);
    if latitude.Num? && longitude.Num? then Some(Coordinate(latitude.value, longitude.value)) else None
  }

  /** The coordinate is exactly the pair of values the two components resolve to. */
  lemma CoordinateIff<N>(trend: Trend<N>, x: N, y: N)
    ensures GetTrendCoordinate(trend) == Some(Coordinate(x, y)) <==>
      ResolvesTo(trend.latitude, trend.lat, x) && ResolvesTo(trend.longitude, trend.lng, y)
  {
  }

  /** A number in the newer column wins over the legacy column, whatever the legacy column
      holds; the two components are resolved independently. */
  lemma NewColumnWins<N>(trend: Trend<N>, x: N, y: N)
    requires trend.latitude == Num(x)
    requires ResolvesTo(trend.longitude, trend.lng, y)
    ensures GetTrendCoordinate(trend) == Some(Coordinate(x, y))
  {
  }

  /** A latitude from the newer column pairs with a longitude from the legacy one. */
  lemma MixedColumns<N>(trend: Trend<N>, x: N, y: N)
    requires trend.latitude == Num(x) && trend.longitude.IsNullish() && trend.lng == Num(y)
    ensures GetTrendCoordinate(trend) == Some(Coordinate(x, y))
  {
  }

  /** A latitude of 0 in the newer column is kept: `??` only skips null and undefined, so
      the legacy column is not consulted even though 0 is falsy. */
  lemma ZeroLatitudeKept(trend: Trend<real>, y: real)
    requires trend.latitude == Num(0.0)
    requires ResolvesTo(trend.longitude, trend.lng, y)
    ensures GetTrendCoordinate(trend) == Some(Coordinate(0.0, y))
  {
  }

  /** A non-number in the newer column hides the legacy column: the trend gets no
      coordinate even when the legacy pair is complete. */
  lemma NonNumberHidesLegacy<N>(trend: Trend<N>)
    requires trend.latitude.NonNumber? && trend.lat.Num? && trend.lng.Num?
    ensures GetTrendCoordinate(trend).None?
  {
  }

  /** trendsWithCoords: the trends, in order, that have a coordinate. */
  function TrendsWithCoords<N>(trends: seq<Trend<N>>): (shown: seq<Trend<N>>)
    ensures |shown| <= |trends|
    ensures forall i :: 0 <= i < |shown| ==> GetTrendCoordinate(shown[i]).Some?
  {
    if trends == [] then []
    else (if GetTrendCoordinate(trends[0]).Some? then [trends[0]] else []) + TrendsWithCoords(trends[1..])
  }

  /** A trend is shown exactly when it is one of the trends and has a coordinate. */
  lemma {:induction false} TrendsWithCoordsMembers<N>(trends: seq<Trend<N>>, trend: Trend<N>)
    ensures trend in TrendsWithCoords(trends) <==> trend in trends && GetTrendCoordinate(trend).Some?
  {
    if trends != [] {
      TrendsWithCoordsMembers(trends[1..], trend);
      assert trends == [trends[0]] + trends[1..];
    }
  }

  /** The filter keeps the order: filtering a concatenation concatenates the filtered
      parts. */
  lemma {:induction false} TrendsWithCoordsAppend<N>(a: seq<Trend<N>>, b: seq<Trend<N>>)
    ensures TrendsWithCoords(a + b) == TrendsWithCoords(a) + TrendsWithCoords(b)
  {
    if a == [] {
      assert a + b == b;
    } else {
      assert (a + b)[1..] == a[1..] + b;
      TrendsWithCoordsAppend(a[1..], b);
    }
  }

  /** Filtering an already filtered list changes nothing. */
  lemma {:induction false} TrendsWithCoordsIdempotent<N>(trends: seq<Trend<N>>)
    ensures TrendsWithCoords(TrendsWithCoords(trends)) == TrendsWithCoords(trends)
  {
    if trends != [] {
      var head := if GetTrendCoordinate(trends[0]).Some? then [trends[0]] else [];
      TrendsWithCoordsAppend(head, TrendsWithCoords(trends[1..]));
      TrendsWithCoordsIdempotent(trends[1..]);
      if head != [] {
        assert TrendsWithCoords(head) == TrendsWithCoords(head[1..]) + head;
      }
    }
  }

  /** Every trend is kept exactly when every trend has a coordinate. */
  lemma {:induction false} TrendsWithCoordsKeepsAll<N>(trends: seq<Trend<N>>)
    ensures |TrendsWithCoords(trends)| == |trends| <==>
      forall i :: 0 <= i < |trends| ==> GetTrendCoordinate(trends[i]).Some?
  {
    if trends != [] {
      TrendsWithCoordsKeepsAll(trends[1..]);
      if GetTrendCoordinate(trends[0]).Some? {
        assert forall i :: 1 <= i < |trends| ==> trends[i] == trends[1..][i - 1];
      }
    }
  }

  /** The marker for one trend, or none when the trend has no coordinate. */
  function MarkerFor<N>(trend: Trend<N>): (marker: Option<Marker<N>>)
    ensures marker.Some? <==> GetTrendCoordinate(trend).Some?
    ensures marker.Some? ==> Some(marker.value.coordinate) == GetTrendCoordinate(trend)
    ensures marker.Some? ==> marker.value.key == trend.id && marker.value.title == trend.title
  {
    match GetTrendCoordinate(trend)
    case None => None
    case Some(c) => Some(Marker(trend.id, c, trend.title, trend.category + " \U{B7} " + trend.location))
  }

  /** `trendsWithCoords.map(...)`: one entry per trend, none where the guard drops it. */
  function RenderMarkers<N>(shown: seq<Trend<N>>): (markers: seq<Option<Marker<N>>>)
    ensures |markers| == |shown|
    ensures forall i :: 0 <= i < |shown| ==> markers[i] == MarkerFor(shown[i])
  {
    seq(|shown|, i requires 0 <= i < |shown| => MarkerFor(shown[i]))
  }

  /** Every trend kept by the filter becomes a marker, keyed by its id and placed at its
      coordinate: the guard that drops trends without a coordinate never fires. */
  lemma EveryShownTrendHasMarker<N>(trends: seq<Trend<N>>)
    ensures var shown := TrendsWithCoords(trends);
      forall i :: 0 <= i < |shown| ==>
        && RenderMarkers(shown)[i].Some?
        && RenderMarkers(shown)[i].value.key == shown[i].id
        && GetTrendCoordinate(shown[i]) == Some(RenderMarkers(shown)[i].value.coordinate)
  {
  }
}
