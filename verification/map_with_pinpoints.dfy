/**
 * The two pieces of logic in src/mainmap/MapWithPinpoints.js: choosing the
 * gazetteer town nearest to a clicked point, and keeping the items that carry
 * a usable location.
 *
 * The distance from the clicked point to a town is a parameter (`distanceTo`):
 * the haversine arithmetic is not modelled, only the selection over its
 * results. Distances are JavaScript numbers as far as `<` can tell them apart,
 * so the `Infinity` the selection starts from, and a `NaN` distance, are real
 * cases of the model.
 */
module MapWithPinpoints {
  import opened Wrappers
  import opened Values
  import opened Seqs
  import ItemForm

  // ---------------------------------------------------------------- numbers

  /** `a < b` on JavaScript numbers: false whenever either side is `NaN`. */
  predicate Less(a: Number, b: Number) {
    match (a, b)
    case (NaN, _) => false
    case (_, NaN) => false
    case (Finite(x), Finite(y)) => x < y
    case (NegInfinity, _) => !b.NegInfinity?
    case (_, PosInfinity) => !a.PosInfinity?
    case _ => false
  }

  lemma LessIrreflexive(a: Number)
    ensures !Less(a, a)
  {
  }

  lemma LessTransitive(a: Number, b: Number, c: Number)
    requires Less(a, b) && Less(b, c)
    ensures Less(a, c)
  {
  }

  /** Below `b`, and `c` is not below `b`: then below `c`, unless `c` is `NaN`. */
  lemma LessThenNotLess(a: Number, b: Number, c: Number)
    requires Less(a, b) && !c.NaN? && !Less(c, b)
    ensures Less(a, c)
  {
  }

  // ---------------------------------------------------------------- the gazetteer

  datatype LatLng = LatLng(lat: real, lng: real)

  datatype Town = Town(name: string, at: LatLng)

  /** The 25 towns `fetchNearbyTowns` chooses from, in the order it scans them. */
  const Towns: seq<Town> := [
    Town("Lusaka", LatLng(-15.3875, 28.3228)),
    Town("Kitwe", LatLng(-12.8024, 28.2132)),
    Town("Ndola", LatLng(-12.9587, 28.6366)),
    Town("Kabwe", LatLng(-14.4461, 28.4468)),
    Town("Chingola", LatLng(-12.5339, 27.8503)),
    Town("Livingstone", LatLng(-17.8481, 25.8544)),
    Town("Luanshya", LatLng(-13.1367, 28.4166)),
    Town("Chipata", LatLng(-13.6455, 32.6456)),
    Town("Mufulira", LatLng(-12.5498, 28.2407)),
    Town("Kasama", LatLng(-10.2123, 31.1808)),
    Town("Mazabuka", LatLng(-15.8573, 27.7488)),
    Town("Solwezi", LatLng(-12.1839, 26.4)),
    Town("Monze", LatLng(-16.2833, 27.4833)),
    Town("Mongu", LatLng(-15.2543, 23.1317)),
    Town("Choma", LatLng(-16.8, 26.9833)),
    Town("Kalulushi", LatLng(-12.8416, 28.0948)),
    Town("Mansa", LatLng(-11.1991, 28.8943)),
    Town("Kapiri Mposhi", LatLng(-13.9708, 28.6806)),
    Town("Mpika", LatLng(-11.8309, 31.4517)),
    Town("Nchelenge", LatLng(-9.3447, 28.7333)),
    Town("Siavonga", LatLng(-16.5383, 28.7167)),
    Town("Kafue", LatLng(-15.7691, 28.1815)),
    Town("Petauke", LatLng(-14.2488, 31.319)),
    Town("Kaoma", LatLng(-14.7842, 24.7992)),
    Town("Mbala", LatLng(-8.8375, 31.3656))
  ]

  /** The gazetteer names exactly the report form's location badges, in the same order. */
  lemma TownsAreLocationTags()
    ensures |Towns| == |ItemForm.LocationTags| == 25
    ensures forall i :: 0 <= i < |Towns| ==> Towns[i].name == ItemForm.LocationTags[i]
  {
  }

  // ---------------------------------------------------------------- nearest town

  /**
   * The reducer's accumulator: the seed `{ town: null, distance: Infinity }`,
   * or the town chosen so far with its distance and coordinates.
   */
  datatype Closest = Seed | Nearest(town: string, distance: Number, lat: real, lng: real) {
    function Distance(): Number {
      if Seed? then PosInfinity else distance
    }
  }

  /** The distance to every town, in gazetteer order. */
  function Distances(towns: seq<Town>, distanceTo: LatLng -> Number): (ds: seq<Number>)
    ensures |ds| == |towns|
    ensures forall i :: 0 <= i < |towns| ==> ds[i] == distanceTo(towns[i].at)
  {
    seq(|towns|, i requires 0 <= i < |towns| => distanceTo(towns[i].at))
  }

  /** One reducer call: the town replaces the accumulator only when strictly closer. */
  function Closer(closest: Closest, town: Town, distance: Number): Closest {
    if Less(distance, closest.Distance()) then Nearest(town.name, distance, town.at.lat, town.at.lng)
    else closest
  }

  /**
   * `towns.reduce(...)` from the seed, scanning left to right. The result is
   * the seed exactly when no distance is below `Infinity`; otherwise a town
   * with a distance below `Infinity`.
   */
  function NearestTown(towns: seq<Town>, distanceTo: LatLng -> Number): (r: Closest)
    ensures r.Seed? <==> forall i :: 0 <= i < |towns| ==> !Less(distanceTo(towns[i].at), PosInfinity)
    ensures r.Nearest? ==> Less(r.distance, PosInfinity)
    decreases |towns|
  {
    if towns == [] then Seed
    else
      var n := |towns| - 1;
      var before := NearestTown(towns[..n], distanceTo);
      assert forall i :: 0 <= i < n ==> towns[..n][i] == towns[i];
      Closer(before, towns[n], distanceTo(towns[n].at))
  }

  /**
   * Index `i` is the first minimum of `ds` under `<`: below `Infinity`, strictly
   * below every earlier distance that is not `NaN`, and not above any later one.
   */
  predicate Leads(ds: seq<Number>, i: int) {
    && 0 <= i < |ds|
    && Less(ds[i], PosInfinity)
    && (forall j :: 0 <= j < i ==> Less(ds[i], ds[j]) || ds[j].NaN?)
    && (forall j :: i < j < |ds| ==> !Less(ds[j], ds[i]))
  }

  /** At most one index leads. */
  lemma LeaderUnique(ds: seq<Number>, i: int, j: int)
    requires Leads(ds, i) && Leads(ds, j)
    ensures i == j
  {
  }

  /**
   * The reduction picks the leading town, and carries exactly that town's
   * name, distance and coordinates.
   */
  lemma {:induction false} NearestTownLeads(towns: seq<Town>, distanceTo: LatLng -> Number) returns (i: int)
    ensures var r := NearestTown(towns, distanceTo);
            r.Nearest? ==> Leads(Distances(towns, distanceTo), i) &&
                           r == Nearest(towns[i].name, distanceTo(towns[i].at), towns[i].at.lat, towns[i].at.lng)
    decreases |towns|
  {
    if towns == [] {
      return 0;
    }
    var n := |towns| - 1;
    var pre := towns[..n];
    var before := NearestTown(pre, distanceTo);
    var ds := Distances(towns, distanceTo);
    assert Distances(pre, distanceTo) == ds[..n];
    var i0 := NearestTownLeads(pre, distanceTo);
    if Less(ds[n], before.Distance()) {
      i := n;
      if before.Seed? {
        assert forall j :: 0 <= j < n ==> ds[j] == distanceTo(pre[j].at);
        FirstBelowInfinityLeads(ds);
      } else {
        CloserNewcomerLeads(ds, i0);
      }
    } else {
      i := i0;
      if before.Nearest? {
        FartherNewcomerKeepsLeader(ds, i0);
      }
    }
  }

  /** The first distance below `Infinity`, when it comes last, leads. */
  lemma FirstBelowInfinityLeads(ds: seq<Number>)
    requires |ds| > 0 && Less(ds[|ds| - 1], PosInfinity)
    requires forall j :: 0 <= j < |ds| - 1 ==> !Less(ds[j], PosInfinity)
    ensures Leads(ds, |ds| - 1)
  {
    forall j | 0 <= j < |ds| - 1
      ensures Less(ds[|ds| - 1], ds[j]) || ds[j].NaN?
    {
      assert !Less(ds[j], PosInfinity);
    }
  }

  /** A last distance below the leader's leads in its place. */
  lemma CloserNewcomerLeads(ds: seq<Number>, i0: int)
    requires |ds| > 0 && Leads(ds[..|ds| - 1], i0)
    requires Less(ds[|ds| - 1], ds[i0])
    ensures Leads(ds, |ds| - 1)
  {
    var n := |ds| - 1;
    var d := ds[n];
    assert forall j :: 0 <= j < n ==> ds[..n][j] == ds[j];
    LessTransitive(d, ds[i0], PosInfinity);
    forall j | 0 <= j < n
      ensures Less(d, ds[j]) || ds[j].NaN?
    {
      if j < i0 {
        if !ds[j].NaN? {
          LessTransitive(d, ds[i0], ds[j]);
        }
      } else if i0 < j && !ds[j].NaN? {
        LessThenNotLess(d, ds[i0], ds[j]);
      }
    }
  }

  /** A last distance not below the leader's leaves the leader in place. */
  lemma FartherNewcomerKeepsLeader(ds: seq<Number>, i0: int)
    requires |ds| > 0 && Leads(ds[..|ds| - 1], i0)
    requires !Less(ds[|ds| - 1], ds[i0])
    ensures Leads(ds, i0)
  {
    var n := |ds| - 1;
    assert forall j :: 0 <= j < n ==> ds[..n][j] == ds[j];
  }

  /** The town chosen is no farther than any town whose distance is a number. */
  lemma NearestIsMinimal(towns: seq<Town>, distanceTo: LatLng -> Number, j: int)
    requires 0 <= j < |towns| && !distanceTo(towns[j].at).NaN?
    requires NearestTown(towns, distanceTo).Nearest?
    ensures !Less(distanceTo(towns[j].at), NearestTown(towns, distanceTo).distance)
  {
    var ds := Distances(towns, distanceTo);
    var i := NearestTownLeads(towns, distanceTo);
    if j < i {
      assert Less(ds[i], ds[j]);
    } else if j == i {
      LessIrreflexive(ds[i]);
    }
  }

  /**
   * On a tie the earlier town wins: the chosen town is at the chosen distance,
   * and every town before it is at some other distance.
   */
  lemma TiesGoToEarliest(towns: seq<Town>, distanceTo: LatLng -> Number) returns (i: int)
    requires NearestTown(towns, distanceTo).Nearest?
    ensures 0 <= i < |towns|
    ensures NearestTown(towns, distanceTo).town == towns[i].name
    ensures distanceTo(towns[i].at) == NearestTown(towns, distanceTo).distance
    ensures forall j :: 0 <= j < i ==> distanceTo(towns[j].at) != NearestTown(towns, distanceTo).distance
  {
    var ds := Distances(towns, distanceTo);
    i := NearestTownLeads(towns, distanceTo);
    forall j | 0 <= j < i
      ensures distanceTo(towns[j].at) != ds[i]
    {
      if Less(ds[i], ds[j]) {
        LessIrreflexive(ds[i]);
      }
    }
  }

  /** Conversely, whenever some town leads, the reduction picks that town. */
  lemma LeaderIsChosen(towns: seq<Town>, distanceTo: LatLng -> Number, i: int)
    requires Leads(Distances(towns, distanceTo), i)
    ensures NearestTown(towns, distanceTo) ==
            Nearest(towns[i].name, distanceTo(towns[i].at), towns[i].at.lat, towns[i].at.lng)
  {
    var j := NearestTownLeads(towns, distanceTo);
    assert !NearestTown(towns, distanceTo).Seed? by {
      assert Less(distanceTo(towns[i].at), PosInfinity);
    }
    LeaderUnique(Distances(towns, distanceTo), i, j);
  }

  /**
   * With finite distances the gazetteer always yields a town: one of its
   * entries, with that entry's coordinates, and its name is a location badge.
   */
  lemma FiniteDistancesNameATown(distanceTo: LatLng -> Number)
    requires forall i :: 0 <= i < |Towns| ==> distanceTo(Towns[i].at).Finite?
    ensures NearestTown(Towns, distanceTo).Nearest?
    ensures var r := NearestTown(Towns, distanceTo);
            exists t :: t in Towns && r.town == t.name && r.lat == t.at.lat && r.lng == t.at.lng
    ensures NearestTown(Towns, distanceTo).town in ItemForm.LocationTags
  {
    assert Less(distanceTo(Towns[0].at), PosInfinity);
    var i := NearestTownLeads(Towns, distanceTo);
    assert Towns[i] in Towns;
    TownsAreLocationTags();
    assert ItemForm.LocationTags[i] in ItemForm.LocationTags;
  }

  /** An empty gazetteer leaves the seed. */
  lemma NoTownsGiveSeed(distanceTo: LatLng -> Number)
    ensures NearestTown([], distanceTo) == Seed
  {
  }

  /**
   * `fetchNearbyTowns(lat, lng)`: the nearest town to the clicked point,
   * wrapped in a one-element list. `distance` is the haversine distance in
   * kilometres between two points.
   */
  function FetchNearbyTowns(lat: real, lng: real, distance: (LatLng, LatLng) -> Number): (r: seq<Closest>)
    ensures |r| == 1
    ensures r[0].Seed? <==> forall i :: 0 <= i < |Towns| ==> !Less(distance(LatLng(lat, lng), Towns[i].at), PosInfinity)
  {
    [NearestTown(Towns, (at: LatLng) => distance(LatLng(lat, lng), at))]
  }

  // ---------------------------------------------------------------- located items

  /**
   * `item.locationLngLat && item.locationLngLat.lat && item.locationLngLat.lng`:
   * the item has a location object whose `lat` and `lng` are both truthy.
   */
  predicate HasLocation(item: Fields) {
    var loc := Field(item, "locationLngLat");
    Truthy(loc) && Truthy(Property(loc, "lat")) && Truthy(Property(loc, "lng"))
  }

  function HasLocationTest(): Fields -> bool {
    (item: Fields) => HasLocation(item)
  }

  /** The record of every document, in query order. */
  function Records(docs: seq<Doc>): (r: seq<Fields>)
    ensures |r| == |docs|
    ensures forall i :: 0 <= i < |docs| ==> r[i] == Record(docs[i])
  {
    seq(|docs|, i requires 0 <= i < |docs| => Record(docs[i]))
  }

  /** The map's items: the records of the documents that carry a location, in order. */
  function LocatedItems(docs: seq<Doc>): (r: seq<Fields>)
    ensures |r| <= |docs|
    ensures forall item :: item in r <==> item in Records(docs) && HasLocation(item)
    ensures |r| == |docs| <==> forall i :: 0 <= i < |docs| ==> HasLocation(Record(docs[i]))
  {
    FilterDropsNothingIff(Records(docs), HasLocationTest());
    Filter(Records(docs), HasLocationTest())
  }

  /** Items of two runs of documents are the items of each run, in order. */
  lemma LocatedItemsAppend(a: seq<Doc>, b: seq<Doc>)
    ensures LocatedItems(a + b) == LocatedItems(a) + LocatedItems(b)
  {
    assert Records(a + b) == Records(a) + Records(b);
    FilterAppend(Records(a), Records(b), HasLocationTest());
  }

  /** A latitude or longitude of exactly 0 is falsy, so such an item is not shown. */
  lemma ZeroCoordinateDropped(props: map<string, Value>)
    requires "lat" in props && "lng" in props
    requires props["lat"] == Num(Finite(0.0)) || props["lng"] == Num(Finite(0.0))
    ensures !HasLocation(map["locationLngLat" := Object(props)])
  {
  }

  /** `NaN` is falsy too: an item with a `NaN` latitude or longitude is not shown. */
  lemma NaNCoordinateDropped(props: map<string, Value>)
    requires "lat" in props && "lng" in props
    requires props["lat"] == Num(NaN) || props["lng"] == Num(NaN)
    ensures !HasLocation(map["locationLngLat" := Object(props)])
  {
  }

  /** Any other number, an infinity included, is truthy: the item is shown. */
  lemma NonZeroCoordinatesKept(props: map<string, Value>, lat: Number, lng: Number)
    requires "lat" in props && props["lat"] == Num(lat) && lat != Finite(0.0) && !lat.NaN?
    requires "lng" in props && props["lng"] == Num(lng) && lng != Finite(0.0) && !lng.NaN?
    ensures HasLocation(map["locationLngLat" := Object(props)])
  {
  }

  /** A location stored as anything but a plain object (a geopoint, a string) has no `lat`, so it is not shown. */
  lemma NonObjectLocationDropped(item: Fields)
    requires "locationLngLat" in item && !item["locationLngLat"].Object?
    ensures !HasLocation(item)
  {
  }

  /**
   * `fetchItemsWithLocations`: a successful read replaces the items by the
   * located ones; a failed read leaves the previous items.
   */
  function FetchItemsWithLocations(previous: seq<Fields>, store: Option<seq<Doc>>): (r: seq<Fields>)
    ensures store.None? ==> r == previous
    ensures store.Some? ==> forall item :: item in r <==> item in Records(store.value) && HasLocation(item)
  {
    match store
    case None => previous
    case Some(docs) => LocatedItems(docs)
  }
}
