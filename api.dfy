/** The HTTP handlers: the nearby search over buildings (Gedung) and the two
    detail lookups by UUID.

    The database is an input: the search receives the buildings the
    bounding-box query returned, in the order it returned them, and the
    detail lookups receive the tables keyed by canonical UUID text. The
    great-circle distance is an input function, and so is `uuid.UUID`
    (`ParseUuid` gives the canonical text of a well-formed UUID and None for
    one it rejects). Image URLs arrive already made absolute. */
module Api {
  import opened Wrappers
  import StableSort
  import opened Numbers
  import Models

  datatype HttpError = HttpError(status: int, message: string)

  // ---------------------------------------------------------------------
  // Rows the handlers read
  // ---------------------------------------------------------------------

  /** An image as the handlers see it: its absolute URL and its primary flag. */
  datatype ImageRef = ImageRef(url: string, isPrimary: bool)

  datatype UnitRow = UnitRow(id: nat, uuid: string, lantai: nat, unitNumber: string,
                             deskripsi: string, listingType: string,
                             alasanBlacklist: Option<string>,
                             pemilik: Option<Models.Person>, agen: Option<Models.Person>,
                             images: seq<ImageRef>)

  /** A building with its units (ordered by floor and unit number by the
      query) and its images (in the images' default order). */
  datatype GedungRow = GedungRow(id: nat, uuid: string, namaGedung: Option<string>,
                                 lat: real, long: real, alamat: string,
                                 units: seq<UnitRow>, images: seq<ImageRef>)

  /** The great-circle distance in meters between (lat1, lon1) and (lat2, lon2). */
  type Distance = (real, real, real, real) -> real

  /** `uuid.UUID(s)`: the canonical text, or None when it raises ValueError. */
  type ParseUuid = string -> Option<string>

  // ---------------------------------------------------------------------
  // Rounding to two decimals
  // ---------------------------------------------------------------------

  /** `round(x, 2)` */
  function Round2(x: real): real {
    RoundHalfEven(x * 100.0) as real / 100.0
  }

  /** Rounding never moves a value by more than half a hundredth. */
  lemma {:induction false} Round2Close(x: real)
    ensures -0.005 <= Round2(x) - x <= 0.005
  {
    RoundHalfEvenClose(x * 100.0);
  }

  /** Rounding keeps the order of its arguments. */
  lemma {:induction false} Round2Monotone(x1: real, x2: real)
    requires x1 <= x2
    ensures Round2(x1) <= Round2(x2)
  {
    RoundHalfEvenMonotone(x1 * 100.0, x2 * 100.0);
  }

  /** A whole number of meters is its own rounding. */
  lemma {:induction false} Round2Whole(n: int)
    ensures Round2(n as real) == n as real
  {
    assert (n as real * 100.0).Floor == n * 100;
  }

  // ---------------------------------------------------------------------
  // The primary image
  // ---------------------------------------------------------------------

  /** The URL of the first image flagged primary, in iteration order. */
  function FirstPrimary(images: seq<ImageRef>): (r: Option<string>)
    ensures r.None? <==> forall i :: 0 <= i < |images| ==> !images[i].isPrimary
    ensures r.Some? ==> exists i :: 0 <= i < |images| && images[i].isPrimary && images[i].url == r.value
                                    && forall j :: 0 <= j < i ==> !images[j].isPrimary
  {
    if images == [] then None
    else if images[0].isPrimary then Some(images[0].url)
    else
      var r := FirstPrimary(images[1..]);
      assert forall i :: 1 <= i < |images| ==> images[i] == images[1..][i - 1];
      assert r.Some? ==> exists i :: 0 <= i < |images| && images[i].isPrimary && images[i].url == r.value
                                     && forall j :: 0 <= j < i ==> !images[j].isPrimary by {
        if r.Some? {
          var i :| 0 <= i < |images[1..]| && images[1..][i].isPrimary && images[1..][i].url == r.value
                   && forall j :: 0 <= j < i ==> !images[1..][j].isPrimary;
          assert forall j :: 0 <= j < i + 1 ==> !images[j].isPrimary by {
            forall j | 0 <= j < i + 1 ensures !images[j].isPrimary {
              if j > 0 { assert images[j] == images[1..][j - 1]; }
            }
          }
        }
      }
      r
  }

  /** The loop over the images that stops at the first primary one. */
  method PickPrimaryImage(images: seq<ImageRef>) returns (primary: Option<string>)
    ensures primary == FirstPrimary(images)
  {
    primary := None;
    var i := 0;
    while i < |images|
      invariant 0 <= i <= |images|
      invariant primary == None
      invariant FirstPrimary(images[i..]) == FirstPrimary(images)
    {
      if images[i].isPrimary {
        primary := Some(images[i].url);
        break;
      }
      assert images[i..][1..] == images[i + 1..];
      i := i + 1;
    }
  }

  // ---------------------------------------------------------------------
  // Nearby search
  // ---------------------------------------------------------------------

  datatype NearbyRequest = NearbyRequest(lat: real, long: real, radius: int)

  /** One entry of `results`: the building with its distance rounded to two
      decimals, its unit count and the URL of its primary image. */
  datatype NearbyItem = NearbyItem(id: nat, uuid: string, namaGedung: Option<string>,
                                   lat: real, long: real, alamat: string, distance: real,
                                   totalUnits: nat, primaryImage: Option<string>)

  datatype NearbyResponse = NearbyResponse(success: bool, count: nat, radius: int,
                                           centerLat: real, centerLong: real,
                                           results: seq<NearbyItem>)

  const LatitudeMessage := "Latitude harus antara -90 dan 90"
  const LongitudeMessage := "Longitude harus antara -180 dan 180"
  const RadiusMessage := "Radius harus antara 1 dan 1000 meter"

  /** The three range checks, in order; the first that fails answers 400. */
  function CheckNearby(p: NearbyRequest): (r: Option<HttpError>)
    ensures r.None? <==> ValidNearby(p)
    ensures r.Some? ==> r.value.status == 400
  {
    if !(-90.0 <= p.lat <= 90.0) then Some(HttpError(400, LatitudeMessage))
    else if !(-180.0 <= p.long <= 180.0) then Some(HttpError(400, LongitudeMessage))
    else if !(1 <= p.radius <= 1000) then Some(HttpError(400, RadiusMessage))
    else None
  }

  predicate ValidNearby(p: NearbyRequest) {
    -90.0 <= p.lat <= 90.0 && -180.0 <= p.long <= 180.0 && 1 <= p.radius <= 1000
  }

  /** The exact filter: the distance from the center is at most the radius. */
  predicate WithinRadius(p: NearbyRequest, g: GedungRow, distance: Distance) {
    distance(p.lat, p.long, g.lat, g.long) <= p.radius as real
  }

  function ToItem(p: NearbyRequest, g: GedungRow, distance: Distance): NearbyItem {
    NearbyItem(g.id, g.uuid, g.namaGedung, g.lat, g.long, g.alamat,
               Round2(distance(p.lat, p.long, g.lat, g.long)), |g.units|, FirstPrimary(g.images))
  }

  /** The candidates that pass the exact filter, in candidate order. */
  function InRadius(p: NearbyRequest, cands: seq<GedungRow>, distance: Distance): seq<GedungRow> {
    if cands == [] then []
    else
      var g := cands[|cands| - 1];
      InRadius(p, cands[..|cands| - 1], distance) + (if WithinRadius(p, g, distance) then [g] else [])
  }

  /** The entries built for the candidates that pass, before sorting. */
  function Matches(p: NearbyRequest, cands: seq<GedungRow>, distance: Distance): seq<NearbyItem> {
    var gs := InRadius(p, cands, distance);
    seq(|gs|, i requires 0 <= i < |gs| => ToItem(p, gs[i], distance))
  }

  function DistanceOf(it: NearbyItem): real {
    it.distance
  }

  /** `search_nearby_gedung` as a function of the request, the candidates and
      the distance: the checks, then the filtered entries sorted stably by
      their rounded distance, with the request echoed. */
  function SearchNearby(p: NearbyRequest, cands: seq<GedungRow>, distance: Distance)
    : (r: Result<NearbyResponse, HttpError>)
    ensures r.Failure? <==> !ValidNearby(p)
    ensures r.Failure? ==> r.error.status == 400
    ensures r.Success? ==> r.value.success && r.value.count == |r.value.results|
  {
    match CheckNearby(p)
    case Some(e) => Failure(e)
    case None =>
      var results := StableSort.Sort(Matches(p, cands, distance), DistanceOf);
      Success(NearbyResponse(true, |results|, p.radius, p.lat, p.long, results))
  }

  /** The handler: rejects a bad request, then builds the entries in one pass
      over the candidates and sorts them in place. */
  method SearchNearbyGedung(p: NearbyRequest, cands: seq<GedungRow>, distance: Distance)
    returns (r: Result<NearbyResponse, HttpError>)
    ensures r == SearchNearby(p, cands, distance)
  {
    var err := CheckNearby(p);
    if err.Some? {
      return Failure(err.value);
    }
    var results: seq<NearbyItem> := [];
    var i := 0;
    while i < |cands|
      invariant 0 <= i <= |cands|
      invariant results == Matches(p, cands[..i], distance)
    {
      var g := cands[i];
      assert cands[..i + 1] == cands[..i] + [g];
      assert cands[..i + 1][..i] == cands[..i];
      var d := distance(p.lat, p.long, g.lat, g.long);
      if d <= p.radius as real {
        var primary := PickPrimaryImage(g.images);
        results := results + [NearbyItem(g.id, g.uuid, g.namaGedung, g.lat, g.long, g.alamat,
                                         Round2(d), |g.units|, primary)];
      }
      i := i + 1;
    }
    assert cands[..i] == cands;
    var a := new NearbyItem[|results|](k requires 0 <= k < |results| => results[k]);
    assert a[..] == results;
    StableSort.SortInPlace(a, DistanceOf);
    r := Success(NearbyResponse(true, a.Length, p.radius, p.lat, p.long, a[..]));
    StableSort.SortLength(results, DistanceOf);
  }

  /** A building is among the filtered candidates exactly when it is a
      candidate within the radius. */
  lemma {:induction false} InRadiusMembers(p: NearbyRequest, cands: seq<GedungRow>, distance: Distance, g: GedungRow)
    ensures g in InRadius(p, cands, distance) <==> g in cands && WithinRadius(p, g, distance)
  {
    if cands != [] {
      InRadiusMembers(p, cands[..|cands| - 1], distance, g);
      assert cands == cands[..|cands| - 1] + [cands[|cands| - 1]];
    }
  }

  /** A bad request is answered 400 with the message of the first failing
      check, latitude before longitude before radius, and its answer does not
      depend on the candidates. */
  lemma {:induction false} SearchRejects(p: NearbyRequest, cands: seq<GedungRow>, distance: Distance)
    ensures SearchNearby(p, cands, distance).Failure? <==> !ValidNearby(p)
    ensures !(-90.0 <= p.lat <= 90.0) ==>
              SearchNearby(p, cands, distance) == Failure(HttpError(400, LatitudeMessage))
    ensures -90.0 <= p.lat <= 90.0 && !(-180.0 <= p.long <= 180.0) ==>
              SearchNearby(p, cands, distance) == Failure(HttpError(400, LongitudeMessage))
    ensures -90.0 <= p.lat <= 90.0 && -180.0 <= p.long <= 180.0 && !(1 <= p.radius <= 1000) ==>
              SearchNearby(p, cands, distance) == Failure(HttpError(400, RadiusMessage))
    ensures !ValidNearby(p) ==> SearchNearby(p, cands, distance) == SearchNearby(p, [], distance)
  {
  }

  /** Every entry comes from a candidate whose exact distance was within the
      radius, and its rounded distance is within the radius too. */
  lemma {:induction false} SearchResultsWithinRadius(p: NearbyRequest, cands: seq<GedungRow>, distance: Distance)
    requires ValidNearby(p)
    ensures var results := SearchNearby(p, cands, distance).value.results;
      forall i :: 0 <= i < |results| ==>
        && results[i].distance <= p.radius as real
        && exists g :: g in cands && WithinRadius(p, g, distance) && results[i] == ToItem(p, g, distance)
  {
    var m := Matches(p, cands, distance);
    var gs := InRadius(p, cands, distance);
    var results := StableSort.Sort(m, DistanceOf);
    StableSort.SortPermutation(m, DistanceOf);
    forall i | 0 <= i < |results|
      ensures results[i].distance <= p.radius as real
      ensures exists g :: g in cands && WithinRadius(p, g, distance) && results[i] == ToItem(p, g, distance)
    {
      assert results[i] in multiset(m);
      var j :| 0 <= j < |m| && m[j] == results[i];
      var g := gs[j];
      InRadiusMembers(p, cands, distance, g);
      Round2Monotone(distance(p.lat, p.long, g.lat, g.long), p.radius as real);
      Round2Whole(p.radius);
    }
  }

  /** No candidate within the radius is left out. */
  lemma {:induction false} SearchResultsComplete(p: NearbyRequest, cands: seq<GedungRow>, distance: Distance, g: GedungRow)
    requires ValidNearby(p)
    requires g in cands && WithinRadius(p, g, distance)
    ensures ToItem(p, g, distance) in SearchNearby(p, cands, distance).value.results
  {
    var m := Matches(p, cands, distance);
    var gs := InRadius(p, cands, distance);
    InRadiusMembers(p, cands, distance, g);
    var j :| 0 <= j < |gs| && gs[j] == g;
    assert m[j] == ToItem(p, g, distance);
    StableSort.SortPermutation(m, DistanceOf);
    assert ToItem(p, g, distance) in multiset(StableSort.Sort(m, DistanceOf));
  }

  /** The entries are exactly those built for the candidates within the
      radius, none dropped or repeated, and they are as many as those
      candidates. */
  lemma {:induction false} SearchResultsPermutation(p: NearbyRequest, cands: seq<GedungRow>, distance: Distance)
    requires ValidNearby(p)
    ensures var results := SearchNearby(p, cands, distance).value.results;
      && multiset(results) == multiset(Matches(p, cands, distance))
      && |results| == |InRadius(p, cands, distance)|
  {
    StableSort.SortPermutation(Matches(p, cands, distance), DistanceOf);
  }

  /** The entries are ordered by rounded distance, and entries with the same
      rounded distance keep the order of their candidates. */
  lemma {:induction false} SearchResultsOrdered(p: NearbyRequest, cands: seq<GedungRow>, distance: Distance, k: real)
    requires ValidNearby(p)
    ensures var results := SearchNearby(p, cands, distance).value.results;
      && StableSort.SortedBy(results, DistanceOf)
      && StableSort.WithKey(results, DistanceOf, k) == StableSort.WithKey(Matches(p, cands, distance), DistanceOf, k)
  {
    StableSort.SortSorted(Matches(p, cands, distance), DistanceOf);
    StableSort.SortStable(Matches(p, cands, distance), DistanceOf, k);
  }

  /** A valid request always succeeds, `count` is the number of entries and
      the radius and the center are echoed; with no candidate within the
      radius the answer is a success with no entries. */
  lemma {:induction false} SearchResponseEchoes(p: NearbyRequest, cands: seq<GedungRow>, distance: Distance)
    requires ValidNearby(p)
    ensures var r := SearchNearby(p, cands, distance);
      && r.Success? && r.value.success
      && r.value.count == |r.value.results|
      && r.value.radius == p.radius && r.value.centerLat == p.lat && r.value.centerLong == p.long
    ensures (forall g :: g in cands ==> !WithinRadius(p, g, distance)) ==>
      SearchNearby(p, cands, distance) == Success(NearbyResponse(true, 0, p.radius, p.lat, p.long, []))
  {
    var gs := InRadius(p, cands, distance);
    if forall g :: g in cands ==> !WithinRadius(p, g, distance) {
      if gs != [] {
        InRadiusMembers(p, cands, distance, gs[0]);
      }
      assert Matches(p, cands, distance) == [];
    }
  }

  // ---------------------------------------------------------------------
  // Detail lookups
  // ---------------------------------------------------------------------

  /** The 404 body: the error schema's `success` defaults to false, so both
      handlers answer the same body. */
  datatype ErrorBody = ErrorBody(success: bool, error: string)

  const NotFoundBody := ErrorBody(false, "not found")

  datatype Detail<T> = Found(body: T) | NotFound(error: ErrorBody)

  datatype UnitData = UnitData(id: nat, uuid: string, lantai: nat, unitNumber: string,
                               deskripsi: string, alasanBlacklist: Option<string>,
                               images: seq<string>)

  datatype GedungDetail = GedungDetail(id: nat, uuid: string, namaGedung: Option<string>,
                                       lat: real, long: real, alamat: string, totalUnits: nat,
                                       primaryImage: Option<string>, units: seq<UnitData>)

  /** All the image URLs, in order. */
  function ImageUrls(images: seq<ImageRef>): seq<string> {
    seq(|images|, i requires 0 <= i < |images| => images[i].url)
  }

  function ToUnitData(u: UnitRow): UnitData {
    UnitData(u.id, u.uuid, u.lantai, u.unitNumber, u.deskripsi, u.alasanBlacklist, ImageUrls(u.images))
  }

  function UnitsData(units: seq<UnitRow>): seq<UnitData> {
    seq(|units|, i requires 0 <= i < |units| => ToUnitData(units[i]))
  }

  function GedungDetailOf(g: GedungRow): GedungDetail {
    GedungDetail(g.id, g.uuid, g.namaGedung, g.lat, g.long, g.alamat, |g.units|,
                 FirstPrimary(g.images), UnitsData(g.units))
  }

  /** `get_gedung_detail` as a function: 404 for a malformed UUID or a
      missing building, the building with its units otherwise. */
  function GedungDetailFor(key: string, parse: ParseUuid, gedungs: map<string, GedungRow>)
    : (r: Detail<GedungDetail>)
    ensures r.NotFound? <==> parse(key).None? || parse(key).value !in gedungs
    ensures r.NotFound? ==> r.error == NotFoundBody
    ensures r.Found? ==> r.body.uuid == gedungs[parse(key).value].uuid
  {
    match parse(key)
    case None => NotFound(NotFoundBody)
    case Some(u) => if u in gedungs then Found(GedungDetailOf(gedungs[u])) else NotFound(NotFoundBody)
  }

  /** The handler, with its loop over the images and its loop that appends
      one entry per unit. */
  method GetGedungDetail(key: string, parse: ParseUuid, gedungs: map<string, GedungRow>)
    returns (r: Detail<GedungDetail>)
    ensures r == GedungDetailFor(key, parse, gedungs)
  {
    var u := parse(key);
    if u.None? || u.value !in gedungs {
      return NotFound(NotFoundBody);
    }
    var g := gedungs[u.value];
    var primary := PickPrimaryImage(g.images);
    var unitsData: seq<UnitData> := [];
    var i := 0;
    while i < |g.units|
      invariant 0 <= i <= |g.units|
      invariant unitsData == UnitsData(g.units[..i])
    {
      unitsData := unitsData + [ToUnitData(g.units[i])];
      i := i + 1;
    }
    assert g.units[..i] == g.units;
    r := Found(GedungDetail(g.id, g.uuid, g.namaGedung, g.lat, g.long, g.alamat, |g.units|,
                            primary, unitsData));
  }

  /** A unit together with the name of its building. */
  datatype UnitEntry = UnitEntry(unit: UnitRow, gedungNama: Option<string>)

  datatype UnitDetail = UnitDetail(id: nat, uuid: string, gedungNama: Option<string>, lantai: nat,
                                   unitNumber: string, deskripsi: string, listingType: string,
                                   alasanBlacklist: Option<string>,
                                   pemilik: Option<string>, agen: Option<string>,
                                   images: seq<string>)

  /** How the unit detail shows an owner or an agent: None when absent,
      "nama (julukan)" when the nickname is truthy, the name otherwise. */
  function FormatPerson(p: Option<Models.Person>): (r: Option<string>)
    ensures r.None? <==> p.None?
    ensures r.Some? ==> p.value.nama <= r.value
  {
    match p
    case None => None
    case Some(person) =>
      if person.julukan.Some? && person.julukan.value != ""
      then Some(person.nama + " (" + person.julukan.value + ")")
      else Some(person.nama)
  }

  /** `get_unit_detail`: 404 for a malformed UUID or a missing unit, the unit
      with its formatted owner and agent otherwise. */
  function GetUnitDetail(key: string, parse: ParseUuid, units: map<string, UnitEntry>)
    : (r: Detail<UnitDetail>)
    ensures r.NotFound? <==> parse(key).None? || parse(key).value !in units
    ensures r.NotFound? ==> r.error == NotFoundBody
    ensures r.Found? ==>
      r.body.uuid == units[parse(key).value].unit.uuid && r.body.gedungNama == units[parse(key).value].gedungNama
  {
    match parse(key)
    case None => NotFound(NotFoundBody)
    case Some(u) =>
      if u !in units then NotFound(NotFoundBody)
      else
        var e := units[u];
        Found(UnitDetail(e.unit.id, e.unit.uuid, e.gedungNama, e.unit.lantai, e.unit.unitNumber,
                         e.unit.deskripsi, e.unit.listingType, e.unit.alasanBlacklist,
                         FormatPerson(e.unit.pemilik), FormatPerson(e.unit.agen),
                         ImageUrls(e.unit.images)))
  }

  /** The unit detail shows owners and agents exactly as their own `__str__`
      does. */
  lemma {:induction false} FormatPersonIsLabel(p: Option<Models.Person>)
    ensures p.None? ==> FormatPerson(p).None?
    ensures p.Some? ==> FormatPerson(p) == Some(Models.PersonLabel(p.value))
  {
  }

  /** Both lookups answer 404 with the same body exactly when the key is not
      a UUID or names no row, and never answer 200 then. */
  lemma {:induction false} DetailNotFound(key: string, parse: ParseUuid, gedungs: map<string, GedungRow>,
                       units: map<string, UnitEntry>)
    ensures GedungDetailFor(key, parse, gedungs).NotFound? <==> parse(key).None? || parse(key).value !in gedungs
    ensures GetUnitDetail(key, parse, units).NotFound? <==> parse(key).None? || parse(key).value !in units
    ensures GedungDetailFor(key, parse, gedungs).NotFound? ==> GedungDetailFor(key, parse, gedungs).error == NotFoundBody
    ensures GetUnitDetail(key, parse, units).NotFound? ==> GetUnitDetail(key, parse, units).error == NotFoundBody
  {
  }

  /** A found building's detail describes that building: its own fields, a
      unit count equal to the units listed, one entry per unit in query order
      with that unit's fields and all of its image URLs in order, and the
      first primary image. */
  lemma {:induction false} GedungDetailDescribesRow(key: string, parse: ParseUuid, gedungs: map<string, GedungRow>)
    requires parse(key).Some? && parse(key).value in gedungs
    ensures var g, d := gedungs[parse(key).value], GedungDetailFor(key, parse, gedungs);
      && d.Found?
      && d.body.id == g.id && d.body.uuid == g.uuid && d.body.namaGedung == g.namaGedung
      && d.body.lat == g.lat && d.body.long == g.long && d.body.alamat == g.alamat
      && d.body.totalUnits == |d.body.units| == |g.units|
      && (forall i :: 0 <= i < |g.units| ==>
            && d.body.units[i].id == g.units[i].id && d.body.units[i].uuid == g.units[i].uuid
            && d.body.units[i].lantai == g.units[i].lantai
            && d.body.units[i].unitNumber == g.units[i].unitNumber
            && d.body.units[i].deskripsi == g.units[i].deskripsi
            && d.body.units[i].alasanBlacklist == g.units[i].alasanBlacklist
            && d.body.units[i].images == ImageUrls(g.units[i].images))
      && d.body.primaryImage == FirstPrimary(g.images)
  {
  }

  /** A found unit's detail describes that unit: its own fields, the name of
      its building, its owner and agent as their labels show them, and all of
      its image URLs in order. */
  lemma {:induction false} UnitDetailDescribesRow(key: string, parse: ParseUuid, units: map<string, UnitEntry>)
    requires parse(key).Some? && parse(key).value in units
    ensures var e, d := units[parse(key).value], GetUnitDetail(key, parse, units);
      && d.Found?
      && d.body.id == e.unit.id && d.body.uuid == e.unit.uuid && d.body.gedungNama == e.gedungNama
      && d.body.lantai == e.unit.lantai && d.body.unitNumber == e.unit.unitNumber
      && d.body.deskripsi == e.unit.deskripsi && d.body.listingType == e.unit.listingType
      && d.body.alasanBlacklist == e.unit.alasanBlacklist
      && (e.unit.pemilik.None? ==> d.body.pemilik.None?)
      && (e.unit.pemilik.Some? ==> d.body.pemilik == Some(Models.PersonLabel(e.unit.pemilik.value)))
      && (e.unit.agen.None? ==> d.body.agen.None?)
      && (e.unit.agen.Some? ==> d.body.agen == Some(Models.PersonLabel(e.unit.agen.value)))
      && |d.body.images| == |e.unit.images|
      && forall i :: 0 <= i < |e.unit.images| ==> d.body.images[i] == e.unit.images[i].url
  {
    var e := units[parse(key).value];
    FormatPersonIsLabel(e.unit.pemilik);
    FormatPersonIsLabel(e.unit.agen);
  }
}
