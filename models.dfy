/** The data model of the directory: the display strings (`__str__`) of
    buildings (Gedung), units, owners (Pemilik) and agents (Agen), the image
    table whose `save` keeps at most one primary image per owner, the
    `primary_image` lookup and the two `unique_together` constraints. */
module Models {
  import opened Wrappers
  import opened Text

  // ---------------------------------------------------------------------
  // Display strings
  // ---------------------------------------------------------------------

  /** Python truthiness of an optional text: present and not empty. */
  predicate Truthy(s: Option<string>) {
    s.Some? && s.value != ""
  }

  /** An owner (Pemilik) or an agent (Agen): a name and an optional nickname. */
  datatype Person = Person(nama: string, julukan: Option<string>)

  /** `Pemilik.__str__` and `Agen.__str__`: "nama (julukan)" when the
      nickname is truthy, the bare name otherwise. */
  function PersonLabel(p: Person): string {
    if Truthy(p.julukan) then p.nama + " (" + p.julukan.value + ")" else p.nama
  }

  /** The person with a falsy nickname (None or "") written as None. */
  function Normalized(p: Person): Person {
    if Truthy(p.julukan) then p else p.(julukan := None)
  }

  /** Reads a label back: the name before " (" and the nickname up to the
      closing parenthesis, or the whole label as a name without nickname. */
  function ParsePersonLabel(text: string): Person {
    match IndexOf(text, '(')
    case None => Person(text, None)
    case Some(i) =>
      if 1 <= i && |text| >= i + 2 && text[|text| - 1] == ')'
      then Person(text[..i - 1], Some(text[i + 1..|text| - 1]))
      else Person(text, None)
  }

  /** The label determines the person whenever the name holds no opening
      parenthesis: reading it back gives the name and the truthy nickname. */
  lemma {:induction false} PersonLabelRoundTrip(p: Person)
    requires '(' !in p.nama
    ensures ParsePersonLabel(PersonLabel(p)) == Normalized(p)
  {
    var text := PersonLabel(p);
    if Truthy(p.julukan) {
      var n := |p.nama|;
      assert text[..n] == p.nama && text[n] == ' ' && text[n + 1] == '(';
      assert text[..n + 1] == p.nama + [' '];
      assert IndexOf(text, '(') == Some(n + 1);
      assert text[n + 2..|text| - 1] == p.julukan.value;
    } else {
      assert IndexOf(text, '(').None?;
    }
  }

  /** A building as `__str__` sees it: its primary key (None before the first
      save) and its optional name. */
  datatype Gedung = Gedung(id: Option<nat>, namaGedung: Option<string>)

  /** `Gedung.__str__`: the name when truthy, "Gedung #<id>" otherwise, where
      a missing id prints as "None". */
  function GedungLabel(g: Gedung): string {
    if Truthy(g.namaGedung) then g.namaGedung.value
    else "Gedung #" + (if g.id.Some? then NatToString(g.id.value) else "None")
  }

  /** A building's label is never empty, is its name when it has one, and
      otherwise carries the id, which reads back from the digits after
      "Gedung #". */
  lemma {:induction false} GedungLabelShape(g: Gedung)
    ensures GedungLabel(g) != ""
    ensures Truthy(g.namaGedung) ==> GedungLabel(g) == g.namaGedung.value
    ensures !Truthy(g.namaGedung) ==> GedungLabel(g)[..8] == "Gedung #"
    ensures !Truthy(g.namaGedung) && g.id.Some? ==>
              AllDigits(GedungLabel(g)[8..]) && DigitsValue(GedungLabel(g)[8..]) == g.id.value
  {
    if !Truthy(g.namaGedung) && g.id.Some? {
      var text := GedungLabel(g);
      assert text[8..] == NatToString(g.id.value);
      NatToStringRoundTrip(g.id.value);
    }
  }

  /** A unit as `__str__` sees it. */
  datatype UnitInfo = UnitInfo(gedung: Gedung, lantai: nat, unitNumber: string)

  /** `Unit.__str__`: "<gedung> - Lantai <lantai> - Unit <unit_number>". */
  function UnitLabel(u: UnitInfo): string {
    GedungLabel(u.gedung) + " - Lantai " + NatToString(u.lantai) + " - Unit " + u.unitNumber
  }

  /** A unit's label starts with its building's label and ends with its
      unit number, and the floor number reads back from the digits in
      between. */
  lemma {:induction false} UnitLabelShape(u: UnitInfo)
    ensures var text, g := UnitLabel(u), GedungLabel(u.gedung);
      && text[..|g|] == g
      && text[|text| - |u.unitNumber|..] == u.unitNumber
      && var floor := text[|g| + 10..|text| - |u.unitNumber| - 8];
         AllDigits(floor) && DigitsValue(floor) == u.lantai
  {
    var g, f := GedungLabel(u.gedung), NatToString(u.lantai);
    FiveParts(g, " - Lantai ", f, " - Unit ", u.unitNumber);
    NatToStringRoundTrip(u.lantai);
  }

  /** The outer and middle pieces of a text made of five pieces. */
  lemma {:induction false} FiveParts(a: string, b: string, c: string, d: string, e: string)
    ensures var t := a + b + c + d + e;
      && t[..|a|] == a
      && t[|t| - |e|..] == e
      && t[|a| + |b|..|t| - |e| - |d|] == c
  {
    var t := a + b + c + d + e;
    assert t == a + (b + c + d + e);
    assert t == (a + b + c + d) + e;
    assert t == (a + b) + c + (d + e);
  }

  // ---------------------------------------------------------------------
  // The image table
  // ---------------------------------------------------------------------

  /** What an image belongs to: a content type (the owning model's name,
      "gedung" or "unit") and that row's primary key. */
  datatype Owner = Owner(contentType: string, objectId: nat)

  /** A stored row of the image table. */
  datatype ImageRow = ImageRow(id: nat, owner: Owner, file: string, isPrimary: bool,
                               createdAt: int, updatedAt: int)

  /** An image instance as `save` receives it: `pk` is None for a new
      instance and `createdAt` is None until the instance has been saved
      once (every insert stamps it with the current time). */
  datatype Image = Image(pk: Option<nat>, owner: Owner, file: string, isPrimary: bool,
                         createdAt: Option<int>)

  predicate IsPrimaryOf(r: ImageRow, owner: Owner) {
    r.owner == owner && r.isPrimary
  }

  predicate UniqueIds(rows: seq<ImageRow>) {
    forall i, j :: 0 <= i < j < |rows| ==> rows[i].id != rows[j].id
  }

  predicate AtMostOnePrimary(rows: seq<ImageRow>) {
    forall i, j :: 0 <= i < j < |rows| && rows[i].isPrimary && rows[j].isPrimary ==>
      rows[i].owner != rows[j].owner
  }

  /** The table's invariant: ids are unique and below the next id to hand
      out, and no owner has two primary images. */
  predicate TableInvariant(rows: seq<ImageRow>, nextId: nat) {
    && UniqueIds(rows)
    && (forall k :: 0 <= k < |rows| ==> rows[k].id < nextId)
    && AtMostOnePrimary(rows)
  }

  /** The bulk `update(is_primary=False)` on the owner's primary images. */
  function ClearPrimary(rows: seq<ImageRow>, owner: Owner): seq<ImageRow> {
    seq(|rows|, k requires 0 <= k < |rows| => Cleared(rows[k], owner))
  }

  /** One row after the bulk update: unflagged when it was a primary image
      of `owner`, unchanged otherwise. */
  function Cleared(row: ImageRow, owner: Owner): ImageRow {
    if IsPrimaryOf(row, owner) then row.(isPrimary := false) else row
  }

  /** Position of the row with primary key `id`, if there is one. */
  function FindId(rows: seq<ImageRow>, id: nat): (r: Option<nat>)
    ensures r.Some? ==> r.value < |rows| && rows[r.value].id == id
    ensures r.None? ==> forall k :: 0 <= k < |rows| ==> rows[k].id != id
  {
    if rows == [] then None
    else if rows[|rows| - 1].id == id then Some(|rows| - 1)
    else FindId(rows[..|rows| - 1], id)
  }

  /** The row that `save` writes for `img` under key `id`. `updated_at`
      (`auto_now`) is the time of the save on every write; `created_at`
      (`auto_now_add`) is the time of the save on every insert, and the
      instance's own value when an existing row is updated. */
  function StoredRow(img: Image, id: nat, now: int, inserted: bool): ImageRow {
    var created := if inserted then now else img.createdAt.GetOr(now);
    ImageRow(id, img.owner, img.file, img.isPrimary, created, now)
  }

  /** Whether `save` inserts: the instance has no key, or the UPDATE by its
      key matches no row. */
  predicate Inserts(rows: seq<ImageRow>, img: Image, nextId: nat) {
    FindId(rows, SavedId(img, nextId)).None?
  }

  /** The row `save` writes into `rows`. */
  function SavedRow(rows: seq<ImageRow>, img: Image, nextId: nat, now: int): ImageRow {
    StoredRow(img, SavedId(img, nextId), now, Inserts(rows, img, nextId))
  }

  /** The primary key the saved row gets. */
  function SavedId(img: Image, nextId: nat): nat {
    img.pk.GetOr(nextId)
  }

  /** The table after `Image.save`: when the image is primary, every primary
      image of the same owner is cleared first; then the row is written in
      place when its key exists and appended otherwise. */
  function SaveRows(rows: seq<ImageRow>, img: Image, nextId: nat, now: int): (r: seq<ImageRow>)
    ensures SavedRow(rows, img, nextId, now) in r
    ensures |rows| <= |r| <= |rows| + 1
  {
    var cleared := if img.isPrimary then ClearPrimary(rows, img.owner) else rows;
    var row := SavedRow(rows, img, nextId, now);
    match FindId(cleared, row.id)
    case Some(k) => assert cleared[k := row][k] == row; cleared[k := row]
    case None => assert (cleared + [row])[|cleared|] == row; cleared + [row]
  }

  function NextIdAfter(img: Image, nextId: nat): nat {
    var id := SavedId(img, nextId);
    if id + 1 > nextId then id + 1 else nextId
  }

  /** Where the saved row lands: the position of its key, or the end. */
  function SavedIndex(rows: seq<ImageRow>, img: Image, nextId: nat): nat {
    match FindId(rows, SavedId(img, nextId))
    case Some(k) => k
    case None => |rows|
  }

  lemma {:induction false} FindIdClear(rows: seq<ImageRow>, owner: Owner, id: nat)
    ensures FindId(ClearPrimary(rows, owner), id) == FindId(rows, id)
    decreases |rows|
  {
    if rows != [] {
      assert ClearPrimary(rows, owner)[..|rows| - 1] == ClearPrimary(rows[..|rows| - 1], owner);
      FindIdClear(rows[..|rows| - 1], owner, id);
    }
  }

  /** The saved row is at `SavedIndex`, and every other row keeps its
      position and all of its fields except that a primary image of the
      saved image's owner loses its flag when the saved image is primary. */
  lemma {:induction false} SaveRowsShape(rows: seq<ImageRow>, img: Image, nextId: nat, now: int)
    ensures var after, k := SaveRows(rows, img, nextId, now), SavedIndex(rows, img, nextId);
      && k <= |rows|
      && |after| == (if k < |rows| then |rows| else |rows| + 1)
      && after[k] == SavedRow(rows, img, nextId, now)
      && forall j :: 0 <= j < |rows| && j != k ==>
           after[j] == (if img.isPrimary && IsPrimaryOf(rows[j], img.owner)
                        then rows[j].(isPrimary := false) else rows[j])
  {
    FindIdClear(rows, img.owner, SavedId(img, nextId));
  }

  /** The written row carries the instance's owner, file and flag under its
      saved key; `updated_at` is the save time; `created_at` is the save time
      on an insert and the instance's value when an existing row is
      updated. */
  lemma {:induction false} SaveStampsTimes(rows: seq<ImageRow>, img: Image, nextId: nat, now: int)
    ensures var after, k := SaveRows(rows, img, nextId, now), SavedIndex(rows, img, nextId);
      && k < |after|
      && after[k].id == SavedId(img, nextId)
      && after[k].owner == img.owner && after[k].file == img.file
      && after[k].isPrimary == img.isPrimary
      && after[k].updatedAt == now
      && (k == |rows| ==> after[k].createdAt == now)
      && (k < |rows| && img.createdAt.Some? ==> after[k].createdAt == img.createdAt.value)
  {
    SaveRowsShape(rows, img, nextId, now);
  }

  /** After saving a primary image it is the only primary image of its
      owner. */
  lemma {:induction false} SavePrimaryIsSole(rows: seq<ImageRow>, img: Image, nextId: nat, now: int)
    requires img.isPrimary
    ensures var after := SaveRows(rows, img, nextId, now);
      forall j :: 0 <= j < |after| && IsPrimaryOf(after[j], img.owner) ==>
        after[j] == SavedRow(rows, img, nextId, now)
  {
    SaveRowsShape(rows, img, nextId, now);
  }

  /** Saving never touches an image of another owner. */
  lemma {:induction false} SaveKeepsOtherOwners(rows: seq<ImageRow>, img: Image, nextId: nat, now: int)
    ensures var after, k := SaveRows(rows, img, nextId, now), SavedIndex(rows, img, nextId);
      forall j :: 0 <= j < |rows| && j != k && rows[j].owner != img.owner ==> after[j] == rows[j]
  {
    SaveRowsShape(rows, img, nextId, now);
  }

  /** Saving an image that is not primary changes no other row. */
  lemma {:induction false} SaveNonPrimaryKeepsOthers(rows: seq<ImageRow>, img: Image, nextId: nat, now: int)
    requires !img.isPrimary
    ensures var after, k := SaveRows(rows, img, nextId, now), SavedIndex(rows, img, nextId);
      forall j :: 0 <= j < |rows| && j != k ==> after[j] == rows[j]
  {
    SaveRowsShape(rows, img, nextId, now);
  }

  /** On the other rows only `is_primary` changes, and only from true to
      false. */
  lemma {:induction false} SaveOnlyClearsFlags(rows: seq<ImageRow>, img: Image, nextId: nat, now: int)
    ensures var after, k := SaveRows(rows, img, nextId, now), SavedIndex(rows, img, nextId);
      forall j :: 0 <= j < |rows| && j != k && after[j] != rows[j] ==>
        rows[j].isPrimary && after[j] == rows[j].(isPrimary := false)
  {
    SaveRowsShape(rows, img, nextId, now);
  }

  lemma {:induction false} SaveKeepsIdBound(rows: seq<ImageRow>, img: Image, nextId: nat, now: int)
    requires forall k :: 0 <= k < |rows| ==> rows[k].id < nextId
    ensures forall j :: 0 <= j < |SaveRows(rows, img, nextId, now)| ==>
              SaveRows(rows, img, nextId, now)[j].id < NextIdAfter(img, nextId)
  {
    SaveRowsShape(rows, img, nextId, now);
  }

  lemma {:induction false} SaveKeepsUniqueIds(rows: seq<ImageRow>, img: Image, nextId: nat, now: int)
    requires UniqueIds(rows)
    ensures UniqueIds(SaveRows(rows, img, nextId, now))
  {
    SaveRowsShape(rows, img, nextId, now);
    var after, k := SaveRows(rows, img, nextId, now), SavedIndex(rows, img, nextId);
    var id := SavedId(img, nextId);
    assert k == |rows| ==> forall j :: 0 <= j < |rows| ==> rows[j].id != id;
    forall i, j | 0 <= i < j < |after| ensures after[i].id != after[j].id {
      if i != k && j != k {
        assert after[i].id == rows[i].id && after[j].id == rows[j].id;
      }
    }
  }

  lemma {:induction false} SaveKeepsOnePrimary(rows: seq<ImageRow>, img: Image, nextId: nat, now: int)
    requires AtMostOnePrimary(rows)
    ensures AtMostOnePrimary(SaveRows(rows, img, nextId, now))
  {
    SaveRowsShape(rows, img, nextId, now);
    var after, k := SaveRows(rows, img, nextId, now), SavedIndex(rows, img, nextId);
    forall i, j | 0 <= i < j < |after| && after[i].isPrimary && after[j].isPrimary
      ensures after[i].owner != after[j].owner
    {
      if i != k && j != k {
        assert rows[i].isPrimary && rows[j].isPrimary;
      }
    }
  }

  /** `save` keeps the table's invariant. */
  lemma {:induction false} SaveKeepsInvariant(rows: seq<ImageRow>, img: Image, nextId: nat, now: int)
    requires TableInvariant(rows, nextId)
    ensures TableInvariant(SaveRows(rows, img, nextId, now), NextIdAfter(img, nextId))
  {
    SaveKeepsUniqueIds(rows, img, nextId, now);
    SaveKeepsIdBound(rows, img, nextId, now);
    SaveKeepsOnePrimary(rows, img, nextId, now);
  }

  /** `Gedung.primary_image` and `Unit.primary_image`: among the owner's
      primary images, the first under the ordering newest `created_at` first
      (the earliest row among equally new ones), or None. */
  function PrimaryImage(rows: seq<ImageRow>, owner: Owner): (r: Option<ImageRow>)
    ensures r.None? <==> forall k :: 0 <= k < |rows| ==> !IsPrimaryOf(rows[k], owner)
    ensures r.Some? ==> r.value in rows && IsPrimaryOf(r.value, owner)
    ensures r.Some? ==> forall k :: 0 <= k < |rows| && IsPrimaryOf(rows[k], owner) ==>
                          rows[k].createdAt <= r.value.createdAt
  {
    if rows == [] then None
    else
      var rest := PrimaryImage(rows[1..], owner);
      assert forall k :: 1 <= k < |rows| ==> rows[k] == rows[1..][k - 1];
      if IsPrimaryOf(rows[0], owner) && (rest.None? || rest.value.createdAt <= rows[0].createdAt)
      then Some(rows[0])
      else rest
  }

  /** With at most one primary per owner, `primary_image` is that one. */
  lemma {:induction false} PrimaryImageIsTheOne(rows: seq<ImageRow>, owner: Owner, k: nat)
    requires AtMostOnePrimary(rows)
    requires k < |rows| && IsPrimaryOf(rows[k], owner)
    ensures PrimaryImage(rows, owner) == Some(rows[k])
  {
    var r := PrimaryImage(rows, owner);
    var j :| 0 <= j < |rows| && rows[j] == r.value;
    assert j == k;
  }

  /** Right after a primary image is saved, its owner's `primary_image` is
      the row just written. */
  lemma {:induction false} PrimaryImageAfterSave(rows: seq<ImageRow>, img: Image, nextId: nat, now: int)
    requires TableInvariant(rows, nextId)
    requires img.isPrimary
    ensures PrimaryImage(SaveRows(rows, img, nextId, now), img.owner)
              == Some(SavedRow(rows, img, nextId, now))
  {
    SaveRowsShape(rows, img, nextId, now);
    SaveKeepsInvariant(rows, img, nextId, now);
    PrimaryImageIsTheOne(SaveRows(rows, img, nextId, now), img.owner, SavedIndex(rows, img, nextId));
  }

  /** The image table with its in-place `save`. */
  class ImageTable {
    var rows: seq<ImageRow>
    var nextId: nat

    ghost predicate Valid()
      reads this
    {
      TableInvariant(rows, nextId)
    }

    constructor ()
      ensures Valid() && rows == [] && nextId == 1
    {
      rows := [];
      nextId := 1;
    }

    /** `Image.save`: clears the owner's primary flags when the image is
        primary, then writes the row; returns the row written. */
    method Save(img: Image, now: int) returns (saved: ImageRow)
      requires Valid()
      modifies this
      ensures Valid()
      ensures rows == SaveRows(old(rows), img, old(nextId), now)
      ensures nextId == NextIdAfter(img, old(nextId))
      ensures saved == SavedRow(old(rows), img, old(nextId), now)
    {
      ghost var before, next0 := rows, nextId;
      if img.isPrimary {
        var k := 0;
        while k < |rows|
          invariant 0 <= k <= |rows| == |before| && nextId == next0
          invariant forall i :: 0 <= i < k ==> rows[i] == Cleared(before[i], img.owner)
          invariant forall i :: k <= i < |rows| ==> rows[i] == before[i]
        {
          if IsPrimaryOf(rows[k], img.owner) {
            rows := rows[k := rows[k].(isPrimary := false)];
          }
          k := k + 1;
        }
        assert forall i :: 0 <= i < |rows| ==> rows[i] == ClearPrimary(before, img.owner)[i];
        assert rows == ClearPrimary(before, img.owner);
      }
      var id := SavedId(img, nextId);
      var at := FindId(rows, id);
      FindIdClear(before, img.owner, id);
      saved := StoredRow(img, id, now, at.None?);
      if at.Some? {
        rows := rows[at.value := saved];
      } else {
        rows := rows + [saved];
      }
      nextId := NextIdAfter(img, nextId);
      SaveKeepsInvariant(before, img, next0, now);
    }
  }

  // ---------------------------------------------------------------------
  // unique_together
  // ---------------------------------------------------------------------

  /** Whether no two rows of `table` share a key. */
  predicate UniqueKeys<R, K(==)>(table: seq<R>, keyOf: R -> K) {
    forall i, j :: 0 <= i < j < |table| ==> keyOf(table[i]) != keyOf(table[j])
  }

  /** An insert under a uniqueness constraint: refused when some row has the
      same key, the row appended otherwise. */
  function InsertUnique<R, K(==)>(table: seq<R>, keyOf: R -> K, row: R): (r: Result<seq<R>, string>)
    ensures r.Success? <==> forall i :: 0 <= i < |table| ==> keyOf(table[i]) != keyOf(row)
    ensures r.Success? ==> r.value == table + [row]
  {
    if exists i :: 0 <= i < |table| && keyOf(table[i]) == keyOf(row)
    then Failure("UNIQUE constraint failed")
    else Success(table + [row])
  }

  /** An accepted insert keeps the keys unique. */
  lemma {:induction false} InsertKeepsUnique<R, K>(table: seq<R>, keyOf: R -> K, row: R)
    requires UniqueKeys(table, keyOf)
    requires forall i :: 0 <= i < |table| ==> keyOf(table[i]) != keyOf(row)
    ensures UniqueKeys(table + [row], keyOf)
  {
    var t := table + [row];
    forall i, j | 0 <= i < j < |t| ensures keyOf(t[i]) != keyOf(t[j]) {
      if j == |table| { assert t[i] == table[i]; }
    }
  }

  /** A unit row: its building, its unit number and its floor. */
  datatype UnitRecord = UnitRecord(gedungId: nat, unitNumber: string, lantai: nat)

  function UnitKey(u: UnitRecord): (nat, string) {
    (u.gedungId, u.unitNumber)
  }

  /** Inserting a unit under `unique_together = (gedung, unit_number)`. */
  function InsertUnit(units: seq<UnitRecord>, u: UnitRecord): (r: Result<seq<UnitRecord>, string>)
    ensures r.Success? <==> forall i :: 0 <= i < |units| ==>
              units[i].gedungId != u.gedungId || units[i].unitNumber != u.unitNumber
    ensures r.Success? && UniqueKeys(units, UnitKey) ==> UniqueKeys(r.value, UnitKey)
  {
    var r := InsertUnique(units, UnitKey, u);
    assert r.Success? && UniqueKeys(units, UnitKey) ==> UniqueKeys(r.value, UnitKey) by {
      if r.Success? && UniqueKeys(units, UnitKey) {
        InsertKeepsUnique(units, UnitKey, u);
      }
    }
    r
  }

  /** A location row: its district and its name. */
  datatype LokasiRecord = LokasiRecord(distrikId: nat, nama: string)

  function LokasiKey(l: LokasiRecord): (nat, string) {
    (l.distrikId, l.nama)
  }

  /** Inserting a location under `unique_together = (distrik, nama)`. */
  function InsertLokasi(lokasis: seq<LokasiRecord>, l: LokasiRecord): (r: Result<seq<LokasiRecord>, string>)
    ensures r.Success? <==> forall i :: 0 <= i < |lokasis| ==>
              lokasis[i].distrikId != l.distrikId || lokasis[i].nama != l.nama
    ensures r.Success? && UniqueKeys(lokasis, LokasiKey) ==> UniqueKeys(r.value, LokasiKey)
  {
    var r := InsertUnique(lokasis, LokasiKey, l);
    assert r.Success? && UniqueKeys(lokasis, LokasiKey) ==> UniqueKeys(r.value, LokasiKey) by {
      if r.Success? && UniqueKeys(lokasis, LokasiKey) {
        InsertKeepsUnique(lokasis, LokasiKey, l);
      }
    }
    r
  }
}
