/** `image_upload_path`: where an uploaded image is stored, composed from
    the owner of the image and a sanitised file name. The lookups of the
    owner rows are maps from primary key to row, and `slugify` is an input. */
module UploadPath {
  import opened Text

  // ---------------------------------------------------------------------
  // File names, as `pathlib` splits them
  // ---------------------------------------------------------------------

  /** Index of the last `c` in `s`, -1 when there is none (`str.rfind`). */
  function RFind(s: string, c: char): (r: int)
    ensures -1 <= r < |s|
    ensures r >= 0 ==> s[r] == c
    ensures forall i :: r < i < |s| ==> s[i] != c
  {
    if s == [] then -1
    else if s[|s| - 1] == c then |s| - 1
    else RFind(s[..|s| - 1], c)
  }

  /** The last component of a slash-separated path. */
  function Name(path: string): (r: string)
    ensures forall i :: 0 <= i < |r| ==> r[i] != '/'
  {
    path[RFind(path, '/') + 1..]
  }

  /** The name has a suffix when its last dot is neither its first character
      nor its last one. */
  predicate HasSuffix(name: string) {
    0 < RFind(name, '.') < |name| - 1
  }

  /** `Path.suffix`: from the last dot on, or empty. */
  function Suffix(path: string): string {
    var name := Name(path);
    if HasSuffix(name) then name[RFind(name, '.')..] else ""
  }

  /** `Path.stem`: up to the last dot, or the whole name. */
  function Stem(path: string): string {
    var name := Name(path);
    if HasSuffix(name) then name[..RFind(name, '.')] else name
  }

  /** The stem and the suffix put back together give the name; a suffix is
      a dot with at least one character after it and no other dot, and the
      stem of a name with a suffix is not empty. */
  lemma {:induction false} StemSuffix(path: string)
    ensures Stem(path) + Suffix(path) == Name(path)
    ensures Suffix(path) == "" || (|Suffix(path)| >= 2 && Suffix(path)[0] == '.')
    ensures forall i :: 1 <= i < |Suffix(path)| ==> Suffix(path)[i] != '.'
    ensures Suffix(path) != "" ==> Stem(path) != ""
  {
    var name := Name(path);
    if HasSuffix(name) {
      var i := RFind(name, '.');
      assert name[..i] + name[i..] == name;
    }
  }

  // ---------------------------------------------------------------------
  // The upload path
  // ---------------------------------------------------------------------

  /** The slugified stem, "unnamed" when that is empty, then the lower-cased
      suffix. */
  function SafeFilename(filename: string, slugify: string -> string): (r: string)
    ensures |r| == (if slugify(Stem(filename)) == "" then 7 else |slugify(Stem(filename))|) + |Suffix(filename)|
    ensures r[|r| - |Suffix(filename)|..] == Lower(Suffix(filename))
    ensures slugify(Stem(filename)) == "" ==> r[..7] == "unnamed"
    ensures slugify(Stem(filename)) != "" ==> r[..|slugify(Stem(filename))|] == slugify(Stem(filename))
  {
    var slug := slugify(Stem(filename));
    LowerProperties(Suffix(filename));
    (if slug == "" then "unnamed" else slug) + Lower(Suffix(filename))
  }

  /** What the unit lookup gives: the uuid of the unit's building and the
      unit number. */
  datatype UnitRow = UnitRow(gedungUuid: string, unitNumber: string)

  /** The owner as the image names it: the model of its content type and
      its primary key. */
  datatype ImageOwner = ImageOwner(model: string, objectId: int)

  /** The directory an image goes to: the building's for a building, the
      building's and the slugified unit number for a unit, "temp/" for a
      building or unit whose row is missing, "misc/" for any other owner.
      This is the flat reading of the nested branches of
      `ImageUploadPath`, one case per outcome, that its contract is stated
      against. */
  function Directory(owner: ImageOwner, gedungs: map<int, string>, units: map<int, UnitRow>,
                     slugify: string -> string): string {
    if owner.model == "gedung" && owner.objectId in gedungs then "gedung_" + gedungs[owner.objectId] + "/"
    else if owner.model == "unit" && owner.objectId in units then
      "gedung_" + units[owner.objectId].gedungUuid + "/" + slugify(units[owner.objectId].unitNumber) + "/"
    else if owner.model == "gedung" || owner.model == "unit" then "temp/"
    else "misc/"
  }

  /** `image_upload_path`: "images/", the directory of the owner, and the
      safe file name. */
  function ImageUploadPath(owner: ImageOwner, gedungs: map<int, string>, units: map<int, UnitRow>,
                           filename: string, slugify: string -> string): (p: string)
    ensures p == "images/" + Directory(owner, gedungs, units, slugify) + SafeFilename(filename, slugify)
  {
    var safe := SafeFilename(filename, slugify);
    var dir :=
      if owner.model == "gedung" then
        if owner.objectId in gedungs then "gedung_" + gedungs[owner.objectId] + "/"
        else "temp/"
      else if owner.model == "unit" then
        if owner.objectId in units then
          var unit := units[owner.objectId];
          "gedung_" + unit.gedungUuid + "/" + slugify(unit.unitNumber) + "/"
        else "temp/"
      else "misc/";
    "images/" + dir + safe
  }

  lemma {:induction false} PathShape(dir: string, safe: string)
    ensures var p := "images/" + dir + safe;
      |p| >= 7 + |safe| && p[..7] == "images/" && p[|p| - |safe|..] == safe
  {
  }

  /** Every path starts with "images/" and ends with the safe file name. */
  lemma {:induction false} UploadPathBounds(owner: ImageOwner, gedungs: map<int, string>, units: map<int, UnitRow>,
                                            filename: string, slugify: string -> string)
    ensures var p := ImageUploadPath(owner, gedungs, units, filename, slugify);
      var safe := SafeFilename(filename, slugify);
      |p| >= 7 + |safe| && p[..7] == "images/" && p[|p| - |safe|..] == safe
  {
    PathShape(Directory(owner, gedungs, units, slugify), SafeFilename(filename, slugify));
  }

  /** Images of a unit and of its building share the building's directory:
      the unit's path goes one level deeper, named by the slugified unit
      number. */
  lemma {:induction false} UnitBesideGedung(unitId: int, gedungId: int, gedungs: map<int, string>, units: map<int, UnitRow>,
                                            filename: string, slugify: string -> string)
    requires unitId in units && gedungId in gedungs && units[unitId].gedungUuid == gedungs[gedungId]
    ensures var g := ImageUploadPath(ImageOwner("gedung", gedungId), gedungs, units, filename, slugify);
      var u := ImageUploadPath(ImageOwner("unit", unitId), gedungs, units, filename, slugify);
      var safe := SafeFilename(filename, slugify);
      var dir := g[..|g| - |safe|];
      && u == dir + slugify(units[unitId].unitNumber) + "/" + safe
  {
    var safe := SafeFilename(filename, slugify);
    var gdir := "gedung_" + gedungs[gedungId] + "/";
    var slug := slugify(units[unitId].unitNumber);
    assert Directory(ImageOwner("gedung", gedungId), gedungs, units, slugify) == gdir;
    assert Directory(ImageOwner("unit", unitId), gedungs, units, slugify) == gdir + slug + "/";
    BeforeSuffix("images/" + gdir, safe);
    Regroup("images/", gdir, slug + "/", safe);
  }

  lemma {:induction false} BeforeSuffix(pre: string, safe: string)
    ensures (pre + safe)[..|pre + safe| - |safe|] == pre
  {
  }

  lemma {:induction false} Regroup(a: string, b: string, c: string, d: string)
    ensures a + (b + c) + d == (a + b) + c + d
  {
  }

  /** The safe file name is never empty, and its suffix part has no
      upper-case ASCII letter. */
  lemma {:induction false} SafeFilenameShape(filename: string, slugify: string -> string)
    ensures var safe := SafeFilename(filename, slugify);
      && safe != ""
      && |safe| >= |Suffix(filename)|
      && forall i :: |safe| - |Suffix(filename)| <= i < |safe| ==> !('A' <= safe[i] <= 'Z')
  {
    LowerProperties(Suffix(filename));
  }
}
