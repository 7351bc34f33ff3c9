/** The upload validators: a blacklist and a length limit on file names, and
    the size, dimension and format checks on an uploaded image. Decoding the
    image is an input: None when the decoder refuses the file, otherwise its
    size and format name. */
module Validators {
  import opened Wrappers
  import opened Text

  // ---------------------------------------------------------------------
  // validate_filename
  // ---------------------------------------------------------------------

  /** The pieces a file name must not contain: a parent-directory step, both
      path separators, NUL, line feed and carriage return. */
  const Dangerous: seq<string> := ["..", "/", "\\", "\0", "\n", "\r"]
  const MaxNameLength: nat := 255
  const DangerousMessage := "Nama file mengandung karakter berbahaya"
  const LongNameMessage := "Nama file terlalu panjang (max 255 karakter)"

  /** Some blacklisted piece occurs in `name`; the loop over the list raises
      the same message at whichever it finds first. */
  predicate HasDangerous(name: string) {
    exists k :: 0 <= k < |Dangerous| && Contains(name, Dangerous[k])
  }

  predicate IsForbiddenChar(c: char) {
    c == '/' || c == '\\' || c == '\0' || c == '\n' || c == '\r'
  }

  /** The reference reading of the blacklist, character by character: no
      forbidden character and no two dots in a row. */
  predicate SafeName(name: string) {
    && (forall i :: 0 <= i < |name| ==> !IsForbiddenChar(name[i]))
    && (forall i :: 0 <= i < |name| - 1 ==> !(name[i] == '.' && name[i + 1] == '.'))
  }

  lemma {:induction false} ContainsChar(s: string, c: char)
    ensures Contains(s, [c]) <==> c in s
  {
    if c in s {
      var i :| 0 <= i < |s| && s[i] == c;
      assert OccursAt(s, [c], i);
    }
    if Contains(s, [c]) {
      var i :| OccursAt(s, [c], i);
      assert s[i..i + 1][0] == s[i];
    }
  }

  lemma {:induction false} ContainsDots(s: string)
    ensures Contains(s, "..") <==> exists i :: 0 <= i < |s| - 1 && s[i] == '.' && s[i + 1] == '.'
  {
    if i :| 0 <= i < |s| - 1 && s[i] == '.' && s[i + 1] == '.' {
      assert s[i..i + 2] == "..";
      assert OccursAt(s, "..", i);
    }
    if Contains(s, "..") {
      var i :| OccursAt(s, "..", i);
      assert s[i..i + 2][0] == s[i] && s[i..i + 2][1] == s[i + 1];
    }
  }

  lemma {:induction false} DangerousUnsafe(name: string)
    requires HasDangerous(name)
    ensures !SafeName(name)
  {
    var k :| 0 <= k < |Dangerous| && Contains(name, Dangerous[k]);
    if k == 0 {
      ContainsDots(name);
    } else {
      var c := Dangerous[k][0];
      assert Dangerous[k] == [c] && IsForbiddenChar(c);
      ContainsChar(name, c);
    }
  }

  lemma {:induction false} UnsafeDangerous(name: string)
    requires !SafeName(name)
    ensures HasDangerous(name)
  {
    if i :| 0 <= i < |name| && IsForbiddenChar(name[i]) {
      var c := name[i];
      var k := if c == '/' then 1 else if c == '\\' then 2 else if c == '\0' then 3 else if c == '\n' then 4 else 5;
      assert Dangerous[k] == [c];
      ContainsChar(name, c);
      assert Contains(name, Dangerous[k]);
    } else {
      ContainsDots(name);
      assert Contains(name, Dangerous[0]);
    }
  }

  /** The blacklist check refuses exactly the names that are not safe
      character by character. */
  lemma {:induction false} DangerousIff(name: string)
    ensures HasDangerous(name) <==> !SafeName(name)
  {
    if HasDangerous(name) {
      DangerousUnsafe(name);
    }
    if !SafeName(name) {
      UnsafeDangerous(name);
    }
  }

  /** `validate_filename`: the name unchanged, or the message of the first
      check that fails; the blacklist comes before the length limit, and a
      name of exactly 255 characters passes. */
  function ValidateFilename(name: string): (r: Result<string, string>)
    ensures r.Success? <==> SafeName(name) && |name| <= MaxNameLength
    ensures r.Success? ==> r.value == name
    ensures !SafeName(name) ==> r == Failure(DangerousMessage)
    ensures SafeName(name) && |name| > MaxNameLength ==> r == Failure(LongNameMessage)
  {
    DangerousIff(name);
    if HasDangerous(name) then Failure(DangerousMessage)
    else if |name| > MaxNameLength then Failure(LongNameMessage)
    else Success(name)
  }

  /** Validating an accepted name again accepts it again. */
  lemma {:induction false} ValidateFilenameIdempotent(name: string)
    requires ValidateFilename(name).Success?
    ensures ValidateFilename(ValidateFilename(name).value) == ValidateFilename(name)
  {
  }

  // ---------------------------------------------------------------------
  // validate_image_file
  // ---------------------------------------------------------------------

  /** What the decoder reports of a file it accepts. */
  datatype Decoded = Decoded(width: int, height: int, format: string)

  /** 5 MiB */
  const MaxSize: int := 5 * 1024 * 1024
  const MinSide: int := 100
  const MaxSide: int := 5000
  const AllowedFormats: seq<string> := ["JPEG", "PNG", "GIF", "WEBP"]

  /** The limit is printed in whole megabytes, 5. */
  const SizeMessage := "Ukuran file terlalu besar. Maksimal 5MB"
  const CorruptMessage := "File bukan gambar valid atau corrupt"
  const SmallMessage := "Gambar terlalu kecil. Minimal 100x100 pixels"
  const LargeMessage := "Gambar terlalu besar. Maksimal 5000x5000 pixels"

  /** The allowed formats joined by ", ". */
  function FormatList(formats: seq<string>): string {
    if |formats| == 0 then ""
    else if |formats| == 1 then formats[0]
    else formats[0] + ", " + FormatList(formats[1..])
  }

  function UnsupportedMessage(format: string): string {
    "Format tidak didukung: " + format + ". Gunakan: " + FormatList(AllowedFormats)
  }

  /** What an accepted image is, stated as one predicate. */
  predicate AcceptableImage(d: Decoded) {
    && MinSide <= d.width <= MaxSide
    && MinSide <= d.height <= MaxSide
    && d.format in AllowedFormats
  }

  /** `validate_image_file`: the file unchanged, or the message of the first
      check that fails, in the order size, decoding, too small, too large,
      format. The dimension and format errors are raised inside the `try`
      but are not the exceptions it catches, so they keep their messages. */
  function ValidateImageFile<F>(file: F, size: int, decoded: Option<Decoded>): (r: Result<F, string>)
    ensures r.Success? <==> size <= MaxSize && decoded.Some? && AcceptableImage(decoded.value)
    ensures r.Success? ==> r.value == file
    ensures size > MaxSize ==> r == Failure(SizeMessage)
    ensures size <= MaxSize && decoded.None? ==> r == Failure(CorruptMessage)
    ensures (size <= MaxSize && decoded.Some? && (decoded.value.width < MinSide || decoded.value.height < MinSide))
      ==> r == Failure(SmallMessage)
    ensures (size <= MaxSize && decoded.Some? && decoded.value.width >= MinSide && decoded.value.height >= MinSide
      && (decoded.value.width > MaxSide || decoded.value.height > MaxSide)) ==> r == Failure(LargeMessage)
    ensures (size <= MaxSize && decoded.Some? && MinSide <= decoded.value.width <= MaxSide
      && MinSide <= decoded.value.height <= MaxSide && decoded.value.format !in AllowedFormats)
      ==> r == Failure(UnsupportedMessage(decoded.value.format))
  {
    if size > MaxSize then Failure(SizeMessage)
    else match decoded
      case None => Failure(CorruptMessage)
      case Some(d) =>
        if d.width < MinSide || d.height < MinSide then Failure(SmallMessage)
        else if d.width > MaxSide || d.height > MaxSide then Failure(LargeMessage)
        else if d.format !in AllowedFormats then Failure(UnsupportedMessage(d.format))
        else Success(file)
  }

  /** The size check runs before any decoding: an oversized file gets the
      same answer whatever the decoder would say. */
  lemma {:induction false} SizeCheckedFirst<F>(file: F, size: int, d1: Option<Decoded>, d2: Option<Decoded>)
    requires size > MaxSize
    ensures ValidateImageFile(file, size, d1) == ValidateImageFile(file, size, d2)
  {
  }

  /** The format message names the refused format and lists the four
      allowed ones. */
  lemma {:induction false} UnsupportedMessageShape(format: string)
    ensures UnsupportedMessage(format) == "Format tidak didukung: " + format + ". Gunakan: JPEG, PNG, GIF, WEBP"
  {
    var f := AllowedFormats;
    assert f[1..][1..][1..] == ["WEBP"];
    assert FormatList(f[1..][1..]) == "GIF, WEBP";
    assert FormatList(f[1..]) == "PNG, GIF, WEBP";
  }
}
