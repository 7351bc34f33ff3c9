# Real-estate blacklist directory: a verified model of its core

The repository is a Django application that keeps a directory of
buildings (Gedung), their units, owners (Pemilik), agents (Agen) and
images. It serves them through a small JSON API. This project models the
parts of it that carry decisions:

- `api.dfy`: the nearby search. It runs three range checks on the request
  (latitude, longitude, radius), keeps the candidate buildings whose
  distance is within the radius, rounds the distances to two decimals,
  sorts stably by the rounded distance and echoes the request. It also
  picks the first primary image, and has the two detail lookups by UUID,
  which answer "not found" for a malformed or unknown key, and the
  "nama (julukan)" formatting of owners and agents.
- `api_auth.dfy`: parsing the comma-separated list of allowed API keys and
  the 503 / 401 / accept decision for a request's key.
- `models.dfy`: the `__str__` labels of buildings, units, owners and
  agents. The image table is a class whose `Save` clears the owner's other
  primary flags before writing the row, and so keeps at most one primary
  image per owner. Also here: the `primary_image` lookup and the two
  `unique_together` constraints.
- `forms.dfy`: the building admin form.
  - `clean_coordinates` recognises the regular expression
    `^[-+]?[0-9]*\.?[0-9]+\s*,\s*[-+]?[0-9]*\.?[0-9]+$`, parses the two
    numbers exactly and checks their ranges.
  - `save` assigns the parsed coordinates to the instance in place.
  - The constructor prefills the field when an existing building is
    edited.
- `validators.dfy`: the file-name blacklist and length limit, and the
  size, decode, dimension and format checks on an uploaded image.
- `upload_path.dfy`: the storage path of an uploaded image. It depends on
  the owner's kind and whether its row exists, and ends with a sanitised
  file name.
- Supporting modules:
  - `text.dfy`: Python's `strip`, `split(',')`, `lower` and `str(int)`;
  - `numbers.dfy`: powers of ten and round-half-even;
  - `stable_sort.dfy`: `list.sort(key=...)`, an in-place insertion sort
    proved against a functional stable sort;
  - `wrappers.dfy`: Option and Result.

The database, the great-circle distance, `uuid.UUID`, `slugify`, the image
decoder, `request.build_absolute_uri` and the process environment are
inputs of the functions that need them.

Python floats are modelled as exact reals, read from their decimal text.
The `DecimalField` coordinate columns, which keep 15 decimal places, are
integers in units of 10^-15.

## Model

| member | source | states |
|---|---|---|
| Api.Round2Close | apps/api/api.py:92 | rounding a distance to two decimals moves it by at most 0.005 |
| Api.Round2Monotone | apps/api/api.py:92 | rounding to two decimals keeps the order of distances |
| Api.Round2Whole | apps/api/api.py:92 | a whole number of meters is its own rounding, so the radius bound survives rounding |
| Api.FirstPrimary | apps/api/api.py:79-83 | None exactly when no image is primary; otherwise the URL of a primary image with no primary image before it |
| Api.PickPrimaryImage | apps/api/api.py:79-83 | the loop that breaks at the first primary image returns `FirstPrimary` of the images |
| Api.CheckNearby | apps/api/api.py:42-49 | no error iff latitude, longitude and radius are all in range; every error is a 400 |
| Api.SearchNearby | apps/api/api.py:41-108 | fails iff the request is out of range, with a 400; a success has `success` set and `count` equal to the number of entries |
| Api.SearchNearbyGedung | apps/api/api.py:41-108 | the handler (checks, one pass appending entries, in-place sort, response) returns exactly the pure search `SearchNearby` |
| Api.InRadiusMembers | apps/api/api.py:67-77 | a building is among the filtered candidates iff it is a candidate whose exact distance is at most the radius |
| Api.SearchRejects | apps/api/api.py:42-49 | the search fails iff the request is out of range; the latitude message wins, then longitude, then radius; the refusal does not depend on the candidates |
| Api.SearchResultsWithinRadius | apps/api/api.py:69-92 | every entry is built from a candidate whose exact distance was within the radius, and its rounded distance is within the radius too |
| Api.SearchResultsComplete | apps/api/api.py:67-95 | every candidate within the radius appears among the entries |
| Api.SearchResultsPermutation | apps/api/api.py:65-98 | the entries are a permutation of those built for the filtered candidates, as many as those candidates |
| Api.SearchResultsOrdered | apps/api/api.py:92-98 | entries are non-decreasing in rounded distance, and entries with equal rounded distance keep candidate order |
| Api.SearchResponseEchoes | apps/api/api.py:101-108 | a valid request succeeds; `count` is the number of entries; radius and center are echoed; no match gives a success with count 0 |
| Api.GetGedungDetail | apps/api/api.py:115-169 | the handler with its image loop and unit loop returns exactly `GedungDetailFor` |
| Api.GedungDetailFor | apps/api/api.py:115-169 | 404 with the "not found" body iff the key is no UUID or names no building; a found detail carries that building's uuid |
| Api.GedungDetailDescribesRow | apps/api/api.py:131-167 | a found building's detail copies its id, uuid, name, coordinates and address, has a unit count equal to the units listed, one entry per unit in query order with that unit's id, uuid, floor, number, description, blacklist reason and all its image URLs in order, and the first primary image |
| Api.UnitDetailDescribesRow | apps/api/api.py:181-220 | a found unit's detail copies its id, uuid, floor, number, description, listing type and blacklist reason, names its building, shows owner and agent as None or as their `__str__` labels, and lists all its image URLs in order |
| Api.DetailNotFound | apps/api/api.py:111-223 | both lookups answer 404 with the body {success: false, error: "not found"} iff the key is no UUID or names no row |
| Api.GetUnitDetail | apps/api/api.py:171-223 | 404 with the "not found" body iff the key is no UUID or names no unit; a found detail carries that unit's uuid and its building's name (the other fields: `UnitDetailDescribesRow`) |
| Api.FormatPerson | apps/api/api.py:193-206 | an owner or agent is shown iff present, and the text begins with its name |
| Api.FormatPersonIsLabel | apps/api/api.py:193-206 | an absent owner or agent shows as None, a present one exactly as its `__str__` label |
| ApiAuth.ParseAllowedKeys | apps/api/utils.py:53-56 | an unset or empty value gives no keys; otherwise one key per comma-separated field, in order, each stripped |
| ApiAuth.Authenticate | apps/api/utils.py:61-66 | accepted iff keys are configured and the key is one of them, returning the key unchanged; 503 with no keys, 401 otherwise |
| ApiAuth.UnconfiguredRefusesAll | apps/api/utils.py:53-63 | with the value unset or empty every request gets 503, whatever its key |
| ApiAuth.KeyCount | apps/api/utils.py:56 | the number of keys is the number of commas plus one |
| ApiAuth.PaddedKeyAccepted | apps/api/utils.py:56-65 | a key written as one field with white space around it is accepted, and the white space is not part of the accepted key |
| StableSort.SortSorted | apps/api/api.py:98 | the sorted list is ordered by the key |
| StableSort.SortPermutation | apps/api/api.py:98 | sorting neither drops nor duplicates an element |
| StableSort.SortStable | apps/api/api.py:98 | the elements with one key keep their input order |
| StableSort.InsertAt | apps/api/api.py:98 | moving one element back past the larger keys inserts it as `Insert` does and leaves the rest of the array alone |
| StableSort.SortInPlace | apps/api/api.py:98 | the in-place sort leaves `Sort` of the old contents in the array |
| Models.PersonLabelRoundTrip | apps/core/models.py:90-91 | "nama (julukan)" with a truthy nickname, the bare name otherwise; the label reads back to the name and the truthy nickname |
| Models.GedungLabelShape | apps/core/models.py:67-68 | the label is the name when truthy, otherwise "Gedung #" followed by digits that read back to the id; it is never empty |
| Models.UnitLabelShape | apps/core/models.py:135-136 | a unit's label starts with its building's label, ends with its unit number, and the floor reads back from the digits in between |
| Models.SaveRows | apps/core/models.py:161-164 | the saved row is in the table afterwards, and the table grows by at most that one row |
| Models.SaveStampsTimes | apps/core/models.py:12-13 | the written row keeps the instance's key, owner, file and flag; `updated_at` is the save time; `created_at` is the save time on every insert (a new instance, or a key whose row is gone) and the instance's value when an existing row is updated |
| Models.SaveRowsShape | apps/core/models.py:161-164 | the saved row lands at its key's position or at the end; every other row keeps its place and all its fields, except that a primary row of the same owner is unflagged when the saved image is primary |
| Models.SavePrimaryIsSole | apps/core/models.py:162-164 | after saving a primary image it is its owner's only primary image |
| Models.SaveKeepsOtherOwners | apps/core/models.py:163 | saving touches no row of another owner |
| Models.SaveNonPrimaryKeepsOthers | apps/core/models.py:162-164 | saving a non-primary image changes no other row |
| Models.SaveOnlyClearsFlags | apps/core/models.py:163 | on the other rows only `is_primary` changes, and only from true to false |
| Models.SaveKeepsInvariant | apps/core/models.py:161-164 | saving keeps ids unique and below the next id, and keeps at most one primary image per owner |
| Models.ImageTable.Save | apps/core/models.py:161-164 | the in-place save (a clearing loop, then the row write) leaves `SaveRows` of the old table and keeps the table's invariant |
| Models.PrimaryImage | apps/core/models.py:70-72 | None iff the owner has no primary image; otherwise one of its primary images, the newest by `created_at` |
| Models.PrimaryImageIsTheOne | apps/core/models.py:70-72 | with at most one primary image per owner, `primary_image` is that image |
| Models.PrimaryImageAfterSave | apps/core/models.py:161-164 | right after a primary image is saved, its owner's `primary_image` is the row just written |
| Models.InsertUnique | apps/core/models.py:133 | an insert succeeds iff no row has the same key, and then appends the row |
| Models.InsertKeepsUnique | apps/core/models.py:133 | an accepted insert keeps the keys unique |
| Models.InsertUnit | apps/core/models.py:133 | a unit insert is refused iff a unit of the same building has the same number; accepted inserts keep (gedung, unit_number) unique |
| Models.InsertLokasi | apps/core/models.py:44 | a location insert is refused iff a location of the same district has the same name; accepted inserts keep (distrik, nama) unique |
| Forms.MatchesPatternIff | apps/core/forms.py:37-38 | the recognizer accepts exactly the texts on the coordinate regular expression |
| Forms.ParseFloat | apps/core/forms.py:47-48 | `float` gives a value iff the text is on the number grammar |
| Forms.ParseCoordinates | apps/core/forms.py:65-68 | both values iff the text splits into exactly two fields whose stripped texts are numbers; only the latitude iff two fields and only the first is a number |
| Forms.ParseMatched | apps/core/forms.py:46-48 | a text on the pattern splits into exactly two fields, which parse into the two numbers around its comma |
| Forms.RecognizedParses | apps/core/forms.py:46-48 | a text the pattern accepts always parses into two numbers |
| Forms.CheckRanges | apps/core/forms.py:50-53 | succeeds iff latitude is in [-90, 90] and longitude in [-180, 180], returning the text; latitude is checked first |
| Forms.CleanCoordinates | apps/core/forms.py:29-58 | an accepted value is the stripped input and is on the coordinate pattern |
| Forms.CleanRequired | apps/core/forms.py:31-34 | called on its own, the method refuses a missing, empty or all-white-space text with "Koordinat wajib diisi" |
| Forms.CleanFormat | apps/core/forms.py:36-42 | a nonempty stripped text off the pattern is refused with the format message |
| Forms.CleanMatched | apps/core/forms.py:44-58 | a text on the pattern gets the range checks on its two numbers, and is returned stripped when they pass |
| Forms.CleanNeverNumberError | apps/core/forms.py:45-56 | "Koordinat harus berupa angka valid" is never the answer |
| Forms.CleanOfStripped | apps/core/forms.py:31 | the answer depends only on the stripped text |
| Forms.CleanAccepted | apps/core/forms.py:29-58 | an accepted value is the stripped input, on the pattern, and parses into coordinates in range |
| Forms.CleanIdempotent | apps/core/forms.py:29-58 | cleaning an accepted value again accepts it unchanged |
| Forms.CleanedParses | apps/core/forms.py:63-68 | the unpacking and both `float` calls in `save` succeed on a text cleaning accepted |
| Forms.QuantizeColumnValue | apps/core/models.py:55-56 | a value the column holds is kept unchanged when assigned again |
| Forms.FixedPointValue | apps/core/models.py:55-56 | the fixed-point text of a stored value is on the number grammar and reads back to that value |
| Forms.DecimalStrPlain | apps/core/forms.py:27 | from 10^-6 in size up, `str` of a stored value is its fixed-point text |
| Forms.DecimalStrTiny | apps/core/forms.py:27 | below 10^-6 in size, `str` of a stored value contains an 'E' |
| Forms.NoExponentInPattern | apps/core/forms.py:37 | no text holding an 'E' is on the coordinate pattern |
| Forms.JoinedNumbersAccepted | apps/core/forms.py:29-58 | two numbers in range joined by ", " are accepted unchanged and parse into their values |
| Forms.PrefillShown | apps/core/forms.py:26-27 | with a primary key and nonzero coordinates the prefill is the two rendered values joined by ", " |
| Forms.PrefillRoundTrip | apps/core/forms.py:26-27 | the fixed-point prefill of a building in range is accepted by its own form, parses back into the stored values, and saving stores them again |
| Forms.PrefillTinyLatitudeRejected | apps/core/forms.py:26-27 | as written, a nonzero latitude below 10^-6 in size prefills a text that the form refuses with the format message |
| Forms.PrefillAsWrittenPlain | apps/core/forms.py:26-27 | from 10^-6 up the written prefill equals the fixed-point one |
| Forms.GedungAdminForm.constructor | apps/core/forms.py:23-27 | the field's initial text is set only with a primary key and two nonzero coordinates, and is then the two stored values in fixed point joined by ", " (the corrected prefill, see Findings) |
| Forms.GedungAdminForm.Save | apps/core/forms.py:60-68 | `save(commit=False)`: an empty stripped text changes nothing; otherwise the latitude is assigned before the longitude is read, a failure leaves the earlier assignment, and only the two coordinate fields can change |
| Validators.DangerousIff | apps/core/validators.py:49-52 | the blacklist loop refuses exactly the names with "..", "/", "\\", NUL, LF or CR |
| Validators.ValidateFilename | apps/core/validators.py:47-57 | accepted iff safe and at most 255 characters, returned unchanged; the blacklist message wins over the length message |
| Validators.ValidateFilenameIdempotent | apps/core/validators.py:47-57 | an accepted name is accepted again |
| Validators.ValidateImageFile | apps/core/validators.py:6-44 | accepted iff at most 5 MiB, decodable, both sides in [100, 5000] and the format allowed; otherwise the message of the first failing check, in source order |
| Validators.SizeCheckedFirst | apps/core/validators.py:9-13 | an oversized file gets the same answer whatever the decoder would say |
| Validators.UnsupportedMessageShape | apps/core/validators.py:32-37 | the format message names the refused format and lists "JPEG, PNG, GIF, WEBP" |
| UploadPath.StemSuffix | apps/core/utils.py:14-16 | stem and suffix put back together give the name; a suffix is a dot followed by at least one character and no other dot |
| UploadPath.SafeFilename | apps/core/utils.py:14-18 | the slug of the stem, or "unnamed" when it is empty, followed by the lower-cased suffix |
| UploadPath.ImageUploadPath | apps/core/utils.py:5-44 | "images/" + the owner's directory + the safe file name, per owner kind and whether its row exists |
| UploadPath.UploadPathBounds | apps/core/utils.py:23-44 | every path starts with "images/" and ends with the safe file name |
| UploadPath.UnitBesideGedung | apps/core/utils.py:23-39 | a unit's image goes one level under its building's directory, named by the slugified unit number |
| UploadPath.SafeFilenameShape | apps/core/utils.py:14-18 | the safe file name is never empty and its suffix part has no upper-case letter |
| Text.Strip | apps/core/forms.py:31 | the result is no longer than the input, neither starts nor ends with white space, and is empty iff the input is all white space |
| Text.StripIdempotent | apps/core/forms.py:31 | stripping twice is stripping once |
| Text.StripPadded | apps/api/utils.py:56 | stripping removes exactly the white space around a text |
| Text.Split | apps/core/forms.py:46 | at least one field, and no field holds the separator |
| Text.JoinSplit | apps/core/forms.py:46 | joining the fields with the separator gives the text back |
| Text.SplitJoin | apps/api/utils.py:56 | splitting what was joined from separator-free fields gives the fields back |
| Text.SplitCount | apps/api/utils.py:56 | there is one more field than there are separators |
| Text.Contains | apps/core/validators.py:51 | true iff the piece occurs somewhere in the text |
| Text.LowerProperties | apps/core/utils.py:15 | lower-casing keeps the length, leaves no upper-case ASCII letter, changes nothing else and is idempotent |
| Text.NatToStringRoundTrip | apps/core/models.py:68 | the decimal digits of an id read back to the id |

## Left out

- `haversine_distance` and `get_bounding_box` (apps/api/utils.py:7-50) are
  floating-point trigonometry. The distance is an input function, and the
  bounding-box query is the candidate sequence the search receives.
- The ORM is an input: querysets, `annotate(Count)`, `select_related`,
  `prefetch_related`, `.get` and the database ordering of units by floor
  and number. Rows and their counts arrive as sequences and maps.
- `uuid.UUID`, `request.build_absolute_uri`, `img.image.url`, `slugify`,
  `os.getenv` and the current time are inputs or parameters.
- Pillow decoding, `verify` and `file.seek` are not modelled. The decoder's
  verdict is an input: None, or (width, height, format).
- The admin configuration, the widgets, the file-deleting signals, the
  settings, the response schemas, the API wiring and the health endpoint
  are not part of this model.
- Binary floating point: floats are the exact decimal value of their text.
- Forms.ParseFloat: accepts only the number grammar of the coordinate
  pattern, not every text Python's `float` reads ("1e5", "inf", "nan",
  underscores). `save` only sees texts that cleaning accepted, and those
  are on the grammar.
- Forms.GedungAdminForm.constructor: renders the prefill in fixed point,
  the corrected behaviour recorded under Findings. The text the code as
  written produces, through `str` of each stored decimal, is
  `PrefillAsWritten`. Below 10^-6 in size the two differ.
- Forms.GedungAdminForm.Save: models `save(commit=False)` only. With
  `commit=True` the instance's own `save` then writes the row, including
  its primary key and timestamps. That write is not modelled, and neither
  is the ValueError that the ModelForm's `save` raises when the form has
  errors.
- Forms.CleanRequired: is about `clean_coordinates` called on its own.
  Through the form, the required `CharField` strips the input and already
  refuses an empty text with Django's own "This field is required.", so
  the method's message is not reached that way.
- Validators.ValidateImageFile: the decoder's verdict is either "not an
  image" or a size and format. Pillow exceptions that the `except` clause
  does not catch escape the validator, for example the decompression-bomb
  error for images of more than about 179 megapixels. The model has no
  outcome for them.
- Forms.GedungAdminForm.Save: stores each coordinate already rounded to 15
  places, as the column keeps it on `instance.save()`. It does not model
  the float that the instance holds before then, or the `max_digits` check
  of the column.
- Api.Round2: rounds the exact value half to even. It does not model the
  binary representation Python's `round` sees.
- Text.Lower: lower-cases ASCII letters only, not the rest of Unicode.
- UploadPath.StemSuffix: follows `pathlib` on names without trailing
  slashes or "." components. Path normalisation is not modelled.
- Models.SaveRows: when the instance has a key whose row exists but no
  `created_at`, Django's UPDATE writes NULL into the NOT NULL column and
  raises IntegrityError after the other primary flags were already
  cleared. The model writes the save time into `created_at` instead and
  does not model the failure.
- Models.ImageTable.Save: ids come from a counter the table keeps. The
  database's sequence, concurrency and transactions are not modelled.
- The nearby search sorts by the rounded distance (apps/api/api.py:92 and
  98) and so does the model. Candidates whose exact distances differ but
  round to the same value keep their candidate order.

## Findings

| source | as written | input that shows it | evidently intended | confidence | as-written member | corrected member |
|---|---|---|---|---|---|---|
| apps/core/forms.py:26-27 | the prefill formats each stored `Decimal` with `str`, which switches to scientific notation when the adjusted exponent is below -6 | an existing building with latitude 0.000000100000000 (10^8 units of 10^-15) and longitude 1: the prefill is "1.00000000E-7, 1.000000000000000", which the form's own pattern refuses | the prefill of a stored building is accepted by `clean_coordinates` and saves back to the same values | not executed | Forms.PrefillTinyLatitudeRejected | Forms.PrefillRoundTrip |
