/** The building admin form: its coordinates field takes "lat, long" as one
    text. `clean_coordinates` checks the text against a small number grammar
    and the coordinate ranges, `save` parses it into the instance's two
    coordinate columns, and the constructor prefills the field when an
    existing building is edited.

    Numbers are exact: `float` is read as the exact decimal value of the
    text, and the coordinate columns hold integers in units of 10^-15
    degrees (they keep 15 decimal places). */
module Forms {
  import opened Wrappers
  import opened Text
  import opened Numbers

  // ---------------------------------------------------------------------
  // The grammar of the regular expression
  //   ^[-+]?[0-9]*\.?[0-9]+\s*,\s*[-+]?[0-9]*\.?[0-9]+$
  // ---------------------------------------------------------------------

  predicate IsSign(c: char) {
    c == '-' || c == '+'
  }

  /** `[0-9]*\.?[0-9]+`: digits with at most one point among them, the last
      character a digit. */
  predicate IsUnsignedNumber(t: string) {
    && t != []
    && (forall i :: 0 <= i < |t| ==> IsDigit(t[i]) || t[i] == '.')
    && (forall i, j :: 0 <= i < j < |t| && t[i] == '.' ==> t[j] != '.')
    && IsDigit(t[|t| - 1])
  }

  /** `[-+]?[0-9]*\.?[0-9]+` */
  predicate IsNumber(s: string) {
    if s != [] && IsSign(s[0]) then IsUnsignedNumber(s[1..]) else IsUnsignedNumber(s)
  }

  predicate IsNumberChar(c: char) {
    IsDigit(c) || c == '.' || IsSign(c)
  }

  /** `s` is a number ending at `i`, white space up to the comma at `j`,
      white space up to `k` and a number from `k` to the end. */
  predicate SplitsAt(s: string, i: int, j: int, k: int) {
    && 0 <= i <= j < k <= |s|
    && s[j] == ','
    && IsNumber(s[..i]) && AllSpace(s[i..j])
    && AllSpace(s[j + 1..k]) && IsNumber(s[k..])
  }

  /** The whole text matches the coordinate pattern. */
  ghost predicate PatternMatch(s: string) {
    exists i, j, k :: SplitsAt(s, i, j, k)
  }

  /** A recognizer for the pattern: the first comma, the number before it
      with the white space on its right removed, and the number after it with
      the white space on its left removed. */
  function MatchesPattern(s: string): bool {
    var c := IndexOf(s, ',');
    c.Some? && IsNumber(StripRight(s[..c.value])) && IsNumber(StripLeft(s[c.value + 1..]))
  }

  /** A number is made of digits, signs and points only, and it ends with a
      digit. */
  lemma {:induction false} NumberChars(x: string)
    requires IsNumber(x)
    ensures x != []
    ensures forall i :: 0 <= i < |x| ==> IsNumberChar(x[i])
    ensures IsDigit(x[|x| - 1])
  {
    if x != [] && IsSign(x[0]) {
      assert forall i :: 1 <= i < |x| ==> x[i] == x[1..][i - 1];
    }
  }

  /** A number holds no comma and neither starts nor ends with white space. */
  lemma {:induction false} NumberEdges(x: string)
    requires IsNumber(x)
    ensures x != [] && ',' !in x
    ensures !IsSpace(x[0]) && !IsSpace(x[|x| - 1])
  {
    NumberChars(x);
  }

  lemma {:induction false} SpaceNoComma(w: string)
    requires AllSpace(w)
    ensures ',' !in w
  {
  }

  lemma {:induction false} CutAt(s: string, j: int)
    requires 0 <= j < |s|
    ensures s == s[..j] + [s[j]] + s[j + 1..]
  {
  }

  /** On a text that matches, the comma at `j` is the only one and the
      text splits at it into two fields. */
  lemma {:induction false} FieldsSplit(l: string, r: string)
    requires ',' !in l && ',' !in r
    ensures Split(l + [','] + r, ',') == [l, r]
  {
    SplitFirstField(l, ',', r);
    SplitNoSep(r, ',');
  }

  lemma {:induction false} MatchedSplit(s: string, i: int, j: int, k: int)
    requires SplitsAt(s, i, j, k)
    ensures ',' !in s[..j] && ',' !in s[j + 1..]
    ensures Split(s, ',') == [s[..j], s[j + 1..]]
  {
    var a, w1, w2, b := s[..i], s[i..j], s[j + 1..k], s[k..];
    NumberEdges(a);
    NumberEdges(b);
    SpaceNoComma(w1);
    SpaceNoComma(w2);
    assert s[..j] == a + w1;
    assert s[j + 1..] == w2 + b;
    CutAt(s, j);
    FieldsSplit(s[..j], s[j + 1..]);
  }

  /** Stripping the two fields of a text that matches leaves the two
      numbers. */
  lemma {:induction false} MatchedStrip(s: string, i: int, j: int, k: int)
    requires SplitsAt(s, i, j, k)
    ensures Strip(s[..j]) == s[..i] && Strip(s[j + 1..]) == s[k..]
    ensures StripRight(s[..j]) == s[..i] && StripLeft(s[j + 1..]) == s[k..]
  {
    var a, w1, w2, b := s[..i], s[i..j], s[j + 1..k], s[k..];
    NumberEdges(a);
    NumberEdges(b);
    assert s[..j] == a + w1;
    assert s[j + 1..] == w2 + b;
    StripTrailing(a, w1);
    StripLeading(w2, b);
  }

  lemma {:induction false} MatchedParts(s: string, i: int, j: int, k: int)
    requires SplitsAt(s, i, j, k)
    ensures ',' !in s[..j] && ',' !in s[j + 1..]
    ensures Split(s, ',') == [s[..j], s[j + 1..]]
    ensures Strip(s[..j]) == s[..i] && Strip(s[j + 1..]) == s[k..]
    ensures StripRight(s[..j]) == s[..i] && StripLeft(s[j + 1..]) == s[k..]
  {
    MatchedSplit(s, i, j, k);
    MatchedStrip(s, i, j, k);
  }

  lemma {:induction false} SliceOfPrefix(s: string, j: int, n: int)
    requires 0 <= n <= j <= |s|
    ensures s[..j][..n] == s[..n] && s[..j][n..] == s[n..j]
  {
  }

  lemma {:induction false} SliceOfSuffix(s: string, j: int, n: int)
    requires 0 <= j <= |s| && 0 <= n <= |s| - j
    ensures s[j..][n..] == s[j + n..] && s[j..][..n] == s[j..j + n]
  {
  }

  /** What `rstrip` leaves of the text before the comma is a prefix of the
      text, followed by white space up to the comma. */
  lemma {:induction false} LeftPiece(s: string, j: int, left: string, i: int)
    requires 0 <= j < |s|
    requires left == StripRight(s[..j]) && i == |left| && IsNumber(left)
    ensures 0 <= i <= j && IsNumber(s[..i]) && AllSpace(s[i..j])
  {
    SliceOfPrefix(s, j, i);
    assert s[..i] == left;
  }

  /** What `lstrip` leaves of the text after the comma is a suffix of the
      text, after white space that follows the comma. */
  lemma {:induction false} RightPiece(s: string, j: int, right: string, k: int)
    requires 0 <= j < |s|
    requires right == StripLeft(s[j + 1..]) && k == |s| - |right| && IsNumber(right)
    ensures j < k <= |s| && IsNumber(s[k..]) && AllSpace(s[j + 1..k])
  {
    var t := s[j + 1..];
    var n := LeftStripped(t, right);
    SuffixPieces(s, j, t, right, n, k);
    NumberSuffix(s, k, right);
  }

  /** `StripLeft`'s postcondition, with the length of the white space it
      removes named. */
  lemma {:induction false} LeftStripped(t: string, r: string) returns (n: int)
    requires r == StripLeft(t)
    ensures 0 <= n <= |t| && n == |t| - |r| && r == t[n..] && AllSpace(t[..n])
  {
    n := |t| - |r|;
  }

  lemma {:induction false} SuffixPieces(s: string, j: int, t: string, r: string, n: int, k: int)
    requires 0 <= j < |s| && t == s[j + 1..]
    requires 0 <= n <= |t| && n == |t| - |r| && r == t[n..] && AllSpace(t[..n])
    requires k == |s| - |r|
    ensures s[k..] == r && AllSpace(s[j + 1..k])
  {
    assert t[n..] == s[k..];
    assert t[..n] == s[j + 1..k];
    AllSpaceSame(t[..n], s[j + 1..k]);
  }

  lemma {:induction false} NumberSuffix(s: string, k: int, r: string)
    requires 0 <= k <= |s| && s[k..] == r && IsNumber(r)
    ensures IsNumber(s[k..])
  {
  }

  lemma {:induction false} AllSpaceSame(a: string, b: string)
    requires a == b && AllSpace(a)
    ensures AllSpace(b)
  {
  }

  /** The cut points of a text whose pieces around the comma at `j` strip
      to two numbers. */
  lemma {:induction false} StrippedPieces(s: string, j: int) returns (i: int, k: int)
    requires 0 <= j < |s| && s[j] == ','
    requires IsNumber(StripRight(s[..j])) && IsNumber(StripLeft(s[j + 1..]))
    ensures SplitsAt(s, i, j, k)
  {
    var left, right := StripRight(s[..j]), StripLeft(s[j + 1..]);
    i, k := |left|, |s| - |right|;
    LeftPiece(s, j, left, i);
    RightPiece(s, j, right, k);
  }

  /** The cut points at which a recognized text splits. */
  lemma {:induction false} RecognizedSplits(s: string) returns (i: int, j: int, k: int)
    requires MatchesPattern(s)
    ensures SplitsAt(s, i, j, k)
  {
    j := IndexOf(s, ',').value;
    i, k := StrippedPieces(s, j);
  }

  /** The comma of a text on the pattern is its first comma. */
  lemma {:induction false} MatchedComma(s: string, i: int, j: int, k: int)
    requires SplitsAt(s, i, j, k)
    ensures IndexOf(s, ',') == Some(j)
  {
    MatchedSplit(s, i, j, k);
  }

  lemma {:induction false} RecognizedAt(s: string, j: int)
    requires 0 <= j < |s|
    requires IsNumber(StripRight(s[..j])) && IsNumber(StripLeft(s[j + 1..]))
    requires IndexOf(s, ',') == Some(j)
    ensures MatchesPattern(s)
  {
  }

  /** A text on the pattern is recognized. */
  lemma {:induction false} MatchedRecognized(s: string, i: int, j: int, k: int)
    requires SplitsAt(s, i, j, k)
    ensures MatchesPattern(s)
  {
    MatchedStrip(s, i, j, k);
    MatchedComma(s, i, j, k);
    RecognizedAt(s, j);
  }

  /** The recognizer accepts exactly the texts on the pattern. */
  lemma {:induction false} MatchesPatternIff(s: string)
    ensures MatchesPattern(s) <==> PatternMatch(s)
  {
    if MatchesPattern(s) {
      var i, j, k := RecognizedSplits(s);
    }
    if PatternMatch(s) {
      var i, j, k :| SplitsAt(s, i, j, k);
      MatchedRecognized(s, i, j, k);
    }
  }

  // ---------------------------------------------------------------------
  // Values
  // ---------------------------------------------------------------------

  function UnsignedValue(t: string): real
    requires IsUnsignedNumber(t)
  {
    match IndexOf(t, '.')
    case None => DigitsValue(t) as real
    case Some(p) => DigitsValue(t[..p]) as real + DigitsValue(t[p + 1..]) as real / Pow10(|t| - p - 1) as real
  }

  /** The exact value of a text on the number grammar. */
  function NumberValue(s: string): real
    requires IsNumber(s)
  {
    if s != [] && s[0] == '-' then -UnsignedValue(s[1..])
    else if s != [] && s[0] == '+' then UnsignedValue(s[1..])
    else UnsignedValue(s)
  }

  /** `float(s)` on the texts the number grammar describes; None stands for
      the ValueError. */
  function ParseFloat(s: string): (r: Option<real>)
    ensures r.Some? <==> IsNumber(s)
  {
    if IsNumber(s) then Some(NumberValue(s)) else None
  }

  /** What splitting the text at commas and reading the two stripped fields
      gives: both values, only the latitude (the longitude raised), or
      nothing (the unpacking or the latitude raised). */
  datatype Parse = Parsed(lat: real, long: real) | LatOnly(lat: real) | NotParsed

  function ParseCoordinates(coords: string): (r: Parse)
    ensures r.Parsed? <==>
      |Split(coords, ',')| == 2 && IsNumber(Strip(Split(coords, ',')[0])) && IsNumber(Strip(Split(coords, ',')[1]))
    ensures r.LatOnly? <==>
      |Split(coords, ',')| == 2 && IsNumber(Strip(Split(coords, ',')[0])) && !IsNumber(Strip(Split(coords, ',')[1]))
  {
    var parts := Split(coords, ',');
    if |parts| != 2 then NotParsed
    else match ParseFloat(Strip(parts[0]))
      case None => NotParsed
      case Some(lat) =>
        match ParseFloat(Strip(parts[1]))
        case None => LatOnly(lat)
        case Some(long) => Parsed(lat, long)
  }

  /** A text on the pattern parses into the two numbers around its comma. */
  lemma {:induction false} ParseMatched(s: string, i: int, j: int, k: int)
    requires SplitsAt(s, i, j, k)
    ensures ParseCoordinates(s) == Parsed(NumberValue(s[..i]), NumberValue(s[k..]))
  {
    MatchedParts(s, i, j, k);
  }

  // ---------------------------------------------------------------------
  // clean_coordinates
  // ---------------------------------------------------------------------

  const RequiredMessage := "Koordinat wajib diisi"
  const FormatMessage := "Format koordinat salah. Gunakan format: lat, long (contoh: 30.077561, 31.336270)"
  const NumberMessage := "Koordinat harus berupa angka valid"
  const LatitudeMessage := "Latitude harus antara -90 dan 90"
  const LongitudeMessage := "Longitude harus antara -180 dan 180"

  /** The range checks on the two values, latitude first. */
  function CheckRanges(coords: string, lat: real, long: real): (r: Result<string, string>)
    ensures r.Success? <==> -90.0 <= lat <= 90.0 && -180.0 <= long <= 180.0
    ensures r.Success? ==> r.value == coords
    ensures !(-90.0 <= lat <= 90.0) ==> r == Failure(LatitudeMessage)
    ensures -90.0 <= lat <= 90.0 && !(-180.0 <= long <= 180.0) ==> r == Failure(LongitudeMessage)
  {
    if !(-90.0 <= lat <= 90.0) then Failure(LatitudeMessage)
    else if !(-180.0 <= long <= 180.0) then Failure(LongitudeMessage)
    else Success(coords)
  }

  /** `clean_coordinates`: the stripped text, or the message of the first
      check that fails (`raw` is None when the field is absent from the
      cleaned data). */
  function CleanCoordinates(raw: Option<string>): (r: Result<string, string>)
    ensures r.Success? ==> r.value == Strip(raw.GetOr("")) && MatchesPattern(r.value)
  {
    CleanStripped(Strip(raw.GetOr("")))
  }

  /** The checks of `clean_coordinates` on the stripped text. */
  function CleanStripped(coords: string): (r: Result<string, string>)
    ensures r.Success? ==> r.value == coords && MatchesPattern(coords)
  {
    if coords == "" then Failure(RequiredMessage)
    else if !MatchesPattern(coords) then Failure(FormatMessage)
    else match ParseCoordinates(coords)
      case Parsed(lat, long) => CheckRanges(coords, lat, long)
      case _ => Failure(NumberMessage)
  }


  /** An empty or all-white-space text, or a missing one, is refused as
      missing. */
  lemma {:induction false} CleanRequired(raw: Option<string>)
    ensures Strip(raw.GetOr("")) == "" <==> raw.None? || AllSpace(raw.value)
    ensures Strip(raw.GetOr("")) == "" ==> CleanCoordinates(raw) == Failure(RequiredMessage)
  {
  }

  /** A text off the pattern is refused for its format. */
  lemma {:induction false} CleanFormat(raw: Option<string>)
    requires Strip(raw.GetOr("")) != "" && !PatternMatch(Strip(raw.GetOr("")))
    ensures CleanCoordinates(raw) == Failure(FormatMessage)
  {
    MatchesPatternIff(Strip(raw.GetOr("")));
  }

  /** A text on the pattern gets the range checks on its two numbers, and
      is returned stripped when they pass. */
  lemma {:induction false} CleanMatched(raw: Option<string>, i: int, j: int, k: int)
    requires SplitsAt(Strip(raw.GetOr("")), i, j, k)
    ensures var c := Strip(raw.GetOr(""));
      CleanCoordinates(raw) == CheckRanges(c, NumberValue(c[..i]), NumberValue(c[k..]))
  {
    var c := Strip(raw.GetOr(""));
    MatchedRecognized(c, i, j, k);
    ParseMatched(c, i, j, k);
  }

  lemma {:induction false} MessagesDistinct()
    ensures NumberMessage != RequiredMessage && NumberMessage != FormatMessage
    ensures NumberMessage != LatitudeMessage && NumberMessage != LongitudeMessage
  {
  }

  /** A text on the pattern always parses into two numbers. */
  lemma {:induction false} RecognizedParses(s: string)
    requires MatchesPattern(s)
    ensures ParseCoordinates(s).Parsed?
  {
    var i, j, k := RecognizedSplits(s);
    ParseMatched(s, i, j, k);
  }

  lemma {:induction false} RecognizedNotNumberError(raw: Option<string>)
    requires Strip(raw.GetOr("")) != "" && MatchesPattern(Strip(raw.GetOr("")))
    ensures CleanCoordinates(raw) != Failure(NumberMessage)
  {
    StrippedNotNumberError(Strip(raw.GetOr("")));
  }

  lemma {:induction false} StrippedNotNumberError(c: string)
    requires c != "" && MatchesPattern(c)
    ensures CleanStripped(c) != Failure(NumberMessage)
  {
    RecognizedParses(c);
    var p := ParseCoordinates(c);
    assert CleanStripped(c) == CheckRanges(c, p.lat, p.long);
    MessagesDistinct();
  }

  /** A text that matches the pattern has exactly one comma and two numbers,
      so "Koordinat harus berupa angka valid" is never the answer. */
  lemma {:induction false} CleanNeverNumberError(raw: Option<string>)
    ensures CleanCoordinates(raw) != Failure(NumberMessage)
  {
    var c := Strip(raw.GetOr(""));
    if c != "" && MatchesPattern(c) {
      RecognizedNotNumberError(raw);
    } else {
      MessagesDistinct();
    }
  }

  /** The answer depends on the stripped text only. */
  lemma {:induction false} CleanOfStripped(raw1: Option<string>, raw2: Option<string>)
    requires Strip(raw1.GetOr("")) == Strip(raw2.GetOr(""))
    ensures CleanCoordinates(raw1) == CleanCoordinates(raw2)
  {
  }

  lemma {:induction false} AcceptedRecognized(raw: Option<string>)
    requires CleanCoordinates(raw).Success?
    ensures Strip(raw.GetOr("")) != "" && MatchesPattern(Strip(raw.GetOr("")))
  {
  }

  /** An accepted text is the stripped input, matches the pattern and
      holds coordinates in range. */
  lemma {:induction false} CleanAccepted(raw: Option<string>)
    requires CleanCoordinates(raw).Success?
    ensures var c := CleanCoordinates(raw).value;
      && c == Strip(raw.GetOr(""))
      && PatternMatch(c)
      && ParseCoordinates(c).Parsed?
      && -90.0 <= ParseCoordinates(c).lat <= 90.0
      && -180.0 <= ParseCoordinates(c).long <= 180.0
  {
    var c := Strip(raw.GetOr(""));
    AcceptedRecognized(raw);
    var i, j, k := RecognizedSplits(c);
    CleanMatched(raw, i, j, k);
    ParseMatched(c, i, j, k);
  }

  /** Cleaning is idempotent: the cleaned text is accepted again as it
      is. */
  lemma {:induction false} CleanIdempotent(raw: Option<string>)
    requires CleanCoordinates(raw).Success?
    ensures CleanCoordinates(Some(CleanCoordinates(raw).value)) == CleanCoordinates(raw)
  {
    var c := Strip(raw.GetOr(""));
    CleanAccepted(raw);
    StripIdempotent(c);
    CleanOfStripped(Some(c), raw);
  }

  /** Saving never raises on a text that cleaning accepted: it parses into
      both coordinates. */
  lemma {:induction false} CleanedParses(raw: Option<string>)
    requires CleanCoordinates(raw).Success?
    ensures ParseCoordinates(Strip(CleanCoordinates(raw).value)).Parsed?
  {
    CleanAccepted(raw);
    StripIdempotent(raw.GetOr(""));
  }

  // ---------------------------------------------------------------------
  // The coordinate columns and their text
  // ---------------------------------------------------------------------

  /** Decimal places of the lat and long columns. */
  const Places: nat := 15

  /** One unit of a column is 10^-15. */
  const Scale: nat := 1_000_000_000_000_000

  /** The number a column holding `units` stands for. */
  function ColumnValue(units: int): real {
    units as real / Scale as real
  }

  /** What a column keeps of an assigned number: the number rounded half to
      even at the 15th decimal place. */
  function Quantize(x: real): int {
    RoundHalfEven(x * Scale as real)
  }

  /** A stored value is kept as it is. */
  lemma {:induction false} QuantizeColumnValue(units: int)
    ensures Quantize(ColumnValue(units)) == units
  {
    RoundScaledWhole(units, Scale);
  }

  function Zeros(n: nat): (r: string)
    ensures |r| == n && AllDigits(r)
  {
    seq(n, _ => '0')
  }

  /** The digits of `m` with the point placed 15 from the right, "0." and
      zeros in front when there are no more than 15 digits. */
  function FixedDigits(m: nat): string {
    PointedDigits(NatToString(m))
  }

  /** A run of decimal digits read as that many units of 10^-15: a point
      before the last fifteen digits, padded with zeros after "0." when
      there are fewer. */
  function PointedDigits(digits: string): string {
    if |digits| <= Places then "0." + Zeros(Places - |digits|) + digits
    else digits[..|digits| - Places] + "." + digits[|digits| - Places..]
  }

  /** `format(d, 'f')` for a decimal with 15 places. */
  function FixedPointStr(units: int): string {
    if units < 0 then "-" + FixedDigits(-units) else FixedDigits(units)
  }

  /** `str(d)` for a decimal with 15 places (exponent -15): written plainly
      when its adjusted exponent is at least -6, and in scientific notation
      ("1.00000000E-7") otherwise. */
  function DecimalStr(units: int): string {
    var m := if units < 0 then -units else units;
    var sign := if units < 0 then "-" else "";
    var digits := NatToString(m);
    var leftdigits := |digits| - Places;
    if leftdigits > -6 then
      // "0." and -leftdigits zeros before the digits when the point comes
      // first, the point after leftdigits digits otherwise
      sign + PointedDigits(digits)
    else
      sign + digits[..1] + (if |digits| > 1 then "." + digits[1..] else "") + "E-" + NatToString(1 - leftdigits)
  }

  lemma {:induction false} Regroup(x: int, p: int, y: int, z: int)
    ensures (x * p + y) * 10 + z == x * (10 * p) + (y * 10 + z)
  {
  }

  lemma {:induction false} DigitsValueAppend(a: string, b: string)
    requires AllDigits(a) && AllDigits(b)
    ensures DigitsValue(a + b) == DigitsValue(a) * Pow10(|b|) + DigitsValue(b)
    decreases |b|
  {
    if b == [] {
      assert a + b == a;
    } else {
      var init, last := b[..|b| - 1], b[|b| - 1] as int - '0' as int;
      assert (a + b)[..|a + b| - 1] == a + init;
      assert (a + b)[|a + b| - 1] == b[|b| - 1];
      DigitsValueAppend(a, init);
      assert DigitsValue(a + b) == DigitsValue(a + init) * 10 + last;
      assert DigitsValue(b) == DigitsValue(init) * 10 + last;
      Regroup(DigitsValue(a), Pow10(|init|), DigitsValue(init), last);
    }
  }

  lemma {:induction false} DigitsValueZeros(n: nat)
    ensures DigitsValue(Zeros(n)) == 0
  {
    if n > 0 {
      assert Zeros(n)[..n - 1] == Zeros(n - 1);
      DigitsValueZeros(n - 1);
    }
  }

  lemma {:induction false} DottedChars(a: string, b: string)
    requires AllDigits(a) && AllDigits(b)
    ensures (a + "." + b)[|a|] == '.'
    ensures forall i :: 0 <= i < |a + "." + b| && i != |a| ==> IsDigit((a + "." + b)[i])
  {
    var t := a + "." + b;
    forall i | 0 <= i < |t| && i != |a| ensures IsDigit(t[i]) {
      if i < |a| {
        assert t[i] == a[i];
      } else {
        assert t[i] == b[i - |a| - 1];
      }
    }
  }

  lemma {:induction false} DottedShape(t: string, d: nat)
    requires d < |t| - 1 && t[d] == '.'
    requires forall i :: 0 <= i < |t| && i != d ==> IsDigit(t[i])
    ensures IsUnsignedNumber(t) && IndexOf(t, '.') == Some(d)
  {
    var p := IndexOf(t, '.');
    assert p.Some? && t[p.value] == '.';
  }

  lemma {:induction false} UnsignedValueAt(t: string, d: nat)
    requires IsUnsignedNumber(t) && IndexOf(t, '.') == Some(d)
    ensures d < |t| && AllDigits(t[..d]) && AllDigits(t[d + 1..])
    ensures UnsignedValue(t) == DigitsValue(t[..d]) as real + DigitsValue(t[d + 1..]) as real / Pow10(|t| - d - 1) as real
  {
  }

  lemma {:induction false} DottedSlices(a: string, b: string)
    ensures (a + "." + b)[..|a|] == a && (a + "." + b)[|a| + 1..] == b
  {
  }

  /** Digits, a point and at least one more digit are an unsigned number
      worth the first digits plus the second ones scaled down. */
  lemma {:induction false} DottedNumber(a: string, b: string)
    requires AllDigits(a) && AllDigits(b) && b != []
    ensures IsUnsignedNumber(a + "." + b)
    ensures UnsignedValue(a + "." + b) == DigitsValue(a) as real + DigitsValue(b) as real / Pow10(|b|) as real
  {
    var t := a + "." + b;
    DottedChars(a, b);
    DottedShape(t, |a|);
    DottedSlices(a, b);
    UnsignedValueAt(t, |a|);
  }

  /** A sign before an unsigned number is read as it says. */
  lemma {:induction false} SignedNumber(t: string)
    ensures IsUnsignedNumber(t) ==> IsNumber(t) && NumberValue(t) == UnsignedValue(t)
    ensures IsUnsignedNumber(t) ==> IsNumber("-" + t) && NumberValue("-" + t) == -UnsignedValue(t)
  {
    if IsUnsignedNumber(t) {
      assert !IsSign(t[0]);
      assert ("-" + t)[1..] == t;
    }
  }

  lemma {:induction false} Pow10Places()
    ensures Pow10(Places) == Scale
  {
    assert Pow10(15) == 1_000_000_000_000_000;
  }

  lemma {:induction false} ScaledSum(x: nat, y: nat, p: nat)
    requires p >= 1
    ensures x as real + y as real / p as real == (x * p + y) as real / p as real
  {
  }

  lemma {:induction false} ZeroPointRegroup(z: string, digits: string)
    ensures "0." + z + digits == "0" + "." + (z + digits)
  {
  }

  lemma {:induction false} PaddedDigitsValue(digits: string)
    requires AllDigits(digits) && |digits| <= Places
    ensures AllDigits(Zeros(Places - |digits|) + digits) && |Zeros(Places - |digits|) + digits| == Places
    ensures DigitsValue(Zeros(Places - |digits|) + digits) == DigitsValue(digits)
  {
    var z := Zeros(Places - |digits|);
    DigitsValueAppend(z, digits);
    DigitsValueZeros(Places - |digits|);
  }

  lemma {:induction false} ShortDigitsValue(digits: string)
    requires AllDigits(digits) && |digits| <= Places
    ensures IsUnsignedNumber("0." + Zeros(Places - |digits|) + digits)
    ensures UnsignedValue("0." + Zeros(Places - |digits|) + digits) == DigitsValue(digits) as real / Scale as real
  {
    var z := Zeros(Places - |digits|);
    var b := z + digits;
    ZeroPointRegroup(z, digits);
    PaddedDigitsValue(digits);
    DottedNumber("0", b);
    assert DigitsValue("0") == 0;
    Pow10Places();
  }

  lemma {:induction false} DigitSlices(digits: string, n: int)
    requires AllDigits(digits) && 0 <= n <= |digits|
    ensures AllDigits(digits[..n]) && AllDigits(digits[n..]) && digits[..n] + digits[n..] == digits
  {
  }

  /** A point between two runs of digits that make up `digits`, with at
      least one digit after it. */
  lemma {:induction false} PointBetween(a: string, b: string, digits: string)
    requires AllDigits(a) && AllDigits(b) && b != [] && digits == a + b
    ensures IsUnsignedNumber(a + "." + b)
    ensures UnsignedValue(a + "." + b) == DigitsValue(digits) as real / Pow10(|b|) as real
  {
    DottedNumber(a, b);
    DigitsValueAppend(a, b);
    ScaledParts(DigitsValue(a), DigitsValue(b), Pow10(|b|), DigitsValue(digits));
  }

  lemma {:induction false} ScaledParts(x: nat, y: nat, p: nat, d: nat)
    requires p >= 1 && d == x * p + y
    ensures x as real + y as real / p as real == d as real / p as real
  {
    ScaledSum(x, y, p);
  }

  lemma {:induction false} LongDigitsValue(digits: string)
    requires AllDigits(digits) && |digits| > Places
    ensures IsUnsignedNumber(digits[..|digits| - Places] + "." + digits[|digits| - Places..])
    ensures UnsignedValue(digits[..|digits| - Places] + "." + digits[|digits| - Places..]) == DigitsValue(digits) as real / Scale as real
  {
    DigitSlices(digits, |digits| - Places);
    PointBetween(digits[..|digits| - Places], digits[|digits| - Places..], digits);
    Pow10Places();
  }

  lemma {:induction false} PointedDigitsValue(digits: string)
    requires AllDigits(digits)
    ensures IsUnsignedNumber(PointedDigits(digits))
    ensures UnsignedValue(PointedDigits(digits)) == DigitsValue(digits) as real / Scale as real
  {
    if |digits| <= Places {
      ShortDigitsValue(digits);
    } else {
      LongDigitsValue(digits);
    }
  }

  /** The fixed-point digits of `m` read back as `m` units. */
  lemma {:induction false} FixedDigitsValue(m: nat)
    ensures IsUnsignedNumber(FixedDigits(m))
    ensures UnsignedValue(FixedDigits(m)) == m as real / Scale as real
  {
    NatToStringRoundTrip(m);
    PointedDigitsValue(NatToString(m));
  }

  /** The fixed-point text of a stored value is a number on the grammar the
      form accepts, worth exactly the stored value. */
  lemma {:induction false} FixedPointValue(units: int)
    ensures IsNumber(FixedPointStr(units))
    ensures NumberValue(FixedPointStr(units)) == ColumnValue(units)
  {
    if units < 0 {
      NegativeFixedPoint(units);
    } else {
      NonNegativeFixedPoint(units);
    }
  }

  lemma {:induction false} NegativeFixedPoint(units: int)
    requires units < 0
    ensures IsNumber(FixedPointStr(units)) && NumberValue(FixedPointStr(units)) == ColumnValue(units)
  {
    NegatedFixedDigits(-units, FixedPointStr(units));
    NegatedColumnValue(units);
  }

  lemma {:induction false} NegatedFixedDigits(m: nat, s: string)
    requires s == "-" + FixedDigits(m)
    ensures IsNumber(s) && NumberValue(s) == -(m as real / Scale as real)
  {
    FixedDigitsValue(m);
    NegatedAt(s, FixedDigits(m), m as real / Scale as real);
  }

  lemma {:induction false} NonNegativeFixedPoint(units: int)
    requires units >= 0
    ensures IsNumber(FixedPointStr(units)) && NumberValue(FixedPointStr(units)) == ColumnValue(units)
  {
    FixedDigitsValue(units);
    SignedNumber(FixedDigits(units));
  }

  /** `SignedNumber` for a text already known to be the negated one. */
  lemma {:induction false} NegatedAt(s: string, t: string, v: real)
    requires s == "-" + t
    ensures IsUnsignedNumber(t) && UnsignedValue(t) == v ==> IsNumber(s) && NumberValue(s) == -v
  {
    SignedNumber(t);
  }

  lemma {:induction false} NegatedColumnValue(units: int)
    requires units < 0
    ensures -((-units) as real / Scale as real) == ColumnValue(units)
  {
  }

  /** A number below 10^k has at most k digits, and one of at least 10^k
      has more. */
  lemma {:induction false} NatToStringLength(m: nat, k: nat)
    requires k >= 1
    ensures m < Pow10(k) <==> |NatToString(m)| <= k
  {
    if m >= 10 {
      assert |NatToString(m)| == |NatToString(m / 10)| + 1;
      if k == 1 {
        assert |NatToString(m / 10)| >= 1;
      } else {
        NatToStringLength(m / 10, k - 1);
      }
    } else {
      assert Pow10(k) == 10 * Pow10(k - 1);
    }
  }

  /** From one unit of 10^-6 up, `str` writes a stored value plainly, and
      that is its fixed-point text. */
  lemma {:induction false} DecimalStrPlain(units: int)
    requires units <= -1_000_000_000 || 1_000_000_000 <= units
    ensures DecimalStr(units) == FixedPointStr(units)
  {
    var m := if units < 0 then -units else units;
    NatToStringLength(m, 9);
    assert Pow10(9) == 1_000_000_000;
    if units >= 0 {
      assert "" + FixedDigits(m) == FixedDigits(m);
    }
  }

  /** Below one unit of 10^-6 `str` switches to scientific notation: the
      text holds an 'E'. */
  lemma {:induction false} DecimalStrTiny(units: int)
    requires -1_000_000_000 < units < 1_000_000_000
    ensures 'E' in DecimalStr(units)
  {
    var m := if units < 0 then -units else units;
    NatToStringLength(m, 9);
    assert Pow10(9) == 1_000_000_000;
    var digits := NatToString(m);
    var sign := if units < 0 then "-" else "";
    var x := sign + digits[..1] + (if |digits| > 1 then "." + digits[1..] else "");
    var t := x + "E-" + NatToString(1 - (|digits| - Places));
    assert DecimalStr(units) == t;
    assert t[|x|] == 'E';
  }

  lemma {:induction false} SpacePrefix(s: string, n: int)
    requires 0 <= n <= |s| && AllSpace(s[..n])
    ensures forall i :: 0 <= i < n ==> IsSpace(s[i])
  {
    assert forall i :: 0 <= i < n ==> s[..n][i] == s[i];
  }

  lemma {:induction false} SpaceSuffix(s: string, n: int)
    requires 0 <= n <= |s| && AllSpace(s[n..])
    ensures forall i :: n <= i < |s| ==> IsSpace(s[i])
  {
    assert forall i :: n <= i < |s| ==> s[n..][i - n] == s[i];
  }

  /** A character that is not white space survives stripping. */
  lemma {:induction false} StripKeeps(s: string, e: int)
    requires 0 <= e < |s| && !IsSpace(s[e])
    ensures s[e] in Strip(s)
  {
    var l := StripLeft(s);
    var n := |s| - |l|;
    SpacePrefix(s, n);
    assert l[e - n] == s[e];
    var r := StripRight(l);
    SpaceSuffix(l, |r|);
    assert r[e - n] == s[e];
  }

  /** Every character of a text on the pattern is a number character, white
      space or the comma. */
  lemma {:induction false} SplitsAtChars(s: string, i: int, j: int, k: int)
    requires SplitsAt(s, i, j, k)
    ensures forall p :: 0 <= p < |s| ==> IsNumberChar(s[p]) || IsSpace(s[p]) || s[p] == ','
  {
    NumberChars(s[..i]);
    NumberChars(s[k..]);
    assert forall p :: 0 <= p < i ==> s[..i][p] == s[p];
    assert forall p :: i <= p < j ==> s[i..j][p - i] == s[p];
    assert forall p :: j < p < k ==> s[j + 1..k][p - j - 1] == s[p];
    assert forall p :: k <= p < |s| ==> s[k..][p - k] == s[p];
  }

  /** No text with an 'E' in it is on the coordinate pattern. */
  lemma {:induction false} NoExponentInPattern(s: string, e: int)
    requires 0 <= e < |s| && s[e] == 'E'
    ensures !PatternMatch(s)
  {
    forall i, j, k | SplitsAt(s, i, j, k) ensures false {
      SplitsAtChars(s, i, j, k);
    }
  }

  // ---------------------------------------------------------------------
  // The admin form: prefill and save
  // ---------------------------------------------------------------------

  /** The prefill of the coordinates field: shown only when the instance has
      a primary key and both coordinates are set and nonzero (Python
      truthiness), as the two stored values rendered by `render` and joined
      by ", ". */
  function PrefillWith(render: int -> string, pk: Option<nat>, lat: Option<int>, long: Option<int>): Option<string> {
    if pk.Some? && pk.value != 0 && lat.Some? && lat.value != 0 && long.Some? && long.value != 0
    then Some(render(lat.value) + ", " + render(long.value))
    else None
  }

  /** The prefill as the form writes it: the f-string renders each stored
      decimal as `str` does. */
  function PrefillAsWritten(pk: Option<nat>, lat: Option<int>, long: Option<int>): Option<string> {
    PrefillWith(DecimalStr, pk, lat, long)
  }

  /** The prefill rendering each stored decimal in fixed point. */
  function Prefill(pk: Option<nat>, lat: Option<int>, long: Option<int>): Option<string> {
    PrefillWith(FixedPointStr, pk, lat, long)
  }

  lemma {:induction false} JoinedSlices(a: string, b: string)
    ensures var s := a + ", " + b;
      s[..|a|] == a && s[|a|..|a|] == [] && s[|a|] == ','
      && s[|a| + 1..|a| + 2] == " " && s[|a| + 2..] == b
  {
  }

  lemma {:induction false} JoinedStrip(a: string, b: string)
    requires a != [] && !IsSpace(a[0]) && b != [] && !IsSpace(b[|b| - 1])
    ensures Strip(a + ", " + b) == a + ", " + b
  {
    var s := a + ", " + b;
    assert s[0] == a[0] && s[|s| - 1] == b[|b| - 1];
    assert [] + s + [] == s;
    StripPadded([], s, []);
  }

  /** Two numbers joined by ", " are on the pattern, split at the comma. */
  lemma {:induction false} JoinedSplits(a: string, b: string)
    requires IsNumber(a) && IsNumber(b)
    ensures SplitsAt(a + ", " + b, |a|, |a|, |a| + 2)
    ensures (a + ", " + b)[..|a|] == a && (a + ", " + b)[|a| + 2..] == b
    ensures Strip(a + ", " + b) == a + ", " + b
  {
    NumberEdges(a);
    NumberEdges(b);
    JoinedSlices(a, b);
    assert AllSpace(" ");
    JoinedStrip(a, b);
  }

  lemma {:induction false} CleanSplitText(s: string, i: int, j: int, k: int)
    requires Strip(s) == s && SplitsAt(s, i, j, k)
    ensures CleanCoordinates(Some(s)) == CheckRanges(s, NumberValue(s[..i]), NumberValue(s[k..]))
  {
    var raw := Some(s);
    assert raw.GetOr("") == s;
    CleanMatched(raw, i, j, k);
  }

  lemma {:induction false} CleanJoined(a: string, b: string)
    requires IsNumber(a) && IsNumber(b)
    ensures CleanCoordinates(Some(a + ", " + b)) == CheckRanges(a + ", " + b, NumberValue(a), NumberValue(b))
  {
    var s := a + ", " + b;
    JoinedSplits(a, b);
    CleanSplitText(s, |a|, |a|, |a| + 2);
  }

  lemma {:induction false} JoinedNumbersClean(a: string, b: string)
    requires IsNumber(a) && IsNumber(b)
    requires -90.0 <= NumberValue(a) <= 90.0 && -180.0 <= NumberValue(b) <= 180.0
    ensures CleanCoordinates(Some(a + ", " + b)) == Success(a + ", " + b)
  {
    CleanJoined(a, b);
  }

  /** Two numbers in range joined by ", " are accepted unchanged and parse
      into their values. */
  lemma {:induction false} JoinedNumbersAccepted(a: string, b: string)
    requires IsNumber(a) && IsNumber(b)
    requires -90.0 <= NumberValue(a) <= 90.0 && -180.0 <= NumberValue(b) <= 180.0
    ensures CleanCoordinates(Some(a + ", " + b)) == Success(a + ", " + b)
    ensures ParseCoordinates(a + ", " + b) == Parsed(NumberValue(a), NumberValue(b))
  {
    JoinedNumbersClean(a, b);
    JoinedSplits(a, b);
    ParseMatched(a + ", " + b, |a|, |a|, |a| + 2);
  }

  lemma {:induction false} PrefillShown(pk: nat, lat: int, long: int)
    requires pk != 0 && lat != 0 && long != 0
    ensures Prefill(Some(pk), Some(lat), Some(long)) == Some(FixedPointStr(lat) + ", " + FixedPointStr(long))
    ensures PrefillAsWritten(Some(pk), Some(lat), Some(long)) == Some(DecimalStr(lat) + ", " + DecimalStr(long))
  {
  }

  /** The fixed-point prefill of a building with nonzero coordinates in
      range is accepted by `clean_coordinates` unchanged, parses back into
      the two stored values, and saving it stores them again. */
  lemma {:induction false} PrefillRoundTrip(pk: nat, lat: int, long: int)
    requires pk != 0 && lat != 0 && long != 0
    requires -90.0 <= ColumnValue(lat) <= 90.0 && -180.0 <= ColumnValue(long) <= 180.0
    ensures var t := Prefill(Some(pk), Some(lat), Some(long));
      && t.Some?
      && CleanCoordinates(t) == Success(t.value)
      && ParseCoordinates(t.value) == Parsed(ColumnValue(lat), ColumnValue(long))
      && Quantize(ColumnValue(lat)) == lat && Quantize(ColumnValue(long)) == long
  {
    PrefillShown(pk, lat, long);
    FixedPointValue(lat);
    FixedPointValue(long);
    JoinedNumbersAccepted(FixedPointStr(lat), FixedPointStr(long));
    QuantizeColumnValue(lat);
    QuantizeColumnValue(long);
  }

  /** As written, a building whose latitude is nonzero but below 10^-6 in
      size gets a prefill in scientific notation, which its own form then
      refuses with the format message. */
  lemma {:induction false} PrefillTinyLatitudeRejected(pk: nat, lat: int, long: int)
    requires pk != 0 && lat != 0 && long != 0
    requires -1_000_000_000 < lat < 1_000_000_000
    ensures var t := PrefillAsWritten(Some(pk), Some(lat), Some(long));
      t.Some? && CleanCoordinates(t) == Failure(FormatMessage)
  {
    var a := DecimalStr(lat);
    var s := a + ", " + DecimalStr(long);
    PrefillShown(pk, lat, long);
    DecimalStrTiny(lat);
    var e :| 0 <= e < |a| && a[e] == 'E';
    assert s[e] == 'E';
    StripKeeps(s, e);
    var r := Strip(s);
    var f :| 0 <= f < |r| && r[f] == 'E';
    NoExponentInPattern(r, f);
    CleanFormat(Some(s));
  }

  /** From 10^-6 up the written prefill is the fixed-point one. */
  lemma {:induction false} PrefillAsWrittenPlain(pk: Option<nat>, lat: int, long: int)
    requires lat <= -1_000_000_000 || 1_000_000_000 <= lat
    requires long <= -1_000_000_000 || 1_000_000_000 <= long
    ensures PrefillAsWritten(pk, Some(lat), Some(long)) == Prefill(pk, Some(lat), Some(long))
  {
    DecimalStrPlain(lat);
    DecimalStrPlain(long);
  }

  /** A building as the form sees it: its primary key (None before it is
      first saved), its two coordinate columns in units of 10^-15 (None
      while unset) and the fields the form passes through. */
  class GedungInstance {
    var pk: Option<nat>
    var lat: Option<int>
    var long: Option<int>
    var namaGedung: string
    var alamat: string

    constructor(pk: Option<nat>, lat: Option<int>, long: Option<int>, namaGedung: string, alamat: string)
      ensures this.pk == pk && this.lat == lat && this.long == long
      ensures this.namaGedung == namaGedung && this.alamat == alamat
    {
      this.pk := pk;
      this.lat := lat;
      this.long := long;
      this.namaGedung := namaGedung;
      this.alamat := alamat;
    }
  }

  class GedungAdminForm {
    const instance: GedungInstance
    /** The initial text of the coordinates field. */
    var initial: Option<string>

    /** `__init__`: prefills the coordinates field for a building that has
        a primary key and both coordinates. */
    constructor(instance: GedungInstance)
      ensures this.instance == instance
      ensures initial == Prefill(instance.pk, instance.lat, instance.long)
    {
      this.instance := instance;
      if instance.pk.Some? && instance.pk.value != 0 && instance.lat.Some? && instance.lat.value != 0
         && instance.long.Some? && instance.long.value != 0 {
        initial := Some(FixedPointStr(instance.lat.value) + ", " + FixedPointStr(instance.long.value));
      } else {
        initial := None;
      }
    }

    /** `save`: with a nonempty stripped coordinates text, splits it at the
        comma and assigns the latitude, then the longitude; `ok` is false
        where `save` raises (not two fields, or a field that is not a
        number), and the assignments made before that stay. Each assigned
        number is kept as the column keeps it. */
    method Save(cleaned: Option<string>) returns (ok: bool)
      modifies instance`lat, instance`long
      ensures Strip(cleaned.GetOr("")) == "" ==>
        ok && instance.lat == old(instance.lat) && instance.long == old(instance.long)
      ensures var p := ParseCoordinates(Strip(cleaned.GetOr("")));
        Strip(cleaned.GetOr("")) != "" ==>
          && ok == p.Parsed?
          && instance.lat == (if p.NotParsed? then old(instance.lat) else Some(Quantize(p.lat)))
          && instance.long == (if p.Parsed? then Some(Quantize(p.long)) else old(instance.long))
    {
      var coords := Strip(cleaned.GetOr(""));
      ok := true;
      if coords != "" {
        ghost var p := ParseCoordinates(coords);
        var parts := Split(coords, ',');
        if |parts| != 2 {
          assert p == NotParsed;
          return false;
        }
        var lat := ParseFloat(Strip(parts[0]));
        if lat.None? {
          assert p == NotParsed;
          return false;
        }
        instance.lat := Some(Quantize(lat.value));
        var long := ParseFloat(Strip(parts[1]));
        if long.None? {
          assert p == LatOnly(lat.value);
          return false;
        }
        instance.long := Some(Quantize(long.value));
        assert p == Parsed(lat.value, long.value);
      }
    }
  }
}
