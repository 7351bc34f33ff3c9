/** The API-key gate of the inter-application API: the allowed keys are read
    once from the comma-separated environment value, and each request's
    `X-API-Key` header (None when the header is absent) is checked against
    them. */
module ApiAuth {
  import opened Wrappers
  import Text

  datatype HttpError = HttpError(status: int, message: string)

  /** The allowed keys: none when the value is unset or empty, otherwise one
      per comma-separated field, each stripped of surrounding white space. */
  function ParseAllowedKeys(env: Option<string>): (keys: seq<string>)
    ensures env.None? || env == Some("") ==> keys == []
    ensures env.Some? && env.value != "" ==>
      |keys| == |Text.Split(env.value, ',')|
      && forall i :: 0 <= i < |keys| ==> keys[i] == Text.Strip(Text.Split(env.value, ',')[i])
  {
    match env
    case None => []
    case Some(s) =>
      if s == "" then []
      else
        var fields := Text.Split(s, ',');
        seq(|fields|, i requires 0 <= i < |fields| => Text.Strip(fields[i]))
  }

  /** The decision for one request: 503 while no key is configured, the key
      itself when it is one of the allowed keys, 401 otherwise. */
  function Authenticate(keys: seq<string>, key: Option<string>): (r: Result<string, HttpError>)
    ensures r.Success? <==> keys != [] && key.Some? && key.value in keys
    ensures r.Success? ==> r.value == key.value
    ensures keys == [] ==> r == Failure(HttpError(503, "No API keys configured"))
    ensures keys != [] && r.Failure? ==> r == Failure(HttpError(401, "Invalid"))
  {
    if keys == [] then Failure(HttpError(503, "No API keys configured"))
    else if key.Some? && key.value in keys then Success(key.value)
    else Failure(HttpError(401, "Invalid"))
  }

  /** With the value unset or empty every request is refused with 503,
      whatever key it carries. */
  lemma {:induction false} UnconfiguredRefusesAll(env: Option<string>, key: Option<string>)
    requires env.None? || env == Some("")
    ensures Authenticate(ParseAllowedKeys(env), key) == Failure(HttpError(503, "No API keys configured"))
  {
  }

  /** There is one key per comma-separated field, that is one more than there
      are commas, in the order of the fields. */
  lemma {:induction false} KeyCount(s: string)
    requires s != ""
    ensures |ParseAllowedKeys(Some(s))| == Text.Count(s, ',') + 1
  {
    Text.SplitCount(s, ',');
  }

  /** A key written as one of the comma-separated fields, with white space
      around it, is accepted, and the accepted value is the key without that
      white space. */
  lemma {:induction false} PaddedKeyAccepted(fields: seq<string>, i: nat, w1: string, k: string, w2: string)
    requires forall j :: 0 <= j < |fields| ==> ',' !in fields[j]
    requires i < |fields| && fields[i] == w1 + k + w2
    requires Text.AllSpace(w1) && Text.AllSpace(w2)
    requires k != [] && !Text.IsSpace(k[0]) && !Text.IsSpace(k[|k| - 1])
    ensures Authenticate(ParseAllowedKeys(Some(Text.Join(fields, ','))), Some(k)) == Success(k)
  {
    var env := Text.Join(fields, ',');
    Text.SplitJoin(fields, ',');
    var keys := ParseAllowedKeys(Some(env));
    Text.StripPadded(w1, k, w2);
    assert keys[i] == k;
  }
}
