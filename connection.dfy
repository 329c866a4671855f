/**
  Where the server lives and how the application authenticates to it: the base
  URL and API key come from the request body, falling back to the process
  environment (given here as parameters) when the request leaves them blank.
 */
module Connection {
  import opened Wrappers
  import Text
  import Json

  /** An error answer of a route: an HTTP status and the `error` message of its JSON body. */
  datatype ErrorResponse = ErrorResponse(status: int, message: string)

  const BaseRequired: ErrorResponse := ErrorResponse(400, "Jellyfin base URL is required")

  /**
    `_normalized_base(raw)`: the stripped text with every trailing `/` removed.
    The result is the stripped text up to a final run of slashes, and never
    ends in `/`.
   */
  function NormalizedBase(raw: Json.Json): (r: string)
    ensures r <= Json.StrippedText(raw)
    ensures forall i :: |r| <= i < |Json.StrippedText(raw)| ==> Json.StrippedText(raw)[i] == '/'
    ensures r == [] || r[|r| - 1] != '/'
  {
    Text.RStripChar(Json.StrippedText(raw), '/')
  }

  /** A falsy value (None, "", 0, an empty list or object) normalises to the empty string. */
  lemma NormalizedBaseFalsy(raw: Json.Json)
    requires !Json.Truthy(raw)
    ensures NormalizedBase(raw) == ""
  {
    assert Json.Or(raw, Json.JStr("")) == Json.JStr("");
    assert Text.TrimStart("") == "";
    assert Text.Strip("") == "";
  }

  /** The request's value when it is non-blank, else the environment's. */
  function Prefer(request: string, env: string): (r: string)
    ensures request != "" ==> r == request
    ensures request == "" ==> r == env
  {
    if request != "" then request else env
  }

  /**
    `resolve_jellyfin_config(data)`, each environment variable given as the
    string `os.getenv` returns (None when unset): the request's base URL when
    it normalises to something non-empty, else the environment's; the API key
    by the same rule after stripping.
   */
  function ResolveConfig(data: map<string, Json.Json>, envBase: Option<string>, envKey: Option<string>): (r: (string, string))
    ensures r.0 == NormalizedBase(Json.Get(data, "base")) || r.0 == NormalizedBase(Json.OptionalString(envBase))
    ensures r.0 == "" <==> NormalizedBase(Json.Get(data, "base")) == "" && NormalizedBase(Json.OptionalString(envBase)) == ""
    ensures r.1 == Json.StrippedText(Json.Get(data, "apiKey")) || r.1 == Json.StrippedText(Json.OptionalString(envKey))
    ensures r.1 == "" <==> Json.StrippedText(Json.Get(data, "apiKey")) == "" && Json.StrippedText(Json.OptionalString(envKey)) == ""
    ensures NormalizedBase(Json.Get(data, "base")) != "" ==> r.0 == NormalizedBase(Json.Get(data, "base"))
    ensures NormalizedBase(Json.Get(data, "base")) == "" ==> r.0 == NormalizedBase(Json.OptionalString(envBase))
    ensures Json.StrippedText(Json.Get(data, "apiKey")) != "" ==> r.1 == Json.StrippedText(Json.Get(data, "apiKey"))
    ensures Json.StrippedText(Json.Get(data, "apiKey")) == "" ==> r.1 == Json.StrippedText(Json.OptionalString(envKey))
    ensures (r.0 == [] || r.0[|r.0| - 1] != '/') && Text.IsStripped(r.1)
  {
    var requestBase := NormalizedBase(Json.Get(data, "base"));
    var envBaseText := NormalizedBase(Json.OptionalString(envBase));
    PreferNoSlash(requestBase, envBaseText);
    (Prefer(requestBase, envBaseText),
     Prefer(Json.StrippedText(Json.Get(data, "apiKey")), Json.StrippedText(Json.OptionalString(envKey))))
  }

  lemma PreferNoSlash(a: string, b: string)
    requires a == [] || a[|a| - 1] != '/'
    requires b == [] || b[|b| - 1] != '/'
    ensures var r := Prefer(a, b); r == [] || r[|r| - 1] != '/'
  {
  }

  /**
    Request values take priority: a non-blank request value is used whatever the
    environment says, and the environment value is used exactly when the request
    value is blank.
   */
  lemma ResolveConfigPriority(data: map<string, Json.Json>, envBase: Option<string>, envKey: Option<string>,
                              otherBase: Option<string>, otherKey: Option<string>)
    ensures var r := ResolveConfig(data, envBase, envKey);
      var requestBase := NormalizedBase(Json.Get(data, "base"));
      var requestKey := Json.StrippedText(Json.Get(data, "apiKey"));
      (requestBase != "" ==> r.0 == requestBase && ResolveConfig(data, otherBase, otherKey).0 == r.0)
      && (requestBase == "" ==> r.0 == NormalizedBase(Json.OptionalString(envBase)))
      && (requestKey != "" ==> r.1 == requestKey && ResolveConfig(data, otherBase, otherKey).1 == r.1)
      && (requestKey == "" ==> r.1 == Json.StrippedText(Json.OptionalString(envKey)))
  {
  }

  /**
    `validate_base(base, ...)`: the normalised base when it is non-empty, else
    the 400 answer "Jellyfin base URL is required".
   */
  function ValidateBase(base: string): (r: Result<string, ErrorResponse>)
    ensures r.Ok? <==> NormalizedBase(Json.JStr(base)) != ""
    ensures r.Ok? ==> r.value == NormalizedBase(Json.JStr(base)) && r.value[|r.value| - 1] != '/'
    ensures r.Err? ==> r.error == BaseRequired
  {
    var normalized := NormalizedBase(Json.JStr(base));
    if normalized == "" then Err(BaseRequired) else Ok(normalized)
  }

  lemma RStripCharNoop(s: string, c: char)
    requires s == [] || s[|s| - 1] != c
    ensures Text.RStripChar(s, c) == s
  {
  }

  /**
    Normalising twice changes nothing when no whitespace sits right before the
    trailing slashes that were removed (that is, when the result does not end
    in whitespace).
   */
  lemma NormalizedBaseIdempotent(raw: Json.Json)
    requires var r := NormalizedBase(raw); r == [] || !Text.IsSpace(r[|r| - 1])
    ensures NormalizedBase(Json.JStr(NormalizedBase(raw))) == NormalizedBase(raw)
  {
    var r := NormalizedBase(raw);
    var t := Json.StrippedText(raw);
    if r != [] {
      assert Text.IsStripped(r) by {
        assert Text.IsStripped(t) && r[0] == t[0];
      }
      Json.StrippedTextOfStripped(r);
      RStripCharNoop(r, '/');
    }
  }
}
