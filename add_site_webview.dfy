/**
 * src/webviews/addSiteWebview.ts, the part that is not UI: the URL normalisers, the form
 * sanitiser, and the site record (and the secret to store) a submitted form becomes.
 * Whether a text parses as an http(s) URL (`new URL(..)`) is the parameter `isHttpUrl`.
 */
module AddSiteWebview {
  import opened Wrappers
  import opened Types
  import opened Strings
  import Site

  // ---------------------------------------------------------------------------
  // URL normalisation

  /** The API path a site gets when the form leaves it empty, without its final '/'. */
  const DefaultApiPath := "vscode-api"

  /**
   * `normalizeApiPath(api)`: "vscode-api/" for an empty path; an absolute http(s) URL
   * with its trailing slashes cut to one; anything else with the slashes at both ends
   * cut and one '/' appended.
   */
  function NormalizeApiPath(api: string): (r: string)
    ensures r != [] && r[|r| - 1] == '/'
    ensures api == "" ==> r == DefaultApiPath + "/"
  {
    if api == "" then DefaultApiPath + "/"
    else if StartsWithHttpScheme(api) then TrimRightSlash(api) + "/"
    else StripSlashes(api) + "/"
  }

  /** An absolute URL keeps everything up to its trailing slashes, and exactly one '/' ends it. */
  lemma NormalizeApiPathAbsolute(api: string)
    requires StartsWithHttpScheme(api)
    ensures var r := NormalizeApiPath(api);
      r[..|r| - 1] <= api && (|r| == 1 || r[|r| - 2] != '/') &&
      forall i :: |r| - 1 <= i < |api| ==> api[i] == '/'
  {
    var r := NormalizeApiPath(api);
    assert r[..|r| - 1] == TrimRightSlash(api);
  }

  /**
   * A relative path keeps what lies between its leading and its trailing slashes, and
   * one '/' ends it.
   */
  lemma NormalizeApiPathRelative(api: string)
    requires api != "" && !StartsWithHttpScheme(api)
    ensures var r := NormalizeApiPath(api);
      var p := r[..|r| - 1];
      (p == [] || (p[0] != '/' && p[|p| - 1] != '/')) &&
      exists k :: OccursAt(api, p, k) &&
        (forall i :: 0 <= i < k ==> api[i] == '/') &&
        (forall i :: k + |p| <= i < |api| ==> api[i] == '/')
  {
    var p := StripSlashes(api);
    var k := StripSlashesSpan(api);
    var r := NormalizeApiPath(api);
    assert r[..|r| - 1] == p;
  }

  /** Every normalised path is a path with no slash at either end, followed by one '/'. */
  lemma NormalizedForm(api: string) returns (q: string)
    ensures q == [] || (q[0] != '/' && q[|q| - 1] != '/')
    ensures NormalizeApiPath(api) == q + "/"
  {
    if api == "" {
      q := DefaultApiPath;
      assert q[0] == 'v' && q[|q| - 1] == 'i';
    } else if StartsWithHttpScheme(api) {
      q := TrimRightSlash(api);
      assert q != [] && q[0] == api[0] by {
        assert LowerChar(api[0]) == 'h';
      }
    } else {
      q := StripSlashes(api);
    }
  }

  /** Normalising a normalised path changes nothing. */
  lemma NormalizeApiPathIdempotent(api: string)
    ensures NormalizeApiPath(NormalizeApiPath(api)) == NormalizeApiPath(api)
  {
    var q := NormalizedForm(api);
    NormalizeApiPathOfNormalForm(q);
  }

  /** A path with no slash at either end, followed by one '/', is already normalised. */
  lemma NormalizeApiPathOfNormalForm(q: string)
    requires q == [] || (q[0] != '/' && q[|q| - 1] != '/')
    ensures NormalizeApiPath(q + "/") == q + "/"
  {
    if StartsWithHttpScheme(q + "/") {
      TrimRightSlashAppendSlash(q);
      TrimRightSlashUnique(q, q);
    } else {
      StripSlashesOfStrippedPlusSlash(q);
    }
  }

  /** Stripping the slashes off a normalised path and appending one '/' gives it back. */
  lemma NormalizeApiPathStripped(api: string)
    ensures var n := NormalizeApiPath(api); StripSlashes(n) + "/" == n
  {
    var q := NormalizedForm(api);
    StripSlashesOfStrippedPlusSlash(q);
  }

  /**
   * `normalizeApiUrl(base, api)`, the URL the ping button requests: an absolute `api` as
   * it is, else the base without trailing slashes, '/', the normalised path and "ping".
   */
  function NormalizeApiUrl(base: string, api: string): (url: string)
    ensures StartsWithHttpScheme(api) ==> url == api
  {
    if StartsWithHttpScheme(api) then api
    else TrimRightSlash(base) + "/" + NormalizeApiPath(api) + "ping"
  }

  /**
   * A record saved with a relative API path has the endpoint the form shows: the base URL
   * without trailing slashes, '/', and the normalised path.
   */
  lemma SavedApiBase(base: string, api: string, cfg: SiteConfig)
    requires !StartsWithHttpScheme(NormalizeApiPath(api))
    requires cfg.baseUrl == TrimRightSlash(base) && cfg.apiUrl == NormalizeApiPath(api)
    ensures Site.ApiBase(cfg) == TrimRightSlash(base) + "/" + NormalizeApiPath(api)
  {
    var q := NormalizedForm(api);
    Site.ApiBaseNormalized(cfg, q);
  }

  /**
   * For a relative API path the ping goes to the endpoint the saved site will use:
   * `apiBase()` of a record holding the normalised URLs, followed by "ping".
   */
  lemma PingUrlIsApiBase(base: string, api: string, cfg: SiteConfig)
    requires !StartsWithHttpScheme(api) && !StartsWithHttpScheme(NormalizeApiPath(api))
    requires cfg.baseUrl == TrimRightSlash(base) && cfg.apiUrl == NormalizeApiPath(api)
    ensures NormalizeApiUrl(base, api) == Site.ApiBase(cfg) + "ping"
  {
    SavedApiBase(base, api, cfg);
  }

  /**
   * The two disagree on an API path that becomes an absolute URL only once its leading
   * slashes are stripped (such as "/https://h/a"): the test pings it below the base URL,
   * while the saved record calls the absolute URL itself.
   */
  lemma PingUrlMissesStrippedAbsolute(base: string, api: string, cfg: SiteConfig)
    requires !StartsWithHttpScheme(api) && StartsWithHttpScheme(NormalizeApiPath(api))
    requires cfg.baseUrl == TrimRightSlash(base) && cfg.apiUrl == NormalizeApiPath(api)
    ensures NormalizeApiUrl(base, api) != Site.ApiBase(cfg) + "ping"
  {
    var n := NormalizeApiPath(api);
    var t := TrimRightSlash(n);
    if |t| == |n| {
      assert false;
    }
    assert |Site.ApiBase(cfg) + "ping"| < |n| + 5;
  }

  // ---------------------------------------------------------------------------
  // The submitted form

  /**
   * A message payload as it arrives: any field may be absent; `elements` is None when it
   * is not an array (the form sends the values of the checked type boxes).
   */
  datatype FormPayload = FormPayload(
    name: Option<string>,
    baseUrl: Option<string>,
    apiUrl: Option<string>,
    token: Option<string>,
    elements: Option<seq<ElementType>>)

  datatype Form = Form(name: string, baseUrl: string, apiUrl: string, token: string, elements: seq<ElementType>)

  /** `String(x ?? '').trim()` */
  function Field(x: Option<string>): string
  {
    match x
    case None => ""
    case Some(s) => Trim(s)
  }

  /**
   * `sanitizeForm(p)`: every text field trimmed, an absent one empty; the checked types
   * when there are any, else all four.
   */
  function SanitizeForm(p: FormPayload): (f: Form)
    ensures f.name == Field(p.name) && f.baseUrl == Field(p.baseUrl)
    ensures f.apiUrl == Field(p.apiUrl) && f.token == Field(p.token)
    ensures p.elements.Some? && p.elements.value != [] ==> f.elements == p.elements.value
    ensures p.elements.None? || p.elements.value == [] ==> f.elements == DefaultElementTypes
  {
    Form(Field(p.name), Field(p.baseUrl), Field(p.apiUrl), Field(p.token),
      if p.elements.Some? && p.elements.value != [] then p.elements.value else DefaultElementTypes)
  }

  /** Trimming a field that was already trimmed changes nothing. */
  lemma FieldIdempotent(x: Option<string>)
    ensures Field(Some(Field(x))) == Field(x)
  {
    if x.Some? {
      TrimIdempotent(x.value);
    }
  }

  /** Sanitising a sanitised form again changes nothing. */
  lemma SanitizeFormIdempotent(p: FormPayload)
    ensures var f := SanitizeForm(p);
      SanitizeForm(FormPayload(Some(f.name), Some(f.baseUrl), Some(f.apiUrl), Some(f.token), Some(f.elements))) == f
  {
    FieldIdempotent(p.name);
    FieldIdempotent(p.baseUrl);
    FieldIdempotent(p.apiUrl);
    FieldIdempotent(p.token);
  }

  /** What a submit yields: a rejection, or the record to save and the secret to store. */
  datatype SubmitOutcome =
    | InvalidBaseUrl
    | Saved(site: SiteConfig, secret: Option<(string, string)>)

  /**
   * The submit branch up to the save: reject a base URL that is not http(s); store the
   * token under "modxToken:" + base URL when there is one; build the record.
   */
  function Submit(p: FormPayload, isHttpUrl: string -> bool): (r: SubmitOutcome)
    ensures r == InvalidBaseUrl <==> !isHttpUrl(SanitizeForm(p).baseUrl)
  {
    var f := SanitizeForm(p);
    if !isHttpUrl(f.baseUrl) then InvalidBaseUrl
    else
      var tokenKey := if f.token != "" then Some("modxToken:" + f.baseUrl) else None;
      Saved(
        SiteConfig(
          if f.name != "" then f.name else "Unnamed Site",
          TrimRightSlash(f.baseUrl),
          NormalizeApiPath(f.apiUrl),
          Some(f.elements),
          tokenKey),
        if f.token != "" then Some(("modxToken:" + f.baseUrl, f.token)) else None)
  }

  /** The secret store after `storeToken`, when there is a token to store. */
  function StoreSecret(secrets: map<string, string>, secret: Option<(string, string)>): map<string, string>
  {
    match secret
    case None => secrets
    case Some((k, v)) => secrets[k := v]
  }

  /**
   * The saved record: a non-empty name, the trimmed form name when there is one; a base
   * URL without a trailing slash; an API path ending in '/'; the checked types; and a
   * token key, under which the trimmed token is stored, exactly when a token was given.
   */
  lemma SavedRecord(p: FormPayload, isHttpUrl: string -> bool)
    requires Submit(p, isHttpUrl).Saved?
    ensures var f := SanitizeForm(p);
      var site := Submit(p, isHttpUrl).site;
      var secret := Submit(p, isHttpUrl).secret;
      site.name != "" && (f.name != "" ==> site.name == f.name) &&
      (f.name == "" ==> site.name == "Unnamed Site") &&
      site.baseUrl == TrimRightSlash(f.baseUrl) &&
      site.baseUrl <= f.baseUrl && (site.baseUrl == [] || site.baseUrl[|site.baseUrl| - 1] != '/') &&
      site.apiUrl == NormalizeApiPath(f.apiUrl) &&
      site.apiUrl != [] && site.apiUrl[|site.apiUrl| - 1] == '/' &&
      site.elements == Some(f.elements) && f.elements != [] &&
      (site.tokenKey.Some? <==> f.token != "") &&
      (site.tokenKey.Some? ==> site.tokenKey.value == "modxToken:" + f.baseUrl) &&
      (secret.Some? <==> f.token != "") &&
      (secret.Some? ==> site.tokenKey == Some(secret.value.0) && secret.value.1 == f.token)
  {
  }

  /** The client of a site saved with a token sends that token as its bearer credential. */
  lemma SavedSiteSendsToken(p: FormPayload, isHttpUrl: string -> bool, secrets: map<string, string>)
    requires Submit(p, isHttpUrl).Saved? && SanitizeForm(p).token != ""
    ensures var out := Submit(p, isHttpUrl);
      Site.ClientFor(Site.ModxSite(out.site), StoreSecret(secrets, out.secret)).authorization ==
        Some("Bearer " + SanitizeForm(p).token)
  {
  }

  /** A saved site expands to the checked types, or to all four when none was checked. */
  lemma SavedSiteCategories(p: FormPayload, isHttpUrl: string -> bool)
    requires Submit(p, isHttpUrl).Saved?
    ensures var types := Site.CategoryTypes(Submit(p, isHttpUrl).site);
      types != [] &&
      (p.elements.Some? && p.elements.value != [] ==> types == p.elements.value) &&
      (p.elements.None? || p.elements.value == [] ==> types == DefaultElementTypes)
  {
  }
}
