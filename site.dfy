/**
 * src/site.ts: a configured site and the three kinds of tree node. A site node expands to
 * one category per element type; a category fetches its elements, filters them by the
 * active query and wraps each survivor in an element node, whose resource URI is the
 * virtual path the file system provider decodes.
 */
module Site {
  import opened Wrappers
  import opened Types
  import opened Strings
  import opened Remote
  import UriComponent

  // ---------------------------------------------------------------------------
  // ModxSite: endpoint and client

  /** `new ModxSite(cfg, context)`; its name, URLs, element list and token key are cfg's. */
  datatype ModxSite = ModxSite(cfg: SiteConfig)

  /** `apiBase()`: the API endpoint, always ending in '/'. */
  function ApiBase(cfg: SiteConfig): (r: string)
    ensures r != [] && r[|r| - 1] == '/'
  {
    if StartsWithHttpScheme(cfg.apiUrl) then TrimRightSlash(cfg.apiUrl) + "/"
    else TrimRightSlash(cfg.baseUrl) + "/" + StripSlashes(cfg.apiUrl) + "/"
  }

  /**
   * An absolute API URL is used on its own: the base URL plays no part, the result is
   * the API URL up to its trailing slashes, and exactly one '/' ends it.
   */
  lemma ApiBaseAbsolute(cfg: SiteConfig, otherBase: string)
    requires StartsWithHttpScheme(cfg.apiUrl)
    ensures ApiBase(cfg.(baseUrl := otherBase)) == ApiBase(cfg)
    ensures var r := ApiBase(cfg);
      r[..|r| - 1] <= cfg.apiUrl &&
      (|r| == 1 || r[|r| - 2] != '/') &&
      forall i :: |r| - 1 <= i < |cfg.apiUrl| ==> cfg.apiUrl[i] == '/'
  {
    var r := ApiBase(cfg);
    assert r[..|r| - 1] == TrimRightSlash(cfg.apiUrl);
  }

  /**
   * A relative API URL is joined to the base URL: the base without trailing slashes, one
   * '/', the API path without slashes at either end, and one final '/'.
   */
  lemma ApiBaseRelative(cfg: SiteConfig)
    requires !StartsWithHttpScheme(cfg.apiUrl)
    ensures exists b, p ::
      ApiBase(cfg) == b + "/" + p + "/" &&
      b <= cfg.baseUrl && (b == [] || b[|b| - 1] != '/') &&
      (forall i :: |b| <= i < |cfg.baseUrl| ==> cfg.baseUrl[i] == '/') &&
      (p == [] || (p[0] != '/' && p[|p| - 1] != '/')) &&
      exists k :: OccursAt(cfg.apiUrl, p, k) &&
        (forall i :: 0 <= i < k ==> cfg.apiUrl[i] == '/') &&
        (forall i :: k + |p| <= i < |cfg.apiUrl| ==> cfg.apiUrl[i] == '/')
  {
    var p := StripSlashes(cfg.apiUrl);
    var k := StripSlashesSpan(cfg.apiUrl);
    var b := TrimRightSlash(cfg.baseUrl);
    assert ApiBase(cfg) == b + "/" + p + "/";
  }

  lemma JoinWithSlashes(b: string, p: string)
    ensures b + "/" + p + "/" == b + "/" + (p + "/")
  {
  }

  /**
   * A relative API path made of a path with no slash at either end and one final '/', on
   * a base URL with no trailing '/', is appended to the base as it is.
   */
  lemma ApiBaseNormalized(cfg: SiteConfig, p: string)
    requires p == [] || (p[0] != '/' && p[|p| - 1] != '/')
    requires cfg.apiUrl == p + "/" && !StartsWithHttpScheme(cfg.apiUrl)
    requires cfg.baseUrl == [] || cfg.baseUrl[|cfg.baseUrl| - 1] != '/'
    ensures ApiBase(cfg) == cfg.baseUrl + "/" + cfg.apiUrl
  {
    assert TrimRightSlash(cfg.baseUrl) == cfg.baseUrl by {
      TrimRightSlashUnique(cfg.baseUrl, cfg.baseUrl);
    }
    assert StripSlashes(cfg.apiUrl) == p by {
      StripSlashesOfStrippedPlusSlash(p);
    }
    assert ApiBase(cfg) == cfg.baseUrl + "/" + p + "/";
    JoinWithSlashes(cfg.baseUrl, p);
  }

  /** An empty or all-slash relative API URL leaves a double slash at the end. */
  lemma ApiBaseAllSlashes(cfg: SiteConfig)
    requires forall i :: 0 <= i < |cfg.apiUrl| ==> cfg.apiUrl[i] == '/'
    ensures ApiBase(cfg) == TrimRightSlash(cfg.baseUrl) + "//"
  {
    if |cfg.apiUrl| >= 7 {
      assert cfg.apiUrl[0] == '/';
    }
    assert TrimLeftSlash(cfg.apiUrl) == [];
  }

  /** The token `client()` looks up: only when the site names a non-empty key. */
  function Token(site: ModxSite, secrets: map<string, string>): Option<string>
  {
    match site.cfg.tokenKey
    case Some(k) => if k != "" && k in secrets then Some(secrets[k]) else None
    case None => None
  }

  /**
   * `client()`: an axios instance on the API base with an 8-second timeout, sending
   * `Authorization: Bearer <token>` exactly when the site's token key holds a non-empty
   * secret.
   */
  function ClientFor(site: ModxSite, secrets: map<string, string>): (c: Client)
    ensures c.baseURL == ApiBase(site.cfg) && c.timeoutMs == 8000
    ensures c.authorization.Some? <==>
      (site.cfg.tokenKey.Some? && site.cfg.tokenKey.value != "" &&
       site.cfg.tokenKey.value in secrets && secrets[site.cfg.tokenKey.value] != "")
    ensures c.authorization.Some? ==>
      c.authorization.value == "Bearer " + secrets[site.cfg.tokenKey.value]
  {
    var t := Token(site, secrets);
    Client(ApiBase(site.cfg), 8000, if t.Some? && t.value != "" then Some("Bearer " + t.value) else None)
  }

  // ---------------------------------------------------------------------------
  // Tree nodes

  /** A site at the top of the tree. */
  datatype SiteNode = SiteNode(siteCfg: SiteConfig)
  {
    function Site(): ModxSite
    {
      ModxSite(siteCfg)
    }
  }

  /** One category (element type) of a site; `children` is what addChild appends to. */
  class CategoryNode {
    const parent: SiteNode
    const site: ModxSite
    const elementType: ModElementType
    var children: seq<ElementNode>

    constructor (parent: SiteNode, elementType: ModElementType)
      ensures this.parent == parent && site == parent.Site() && this.elementType == elementType
      ensures children == []
    {
      this.parent := parent;
      this.site := parent.Site();
      this.elementType := elementType;
      this.children := [];
    }
  }

  /** A leaf: one element, its type and the URI the editor opens it by. */
  datatype ElementNode = ElementNode(
    parent: CategoryNode,
    element: ModElement,
    elementType: ModElementType,
    resourceUri: string)

  /** `new ElementNode(parent, element)` */
  function NewElementNode(parent: CategoryNode, el: ModElement): (n: ElementNode)
    ensures n.parent == parent && n.element == el && n.elementType == parent.elementType
    ensures n.resourceUri == CreateResourceUri(parent.site.cfg.name, parent.elementType, el)
  {
    ElementNode(parent, el, parent.elementType, CreateResourceUri(parent.site.cfg.name, parent.elementType, el))
  }

  /** The category label `displayName(type).name`: the type's name without "mod", plural. */
  function DisplayName(t: ModElementType): (name: string)
    ensures t.Some? ==> name == TypeName(t.value)[3..] + "s"
    ensures t.None? ==> name == "No name"
  {
    match t
    case Some(ModSnippet) => "Snippets"
    case Some(ModChunk) => "Chunks"
    case Some(ModTemplate) => "Templates"
    case Some(ModPlugin) => "Plugins"
    case None => "No name"
  }

  // ---------------------------------------------------------------------------
  // Resource URIs

  /** Script types get ".php", every other type ".html". */
  function Extension(t: ModElementType): (ext: string)
    ensures ext == (if t == Some(ModSnippet) || t == Some(ModPlugin) then ".php" else ".html")
    ensures |ext| > 1 && ext[0] == '.' && '.' !in ext[1..] && '/' !in ext
  {
    if t == Some(ModSnippet) || t == Some(ModPlugin) then ".php" else ".html"
  }

  /** `createResourceURI()`: `/<site>/<type>/<id>/<encodeURIComponent(name)><ext>`. */
  function CreateResourceUri(siteName: string, t: ModElementType, el: ModElement): (r: string)
    ensures |r| > |Extension(t)| && r[0] == '/'
    ensures r[|r| - |Extension(t)|..] == Extension(t)
  {
    "/" + siteName + "/" + TypeText(t) + "/" + NumberText(Int(el.id)) + "/" +
    UriComponent.Encode(el.name) + Extension(t)
  }

  // ---------------------------------------------------------------------------
  // Expanding a site

  /** The types a site shows: its list when it has one (even an empty one), else all four. */
  function CategoryTypes(cfg: SiteConfig): (types: seq<ElementType>)
    ensures cfg.elements.Some? ==> types == cfg.elements.value
    ensures cfg.elements.None? ==> types == DefaultElementTypes
  {
    match cfg.elements
    case Some(es) => es
    case None => DefaultElementTypes
  }

  /** `getCategories()`: one new category node per type, in the site's order. */
  method GetCategories(node: SiteNode) returns (cats: seq<CategoryNode>)
    ensures |cats| == |CategoryTypes(node.siteCfg)|
    ensures forall i :: 0 <= i < |cats| ==> fresh(cats[i])
    ensures forall i :: 0 <= i < |cats| ==>
      cats[i].parent == node && cats[i].site == node.Site() &&
      cats[i].elementType == Some(CategoryTypes(node.siteCfg)[i]) && cats[i].children == []
  {
    var types := CategoryTypes(node.siteCfg);
    cats := [];
    for i := 0 to |types|
      invariant |cats| == i
      invariant forall k :: 0 <= k < i ==> fresh(cats[k])
      invariant forall k :: 0 <= k < i ==>
        cats[k].parent == node && cats[k].site == node.Site() &&
        cats[k].elementType == Some(types[k]) && cats[k].children == []
    {
      var c := new CategoryNode(node, Some(types[i]));
      cats := cats + [c];
    }
  }

  // ---------------------------------------------------------------------------
  // Expanding a category: fetch, filter, wrap

  /** Query parameters `{ type }`; axios drops a null parameter. */
  function TypeParams(t: ModElementType): seq<(string, string)>
  {
    match t
    case Some(e) => [("type", TypeName(e))]
    case None => []
  }

  /** The GET `fetchElements` sends: `/<type>` with the type as a parameter. */
  function ListRequest(site: ModxSite, t: ModElementType, secrets: map<string, string>): Request
  {
    Request(ClientFor(site, secrets), Get, "/" + TypeText(t), TypeParams(t), None, None)
  }

  /**
   * `fetchElements()`: the envelope's `data` when it is an array, whatever `success`
   * says; an empty list when it is not, when axios rejects, or on a network error.
   */
  function FetchElements(site: ModxSite, t: ModElementType, host: Host): (rows: seq<ModElement>)
    ensures var reply := host.server(ListRequest(site, t, host.secrets));
      if Resolves(reply) && reply.body.data.Many? then rows == reply.body.data.elements else rows == []
  {
    var reply := host.server(ListRequest(site, t, host.secrets));
    if Resolves(reply) && reply.body.data.Many? then reply.body.data.elements else []
  }

  function ContentText(el: ModElement): string
  {
    match el.content
    case Some(c) => c
    case None => ""
  }

  /** The element's lower-cased name or content contains `q` (already lower-cased). */
  predicate Matches(el: ModElement, q: string)
  {
    Includes(Lower(el.name), q) || Includes(Lower(ContentText(el)), q)
  }

  /** `list.filter(...)` with the name-or-content test. */
  function Keep(list: seq<ModElement>, q: string): (r: seq<ModElement>)
    ensures |r| <= |list|
    ensures forall e :: e in r <==> e in list && Matches(e, q)
    decreases |list|
  {
    if list == [] then []
    else (if Matches(list[0], q) then [list[0]] else []) + Keep(list[1..], q)
  }

  /** A tree label with its highlighted ranges. */
  datatype TreeItemLabel = TreeItemLabel(labelText: string, highlights: seq<(int, int)>)

  /**
   * The label `filter` builds for an element name: the name itself, highlighted at the
   * first case-insensitive occurrence of the query when the name has one.
   */
  function Label(name: string, query: string): (lbl: TreeItemLabel)
    ensures lbl.labelText == name
    ensures |lbl.highlights| <= 1
    ensures lbl.highlights != [] <==> Includes(Lower(name), Lower(query))
    ensures lbl.highlights != [] ==>
      var start := lbl.highlights[0].0;
      lbl.highlights[0].1 == start + |query| &&
      OccursAt(Lower(name), Lower(query), start) &&
      forall j :: 0 <= j < start ==> !OccursAt(Lower(name), Lower(query), j)
  {
    var start := IndexOf(Lower(name), Lower(query));
    if start >= 0 then TreeItemLabel(name, [(start, start + |query|)]) else TreeItemLabel(name, [])
  }

  /** The `el.name = lbl.label` write-back of `filter`, on values. */
  function Relabel(items: seq<ModElement>, query: string): (r: seq<ModElement>)
    ensures |r| == |items|
    ensures forall i :: 0 <= i < |items| ==>
      r[i] == items[i].(name := Label(items[i].name, query).labelText)
    decreases |items|
  {
    if items == [] then []
    else [items[0].(name := Label(items[0].name, query).labelText)] + Relabel(items[1..], query)
  }

  /** `filter(query)` on the fetched list. */
  function Filter(list: seq<ModElement>, query: string): (r: seq<ModElement>)
    ensures |r| <= |list|
    ensures forall e :: e in r ==> e in list
  {
    if query == "" then list
    else
      var kept := Keep(list, Lower(query));
      RelabelIdentity(kept, query);
      Relabel(kept, query)
  }

  /** The write-back stores the name it read, so relabelling changes nothing. */
  lemma {:induction false} RelabelIdentity(items: seq<ModElement>, query: string)
    ensures Relabel(items, query) == items
    decreases |items|
  {
    if items != [] {
      RelabelIdentity(items[1..], query);
      assert items[0].(name := Label(items[0].name, query).labelText) == items[0];
      assert [items[0]] + items[1..] == items;
    }
  }

  lemma {:induction false} KeepAppend(a: seq<ModElement>, b: seq<ModElement>, q: string)
    ensures Keep(a + b, q) == Keep(a, q) + Keep(b, q)
    decreases |a|
  {
    if a == [] {
      assert a + b == b;
    } else {
      assert (a + b)[0] == a[0];
      assert (a + b)[1..] == a[1..] + b;
      KeepAppend(a[1..], b, q);
    }
  }

  /** An empty query returns the fetched list as it is. */
  lemma FilterEmptyQuery(list: seq<ModElement>)
    ensures Filter(list, "") == list
  {
  }

  /**
   * A non-empty query keeps exactly the elements whose name or content contains it,
   * ignoring case, and leaves every kept element (id, name, content) as it was.
   */
  lemma FilterSelects(list: seq<ModElement>, query: string)
    requires query != ""
    ensures forall e :: e in Filter(list, query) <==> e in list && Matches(e, Lower(query))
  {
    RelabelIdentity(Keep(list, Lower(query)), query);
  }

  /** The filter is stable: it works element by element and keeps the list's order. */
  lemma FilterStable(a: seq<ModElement>, b: seq<ModElement>, query: string)
    ensures Filter(a + b, query) == Filter(a, query) + Filter(b, query)
  {
    if query != "" {
      var q := Lower(query);
      KeepAppend(a, b, q);
      RelabelIdentity(Keep(a + b, q), query);
      RelabelIdentity(Keep(a, q), query);
      RelabelIdentity(Keep(b, q), query);
    }
  }

  /** On one element the filter keeps it exactly when it matches. */
  lemma FilterOne(e: ModElement, query: string)
    requires query != ""
    ensures Filter([e], query) == if Matches(e, Lower(query)) then [e] else []
  {
    RelabelIdentity(Keep([e], Lower(query)), query);
    assert [e][1..] == [];
  }

  /** One element node per element, in order. */
  function ElementNodes(parent: CategoryNode, els: seq<ModElement>): (r: seq<ElementNode>)
    ensures |r| == |els|
    ensures forall i :: 0 <= i < |els| ==> r[i] == NewElementNode(parent, els[i])
  {
    seq(|els|, i requires 0 <= i < |els| => NewElementNode(parent, els[i]))
  }

  /** `getElements(query)`: fetch, filter, and wrap each survivor in an element node. */
  function GetElements(cat: CategoryNode, query: string, host: Host): (r: seq<ElementNode>)
    ensures |r| == |Filter(FetchElements(cat.site, cat.elementType, host), query)|
    ensures forall i :: 0 <= i < |r| ==>
      r[i].parent == cat && r[i].elementType == cat.elementType &&
      r[i].element == Filter(FetchElements(cat.site, cat.elementType, host), query)[i]
  {
    ElementNodes(cat, Filter(FetchElements(cat.site, cat.elementType, host), query))
  }
}
