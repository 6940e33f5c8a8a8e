/**
 * src/modxFs.ts: the `modx:` file system provider. A path `/<site>/<type>/<id>/<name>.<ext>`
 * is parsed into instance fields; reads fetch `/<type>/<id>` and hand back the element's
 * content as UTF-8 bytes; writes PUT the name and content back and always announce a
 * change. `init` is started but not awaited, so the client a call uses is whatever an
 * earlier call's `init` left in the `client` field; here that late assignment is the
 * separate method CompleteInit.
 */
module ModxFs {
  import opened Wrappers
  import opened Types
  import opened Strings
  import opened Remote
  import Utf8
  import UriComponent
  import Site
  import Config

  // ---------------------------------------------------------------------------
  // Decoding a virtual path

  /** The decoded form of a virtual path; the type stays the text of its segment. */
  datatype Address = Address(sitename: string, elementType: string, id: Num, name: string)

  /** What `parse` throws: FileNotFound for a missing segment, URIError for a bad escape. */
  datatype ParseError = FileNotFound | UriError

  /** The position of the last '.', or -1. */
  function LastDot(s: string): (k: int)
    ensures -1 <= k < |s|
    ensures k >= 0 ==> s[k] == '.'
    ensures forall j :: k < j < |s| ==> s[j] != '.'
    decreases |s|
  {
    if s == [] then -1
    else if s[|s| - 1] == '.' then |s| - 1
    else LastDot(s[..|s| - 1])
  }

  /** `rest.replace(/\.[^.]+$/, '')`: drop a final '.' followed by one or more non-dots. */
  function StripExtension(s: string): (r: string)
    ensures r <= s
    ensures r != s ==> |s| > |r| + 1 && s[|r|] == '.' && forall j :: |r| < j < |s| ==> s[j] != '.'
    ensures r == s ==> forall j :: 0 <= j < |s| - 1 ==> s[j] == '.' ==> exists k :: j < k < |s| && s[k] == '.'
  {
    var k := LastDot(s);
    if 0 <= k < |s| - 1 then s[..k] else s
  }

  /** Only the last suffix goes: a name followed by an extension gets the name back. */
  lemma StripExtensionOfSuffixed(e: string, ext: string)
    requires |ext| > 1 && ext[0] == '.' && '.' !in ext[1..]
    ensures StripExtension(e + ext) == e
  {
    var s := e + ext;
    forall j | |e| < j < |s| ensures s[j] != '.' {
      assert s[j] == ext[1..][j - |e| - 1];
    }
    assert s[|e|] == ext[0];
    assert LastDot(s) == |e|;
  }

  /**
   * `parse(uri)`: split the path at '/', require segments 1 to 4 to be present and
   * non-empty, convert the id with Number (never rejected), strip the extension and
   * percent-decode the name.
   */
  function ParsePath(path: string): (r: Result<Address, ParseError>)
    ensures r.Success? ==>
      r.value.sitename != [] && '/' !in r.value.sitename &&
      r.value.elementType != [] && '/' !in r.value.elementType
  {
    var parts := Split(path);
    if |parts| < 5 || parts[1] == [] || parts[2] == [] || parts[3] == [] || parts[4] == [] then
      Failure(FileNotFound)
    else
      match UriComponent.Decode(StripExtension(parts[4]))
      case None => Failure(UriError)
      case Some(name) => Success(Address(parts[1], parts[2], NumberOf(parts[3]), name))
  }

  /** FileNotFound exactly when one of segments 1 to 4 is missing or empty. */
  lemma ParseNotFound(path: string)
    ensures ParsePath(path) == Failure(FileNotFound) <==>
      var parts := Split(path);
      |parts| < 5 || parts[1] == [] || parts[2] == [] || parts[3] == [] || parts[4] == []
  {
  }

  /** Segments after the fourth are ignored. */
  lemma ParseIgnoresExtraSegments(path: string, extra: string)
    requires |Split(path)| >= 5
    ensures ParsePath(path + "/" + extra) == ParsePath(path)
  {
    SplitAtSlash(path, extra);
    var parts := Split(path + "/" + extra);
    assert parts[..5] == Split(path)[..5];
  }

  /** How a path built from four slash-free segments parses. */
  lemma ParseSegments(site: string, t: string, idText: string, rest: string)
    requires site != [] && t != [] && idText != [] && rest != []
    requires '/' !in site && '/' !in t && '/' !in idText && '/' !in rest
    ensures ParsePath("/" + site + "/" + t + "/" + idText + "/" + rest) ==
      match UriComponent.Decode(StripExtension(rest))
      case None => Failure(UriError)
      case Some(name) => Success(Address(site, t, NumberOf(idText), name))
  {
    SplitFourSegments(site, t, idText, rest);
  }

  /**
   * Parsing the URI of an element node recovers the site, the type's name, the id and the
   * element name, for every id and name, when the site name is non-empty and has no '/'.
   */
  lemma ResourceUriRoundTrip(siteName: string, t: ModElementType, el: ModElement)
    requires siteName != [] && '/' !in siteName
    ensures ParsePath(Site.CreateResourceUri(siteName, t, el)) ==
      Success(Address(siteName, TypeText(t), Int(el.id), el.name))
  {
    var idText := NumberText(Int(el.id));
    var enc := UriComponent.Encode(el.name);
    var ext := Site.Extension(t);
    var rest := enc + ext;
    NumberTextShape(Int(el.id));
    assert '/' !in rest by {
      forall j | 0 <= j < |rest| ensures rest[j] != '/' {
        if j < |enc| { assert rest[j] == enc[j]; } else { assert rest[j] == ext[j - |enc|]; }
      }
    }
    assert Site.CreateResourceUri(siteName, t, el) == "/" + siteName + "/" + TypeText(t) + "/" + idText + "/" + rest;
    ParseSegments(siteName, TypeText(t), idText, rest);
    StripExtensionOfSuffixed(enc, ext);
    UriComponent.DecodeEncode(el.name);
    NumberOfNumberText(el.id);
  }

  /**
   * The id segment is not checked: one that starts with a letter, as "abc" in
   * `/siteA/modSnippet/abc/name.html`, parses, as NaN.
   */
  lemma NonNumericIdParses(site: string, t: string, idText: string, name: string, ext: string)
    requires site != [] && t != [] && '/' !in site && '/' !in t
    requires idText != [] && '/' !in idText && ('a' <= idText[0] <= 'z' || 'A' <= idText[0] <= 'Z')
    requires '/' !in name && '%' !in name
    requires |ext| > 1 && ext[0] == '.' && '.' !in ext[1..] && '/' !in ext
    ensures ParsePath("/" + site + "/" + t + "/" + idText + "/" + (name + ext)) ==
      Success(Address(site, t, NaN, name))
  {
    var rest := name + ext;
    assert '/' !in rest by {
      forall i | 0 <= i < |rest| ensures rest[i] != '/' {
        if i < |name| { assert rest[i] == name[i]; } else { assert rest[i] == ext[i - |name|]; }
      }
    }
    ParseSegments(site, t, idText, rest);
    StripExtensionOfSuffixed(name, ext);
    UriComponent.DecodeWithoutEscapes(name);
    NumberOfLetterIsNaN(idText);
  }

  // ---------------------------------------------------------------------------
  // Requests and replies

  /** The id as `${this.id}` prints it; the initial null prints as "null". */
  function IdText(id: Option<Num>): string
  {
    match id
    case None => "null"
    case Some(n) => NumberText(n)
  }

  function ElementPath(t: string, id: Option<Num>): string
  {
    "/" + t + "/" + IdText(id)
  }

  /** The GET `readFile` sends. */
  function ReadRequest(c: Client, t: string, id: Option<Num>): Request
  {
    Request(c, Get, ElementPath(t, id), [], None, None)
  }

  /** The PUT `writeFile` sends, with redirects disabled. */
  function WriteRequest(c: Client, t: string, id: Option<Num>, body: WriteBody): Request
  {
    Request(c, Put, ElementPath(t, id), [], Some(body), Some(0))
  }

  /** `(data?.data && data.data?.content) ? String(data.data.content) : ''` */
  function ContentOf(env: Envelope): (content: string)
    ensures content != "" ==> env.data.One? && env.data.element.content == Some(content)
    ensures env.data.One? && env.data.element.content.Some? ==> content == env.data.element.content.value
  {
    if env.data.One? && env.data.element.content.Some? && env.data.element.content.value != "" then
      env.data.element.content.value
    else ""
  }

  /** What `readFile` throws. */
  datatype FsError = NotFound(path: string) | RequestRejected

  /** The bytes `readFile` resolves with for a reply, or the axios rejection it passes on. */
  function ReadReply(reply: Reply): (r: Result<seq<Utf8.byte>, FsError>)
    ensures r.Failure? <==> !Resolves(reply)
    ensures r.Success? ==> r.value == Utf8.Encode(ContentOf(reply.body))
  {
    if Resolves(reply) then Success(Utf8.Encode(ContentOf(reply.body))) else Failure(RequestRejected)
  }

  /** What `writeFile` logs: saved, a failure envelope's error, an HTTP error, or no response. */
  datatype WriteStatus = Saved | Failed(message: string) | HttpFailure(status: int, location: Option<string>) | NoResponse

  /** The outcome of a PUT, caught whatever it is. */
  function WriteReply(reply: Reply): (s: WriteStatus)
    ensures s == Saved <==> Resolves(reply) && reply.body.success
    ensures reply.NetworkError? ==> s == NoResponse
    ensures Resolves(reply) && !reply.body.success ==> s.Failed?
    ensures reply.Response? && !(200 <= reply.status < 300) ==>
      s == HttpFailure(reply.status, reply.location)
    ensures s.Failed? ==> s.message != ""
    ensures s.Failed? ==>
      s.message == (if reply.body.error.Some? && reply.body.error.value != ""
                    then reply.body.error.value else "Something went wrong")
  {
    match reply
    case NetworkError => NoResponse
    case Response(status, location, body) =>
      if !(200 <= status < 300) then HttpFailure(status, location)
      else if body.success then Saved
      else Failed(if body.error.Some? && body.error.value != "" then body.error.value else "Something went wrong")
  }

  /** `readFile` does not look at `success`: a failure envelope that carries content still yields it. */
  lemma ReadIgnoresSuccess(reply: Reply, success: bool)
    requires reply.Response?
    ensures ReadReply(reply.(body := reply.body.(success := success))) == ReadReply(reply)
  {
  }

  /** A resolved reply without content reads as zero bytes, not as an error. */
  lemma ReadWithoutContentIsEmpty(reply: Reply)
    requires Resolves(reply) && !(reply.body.data.One? && reply.body.data.element.content.Some?)
    ensures ReadReply(reply) == Success([])
  {
  }

  /** Saving the bytes a read produced sends back exactly the content that was read. */
  lemma WriteBackSendsReadContent(reply: Reply, name: string)
    requires ReadReply(reply).Success?
    ensures WriteBody(name, Utf8.Decode(ReadReply(reply).value)) == WriteBody(name, ContentOf(reply.body))
  {
    Utf8.DecodeEncode(ContentOf(reply.body));
  }

  /** `sites.find(s => s.name === name)` */
  function FindByName(sites: seq<SiteConfig>, name: string): (r: Option<SiteConfig>)
    ensures r.Some? ==> r.value.name == name && r.value in sites
    ensures r.None? <==> forall j :: 0 <= j < |sites| ==> sites[j].name != name
    ensures r.Some? ==> exists i ::
      0 <= i < |sites| && sites[i] == r.value && (forall j :: 0 <= j < i ==> sites[j].name != name)
    decreases |sites|
  {
    if sites == [] then None
    else if sites[0].name == name then Some(sites[0])
    else
      var r := FindByName(sites[1..], name);
      assert r.Some? ==> exists i ::
        0 <= i < |sites| - 1 && sites[1..][i] == r.value && (forall j :: 0 <= j < i ==> sites[1..][j].name != name);
      r
  }

  // ---------------------------------------------------------------------------
  // The provider

  datatype FileType = File | Directory

  /** The stat record; the two `Date.now()` timestamps are left out. */
  datatype FileStat = FileStat(kind: FileType, size: nat)

  datatype FileChange = Changed(path: string)

  class ModxFs {
    var client: Option<Client>
    var sitename: string
    var elementType: string
    var id: Option<Num>
    var name: string
    /** Every `FileChangeEvent` fired, in order. */
    var events: seq<FileChange>

    /** The four fields `parse` writes. */
    function Fields(): (string, string, Option<Num>, string)
      reads this
    {
      (sitename, elementType, id, name)
    }

    constructor ()
      ensures client == None && Fields() == ("", "", None, "") && events == []
    {
      client := None;
      sitename := "";
      elementType := "";
      id := None;
      name := "";
      events := [];
    }

    /** `parse(uri)`: on success the four fields take the decoded values, else they stay. */
    method Parse(path: string) returns (r: Result<Address, ParseError>)
      modifies this
      ensures r == ParsePath(path)
      ensures Fields() == match r
        case Success(a) => (a.sitename, a.elementType, Some(a.id), a.name)
        case Failure(_) => old(Fields())
      ensures client == old(client) && events == old(events)
    {
      r := ParsePath(path);
      if r.Success? {
        sitename := r.value.sitename;
        elementType := r.value.elementType;
        id := Some(r.value.id);
        name := r.value.name;
      }
    }

    /**
     * The late half of `init`: `getClient` loads the sites, looks up the one named by the
     * `sitename` field as it is now, and stores that site's client. With no such site,
     * `new ModxSite(undefined)` throws inside the un-awaited promise and `client` keeps
     * its value.
     */
    method CompleteInit(store: Config.SiteStore, secrets: map<string, string>)
      modifies this, store
      ensures store.file == Config.Ensured(old(store.file))
      ensures var found := FindByName(Config.SitesIn(old(store.file)), sitename);
        client == if found.Some? then Some(Site.ClientFor(Site.ModxSite(found.value), secrets)) else old(client)
      ensures Fields() == old(Fields()) && events == old(events)
    {
      var sites := store.LoadSites();
      var found := FindByName(sites, sitename);
      if found.Some? {
        client := Some(Site.ClientFor(Site.ModxSite(found.value), secrets));
      }
    }

    /** `stat`: never looks at the path; always a regular file of size 0. */
    method Stat(path: string) returns (s: FileStat)
      ensures s.kind == File && s.size == 0
    {
      s := FileStat(File, 0);
    }

    /** `readDirectory`: always empty. */
    method ReadDirectory(path: string) returns (entries: seq<(string, FileType)>)
      ensures entries == []
    {
      entries := [];
    }

    /** `createDirectory`: a no-op. */
    method CreateDirectory(path: string)
      ensures unchanged(this)
    {
    }

    /** `delete`: a no-op. */
    method Delete(path: string)
      ensures unchanged(this)
    {
    }

    /** `rename`: a no-op. */
    method Rename(oldPath: string, newPath: string)
      ensures unchanged(this)
    {
    }

    /**
     * `readFile(uri)`: parse (a parse error is lost with the un-awaited `init`), then
     * FileNotFound when `client` is null; otherwise GET `/<type>/<id>` with the fields
     * just parsed and answer the element's content as UTF-8, or pass on axios' rejection.
     */
    method ReadFile(path: string, server: Request -> Reply) returns (r: Result<seq<Utf8.byte>, FsError>)
      modifies this
      ensures Fields() == match ParsePath(path)
        case Success(a) => (a.sitename, a.elementType, Some(a.id), a.name)
        case Failure(_) => old(Fields())
      ensures client == old(client) && events == old(events)
      ensures r == if client.None? then Failure(NotFound(path))
                   else ReadReply(server(ReadRequest(client.value, elementType, id)))
    {
      var _ := Parse(path);
      if client.None? {
        return Failure(NotFound(path));
      }
      var reply := server(ReadRequest(client.value, elementType, id));
      r := ReadReply(reply);
    }

    /**
     * `writeFile(uri, content)`: parse as readFile does, PUT `{name, content}` (the bytes
     * decoded as UTF-8) to `/<type>/<id>` without following redirects, catch every
     * failure, and fire exactly one Changed event for the path.
     */
    method WriteFile(path: string, content: seq<Utf8.byte>, server: Request -> Reply) returns (status: WriteStatus)
      modifies this
      ensures Fields() == match ParsePath(path)
        case Success(a) => (a.sitename, a.elementType, Some(a.id), a.name)
        case Failure(_) => old(Fields())
      ensures client == old(client)
      ensures events == old(events) + [Changed(path)]
      ensures status == if client.None? then Failed("Something went wrong")
        else WriteReply(server(WriteRequest(client.value, elementType, id, WriteBody(name, Utf8.Decode(content)))))
    {
      var _ := Parse(path);
      var body := WriteBody(name, Utf8.Decode(content));
      if client.None? {
        status := Failed("Something went wrong");
      } else {
        var reply := server(WriteRequest(client.value, elementType, id, body));
        status := WriteReply(reply);
      }
      events := events + [Changed(path)];
    }
  }

  /** Right after activation no `init` has finished, so the first read fails with FileNotFound. */
  method FirstReadFails(path: string, server: Request -> Reply) returns (r: Result<seq<Utf8.byte>, FsError>)
    ensures r == Failure(NotFound(path))
  {
    var fs := new ModxFs();
    r := fs.ReadFile(path, server);
  }

  /**
   * Once the `init` of a read of site A has completed, a read of an element of site B is
   * sent on site A's client (its API base and token): B's own `init` has not finished.
   */
  method ReadUsesEarlierClient(
    pathA: string, pathB: string, sites: seq<SiteConfig>, secrets: map<string, string>, server: Request -> Reply)
    returns (r: Result<seq<Utf8.byte>, FsError>)
    requires ParsePath(pathA).Success? && ParsePath(pathB).Success?
    requires FindByName(sites, ParsePath(pathA).value.sitename).Some?
    ensures var a := ParsePath(pathA).value;
      var b := ParsePath(pathB).value;
      var clientA := Site.ClientFor(Site.ModxSite(FindByName(sites, a.sitename).value), secrets);
      r == ReadReply(server(ReadRequest(clientA, b.elementType, Some(b.id))))
  {
    var store := new Config.SiteStore(Config.Sites(sites));
    var fs := new ModxFs();
    var _ := fs.ReadFile(pathA, server);
    fs.CompleteInit(store, secrets);
    r := fs.ReadFile(pathB, server);
  }
}
