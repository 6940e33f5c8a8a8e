/**
 * src/config.ts: the list of configured sites, kept in sites.json and keyed by baseUrl.
 * Every operation loads the list, changes it, and writes it back; a missing file is
 * first created holding `[]`, and text that does not parse loads as the empty list.
 */
module Config {
  import opened Wrappers
  import opened Types

  /** What sites.json holds: nothing yet, a list of sites, or text that is not JSON. */
  datatype Stored = Missing | Sites(sites: seq<SiteConfig>) | Unparseable

  /** The outcome of an update or a removal: done, or the error it throws. */
  datatype Outcome = Done | Error(message: string)

  /** The list `loadSites` returns for a file: its sites, or [] when there are none to parse. */
  function SitesIn(f: Stored): (sites: seq<SiteConfig>)
    ensures f.Sites? ==> sites == f.sites
    ensures !f.Sites? ==> sites == []
  {
    if f.Sites? then f.sites else []
  }

  /** The file after `ensureStorageFile`: a missing file now holds `[]`. */
  function Ensured(f: Stored): Stored
  {
    if f.Missing? then Sites([]) else f
  }

  /** `sites.findIndex(s => s.baseUrl === url)` */
  function FirstIndex(sites: seq<SiteConfig>, url: string): (r: int)
    ensures -1 <= r < |sites|
    ensures r >= 0 ==> sites[r].baseUrl == url
    ensures forall j :: 0 <= j < |sites| && (r == -1 || j < r) ==> sites[j].baseUrl != url
    decreases |sites|
  {
    if sites == [] then -1
    else if sites[0].baseUrl == url then 0
    else
      var r := FirstIndex(sites[1..], url);
      if r < 0 then -1 else r + 1
  }

  /** The list with its first entry for `url` replaced, or None when there is none. */
  function ReplaceFirst(sites: seq<SiteConfig>, url: string, site: SiteConfig): (r: Option<seq<SiteConfig>>)
    ensures r.None? <==> forall j :: 0 <= j < |sites| ==> sites[j].baseUrl != url
    ensures r.Some? ==>
      var i := FirstIndex(sites, url);
      |r.value| == |sites| && r.value[i] == site &&
      forall j :: 0 <= j < |sites| && j != i ==> r.value[j] == sites[j]
  {
    var i := FirstIndex(sites, url);
    if i < 0 then None else Some(sites[i := site])
  }

  /** The list with its first entry for `url` removed, or None when there is none. */
  function RemoveFirst(sites: seq<SiteConfig>, url: string): (r: Option<seq<SiteConfig>>)
    ensures r.None? <==> forall j :: 0 <= j < |sites| ==> sites[j].baseUrl != url
    ensures r.Some? ==>
      var i := FirstIndex(sites, url);
      |r.value| == |sites| - 1 &&
      (forall j :: 0 <= j < i ==> r.value[j] == sites[j]) &&
      (forall j :: i <= j < |r.value| ==> r.value[j] == sites[j + 1])
  {
    var i := FirstIndex(sites, url);
    if i < 0 then None else Some(sites[..i] + sites[i + 1..])
  }

  /** Removal takes away exactly one entry for the URL: the multiset loses the first match. */
  lemma RemoveFirstMultiset(sites: seq<SiteConfig>, url: string)
    requires RemoveFirst(sites, url).Some?
    ensures var i := FirstIndex(sites, url);
      multiset(RemoveFirst(sites, url).value) + multiset{sites[i]} == multiset(sites)
  {
    var i := FirstIndex(sites, url);
    assert RemoveFirst(sites, url).value == sites[..i] + sites[i + 1..];
    MultisetAround(sites, i);
  }

  /** A list's multiset is that of the entries before `i`, the entry at `i`, and those after. */
  lemma MultisetAround(sites: seq<SiteConfig>, i: int)
    requires 0 <= i < |sites|
    ensures multiset(sites) == multiset(sites[..i] + sites[i + 1..]) + multiset{sites[i]}
  {
    assert sites == sites[..i] + [sites[i]] + sites[i + 1..];
  }

  /** Removing a freshly added site, when no earlier entry shares its baseUrl, undoes the add. */
  lemma RemoveUndoesAdd(sites: seq<SiteConfig>, site: SiteConfig)
    requires forall j :: 0 <= j < |sites| ==> sites[j].baseUrl != site.baseUrl
    ensures RemoveFirst(sites + [site], site.baseUrl) == Some(sites)
  {
    var all := sites + [site];
    assert all[|sites|].baseUrl == site.baseUrl;
    assert FirstIndex(all, site.baseUrl) == |sites|;
    assert all[..|sites|] + all[|sites| + 1..] == sites;
  }

  /**
   * Updating back undoes an update: replace the first entry for `url` by `site`, then the
   * first entry for `site.baseUrl` by the old entry, and the list is as before, provided
   * no entry before the replaced one already had `site.baseUrl`.
   */
  lemma UpdateBackUndoesUpdate(sites: seq<SiteConfig>, url: string, site: SiteConfig)
    requires ReplaceFirst(sites, url, site).Some?
    requires forall j :: 0 <= j < FirstIndex(sites, url) ==> sites[j].baseUrl != site.baseUrl
    ensures var i := FirstIndex(sites, url);
      ReplaceFirst(ReplaceFirst(sites, url, site).value, site.baseUrl, sites[i]) == Some(sites)
  {
    var i := FirstIndex(sites, url);
    var after := ReplaceFirst(sites, url, site).value;
    assert after[i].baseUrl == site.baseUrl;
    assert FirstIndex(after, site.baseUrl) == i;
    assert after[i := sites[i]] == sites;
  }

  class SiteStore {
    var file: Stored

    constructor (file: Stored)
      ensures this.file == file
    {
      this.file := file;
    }

    /** `ensureStorageFile` / `getSitesFile`: create the file with `[]` when it is missing. */
    method EnsureFile()
      modifies this
      ensures file == Ensured(old(file))
    {
      if file.Missing? {
        file := Sites([]);
      }
    }

    /** `loadSites`: the stored list, or [] when the text does not parse. */
    method LoadSites() returns (sites: seq<SiteConfig>)
      modifies this
      ensures file == Ensured(old(file))
      ensures sites == SitesIn(old(file))
    {
      EnsureFile();
      sites := SitesIn(file);
    }

    /** `saveSites`: write the list back. */
    method SaveSites(sites: seq<SiteConfig>)
      modifies this
      ensures file == Sites(sites)
    {
      EnsureFile();
      file := Sites(sites);
    }

    /** `addSite`: append the site after every stored one, save, and return the new list. */
    method AddSite(site: SiteConfig) returns (sites: seq<SiteConfig>)
      modifies this
      ensures sites == SitesIn(old(file)) + [site]
      ensures file == Sites(sites)
    {
      EnsureFile();
      sites := LoadSites();
      sites := sites + [site];
      file := Sites(sites);
    }

    /** `updateSite`: replace the first site with `oldBaseUrl`, or throw and save nothing. */
    method UpdateSite(oldBaseUrl: string, newData: SiteConfig) returns (r: Outcome)
      modifies this
      ensures match ReplaceFirst(SitesIn(old(file)), oldBaseUrl, newData)
        case None => r == Error("Site not found") && file == Ensured(old(file))
        case Some(after) => r == Done && file == Sites(after)
    {
      var sites := LoadSites();
      var idx := FindIndex(sites, oldBaseUrl);
      if idx == -1 {
        return Error("Site not found");
      }
      sites := sites[idx := newData];
      SaveSites(sites);
      return Done;
    }

    /** `removeSite`: splice out the first site with `baseUrl`, or throw and save nothing. */
    method RemoveSite(baseUrl: string) returns (r: Outcome)
      modifies this
      ensures match RemoveFirst(SitesIn(old(file)), baseUrl)
        case None => r == Error("Site not found, did you change the name?") && file == Ensured(old(file))
        case Some(after) => r == Done && file == Sites(after)
    {
      var sites := LoadSites();
      var idx := FindIndex(sites, baseUrl);
      if idx == -1 {
        return Error("Site not found, did you change the name?");
      }
      sites := sites[..idx] + sites[idx + 1..];
      SaveSites(sites);
      return Done;
    }
  }

  /** The `findIndex` search: the first position whose baseUrl is `url`, or -1. */
  method FindIndex(sites: seq<SiteConfig>, url: string) returns (idx: int)
    ensures idx == FirstIndex(sites, url)
    ensures idx >= 0 ==> 0 <= idx < |sites| && sites[idx].baseUrl == url
  {
    var i := 0;
    while i < |sites|
      invariant 0 <= i <= |sites|
      invariant forall j :: 0 <= j < i ==> sites[j].baseUrl != url
    {
      if sites[i].baseUrl == url {
        FirstIndexIsFirstMatch(sites, url, i);
        return i;
      }
      i := i + 1;
    }
    FirstIndexIsFirstMatch(sites, url, -1);
    return -1;
  }

  /** FirstIndex is the one position that matches with no match before it (or -1 for none). */
  lemma FirstIndexIsFirstMatch(sites: seq<SiteConfig>, url: string, i: int)
    requires -1 <= i < |sites|
    requires i >= 0 ==> sites[i].baseUrl == url
    requires forall j :: 0 <= j < |sites| && (i == -1 || j < i) ==> sites[j].baseUrl != url
    ensures FirstIndex(sites, url) == i
  {
  }
}
