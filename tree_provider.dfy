/**
 * src/siteTreeProvider.ts: the sidebar tree. The root lists the configured sites, a site
 * lists its categories, a category lists the (filtered) elements fetched from the remote,
 * and every change is announced through one change event. The `setContext` command that
 * tells the view whether any site is configured is the field `noSitesConfigured`.
 */
module TreeProvider {
  import opened Wrappers
  import opened Types
  import opened Remote
  import opened Site
  import Config

  /** The tree items the provider hands out. */
  datatype TreeItem =
    | SiteItem(site: SiteNode)
    | CategoryItem(category: CategoryNode)
    | ElementItem(element: ElementNode)
    | OtherItem

  class SiteTreeProvider {
    var filterQuery: string
    /** Declared as a cache of fetched lists, but only ever cleared. */
    var cache: map<string, seq<ModElement>>
    /** Every change event fired, in order; None is a refresh of the whole tree. */
    var events: seq<Option<TreeItem>>
    /** The last value given to the `noSitesConfigured` context key, if any. */
    var noSitesConfigured: Option<bool>

    /** The cache stays empty: nothing ever writes to it. */
    predicate Valid()
      reads this
    {
      cache == map[]
    }

    constructor ()
      ensures Valid()
      ensures filterQuery == "" && events == [] && noSitesConfigured == None
    {
      filterQuery := "";
      cache := map[];
      events := [];
      noSitesConfigured := None;
    }

    /** `refresh(childNode?)`: clear the cache and fire a change for the node (or the whole tree). */
    method Refresh(childNode: Option<TreeItem>)
      requires Valid()
      modifies this
      ensures Valid()
      ensures events == old(events) + [childNode]
      ensures filterQuery == old(filterQuery) && noSitesConfigured == old(noSitesConfigured)
    {
      cache := map[];
      events := events + [childNode];
    }

    /** `setFilter(q)`: remember the query and fire a change for the whole tree. */
    method SetFilter(q: string)
      requires Valid()
      modifies this
      ensures Valid()
      ensures filterQuery == q
      ensures events == old(events) + [None]
      ensures noSitesConfigured == old(noSitesConfigured)
    {
      filterQuery := q;
      events := events + [None];
    }

    /** `getTreeItem(element)`: the item itself. */
    method GetTreeItem(element: TreeItem) returns (item: TreeItem)
      ensures item == element
    {
      item := element;
    }

    /**
     * `addChild(parent, element)`: append a new element node to the category's children
     * and fire a change for the category only.
     */
    method AddChild(parent: CategoryNode, element: ModElement) returns (el: ElementNode)
      requires Valid()
      modifies this, parent
      ensures Valid()
      ensures el == NewElementNode(parent, element)
      ensures parent.children == old(parent.children) + [el]
      ensures events == old(events) + [Some(CategoryItem(parent))]
      ensures filterQuery == old(filterQuery) && noSitesConfigured == old(noSitesConfigured)
    {
      el := NewElementNode(parent, element);
      parent.children := parent.children + [el];
      events := events + [Some(CategoryItem(parent))];
    }

    /**
     * `getChildren(element?)`: at the root, one site item per stored site in stored order,
     * or none (and the context key set to true) when there are no sites; a site's fresh
     * category nodes; a category's elements fetched and filtered by the current query,
     * whatever its `children` hold; nothing for anything else.
     */
    method GetChildren(element: Option<TreeItem>, store: Config.SiteStore, host: Host) returns (items: seq<TreeItem>)
      requires Valid()
      modifies this, store
      ensures Valid()
      ensures filterQuery == old(filterQuery) && events == old(events)
      ensures element.None? ==>
        var sites := Config.SitesIn(old(store.file));
        store.file == Config.Ensured(old(store.file)) &&
        noSitesConfigured == Some(sites == []) &&
        |items| == |sites| &&
        forall i :: 0 <= i < |sites| ==> items[i] == SiteItem(SiteNode(sites[i]))
      ensures element.Some? ==> store.file == old(store.file) && noSitesConfigured == old(noSitesConfigured)
      ensures element.Some? && element.value.SiteItem? ==>
        var node := element.value.site;
        var types := CategoryTypes(node.siteCfg);
        |items| == |types| &&
        forall i :: 0 <= i < |items| ==>
          items[i].CategoryItem? && fresh(items[i].category) &&
          items[i].category.parent == node && items[i].category.site == node.Site() &&
          items[i].category.elementType == Some(types[i]) &&
          items[i].category.children == []
      ensures element.Some? && element.value.CategoryItem? ==>
        var els := GetElements(element.value.category, filterQuery, host);
        |items| == |els| &&
        forall i :: 0 <= i < |items| ==> items[i] == ElementItem(els[i])
      ensures element.Some? && (element.value.ElementItem? || element.value.OtherItem?) ==> items == []
    {
      match element
      case None =>
        var sites := store.LoadSites();
        if sites == [] {
          noSitesConfigured := Some(true);
          return [];
        }
        noSitesConfigured := Some(false);
        items := seq(|sites|, i requires 0 <= i < |sites| => SiteItem(SiteNode(sites[i])));
      case Some(SiteItem(node)) =>
        var cats := GetCategories(node);
        items := seq(|cats|, i requires 0 <= i < |cats| => CategoryItem(cats[i]));
      case Some(CategoryItem(cat)) =>
        var els := GetElements(cat, filterQuery, host);
        items := seq(|els|, i requires 0 <= i < |els| => ElementItem(els[i]));
      case Some(_) =>
        items := [];
    }
  }

  /**
   * A child added with addChild does not show up when the category is expanded again:
   * the listing is fetched afresh and never looks at `children`.
   */
  method AddedChildNotListed(node: SiteNode, t: ModElementType, element: ModElement, host: Host)
    returns (before: seq<TreeItem>, after: seq<TreeItem>)
    ensures before == after
  {
    var store := new Config.SiteStore(Config.Missing);
    var provider := new SiteTreeProvider();
    var cat := new CategoryNode(node, t);
    before := provider.GetChildren(Some(CategoryItem(cat)), store, host);
    var _ := provider.AddChild(cat, element);
    after := provider.GetChildren(Some(CategoryItem(cat)), store, host);
  }

  /**
   * Setting the filter changes what a category lists exactly as Filter does: the same
   * fetched list, filtered by the new query.
   */
  method ListAfterSetFilter(cat: CategoryNode, query: string, host: Host) returns (items: seq<TreeItem>)
    ensures |items| == |Filter(FetchElements(cat.site, cat.elementType, host), query)|
    ensures forall i :: 0 <= i < |items| ==>
      items[i].ElementItem? &&
      items[i].element.element == Filter(FetchElements(cat.site, cat.elementType, host), query)[i]
  {
    var store := new Config.SiteStore(Config.Missing);
    var provider := new SiteTreeProvider();
    provider.SetFilter(query);
    items := provider.GetChildren(Some(CategoryItem(cat)), store, host);
  }
}
