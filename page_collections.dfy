/** A site's page collections: the ordered page lists the site builder keeps,
    the type filters and lookup it answers queries with, the refresh of the
    two derived caches, and the edits of the raw master list. */
module HugoLib {
  import opened PageModel

  class PageCollections {
    /** Pages of all types, current language only. */
    var Pages: seq<Page>
    /** Pages of all types in all languages. */
    var AllPages: seq<Page>
    /** Cache of the index-like pages of `Pages` (home, sections, taxonomies). */
    var indexPages: seq<Page>
    /** Cache of the regular pages of `Pages`. */
    var regularPages: seq<Page>
    /** Every page of every type, drafts included: the list that edits act on. */
    var rawAllPages: seq<Page>

    /** The two caches hold the split of `Pages` by the regular-page predicate.
        This holds after a refresh and until `Pages` or a cache is reassigned. */
    ghost predicate CachesFresh()
      reads this
    {
      indexPages == NotOfType(PagePage, Pages) && regularPages == OfType(PagePage, Pages)
    }

    /** An empty collection. */
    constructor ()
      ensures Pages == [] && AllPages == [] && indexPages == [] && regularPages == [] && rawAllPages == []
      ensures CachesFresh()
    {
      Pages, AllPages, indexPages, regularPages, rawAllPages := [], [], [], [], [];
    }

    /** A collection whose raw list is `pages`, all other lists empty. */
    constructor FromPages(pages: seq<Page>)
      ensures rawAllPages == pages
      ensures Pages == [] && AllPages == [] && indexPages == [] && regularPages == []
      ensures CachesFresh()
    {
      Pages, AllPages, indexPages, regularPages, rawAllPages := [], [], [], [], pages;
    }

    /** Rebuilds the two caches from `Pages`, then reports the title of the
        first page of unknown type, the case where the site builder aborts. */
    method RefreshPageCaches() returns (fault: Option<string>)
      modifies this`indexPages, this`regularPages
      ensures CachesFresh()
      ensures Pages == old(Pages) && AllPages == old(AllPages) && rawAllPages == old(rawAllPages)
      ensures forall p :: p in Pages ==>
                (p in regularPages <==> p.pageType == PagePage) &&
                (p in indexPages <==> p.pageType != PagePage)
      ensures fault.None? <==> forall i :: 0 <= i < |Pages| ==> Pages[i].pageType != PageUnknown
      ensures fault.Some? ==>
                exists i :: 0 <= i < |Pages| && Pages[i].pageType == PageUnknown && fault.value == Pages[i].title &&
                            forall j :: 0 <= j < i ==> Pages[j].pageType != PageUnknown
    {
      indexPages := FindPagesByNodeTypeNotIn(PagePage, Pages);
      regularPages := FindPagesByNodeTypeIn(PagePage, Pages);
      var i := 0;
      while i < |Pages| && Pages[i].pageType != PageUnknown
        invariant 0 <= i <= |Pages|
        invariant forall j :: 0 <= j < i ==> Pages[j].pageType != PageUnknown
      {
        i := i + 1;
      }
      fault := if i < |Pages| then Some(Pages[i].title) else None;
      PartitionByRegular(Pages);
    }

    /** The pages of `Pages` of type `n`. */
    method FindPagesByNodeType(n: PageType) returns (pages: seq<Page>)
      ensures pages == OfType(n, Pages)
    {
      pages := FindPagesByNodeTypeIn(n, Pages);
    }

    /** The page of type `n` under section path `path`: with no path, the only
        page of type `n` when there is exactly one; with a path, the first
        page of type `n` whose sections start with `path`. */
    method GetPage(n: PageType, path: seq<string>) returns (r: Option<Page>)
      ensures (forall p :: p in Pages ==> p.pageType != n) ==> r == None
      ensures r.Some? ==> r.value in Pages && r.value.pageType == n
      ensures |path| == 0 ==> r == if |OfType(n, Pages)| == 1 then Some(OfType(n, Pages)[0]) else None
      ensures |path| > 0 ==> r == FirstQualifying(Pages, n, path)
      ensures |path| == 0 ==> (r == FirstQualifying(Pages, n, path) <==> |OfType(n, Pages)| <= 1)
    {
      var pages := FindPagesByNodeTypeIn(n, Pages);
      OfTypeMembers(n, Pages);
      FirstQualifyingOfType(Pages, n, path);
      EmptyPathFindsFirst(Pages, n);
      if |pages| == 0 {
        return None;
      }
      if |path| == 0 && |pages| == 1 {
        return Some(pages[0]);
      }
      var k := 0;
      while k < |pages|
        invariant 0 <= k <= |pages|
        invariant forall j :: 0 <= j < k ==> !(|path| > 0 && HasPrefix(path, pages[j].sections))
      {
        var p := pages[k];
        var matched := false;
        var i := 0;
        while i < |path|
          invariant 0 <= i <= |path|
          invariant matched == (i > 0)
          invariant i <= |p.sections|
          invariant forall j :: 0 <= j < i ==> path[j] == p.sections[j]
        {
          if |p.sections| > i && path[i] == p.sections[i] {
            matched := true;
          } else {
            assert !HasPrefix(path, p.sections);
            matched := false;
            break;
          }
          i := i + 1;
        }
        assert matched == (|path| > 0 && HasPrefix(path, p.sections));
        if matched {
          FirstQualifyingIsFirst(pages, n, path);
          assert Qualifies(pages[k], n, path);
          return Some(p);
        }
        k := k + 1;
      }
      FirstQualifyingIsFirst(pages, n, path);
      return None;
    }

    /** The index-like cached pages of type `n`; on fresh caches, none for
        the regular type and all pages of `Pages` of type `n` for any other. */
    method FindIndexNodesByNodeType(n: PageType) returns (pages: seq<Page>)
      ensures pages == OfType(n, indexPages)
      ensures CachesFresh() ==> pages == if n == PagePage then [] else OfType(n, Pages)
    {
      pages := FindPagesByNodeTypeIn(n, indexPages);
      OfTypeAfterNotOfType(n, PagePage, Pages);
    }

    /** The pages of `inPages` of type `n`, in order. */
    static method FindPagesByNodeTypeIn(n: PageType, inPages: seq<Page>) returns (pages: seq<Page>)
      ensures pages == OfType(n, inPages)
    {
      pages := [];
      for i := 0 to |inPages|
        invariant pages == OfType(n, inPages[..i])
      {
        assert inPages[..i + 1][..i] == inPages[..i];
        if inPages[i].pageType == n {
          pages := pages + [inPages[i]];
        }
      }
      assert inPages[..|inPages|] == inPages;
    }

    /** The pages of `inPages` whose type is not `n`, in order. */
    static method FindPagesByNodeTypeNotIn(n: PageType, inPages: seq<Page>) returns (pages: seq<Page>)
      ensures pages == NotOfType(n, inPages)
    {
      pages := [];
      for i := 0 to |inPages|
        invariant pages == NotOfType(n, inPages[..i])
      {
        assert inPages[..i + 1][..i] == inPages[..i];
        if inPages[i].pageType != n {
          pages := pages + [inPages[i]];
        }
      }
      assert inPages[..|inPages|] == inPages;
    }

    /** The pages of `Pages` of type `n` (the same query as FindPagesByNodeType). */
    method FindAllPagesByNodeType(n: PageType) returns (pages: seq<Page>)
      ensures pages == OfType(n, Pages)
    {
      pages := FindPagesByNodeTypeIn(n, Pages);
    }

    /** The pages of the raw list of type `n`. */
    method FindRawAllPagesByNodeType(n: PageType) returns (pages: seq<Page>)
      ensures pages == OfType(n, rawAllPages)
    {
      pages := FindPagesByNodeTypeIn(n, rawAllPages);
    }

    /** Appends `page` to the raw list, with no duplicate check. */
    method AddPage(page: Page)
      modifies this`rawAllPages
      ensures rawAllPages == old(rawAllPages) + [page]
      ensures Pages == old(Pages) && AllPages == old(AllPages)
      ensures indexPages == old(indexPages) && regularPages == old(regularPages)
    {
      rawAllPages := rawAllPages + [page];
    }

    /** Removes the first raw page whose file path is `path`, if there is one. */
    method RemovePageByPath(path: string)
      modifies this`rawAllPages
      ensures rawAllPages == RemoveFirstByFilePath(old(rawAllPages), path)
      ensures Pages == old(Pages) && AllPages == old(AllPages)
      ensures indexPages == old(indexPages) && regularPages == old(regularPages)
    {
      var i := FindPagePosByFilePath(rawAllPages, path);
      if i >= 0 {
        rawAllPages := rawAllPages[..i] + rawAllPages[i + 1..];
      }
    }

    /** Removes the first raw page with the same file path as `page`, if there is one. */
    method RemovePage(page: Page)
      modifies this`rawAllPages
      ensures rawAllPages == RemoveFirstByFilePath(old(rawAllPages), page.filePath)
      ensures Pages == old(Pages) && AllPages == old(AllPages)
      ensures indexPages == old(indexPages) && regularPages == old(regularPages)
    {
      var i := FindPagePos(rawAllPages, page);
      if i >= 0 {
        rawAllPages := rawAllPages[..i] + rawAllPages[i + 1..];
      }
    }

    /** Removes the raw page with `page`'s file path and appends `page`, so
        that `page` always ends up last. */
    method ReplacePage(page: Page)
      modifies this`rawAllPages
      ensures rawAllPages == RemoveFirstByFilePath(old(rawAllPages), page.filePath) + [page]
      ensures rawAllPages[|rawAllPages| - 1] == page
      ensures |rawAllPages| == if exists j :: 0 <= j < |old(rawAllPages)| && old(rawAllPages)[j].filePath == page.filePath
                               then |old(rawAllPages)| else |old(rawAllPages)| + 1
      ensures UniquePaths(old(rawAllPages)) ==> UniquePaths(rawAllPages)
      ensures Pages == old(Pages) && AllPages == old(AllPages)
      ensures indexPages == old(indexPages) && regularPages == old(regularPages)
    {
      ReplaceEffect(rawAllPages, page);
      RemovePage(page);
      AddPage(page);
    }
  }

  /** Adding two regular pages and removing one of them by path. */
  method AddRemoveScenario()
  {
    var a := Page(PagePage, ["blog"], "/blog/a.md", "A");
    var b := Page(PagePage, ["blog"], "/blog/b.md", "B");
    var c := new PageCollections();
    c.AddPage(a);
    c.AddPage(b);
    var raw := c.FindRawAllPagesByNodeType(PagePage);
    assert raw == [a, b];
    c.RemovePageByPath("/blog/a.md");
    assert FindPagePosByFilePath([a, b], "/blog/a.md") == 0;
    assert c.rawAllPages == [b];
  }

  /** Refreshing the caches of a home page, a section page and a regular page. */
  method RefreshScenario()
  {
    var home := Page(PageHome, [], "/_index.md", "Home");
    var section := Page(PageSection, ["blog"], "/blog/_index.md", "Blog");
    var post := Page(PagePage, ["blog"], "/blog/a.md", "A");
    var all := [home, section, post];
    SplitOfThree(home, section, post);
    var d := new PageCollections();
    d.Pages := all;
    var _ := d.RefreshPageCaches();
    assert d.indexPages == [home, section];
    assert d.regularPages == [post];
  }

  /** Refreshing with a page of unknown type reports that page's title. */
  method UnknownTypeScenario()
  {
    var home := Page(PageHome, [], "/_index.md", "Home");
    var stray := Page(PageUnknown, [], "/stray.md", "Stray");
    var d := new PageCollections();
    d.Pages := [home, stray];
    var fault := d.RefreshPageCaches();
    assert fault == Some("Stray");
  }

  /** Looking up sections: with no path and two candidates nothing is found,
      with a path the page under it is. */
  method GetPageScenario()
  {
    var blog := Page(PageSection, ["blog"], "/blog/_index.md", "Blog");
    var docs := Page(PageSection, ["docs"], "/docs/_index.md", "Docs");
    var d := new PageCollections();
    d.Pages := [blog, docs];
    assert [blog, docs][..1] == [blog];
    assert OfType(PageSection, [blog, docs]) == [blog, docs];
    var none := d.GetPage(PageSection, []);
    assert none == None;
    assert "docs"[0] != "blog"[0];
    assert ["docs"][0] != blog.sections[0];
    assert !HasPrefix(["docs"], blog.sections);
    assert HasPrefix(["docs"], docs.sections);
    assert [blog, docs][1..] == [docs];
    var found := d.GetPage(PageSection, ["docs"]);
    assert found == Some(docs);
  }
}
