/** The page values that a site's page collections hold, and the pure
    functions over page lists that specify what the collection index does:
    type filters, the first-match finders used for removal, and the
    section-prefix lookup used by getPage. */
module PageModel {

  datatype Option<T> = None | Some(value: T)

  /** A page's kind. `PagePage` is a regular content page; the others are
      index-like pages. `PageUnknown` must never reach a site's page list. */
  datatype PageType =
    | PagePage
    | PageHome
    | PageSection
    | PageTaxonomy
    | PageTaxonomyTerm
    | PageUnknown

  /** The part of a page that the collection index looks at: its kind, its
      section path, the path of its source file and its title. */
  datatype Page = Page(pageType: PageType, sections: seq<string>, filePath: string, title: string)

  // ---------------------------------------------------------------------
  // Order-preserving subsequences

  /** `a` can be obtained from `b` by deleting elements, keeping the order. */
  ghost predicate IsSubsequence(a: seq<Page>, b: seq<Page>)
  {
    if |a| == 0 then true
    else if |b| == 0 then false
    else (a[|a| - 1] == b[|b| - 1] && IsSubsequence(a[..|a| - 1], b[..|b| - 1]))
         || IsSubsequence(a, b[..|b| - 1])
  }

  lemma {:induction false} SubsequenceReflexive(a: seq<Page>)
    ensures IsSubsequence(a, a)
  {
    if |a| > 0 {
      SubsequenceReflexive(a[..|a| - 1]);
    }
  }

  /** Deleting the element at one position leaves a subsequence. */
  lemma {:induction false} DropOneIsSubsequence(ps: seq<Page>, i: nat)
    requires i < |ps|
    ensures IsSubsequence(ps[..i] + ps[i + 1..], ps)
  {
    var r := ps[..i] + ps[i + 1..];
    var last := |ps| - 1;
    if i == last {
      assert r == ps[..last];
      SubsequenceReflexive(ps[..last]);
    } else {
      assert r[..|r| - 1] == ps[..last][..i] + ps[..last][i + 1..];
      DropOneIsSubsequence(ps[..last], i);
    }
  }

  // ---------------------------------------------------------------------
  // Type filters

  /** The pages of `ps` whose type is `n`, in their order in `ps`. */
  function OfType(n: PageType, ps: seq<Page>): (r: seq<Page>)
    ensures |r| <= |ps|
    ensures forall i :: 0 <= i < |r| ==> r[i].pageType == n
  {
    if |ps| == 0 then []
    else
      var init, last := ps[..|ps| - 1], ps[|ps| - 1];
      OfType(n, init) + (if last.pageType == n then [last] else [])
  }

  /** The pages of `ps` whose type is not `n`, in their order in `ps`. */
  function NotOfType(n: PageType, ps: seq<Page>): (r: seq<Page>)
    ensures |r| <= |ps|
    ensures forall i :: 0 <= i < |r| ==> r[i].pageType != n
  {
    if |ps| == 0 then []
    else
      var init, last := ps[..|ps| - 1], ps[|ps| - 1];
      NotOfType(n, init) + (if last.pageType != n then [last] else [])
  }

  /** A page is in `OfType(n, ps)` exactly when it is in `ps` and has type `n`. */
  lemma {:induction false} OfTypeMembers(n: PageType, ps: seq<Page>)
    ensures forall p :: p in OfType(n, ps) <==> p in ps && p.pageType == n
  {
    if |ps| > 0 {
      var init, last := ps[..|ps| - 1], ps[|ps| - 1];
      OfTypeMembers(n, init);
      assert ps == init + [last];
    }
  }

  /** A page is in `NotOfType(n, ps)` exactly when it is in `ps` and its type is not `n`. */
  lemma {:induction false} NotOfTypeMembers(n: PageType, ps: seq<Page>)
    ensures forall p :: p in NotOfType(n, ps) <==> p in ps && p.pageType != n
  {
    if |ps| > 0 {
      var init, last := ps[..|ps| - 1], ps[|ps| - 1];
      NotOfTypeMembers(n, init);
      assert ps == init + [last];
    }
  }

  /** Filtering a concatenation filters each part. */
  lemma {:induction false} OfTypeAppend(n: PageType, a: seq<Page>, b: seq<Page>)
    ensures OfType(n, a + b) == OfType(n, a) + OfType(n, b)
  {
    if |b| == 0 {
      assert a + b == a;
    } else {
      var b' := b[..|b| - 1];
      assert (a + b)[..|a + b| - 1] == a + b';
      OfTypeAppend(n, a, b');
    }
  }

  lemma {:induction false} NotOfTypeAppend(n: PageType, a: seq<Page>, b: seq<Page>)
    ensures NotOfType(n, a + b) == NotOfType(n, a) + NotOfType(n, b)
  {
    if |b| == 0 {
      assert a + b == a;
    } else {
      var b' := b[..|b| - 1];
      assert (a + b)[..|a + b| - 1] == a + b';
      NotOfTypeAppend(n, a, b');
    }
  }

  /** Filtering peels off the first page of a non-empty list. */
  lemma OfTypeCons(n: PageType, ps: seq<Page>)
    requires |ps| > 0
    ensures OfType(n, ps) == (if ps[0].pageType == n then [ps[0]] else []) + OfType(n, ps[1..])
  {
    assert ps == [ps[0]] + ps[1..];
    OfTypeAppend(n, [ps[0]], ps[1..]);
    assert OfType(n, [ps[0]]) == OfType(n, []) + (if ps[0].pageType == n then [ps[0]] else []);
  }

  lemma {:induction false} OfTypeIsSubsequence(n: PageType, ps: seq<Page>)
    ensures IsSubsequence(OfType(n, ps), ps)
  {
    if |ps| > 0 {
      var init := ps[..|ps| - 1];
      OfTypeIsSubsequence(n, init);
      var r := OfType(n, ps);
      if ps[|ps| - 1].pageType == n {
        assert r[..|r| - 1] == OfType(n, init);
      } else if |r| > 0 {
        assert r == OfType(n, init);
      }
    }
  }

  lemma {:induction false} NotOfTypeIsSubsequence(n: PageType, ps: seq<Page>)
    ensures IsSubsequence(NotOfType(n, ps), ps)
  {
    if |ps| > 0 {
      var init := ps[..|ps| - 1];
      NotOfTypeIsSubsequence(n, init);
      var r := NotOfType(n, ps);
      if ps[|ps| - 1].pageType != n {
        assert r[..|r| - 1] == NotOfType(n, init);
      } else if |r| > 0 {
        assert r == NotOfType(n, init);
      }
    }
  }

  /** `OfType(n, ps)` is the one longest subsequence of `ps` made of pages of
      type `n`: it holds exactly the type-`n` pages of `ps`, in order. */
  lemma {:induction false} OfTypeIsLongest(n: PageType, r: seq<Page>, ps: seq<Page>)
    requires IsSubsequence(r, ps)
    requires forall i :: 0 <= i < |r| ==> r[i].pageType == n
    ensures |r| <= |OfType(n, ps)|
    ensures |r| == |OfType(n, ps)| ==> r == OfType(n, ps)
    decreases |ps|
  {
    if |r| > 0 {
      var r', init := r[..|r| - 1], ps[..|ps| - 1];
      var last := ps[|ps| - 1];
      FiltersStep(n, ps);
      if r[|r| - 1] == last && IsSubsequence(r', init) {
        OfTypeIsLongest(n, r', init);
        assert r == r' + [last];
      } else {
        OfTypeIsLongest(n, r, init);
      }
    }
  }

  /** `NotOfType(n, ps)` holds exactly the pages of `ps` not of type `n`, in order. */
  lemma {:induction false} NotOfTypeIsLongest(n: PageType, r: seq<Page>, ps: seq<Page>)
    requires IsSubsequence(r, ps)
    requires forall i :: 0 <= i < |r| ==> r[i].pageType != n
    ensures |r| <= |NotOfType(n, ps)|
    ensures |r| == |NotOfType(n, ps)| ==> r == NotOfType(n, ps)
    decreases |ps|
  {
    if |r| > 0 {
      var r', init := r[..|r| - 1], ps[..|ps| - 1];
      var last := ps[|ps| - 1];
      FiltersStep(n, ps);
      if r[|r| - 1] == last && IsSubsequence(r', init) {
        NotOfTypeIsLongest(n, r', init);
        assert r == r' + [last];
      } else {
        NotOfTypeIsLongest(n, r, init);
      }
    }
  }

  /** The last page of a non-empty list goes to exactly one of the two
      filters; the rest of the list is filtered as before. */
  lemma FiltersStep(n: PageType, ps: seq<Page>)
    requires |ps| > 0
    ensures var init, last := ps[..|ps| - 1], ps[|ps| - 1];
            if last.pageType == n
            then OfType(n, ps) == OfType(n, init) + [last] && NotOfType(n, ps) == NotOfType(n, init)
            else OfType(n, ps) == OfType(n, init) && NotOfType(n, ps) == NotOfType(n, init) + [last]
  {
  }

  /** Two lists whose multisets sum to that of `s` still do so for `s + [x]`
      once `x` is appended to either of them. */
  lemma MultisetSumGrows(a: seq<Page>, b: seq<Page>, s: seq<Page>, x: Page)
    requires multiset(a) + multiset(b) == multiset(s)
    ensures multiset(a + [x]) + multiset(b) == multiset(s + [x])
    ensures multiset(a) + multiset(b + [x]) == multiset(s + [x])
  {
  }

  /** Adding the last page of a list to the one filter it goes to keeps the
      two filters' multisets summing to the list's. */
  lemma FiltersKeepMultisetStep(n: PageType, ps: seq<Page>)
    requires |ps| > 0
    requires var init := ps[..|ps| - 1];
             multiset(OfType(n, init)) + multiset(NotOfType(n, init)) == multiset(init)
    ensures multiset(OfType(n, ps)) + multiset(NotOfType(n, ps)) == multiset(ps)
  {
    var init, last := ps[..|ps| - 1], ps[|ps| - 1];
    FiltersStep(n, ps);
    assert init + [last] == ps;
    MultisetSumGrows(OfType(n, init), NotOfType(n, init), init, last);
  }

  /** Together the two filters for one type hold each page of a list as
      many times as the list does. */
  lemma {:induction false} FiltersKeepMultiset(n: PageType, ps: seq<Page>)
    ensures multiset(OfType(n, ps)) + multiset(NotOfType(n, ps)) == multiset(ps)
  {
    if |ps| > 0 {
      FiltersKeepMultiset(n, ps[..|ps| - 1]);
      FiltersKeepMultisetStep(n, ps);
    }
  }

  /** The two filters for one type split a list: their lengths add up to its
      length. */
  lemma FiltersSplit(n: PageType, ps: seq<Page>)
    ensures |OfType(n, ps)| + |NotOfType(n, ps)| == |ps|
  {
    FiltersKeepMultiset(n, ps);
    assert |multiset(ps)| == |multiset(OfType(n, ps))| + |multiset(NotOfType(n, ps))|;
  }

  /** Filtering by type `n` after dropping type `m` leaves nothing when the
      two types agree, and is the plain type-`n` filter otherwise. */
  lemma {:induction false} OfTypeAfterNotOfType(n: PageType, m: PageType, ps: seq<Page>)
    ensures OfType(n, NotOfType(m, ps)) == if n == m then [] else OfType(n, ps)
  {
    if |ps| > 0 {
      var init, last := ps[..|ps| - 1], ps[|ps| - 1];
      OfTypeAfterNotOfType(n, m, init);
      var tail := if last.pageType != m then [last] else [];
      OfTypeAppend(n, NotOfType(m, init), tail);
    }
  }

  /** A page list split by the regular-page predicate: each page of `ps`
      lands in exactly one part, the regular part when its type is
      `PagePage`, and the parts together keep every occurrence. */
  lemma PartitionByRegular(ps: seq<Page>)
    ensures forall p :: p in ps ==>
              (p in OfType(PagePage, ps) <==> p.pageType == PagePage) &&
              (p in NotOfType(PagePage, ps) <==> p.pageType != PagePage)
    ensures forall p :: p in ps ==> (p in OfType(PagePage, ps)) != (p in NotOfType(PagePage, ps))
    ensures multiset(NotOfType(PagePage, ps)) + multiset(OfType(PagePage, ps)) == multiset(ps)
  {
    FiltersKeepMultiset(PagePage, ps);
    OfTypeMembers(PagePage, ps);
    NotOfTypeMembers(PagePage, ps);
  }

  /** A home page, a section page and a regular page split into the two
      index-like pages, in order, and the regular one. */
  lemma SplitOfThree(home: Page, section: Page, post: Page)
    requires home.pageType == PageHome && section.pageType == PageSection && post.pageType == PagePage
    ensures NotOfType(PagePage, [home, section, post]) == [home, section]
    ensures OfType(PagePage, [home, section, post]) == [post]
  {
    var all := [home, section, post];
    assert all[..2] == [home, section] && all[..2][..1] == [home] && [home][..0] == [];
    FiltersStep(PagePage, [home]);
    FiltersStep(PagePage, [home, section]);
    FiltersStep(PagePage, all);
  }

  // ---------------------------------------------------------------------
  // Finders by file path (the page list's own finders)

  /** The first position in `ps` of a page whose file path is `path`, or -1. */
  function FindPagePosByFilePath(ps: seq<Page>, path: string): (i: int)
    ensures -1 <= i < |ps|
    ensures 0 <= i ==> ps[i].filePath == path
    ensures forall j :: 0 <= j < |ps| && (i < 0 || j < i) ==> ps[j].filePath != path
  {
    if |ps| == 0 then -1
    else if ps[0].filePath == path then 0
    else
      var k := FindPagePosByFilePath(ps[1..], path);
      if k < 0 then -1 else k + 1
  }

  /** The first position in `ps` of a page with the same file path as `page`, or -1. */
  function FindPagePos(ps: seq<Page>, page: Page): (i: int)
    ensures -1 <= i < |ps|
    ensures 0 <= i ==> ps[i].filePath == page.filePath
    ensures forall j :: 0 <= j < |ps| && (i < 0 || j < i) ==> ps[j].filePath != page.filePath
  {
    FindPagePosByFilePath(ps, page.filePath)
  }

  /** `ps` without its first page whose file path is `path`; `ps` itself when
      there is none. */
  function RemoveFirstByFilePath(ps: seq<Page>, path: string): (r: seq<Page>)
    ensures |r| == |ps| || |r| == |ps| - 1
    ensures |r| == |ps| <==> forall j :: 0 <= j < |ps| ==> ps[j].filePath != path
  {
    var i := FindPagePosByFilePath(ps, path);
    if i >= 0 then ps[..i] + ps[i + 1..] else ps
  }

  /** Deleting the element at position `i` loses exactly that one occurrence. */
  lemma DropOneMultiset(ps: seq<Page>, i: nat)
    requires i < |ps|
    ensures multiset(ps[..i] + ps[i + 1..]) + multiset{ps[i]} == multiset(ps)
  {
    assert ps == ps[..i] + [ps[i]] + ps[i + 1..];
  }

  /** Removal by file path takes away exactly the first page with that path
      (the one the finder points at), keeping the others in order, or changes
      nothing when no page has it. */
  lemma RemoveFirstByFilePathEffect(ps: seq<Page>, path: string)
    ensures IsSubsequence(RemoveFirstByFilePath(ps, path), ps)
    ensures (forall j :: 0 <= j < |ps| ==> ps[j].filePath != path) ==> RemoveFirstByFilePath(ps, path) == ps
    ensures var i, r := FindPagePosByFilePath(ps, path), RemoveFirstByFilePath(ps, path);
            0 <= i ==> |r| == |ps| - 1 && r[..i] == ps[..i] && r[i..] == ps[i + 1..] &&
                       multiset(r) + multiset{ps[i]} == multiset(ps)
  {
    var i := FindPagePosByFilePath(ps, path);
    if i >= 0 {
      DropOneIsSubsequence(ps, i);
      DropOneMultiset(ps, i);
    } else {
      SubsequenceReflexive(ps);
    }
  }

  /** At most one page per file path. */
  ghost predicate UniquePaths(ps: seq<Page>)
  {
    forall i, j :: 0 <= i < j < |ps| ==> ps[i].filePath != ps[j].filePath
  }

  /** Appending keeps the paths unique exactly when no page has the new
      page's path already: appending does no duplicate check of its own. */
  lemma AppendUniquePaths(ps: seq<Page>, p: Page)
    requires UniquePaths(ps)
    ensures UniquePaths(ps + [p]) <==> forall q :: q in ps ==> q.filePath != p.filePath
  {
    var r := ps + [p];
    if !forall q :: q in ps ==> q.filePath != p.filePath {
      var q :| q in ps && q.filePath == p.filePath;
      var i :| 0 <= i < |ps| && ps[i] == q;
      assert r[i].filePath == r[|ps|].filePath;
    }
  }

  /** In a list with unique paths, removal by path leaves unique paths and
      no page with that path. */
  lemma RemoveKeepsUniquePaths(ps: seq<Page>, path: string)
    requires UniquePaths(ps)
    ensures UniquePaths(RemoveFirstByFilePath(ps, path))
    ensures forall q :: q in RemoveFirstByFilePath(ps, path) ==> q.filePath != path
  {
  }

  /** Replacing (remove by `p`'s path, then append `p`) leaves `p` last,
      keeps the length when a page with `p`'s path was there and grows it by
      one otherwise, and keeps file paths unique. */
  lemma ReplaceEffect(ps: seq<Page>, p: Page)
    ensures var r := RemoveFirstByFilePath(ps, p.filePath) + [p];
            r[|r| - 1] == p &&
            IsSubsequence(r[..|r| - 1], ps) &&
            (|r| == if exists j :: 0 <= j < |ps| && ps[j].filePath == p.filePath then |ps| else |ps| + 1)
    ensures UniquePaths(ps) ==> UniquePaths(RemoveFirstByFilePath(ps, p.filePath) + [p])
  {
    var r := RemoveFirstByFilePath(ps, p.filePath);
    RemoveFirstByFilePathEffect(ps, p.filePath);
    assert (r + [p])[..|r + [p]| - 1] == r;
    if UniquePaths(ps) {
      RemoveKeepsUniquePaths(ps, p.filePath);
      AppendUniquePaths(r, p);
    }
  }

  // ---------------------------------------------------------------------
  // Lookup by type and section prefix

  /** `path` is a prefix of `sections`. */
  predicate HasPrefix(path: seq<string>, sections: seq<string>)
  {
    |path| <= |sections| && forall j :: 0 <= j < |path| ==> path[j] == sections[j]
  }

  /** Page `p` has type `n` and lies under the section path `path`. */
  predicate Qualifies(p: Page, n: PageType, path: seq<string>)
  {
    p.pageType == n && HasPrefix(path, p.sections)
  }

  /** The first page of `ps` of type `n` under section path `path`, if any. */
  function FirstQualifying(ps: seq<Page>, n: PageType, path: seq<string>): (r: Option<Page>)
    ensures r.Some? ==> Qualifies(r.value, n, path)
  {
    if |ps| == 0 then None
    else if Qualifies(ps[0], n, path) then Some(ps[0])
    else FirstQualifying(ps[1..], n, path)
  }

  /** The first-match lookup finds nothing exactly when no page qualifies,
      and otherwise finds a qualifying page with none qualifying before it. */
  lemma {:induction false} FirstQualifyingIsFirst(ps: seq<Page>, n: PageType, path: seq<string>)
    ensures FirstQualifying(ps, n, path).None? <==> forall i :: 0 <= i < |ps| ==> !Qualifies(ps[i], n, path)
    ensures FirstQualifying(ps, n, path).Some? ==>
              exists i :: 0 <= i < |ps| && ps[i] == FirstQualifying(ps, n, path).value &&
                          Qualifies(ps[i], n, path) && forall j :: 0 <= j < i ==> !Qualifies(ps[j], n, path)
  {
    if |ps| > 0 && !Qualifies(ps[0], n, path) {
      var rest := ps[1..];
      FirstQualifyingIsFirst(rest, n, path);
      assert forall j :: 1 <= j < |ps| ==> ps[j] == rest[j - 1];
      if FirstQualifying(rest, n, path).Some? {
        var k :| 0 <= k < |rest| && rest[k] == FirstQualifying(rest, n, path).value &&
                 Qualifies(rest[k], n, path) && forall j :: 0 <= j < k ==> !Qualifies(rest[j], n, path);
        assert ps[k + 1] == rest[k];
      }
    } else if |ps| > 0 {
      assert ps[0] == FirstQualifying(ps, n, path).value;
    }
  }

  /** Looking among the type-`n` pages only finds the same first match as
      looking in the whole list. */
  lemma {:induction false} FirstQualifyingOfType(ps: seq<Page>, n: PageType, path: seq<string>)
    ensures FirstQualifying(OfType(n, ps), n, path) == FirstQualifying(ps, n, path)
  {
    if |ps| > 0 {
      var head, rest := ps[0], ps[1..];
      OfTypeCons(n, ps);
      FirstQualifyingOfType(rest, n, path);
      var c := OfType(n, ps);
      if head.pageType == n {
        assert c[0] == head && c[1..] == OfType(n, rest);
        if !Qualifies(head, n, path) {
          assert FirstQualifying(c, n, path) == FirstQualifying(c[1..], n, path);
        }
      } else {
        assert c == OfType(n, rest);
      }
    }
  }

  /** With an empty section path every page of type `n` qualifies, so the
      first-match lookup finds the first such page whenever there is one. */
  lemma EmptyPathFindsFirst(ps: seq<Page>, n: PageType)
    ensures FirstQualifying(ps, n, []) == if |OfType(n, ps)| == 0 then None else Some(OfType(n, ps)[0])
  {
    FirstQualifyingOfType(ps, n, []);
    var c := OfType(n, ps);
    if |c| > 0 {
      assert Qualifies(c[0], n, []);
    }
  }
}
