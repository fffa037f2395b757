/** The outer loop of the two complete crawler scripts: every category
    directory under the base directory, in natural order, and every image
    in it, in natural order, is searched for and its results downloaded
    into an output folder derived from its name. The browser is a search
    oracle that tells, for a category and an image name, whether the page
    loaded in time, which heights it reports while scrolling, and which
    result links it shows. */
module Traversal {
  import opened Base
  import opened NaturalSort
  import opened Downloads
  import opened Scrape

  /** `OUTPUT_DIR`, relative to the working directory. */
  const Output: Path := ["background", "train", "image"]

  /** test2.py's `process_categories` or image_crawler.py's
      `process_image_categories`. */
  datatype Script = Test2Script | CrawlerScript

  /** One entry of the base directory: its name, whether it is a directory,
      and, if it is, the names it lists. */
  datatype Category = Category(name: string, isDir: bool, entries: seq<string>)

  datatype Page = WaitTimedOut | Loaded(heights: seq<int>, links: seq<DataM>)

  /** What happened to one image. */
  datatype Outcome =
    | FolderExists      // test2.py: the output folder exists, no search
    | TimedOut          // a browser wait expired; logged
    | ScrollHangs       // the page never stopped growing; the run hangs
    | BadPayload        // a `data-m` was not a JSON object; logged
    | FolderFailed      // image_crawler.py: `makedirs` failed; logged
    | Downloaded(steps: seq<Step>)

  datatype Visit = Visit(category: string, image: string, folder: Path, outcome: Outcome)

  datatype Trav = Trav(store: Store, visits: seq<Visit>, hung: bool)

  /** `os.path.join(p, c)` for a component without a separator; an empty
      component only adds a trailing separator, naming the same folder. */
  function Child(p: Path, c: string): (r: Path)
    ensures c != [] ==> r == p + [c]
    ensures c == [] ==> r == p
  {
    if c == [] then p else p + [c]
  }

  /** test2.py: `OUTPUT_DIR/<name before the first '_'>/<name before the
      first '.'>`; an empty part adds no level. */
  function Test2Folder(img: string): (folder: Path)
    ensures Output <= folder && |folder| <= |Output| + 2
    ensures BeforeFirst(img, '_') != [] && BeforeFirst(img, '.') != [] ==>
              folder == Output + [BeforeFirst(img, '_'), BeforeFirst(img, '.')]
    ensures BeforeFirst(img, '_') == [] && BeforeFirst(img, '.') != [] ==>
              folder == Output + [BeforeFirst(img, '.')]
    ensures BeforeFirst(img, '_') != [] && BeforeFirst(img, '.') == [] ==>
              folder == Output + [BeforeFirst(img, '_')]
    ensures BeforeFirst(img, '_') == [] && BeforeFirst(img, '.') == [] ==> folder == Output
  {
    Child(Child(Output, BeforeFirst(img, '_')), BeforeFirst(img, '.'))
  }

  lemma {:induction false} BeforeFirstAppend(x: string, y: string, sep: char)
    requires sep in x
    ensures BeforeFirst(x + y, sep) == BeforeFirst(x, sep)
  {
    assert (x + y)[0] == x[0];
    if x[0] != sep {
      assert (x + y)[1..] == x[1..] + y;
      BeforeFirstAppend(x[1..], y, sep);
    }
  }

  lemma {:induction false} BeforeFirstStops(x: string, y: string, sep: char)
    requires sep !in x && y != [] && y[0] == sep
    ensures BeforeFirst(x + y, sep) == x
  {
    if x == [] {
      assert x + y == y;
    } else {
      assert (x + y)[0] == x[0];
      assert (x + y)[1..] == x[1..] + y;
      BeforeFirstStops(x[1..], y, sep);
    }
  }

  /** test2.py keys the output folder on the image name alone: two images
      whose names share a stem containing '_' and differ only after the
      first '.' get the same folder, so the second is skipped as done. */
  lemma Test2FoldersCollide(stem: string, ext1: string, ext2: string)
    requires '_' in stem && '.' !in stem
    requires ext1 != [] && ext1[0] == '.' && ext2 != [] && ext2[0] == '.'
    ensures Test2Folder(stem + ext1) == Test2Folder(stem + ext2)
    ensures Test2Folder(stem + ext1) == Child(Output, BeforeFirst(stem, '_')) + [stem]
  {
    BeforeFirstAppend(stem, ext1, '_');
    BeforeFirstAppend(stem, ext2, '_');
    BeforeFirstStops(stem, ext1, '.');
    BeforeFirstStops(stem, ext2, '.');
  }

  /** A name without '_' becomes its own parent folder. */
  lemma Test2FolderWithoutUnderscore(name: string)
    requires '_' !in name && BeforeFirst(name, '.') != []
    ensures Test2Folder(name) == Output + [name, BeforeFirst(name, '.')]
  {
    var u := BeforeFirst(name, '_');
    assert u == name;
    assert name != [];
    assert Child(Output, u) == Output + [name];
  }

  /** image_crawler.py: `OUTPUT_DIR/<category>/<splitext stem>`. */
  function CrawlerFolder(category: string, img: string): (folder: Path)
    ensures img != [] ==> folder == Child(Output, category) + [SplitextStem(img)]
  {
    Child(Child(Output, category), SplitextStem(img))
  }

  function FolderOf(s: Script, category: string, img: string): Path
  {
    match s
    case Test2Script => Test2Folder(img)
    case CrawlerScript => CrawlerFolder(category, img)
  }

  /** test2.py skips an image whose folder exists; image_crawler.py
      searches every image. */
  predicate Searched(s: Script, st: Store, img: string)
  {
    !(s == Test2Script && Exists(st, Test2Folder(img)))
  }

  /** The page loaded and its scroll loop ended. */
  predicate Settled(page: Page)
  {
    page.Loaded? && SettleIndex(page.heights, 1).Some?
  }

  /** The script's extraction accepts the collected `m` attributes. */
  predicate Extracts(s: Script, links: seq<DataM>)
  {
    match s
    case Test2Script => ExtractTest2(links).Some?
    case CrawlerScript => ExtractCrawler(links).Some?
  }

  /** The body of the inner loop for one image: derive the folder, (test2.py
      only) skip it when it exists, search, scroll, extract, download. */
  function VisitImage(s: Script, st: Store, category: string, img: string,
                      search: (string, string) -> Page, net: Url -> Fetch): (r: Trav)
    ensures |r.visits| == 1
    ensures r.visits[0].category == category && r.visits[0].image == img
    ensures r.visits[0].folder == FolderOf(s, category, img)
    ensures r.hung <==> r.visits[0].outcome == ScrollHangs
    ensures !r.visits[0].outcome.Downloaded? ==> r.store == st
    ensures r.visits[0].outcome == FolderExists <==>
              s == Test2Script && Exists(st, Test2Folder(img))
    ensures r.visits[0].outcome.Downloaded? ==> |r.visits[0].outcome.steps| <= MaxNumImages
    ensures r.visits[0].outcome == TimedOut <==>
              Searched(s, st, img) && search(category, img).WaitTimedOut?
    ensures r.visits[0].outcome == ScrollHangs <==>
              Searched(s, st, img) && search(category, img).Loaded?
              && SettleIndex(search(category, img).heights, 1).None?
    ensures r.visits[0].outcome == BadPayload <==>
              Searched(s, st, img) && Settled(search(category, img))
              && !Extracts(s, search(category, img).links)
    ensures r.visits[0].outcome == FolderFailed <==>
              s == CrawlerScript && Settled(search(category, img))
              && ExtractCrawler(search(category, img).links).Some?
              && MakeDirs(st, FolderOf(s, category, img)).None?
    ensures r.visits[0].outcome.Downloaded? ==>
              && Settled(search(category, img))
              && match s
                 case Test2Script =>
                   && ExtractTest2(search(category, img).links).Some?
                   && DownloadAllTest2(st, ExtractTest2(search(category, img).links).value,
                                       FolderOf(s, category, img), net)
                      == Run(r.store, r.visits[0].outcome.steps)
                 case CrawlerScript =>
                   && ExtractCrawler(search(category, img).links).Some?
                   && DownloadAllCrawler(st, ExtractCrawler(search(category, img).links).value,
                                         FolderOf(s, category, img), net)
                      == Some(Run(r.store, r.visits[0].outcome.steps))
  {
    var folder := FolderOf(s, category, img);
    var skip := Trav(st, [Visit(category, img, folder, FolderExists)], false);
    if s == Test2Script && Exists(st, folder) then skip
    else match search(category, img)
      case WaitTimedOut => Trav(st, [Visit(category, img, folder, TimedOut)], false)
      case Loaded(heights, links) =>
        if SettleIndex(heights, 1).None? then
          Trav(st, [Visit(category, img, folder, ScrollHangs)], true)
        else if s == Test2Script then
          match ExtractTest2(links)
          case None => Trav(st, [Visit(category, img, folder, BadPayload)], false)
          case Some(urls) =>
            var run := DownloadAllTest2(st, urls, folder, net);
            Test2JobsBound(urls, st.cache, 0);
            Trav(run.store, [Visit(category, img, folder, Downloaded(run.steps))], false)
        else
          match ExtractCrawler(links)
          case None => Trav(st, [Visit(category, img, folder, BadPayload)], false)
          case Some(urls) =>
            match DownloadAllCrawler(st, urls, folder, net)
            case None => Trav(st, [Visit(category, img, folder, FolderFailed)], false)
            case Some(run) =>
              Trav(run.store, [Visit(category, img, folder, Downloaded(run.steps))], false)
  }

  lemma {:induction false} Test2JobsBound(urls: seq<Url>, cache: set<Url>, i: nat)
    requires i <= |urls|
    ensures |Test2JobsFrom(urls, cache, i)| <= |urls| - i
    decreases |urls| - i
  {
    if i < |urls| {
      Test2JobsBound(urls, cache, i + 1);
    }
  }

  /** A run hangs exactly when its last visit is a scroll that never
      settles, and no earlier visit is one. */
  predicate HangsLast(visits: seq<Visit>, hung: bool)
  {
    && (hung <==> visits != [] && visits[|visits| - 1].outcome == ScrollHangs)
    && forall i :: 0 <= i < |visits| - 1 ==> visits[i].outcome != ScrollHangs
  }

  lemma HangsLastAppend(a: seq<Visit>, b: seq<Visit>, hung: bool)
    requires HangsLast(a, false) && HangsLast(b, hung)
    ensures HangsLast(a + b, hung)
  {
    var ab := a + b;
    assert forall i :: 0 <= i < |a| ==> ab[i] == a[i];
    assert forall i :: |a| <= i < |ab| ==> ab[i] == b[i - |a|];
  }

  /** The inner loop over the images of one category, in the order given;
      a hang ends the whole run. */
  function VisitImages(s: Script, st: Store, category: string, imgs: seq<string>,
                       search: (string, string) -> Page, net: Url -> Fetch): (r: Trav)
    ensures |r.visits| <= |imgs|
    ensures forall i :: 0 <= i < |r.visits| ==>
              r.visits[i].category == category && r.visits[i].image == imgs[i]
    ensures HangsLast(r.visits, r.hung)
    ensures !r.hung ==> |r.visits| == |imgs|
    decreases |imgs|
  {
    if imgs == [] then Trav(st, [], false)
    else
      var first := VisitImage(s, st, category, imgs[0], search, net);
      if first.hung then first
      else
        var rest := VisitImages(s, first.store, category, imgs[1..], search, net);
        var vs := first.visits + rest.visits;
        assert forall i :: 0 < i < |vs| ==> vs[i] == rest.visits[i - 1];
        HangsLastAppend(first.visits, rest.visits, rest.hung);
        Trav(rest.store, vs, rest.hung)
  }

  /** The outer loop over the categories in the order given: entries that
      are not directories are passed over, and a hang ends the run. */
  function VisitCategories(s: Script, st: Store, cats: seq<Category>,
                           search: (string, string) -> Page, net: Url -> Fetch): (r: Trav)
    ensures HangsLast(r.visits, r.hung)
    decreases |cats|
  {
    if cats == [] then Trav(st, [], false)
    else if !cats[0].isDir then VisitCategories(s, st, cats[1..], search, net)
    else
      var first := VisitImages(s, st, cats[0].name, SortBy(cats[0].entries, NaturalKey), search, net);
      if first.hung then first
      else
        var rest := VisitCategories(s, first.store, cats[1..], search, net);
        HangsLastAppend(first.visits, rest.visits, rest.hung);
        Trav(rest.store, first.visits + rest.visits, rest.hung)
  }

  function CategoryKey(c: Category): Key { NaturalKey(c.name) }

  /** `process_categories` / `process_image_categories` over the listing of
      the base directory. */
  function ProcessCategories(s: Script, st: Store, listing: seq<Category>,
                             search: (string, string) -> Page, net: Url -> Fetch): (r: Trav)
    ensures Pairs(r.visits) <= Planned(SortBy(listing, CategoryKey))
    ensures !r.hung ==> Pairs(r.visits) == Planned(SortBy(listing, CategoryKey))
    ensures !r.hung ==> forall c, img :: c in listing && c.isDir && img in c.entries ==>
                          (c.name, img) in Pairs(r.visits)
  {
    var cats := SortBy(listing, CategoryKey);
    VisitCategoriesCovers(s, st, cats, search, net);
    PlannedHasEveryEntry(cats);
    SortKeepsCategories(listing);
    VisitCategories(s, st, cats, search, net)
  }

  // ---------------------------------------------------------------------
  // Properties of whole traversals

  /** Every download step of a traversal, in order. */
  function StepsOf(visits: seq<Visit>): seq<Step>
  {
    if visits == [] then []
    else
      (if visits[0].outcome.Downloaded? then visits[0].outcome.steps else [])
      + StepsOf(visits[1..])
  }

  lemma {:induction false} StepsOfAppend(a: seq<Visit>, b: seq<Visit>)
    ensures StepsOf(a + b) == StepsOf(a) + StepsOf(b)
    decreases |a|
  {
    if a != [] {
      assert (a + b)[0] == a[0] && (a + b)[1..] == a[1..] + b;
      StepsOfAppend(a[1..], b);
    } else {
      assert a + b == b;
    }
  }

  lemma {:induction false} SavedUrlsAppend(a: seq<Step>, b: seq<Step>)
    ensures SavedUrls(a + b) == SavedUrls(a) + SavedUrls(b)
    decreases |a|
  {
    if a != [] {
      assert (a + b)[0] == a[0] && (a + b)[1..] == a[1..] + b;
      SavedUrlsAppend(a[1..], b);
    } else {
      assert a + b == b;
    }
  }

  lemma {:induction false} SavedIsInSavedUrls(a: seq<Step>, i: nat)
    requires i < |a| && a[i].task.Saved? && a[i].job.url.Some?
    ensures a[i].job.url.value in SavedUrls(a)
    decreases i
  {
    if i > 0 {
      SavedIsInSavedUrls(a[1..], i - 1);
    }
  }

  lemma SavedOnceAppend(a: seq<Step>, b: seq<Step>, cache: set<Url>)
    requires SavedOnce(a, cache) && SavedOnce(b, cache + SavedUrls(a))
    ensures SavedOnce(a + b, cache)
  {
    var ab := a + b;
    forall i, j | 0 <= i < j < |ab| && ab[i].task.Saved? && ab[j].task.Saved?
      ensures ab[i].job.url != ab[j].job.url
    {
      if i < |a| && |a| <= j {
        assert ab[j] == b[j - |a|];
        SavedIsInSavedUrls(a, i);
      }
    }
    assert forall i :: |a| <= i < |ab| ==> ab[i] == b[i - |a|];
  }

  /** One image: the cache grows by exactly the URLs its steps saved, and
      image_crawler.py saves none of them twice nor any already cached. */
  lemma VisitImageSaves(s: Script, st: Store, category: string, img: string,
                        search: (string, string) -> Page, net: Url -> Fetch)
    ensures var r := VisitImage(s, st, category, img, search, net);
            r.store.cache == st.cache + SavedUrls(StepsOf(r.visits))
    ensures s == CrawlerScript ==>
              var r := VisitImage(s, st, category, img, search, net);
              SavedOnce(StepsOf(r.visits), st.cache)
  {
    var r := VisitImage(s, st, category, img, search, net);
    var v := r.visits[0];
    assert r.visits[1..] == [];
    assert StepsOf(r.visits) == if v.outcome.Downloaded? then v.outcome.steps else [];
    var folder := FolderOf(s, category, img);
    if s == CrawlerScript && search(category, img).Loaded? {
      var links := search(category, img).links;
      if SettleIndex(search(category, img).heights, 1).Some? && ExtractCrawler(links).Some? {
        var urls := ExtractCrawler(links).value;
        if MakeDirs(st, folder).Some? {
          var s1 := MakeDirs(st, folder).value;
          CrawlerSavesOnce(s1, folder, CrawlerJobs(urls), net);
        }
      }
    }
  }

  lemma {:induction false} VisitImagesSaves(s: Script, st: Store, category: string,
                                            imgs: seq<string>,
                                            search: (string, string) -> Page, net: Url -> Fetch)
    ensures var r := VisitImages(s, st, category, imgs, search, net);
            r.store.cache == st.cache + SavedUrls(StepsOf(r.visits))
    ensures s == CrawlerScript ==>
              var r := VisitImages(s, st, category, imgs, search, net);
              SavedOnce(StepsOf(r.visits), st.cache)
    decreases |imgs|
  {
    if imgs != [] {
      var first := VisitImage(s, st, category, imgs[0], search, net);
      VisitImageSaves(s, st, category, imgs[0], search, net);
      if !first.hung {
        var rest := VisitImages(s, first.store, category, imgs[1..], search, net);
        VisitImagesSaves(s, first.store, category, imgs[1..], search, net);
        SavesCompose(st.cache, first, rest, s == CrawlerScript);
      }
    }
  }

  /** Two consecutive parts of a traversal: the cache grows by the saved
      URLs of both, and saving each URL once carries over. */
  lemma SavesCompose(cache: set<Url>, first: Trav, rest: Trav, once: bool)
    requires first.store.cache == cache + SavedUrls(StepsOf(first.visits))
    requires rest.store.cache == first.store.cache + SavedUrls(StepsOf(rest.visits))
    requires once ==> SavedOnce(StepsOf(first.visits), cache)
    requires once ==> SavedOnce(StepsOf(rest.visits), first.store.cache)
    ensures rest.store.cache == cache + SavedUrls(StepsOf(first.visits + rest.visits))
    ensures once ==> SavedOnce(StepsOf(first.visits + rest.visits), cache)
  {
    StepsOfAppend(first.visits, rest.visits);
    SavedUrlsAppend(StepsOf(first.visits), StepsOf(rest.visits));
    if once {
      SavedOnceAppend(StepsOf(first.visits), StepsOf(rest.visits), cache);
    }
  }

  lemma {:induction false} VisitCategoriesSaves(s: Script, st: Store, cats: seq<Category>,
                                                search: (string, string) -> Page,
                                                net: Url -> Fetch)
    ensures var r := VisitCategories(s, st, cats, search, net);
            r.store.cache == st.cache + SavedUrls(StepsOf(r.visits))
    ensures s == CrawlerScript ==>
              var r := VisitCategories(s, st, cats, search, net);
              SavedOnce(StepsOf(r.visits), st.cache)
    decreases |cats|
  {
    if cats != [] {
      if !cats[0].isDir {
        VisitCategoriesSaves(s, st, cats[1..], search, net);
      } else {
        var imgs := SortBy(cats[0].entries, NaturalKey);
        var first := VisitImages(s, st, cats[0].name, imgs, search, net);
        VisitImagesSaves(s, st, cats[0].name, imgs, search, net);
        if !first.hung {
          var rest := VisitCategories(s, first.store, cats[1..], search, net);
          VisitCategoriesSaves(s, first.store, cats[1..], search, net);
          SavesCompose(st.cache, first, rest, s == CrawlerScript);
        }
      }
    }
  }

  /** The process-wide cache makes image_crawler.py fetch-and-save every URL
      at most once over the whole traversal, across images and categories;
      the cache ends up holding exactly the URLs saved. */
  lemma CrawlerSavesEachUrlOnce(st: Store, listing: seq<Category>,
                                search: (string, string) -> Page, net: Url -> Fetch)
    ensures var r := ProcessCategories(CrawlerScript, st, listing, search, net);
            && SavedOnce(StepsOf(r.visits), st.cache)
            && r.store.cache == st.cache + SavedUrls(StepsOf(r.visits))
  {
    VisitCategoriesSaves(CrawlerScript, st, SortBy(listing, CategoryKey), search, net);
  }

  /** A traversal keeps the file system real. */
  lemma VisitImageKeepsClosed(s: Script, st: Store, category: string, img: string,
                              search: (string, string) -> Page, net: Url -> Fetch)
    requires Closed(st)
    ensures Closed(VisitImage(s, st, category, img, search, net).store)
  {
    var r := VisitImage(s, st, category, img, search, net);
    if r.visits[0].outcome.Downloaded? {
      var folder := FolderOf(s, category, img);
      var links := search(category, img).links;
      if s == Test2Script {
        var urls := ExtractTest2(links).value;
        RunKeepsClosed(Test2, st, folder, Test2JobsFrom(urls, st.cache, 0), net);
      } else {
        var urls := ExtractCrawler(links).value;
        MakeDirsSpec(st, folder);
        RunKeepsClosed(ImageCrawler, MakeDirs(st, folder).value, folder, CrawlerJobs(urls), net);
      }
    }
  }

  lemma {:induction false} VisitImagesKeepsClosed(s: Script, st: Store, category: string,
                                                  imgs: seq<string>,
                                                  search: (string, string) -> Page,
                                                  net: Url -> Fetch)
    requires Closed(st)
    ensures Closed(VisitImages(s, st, category, imgs, search, net).store)
    decreases |imgs|
  {
    if imgs != [] {
      VisitImageKeepsClosed(s, st, category, imgs[0], search, net);
      var first := VisitImage(s, st, category, imgs[0], search, net);
      if !first.hung {
        VisitImagesKeepsClosed(s, first.store, category, imgs[1..], search, net);
      }
    }
  }

  lemma {:induction false} VisitCategoriesKeepsClosed(s: Script, st: Store, cats: seq<Category>,
                                                      search: (string, string) -> Page,
                                                      net: Url -> Fetch)
    requires Closed(st)
    ensures Closed(VisitCategories(s, st, cats, search, net).store)
    decreases |cats|
  {
    if cats != [] {
      if !cats[0].isDir {
        VisitCategoriesKeepsClosed(s, st, cats[1..], search, net);
      } else {
        var imgs := SortBy(cats[0].entries, NaturalKey);
        VisitImagesKeepsClosed(s, st, cats[0].name, imgs, search, net);
        var first := VisitImages(s, st, cats[0].name, imgs, search, net);
        if !first.hung {
          VisitCategoriesKeepsClosed(s, first.store, cats[1..], search, net);
        }
      }
    }
  }

  lemma ProcessKeepsClosed(s: Script, st: Store, listing: seq<Category>,
                           search: (string, string) -> Page, net: Url -> Fetch)
    requires Closed(st)
    ensures Closed(ProcessCategories(s, st, listing, search, net).store)
  {
    VisitCategoriesKeepsClosed(s, st, SortBy(listing, CategoryKey), search, net);
  }

  // ---------------------------------------------------------------------
  // Resuming test2.py

  /** When every image of the given list already has its output folder,
      test2.py's inner loop searches nothing and changes nothing. */
  lemma {:induction false} Test2FinishedImages(st: Store, category: string, imgs: seq<string>,
                                               search: (string, string) -> Page,
                                               net: Url -> Fetch)
    requires forall i :: 0 <= i < |imgs| ==> Exists(st, Test2Folder(imgs[i]))
    ensures var r := VisitImages(Test2Script, st, category, imgs, search, net);
            && r.store == st && !r.hung
            && forall i :: 0 <= i < |r.visits| ==> r.visits[i].outcome == FolderExists
    decreases |imgs|
  {
    if imgs != [] {
      Test2FinishedImages(st, category, imgs[1..], search, net);
    }
  }

  lemma {:induction false} Test2FinishedCategories(st: Store, cats: seq<Category>,
                                                   search: (string, string) -> Page,
                                                   net: Url -> Fetch)
    requires forall c, img :: c in cats && c.isDir && img in c.entries ==>
               Exists(st, Test2Folder(img))
    ensures var r := VisitCategories(Test2Script, st, cats, search, net);
            && r.store == st && !r.hung
            && forall i :: 0 <= i < |r.visits| ==> r.visits[i].outcome == FolderExists
    decreases |cats|
  {
    if cats != [] {
      assert forall c :: c in cats[1..] ==> c in cats;
      Test2FinishedCategories(st, cats[1..], search, net);
      if cats[0].isDir {
        var imgs := SortBy(cats[0].entries, NaturalKey);
        forall i | 0 <= i < |imgs| ensures Exists(st, Test2Folder(imgs[i])) {
          assert imgs[i] in multiset(imgs);
        }
        Test2FinishedImages(st, cats[0].name, imgs, search, net);
        var first := VisitImages(Test2Script, st, cats[0].name, imgs, search, net);
        var rest := VisitCategories(Test2Script, st, cats[1..], search, net);
        SkippedAppend(first.visits, rest.visits);
      }
    }
  }

  lemma SkippedAppend(a: seq<Visit>, b: seq<Visit>)
    requires forall i :: 0 <= i < |a| ==> a[i].outcome == FolderExists
    requires forall i :: 0 <= i < |b| ==> b[i].outcome == FolderExists
    ensures forall i :: 0 <= i < |a + b| ==> (a + b)[i].outcome == FolderExists
  {
  }

  /** test2.py can be stopped and started again: once every image's output
      folder exists, a rerun makes no search and touches nothing. */
  lemma Test2RerunIsNoOp(st: Store, listing: seq<Category>,
                         search: (string, string) -> Page, net: Url -> Fetch)
    requires forall c, img :: c in listing && c.isDir && img in c.entries ==>
               Exists(st, Test2Folder(img))
    ensures var r := ProcessCategories(Test2Script, st, listing, search, net);
            && r.store == st && !r.hung
            && forall i :: 0 <= i < |r.visits| ==> r.visits[i].outcome == FolderExists
  {
    var cats := SortBy(listing, CategoryKey);
    forall c | c in cats ensures c in listing {
      assert c in multiset(cats);
    }
    Test2FinishedCategories(st, cats, search, net);
  }

  /** image_crawler.py has no such shortcut: it never skips an image for
      its folder existing. */
  predicate NeverSkipped(visits: seq<Visit>)
  {
    forall i :: 0 <= i < |visits| ==> visits[i].outcome != FolderExists
  }

  lemma NeverSkippedAppend(a: seq<Visit>, b: seq<Visit>)
    requires NeverSkipped(a) && NeverSkipped(b)
    ensures NeverSkipped(a + b)
  {
    var ab := a + b;
    assert forall i :: 0 <= i < |a| ==> ab[i] == a[i];
    assert forall i :: |a| <= i < |ab| ==> ab[i] == b[i - |a|];
  }

  lemma {:induction false} CrawlerNeverSkipsImages(st: Store, category: string, imgs: seq<string>,
                                                   search: (string, string) -> Page,
                                                   net: Url -> Fetch)
    ensures NeverSkipped(VisitImages(CrawlerScript, st, category, imgs, search, net).visits)
    decreases |imgs|
  {
    if imgs != [] {
      var first := VisitImage(CrawlerScript, st, category, imgs[0], search, net);
      if !first.hung {
        CrawlerNeverSkipsImages(first.store, category, imgs[1..], search, net);
        var rest := VisitImages(CrawlerScript, first.store, category, imgs[1..], search, net);
        NeverSkippedAppend(first.visits, rest.visits);
      }
    }
  }

  lemma {:induction false} CrawlerNeverSkipsCategories(st: Store, cats: seq<Category>,
                                                       search: (string, string) -> Page,
                                                       net: Url -> Fetch)
    ensures NeverSkipped(VisitCategories(CrawlerScript, st, cats, search, net).visits)
    decreases |cats|
  {
    if cats != [] {
      if !cats[0].isDir {
        CrawlerNeverSkipsCategories(st, cats[1..], search, net);
      } else {
        var imgs := SortBy(cats[0].entries, NaturalKey);
        CrawlerNeverSkipsImages(st, cats[0].name, imgs, search, net);
        var first := VisitImages(CrawlerScript, st, cats[0].name, imgs, search, net);
        if !first.hung {
          CrawlerNeverSkipsCategories(first.store, cats[1..], search, net);
          var rest := VisitCategories(CrawlerScript, first.store, cats[1..], search, net);
          NeverSkippedAppend(first.visits, rest.visits);
        }
      }
    }
  }

  /** image_crawler.py has no resume shortcut: it never skips an image for
      its folder existing, so a rerun searches every image of every
      directory again, unless a scroll hangs. */
  lemma CrawlerNeverSkips(st: Store, listing: seq<Category>,
                          search: (string, string) -> Page, net: Url -> Fetch)
    ensures NeverSkipped(ProcessCategories(CrawlerScript, st, listing, search, net).visits)
    ensures var r := ProcessCategories(CrawlerScript, st, listing, search, net);
            !r.hung ==> forall c, img :: c in listing && c.isDir && img in c.entries ==>
                          exists i :: 0 <= i < |r.visits| && r.visits[i].category == c.name
                                   && r.visits[i].image == img && r.visits[i].outcome != FolderExists
  {
    var r := ProcessCategories(CrawlerScript, st, listing, search, net);
    if !r.hung {
      forall c, img | c in listing && c.isDir && img in c.entries
        ensures exists i :: 0 <= i < |r.visits| && r.visits[i].category == c.name
                         && r.visits[i].image == img && r.visits[i].outcome != FolderExists
      {
        InPairs(r.visits, c.name, img);
        CrawlerNeverSkipsCategories(st, SortBy(listing, CategoryKey), search, net);
      }
    }
    CrawlerNeverSkipsCategories(st, SortBy(listing, CategoryKey), search, net);
  }

  // ---------------------------------------------------------------------
  // Which images are visited

  /** The (category, image) pair of each visit. */
  function Pairs(visits: seq<Visit>): (ps: seq<(string, string)>)
    ensures |ps| == |visits|
  {
    seq(|visits|, i requires 0 <= i < |visits| => (visits[i].category, visits[i].image))
  }

  /** One category's images, each paired with the category's name. */
  function Tagged(category: string, imgs: seq<string>): (ps: seq<(string, string)>)
    ensures |ps| == |imgs|
  {
    seq(|imgs|, i requires 0 <= i < |imgs| => (category, imgs[i]))
  }

  /** What the two loops set out to visit: the directories of `cats` in the
      order given, and within each its entries in natural order. */
  function Planned(cats: seq<Category>): seq<(string, string)>
    decreases |cats|
  {
    if cats == [] then []
    else if !cats[0].isDir then Planned(cats[1..])
    else Tagged(cats[0].name, SortBy(cats[0].entries, NaturalKey)) + Planned(cats[1..])
  }

  lemma InPairs(visits: seq<Visit>, category: string, img: string)
    requires (category, img) in Pairs(visits)
    ensures exists i :: 0 <= i < |visits| && visits[i].category == category && visits[i].image == img
  {
    var i :| 0 <= i < |visits| && Pairs(visits)[i] == (category, img);
    assert visits[i].category == category && visits[i].image == img;
  }

  lemma PairsAppend(a: seq<Visit>, b: seq<Visit>)
    ensures Pairs(a + b) == Pairs(a) + Pairs(b)
  {
    assert forall i :: 0 <= i < |a + b| ==> Pairs(a + b)[i] == (Pairs(a) + Pairs(b))[i];
  }

  lemma PrefixAppend<T>(a: seq<T>, b: seq<T>, c: seq<T>)
    requires b <= c
    ensures a + b <= a + c
  {
    assert (a + c)[..|a + b|] == a + b;
  }

  lemma PrefixExtend<T>(a: seq<T>, b: seq<T>, c: seq<T>)
    requires a <= b
    ensures a <= b + c
  {
    assert (b + c)[..|a|] == b[..|a|];
  }

  /** The inner loop visits its images in the order given, all of them
      unless a scroll hangs. */
  lemma ImagesCovered(s: Script, st: Store, category: string, imgs: seq<string>,
                      search: (string, string) -> Page, net: Url -> Fetch)
    ensures Pairs(VisitImages(s, st, category, imgs, search, net).visits) <= Tagged(category, imgs)
    ensures !VisitImages(s, st, category, imgs, search, net).hung ==>
              Pairs(VisitImages(s, st, category, imgs, search, net).visits) == Tagged(category, imgs)
  {
    var ps := Pairs(VisitImages(s, st, category, imgs, search, net).visits);
    assert ps == Tagged(category, imgs)[..|ps|];
  }

  /** The outer loop visits a prefix of the planned pairs, and all of them
      unless a scroll hangs. */
  lemma {:induction false} VisitCategoriesCovers(s: Script, st: Store, cats: seq<Category>,
                                                 search: (string, string) -> Page,
                                                 net: Url -> Fetch)
    ensures Pairs(VisitCategories(s, st, cats, search, net).visits) <= Planned(cats)
    ensures !VisitCategories(s, st, cats, search, net).hung ==>
              Pairs(VisitCategories(s, st, cats, search, net).visits) == Planned(cats)
    decreases |cats|
  {
    if cats != [] {
      if !cats[0].isDir {
        VisitCategoriesCovers(s, st, cats[1..], search, net);
      } else {
        var imgs := SortBy(cats[0].entries, NaturalKey);
        var first := VisitImages(s, st, cats[0].name, imgs, search, net);
        var tagged := Tagged(cats[0].name, imgs);
        ImagesCovered(s, st, cats[0].name, imgs, search, net);
        if first.hung {
          PrefixExtend(Pairs(first.visits), tagged, Planned(cats[1..]));
        } else {
          var rest := VisitCategories(s, first.store, cats[1..], search, net);
          VisitCategoriesCovers(s, first.store, cats[1..], search, net);
          PairsAppend(first.visits, rest.visits);
          PrefixAppend(tagged, Pairs(rest.visits), Planned(cats[1..]));
        }
      }
    }
  }

  /** Every entry of every directory of `cats` is planned. */
  lemma {:induction false} PlannedHasEveryEntry(cats: seq<Category>)
    ensures forall c, img :: c in cats && c.isDir && img in c.entries ==> (c.name, img) in Planned(cats)
    decreases |cats|
  {
    if cats != [] {
      PlannedHasEveryEntry(cats[1..]);
      forall c, img | c in cats && c.isDir && img in c.entries
        ensures (c.name, img) in Planned(cats)
      {
        if c == cats[0] {
          var imgs := SortBy(c.entries, NaturalKey);
          assert img in multiset(imgs);
          var k :| 0 <= k < |imgs| && imgs[k] == img;
          assert Tagged(c.name, imgs)[k] == (c.name, img);
        } else {
          assert c in cats[1..];
        }
      }
    }
  }

  /** Sorting the listing keeps every category. */
  lemma SortKeepsCategories(listing: seq<Category>)
    ensures forall c :: c in listing ==> c in SortBy(listing, CategoryKey)
  {
    var cats := SortBy(listing, CategoryKey);
    forall c | c in listing ensures c in cats {
      assert c in multiset(listing);
    }
  }

  // ---------------------------------------------------------------------
  // What is visited, and in which order

  /** The visit names a directory of `cats` and one of its entries. */
  ghost predicate Listed(v: Visit, cats: seq<Category>)
  {
    exists c :: c in cats && c.isDir && c.name == v.category && v.image in c.entries
  }

  ghost predicate FromDirs(visits: seq<Visit>, cats: seq<Category>)
  {
    forall i :: 0 <= i < |visits| ==> Listed(visits[i], cats)
  }

  lemma FromDirsAppend(a: seq<Visit>, b: seq<Visit>, cats: seq<Category>)
    requires cats != [] && FromDirs(a, cats) && FromDirs(b, cats[1..])
    ensures FromDirs(a + b, cats)
  {
    var ab := a + b;
    forall i | 0 <= i < |ab| ensures Listed(ab[i], cats) {
      if i < |a| {
        assert ab[i] == a[i];
      } else {
        assert ab[i] == b[i - |a|];
        var c :| c in cats[1..] && c.isDir && c.name == ab[i].category && ab[i].image in c.entries;
        assert c in cats;
      }
    }
  }

  /** The visits of one directory's images. */
  lemma ImagesFromDir(s: Script, st: Store, cats: seq<Category>,
                      search: (string, string) -> Page, net: Url -> Fetch)
    requires cats != [] && cats[0].isDir
    ensures FromDirs(VisitImages(s, st, cats[0].name, SortBy(cats[0].entries, NaturalKey),
                                 search, net).visits, cats)
  {
    var imgs := SortBy(cats[0].entries, NaturalKey);
    var first := VisitImages(s, st, cats[0].name, imgs, search, net);
    forall i | 0 <= i < |first.visits| ensures Listed(first.visits[i], cats) {
      assert imgs[i] in multiset(imgs);
      assert cats[0] in cats;
    }
  }

  lemma {:induction false} VisitCategoriesFromDirs(s: Script, st: Store, cats: seq<Category>,
                                                   search: (string, string) -> Page,
                                                   net: Url -> Fetch)
    ensures FromDirs(VisitCategories(s, st, cats, search, net).visits, cats)
    decreases |cats|
  {
    if cats != [] {
      if !cats[0].isDir {
        VisitCategoriesFromDirs(s, st, cats[1..], search, net);
        FromDirsAppend([], VisitCategories(s, st, cats[1..], search, net).visits, cats);
      } else {
        var imgs := SortBy(cats[0].entries, NaturalKey);
        var first := VisitImages(s, st, cats[0].name, imgs, search, net);
        ImagesFromDir(s, st, cats, search, net);
        if !first.hung {
          var rest := VisitCategories(s, first.store, cats[1..], search, net);
          VisitCategoriesFromDirs(s, first.store, cats[1..], search, net);
          FromDirsAppend(first.visits, rest.visits, cats);
        }
      }
    }
  }

  /** Only directories of the base directory are searched, and only for
      names they list; unless a scroll hangs, every name they list is. */
  lemma VisitsComeFromDirectories(s: Script, st: Store, listing: seq<Category>,
                                  search: (string, string) -> Page, net: Url -> Fetch)
    ensures FromDirs(ProcessCategories(s, st, listing, search, net).visits, listing)
    ensures var r := ProcessCategories(s, st, listing, search, net);
            !r.hung ==> forall c, img :: c in listing && c.isDir && img in c.entries ==>
                          exists i :: 0 <= i < |r.visits| && r.visits[i].category == c.name
                                   && r.visits[i].image == img
  {
    var cats := SortBy(listing, CategoryKey);
    var r := ProcessCategories(s, st, listing, search, net);
    VisitCategoriesFromDirs(s, st, cats, search, net);
    forall i | 0 <= i < |r.visits| ensures Listed(r.visits[i], listing) {
      var c :| c in cats && c.isDir && c.name == r.visits[i].category && r.visits[i].image in c.entries;
      assert c in multiset(cats);
    }
    if !r.hung {
      forall c, img | c in listing && c.isDir && img in c.entries
        ensures exists i :: 0 <= i < |r.visits| && r.visits[i].category == c.name
                         && r.visits[i].image == img
      {
        InPairs(r.visits, c.name, img);
      }
    }
  }

  /** Visits run in natural order of category, and within one category in
      natural order of image name. */
  ghost predicate NaturalVisitOrder(visits: seq<Visit>)
  {
    forall i, j :: 0 <= i < j < |visits| ==>
      && InOrder(visits[i].category, visits[j].category, NaturalKey)
      && (visits[i].category == visits[j].category ==>
            InOrder(visits[i].image, visits[j].image, NaturalKey))
  }

  /** A directory listing names each entry once. */
  ghost predicate UniqueNames(cats: seq<Category>)
  {
    && (forall c :: multiset(cats)[c] <= 1)
    && (forall c, d :: c in cats && d in cats && c.name == d.name ==> c == d)
  }

  lemma UniqueNamesTail(cats: seq<Category>)
    requires cats != [] && UniqueNames(cats)
    ensures UniqueNames(cats[1..])
    ensures forall c :: c in cats[1..] ==> c.name != cats[0].name
  {
    assert cats == [cats[0]] + cats[1..];
    forall c ensures multiset(cats[1..])[c] <= 1 {
      assert multiset(cats)[c] == multiset([cats[0]])[c] + multiset(cats[1..])[c];
    }
    forall c | c in cats[1..] ensures c != cats[0] {
      assert multiset(cats)[c] == multiset([cats[0]])[c] + multiset(cats[1..])[c];
    }
  }

  lemma ImagesInOrder(s: Script, st: Store, category: string, imgs: seq<string>,
                      search: (string, string) -> Page, net: Url -> Fetch)
    requires SortedBy(imgs, NaturalKey)
    ensures NaturalVisitOrder(VisitImages(s, st, category, imgs, search, net).visits)
  {
    LexIrreflexive(NaturalKey(category), SegLess);
  }

  lemma OrderAppend(a: seq<Visit>, b: seq<Visit>, category: string)
    requires NaturalVisitOrder(a) && NaturalVisitOrder(b)
    requires forall i :: 0 <= i < |a| ==> a[i].category == category
    requires forall j :: 0 <= j < |b| ==>
               InOrder(category, b[j].category, NaturalKey) && b[j].category != category
    ensures NaturalVisitOrder(a + b)
  {
    var ab := a + b;
    assert forall i :: 0 <= i < |a| ==> ab[i] == a[i];
    assert forall i :: |a| <= i < |ab| ==> ab[i] == b[i - |a|];
  }

  lemma LaterCategory(cats: seq<Category>, c: Category)
    requires cats != [] && SortedBy(cats, CategoryKey) && c in cats[1..]
    ensures InOrder(cats[0].name, c.name, NaturalKey)
  {
    var k :| 0 <= k < |cats[1..]| && cats[1..][k] == c;
    assert cats[k + 1] == c;
    assert InOrder(cats[0], cats[k + 1], CategoryKey);
    assert CategoryKey(cats[0]) == NaturalKey(cats[0].name) && CategoryKey(c) == NaturalKey(c.name);
  }

  lemma LaterCategories(rest: seq<Visit>, cats: seq<Category>)
    requires cats != [] && SortedBy(cats, CategoryKey) && FromDirs(rest, cats[1..])
    requires forall c :: c in cats[1..] ==> c.name != cats[0].name
    ensures forall j :: 0 <= j < |rest| ==>
              InOrder(cats[0].name, rest[j].category, NaturalKey) && rest[j].category != cats[0].name
  {
    forall j | 0 <= j < |rest|
      ensures InOrder(cats[0].name, rest[j].category, NaturalKey) && rest[j].category != cats[0].name
    {
      var c :| c in cats[1..] && c.isDir && c.name == rest[j].category && rest[j].image in c.entries;
      LaterCategory(cats, c);
    }
  }

  lemma {:induction false} VisitCategoriesInOrder(s: Script, st: Store, cats: seq<Category>,
                                                  search: (string, string) -> Page,
                                                  net: Url -> Fetch)
    requires SortedBy(cats, CategoryKey) && UniqueNames(cats)
    ensures NaturalVisitOrder(VisitCategories(s, st, cats, search, net).visits)
    decreases |cats|
  {
    if cats != [] {
      UniqueNamesTail(cats);
      assert SortedBy(cats[1..], CategoryKey);
      if !cats[0].isDir {
        VisitCategoriesInOrder(s, st, cats[1..], search, net);
      } else {
        var imgs := SortBy(cats[0].entries, NaturalKey);
        var first := VisitImages(s, st, cats[0].name, imgs, search, net);
        ImagesInOrder(s, st, cats[0].name, imgs, search, net);
        if !first.hung {
          var rest := VisitCategories(s, first.store, cats[1..], search, net);
          VisitCategoriesInOrder(s, first.store, cats[1..], search, net);
          VisitCategoriesFromDirs(s, first.store, cats[1..], search, net);
          LaterCategories(rest.visits, cats);
          OrderAppend(first.visits, rest.visits, cats[0].name);
        }
      }
    }
  }

  /** Both scripts walk the base directory in natural order: category by
      category, and image by image within a category. */
  lemma VisitsInNaturalOrder(s: Script, st: Store, listing: seq<Category>,
                             search: (string, string) -> Page, net: Url -> Fetch)
    requires UniqueNames(listing)
    ensures NaturalVisitOrder(ProcessCategories(s, st, listing, search, net).visits)
  {
    var cats := SortBy(listing, CategoryKey);
    forall c, d | c in cats && d in cats && c.name == d.name ensures c == d {
      assert c in multiset(cats) && d in multiset(cats);
    }
    VisitCategoriesInOrder(s, st, cats, search, net);
  }
}
