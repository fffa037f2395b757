/** Downloading the candidate URLs of one source image into its output
    folder. The file system is a set of directories and a set of files, the
    process-wide URL cache a set of URLs, and the network a fetch oracle that
    says how one request for a URL ends. Three scripts each carry their own
    `download_image`; they differ only in which checks precede the fetch, so
    one function with a `Variant` models all three. The thread pools are
    modelled by one schedule: every job is submitted before the first one
    runs, and the jobs then run one after another in list order. */
module Downloads {
  import opened Base

  type Url = string

  /** A path relative to the working directory, as its components; `[]` is
      the working directory itself. */
  type Path = seq<string>

  datatype Store = Store(dirs: set<Path>, files: set<Path>, cache: set<Url>)

  predicate IsDir(st: Store, p: Path) { p == [] || p in st.dirs }

  /** `os.path.exists`. */
  predicate Exists(st: Store, p: Path) { IsDir(st, p) || p in st.files }

  function Parent(p: Path): Path
    requires p != []
  {
    p[..|p| - 1]
  }

  /** What a real file system guarantees: every entry sits in a directory,
      and no path is both a file and a directory. */
  ghost predicate Closed(st: Store)
  {
    && (forall p :: p in st.dirs ==> p != [] && IsDir(st, Parent(p)))
    && (forall p :: p in st.files ==> p != [] && IsDir(st, Parent(p)))
    && st.dirs !! st.files
  }

  /** The non-empty prefixes of `p`: the directories `os.makedirs(p)` needs. */
  function Prefixes(p: Path): (r: set<Path>)
    ensures forall q :: q in r <==> q != [] && q <= p
  {
    if p == [] then {}
    else
      var r := Prefixes(Parent(p)) + {p};
      forall q ensures q in r <==> q != [] && q <= p {
        if q <= p && q != p {
          assert |q| < |p| && q == p[..|q|];
          assert q == Parent(p)[..|q|];
        }
      }
      r
  }

  lemma {:induction false} AncestorsAreDirs(st: Store, p: Path)
    requires Closed(st) && IsDir(st, p)
    ensures Prefixes(p) <= st.dirs
    decreases |p|
  {
    if p != [] {
      AncestorsAreDirs(st, Parent(p));
    }
  }

  /** `os.makedirs(p, exist_ok=True)`, and `os.makedirs(p)` where `p` does not
      exist yet: creates the missing directories of `p` from the top down,
      and fails when one of them exists as a file (`None`). A failure leaves
      the store as it was. */
  function MakeDirs(st: Store, p: Path): (r: Option<Store>)
    ensures r.Some? ==> r.value.files == st.files && r.value.cache == st.cache
    ensures r.Some? ==> st.dirs <= r.value.dirs && IsDir(r.value, p)
    decreases |p|
  {
    if p == [] then None
    else if p in st.dirs then Some(st)
    else if p in st.files then None
    else
      var head := Parent(p);
      var made := if Exists(st, head) then Some(st) else MakeDirs(st, head);
      match made
      case None => None
      case Some(s1) => if IsDir(s1, head) then Some(s1.(dirs := s1.dirs + {p})) else None
  }

  /** On a real file system `os.makedirs` succeeds exactly when no prefix of
      the path is a file, adds exactly the prefixes, and keeps the file
      system real. */
  lemma {:induction false} MakeDirsSpec(st: Store, p: Path)
    requires Closed(st)
    ensures MakeDirs(st, p).Some? <==> p != [] && Prefixes(p) !! st.files
    ensures MakeDirs(st, p).Some? ==>
              MakeDirs(st, p).value.dirs == st.dirs + Prefixes(p) && Closed(MakeDirs(st, p).value)
    decreases |p|
  {
    if p != [] {
      var head := Parent(p);
      if p in st.dirs {
        AncestorsAreDirs(st, p);
      } else if p !in st.files {
        if Exists(st, head) {
          if IsDir(st, head) {
            AncestorsAreDirs(st, head);
          } else {
            assert head in Prefixes(p);
          }
        } else {
          MakeDirsSpec(st, head);
        }
      }
    }
  }

  /** `exist_ok=True` makes the call idempotent: repeating it changes
      nothing. */
  lemma MakeDirsIdempotent(st: Store, p: Path)
    requires MakeDirs(st, p).Some?
    ensures MakeDirs(MakeDirs(st, p).value, p) == MakeDirs(st, p)
  {
  }

  // ---------------------------------------------------------------------
  // download_image

  /** The three scripts' `download_image`: test2.py creates the folder and
      checks the target; image_crawler.py checks the target and the cache;
      test.py checks only the target. */
  datatype Variant = Test2 | ImageCrawler | TestFragment

  /** How a request for one URL ends: the body arrives and the write of it
      completes; the request or its status check fails; or the body arrives
      and writing it fails after the file was opened. */
  datatype Fetch = Fetched | RequestFails | WriteFails

  datatype Task = Skipped | Saved | Failed(fileLeft: bool)

  datatype Done = Done(store: Store, task: Task)

  /** `f"{n}.jpg"`. */
  function FileName(n: nat): (name: string)
    ensures name != [] && name != "." && name != ".."
  {
    NatToString(n) + ".jpg"
  }

  function Target(folder: Path, n: nat): Path
  {
    folder + [FileName(n)]
  }

  /** The `try` block: request, status check, open for writing, write, then
      add the URL to the cache. A missing URL (`None`) fails at the request;
      opening fails when the folder is not a directory. Every failure is
      logged and swallowed. */
  function Attempt(st: Store, url: Option<Url>, target: Path, net: Url -> Fetch): (r: Done)
    requires target != []
    ensures r.task != Skipped
    ensures r.store.dirs == st.dirs
    ensures r.task.Saved? <==> url.Some? && net(url.value) == Fetched && IsDir(st, Parent(target))
    ensures r.store.cache == if r.task.Saved? then st.cache + {url.value} else st.cache
    ensures r.store.files == if r.task == Failed(false) then st.files else st.files + {target}
    ensures r.task == Failed(true) ==> url.Some? && net(url.value) == WriteFails
    ensures url.Some? && net(url.value) == WriteFails && IsDir(st, Parent(target)) ==>
              r.task == Failed(true)
  {
    if url.None? || net(url.value) == RequestFails then Done(st, Failed(false))
    else if !IsDir(st, Parent(target)) then Done(st, Failed(false))
    else if net(url.value) == WriteFails then Done(st.(files := st.files + {target}), Failed(true))
    else
      assert net(url.value) == Fetched;
      Done(st.(files := st.files + {target}, cache := st.cache + {url.value}), Saved)
  }

  /** The store test2.py writes into: the given one when the folder exists,
      otherwise the one `os.makedirs(folder)` leaves; `None` when that call
      fails. */
  function Test2Ready(st: Store, folder: Path): Option<Store>
  {
    if Exists(st, folder) then Some(st) else MakeDirs(st, folder)
  }

  /** `download_image(url, folder, n)` of the given script. It skips exactly
      when its checks say so, and it saves exactly when it gets past them
      into a directory and the fetch succeeds. */
  function DownloadImage(v: Variant, st: Store, url: Option<Url>, folder: Path, n: nat,
                         net: Url -> Fetch): (r: Done)
    ensures r.task == Skipped <==>
              match v
              case Test2 =>
                Test2Ready(st, folder).Some? && Exists(Test2Ready(st, folder).value, Target(folder, n))
              case ImageCrawler =>
                Exists(st, Target(folder, n)) || (url.Some? && url.value in st.cache)
              case TestFragment => Exists(st, Target(folder, n))
    ensures r.task.Saved? <==>
              && url.Some? && net(url.value) == Fetched
              && match v
                 case Test2 =>
                   && Test2Ready(st, folder).Some?
                   && IsDir(Test2Ready(st, folder).value, folder)
                   && !Exists(Test2Ready(st, folder).value, Target(folder, n))
                 case ImageCrawler =>
                   IsDir(st, folder) && !Exists(st, Target(folder, n)) && url.value !in st.cache
                 case TestFragment => IsDir(st, folder) && !Exists(st, Target(folder, n))
    ensures r.store.cache == if r.task.Saved? then st.cache + {url.value} else st.cache
    ensures r.store.files ==
              if r.task.Saved? || r.task == Failed(true)
              then st.files + {Target(folder, n)} else st.files
    ensures r.store.dirs ==
              if v == Test2 && Test2Ready(st, folder).Some?
              then Test2Ready(st, folder).value.dirs else st.dirs
    ensures v == ImageCrawler && url.Some? && url.value in st.cache ==> r == Done(st, Skipped)
    ensures r.task == Failed(true) ==> url.Some? && net(url.value) == WriteFails
  {
    var target := Target(folder, n);
    assert Parent(target) == folder;
    match v
    case Test2 =>
      (match Test2Ready(st, folder)
       case None => Done(st, Failed(false))
       case Some(s1) => if Exists(s1, target) then Done(s1, Skipped) else Attempt(s1, url, target, net))
    case ImageCrawler =>
      if Exists(st, target) || (url.Some? && url.value in st.cache) then Done(st, Skipped)
      else Attempt(st, url, target, net)
    case TestFragment =>
      if Exists(st, target) then Done(st, Skipped) else Attempt(st, url, target, net)
  }

  /** When `{n}.jpg` already exists, every variant returns at once: no
      request, no write, no change to the cache or the file system. */
  lemma ExistingTargetIsNoOp(v: Variant, st: Store, url: Option<Url>, folder: Path, n: nat,
                             net: Url -> Fetch)
    requires Closed(st) && Exists(st, Target(folder, n))
    ensures DownloadImage(v, st, url, folder, n, net) == Done(st, Skipped)
  {
    var target := Target(folder, n);
    assert Parent(target) == folder;
    if v == Test2 {
      assert IsDir(st, folder);
    }
  }

  /** test.py never consults the cache: what it does depends on the file
      system and the network alone, and it fetches URLs the cache holds. */
  lemma TestFragmentIgnoresCache(st: Store, cache: set<Url>, url: Option<Url>, folder: Path,
                                 n: nat, net: Url -> Fetch)
    ensures DownloadImage(TestFragment, st.(cache := cache), url, folder, n, net).task
         == DownloadImage(TestFragment, st, url, folder, n, net).task
  {
  }

  /** A download keeps the file system real. */
  lemma DownloadKeepsClosed(v: Variant, st: Store, url: Option<Url>, folder: Path, n: nat,
                            net: Url -> Fetch)
    requires Closed(st)
    ensures Closed(DownloadImage(v, st, url, folder, n, net).store)
  {
    var target := Target(folder, n);
    assert Parent(target) == folder;
    if v == Test2 && !Exists(st, folder) {
      MakeDirsSpec(st, folder);
    }
  }

  // ---------------------------------------------------------------------
  // download_images_threaded / download_images_concurrently

  /** One submitted call: the ordinal names the file `{ordinal}.jpg`. */
  datatype Job = Job(ordinal: nat, url: Option<Url>)

  datatype Step = Step(job: Job, task: Task)

  datatype Run = Run(store: Store, steps: seq<Step>)

  /** The URLs a run added to the cache. */
  function SavedUrls(steps: seq<Step>): set<Url>
  {
    if steps == [] then {}
    else
      (if steps[0].task.Saved? && steps[0].job.url.Some? then {steps[0].job.url.value} else {})
      + SavedUrls(steps[1..])
  }

  /** The files a run left behind: saved ones and truncated ones. */
  function WrittenFiles(folder: Path, steps: seq<Step>): set<Path>
  {
    if steps == [] then {}
    else
      (if steps[0].task.Saved? || steps[0].task == Failed(true)
       then {Target(folder, steps[0].job.ordinal)} else {})
      + WrittenFiles(folder, steps[1..])
  }

  /** The submitted jobs run one after another, in submission order. */
  function RunJobs(v: Variant, st: Store, folder: Path, jobs: seq<Job>, net: Url -> Fetch): (r: Run)
    ensures |r.steps| == |jobs|
    ensures forall i :: 0 <= i < |jobs| ==> r.steps[i].job == jobs[i]
    ensures r.store.cache == st.cache + SavedUrls(r.steps)
    ensures r.store.files == st.files + WrittenFiles(folder, r.steps)
    ensures v != Test2 ==> r.store.dirs == st.dirs
    ensures st.dirs <= r.store.dirs
    ensures forall i :: 0 <= i < |jobs| && r.steps[i].task.Saved? ==>
              jobs[i].url.Some? && net(jobs[i].url.value) == Fetched
    ensures forall i :: 0 <= i < |jobs| && r.steps[i].task == Failed(true) ==>
              jobs[i].url.Some? && net(jobs[i].url.value) == WriteFails
    decreases |jobs|
  {
    if jobs == [] then Run(st, [])
    else
      var d := DownloadImage(v, st, jobs[0].url, folder, jobs[0].ordinal, net);
      var rest := RunJobs(v, d.store, folder, jobs[1..], net);
      var steps := [Step(jobs[0], d.task)] + rest.steps;
      assert steps[1..] == rest.steps;
      Run(rest.store, steps)
  }

  /** test2.py's submission list: the 1-based position of every URL that is
      not in the cache when the list is built, from position `i + 1` on. */
  function Test2JobsFrom(urls: seq<Url>, cache: set<Url>, i: nat): (jobs: seq<Job>)
    requires i <= |urls|
    ensures forall j :: 0 <= j < |jobs| ==>
              i < jobs[j].ordinal <= |urls| && jobs[j].url == Some(urls[jobs[j].ordinal - 1])
              && urls[jobs[j].ordinal - 1] !in cache
    decreases |urls| - i
  {
    if i == |urls| then []
    else
      var rest := Test2JobsFrom(urls, cache, i + 1);
      if urls[i] in cache then rest
      else
        var jobs := [Job(i + 1, Some(urls[i]))] + rest;
        assert forall j :: 0 < j < |jobs| ==> jobs[j] == rest[j - 1];
        jobs
  }

  predicate Increasing(jobs: seq<Job>)
  {
    forall j, k :: 0 <= j < k < |jobs| ==> jobs[j].ordinal < jobs[k].ordinal
  }

  /** Skipping a cached URL leaves a gap: ordinals increase strictly. */
  lemma {:induction false} Test2JobsIncreasing(urls: seq<Url>, cache: set<Url>, i: nat)
    requires i <= |urls|
    ensures Increasing(Test2JobsFrom(urls, cache, i))
    decreases |urls| - i
  {
    if i < |urls| {
      Test2JobsIncreasing(urls, cache, i + 1);
      var rest := Test2JobsFrom(urls, cache, i + 1);
      var jobs := Test2JobsFrom(urls, cache, i);
      if urls[i] in cache {
        assert jobs == rest;
      } else {
        assert jobs == [Job(i + 1, Some(urls[i]))] + rest;
        forall j, k | 0 <= j < k < |jobs| ensures jobs[j].ordinal < jobs[k].ordinal {
          assert jobs[k] == rest[k - 1];
          if j > 0 { assert jobs[j] == rest[j - 1]; }
        }
      }
    }
  }

  /** Every URL not in the cache is submitted. */
  lemma {:induction false} Test2JobsComplete(urls: seq<Url>, cache: set<Url>, i: nat, p: nat)
    requires i <= p < |urls| && urls[p] !in cache
    ensures exists j :: 0 <= j < |Test2JobsFrom(urls, cache, i)|
                     && Test2JobsFrom(urls, cache, i)[j] == Job(p + 1, Some(urls[p]))
    decreases |urls| - i
  {
    var jobs := Test2JobsFrom(urls, cache, i);
    if p == i {
      assert jobs[0] == Job(p + 1, Some(urls[p]));
    } else {
      Test2JobsComplete(urls, cache, i + 1, p);
      var rest := Test2JobsFrom(urls, cache, i + 1);
      var j :| 0 <= j < |rest| && rest[j] == Job(p + 1, Some(urls[p]));
      if urls[i] !in cache {
        assert jobs[j + 1] == rest[j];
      }
    }
  }

  /** What test2.py's `download_image` leaves behind for a job: its file
      exists, its request cannot succeed, or its folder cannot be made into
      a directory. */
  predicate Test2Settled(st: Store, folder: Path, job: Job, net: Url -> Fetch)
  {
    || Exists(st, Target(folder, job.ordinal))
    || job.url.None?
    || net(job.url.value) == RequestFails
    || Test2Ready(st, folder).None?
    || !IsDir(Test2Ready(st, folder).value, folder)
  }

  /** One test2.py download settles its own job. */
  lemma Test2DownloadSettles(st: Store, url: Option<Url>, folder: Path, n: nat, net: Url -> Fetch)
    ensures Test2Settled(DownloadImage(Test2, st, url, folder, n, net).store, folder, Job(n, url), net)
  {
    var target := Target(folder, n);
    assert Parent(target) == folder;
    var d := DownloadImage(Test2, st, url, folder, n, net);
    match Test2Ready(st, folder)
    case None =>
      assert d.store == st;
    case Some(s1) =>
      if !Exists(s1, target) && !IsDir(s1, folder) {
        assert Exists(st, folder) && s1 == st;
        assert d.store == st;
      }
  }

  /** A settled job stays settled across a later test2.py download into the
      same folder: files and directories only grow, and a folder that cannot
      be used stops every download from changing the store. */
  lemma Test2SettledStays(st: Store, folder: Path, job: Job, url: Option<Url>, n: nat,
                          net: Url -> Fetch)
    requires Test2Settled(st, folder, job, net)
    ensures Test2Settled(DownloadImage(Test2, st, url, folder, n, net).store, folder, job, net)
  {
    var target := Target(folder, n);
    assert Parent(target) == folder;
    var d := DownloadImage(Test2, st, url, folder, n, net);
    match Test2Ready(st, folder)
    case None =>
      assert d.store == st;
    case Some(s1) =>
      if !IsDir(s1, folder) {
        assert Exists(st, folder) && s1 == st;
        assert d.store == st;
      } else {
        assert st.dirs <= s1.dirs;
      }
  }

  lemma {:induction false} Test2SettledStaysRun(st: Store, folder: Path, job: Job, jobs: seq<Job>,
                                                net: Url -> Fetch)
    requires Test2Settled(st, folder, job, net)
    ensures Test2Settled(RunJobs(Test2, st, folder, jobs, net).store, folder, job, net)
    decreases |jobs|
  {
    if jobs != [] {
      var d := DownloadImage(Test2, st, jobs[0].url, folder, jobs[0].ordinal, net);
      Test2SettledStays(st, folder, job, jobs[0].url, jobs[0].ordinal, net);
      Test2SettledStaysRun(d.store, folder, job, jobs[1..], net);
    }
  }

  /** After a test2.py run every job has had its effect: its file exists,
      its request cannot succeed, or its folder cannot be used. */
  lemma {:induction false} Test2RunSettles(st: Store, folder: Path, jobs: seq<Job>,
                                           net: Url -> Fetch)
    ensures var r := RunJobs(Test2, st, folder, jobs, net);
      forall i :: 0 <= i < |jobs| ==> Test2Settled(r.store, folder, jobs[i], net)
    decreases |jobs|
  {
    if jobs != [] {
      var d := DownloadImage(Test2, st, jobs[0].url, folder, jobs[0].ordinal, net);
      var rest := RunJobs(Test2, d.store, folder, jobs[1..], net);
      Test2DownloadSettles(st, jobs[0].url, folder, jobs[0].ordinal, net);
      assert Job(jobs[0].ordinal, jobs[0].url) == jobs[0];
      Test2SettledStaysRun(d.store, folder, jobs[0], jobs[1..], net);
      Test2RunSettles(d.store, folder, jobs[1..], net);
      forall i | 0 < i < |jobs| ensures Test2Settled(rest.store, folder, jobs[i], net) {
        assert jobs[i] == jobs[1..][i - 1];
      }
    }
  }

  /** Every URL not in the cache is submitted, and every submission is one. */
  lemma Test2JobsCover(urls: seq<Url>, cache: set<Url>)
    ensures forall p :: 0 <= p < |urls| && urls[p] !in cache ==>
              Job(p + 1, Some(urls[p])) in Test2JobsFrom(urls, cache, 0)
    ensures forall j :: j in Test2JobsFrom(urls, cache, 0) ==>
              0 < j.ordinal <= |urls| && j.url == Some(urls[j.ordinal - 1]) && urls[j.ordinal - 1] !in cache
  {
    forall p | 0 <= p < |urls| && urls[p] !in cache
      ensures Job(p + 1, Some(urls[p])) in Test2JobsFrom(urls, cache, 0)
    {
      Test2JobsComplete(urls, cache, 0, p);
    }
  }

  /** The jobs behind a run's steps. */
  function Jobs(steps: seq<Step>): (jobs: seq<Job>)
    ensures |jobs| == |steps|
  {
    seq(|steps|, i requires 0 <= i < |steps| => steps[i].job)
  }

  /** `download_images_threaded(urls, folder)` of test2.py: URLs cached at
      call time are not submitted, and the others keep their position in
      the full list as ordinal. Each URL not cached at call time is
      attempted once, as `{p+1}.jpg` for its position p, in list order. */
  function DownloadAllTest2(st: Store, urls: seq<Url>, folder: Path, net: Url -> Fetch): (r: Run)
    ensures Jobs(r.steps) == Test2JobsFrom(urls, st.cache, 0)
    ensures forall p :: 0 <= p < |urls| && urls[p] !in st.cache ==>
              Job(p + 1, Some(urls[p])) in Jobs(r.steps)
    ensures forall j :: j in Jobs(r.steps) ==>
              0 < j.ordinal <= |urls| && j.url == Some(urls[j.ordinal - 1]) && urls[j.ordinal - 1] !in st.cache
    ensures Increasing(Jobs(r.steps))
    ensures forall j :: j in Jobs(r.steps) ==> Test2Settled(r.store, folder, j, net)
    ensures forall i :: 0 <= i < |r.steps| && r.steps[i].task.Saved? ==>
              r.steps[i].job.url.Some? && net(r.steps[i].job.url.value) == Fetched
    ensures r.store.cache == st.cache + SavedUrls(r.steps)
    ensures r.store.files == st.files + WrittenFiles(folder, r.steps)
  {
    var jobs := Test2JobsFrom(urls, st.cache, 0);
    Test2JobsIncreasing(urls, st.cache, 0);
    Test2JobsCover(urls, st.cache);
    Test2RunSettles(st, folder, jobs, net);
    var r := RunJobs(Test2, st, folder, jobs, net);
    assert Jobs(r.steps) == jobs;
    r
  }

  /** image_crawler.py submits every URL, the one at index i as `{i+1}.jpg`. */
  function CrawlerJobs(urls: seq<Option<Url>>): (jobs: seq<Job>)
    ensures |jobs| == |urls|
    ensures forall i :: 0 <= i < |urls| ==> jobs[i] == Job(i + 1, urls[i])
  {
    seq(|urls|, i requires 0 <= i < |urls| => Job(i + 1, urls[i]))
  }

  /** `download_images_concurrently(urls, folder)` of image_crawler.py: the
      folder is created first (`exist_ok=True`); when that fails the error
      escapes to the caller and nothing is downloaded (`None`). */
  function DownloadAllCrawler(st: Store, urls: seq<Option<Url>>, folder: Path,
                              net: Url -> Fetch): (r: Option<Run>)
    ensures r.None? <==> MakeDirs(st, folder).None?
    ensures r.Some? ==> r.value.store.cache == st.cache + SavedUrls(r.value.steps)
    ensures r.Some? ==> |r.value.steps| == |urls|
    ensures r.Some? ==> Jobs(r.value.steps) == CrawlerJobs(urls)
    ensures r.Some? ==> r.value.store.files == st.files + WrittenFiles(folder, r.value.steps)
    ensures r.Some? ==> forall i :: 0 <= i < |urls| ==> CrawlerNoOp(r.value.store, folder, Job(i + 1, urls[i]), net)
  {
    match MakeDirs(st, folder)
    case None => None
    case Some(s1) =>
      var jobs := CrawlerJobs(urls);
      var run := RunJobs(ImageCrawler, s1, folder, jobs, net);
      CrawlerRunSettles(s1, folder, jobs, net);
      assert Jobs(run.steps) == jobs;
      Some(run)
  }

  // ---------------------------------------------------------------------
  // Properties of whole runs

  /** A run keeps the file system real. */
  lemma {:induction false} RunKeepsClosed(v: Variant, st: Store, folder: Path, jobs: seq<Job>,
                                          net: Url -> Fetch)
    requires Closed(st)
    ensures Closed(RunJobs(v, st, folder, jobs, net).store)
    decreases |jobs|
  {
    if jobs != [] {
      DownloadKeepsClosed(v, st, jobs[0].url, folder, jobs[0].ordinal, net);
      var d := DownloadImage(v, st, jobs[0].url, folder, jobs[0].ordinal, net);
      RunKeepsClosed(v, d.store, folder, jobs[1..], net);
    }
  }

  /** Each URL saved in a run was not cached before it, and no URL is saved
      twice. */
  ghost predicate SavedOnce(steps: seq<Step>, cache: set<Url>)
  {
    && (forall i :: 0 <= i < |steps| && steps[i].task.Saved? ==>
          steps[i].job.url.Some? && steps[i].job.url.value !in cache)
    && (forall i, j :: 0 <= i < j < |steps| && steps[i].task.Saved? && steps[j].task.Saved? ==>
          steps[i].job.url != steps[j].job.url)
  }

  /** Under the sequential schedule image_crawler.py saves every URL at most
      once: a saved URL is in the cache before any later job checks it. */
  lemma {:induction false} CrawlerSavesOnce(st: Store, folder: Path, jobs: seq<Job>,
                                            net: Url -> Fetch)
    ensures SavedOnce(RunJobs(ImageCrawler, st, folder, jobs, net).steps, st.cache)
    decreases |jobs|
  {
    if jobs != [] {
      var d := DownloadImage(ImageCrawler, st, jobs[0].url, folder, jobs[0].ordinal, net);
      CrawlerSavesOnce(d.store, folder, jobs[1..], net);
      var rest := RunJobs(ImageCrawler, d.store, folder, jobs[1..], net);
      var steps := RunJobs(ImageCrawler, st, folder, jobs, net).steps;
      assert steps == [Step(jobs[0], d.task)] + rest.steps;
      assert d.task.Saved? ==> jobs[0].url.value in d.store.cache;
    }
  }

  /** test2.py gives no such guarantee: its `download_image` never consults
      the cache, so when the submission filter reads the cache before the
      first job finishes, a URL listed twice is fetched and saved twice. */
  lemma Test2SavesDuplicateTwice()
    ensures var run := DownloadAllTest2(Store({["out"]}, {}, {}), ["u", "u"], ["out"], _ => Fetched);
      |run.steps| == 2 && run.steps[0].task == Saved && run.steps[1].task == Saved
  {
    var st := Store({["out"]}, {}, {});
    var net: Url -> Fetch := _ => Fetched;
    var jobs := Test2JobsFrom(["u", "u"], {}, 0);
    assert jobs == [Job(1, Some("u")), Job(2, Some("u"))];
    assert NatToString(1) == "1" && NatToString(2) == "2";
    assert FileName(1) == "1.jpg" && FileName(2) == "2.jpg";
    assert Target(["out"], 1) == ["out", "1.jpg"] && Target(["out"], 2) == ["out", "2.jpg"];
    var d1 := DownloadImage(Test2, st, Some("u"), ["out"], 1, net);
    assert d1.task == Saved;
    assert d1.store.files == {["out", "1.jpg"]};
    var d2 := DownloadImage(Test2, d1.store, Some("u"), ["out"], 2, net);
    assert !Exists(d1.store, Target(["out"], 2));
    assert d2.task == Saved;
    assert jobs[1..] == [Job(2, Some("u"))];
  }

  /** Cached URLs leave gaps in the ordinals: with "b" cached, "a" and "c"
      become 1.jpg and 3.jpg. */
  lemma Test2GapExample()
    ensures Test2JobsFrom(["a", "b", "c"], {"b"}, 0) == [Job(1, Some("a")), Job(3, Some("c"))]
  {
  }

  /** A job that changes nothing when it runs against `st`: its file exists,
      its URL is cached, or its request cannot succeed in that folder. */
  predicate CrawlerNoOp(st: Store, folder: Path, job: Job, net: Url -> Fetch)
  {
    || Exists(st, Target(folder, job.ordinal))
    || job.url.None?
    || job.url.value in st.cache
    || net(job.url.value) == RequestFails
    || !IsDir(st, folder)
  }

  lemma CrawlerNoOpStays(st: Store, st2: Store, folder: Path, job: Job, net: Url -> Fetch)
    requires CrawlerNoOp(st, folder, job, net)
    requires st.files <= st2.files && st.cache <= st2.cache && st2.dirs == st.dirs
    ensures CrawlerNoOp(st2, folder, job, net)
  {
  }

  /** After a crawler run every one of its jobs has become a no-op. */
  lemma {:induction false} CrawlerRunSettles(st: Store, folder: Path, jobs: seq<Job>,
                                             net: Url -> Fetch)
    ensures var r := RunJobs(ImageCrawler, st, folder, jobs, net);
      forall i :: 0 <= i < |jobs| ==> CrawlerNoOp(r.store, folder, jobs[i], net)
    decreases |jobs|
  {
    if jobs != [] {
      var d := DownloadImage(ImageCrawler, st, jobs[0].url, folder, jobs[0].ordinal, net);
      var rest := RunJobs(ImageCrawler, d.store, folder, jobs[1..], net);
      var target := Target(folder, jobs[0].ordinal);
      assert Parent(target) == folder;
      assert CrawlerNoOp(d.store, folder, jobs[0], net);
      CrawlerNoOpStays(d.store, rest.store, folder, jobs[0], net);
      CrawlerRunSettles(d.store, folder, jobs[1..], net);
      forall i | 0 < i < |jobs| ensures CrawlerNoOp(rest.store, folder, jobs[i], net) {
        assert jobs[i] == jobs[1..][i - 1];
      }
    }
  }

  /** Jobs that are all no-ops leave the store as it was. */
  lemma {:induction false} NoOpRunChangesNothing(st: Store, folder: Path, jobs: seq<Job>,
                                                 net: Url -> Fetch)
    requires forall i :: 0 <= i < |jobs| ==> CrawlerNoOp(st, folder, jobs[i], net)
    ensures RunJobs(ImageCrawler, st, folder, jobs, net).store == st
    ensures forall i :: 0 <= i < |jobs| ==>
              RunJobs(ImageCrawler, st, folder, jobs, net).steps[i].task in {Skipped, Failed(false)}
    decreases |jobs|
  {
    if jobs != [] {
      var target := Target(folder, jobs[0].ordinal);
      assert Parent(target) == folder;
      var d := DownloadImage(ImageCrawler, st, jobs[0].url, folder, jobs[0].ordinal, net);
      assert d.store == st && d.task in {Skipped, Failed(false)};
      NoOpRunChangesNothing(st, folder, jobs[1..], net);
      var steps := RunJobs(ImageCrawler, st, folder, jobs, net).steps;
      var rest := RunJobs(ImageCrawler, st, folder, jobs[1..], net).steps;
      assert steps == [Step(jobs[0], d.task)] + rest;
      forall i | 0 < i < |jobs| ensures steps[i].task in {Skipped, Failed(false)} {
        assert steps[i] == rest[i - 1];
      }
    }
  }

  /** Running image_crawler.py's download a second time over the same URL
      list, against a network that answers the same way, changes nothing:
      saved and truncated files now exist, saved URLs are cached, and
      requests that failed fail again without a write. */
  lemma CrawlerRerunChangesNothing(st: Store, urls: seq<Option<Url>>, folder: Path,
                                   net: Url -> Fetch)
    requires DownloadAllCrawler(st, urls, folder, net).Some?
    ensures var s1 := DownloadAllCrawler(st, urls, folder, net).value.store;
      && DownloadAllCrawler(s1, urls, folder, net).Some?
      && DownloadAllCrawler(s1, urls, folder, net).value.store == s1
  {
    var s0 := MakeDirs(st, folder).value;
    var jobs := CrawlerJobs(urls);
    var s1 := RunJobs(ImageCrawler, s0, folder, jobs, net).store;
    assert IsDir(s1, folder) && folder != [];
    assert MakeDirs(s1, folder) == Some(s1);
    CrawlerRunSettles(s0, folder, jobs, net);
    NoOpRunChangesNothing(s1, folder, jobs, net);
  }
}
