# Reverse-image-search crawler: the deterministic core

The crawler walks a base directory of categories in natural order. For every
image it finds, it asks a visual-search engine for similar pictures, reads
the candidate URLs off the result page, and downloads them into an output
folder derived from the image's name. A small separate utility renames the
files of a directory to `1.<suffix>`, `2.<suffix>`, and so on.

The project models the parts of that behaviour that do not depend on the
browser or the network:

- `base.dfy` (module `Base`) holds `Option` and the character and decimal
  helpers. It models `str(n)`, `int(text)`, `name.split(sep)[0]` and the stem
  that `os.path.splitext` returns.
- `natural_sort.dfy` (module `NaturalSort`) holds the natural-sort key:
  - the split of a name into alternating text and digit runs, as done by
    `re.split(r'(\d+)', s)`;
  - the key made of lowercased text and integer values;
  - Python's list and string ordering;
  - `sorted(xs, key=...)`, modelled as a stable insertion sort.
- `downloads.dfy` (module `Downloads`) holds the file system and the
  downloads:
  - The file system is a set of directories, a set of files and the
    process-wide URL cache.
  - `os.makedirs` is modelled.
  - `download_image` is modelled in the three variants of `test2.py`,
    `image_crawler.py` and `test.py`.
  - The thread-pool submission loops are folds over their jobs.
- `scrape.dfy` (module `Scrape`) holds the result page:
  - reading the candidate URLs from the first fifteen result links;
  - the scroll loop, which stops at the first repeated page height.
- `traversal.dfy` (module `Traversal`) holds the outer loops of `test2.py`
  and `image_crawler.py`. The output folder of every image is derived there.
- `rename.dfy` (module `Rename`) holds `batch_rename_files_sorted` from
  `scripts/change_file_name.py`. It is modelled on a directory that maps
  names to files and sub-directories, with POSIX `os.rename`.

Some behaviour of the code is easy to misread:

- `test2.py` does not deduplicate downloads.
  - Its `download_image` never consults the URL cache.
  - Its submission filter reads the cache while the jobs are being
    submitted, so a URL listed twice on one page can be fetched and saved
    twice (`Downloads.Test2SavesDuplicateTwice`).
  - URLs already cached leave gaps in the file numbers (`Downloads.Test2GapExample`).
- A second download of the same URL list by `image_crawler.py` can still
  make requests.
  - Files that were saved, and files truncated by a failed write, are skipped.
  - A URL whose request failed left no file and no cache entry, so it is
    requested again. The store still ends unchanged
    (`Downloads.CrawlerRerunChangesNothing`).
- Only `test2.py` skips an image whose output folder exists.
  `image_crawler.py` searches every image again (`Traversal.CrawlerNeverSkips`).
- `test2.py` derives the folder from the image name alone:
  `<name before the first '_'>/<name before the first '.'>`. The category
  plays no part, so two images can share a folder, and the second may then
  be skipped as done (`Traversal.Test2FoldersCollide`).

The browser is a search oracle. For a category and an image name it reports
one of two things:

- the page did not load in time;
- the page loaded, with the heights the page reports while it is scrolled
  and the `data-m` payloads of its result links.

The network is a fetch oracle. For a URL it reports one of three things:

- the body arrives and is written;
- the request or its status check fails;
- the body arrives but the write fails, which leaves a truncated file.

## Model

| member | source | states |
|---|---|---|
| Base.NatToStringRoundTrip | test2.py:31 | `int` reading the decimal digits that `str(n)` writes gives back `n` |
| Base.LeadingZeroIgnored | test2.py:31 | `int` ignores a leading zero, so "07" and "7" have the same value |
| Base.BeforeFirst | test2.py:125 | `s.split(sep)[0]` is a prefix of `s` without `sep`, and it ends at the first `sep` or at the end of `s` |
| Base.SplitextStem | image_crawler.py:103 | the splitext stem is a non-empty prefix of a non-empty name; it is cut at the last '.'; it is the whole name exactly when no '.' follows a character other than '.' |
| NaturalSort.SplitFrom | test2.py:31 | the split of a suffix glues back to the suffix and alternates maximal text and digit runs; it has one part exactly when the suffix has no digit |
| NaturalSort.RunSplitUnique | test2.py:31 | any list that glues back to the string and alternates maximal runs is the split, so the split is the one `re.split` with a capturing group returns |
| NaturalSort.SplitRuns | image_crawler.py:29 | the split of a name glues back to it; it has a single part exactly when the name has no digit |
| NaturalSort.NaturalKey | image_crawler.py:27-29 | every key is text, then alternately an integer and non-empty text, and ends with text |
| NaturalSort.KeyAlternates | scripts/change_file_name.py:14 | in every key, text sits at even positions and integers at odd ones, and every text is lowercase and free of digits |
| NaturalSort.KeysAligned | test2.py:29-31 | the keys of any two names hold text, or an integer, at the same positions, so comparing keys never compares a string with an integer |
| NaturalSort.SplitSpellsKey | test.py:38-39 | each text run of a name lowercases to its key's text, and each digit run reads as its key's integer |
| NaturalSort.KeyOfSpelling | test2.py:31 | every spelling of a key has that key, in any letter case and with any number of leading zeros |
| NaturalSort.CaseAndZerosInvisible | image_crawler.py:29 | "IMG07" and "img7" have the same key |
| NaturalSort.NumbersCompareByValue | test2.py:31 | "img2" sorts before "img10", although as strings "img10" is the smaller |
| NaturalSort.KeyLessIsStrictTotalOrder | test2.py:118 | Python's list comparison on keys is irreflexive, transitive and total |
| NaturalSort.SortBy | test2.py:118 | the sorted list is a permutation of the listing, in natural order |
| NaturalSort.SortStable | image_crawler.py:100 | names with equal keys keep their listing order |
| NaturalSort.SortedUnique | image_crawler.py:96 | when no two names share a key, the sorted result is the only permutation in natural order |
| NaturalSort.SortImgNames | test2.py:122 | "img<c>", "img<b>", "img<a>" with a < b < c sort into increasing numeric order |
| NaturalSort.SortExample | image_crawler.py:100 | "img10", "img2", "img1" sort to "img1", "img2", "img10" |
| Downloads.MakeDirs | image_crawler.py:48 | creating a folder leaves files and cache alone, only adds directories, and the folder is a directory afterwards |
| Downloads.MakeDirsSpec | test2.py:36-37 | on a consistent file system `os.makedirs` succeeds exactly when the path is non-empty and none of its prefixes is a file; it adds exactly those prefixes |
| Downloads.MakeDirsIdempotent | image_crawler.py:48 | with `exist_ok=True` a second call changes nothing |
| Downloads.Attempt | test2.py:43-50 | the request-and-write block saves exactly when the URL exists, the fetch succeeds and the folder is a directory; the cache grows by the URL only on success; a file appears unless the failure came before the write, and a failed write into a directory always leaves one |
| Downloads.DownloadImage | image_crawler.py:31-44 | the crawler skips exactly when `{n}.jpg` exists or the URL is cached, `test.py` exactly when `{n}.jpg` exists, and `test2.py`, which first creates a missing folder, exactly when `{n}.jpg` then exists; past those checks each saves exactly when the URL is fetched and the folder is a directory; the cache grows by exactly the saved URL; only a save or a failed write adds `{n}.jpg`; only `test2.py` creates directories, those `os.makedirs` creates |
| Downloads.ExistingTargetIsNoOp | test.py:46-48 | when `{n}.jpg` exists, every variant returns without a request or a change |
| Downloads.TestFragmentIgnoresCache | test.py:44-56 | what `test.py` does does not depend on the URL cache |
| Downloads.DownloadKeepsClosed | test2.py:33-50 | a download keeps the file system consistent: parents of entries are directories, and no path is both a file and a directory |
| Downloads.RunJobs | test2.py:55-62 | running the submitted jobs yields one step per job, in order; a saved step's URL was fetched and a step that left a truncated file had its write fail; the cache grows by exactly the saved URLs, the files by exactly the written targets, and directories are never removed |
| Downloads.Test2JobsFrom | test2.py:56-57 | every submitted job carries the 1-based position of its URL, and that URL was not cached when the list was built |
| Downloads.Test2JobsIncreasing | test2.py:56-57 | submitted ordinals increase strictly |
| Downloads.Test2JobsComplete | test2.py:56-57 | every URL not in the cache is submitted with its position |
| Downloads.Test2RunSettles | test2.py:55-62 | after a `test2.py` run every job has had its effect: its file exists, its URL is missing or its request fails, or its folder cannot be made into a directory |
| Downloads.DownloadAllTest2 | test2.py:53-62 | the jobs run are exactly the URLs not cached at call time, each named by its 1-based position, in increasing order and each once; afterwards every job's file exists, or its request cannot succeed, or its folder cannot be made; a save needs a fetched URL; the cache grows by exactly the saved URLs and the files by exactly the written targets |
| Downloads.CrawlerJobs | image_crawler.py:50-51 | the crawler submits every entry, the i-th as `{i+1}.jpg` |
| Downloads.DownloadAllCrawler | image_crawler.py:46-53 | the download phase fails exactly when creating the folder fails; otherwise the jobs are every URL, the i-th as `{i+1}.jpg`; the cache grows by the saved URLs and the files by the written targets; afterwards every job would return without a change |
| Downloads.RunKeepsClosed | image_crawler.py:49-53 | a whole run keeps the file system consistent |
| Downloads.CrawlerSavesOnce | image_crawler.py:34 | in a crawler run each URL is saved at most once, and never a URL that was cached before |
| Downloads.Test2SavesDuplicateTwice | test2.py:53-57 | when the cache filter runs before the first job finishes, a URL listed twice is saved twice by `test2.py` |
| Downloads.Test2GapExample | test2.py:56-57 | with "b" cached, "a" and "c" become jobs 1 and 3 |
| Downloads.CrawlerRunSettles | image_crawler.py:34-42 | after a crawler run every one of its jobs would return without changing anything |
| Downloads.NoOpRunChangesNothing | image_crawler.py:34-35 | jobs that would each change nothing leave the store unchanged and neither save nor write |
| Downloads.CrawlerRerunChangesNothing | image_crawler.py:46-53 | running the crawler's download phase again over the same URLs, against the same network, leaves the store unchanged |
| Scrape.Window | test2.py:98 | the first `MAX_NUM_IMAGES` links, or all of them when there are fewer |
| Scrape.Positions | test2.py:98-104 | the positions of the links a filter accepts: all of them, only them, in page order |
| Scrape.Test2UrlsFrom | test2.py:97-104 | the loop ends normally exactly when no `data-m` is malformed; the URLs it keeps are non-empty and no more numerous than the links |
| Scrape.Test2UrlsAtPositions | test2.py:99-104 | the kept URLs are the `murl` values of the links with a non-empty `murl`, in page order |
| Scrape.CrawlerUrlsFrom | image_crawler.py:83-84 | the list comprehension completes exactly when no `data-m` is malformed |
| Scrape.CrawlerUrlsAtPositions | image_crawler.py:83-84 | its entries are the `murl` entries, missing or not, of the links with a `data-m`, in page order |
| Scrape.ExtractTest2 | test2.py:96-104 | at most fifteen URLs, all non-empty |
| Scrape.ExtractCrawler | image_crawler.py:82-84 | at most fifteen entries |
| Scrape.Test2IsCrawlerFiltered | test2.py:99-104 | both scripts fail on the same windows, and `test2.py`'s URLs are the crawler's entries without the missing and empty ones |
| Scrape.ExtractTest2IsCrawlerFiltered | image_crawler.py:83-84 | the same relation holds for the two extractions over a whole page |
| Scrape.BeyondWindowIgnored | image_crawler.py:84 | links after the fifteenth never change the result, not even malformed ones |
| Scrape.SettleIndex | test2.py:64-74 | the scroll stops at the first reading equal to the one before it, if there is one |
| Scrape.ScrollToLoad | image_crawler.py:55-64 | the loop stops exactly when two consecutive readings agree, and it stops at the first such pair |
| Traversal.Child | test2.py:125 | `os.path.join` with a component adds it, and with an empty one names the same folder |
| Traversal.Test2Folder | test2.py:125 | the folder is `OUTPUT_DIR/<name before the first '_'>/<name before the first '.'>`, where an empty part adds no level |
| Traversal.Test2FoldersCollide | test2.py:125-127 | two names that share a stem containing '_' and differ only from the first '.' on get the same folder |
| Traversal.Test2FolderWithoutUnderscore | test2.py:125 | a name without '_' becomes its own parent folder |
| Traversal.CrawlerFolder | image_crawler.py:103 | the folder is `OUTPUT_DIR/<category>/<splitext stem>` |
| Traversal.VisitImage | test2.py:76-128 | one visit per image, with its derived folder; it is skipped exactly when `test2.py` finds the folder; a searched image times out exactly when the wait expires, hangs exactly when the scroll never settles, fails exactly when the extraction raises, and (`image_crawler.py` only) fails exactly when the folder cannot be made; a download is the run of the extracted URLs into the folder, with at most fifteen steps, and nothing else changes the store |
| Traversal.VisitImages | image_crawler.py:100-104 | the images are visited in the given order, one visit each; the run stops only at a scroll that never settles |
| Traversal.VisitCategories | test2.py:119-127 | a scroll that never settles ends the whole traversal; it is always the last visit |
| Traversal.ImagesCovered | image_crawler.py:100-104 | the inner loop visits the category's images in the order given, all of them unless a scroll hangs |
| Traversal.VisitCategoriesCovers | test2.py:119-127 | the visits name a prefix of the planned (category, image) pairs: the directories in the order given, each one's entries in natural order; unless a scroll hangs they name all of them |
| Traversal.PlannedHasEveryEntry | image_crawler.py:97-101 | every entry of every directory in the listing is planned for a visit |
| Traversal.ProcessCategories | test2.py:110-130 | the traversal, here and in `process_image_categories`, visits every entry of every directory of the base directory, the categories and then the images in natural order, unless a scroll hangs, and then a prefix of that |
| Traversal.CrawlerSavesEachUrlOnce | image_crawler.py:89-106 | over the whole traversal the crawler saves each URL at most once; the cache grows by exactly the saved URLs |
| Traversal.ProcessKeepsClosed | test2.py:110-130 | the traversal keeps the file system consistent |
| Traversal.Test2RerunIsNoOp | test2.py:126-127 | once every image has its output folder, `test2.py` changes nothing and searches nothing |
| Traversal.CrawlerNeverSkips | image_crawler.py:101-104 | `image_crawler.py` never skips an image because its folder exists, and unless a scroll hangs it searches every image of every directory |
| Traversal.VisitsComeFromDirectories | image_crawler.py:96-104 | only directories of the base directory are searched, and only for names they list; unless a scroll hangs, every name they list is searched |
| Traversal.VisitsInNaturalOrder | test2.py:118-123 | visits run in natural order of category, and within a category in natural order of image name |
| Rename.RegularFiles | scripts/change_file_name.py:25-28 | the names kept are exactly the listed regular files, each kept no more often than it is listed |
| Rename.RegularFilesInOrder | scripts/change_file_name.py:25-28 | the regular files are kept in listing order: the filter distributes over concatenation and keeps a single name exactly when it is a regular file |
| Rename.NumberedNameInjective | scripts/change_file_name.py:33 | different indices give different new names |
| Rename.Numbered | scripts/change_file_name.py:31-34 | the k-th file of the sorted list is renamed to `k.<suffix>`, counting from 1 |
| Rename.PlanRenamesEachFileOnce | scripts/change_file_name.py:25-31 | only regular files are renamed, every regular file is renamed, and none twice |
| Rename.PlanTargetsAreOneToN | scripts/change_file_name.py:31-34 | the new names are pairwise distinct and are exactly `1.<suffix>` to `N.<suffix>` |
| Rename.PlanKeepsNaturalOrder | scripts/change_file_name.py:25-33 | a file earlier in natural order gets the smaller number |
| Rename.RenameEntry | scripts/change_file_name.py:36 | a rename that succeeds needs the source; renaming a name to itself changes nothing; otherwise the target holds the source's entry, the source is gone and nothing else changes; a file can always be renamed onto a name that is not a directory, and a rename between a file and a directory raises |
| Rename.ApplyFrom | scripts/change_file_name.py:31-36 | a run that raises does so at one of the remaining renames |
| Rename.BatchRename | scripts/change_file_name.py:16-36 | the script raises, if at all, at one of its renames |
| Rename.SafeBatchRenumbers | scripts/change_file_name.py:31-36 | when no rename targets a name still waiting to be renamed, or a sub-directory, the script finishes; every file is found under its new name with its content, and nothing else changes |
| Rename.RenumberFiles | scripts/change_file_name.py:16-36 | the corrected utility succeeds exactly on plans that overwrite nothing, and then renumbers the directory without losing a file |
| Rename.NoNumberedNamesIsSafe | scripts/change_file_name.py:31-36 | no overwrite is possible while no entry already has a numbered name with the suffix |
| Rename.ClobberTwoFiles | scripts/change_file_name.py:31-36 | files numbered 0 and 1 end as a single file numbered 2, holding the first file's content; the second file's content is lost and nothing raises |
| Rename.ClobberExample | scripts/change_file_name.py:31-36 | `0.jpg` and `1.jpg` with suffix `jpg` leave only `2.jpg`, holding what `0.jpg` held |

## Left out

- The browser session is left out: Selenium, the upload, the waits and `driver.quit`. A search oracle stands in for it; a wait that expires is one of its answers.
- HTTP is left out: `requests`, and the session with its retry policy in `test.py`. The fetch oracle gives one final answer per URL.
- Thread pools are modelled by one schedule: every job is submitted first, and the jobs then run one at a time in submission order. In `test2.py` the cache filter runs while jobs are being submitted, so an earlier job can add a URL to the cache before a later copy of it is filtered; that schedule and every other interleaving are not modelled.
- Names are treated as ASCII. Python's `\d`, `isdigit` and `lower` also act on other Unicode characters, where `\d` and `isdigit` can disagree; a name such as "1²" splits into a run "²" that `isdigit` accepts and `int` rejects with `ValueError`. None of that is modelled.
- Logging, `tqdm` progress bars, `print` and `time.sleep` are left out; they have no effect on the outcome.
- `json.loads` is abstracted. A `data-m` payload is absent or empty, not a JSON object, or an object whose `murl` is present or missing.
- A `murl` that is not a string is not modelled.
- A `murl` string that the request rejects is covered by the fetch oracle, which can answer with a request failure.
- Paths are sequences of components: "." and "..", absolute paths and symbolic links are not modelled.
- `os.makedirs('')` raising is modelled as a failure of `MakeDirs` on the empty path.
- A scroll that never settles hangs the real script. Here it ends the traversal, with a flag saying so.
- An exception inside `search_similar_images` or `search_and_download_similar_images` is modelled as an outcome of the visit: a timed-out wait, a malformed payload, or a folder that cannot be made. Any other exception in the browser is part of the oracle.
- `scripts/batched_image_inpaint.py` is not part of this model: its inpainting is floating-point image processing.
- The bodies of `retryable_operation` and `download_images_threaded` in `test.py` are elided in the source. Only its `download_image` is modelled.
- Windows `os.rename` refuses to replace an existing file. Only POSIX semantics are modelled.
- Renaming a directory onto a directory is modelled as raising. POSIX allows it when the target is empty, but the model does not see directory contents.
- Rename.RenameEntry: a sub-directory's contents, and so the empty-directory case, are not modelled.
- Traversal.VisitsInNaturalOrder: it assumes the listing names each category once, as `os.listdir` does.
- Rename.RenumberFiles: it assumes the listing names each entry once, as `os.listdir` does.

## Findings

| source | as written | input that shows it | evidently intended | confidence | as-written member | corrected member |
|---|---|---|---|---|---|---|
| scripts/change_file_name.py:31-36 | each file is renamed in place to `k.<suffix>` in natural order; POSIX `os.rename` silently replaces an existing target | a directory holding `0.jpg` and `1.jpg`, suffix `jpg`: `0.jpg` is renamed onto `1.jpg`, destroying it, and then becomes `2.jpg` | renumber the files without losing any of them | not executed | Rename.BatchRename (shown by Rename.ClobberExample and Rename.ClobberTwoFiles) | Rename.RenumberFiles (proved by Rename.SafeBatchRenumbers) |
