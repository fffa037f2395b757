/** Reading candidate URLs off a result page, and waiting for the page to
    stop growing. A result link is abstracted to what its `data-m` attribute
    holds: nothing (absent or empty), text that is not a JSON object, or an
    object whose `murl` entry is present or not. The browser's height
    readings are the sequence of numbers it would report. */
module Scrape {
  import opened Base

  /** `MAX_NUM_IMAGES`: only the first links of the page are read. */
  const MaxNumImages: nat := 15

  datatype DataM = NoData | Malformed | Parsed(murl: Option<string>)

  /** `image_links[:MAX_NUM_IMAGES]`. */
  function Window<T>(links: seq<T>): (w: seq<T>)
    ensures w <= links
    ensures |w| == if |links| < MaxNumImages then |links| else MaxNumImages
  {
    if |links| <= MaxNumImages then links else links[..MaxNumImages]
  }

  /** image_crawler.py keeps a link whose `data-m` is non-empty. */
  predicate HasData(d: DataM) { !d.NoData? }

  /** test2.py keeps a link whose `data-m` is non-empty and whose `murl` is
      a non-empty string. */
  predicate HasUrl(d: DataM) { d.Parsed? && d.murl.Some? && d.murl.value != [] }

  predicate NoMalformed(w: seq<DataM>) { forall i :: 0 <= i < |w| ==> !w[i].Malformed? }

  /** The positions, from `i` on, of the links `keep` accepts, in page
      order. */
  function Positions(w: seq<DataM>, keep: DataM -> bool, i: nat): (ps: seq<nat>)
    requires i <= |w|
    ensures forall k :: 0 <= k < |ps| ==> i <= ps[k] < |w| && keep(w[ps[k]])
    ensures forall j, k :: 0 <= j < k < |ps| ==> ps[j] < ps[k]
    ensures forall p :: i <= p < |w| && keep(w[p]) ==> p in ps
    decreases |w| - i
  {
    if i == |w| then []
    else
      var rest := Positions(w, keep, i + 1);
      if keep(w[i]) then [i] + rest else rest
  }

  lemma NoMalformedFrom(w: seq<DataM>, i: nat)
    requires i < |w|
    ensures NoMalformed(w[i..]) <==> !w[i].Malformed? && NoMalformed(w[i + 1..])
  {
    assert w[i..] == [w[i]] + w[i + 1..];
  }

  /** The loop of test2.py's `search_similar_images` over the window from
      position `i`: a malformed `data-m` raises out of the loop (`None`);
      links without `data-m` or without a usable `murl` are passed over. */
  function Test2UrlsFrom(w: seq<DataM>, i: nat): (r: Option<seq<string>>)
    requires i <= |w|
    ensures r.Some? <==> NoMalformed(w[i..])
    ensures r.Some? ==> |r.value| <= |w| - i
    ensures r.Some? ==> forall k :: 0 <= k < |r.value| ==> r.value[k] != []
    decreases |w| - i
  {
    if i == |w| then Some([])
    else
      var rest := Test2UrlsFrom(w, i + 1);
      NoMalformedFrom(w, i);
      match w[i]
      case Malformed => None
      case NoData => rest
      case Parsed(m) =>
        if m.None? || m.value == [] then rest
        else if rest.None? then None
        else Some([m.value] + rest.value)
  }

  /** `urls` are the `murl`s of the links at positions `ps`, in order. */
  predicate UrlsAt(w: seq<DataM>, ps: seq<nat>, urls: seq<string>) {
    |urls| == |ps|
    && forall k :: 0 <= k < |ps| ==> ps[k] < |w| && HasUrl(w[ps[k]]) && urls[k] == w[ps[k]].murl.value
  }

  lemma UrlsAtCons(w: seq<DataM>, i: nat, ps: seq<nat>, urls: seq<string>)
    requires i < |w| && HasUrl(w[i]) && UrlsAt(w, ps, urls)
    ensures UrlsAt(w, [i] + ps, [w[i].murl.value] + urls)
  {
    var ps', urls' := [i] + ps, [w[i].murl.value] + urls;
    assert forall k :: 0 < k < |ps'| ==> ps'[k] == ps[k - 1] && urls'[k] == urls[k - 1];
  }

  /** test2.py's URLs are the `murl`s of the accepted links, in page
      order. */
  lemma {:induction false} Test2UrlsAtPositions(w: seq<DataM>, i: nat)
    requires i <= |w|
    ensures Test2UrlsFrom(w, i).Some? ==> UrlsAt(w, Positions(w, HasUrl, i), Test2UrlsFrom(w, i).value)
    decreases |w| - i
  {
    if i < |w| {
      Test2UrlsAtPositions(w, i + 1);
      var r1, p1 := Test2UrlsFrom(w, i + 1), Positions(w, HasUrl, i + 1);
      if HasUrl(w[i]) {
        assert Positions(w, HasUrl, i) == [i] + p1;
        if r1.Some? {
          assert Test2UrlsFrom(w, i).value == [w[i].murl.value] + r1.value;
          UrlsAtCons(w, i, p1, r1.value);
        }
      } else {
        assert Positions(w, HasUrl, i) == p1;
        assert !w[i].Malformed? ==> Test2UrlsFrom(w, i) == r1;
      }
    }
  }

  /** The list comprehension of image_crawler.py from position `i`: every
      link with a `data-m` contributes its `murl`, present or not, and a
      malformed `data-m` raises (`None`). */
  function CrawlerUrlsFrom(w: seq<DataM>, i: nat): (r: Option<seq<Option<string>>>)
    requires i <= |w|
    ensures r.Some? <==> NoMalformed(w[i..])
    ensures r.Some? ==> |r.value| <= |w| - i
    decreases |w| - i
  {
    if i == |w| then Some([])
    else
      var rest := CrawlerUrlsFrom(w, i + 1);
      NoMalformedFrom(w, i);
      match w[i]
      case Malformed => None
      case NoData => rest
      case Parsed(m) => if rest.None? then None else Some([m] + rest.value)
  }

  /** `entries` are the `murl` entries of the links at positions `ps`, in
      order. */
  predicate EntriesAt(w: seq<DataM>, ps: seq<nat>, entries: seq<Option<string>>) {
    |entries| == |ps|
    && forall k :: 0 <= k < |ps| ==> ps[k] < |w| && w[ps[k]].Parsed? && entries[k] == w[ps[k]].murl
  }

  lemma EntriesAtCons(w: seq<DataM>, i: nat, ps: seq<nat>, entries: seq<Option<string>>)
    requires i < |w| && w[i].Parsed? && EntriesAt(w, ps, entries)
    ensures EntriesAt(w, [i] + ps, [w[i].murl] + entries)
  {
    var ps', entries' := [i] + ps, [w[i].murl] + entries;
    assert forall k :: 0 < k < |ps'| ==> ps'[k] == ps[k - 1] && entries'[k] == entries[k - 1];
  }

  /** image_crawler.py's entries are the `murl`s of the links with a
      `data-m`, in page order. */
  lemma {:induction false} CrawlerUrlsAtPositions(w: seq<DataM>, i: nat)
    requires i <= |w|
    ensures CrawlerUrlsFrom(w, i).Some? ==> EntriesAt(w, Positions(w, HasData, i), CrawlerUrlsFrom(w, i).value)
    decreases |w| - i
  {
    if i < |w| {
      CrawlerUrlsAtPositions(w, i + 1);
      var r1, p1 := CrawlerUrlsFrom(w, i + 1), Positions(w, HasData, i + 1);
      if HasData(w[i]) {
        assert Positions(w, HasData, i) == [i] + p1;
        if r1.Some? && w[i].Parsed? {
          assert CrawlerUrlsFrom(w, i).value == [w[i].murl] + r1.value;
          EntriesAtCons(w, i, p1, r1.value);
        }
      } else {
        assert Positions(w, HasData, i) == p1;
        assert CrawlerUrlsFrom(w, i) == r1;
      }
    }
  }

  /** test2.py's extraction: at most fifteen non-empty URLs, in page order. */
  function ExtractTest2(links: seq<DataM>): (r: Option<seq<string>>)
    ensures r.Some? ==> |r.value| <= MaxNumImages
    ensures r.Some? ==> forall k :: 0 <= k < |r.value| ==> r.value[k] != []
  {
    Test2UrlsFrom(Window(links), 0)
  }

  /** image_crawler.py's extraction: one entry, possibly `None`, for each of
      the first fifteen links that has a `data-m`. */
  function ExtractCrawler(links: seq<DataM>): (r: Option<seq<Option<string>>>)
    ensures r.Some? ==> |r.value| <= MaxNumImages
  {
    CrawlerUrlsFrom(Window(links), 0)
  }

  /** The entries image_crawler.py would try that test2.py keeps: the
      present, non-empty ones. */
  function Usable(ms: seq<Option<string>>): (r: seq<string>)
    ensures |r| <= |ms|
    ensures forall k :: 0 <= k < |r| ==> Some(r[k]) in ms && r[k] != []
  {
    if ms == [] then []
    else
      var rest := Usable(ms[1..]);
      if ms[0].Some? && ms[0].value != [] then [ms[0].value] + rest else rest
  }

  /** The two scripts read the same links, and abort on the same pages;
      test2.py's URLs are image_crawler.py's entries without the missing and
      the empty ones. */
  lemma {:induction false} Test2IsCrawlerFiltered(w: seq<DataM>, i: nat)
    requires i <= |w|
    ensures Test2UrlsFrom(w, i).Some? <==> CrawlerUrlsFrom(w, i).Some?
    ensures CrawlerUrlsFrom(w, i).Some? ==>
              Test2UrlsFrom(w, i).value == Usable(CrawlerUrlsFrom(w, i).value)
    decreases |w| - i
  {
    if i < |w| {
      Test2IsCrawlerFiltered(w, i + 1);
      var c1 := CrawlerUrlsFrom(w, i + 1);
      if w[i].Parsed? && c1.Some? {
        UsableCons(w[i].murl, c1.value);
      }
    }
  }

  lemma UsableCons(m: Option<string>, ms: seq<Option<string>>)
    ensures Usable([m] + ms) == if m.Some? && m.value != [] then [m.value] + Usable(ms) else Usable(ms)
  {
    assert ([m] + ms)[1..] == ms;
  }

  lemma ExtractTest2IsCrawlerFiltered(links: seq<DataM>)
    ensures ExtractTest2(links).Some? <==> ExtractCrawler(links).Some?
    ensures ExtractCrawler(links).Some? ==>
              ExtractTest2(links).value == Usable(ExtractCrawler(links).value)
  {
    Test2IsCrawlerFiltered(Window(links), 0);
  }

  /** Links after the fifteenth are never read: not even a malformed one
      there aborts the page. */
  lemma BeyondWindowIgnored(links: seq<DataM>, more: seq<DataM>)
    requires |links| >= MaxNumImages
    ensures ExtractTest2(links + more) == ExtractTest2(links)
    ensures ExtractCrawler(links + more) == ExtractCrawler(links)
  {
    assert Window(links + more) == Window(links);
  }

  // ---------------------------------------------------------------------
  // scroll_to_load_images

  /** The loop stops at the first reading equal to the one before it. The
      readings the browser would give are `heights`; `None` means they ran
      out before two consecutive readings agreed, i.e. the page was still
      growing and the loop had not stopped. */
  function SettleIndex(heights: seq<int>, k: nat): (r: Option<nat>)
    requires 1 <= k
    ensures r.Some? ==> k <= r.value < |heights| && heights[r.value] == heights[r.value - 1]
    ensures forall j :: k <= j < |heights| && heights[j] == heights[j - 1] ==>
              r.Some? && r.value <= j
    decreases |heights| - k
  {
    if k >= |heights| then None
    else if heights[k] == heights[k - 1] then Some(k)
    else SettleIndex(heights, k + 1)
  }

  /** The loop itself, reading one height per round. */
  method ScrollToLoad(heights: seq<int>) returns (settled: Option<nat>)
    requires |heights| >= 1
    ensures settled == SettleIndex(heights, 1)
    ensures settled.Some? <==> exists j :: 1 <= j < |heights| && heights[j] == heights[j - 1]
    ensures settled.Some? ==> forall j :: 1 <= j < settled.value ==> heights[j] != heights[j - 1]
  {
    var last := heights[0];
    var k := 1;
    while k < |heights|
      invariant 1 <= k <= |heights|
      invariant last == heights[k - 1]
      invariant forall j :: 1 <= j < k ==> heights[j] != heights[j - 1]
      invariant SettleIndex(heights, k) == SettleIndex(heights, 1)
      decreases |heights| - k
    {
      var newHeight := heights[k];
      if newHeight == last {
        return Some(k);
      }
      last := newHeight;
      k := k + 1;
    }
    return None;
  }
}
