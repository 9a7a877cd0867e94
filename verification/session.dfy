/** The dashboard's session state: one item per target URL, in request order,
    updated by merging status patches pushed by the backend
    (web/src/components/ScraperDashboard.tsx, item shape in web/src/types/index.ts). */
module Session {
  import opened Wrappers

  datatype Status = Pending | Scraping | Success | Error

  /** The page's heading texts. Both lists are always present here; a heading list
      the server sends as null is not modelled. */
  datatype Headings = Headings(h1: seq<string>, h2: seq<string>)

  /** One target URL's record (ScrapedData). `scrapedAt` is the timestamp text as received. */
  datatype Item = Item(
    url: string,
    status: Status,
    title: string,
    description: string,
    headings: Headings,
    links: int,
    scrapedAt: string,
    error: Option<string>)

  /** An update pushed by the backend. `url` and `status` are always present;
      every other field is present (`Some`) only when the message carries it. */
  datatype Patch = Patch(
    url: string,
    status: Status,
    title: Option<string>,
    description: Option<string>,
    headings: Option<Headings>,
    links: Option<int>,
    scrapedAt: Option<string>,
    error: Option<string>)

  const StartFailureMessage: string := "Failed to start request"

  function Urls(items: seq<Item>): (us: seq<string>)
    ensures |us| == |items|
    ensures forall i :: 0 <= i < |items| ==> us[i] == items[i].url
  {
    seq(|items|, i requires 0 <= i < |items| => items[i].url)
  }

  predicate Distinct(xs: seq<string>)
  {
    forall i, j :: 0 <= i < j < |xs| ==> xs[i] != xs[j]
  }

  /** The session invariant: no two items share a URL. */
  predicate UrlsDistinct(items: seq<Item>)
  {
    Distinct(Urls(items))
  }

  /** The blank record a requested URL starts with. */
  function PendingItem(url: string): (item: Item)
    ensures item.url == url && item.status == Pending && item.error == None
    ensures item.headings.h1 == [] && item.headings.h2 == [] && item.links == 0
  {
    Item(url, Pending, "", "", Headings([], []), 0, "", None)
  }

  /** The session a new scrape starts with: one blank pending item per requested
      URL, in request order. */
  function Initialise(urls: seq<string>): (items: seq<Item>)
    ensures Urls(items) == urls
    ensures forall i :: 0 <= i < |items| ==> items[i] == PendingItem(urls[i])
  {
    seq(|urls|, i requires 0 <= i < |urls| => PendingItem(urls[i]))
  }

  /** Array.prototype.findIndex on the URL: the first position holding `url`. */
  function FindIndex(items: seq<Item>, url: string): (r: Option<nat>)
    ensures r.Some? ==> r.value < |items| && items[r.value].url == url
    ensures r.Some? ==> forall j :: 0 <= j < r.value ==> items[j].url != url
    ensures r.None? <==> url !in Urls(items)
  {
    if |items| == 0 then None
    else if items[0].url == url then Some(0)
    else
      var rest := FindIndex(items[1..], url);
      assert Urls(items[1..]) == Urls(items)[1..];
      if rest.None? then None else Some(rest.value + 1)
  }

  /** The object spread `{ ...item, ...patch }`: every field the patch carries
      replaces the item's, every other field is kept. */
  function Merge(item: Item, p: Patch): Item
  {
    Item(
      item.url,
      p.status,
      p.title.ValueOr(item.title),
      p.description.ValueOr(item.description),
      p.headings.ValueOr(item.headings),
      p.links.ValueOr(item.links),
      p.scrapedAt.ValueOr(item.scrapedAt),
      if p.error.Some? then p.error else item.error)
  }

  /** The record appended for a URL the session has not seen: the patch's fields,
      with the blank values of a pending item where the patch carries none. */
  function FromPatch(p: Patch): Item
  {
    Merge(PendingItem(p.url), p)
  }

  /** handleUpdate: merge into the item with the same URL, or append when unseen. */
  function ApplyUpdate(items: seq<Item>, p: Patch): (r: seq<Item>)
    ensures p.url in Urls(items) ==> |r| == |items|
    ensures p.url !in Urls(items) ==> |r| == |items| + 1 && r[..|items|] == items && r[|items|] == FromPatch(p)
    ensures forall i :: 0 <= i < |items| && items[i].url != p.url ==> r[i] == items[i]
    ensures forall i :: 0 <= i < |items| ==> r[i].url == items[i].url
    ensures p.url in Urls(r)
  {
    match FindIndex(items, p.url)
    case Some(k) => items[k := Merge(items[k], p)]
    case None => items + [FromPatch(p)]
  }

  /** An update for a known URL merges into the first item holding that URL, in
      place, and leaves every other item — a later one with the same URL included —
      as it was. */
  lemma ApplyUpdateMerges(items: seq<Item>, p: Patch, k: nat)
    requires k < |items| && items[k].url == p.url
    requires forall j :: 0 <= j < k ==> items[j].url != p.url
    ensures |ApplyUpdate(items, p)| == |items|
    ensures ApplyUpdate(items, p)[k] == Merge(items[k], p)
    ensures forall j :: 0 <= j < |items| && j != k ==> ApplyUpdate(items, p)[j] == items[j]
  {
    var f := FindIndex(items, p.url);
    assert Urls(items)[k] == p.url;
    assert f.Some?;
  }

  /** Every field a patch carries lands in the merged item; every field it does
      not carry keeps its old value; the URL never changes. */
  lemma MergeFields(item: Item, p: Patch)
    ensures var m := Merge(item, p);
      && m.url == item.url
      && m.status == p.status
      && (p.title.Some? ==> m.title == p.title.value) && (p.title.None? ==> m.title == item.title)
      && (p.description.Some? ==> m.description == p.description.value)
      && (p.description.None? ==> m.description == item.description)
      && (p.headings.Some? ==> m.headings == p.headings.value) && (p.headings.None? ==> m.headings == item.headings)
      && (p.links.Some? ==> m.links == p.links.value) && (p.links.None? ==> m.links == item.links)
      && (p.scrapedAt.Some? ==> m.scrapedAt == p.scrapedAt.value)
      && (p.scrapedAt.None? ==> m.scrapedAt == item.scrapedAt)
      && (p.error.Some? ==> m.error == p.error) && (p.error.None? ==> m.error == item.error)
  {
  }

  /** Fields `q` carries. */
  predicate Covers(q: Patch, p: Patch)
  {
    && (p.title.Some? ==> q.title.Some?)
    && (p.description.Some? ==> q.description.Some?)
    && (p.headings.Some? ==> q.headings.Some?)
    && (p.links.Some? ==> q.links.Some?)
    && (p.scrapedAt.Some? ==> q.scrapedAt.Some?)
    && (p.error.Some? ==> q.error.Some?)
  }

  /** Last write wins per field: a later patch that carries every field an earlier
      one carried erases every trace of the earlier one. */
  lemma MergeLastWriteWins(item: Item, p: Patch, q: Patch)
    requires Covers(q, p)
    ensures Merge(Merge(item, p), q) == Merge(item, q)
  {
  }

  /** Applying the same patch twice is applying it once. */
  lemma MergeIdempotent(item: Item, p: Patch)
    ensures Merge(Merge(item, p), p) == Merge(item, p)
  {
  }

  /** An update keeps the URLs pairwise distinct. */
  lemma ApplyUpdateKeepsDistinct(items: seq<Item>, p: Patch)
    requires UrlsDistinct(items)
    ensures UrlsDistinct(ApplyUpdate(items, p))
  {
    var r := ApplyUpdate(items, p);
    if p.url in Urls(items) {
      assert Urls(r) == Urls(items);
    } else {
      assert Urls(r) == Urls(items) + [p.url];
    }
  }

  /** Applies a stream of patches in arrival order. */
  function ApplyAll(items: seq<Item>, ps: seq<Patch>): seq<Item>
    decreases |ps|
  {
    if |ps| == 0 then items else ApplyAll(ApplyUpdate(items, ps[0]), ps[1..])
  }

  /** However many updates arrive, the URLs stay pairwise distinct, items never
      leave the session, and no item moves. */
  lemma {:induction false} ApplyAllKeepsDistinct(items: seq<Item>, ps: seq<Patch>)
    requires UrlsDistinct(items)
    ensures UrlsDistinct(ApplyAll(items, ps))
    ensures |ApplyAll(items, ps)| >= |items|
    ensures Urls(ApplyAll(items, ps))[..|items|] == Urls(items)
    decreases |ps|
  {
    if |ps| > 0 {
      var next := ApplyUpdate(items, ps[0]);
      ApplyUpdateKeepsDistinct(items, ps[0]);
      ApplyAllKeepsDistinct(next, ps[1..]);
      assert Urls(next)[..|items|] == Urls(items);
    }
  }

  /** The status a stream of patches leaves for `url`: that of the last patch
      naming it, or `s` when none does. */
  function LastStatus(ps: seq<Patch>, url: string, s: Status): Status
    decreases |ps|
  {
    if |ps| == 0 then s else LastStatus(ps[1..], url, if ps[0].url == url then ps[0].status else s)
  }

  function PatchUrls(ps: seq<Patch>): (us: seq<string>)
    ensures |us| == |ps|
    ensures forall j :: 0 <= j < |ps| ==> us[j] == ps[j].url
  {
    seq(|ps|, j requires 0 <= j < |ps| => ps[j].url)
  }

  /** One update, seen from every item: an item's status becomes the patch's when
      it holds the patch's URL and is otherwise unchanged; an appended item holds
      the patch's URL. */
  lemma ApplyUpdateStatus(items: seq<Item>, p: Patch)
    requires UrlsDistinct(items)
    ensures var r := ApplyUpdate(items, p);
      forall i :: 0 <= i < |items| ==>
        r[i].status == if items[i].url == p.url then p.status else items[i].status
    ensures var r := ApplyUpdate(items, p);
      forall i :: |items| <= i < |r| ==> r[i].url == p.url && r[i].status == p.status
  {
    var r := ApplyUpdate(items, p);
    match FindIndex(items, p.url)
    case Some(k) =>
      forall i | 0 <= i < |items| && items[i].url == p.url
        ensures i == k
      {
        assert Urls(items)[i] == Urls(items)[k];
      }
    case None =>
  }

  /** Over a stream of patches and with distinct URLs, every item ends with the
      status of the last patch naming its URL — or, when no patch does, the status
      it started with, pending for an appended one. */
  lemma {:induction false} ApplyAllStatus(items: seq<Item>, ps: seq<Patch>)
    requires UrlsDistinct(items)
    ensures var r := ApplyAll(items, ps);
      forall i :: 0 <= i < |r| ==>
        r[i].status == LastStatus(ps, r[i].url, if i < |items| then items[i].status else Pending)
    decreases |ps|
  {
    if |ps| > 0 {
      var p := ps[0];
      var next := ApplyUpdate(items, p);
      var r := ApplyAll(next, ps[1..]);
      assert r == ApplyAll(items, ps);
      ApplyUpdateStatus(items, p);
      ApplyUpdateKeepsDistinct(items, p);
      ApplyAllKeepsDistinct(next, ps[1..]);
      ApplyAllStatus(next, ps[1..]);
      forall i | 0 <= i < |r|
        ensures r[i].status == LastStatus(ps, r[i].url, if i < |items| then items[i].status else Pending)
      {
        StatusStep(items, p, next, r, i);
      }
    }
  }

  /** One step of ApplyAllStatus: the status an item carries into the rest of
      the stream is what the first patch leaves for its URL. */
  lemma StatusStep(items: seq<Item>, p: Patch, next: seq<Item>, r: seq<Item>, i: nat)
    requires UrlsDistinct(items) && next == ApplyUpdate(items, p)
    requires UrlsDistinct(r) && |r| >= |next| && Urls(r)[..|next|] == Urls(next)
    requires i < |r|
    ensures (if i < |next| then next[i].status else Pending)
      == (if p.url == r[i].url then p.status else if i < |items| then items[i].status else Pending)
  {
    ApplyUpdateStatus(items, p);
    if i < |next| {
      assert Urls(r)[i] == Urls(next)[i];
    } else {
      assert p.url in Urls(next);
      var k :| 0 <= k < |next| && Urls(next)[k] == p.url;
      assert Urls(r)[k] == Urls(next)[k];
    }
  }

  /** Every item a stream of patches appends holds a URL some patch named. */
  lemma {:induction false} ApplyAllAppended(items: seq<Item>, ps: seq<Patch>)
    ensures var r := ApplyAll(items, ps);
      forall i :: |items| <= i < |r| ==> r[i].url in PatchUrls(ps)
    decreases |ps|
  {
    if |ps| > 0 {
      var p := ps[0];
      var next := ApplyUpdate(items, p);
      var r := ApplyAll(next, ps[1..]);
      assert r == ApplyAll(items, ps);
      ApplyAllGrows(next, ps[1..]);
      ApplyAllAppended(next, ps[1..]);
      forall i | |items| <= i < |r|
        ensures r[i].url in PatchUrls(ps)
      {
        if i < |next| {
          assert p.url !in Urls(items) && i == |items|;
          assert Urls(r)[i] == Urls(next)[i] == p.url;
        } else {
          var j :| 0 <= j < |ps[1..]| && PatchUrls(ps[1..])[j] == r[i].url;
          assert PatchUrls(ps)[j + 1] == r[i].url;
        }
      }
    }
  }

  /** In any session, repeated URLs included, a stream of patches removes no
      item and moves no URL. */
  lemma {:induction false} ApplyAllGrows(items: seq<Item>, ps: seq<Patch>)
    ensures |ApplyAll(items, ps)| >= |items|
    ensures Urls(ApplyAll(items, ps))[..|items|] == Urls(items)
    decreases |ps|
  {
    if |ps| > 0 {
      var next := ApplyUpdate(items, ps[0]);
      ApplyAllGrows(next, ps[1..]);
      assert Urls(next)[..|items|] == Urls(items);
    }
  }

  /** The start-request failure handler: every item becomes an error carrying the
      generic message; order, URLs and all other fields are kept. */
  function FailStart(items: seq<Item>): (r: seq<Item>)
    ensures |r| == |items|
    ensures forall i :: 0 <= i < |r| ==> r[i].status == Error && r[i].error == Some(StartFailureMessage)
    ensures forall i :: 0 <= i < |r| ==> r[i].(status := items[i].status, error := items[i].error) == items[i]
    ensures Urls(r) == Urls(items)
  {
    seq(|items|, i requires 0 <= i < |items| => items[i].(status := Error, error := Some(StartFailureMessage)))
  }

  /** The URL list with repeats dropped: the first occurrence of each URL, in
      list order. */
  function Dedup(urls: seq<string>): (r: seq<string>)
    ensures Distinct(r)
    ensures forall u :: u in r <==> u in urls
    decreases |urls|
  {
    if |urls| == 0 then []
    else
      var d := Dedup(urls[..|urls| - 1]);
      var u := urls[|urls| - 1];
      assert forall v :: v in urls <==> v in urls[..|urls| - 1] || v == u by {
        assert urls == urls[..|urls| - 1] + [u];
      }
      if u in d then d else d + [u]
  }

  /** A list without repeats is left as it is. */
  lemma {:induction false} DedupKeepsDistinct(urls: seq<string>)
    requires Distinct(urls)
    ensures Dedup(urls) == urls
    decreases |urls|
  {
    if |urls| > 0 {
      var init := urls[..|urls| - 1];
      DedupKeepsDistinct(init);
      assert urls[|urls| - 1] !in init;
      assert init + [urls[|urls| - 1]] == urls;
    }
  }

  /** Deduplicating a longer list only adds at the end: the result for any prefix of
      the list is a prefix of the result for the whole list, so first occurrences keep
      their relative order. */
  lemma {:induction false} DedupPrefix(urls: seq<string>, k: nat)
    requires k <= |urls|
    ensures |Dedup(urls[..k])| <= |Dedup(urls)|
    ensures Dedup(urls[..k]) == Dedup(urls)[..|Dedup(urls[..k])|]
    decreases |urls|
  {
    if k < |urls| {
      var init := urls[..|urls| - 1];
      assert init[..k] == urls[..k];
      DedupPrefix(init, k);
    } else {
      assert urls[..k] == urls;
    }
  }

  /** Session start with repeated URLs collapsed to one item each: the same blank
      pending items as Initialise, but with pairwise distinct URLs, one for every
      requested URL. */
  function InitialiseUnique(urls: seq<string>): (items: seq<Item>)
    ensures UrlsDistinct(items)
    ensures forall u :: u in Urls(items) <==> u in urls
    ensures forall i :: 0 <= i < |items| ==> items[i] == PendingItem(items[i].url)
  {
    Initialise(Dedup(urls))
  }

  /** On a list without repeats the corrected start is the original one. */
  lemma InitialiseUniqueAgrees(urls: seq<string>)
    requires Distinct(urls)
    ensures InitialiseUnique(urls) == Initialise(urls)
  {
    DedupKeepsDistinct(urls);
  }
}
