/** The dashboard as a whole (web/src/components/ScraperDashboard.tsx): the session
    driven by a stream of events — a scrape started from the URL box, the start
    request failing, and status patches from the push channel — together with the
    flags and counters derived after each event. */
module Dashboard {
  import opened Wrappers
  import opened Text
  import opened Session
  import opened Aggregator
  import opened Export
  import opened UrlInput

  datatype Event = Start(urls: seq<string>) | StartFailed | Update(patch: Patch)

  /** One event. A start replaces the session outright (with repeated URLs
      collapsed, see Initialise and InitialiseUnique); a failed start request marks
      every item failed; a patch is merged or appended. */
  function Step(items: seq<Item>, e: Event): seq<Item>
  {
    match e
    case Start(urls) => InitialiseUnique(urls)
    case StartFailed => FailStart(items)
    case Update(p) => ApplyUpdate(items, p)
  }

  function Run(items: seq<Item>, events: seq<Event>): seq<Item>
    decreases |events|
  {
    if |events| == 0 then items else Run(Step(items, events[0]), events[1..])
  }

  /** No sequence of starts, failures and patches ever puts two items with the same
      URL in the session. */
  lemma {:induction false} RunKeepsDistinct(items: seq<Item>, events: seq<Event>)
    requires UrlsDistinct(items)
    ensures UrlsDistinct(Run(items, events))
    decreases |events|
  {
    if |events| > 0 {
      var next := Step(items, events[0]);
      if events[0].StartFailed? {
        assert Urls(next) == Urls(items);
      } else if events[0].Update? {
        ApplyUpdateKeepsDistinct(items, events[0].patch);
      }
      RunKeepsDistinct(next, events[1..]);
    }
  }

  predicate Settled(s: Status)
  {
    s == Success || s == Error
  }

  /** From an all-pending session, every item ends with the status of the last
      patch naming its URL, and holds a URL that was in the session or in the
      stream. */
  lemma FromPendingStatus(items: seq<Item>, ps: seq<Patch>)
    requires UrlsDistinct(items)
    requires forall i :: 0 <= i < |items| ==> items[i].status == Pending
    ensures |ApplyAll(items, ps)| >= |items|
    ensures var r := ApplyAll(items, ps);
      forall i :: 0 <= i < |r| ==>
        r[i].status == LastStatus(ps, r[i].url, Pending)
        && (r[i].url in Urls(items) || r[i].url in PatchUrls(ps))
  {
    var r := ApplyAll(items, ps);
    ApplyAllStatus(items, ps);
    ApplyAllAppended(items, ps);
    ApplyAllKeepsDistinct(items, ps);
    forall i | 0 <= i < |r|
      ensures r[i].status == LastStatus(ps, r[i].url, Pending)
      ensures r[i].url in Urls(items) || r[i].url in PatchUrls(ps)
    {
      if i < |items| {
        assert Urls(r)[i] == Urls(items)[i];
      }
    }
  }

  /** With repeated URLs collapsed, a scrape completes once the stream has left
      every requested URL, and every URL it named at all, with a final status:
      nothing stays in flight and the results become downloadable. Intermediate
      `scraping` patches may come before the final ones. */
  lemma {:induction false} UniqueStartCompletes(urls: seq<string>, ps: seq<Patch>)
    requires |urls| > 0
    requires forall u :: u in urls ==> Settled(LastStatus(ps, u, Pending))
    requires forall j :: 0 <= j < |ps| ==> Settled(LastStatus(ps, ps[j].url, Pending))
    ensures IsComplete(ApplyAll(InitialiseUnique(urls), ps))
  {
    var items := InitialiseUnique(urls);
    var r := ApplyAll(items, ps);
    FromPendingStatus(items, ps);
    assert urls[0] in Urls(items);
    forall i | 0 <= i < |r|
      ensures !InFlight(r[i].status)
    {
      var u := r[i].url;
      if u !in Urls(items) {
        var j :| 0 <= j < |ps| && PatchUrls(ps)[j] == u;
      }
    }
  }

  /** The start handler as written: a URL typed twice yields two items with the
      same URL; every patch for it lands on the first (findIndex), so the second
      stays pending whatever arrives, and the session never completes. */
  lemma {:induction false} DuplicateStartNeverCompletes(u: string, ps: seq<Patch>)
    ensures var r := ApplyAll(Initialise([u, u]), ps);
      |r| >= 2 && r[1] == PendingItem(u) && IsActive(r) && !IsComplete(r)
  {
    DuplicateStays(Initialise([u, u]), u, ps);
    var r := ApplyAll(Initialise([u, u]), ps);
    assert InFlight(r[1].status);
  }

  lemma {:induction false} DuplicateStays(items: seq<Item>, u: string, ps: seq<Patch>)
    requires |items| >= 2 && items[0].url == u && items[1] == PendingItem(u)
    ensures var r := ApplyAll(items, ps);
      |r| >= 2 && r[0].url == u && r[1] == PendingItem(u)
    decreases |ps|
  {
    if |ps| > 0 {
      var p := ps[0];
      var next := ApplyUpdate(items, p);
      if p.url == u {
        assert FindIndex(items, u) == Some(0);
      }
      DuplicateStays(next, u, ps[1..]);
    }
  }

  /** After a failed start the URL box is usable again: the start button is
      enabled exactly when the text holds something other than whitespace. */
  lemma FailedStartReenablesInput(items: seq<Item>, text: string)
    ensures SubmitEnabled(text, IsActive(FailStart(items))) <==> !AllSpace(text)
  {
    FailStartStats(items);
    TrimEmptyIffAllSpace(text);
  }

  lemma RunTwo(items: seq<Item>, e1: Event, e2: Event)
    ensures Run(items, [e1, e2]) == Step(Step(items, e1), e2)
  {
    var s1 := Step(items, e1);
    calc {
      Run(items, [e1, e2]);
      { assert [e1, e2][1..] == [e2]; }
      Run(s1, [e2]);
      { assert [e2][1..] == []; }
      Run(Step(s1, e2), []);
    }
  }

  const UrlA: string := "https://a.test"
  const UrlB: string := "https://b.test"

  /** A start for two URLs: two items, both counted in progress, session active. */
  lemma ScenarioStart()
    ensures var r := Run([], [Start([UrlA, UrlB])]);
      Tally(r) == Stats(2, 0, 0, 2) && IsActive(r)
  {
    assert UrlA != UrlB by { assert UrlA[8] != UrlB[8]; }
    InitialiseUniqueAgrees([UrlA, UrlB]);
    InitialiseStats([UrlA, UrlB]);
  }

  function SuccessA(): Patch
  {
    Patch(UrlA, Success, Some("A"), None, Some(Headings(["x"], [])), Some(5), Some("T"), None)
  }

  function ItemA(): Item
  {
    Merge(PendingItem(UrlA), SuccessA())
  }

  /** A success patch for the first URL: it is merged into that URL's item, the
      other item is untouched, and the counters show one completed and one in
      progress. */
  lemma ScenarioSuccess()
    ensures var r := Run([], [Start([UrlA, UrlB]), Update(SuccessA())]);
      r == [ItemA(), PendingItem(UrlB)] && Tally(r) == Stats(2, 1, 0, 1)
  {
    assert UrlA != UrlB by { assert UrlA[8] != UrlB[8]; }
    InitialiseUniqueAgrees([UrlA, UrlB]);
    var s := Initialise([UrlA, UrlB]);
    assert FindIndex(s, UrlA) == Some(0);
    var r := ApplyUpdate(s, SuccessA());
    assert r == [ItemA(), PendingItem(UrlB)];
    RunTwo([], Start([UrlA, UrlB]), Update(SuccessA()));
    TallyCounts(r);
    assert Statuses(r) == [Success, Pending];
  }

  /** The start request fails before any patch: the only item is an error and
      nothing is active. */
  lemma ScenarioStartFailure()
    ensures var r := Run([], [Start([UrlA]), StartFailed]);
      |r| == 1 && r[0].status == Error && r[0].error == Some(StartFailureMessage) && !IsActive(r)
  {
    InitialiseUniqueAgrees([UrlA]);
    RunTwo([], Start([UrlA]), StartFailed);
  }

  lemma OnlyItemASucceeded()
    ensures Successful([ItemA(), PendingItem(UrlB)]) == [ItemA()]
  {
    var r := [ItemA(), PendingItem(UrlB)];
    assert ItemA().status == Success;
    calc {
      Successful(r);
      [ItemA()] + Successful(r[1..]);
      { assert r[1..] == [PendingItem(UrlB)]; }
      [ItemA()] + Successful([PendingItem(UrlB)]);
      { assert [PendingItem(UrlB)][1..] == []; }
      [ItemA()] + Successful([]);
    }
  }

  lemma SmallDecimals()
    ensures IntToDecimal(1) == "1" && IntToDecimal(0) == "0"
  {
    assert DigitChar(1) == '1';
    assert DigitChar(0) == '0';
  }

  /** Downloading after the success patch: the header and the one successful
      row, whose heading cells count one h1 and no h2. */
  lemma ScenarioExport()
    ensures Lines(Run([], [Start([UrlA, UrlB]), Update(SuccessA())])) == [HeaderLine(), Row(ItemA())]
    ensures Cells(ItemA())[3] == "1" && Cells(ItemA())[4] == "0"
  {
    ScenarioSuccess();
    OnlyItemASucceeded();
    assert Rows([ItemA()]) == [Row(ItemA())];
    SmallDecimals();
  }

  function ScrapingA(): Patch
  {
    Patch(UrlA, Scraping, None, None, None, None, None, None)
  }

  lemma LastStatusOfStream()
    ensures LastStatus([ScrapingA(), SuccessA()], UrlA, Pending) == Success
  {
    var ps := [ScrapingA(), SuccessA()];
    calc {
      LastStatus(ps, UrlA, Pending);
      { assert ps[1..] == [SuccessA()]; }
      LastStatus([SuccessA()], UrlA, Scraping);
      { assert [SuccessA()][1..] == []; }
      LastStatus([], UrlA, Success);
    }
  }

  /** The stream the server actually sends for one URL — `scraping`, then
      `success` — completes a corrected one-URL session. */
  lemma ScenarioStreamCompletes()
    ensures IsComplete(ApplyAll(InitialiseUnique([UrlA]), [ScrapingA(), SuccessA()]))
  {
    var ps := [ScrapingA(), SuccessA()];
    LastStatusOfStream();
    assert forall j :: 0 <= j < |ps| ==> ps[j].url == UrlA;
    UniqueStartCompletes([UrlA], ps);
  }
}
