/** Progress counters and the active/complete flags, derived from the session
    every time it changes (web/src/components/ScraperDashboard.tsx). */
module Aggregator {
  import opened Session

  datatype Stats = Stats(total: nat, completed: nat, failed: nat, inProgress: nat)

  const NoStats := Stats(0, 0, 0, 0)

  /** Statuses that mean the URL still awaits a result. */
  predicate InFlight(s: Status)
    ensures InFlight(s) <==> s != Success && s != Error
  {
    s == Pending || s == Scraping
  }

  /** One step of the reducer: count the item, then bump the counter its status selects. */
  function CountItem(acc: Stats, item: Item): Stats
  {
    var acc := acc.(total := acc.total + 1);
    match item.status
    case Success => acc.(completed := acc.completed + 1)
    case Error => acc.(failed := acc.failed + 1)
    case Scraping => acc.(inProgress := acc.inProgress + 1)
    case Pending => acc.(inProgress := acc.inProgress + 1)
  }

  /** The reduce over the session, left to right from all-zero counters. The
      counters always partition the total. */
  function Tally(items: seq<Item>): (st: Stats)
    ensures st.total == |items|
    ensures st.completed + st.failed + st.inProgress == st.total
    decreases |items|
  {
    if |items| == 0 then NoStats else CountItem(Tally(items[..|items| - 1]), items[|items| - 1])
  }

  function Statuses(items: seq<Item>): seq<Status>
  {
    seq(|items|, i requires 0 <= i < |items| => items[i].status)
  }

  lemma StatusesSplit(items: seq<Item>)
    requires |items| > 0
    ensures Statuses(items) == Statuses(items[..|items| - 1]) + [items[|items| - 1].status]
    ensures Statuses(items) == [items[0].status] + Statuses(items[1..])
  {
  }

  /** How many items have status `s`. */
  function Occurrences(items: seq<Item>, s: Status): nat
  {
    multiset(Statuses(items))[s]
  }

  /** Each counter is the number of items in the matching statuses. */
  lemma {:induction false} TallyCounts(items: seq<Item>)
    ensures Tally(items).completed == Occurrences(items, Success)
    ensures Tally(items).failed == Occurrences(items, Error)
    ensures Tally(items).inProgress == Occurrences(items, Pending) + Occurrences(items, Scraping)
    decreases |items|
  {
    if |items| > 0 {
      var init := items[..|items| - 1];
      var last := items[|items| - 1];
      TallyCounts(init);
      OccurrencesSnoc(items, Success);
      OccurrencesSnoc(items, Error);
      OccurrencesSnoc(items, Pending);
      OccurrencesSnoc(items, Scraping);
      assert Tally(items) == CountItem(Tally(init), last);
    }
  }

  lemma OccurrencesSnoc(items: seq<Item>, s: Status)
    requires |items| > 0
    ensures Occurrences(items, s)
      == Occurrences(items[..|items| - 1], s) + (if items[|items| - 1].status == s then 1 else 0)
  {
    StatusesSplit(items);
  }

  /** `some(item => pending or scraping)`: the flag that keeps the dashboard in
      scraping mode. */
  predicate IsActive(items: seq<Item>)
  {
    exists i :: 0 <= i < |items| && InFlight(items[i].status)
  }

  /** The results table's completion flag: nothing in flight and something there. */
  predicate IsComplete(items: seq<Item>)
  {
    !IsActive(items) && |items| > 0
  }

  /** The session is active exactly when the in-progress counter is positive. */
  lemma {:induction false} ActiveIffInProgress(items: seq<Item>)
    ensures IsActive(items) <==> Tally(items).inProgress > 0
    decreases |items|
  {
    if |items| > 0 {
      var init := items[..|items| - 1];
      ActiveIffInProgress(init);
      if IsActive(items) && !IsActive(init) {
        assert InFlight(items[|items| - 1].status);
      }
      if IsActive(init) {
        var i :| 0 <= i < |init| && InFlight(init[i].status);
        assert items[i] == init[i];
      }
    }
  }

  /** The session is complete exactly when it is non-empty and every item has
      reached success or error; an empty session is neither active nor complete. */
  lemma CompleteIffAllSettled(items: seq<Item>)
    ensures IsComplete(items) <==> Tally(items).total > 0 && Tally(items).completed + Tally(items).failed == Tally(items).total
    ensures |items| == 0 ==> !IsActive(items) && !IsComplete(items)
  {
    ActiveIffInProgress(items);
  }

  /** A fresh session counts every URL as in progress and is active when non-empty. */
  lemma InitialiseStats(urls: seq<string>)
    ensures Tally(Initialise(urls)) == Stats(|urls|, 0, 0, |urls|)
    ensures IsActive(Initialise(urls)) <==> |urls| > 0
  {
    var items := Initialise(urls);
    TallyCounts(items);
    ActiveIffInProgress(items);
    assert Statuses(items) == seq(|urls|, i => Pending);
    MultisetOfConstant(|urls|, Pending, Pending);
    MultisetOfConstant(|urls|, Pending, Scraping);
    MultisetOfConstant(|urls|, Pending, Success);
    MultisetOfConstant(|urls|, Pending, Error);
  }

  lemma {:induction false} MultisetOfConstant(n: nat, s: Status, t: Status)
    ensures multiset(seq(n, i => s))[t] == if t == s then n else 0
  {
    if n > 0 {
      MultisetOfConstant(n - 1, s, t);
      assert seq(n, i => s) == seq(n - 1, i => s) + [s];
    }
  }

  /** After a start failure every item counts as failed and nothing is active. */
  lemma FailStartStats(items: seq<Item>)
    ensures Tally(FailStart(items)) == Stats(|items|, 0, |items|, 0)
    ensures !IsActive(FailStart(items))
  {
    var r := FailStart(items);
    TallyCounts(r);
    assert Statuses(r) == seq(|items|, i => Error);
    MultisetOfConstant(|items|, Error, Pending);
    MultisetOfConstant(|items|, Error, Scraping);
    MultisetOfConstant(|items|, Error, Success);
    MultisetOfConstant(|items|, Error, Error);
    ActiveIffInProgress(r);
  }
}
