/** The dashboard's download: the successful items, and the CSV text built from
    them (downloadResults in web/src/components/ScraperDashboard.tsx). The JSON
    download is the same filtered list handed to JSON.stringify. */
module Export {
  import opened Text
  import opened Session
  import opened Aggregator

  const HeaderCells: seq<string> := ["URL", "Title", "Description", "H1 Count", "H2 Count", "Links", "Scraped At"]

  /** `filter(d => d.status === 'success')`: the successful items, in session order. */
  function Successful(items: seq<Item>): (r: seq<Item>)
    ensures forall i :: 0 <= i < |r| ==> r[i].status == Success
    decreases |items|
  {
    if |items| == 0 then []
    else (if items[0].status == Success then [items[0]] else []) + Successful(items[1..])
  }

  /** The export holds every successful item of the session and nothing else. */
  lemma {:induction false} SuccessfulMembers(items: seq<Item>)
    ensures forall it :: it in Successful(items) <==> it in items && it.status == Success
    decreases |items|
  {
    if |items| > 0 {
      SuccessfulMembers(items[1..]);
      assert items == [items[0]] + items[1..];
    }
  }

  /** Filtering distributes over concatenation, so the export keeps session order. */
  lemma {:induction false} SuccessfulAppend(a: seq<Item>, b: seq<Item>)
    ensures Successful(a + b) == Successful(a) + Successful(b)
    decreases |a|
  {
    if |a| > 0 {
      SuccessfulAppend(a[1..], b);
      assert (a + b)[1..] == a[1..] + b;
    } else {
      assert a + b == b;
    }
  }

  /** As many rows are exported as the completed counter shows. */
  lemma SuccessfulCount(items: seq<Item>)
    ensures |Successful(items)| == Tally(items).completed
  {
    TallyCounts(items);
    SuccessfulOccurrences(items);
  }

  lemma {:induction false} SuccessfulOccurrences(items: seq<Item>)
    ensures |Successful(items)| == Occurrences(items, Success)
    decreases |items|
  {
    if |items| > 0 {
      SuccessfulOccurrences(items[1..]);
      StatusesSplit(items);
    }
  }

  /** The template literal `"${cell}"`: the cell between double quotes, with no escaping. */
  function Quote(cell: string): string
  {
    "\"" + cell + "\""
  }

  /** The seven cells of an item's row: heading cells are list lengths, not texts. */
  function Cells(d: Item): seq<string>
  {
    [d.url, d.title, d.description,
     IntToDecimal(|d.headings.h1|), IntToDecimal(|d.headings.h2|), IntToDecimal(d.links),
     d.scrapedAt]
  }

  function QuoteAll(cells: seq<string>): (q: seq<string>)
    ensures |q| == |cells|
    ensures forall i :: 0 <= i < |cells| ==> q[i] == Quote(cells[i])
  {
    seq(|cells|, i requires 0 <= i < |cells| => Quote(cells[i]))
  }

  function HeaderLine(): string
  {
    Join(HeaderCells, ",")
  }

  function Row(d: Item): string
  {
    Join(QuoteAll(Cells(d)), ",")
  }

  function Rows(s: seq<Item>): (rs: seq<string>)
    ensures |rs| == |s|
    ensures forall k :: 0 <= k < |s| ==> rs[k] == Row(s[k])
  {
    seq(|s|, k requires 0 <= k < |s| => Row(s[k]))
  }

  /** The lines of the CSV text: the header, then one row per successful item. */
  function Lines(items: seq<Item>): (lines: seq<string>)
    ensures |lines| == 1 + Tally(items).completed
    ensures lines[0] == HeaderLine()
  {
    SuccessfulCount(items);
    [HeaderLine()] + Rows(Successful(items))
  }

  /** The CSV download's text: the lines joined by newlines. */
  function CsvText(items: seq<Item>): string
  {
    Join(Lines(items), "\n")
  }

  /** The header line's comma-separated fields are exactly the seven column names. */
  lemma HeaderFields()
    ensures Split(HeaderLine(), ',') == ["URL", "Title", "Description", "H1 Count", "H2 Count", "Links", "Scraped At"]
  {
    forall i | 0 <= i < |HeaderCells| ensures ',' !in HeaderCells[i] {
      HeaderCellFree(i);
    }
    SplitJoin(HeaderCells, ',');
  }

  lemma HeaderCellFree(i: nat)
    requires i < |HeaderCells|
    ensures ',' !in HeaderCells[i] && '\n' !in HeaderCells[i]
  {
  }

  /** No text cell of an item holds `c`. */
  predicate TextCellsFree(d: Item, c: char)
  {
    c !in d.url && c !in d.title && c !in d.description && c !in d.scrapedAt
  }

  lemma DecimalFree(n: int, c: char)
    requires c == '\n' || c == ',' || c == '"'
    ensures c !in IntToDecimal(n)
  {
  }

  lemma RowFree(d: Item, c: char)
    requires c == '\n' || c == ','
    requires TextCellsFree(d, c)
    ensures forall i :: 0 <= i < 7 ==> c !in QuoteAll(Cells(d))[i]
  {
    DecimalFree(|d.headings.h1|, c);
    DecimalFree(|d.headings.h2|, c);
    DecimalFree(d.links, c);
  }

  /** Every exported item's text cells are free of newlines. */
  predicate NoNewlines(items: seq<Item>)
  {
    forall i :: 0 <= i < |items| && items[i].status == Success ==> TextCellsFree(items[i], '\n')
  }

  /** The text's newline-separated lines are exactly the header followed by one
      row per successful item, as long as no exported text cell itself holds a
      newline (cells are not escaped). */
  lemma CsvLayout(items: seq<Item>)
    requires NoNewlines(items)
    ensures Split(CsvText(items), '\n') == Lines(items)
    ensures |Split(CsvText(items), '\n')| == 1 + Tally(items).completed
  {
    LinesFree(items);
    SplitJoin(Lines(items), '\n');
    SuccessfulCount(items);
  }

  lemma LinesFree(items: seq<Item>)
    requires NoNewlines(items)
    ensures forall k :: 0 <= k < |Lines(items)| ==> '\n' !in Lines(items)[k]
  {
    var s := Successful(items);
    SuccessfulFree(items);
    RowsFree(s);
    HeaderFree();
  }

  lemma SuccessfulFree(items: seq<Item>)
    requires NoNewlines(items)
    ensures forall k :: 0 <= k < |Successful(items)| ==> TextCellsFree(Successful(items)[k], '\n')
  {
    var s := Successful(items);
    SuccessfulMembers(items);
    forall k | 0 <= k < |s| ensures TextCellsFree(s[k], '\n') {
      assert s[k] in items;
    }
  }

  lemma RowsFree(s: seq<Item>)
    requires forall k :: 0 <= k < |s| ==> TextCellsFree(s[k], '\n')
    ensures forall k :: 0 <= k < |Rows(s)| ==> '\n' !in Rows(s)[k]
  {
    forall k | 0 <= k < |s| ensures '\n' !in Row(s[k]) {
      RowFree(s[k], '\n');
      JoinFree(QuoteAll(Cells(s[k])), ",", '\n');
    }
  }

  lemma HeaderFree()
    ensures '\n' !in HeaderLine()
  {
    forall i | 0 <= i < |HeaderCells| ensures '\n' !in HeaderCells[i] {
      HeaderCellFree(i);
    }
    JoinFree(HeaderCells, ",", '\n');
  }

  /** A join of pieces free of `c` with a separator free of `c` is free of `c`. */
  lemma {:induction false} JoinFree(parts: seq<string>, sep: string, c: char)
    requires c !in sep
    requires forall i :: 0 <= i < |parts| ==> c !in parts[i]
    ensures c !in Join(parts, sep)
    decreases |parts|
  {
    if |parts| > 1 {
      JoinFree(parts[1..], sep, c);
    }
  }

  /** A row's comma-separated fields are the seven quoted cells, as long as no text
      cell holds a comma; the numeric cells read back as the heading counts and
      the link count. */
  lemma RowCells(d: Item)
    requires TextCellsFree(d, ',')
    ensures Split(Row(d), ',') == QuoteAll(Cells(d))
    ensures |Split(Row(d), ',')| == 7
    ensures ParseInt(Cells(d)[3]) == |d.headings.h1|
    ensures ParseInt(Cells(d)[4]) == |d.headings.h2|
    ensures ParseInt(Cells(d)[5]) == d.links
  {
    RowFree(d, ',');
    SplitJoin(QuoteAll(Cells(d)), ',');
    DecimalRoundTrip(|d.headings.h1|);
    DecimalRoundTrip(|d.headings.h2|);
    DecimalRoundTrip(d.links);
  }

  /** With nothing successful the download is the header line alone. */
  lemma EmptyExport(items: seq<Item>)
    requires Tally(items).completed == 0
    ensures CsvText(items) == HeaderLine()
  {
    SuccessfulCount(items);
  }
}
