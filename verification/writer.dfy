/** The command-line tool's output writers (internal/writer): output path
    normalisation for both writers and the rows the CSV writer hands to the CSV
    encoder. */
module Writer {
  import opened Text

  const CsvExtension: string := ".csv"
  const JsonExtension: string := ".json"
  const HeadingSeparator: string := " | "

  /** Append `ext` unless the path already ends with it. */
  function EnsureSuffix(path: string, ext: string): (r: string)
    ensures HasSuffix(r, ext)
    ensures HasSuffix(path, ext) ==> r == path
    ensures !HasSuffix(path, ext) ==> r == path + ext
  {
    if HasSuffix(path, ext) then path else path + ext
  }

  /** NewCSVWriter's file path: always ends in ".csv", unchanged if it already did. */
  function CsvPath(path: string): (r: string)
    ensures HasSuffix(r, CsvExtension)
    ensures HasSuffix(path, CsvExtension) ==> r == path
    ensures !HasSuffix(path, CsvExtension) ==> r == path + CsvExtension
  {
    EnsureSuffix(path, CsvExtension)
  }

  /** NewJSONWriter's file path: always ends in ".json", unchanged if it already did. */
  function JsonPath(path: string): (r: string)
    ensures HasSuffix(r, JsonExtension)
    ensures HasSuffix(path, JsonExtension) ==> r == path
    ensures !HasSuffix(path, JsonExtension) ==> r == path + JsonExtension
  {
    EnsureSuffix(path, JsonExtension)
  }

  /** Normalising a path twice is normalising it once. */
  lemma CsvPathIdempotent(path: string)
    ensures CsvPath(CsvPath(path)) == CsvPath(path)
  {
  }

  lemma JsonPathIdempotent(path: string)
    ensures JsonPath(JsonPath(path)) == JsonPath(path)
  {
  }

  /** The suffix is appended at most once: the normalised path is the original
      one, or the original with one extension added, and it keeps the original
      as a prefix. */
  lemma EnsureSuffixOnce(path: string, ext: string)
    ensures |EnsureSuffix(path, ext)| <= |path| + |ext|
    ensures EnsureSuffix(path, ext)[..|path|] == path
  {
  }

  /** The record the scraper produces (models.ScrapedData); `scrapedAt` is the
      timestamp already formatted as text. */
  datatype Record = Record(
    url: string,
    title: string,
    metaDescription: string,
    h1: seq<string>,
    h2: seq<string>,
    linksCount: int,
    scrapedAt: string)

  const Header: seq<string> := ["URL", "Title", "Description", "H1s", "H2s", "Links", "ScrapedAt"]

  /** A heading list as one cell: the texts joined with " | ". */
  function HeadingCell(headings: seq<string>): string
  {
    Join(headings, HeadingSeparator)
  }

  function Row(d: Record): seq<string>
  {
    [d.url, d.title, d.metaDescription, HeadingCell(d.h1), HeadingCell(d.h2), IntToDecimal(d.linksCount), d.scrapedAt]
  }

  /** The rows Write hands to the CSV encoder: the header, then one row per record
      in input order, every row seven cells wide. */
  function Rows(data: seq<Record>): (rows: seq<seq<string>>)
    ensures |rows| == |data| + 1
    ensures rows[0] == Header
    ensures forall i :: 0 <= i < |rows| ==> |rows[i]| == 7
    ensures forall i :: 0 <= i < |data| ==> rows[i + 1] == Row(data[i])
  {
    [Header] + seq(|data|, i requires 0 <= i < |data| => Row(data[i]))
  }

  /** Each data row carries the record's texts, its headings joined (not counted),
      and a links cell that reads back as the links count. */
  lemma RowCells(d: Record)
    ensures Row(d)[0] == d.url && Row(d)[1] == d.title && Row(d)[2] == d.metaDescription
    ensures Row(d)[6] == d.scrapedAt
    ensures ParseInt(Row(d)[5]) == d.linksCount
    ensures d.h1 == [] ==> Row(d)[3] == ""
    ensures d.h2 == [] ==> Row(d)[4] == ""
  {
    DecimalRoundTrip(d.linksCount);
  }

  /** Joining headings: none gives the empty cell, one gives its text, and two
      lists glue with one separator between them. */
  lemma HeadingCellLaws(xs: seq<string>, ys: seq<string>)
    ensures HeadingCell([]) == ""
    ensures |xs| == 1 ==> HeadingCell(xs) == xs[0]
    ensures |xs| >= 1 && |ys| >= 1 ==> HeadingCell(xs + ys) == HeadingCell(xs) + HeadingSeparator + HeadingCell(ys)
  {
    if |xs| >= 1 && |ys| >= 1 {
      JoinAppend(xs, ys, HeadingSeparator);
    }
  }

  /** Writing more records only adds rows: rows for `a + b` are rows for `a` followed
      by the data rows for `b`. */
  lemma RowsAppend(a: seq<Record>, b: seq<Record>)
    ensures Rows(a + b) == Rows(a) + Rows(b)[1..]
  {
    var l := Rows(a + b);
    var r := Rows(a) + Rows(b)[1..];
    forall i | 0 <= i < |l| ensures l[i] == r[i] {
      if i > |a| {
        assert (a + b)[i - 1] == b[i - 1 - |a|];
      }
    }
  }
}
