/** The URL text area: turning its text into the list of URLs to scrape, the
    URL counter under it and the enabled state of the start button
    (web/src/components/URLInput.tsx). */
module UrlInput {
  import opened Wrappers
  import opened Text

  function TrimEach(lines: seq<string>): (r: seq<string>)
    ensures |r| == |lines|
    ensures forall i :: 0 <= i < |lines| ==> r[i] == Trim(lines[i])
  {
    seq(|lines|, i requires 0 <= i < |lines| => Trim(lines[i]))
  }

  /** `filter(url => url.length > 0)`: the non-empty strings, in order. */
  function DropEmpty(xs: seq<string>): (r: seq<string>)
    ensures forall i :: 0 <= i < |r| ==> r[i] != []
    decreases |xs|
  {
    if |xs| == 0 then []
    else (if xs[0] == [] then [] else [xs[0]]) + DropEmpty(xs[1..])
  }

  /** Filtering distributes over concatenation: it keeps order. */
  lemma {:induction false} DropEmptyAppend(a: seq<string>, b: seq<string>)
    ensures DropEmpty(a + b) == DropEmpty(a) + DropEmpty(b)
    decreases |a|
  {
    if |a| > 0 {
      var head := if a[0] == [] then [] else [a[0]];
      calc {
        DropEmpty(a + b);
        { assert (a + b)[0] == a[0]; assert (a + b)[1..] == a[1..] + b; }
        head + DropEmpty(a[1..] + b);
        { DropEmptyAppend(a[1..], b); }
        head + (DropEmpty(a[1..]) + DropEmpty(b));
        DropEmpty(a) + DropEmpty(b);
      }
    } else {
      assert a + b == b;
    }
  }

  /** Nothing survives the filter exactly when every string is empty. */
  lemma {:induction false} DropEmptyNone(xs: seq<string>)
    ensures DropEmpty(xs) == [] <==> forall i :: 0 <= i < |xs| ==> xs[i] == []
    decreases |xs|
  {
    if |xs| > 0 {
      DropEmptyNone(xs[1..]);
      if forall i :: 0 <= i < |xs[1..]| ==> xs[1..][i] == [] {
        if xs[0] == [] {
          forall i | 0 <= i < |xs| ensures xs[i] == [] {
            if i > 0 { assert xs[i] == xs[1..][i - 1]; }
          }
        }
      } else {
        var i :| 0 <= i < |xs[1..]| && xs[1..][i] != [];
        assert xs[i + 1] != [];
      }
    }
  }

  /** handleSubmit's list: the text split at newlines, each line trimmed, empty
      lines dropped. */
  function ParseUrls(text: string): seq<string>
  {
    DropEmpty(TrimEach(Split(text, '\n')))
  }

  /** Every submitted URL is non-empty and has no leading or trailing whitespace. */
  lemma ParsedUrlsTrimmed(text: string)
    ensures forall i :: 0 <= i < |ParseUrls(text)| ==> ParseUrls(text)[i] != []
    ensures forall i :: 0 <= i < |ParseUrls(text)| ==>
      !IsSpace(ParseUrls(text)[i][0]) && !IsSpace(ParseUrls(text)[i][|ParseUrls(text)[i]| - 1])
  {
    var ts := TrimEach(Split(text, '\n'));
    forall i | 0 <= i < |ts| ensures ts[i] == [] || (!IsSpace(ts[i][0]) && !IsSpace(ts[i][|ts[i]| - 1])) {
    }
    DropEmptyTrimmed(ts);
  }

  lemma {:induction false} DropEmptyTrimmed(xs: seq<string>)
    requires forall i :: 0 <= i < |xs| ==> xs[i] == [] || (!IsSpace(xs[i][0]) && !IsSpace(xs[i][|xs[i]| - 1]))
    ensures forall i :: 0 <= i < |DropEmpty(xs)| ==>
      !IsSpace(DropEmpty(xs)[i][0]) && !IsSpace(DropEmpty(xs)[i][|DropEmpty(xs)[i]| - 1])
    decreases |xs|
  {
    if |xs| > 0 {
      DropEmptyTrimmed(xs[1..]);
    }
  }

  /** A single line gives its trimmed text, or nothing when it is blank. */
  lemma ParseLine(line: string)
    requires '\n' !in line
    ensures ParseUrls(line) == if Trim(line) == [] then [] else [Trim(line)]
  {
    SplitNoSeparator(line, '\n');
    var t := Trim(line);
    assert TrimEach([line]) == [t];
    DropEmptySingle(t);
  }

  /** Lines are read in order: the URLs of two blocks of lines joined by a newline
      are the URLs of the first block followed by those of the second. */
  lemma ParseConcat(a: string, b: string)
    ensures ParseUrls(a + "\n" + b) == ParseUrls(a) + ParseUrls(b)
  {
    SplitConcat(a, '\n', b);
    var la := Split(a, '\n');
    var lb := Split(b, '\n');
    TrimEachAppend(la, lb);
    DropEmptyAppend(TrimEach(la), TrimEach(lb));
  }

  lemma TrimEachAppend(a: seq<string>, b: seq<string>)
    ensures TrimEach(a + b) == TrimEach(a) + TrimEach(b)
  {
  }

  /** handleSubmit: the start callback receives the parsed list, and is invoked
      only when that list is non-empty. */
  function HandleSubmit(text: string): (started: Option<seq<string>>)
    ensures started.Some? <==> ParseUrls(text) != []
    ensures started.Some? ==> started.value == ParseUrls(text)
  {
    var urls := ParseUrls(text);
    if |urls| > 0 then Some(urls) else None
  }

  /** The lines kept by the counter's `filter(u => u.trim())`: those whose trimmed
      form is non-empty, untrimmed. */
  function NonBlankLines(lines: seq<string>): seq<string>
    decreases |lines|
  {
    if |lines| == 0 then []
    else (if Trim(lines[0]) == [] then [] else [lines[0]]) + NonBlankLines(lines[1..])
  }

  /** The "N URLs" label under the text area. */
  function UrlCount(text: string): nat
  {
    |NonBlankLines(Split(text, '\n'))|
  }

  /** Keeping the non-blank lines then trimming them is trimming every line then
      dropping the empty results. */
  lemma {:induction false} NonBlankTrimmed(lines: seq<string>)
    ensures TrimEach(NonBlankLines(lines)) == DropEmpty(TrimEach(lines))
    decreases |lines|
  {
    if |lines| > 0 {
      var rest := lines[1..];
      var t := Trim(lines[0]);
      var head := if t == [] then [] else [lines[0]];
      var kept := if t == [] then [] else [t];
      calc {
        TrimEach(NonBlankLines(lines));
        TrimEach(head + NonBlankLines(rest));
        { TrimEachAppend(head, NonBlankLines(rest)); }
        TrimEach(head) + TrimEach(NonBlankLines(rest));
        { TrimEachSingle(lines[0]); NonBlankTrimmed(rest); }
        kept + DropEmpty(TrimEach(rest));
        { DropEmptySingle(t); DropEmptyAppend([t], TrimEach(rest)); }
        DropEmpty([t] + TrimEach(rest));
        { TrimEachCons(lines); }
        DropEmpty(TrimEach(lines));
      }
    }
  }

  lemma TrimEachSingle(x: string)
    ensures TrimEach(if Trim(x) == [] then [] else [x]) == if Trim(x) == [] then [] else [Trim(x)]
  {
  }

  lemma TrimEachCons(lines: seq<string>)
    requires |lines| > 0
    ensures TrimEach(lines) == [Trim(lines[0])] + TrimEach(lines[1..])
  {
    var l := TrimEach(lines);
    var r := [Trim(lines[0])] + TrimEach(lines[1..]);
    forall i | 0 <= i < |l| ensures l[i] == r[i] {
      if i > 0 { assert lines[1..][i - 1] == lines[i]; }
    }
  }

  lemma DropEmptySingle(t: string)
    ensures DropEmpty([t]) == if t == [] then [] else [t]
  {
    assert [t][1..] == [];
  }

  /** The displayed count is the number of URLs a submit would send. */
  lemma UrlCountMatchesSubmit(text: string)
    ensures UrlCount(text) == |ParseUrls(text)|
  {
    NonBlankTrimmed(Split(text, '\n'));
  }

  /** The start button: disabled while scraping or when the whole text trims to empty. */
  function SubmitEnabled(text: string, isDisabled: bool): bool
  {
    !(isDisabled || Trim(text) == [])
  }

  /** The text yields no URL exactly when it is all whitespace. */
  lemma ParseEmptyIffBlank(text: string)
    ensures ParseUrls(text) == [] <==> AllSpace(text)
  {
    var lines := Split(text, '\n');
    var trimmed := TrimEach(lines);
    DropEmptyNone(trimmed);
    JoinSplit(text, '\n');
    assert IsSpace('\n');
    AllSpaceJoin(lines, '\n');
    forall i | 0 <= i < |lines| ensures trimmed[i] == [] <==> AllSpace(lines[i]) {
      TrimEmptyIffAllSpace(lines[i]);
    }
  }

  /** Whenever the text area is not disabled, the start button is enabled exactly
      when pressing it starts a scrape. */
  lemma SubmitEnabledIffStarts(text: string, isDisabled: bool)
    ensures SubmitEnabled(text, isDisabled) <==> !isDisabled && HandleSubmit(text).Some?
  {
    ParseEmptyIffBlank(text);
    TrimEmptyIffAllSpace(text);
  }
}
