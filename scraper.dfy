/** The page fetcher of src/extractor/scraper.py. A browser attempt is the parameter `load`
    (the page HTML after noise removal, or the error raised), and the HTML-to-Markdown
    conversion is the parameter `toMarkdown`; the fallback over load strategies and the
    blank-line filter are modelled as the source has them. */
module Scraper {
  import opened Wrappers
  import opened Text

  /** A page-load completion condition and its timeout in milliseconds. */
  datatype Strategy = Strategy(waitUntil: string, timeoutMs: nat, description: string)

  const Strategies: seq<Strategy> := [
    Strategy("networkidle", 60000, "network idle"),
    Strategy("domcontentloaded", 45000, "DOM content loaded"),
    Strategy("load", 45000, "page load")
  ]

  /** The strategies, in the order they are tried, with their completion conditions and timeouts. */
  lemma StrategyOrder()
    ensures |Strategies| == 3
    ensures Strategies[0].waitUntil == "networkidle" && Strategies[0].timeoutMs == 60000
    ensures Strategies[1].waitUntil == "domcontentloaded" && Strategies[1].timeoutMs == 45000
    ensures Strategies[2].waitUntil == "load" && Strategies[2].timeoutMs == 45000
  {
  }

  /** The outcome of one attempt with one strategy. */
  datatype Attempt = Loaded(html: string) | Raised(error: string)

  /** The error `scrape_and_clean` raises when every strategy failed; it ends with the
      last strategy's error. */
  function AllFailed(lastError: string): (message: string)
    ensures |lastError| < |message| && message[|message| - |lastError|..] == lastError
  {
    "All strategies failed. Last error: " + lastError
  }

  /** The position of the first strategy, at `from` or later, whose attempt loads the page. */
  function FirstLoadedFrom(url: string, load: (string, Strategy) -> Attempt, from: nat): (k: Option<nat>)
    requires from <= |Strategies|
    decreases |Strategies| - from
    ensures k.Some? ==> from <= k.value < |Strategies| && load(url, Strategies[k.value]).Loaded?
    ensures k.Some? ==> forall i :: from <= i < k.value ==> load(url, Strategies[i]).Raised?
    ensures k.None? <==> forall i :: from <= i < |Strategies| ==> load(url, Strategies[i]).Raised?
  {
    if from == |Strategies| then None
    else if load(url, Strategies[from]).Loaded? then Some(from)
    else FirstLoadedFrom(url, load, from + 1)
  }

  /** The first strategy that loads the page, if any. */
  function FirstLoaded(url: string, load: (string, Strategy) -> Attempt): (k: Option<nat>)
    ensures k.Some? ==> k.value < |Strategies| && load(url, Strategies[k.value]).Loaded?
    ensures k.Some? ==> forall i :: 0 <= i < k.value ==> load(url, Strategies[i]).Raised?
    ensures k.None? <==> forall i :: 0 <= i < |Strategies| ==> load(url, Strategies[i]).Raised?
  {
    FirstLoadedFrom(url, load, 0)
  }

  /** The first strategy that loads is the one every earlier strategy failed before. */
  lemma FirstLoadedAt(url: string, load: (string, Strategy) -> Attempt, k: nat)
    requires k < |Strategies| && load(url, Strategies[k]).Loaded?
    requires forall i :: 0 <= i < k ==> load(url, Strategies[i]).Raised?
    ensures FirstLoaded(url, load) == Some(k)
  {
  }

  /** A run of attempts that raised and then loaded ends at the first strategy that loads. */
  lemma TriedIsFirstLoaded(url: string, load: (string, Strategy) -> Attempt, tried: seq<Strategy>)
    requires 1 <= |tried| <= |Strategies| && tried == Strategies[..|tried|]
    requires forall i :: 0 <= i < |tried| - 1 ==> load(url, tried[i]).Raised?
    requires load(url, tried[|tried| - 1]).Loaded?
    ensures FirstLoaded(url, load) == Some(|tried| - 1)
    ensures tried[|tried| - 1] == Strategies[|tried| - 1]
  {
    var k := |tried| - 1;
    assert forall i :: 0 <= i <= k ==> tried[i] == Strategies[i];
    FirstLoadedAt(url, load, k);
  }

  /** No strategy loads when every attempt raised. */
  lemma NoneLoaded(url: string, load: (string, Strategy) -> Attempt)
    requires forall i :: 0 <= i < |Strategies| ==> load(url, Strategies[i]).Raised?
    ensures FirstLoaded(url, load).None?
  {
  }

  /** What `ScrapeAndClean` promises, restated through the first strategy that loads. */
  lemma ScrapedFromFirstLoaded(url: string, load: (string, Strategy) -> Attempt, toMarkdown: string -> string,
                               markdown: Result<string, string>, tried: seq<Strategy>)
    requires 1 <= |tried| <= |Strategies| && tried == Strategies[..|tried|]
    requires forall i :: 0 <= i < |tried| - 1 ==> load(url, tried[i]).Raised?
    requires markdown.Success? <==> load(url, tried[|tried| - 1]).Loaded?
    requires markdown.Success? ==> markdown.value == DropBlankLines(toMarkdown(load(url, tried[|tried| - 1]).html))
    requires markdown.Failure? <==> forall i :: 0 <= i < |Strategies| ==> load(url, Strategies[i]).Raised?
    ensures markdown.Success? <==> FirstLoaded(url, load).Some?
    ensures markdown.Success? ==>
      markdown.value == DropBlankLines(toMarkdown(load(url, Strategies[FirstLoaded(url, load).value]).html))
  {
    if markdown.Success? {
      TriedIsFirstLoaded(url, load, tried);
    } else {
      NoneLoaded(url, load);
    }
  }

  /** Every one of the first `n` strategies raised. */
  predicate RaisedBefore(url: string, load: (string, Strategy) -> Attempt, n: nat)
    requires n <= |Strategies|
  {
    forall i :: 0 <= i < n ==> load(url, Strategies[i]).Raised?
  }

  /** The loop stops at strategy `attempt - 1`, which loaded after every earlier one raised. */
  lemma StopsAtLoaded(url: string, load: (string, Strategy) -> Attempt, attempt: nat)
    requires 1 <= attempt <= |Strategies|
    requires RaisedBefore(url, load, attempt - 1)
    requires load(url, Strategies[attempt - 1]).Loaded?
    ensures Strategies[..attempt][attempt - 1] == Strategies[attempt - 1]
    ensures forall i :: 0 <= i < attempt - 1 ==> load(url, Strategies[..attempt][i]).Raised?
    ensures !(forall i :: 0 <= i < |Strategies| ==> load(url, Strategies[i]).Raised?)
  {
  }

  /** The loop runs out after the last strategy raised too. */
  lemma StopsAllRaised(url: string, load: (string, Strategy) -> Attempt)
    requires RaisedBefore(url, load, |Strategies| - 1)
    requires load(url, Strategies[|Strategies| - 1]).Raised?
    ensures forall i :: 0 <= i < |Strategies| ==> load(url, Strategies[i]).Raised?
    ensures Strategies[..|Strategies|] == Strategies
  {
  }

  /** `scrape_and_clean`: try the strategies in order, stop at the first that loads, raise
      with the last error only when the last one fails; then convert and drop blank lines.
      `tried` lists the strategies attempted, in order. */
  method ScrapeAndClean(url: string, load: (string, Strategy) -> Attempt, toMarkdown: string -> string)
    returns (markdown: Result<string, string>, tried: seq<Strategy>)
    ensures 1 <= |tried| <= |Strategies| && tried == Strategies[..|tried|]
    ensures forall i :: 0 <= i < |tried| - 1 ==> load(url, tried[i]).Raised?
    ensures markdown.Success? <==> load(url, tried[|tried| - 1]).Loaded?
    ensures markdown.Success? ==> markdown.value == DropBlankLines(toMarkdown(load(url, tried[|tried| - 1]).html))
    ensures markdown.Failure? <==> forall i :: 0 <= i < |Strategies| ==> load(url, Strategies[i]).Raised?
    ensures markdown.Failure? ==>
      tried == Strategies && markdown.error == AllFailed(load(url, Strategies[|Strategies| - 1]).error)
  {
    var cleanedHtml := "";
    var lastError: Option<string> := None;
    var attempt := 1;
    while attempt <= |Strategies|
      invariant 1 <= attempt <= |Strategies|
      invariant RaisedBefore(url, load, attempt - 1)
      invariant attempt > 1 ==> lastError == Some(load(url, Strategies[attempt - 2]).error)
      decreases |Strategies| - attempt
    {
      var strategy := Strategies[attempt - 1];
      match load(url, strategy)
      case Loaded(html) =>
        cleanedHtml := html;
        break;
      case Raised(e) =>
        lastError := Some(e);
        if attempt == |Strategies| {
          StopsAllRaised(url, load);
          tried := Strategies;
          markdown := Failure(AllFailed(lastError.value));
          return;
        }
      attempt := attempt + 1;
    }
    StopsAtLoaded(url, load, attempt);
    tried := Strategies[..attempt];
    markdown := Success(DropBlankLines(toMarkdown(cleanedHtml)));
  }

  // ---------------------------------------------------------------------------
  // The blank-line filter: '\n'.join(line for line in markdown.split('\n') if line.strip())

  /** `s.split('\n')`: never empty, and no piece holds a newline. */
  function SplitLines(s: string): (lines: seq<string>)
    ensures |lines| >= 1
    ensures forall i :: 0 <= i < |lines| ==> '\n' !in lines[i]
  {
    if s == [] then [""]
    else
      var rest := SplitLines(s[1..]);
      if s[0] == '\n' then [""] + rest else [[s[0]] + rest[0]] + rest[1..]
  }

  /** `'\n'.join(lines)`: the text starts with the first line (it ends with the last, by `JoinEndsWithLast`). */
  function JoinLines(lines: seq<string>): (s: string)
    ensures |lines| == 0 ==> s == ""
    ensures |lines| > 0 ==> lines[0] <= s
  {
    if |lines| == 0 then ""
    else if |lines| == 1 then lines[0]
    else lines[0] + "\n" + JoinLines(lines[1..])
  }

  /** The joined text ends with the last line. */
  lemma {:induction false} JoinEndsWithLast(lines: seq<string>)
    requires |lines| > 0
    ensures |lines[|lines| - 1]| <= |JoinLines(lines)|
    ensures JoinLines(lines)[|JoinLines(lines)| - |lines[|lines| - 1]|..] == lines[|lines| - 1]
  {
    if |lines| > 1 {
      var last, j := lines[|lines| - 1], JoinLines(lines[1..]);
      JoinEndsWithLast(lines[1..]);
      JoinFirst(lines);
      assert lines[1..][|lines| - 2] == last;
      var s := lines[0] + "\n" + j;
      assert s[|s| - |last|..] == j[|j| - |last|..];
    }
  }

  predicate AllBlank(lines: seq<string>) {
    forall i :: 0 <= i < |lines| ==> IsBlank(lines[i])
  }

  /** The lines `if line.strip()` keeps: none exactly when every line is blank. */
  function NonBlank(lines: seq<string>): (kept: seq<string>)
    ensures |kept| <= |lines|
    ensures kept == [] <==> AllBlank(lines)
  {
    if lines == [] then []
    else
      assert forall i :: 1 <= i < |lines| ==> lines[i] == lines[1..][i - 1];
      (if Strip(lines[0]) != "" then [lines[0]] else []) + NonBlank(lines[1..])
  }

  /** The blank-line filter of line 89: the output is empty exactly when every input line is blank. */
  function DropBlankLines(markdown: string): (cleaned: string)
    ensures cleaned == "" <==> AllBlank(SplitLines(markdown))
  {
    JoinNonBlankEmpty(SplitLines(markdown));
    JoinLines(NonBlank(SplitLines(markdown)))
  }

  lemma JoinNonBlankEmpty(lines: seq<string>)
    ensures JoinLines(NonBlank(lines)) == "" <==> AllBlank(lines)
  {
    var kept := NonBlank(lines);
    if kept != [] {
      NonBlankKept(lines);
      assert !IsBlank(kept[0]);
      assert kept[0] != "";
    }
  }

  /** One step of the join: the first line, a newline, then the join of the rest. */
  lemma JoinCons(first: string, rest: seq<string>)
    requires rest != []
    ensures JoinLines([first] + rest) == first + "\n" + JoinLines(rest)
  {
    assert ([first] + rest)[0] == first;
    assert ([first] + rest)[1..] == rest;
  }

  /** One step of the split: a leading character other than a newline joins the first piece. */
  lemma SplitCons(c: char, t: string)
    ensures SplitLines([c] + t) ==
      if c == '\n' then [""] + SplitLines(t) else [[c] + SplitLines(t)[0]] + SplitLines(t)[1..]
  {
    assert ([c] + t)[0] == c;
    assert ([c] + t)[1..] == t;
  }

  /** The join of several lines unfolds once. */
  lemma JoinFirst(lines: seq<string>)
    requires |lines| > 1
    ensures JoinLines(lines) == lines[0] + "\n" + JoinLines(lines[1..])
  {
  }

  /** Putting a character other than a newline in front of the first of several lines. */
  lemma JoinConsInto(c: char, rest: seq<string>)
    requires |rest| > 1
    ensures JoinLines([[c] + rest[0]] + rest[1..]) == [c] + JoinLines(rest)
  {
    var x, r := rest[0], rest[1..];
    JoinFirst(rest);
    JoinCons([c] + x, r);
    AppendAssoc([c], x, "\n");
    AppendAssoc([c], x + "\n", JoinLines(r));
  }

  /** Joining the pieces of a split gives the text back. */
  lemma {:induction false} JoinSplit(s: string)
    ensures JoinLines(SplitLines(s)) == s
  {
    if s != [] {
      var c, t := s[0], s[1..];
      JoinSplit(t);
      assert s == [c] + t;
      SplitCons(c, t);
      if c == '\n' {
        JoinCons("", SplitLines(t));
      } else if |SplitLines(t)| > 1 {
        JoinConsInto(c, SplitLines(t));
      }
    }
  }

  /** Splitting a text whose first line is `line` puts `line` in front of the first piece. */
  lemma {:induction false} SplitAfterLine(line: string, t: string)
    requires '\n' !in line
    ensures SplitLines(line + t) == [line + SplitLines(t)[0]] + SplitLines(t)[1..]
  {
    if line == [] {
      assert line + t == t;
      assert line + SplitLines(t)[0] == SplitLines(t)[0];
      assert SplitLines(t) == [SplitLines(t)[0]] + SplitLines(t)[1..];
    } else {
      assert (line + t)[1..] == line[1..] + t;
      SplitAfterLine(line[1..], t);
      assert [line[0]] + (line[1..] + SplitLines(t)[0]) == line + SplitLines(t)[0];
    }
  }

  /** Splitting the join of newline-free lines gives the lines back. */
  lemma {:induction false} SplitJoin(lines: seq<string>)
    requires |lines| >= 1
    requires forall i :: 0 <= i < |lines| ==> '\n' !in lines[i]
    ensures SplitLines(JoinLines(lines)) == lines
  {
    if |lines| == 1 {
      SplitAfterLine(lines[0], "");
      assert lines[0] + "" == lines[0];
    } else {
      var rest := lines[1..];
      var j := JoinLines(rest);
      SplitJoin(rest);
      JoinFirst(lines);
      AppendAssoc(lines[0], "\n", j);
      SplitCons('\n', j);
      SplitAfterLine(lines[0], "\n" + j);
      assert lines[0] + "" == lines[0];
      assert [lines[0]] + rest == lines;
    }
  }

  /** The filter is taken line by line, so it keeps the order of the kept lines. */
  lemma {:induction false} NonBlankAppend(a: seq<string>, b: seq<string>)
    ensures NonBlank(a + b) == NonBlank(a) + NonBlank(b)
  {
    if a == [] {
      assert a + b == b;
    } else {
      assert a + b == [a[0]] + (a[1..] + b) && a == [a[0]] + a[1..];
      NonBlankCons(a[0], a[1..] + b);
      NonBlankCons(a[0], a[1..]);
      NonBlankAppend(a[1..], b);
      AppendAssoc(if Strip(a[0]) != "" then [a[0]] else [], NonBlank(a[1..]), NonBlank(b));
    }
  }

  /** One step of the filter: the first line is kept or dropped, then the rest is filtered. */
  lemma NonBlankCons(line: string, rest: seq<string>)
    ensures NonBlank([line] + rest) == (if Strip(line) != "" then [line] else []) + NonBlank(rest)
  {
    assert ([line] + rest)[0] == line;
    assert ([line] + rest)[1..] == rest;
  }

  /** A line is kept exactly when it is not whitespace-only. */
  lemma NonBlankOne(line: string)
    ensures NonBlank([line]) == if IsBlank(line) then [] else [line]
  {
    TrimEmptyIff(line, IsSpace);
    assert [line][1..] == [];
  }

  /** Every kept line is a line of the input and is not blank. */
  lemma {:induction false} NonBlankKept(lines: seq<string>)
    ensures forall i :: 0 <= i < |NonBlank(lines)| ==> NonBlank(lines)[i] in lines && !IsBlank(NonBlank(lines)[i])
  {
    if lines != [] {
      NonBlankKept(lines[1..]);
      TrimEmptyIff(lines[0], IsSpace);
      var r := NonBlank(lines);
      forall i | 0 <= i < |r| ensures r[i] in lines && !IsBlank(r[i]) {
        if Strip(lines[0]) == "" {
          assert r == NonBlank(lines[1..]);
          assert r[i] in lines[1..];
        } else if i > 0 {
          assert r[i] == NonBlank(lines[1..])[i - 1];
          assert r[i] in lines[1..];
        }
      }
    }
  }

  /** Lines that are all non-blank pass the filter unchanged. */
  lemma {:induction false} NonBlankUnchanged(lines: seq<string>)
    requires forall i :: 0 <= i < |lines| ==> !IsBlank(lines[i])
    ensures NonBlank(lines) == lines
  {
    if lines != [] {
      TrimEmptyIff(lines[0], IsSpace);
      NonBlankUnchanged(lines[1..]);
      assert [lines[0]] + lines[1..] == lines;
    }
  }

  /** The output holds exactly the non-blank input lines, in order; with none, it is empty. */
  lemma DropBlankLinesLines(markdown: string)
    ensures NonBlank(SplitLines(markdown)) == [] ==> DropBlankLines(markdown) == ""
    ensures NonBlank(SplitLines(markdown)) != [] ==> SplitLines(DropBlankLines(markdown)) == NonBlank(SplitLines(markdown))
  {
    var kept := NonBlank(SplitLines(markdown));
    NonBlankKept(SplitLines(markdown));
    if kept != [] {
      SplitJoin(kept);
    }
  }

  /** No line of the output is whitespace-only (the empty output is one empty line). */
  lemma NoBlankLineLeft(markdown: string)
    ensures DropBlankLines(markdown) == ""
         || forall i :: 0 <= i < |SplitLines(DropBlankLines(markdown))| ==> !IsBlank(SplitLines(DropBlankLines(markdown))[i])
  {
    DropBlankLinesLines(markdown);
    NonBlankKept(SplitLines(markdown));
  }

  /** Filtering twice is filtering once. */
  lemma DropBlankLinesIdempotent(markdown: string)
    ensures DropBlankLines(DropBlankLines(markdown)) == DropBlankLines(markdown)
  {
    var r := DropBlankLines(markdown);
    DropBlankLinesLines(markdown);
    NonBlankKept(SplitLines(markdown));
    if r == "" {
      assert SplitLines(r) == [""];
      assert Strip("") == "" by { TrimEmptyIff("", IsSpace); }
    } else {
      NonBlankUnchanged(SplitLines(r));
    }
  }
}
