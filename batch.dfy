/** The batch orchestrator of main.py: one card URL at a time, failures skipped, a pacing
    pause between items, and the save-or-report decision at the end. The outcome of each
    item is abstract; `ProcessCard` shows how one is produced from the scraper and the
    extraction client. Waiting is not timed: the loop records after which items it paused. */
module Batch {
  import opened Wrappers
  import opened Models
  import opened Llm
  import opened Scraper

  /** One entry of the input file; the hint is a display label only. */
  datatype Item = Item(url: string, cardHint: string)

  /** How the run ends: the saved cards with the "extracted/total" count, or nothing saved. */
  datatype Report = Saved(cards: seq<CreditCard>, extracted: nat, total: nat) | NoCardsExtracted

  /** The `try`/`except` of `process_card` once the page is scraped: any exception gives None. */
  function SkipOnError(scraped: Result<string, string>, provider: Provider, b: Backends): (card: Option<CreditCard>)
    ensures card.Some? <==> scraped.Success? && ExtractData(scraped.value, provider, b).Success?
    ensures card.Some? ==> card.value == ExtractData(scraped.value, provider, b).value
  {
    match scraped
    case Failure(_) => None
    case Success(markdown) =>
      match ExtractData(markdown, provider, b)
      case Failure(_) => None
      case Success(c) => Some(c)
  }

  /** `process_card`: scrape, then extract; a failure of either stage yields None, and
      extraction is not attempted when scraping failed. The page text is that of the first
      strategy that loads. */
  method ProcessCard(item: Item, provider: Provider, load: (string, Strategy) -> Attempt,
                     toMarkdown: string -> string, b: Backends)
    returns (card: Option<CreditCard>, scraped: Result<string, string>)
    ensures scraped.Failure? <==> forall i :: 0 <= i < |Strategies| ==> load(item.url, Strategies[i]).Raised?
    ensures scraped.Success? <==> FirstLoaded(item.url, load).Some?
    ensures scraped.Success? ==>
      scraped.value == DropBlankLines(toMarkdown(load(item.url, Strategies[FirstLoaded(item.url, load).value]).html))
    ensures scraped.Failure? ==> scraped.error == AllFailed(load(item.url, Strategies[|Strategies| - 1]).error)
    ensures card == SkipOnError(scraped, provider, b)
  {
    var tried;
    scraped, tried := ScrapeAndClean(item.url, load, toMarkdown);
    ScrapedFromFirstLoaded(item.url, load, toMarkdown, scraped, tried);
    card := SkipOnError(scraped, provider, b);
  }

  /** The cards of the successful outcomes, in input order: one per item at most, and one
      for every item exactly when no item failed. */
  function Successes(outcomes: seq<Option<CreditCard>>): (cards: seq<CreditCard>)
    ensures |cards| <= |outcomes|
    ensures |cards| == |outcomes| <==> forall i :: 0 <= i < |outcomes| ==> outcomes[i].Some?
  {
    if outcomes == [] then []
    else
      assert forall i :: 1 <= i < |outcomes| ==> outcomes[i] == outcomes[1..][i - 1];
      (if outcomes[0].Some? then [outcomes[0].value] else []) + Successes(outcomes[1..])
  }

  /** The results/pacing loop of `main` and the final decision. `outcomes[i]` is what
      `process_card` returned for `items[i]`. */
  method RunBatch(items: seq<Item>, outcomes: seq<Option<CreditCard>>)
    returns (results: seq<CreditCard>, pausedAfter: seq<nat>, report: Report)
    requires |outcomes| == |items|
    ensures results == Successes(outcomes)
    ensures |pausedAfter| == (if |items| == 0 then 0 else |items| - 1)
    ensures forall j :: 0 <= j < |pausedAfter| ==> pausedAfter[j] == j + 1
    ensures report == if results != [] then Saved(results, |results|, |items|) else NoCardsExtracted
  {
    results := [];
    pausedAfter := [];
    for idx := 1 to |items| + 1
      invariant results == Successes(outcomes[..idx - 1])
      invariant |pausedAfter| == (if idx <= |items| || |items| == 0 then idx - 1 else |items| - 1)
      invariant forall j :: 0 <= j < |pausedAfter| ==> pausedAfter[j] == j + 1
    {
      var card := outcomes[idx - 1];
      SuccessesAppend(outcomes[..idx - 1], [card]);
      assert outcomes[..idx] == outcomes[..idx - 1] + [card];
      if card.Some? {
        results := results + [card.value];
      }
      if idx < |items| {
        pausedAfter := pausedAfter + [idx];
      }
    }
    assert outcomes[..|items|] == outcomes;
    if results != [] {
      report := Saved(results, |results|, |items|);
    } else {
      report := NoCardsExtracted;
    }
  }

  /** The successes of a concatenation are the successes of each part, in order. */
  lemma {:induction false} SuccessesAppend(a: seq<Option<CreditCard>>, b: seq<Option<CreditCard>>)
    ensures Successes(a + b) == Successes(a) + Successes(b)
  {
    if a == [] {
      assert a + b == b;
    } else {
      assert (a + b)[1..] == a[1..] + b;
      SuccessesAppend(a[1..], b);
    }
  }

  /** A failed item contributes nothing and does not stop the items after it. */
  lemma FailedItemSkipped(before: seq<Option<CreditCard>>, after: seq<Option<CreditCard>>)
    ensures Successes(before + [None] + after) == Successes(before) + Successes(after)
  {
    assert before + [None] + after == before + ([None] + after);
    SuccessesAppend(before, [None] + after);
    assert ([None] + after)[1..] == after;
  }

  /** Output is written exactly when some item succeeded. */
  lemma {:induction false} NothingSavedIff(outcomes: seq<Option<CreditCard>>)
    ensures Successes(outcomes) == [] <==> forall i :: 0 <= i < |outcomes| ==> outcomes[i].None?
  {
    if outcomes != [] {
      NothingSavedIff(outcomes[1..]);
      assert forall i :: 1 <= i < |outcomes| ==> outcomes[i] == outcomes[1..][i - 1];
    }
  }

  /** Every result is the card of some outcome, and there are at most as many as items. */
  lemma {:induction false} ResultsFromOutcomes(outcomes: seq<Option<CreditCard>>)
    ensures |Successes(outcomes)| <= |outcomes|
    ensures forall c :: c in Successes(outcomes) ==> Some(c) in outcomes
  {
    if outcomes != [] {
      ResultsFromOutcomes(outcomes[1..]);
      forall c | c in Successes(outcomes) ensures Some(c) in outcomes {
        if c !in Successes(outcomes[1..]) {
          assert outcomes[0] == Some(c);
        } else {
          assert Some(c) in outcomes[1..];
        }
      }
    }
  }

  /** Three items whose second fails: two cards in input order, paused after items 1 and 2. */
  method ThreeItems(items: seq<Item>, first: CreditCard, third: CreditCard)
    returns (results: seq<CreditCard>, pausedAfter: seq<nat>, report: Report)
    requires |items| == 3
    ensures results == [first, third] && pausedAfter == [1, 2]
    ensures report == Saved([first, third], 2, 3)
  {
    var outcomes := [Some(first), None, Some(third)];
    assert Successes(outcomes[2..]) == [third];
    assert Successes(outcomes[1..]) == [third];
    results, pausedAfter, report := RunBatch(items, outcomes);
  }
}
