# Credit card extractor: a Dafny model of its core

The credit card extractor is a command-line tool. It reads a list of bank web pages for
credit cards and fetches each page with a headless browser. It turns the page into
Markdown and asks a language model (Gemini or OpenAI) for a JSON record of the card. It
validates the record against a fixed schema and saves all records that succeed to one
JSON file.

This project models the deterministic core of that pipeline and proves properties of it:

- `CardId` (card_id.dfy): the slug rule `generate_card_id`. It joins bank and card name,
  lower-cases, turns spaces into hyphens, deletes characters outside `[a-z0-9-]`, collapses
  runs of hyphens and strips edge hyphens.
- `Models` (models.dfy): the record schema and its coercion rules:
  - the "before" validators that turn `None`, `""`, `"N/A"` and unparsable values into zero;
  - integer truncation toward zero;
  - the declared defaults, and the required fields;
  - the nested records: reward categories, benefits, milestones and merchants.
- `Llm` (llm.dfy):
  - the 15000-character prompt truncation;
  - the cleanup of a Gemini reply: the surrounding whitespace, the code fence and the `json` tag;
  - the id backfill after an OpenAI structured reply;
  - provider dispatch.
- `Scraper` (scraper.dfy):
  - the fallback over three page-load strategies (an imperative loop with `break` and an
    early return);
  - the filter that removes whitespace-only lines from the Markdown.
- `Batch` (batch.dfy): `process_card`, which turns any failure into "no card", and the
  main loop. The loop keeps the successes in input order and pauses between items but
  not after the last. At the end it either saves with an "extracted/total" count or
  reports that nothing was extracted.
- `Text` (text.dfy): Python's `str.isspace` and `str.strip(chars)`, shared by the above.
- `Wrappers` (wrappers.dfy): `Option` and `Result`.

Everything outside the program is a parameter, so each property holds whatever the outside
world does:

- the browser: `load`, one attempt per strategy, returning the cleaned HTML or the error raised;
- `html2text`: `toMarkdown`;
- the Gemini call: `generate`;
- `json.loads`: `loads`;
- the OpenAI structured-output call: `complete`;
- Python's `float()` on strings: `floatOf`.

## Model

| member | source | states |
|---|---|---|
| CardId.GenerateCardId | src/extractor/utils.py:23-28 | every id is a slug: only `a-z`, `0-9` and `-`, no two hyphens in a row, no hyphen at either end |
| CardId.Normalize | src/extractor/utils.py:26-28 | the lower/replace/sub/sub/strip chain always yields a slug |
| CardId.LowerChar | src/extractor/utils.py:26 | `lower()` on one character: an ASCII capital becomes the matching small letter, and every other character is kept |
| CardId.Lower | src/extractor/utils.py:26 | `combined.lower()` keeps the length, turns each ASCII capital into the matching small letter in place, and keeps every other character in place |
| CardId.SpacesToHyphens | src/extractor/utils.py:26 | `replace(' ', '-')` keeps the length, leaves no space, and turns each space into a hyphen in place |
| CardId.KeepSlugChars | src/extractor/utils.py:26 | `re.sub('[^a-z0-9-]', '')` never lengthens the text and adds no character that was not there |
| CardId.CollapseHyphens | src/extractor/utils.py:27 | `re.sub('-+','-')` leaves no double hyphen and keeps the first character; with hyphens removed, its result and its input are the same string; that each run becomes exactly one hyphen is stated by `CardId.CollapseRun` |
| CardId.KeepSlugCharsAllowed | src/extractor/utils.py:26 | deleting `[^a-z0-9-]` leaves only slug characters |
| CardId.KeepSlugCharsUnchanged | src/extractor/utils.py:26 | deleting `[^a-z0-9-]` does not change a string made of slug characters |
| CardId.KeepSlugCharsAppend | src/extractor/utils.py:26 | the deletion works character by character: it distributes over concatenation |
| CardId.CollapseUnchanged | src/extractor/utils.py:27 | collapsing does not change a string with no double hyphen |
| CardId.CollapseRun | src/extractor/utils.py:27 | two hyphens in a row collapse exactly as one does; with `CardId.CollapseUnchanged`, every run of hyphens becomes a single hyphen and nothing else changes |
| CardId.SlugIsFixedPoint | src/extractor/utils.py:26-28 | a slug is normalised to itself |
| CardId.NormalizeIdempotent | src/extractor/utils.py:26-28 | normalising an id again gives the same id |
| CardId.SpaceActsAsHyphen | src/extractor/utils.py:26 | a space and a hyphen at the same position give the same id |
| CardId.DeletedNotReplaced | src/extractor/utils.py:26 | a character that is neither a slug character, an upper-case letter nor a space is deleted without a trace |
| CardId.GenerateCardIdExample | src/extractor/utils.py:23-28 | ("HDFC Bank", "Infinia Metal") gives "hdfc-bank-infinia-metal" |
| CardId.GenerateCardIdEmpty | src/extractor/utils.py:23-28 | two empty names give the empty id, since the joining hyphen is stripped |
| Text.LeadCount | src/extractor/utils.py:28 | the counted prefix satisfies the predicate, and the next character does not |
| Text.TrailCount | src/extractor/utils.py:28 | the counted suffix satisfies the predicate, and the character before it does not |
| Text.Trim | src/extractor/utils.py:28 | `strip(chars)` returns a slice whose removed ends are strip characters and whose own ends are not |
| Text.Strip | src/extractor/llm.py:69 | `strip()` is empty exactly for a whitespace-only string, and otherwise starts and ends with a non-whitespace character |
| Text.IsSpaceAscii | src/extractor/scraper.py:89 | on ASCII, the whitespace of `strip()` and `isspace()` is exactly tab, newline, vertical tab, form feed, carriage return, 0x1c-0x1f and the space |
| Text.IsSpace | src/extractor/scraper.py:89 | Python's `isspace()`; its ASCII part is stated by `Text.IsSpaceAscii` |
| Text.TrimUnchanged | src/extractor/llm.py:69 | a string whose ends are not strip characters is unchanged by strip |
| Text.TrimEmptyIff | src/extractor/scraper.py:89 | strip gives the empty string exactly when every character is a strip character |
| Text.TrimPadded | src/extractor/llm.py:73 | strip removes exactly the padding around a core whose ends are not strip characters (through the exact leading and trailing counts of `Text.LeadCountPadded` and `Text.TrailCountPadded`) |
| Models.IsPlaceholder | src/extractor/models.py:26 | the placeholders `None`, `""` and `"N/A"`; that they give 0 and 0.0 is stated by `Models.PlaceholdersAreZero` |
| Models.ToFloat | src/extractor/models.py:29 | `float(v)` fails on `None`, lists and objects, keeps a JSON number, gives 1.0 and 0.0 for `true` and `false`, and parses a string with `float()` |
| Models.Trunc | src/extractor/models.py:53 | `int()` of a finite float truncates toward zero, for both signs |
| Models.CoerceInt | src/extractor/models.py:47-55 | placeholders give 0; wherever the written validator returns a value, the corrected one returns the same value (the Findings row) |
| Models.CoerceIntAsWritten | src/extractor/models.py:47-55 | the validator as written fails exactly for a non-placeholder value that parses to an infinity; a non-zero result is the truncation of a finite float |
| Models.CoerceFloat | src/extractor/models.py:116-124 | the float coercion is either 0.0 or the value `float()` gives; placeholders and unparsable values give 0.0, and any other value its own float |
| Models.CoerceIntOfNumber | src/extractor/models.py:106-124 | a numeric string or a JSON number becomes its truncated value as an integer field and its own value as a float field |
| Models.CoerceIntExamples | src/extractor/models.py:53 | "1000.0" gives 1000, and -2.5 gives -2 (not -3) |
| Models.CoerceRejectedIsZero | src/extractor/models.py:106-124 | a value `float()` rejects gives 0 as an integer and 0.0 as a float; NaN and the infinities give integer 0 |
| Models.PlaceholdersAreZero | src/extractor/models.py:26-27 | `None`, `""` and `"N/A"` give 0 and 0.0 |
| Models.IntCoercionOverflows | src/extractor/models.py:47-55 | as written, an infinite value (JSON `Infinity`, the string "inf") raises OverflowError, which the validator does not catch |
| Models.InfiniteFeeGivesZero | src/extractor/models.py:106-114 | the corrected rule builds a card with fee 0 from `"annualFee": Infinity`, where the written validator raises |
| Models.AllOf | src/extractor/models.py:90-99 | a list field is accepted exactly when every element is; the result keeps the length and the order |
| Models.ParseRewards | src/extractor/models.py:12-31 | a rewards value is accepted exactly when it is an object, and each category is the float coercion of its own key, 0 when absent |
| Models.ParseBenefit | src/extractor/models.py:34-38 | a benefit is accepted exactly when it is an object with string `icon`, `title` and `description`, and it holds those strings |
| Models.ParseMilestone | src/extractor/models.py:41-55 | a milestone is accepted exactly when it is an object whose `benefit`, if present, is a string; spend and value follow the integer rule |
| Models.ParseMerchant | src/extractor/models.py:58-62 | a merchant is accepted exactly when it is an object with string `name` and `multiplier` and a string or absent `logo`; `logo` defaults to "" |
| Models.ParseCard | src/extractor/models.py:65-124 | `CreditCard(**data)`: a non-object is refused; an object is accepted exactly when no field is rejected, otherwise the error lists the rejected fields; the card keeps the given `id`, `name` and `bank`; the other fields are stated by `Models.CardStrings`, `Models.CardOptionals`, `Models.CardNested`, `Models.CardLists` and `Models.CardNumbers` |
| Models.AcceptsIffNothingRejected | src/extractor/models.py:65-104 | a card is accepted exactly when the list of rejected fields is empty |
| Models.RewardsPerCategory | src/extractor/models.py:12-31 | a rewards object is always accepted; each category is coerced from its own key, 0 when absent |
| Models.RewardsIndependent | src/extractor/models.py:23-31 | changing one category's raw value changes that category only |
| Models.CardNumbers | src/extractor/models.py:77-124 | the card's fees are the integer coercion of their raw values and its rates the float coercion, with defaults 0, 0, 0 and 0.25 for absent keys |
| Models.CardStrings | src/extractor/models.py:74-87 | the card's `network`, `color`, `accentColor` and `gradient` are the given strings, or "Unknown", "#1a1a1a", "#00ff00" and "" when the key is absent |
| Models.CardOptionals | src/extractor/models.py:98-104 | the card's `rewardPointsName`, `cardNumber`, `expiryDate` and `cardholderName` are the given strings, or none when the key is absent or `null` |
| Models.CardNested | src/extractor/models.py:82-90 | the card's rewards are the parsed rewards object (zero rewards when absent), and its benefits are the given list, one accepted benefit per item in order (empty when absent) |
| Models.CardLists | src/extractor/models.py:91-99 | the card's milestones, best merchants and `mostlyUsedFor` are the given lists, one accepted element per item in order, or empty when the key is absent (through `Models.ListFieldValue`) |
| Models.MilestoneNumbers | src/extractor/models.py:41-55 | milestone spend and value follow the integer rule; benefit defaults to "" |
| Models.NumbersNeverReject | src/extractor/models.py:106-124 | with the corrected integer rule (see Findings), whether a card is rejected does not depend on what a numeric field holds, or whether it is present |
| Models.AcceptsIgnoresNumbers | src/extractor/models.py:65-124 | with the corrected integer rule, two records that agree outside the numeric fields are accepted alike (through `Models.StringsIgnoreNumbers`, `Models.NestedIgnoreNumbers`, `Models.SameList` and `Models.SameKey`, one field group at a time) |
| Models.RequiredCardField | src/extractor/models.py:71-73 | a missing or non-string `id`, `name` or `bank` rejects the card and names that field |
| Models.IncompleteBenefitRejected | src/extractor/models.py:34-38 | a benefit without `icon`, `title` or `description` is rejected, and so is a card listing it, naming `benefits` |
| Models.MerchantFields | src/extractor/models.py:58-62 | a merchant needs `name` and `multiplier`; `logo` defaults to "" |
| Models.MinimalCard | src/extractor/models.py:65-104 | a record with only `id`, `name` and `bank` takes every declared default |
| Llm.Truncate | src/extractor/llm.py:66 | the text sent is the prefix of at most 15000 characters |
| Llm.GeminiPrompt | src/extractor/llm.py:66 | the Gemini prompt is `Content:` and a newline, then the input's prefix of length min(length, 15000) |
| Llm.OpenAIUserMessage | src/extractor/llm.py:87 | the OpenAI user message is `Extract from:` and two newlines, then the input's prefix of length min(length, 15000) |
| Llm.PromptsCarryPrefix | src/extractor/llm.py:66 | both prompts carry the same truncated text after their fixed lead-ins; long text is cut to 15000 characters and short text is kept whole |
| Llm.FindFence | src/extractor/llm.py:71 | the first three-backtick run at or after a position, or none |
| Llm.FencedBody | src/extractor/llm.py:70-71 | `split('```')[1]` is the text from after the opening fence up to the next fence or the end, with no fence inside |
| Llm.CleanReply | src/extractor/llm.py:69-73 | the text handed to `json.loads` is always one contiguous piece of the reply; its three cases are stated by `Llm.UnfencedReply`, `Llm.FencedReplyWithoutTag` and `Llm.FencedReplyWithTag` |
| Llm.UnfencedReply | src/extractor/llm.py:69-70 | a reply that does not start with a fence is parsed as stripped |
| Llm.FencedReplyWithoutTag | src/extractor/llm.py:70-72 | a fenced reply without a `json` tag gives the fence body, unstripped |
| Llm.FencedReplyWithTag | src/extractor/llm.py:70-73 | a fenced reply whose body starts with `json` gives the rest of the body after those four letters, stripped, whatever character follows the tag |
| Llm.JsonFenceRoundTrip | src/extractor/llm.py:69-75 | wrapping a JSON text in a `json` fence does not change what reaches `json.loads`, and the bare text passes unchanged (through `Llm.ReplyEndsInFences`, `Llm.JsonReplyBody`, `Llm.TaggedBodyStrips` and `Llm.BareBody`) |
| Llm.TaggedBodyStrips | src/extractor/llm.py:72-73 | a body tagged `json` loses the tag and the surrounding newlines |
| Llm.BareBody | src/extractor/llm.py:69-73 | a text without backticks or edge whitespace is cleaned to itself |
| Llm.ExtractWithGemini | src/extractor/llm.py:62-76 | a failed call gives an API error; a JSON error exactly when the call succeeds and the cleaned reply does not parse; an invalid-record error, carrying the validation error, exactly when the parsed reply is not a valid card; and otherwise exactly the card built from the parsed reply |
| Llm.BackfillId | src/extractor/llm.py:93-94 | an empty id or the placeholder "string" becomes the slug of bank and name; any other id is kept; no other field changes |
| Llm.BackfillIdempotent | src/extractor/llm.py:93-94 | backfilling twice is backfilling once |
| Llm.ExtractWithOpenAI | src/extractor/llm.py:79-96 | extraction fails exactly when the service call fails, with that call's error as an API error; otherwise it returns the parsed card, backfilled |
| Llm.ExtractData | src/extractor/llm.py:99-118 | Gemini takes the Gemini path, every other provider the OpenAI path, where the only failure is an API error |
| Scraper.ScrapeAndClean | src/extractor/scraper.py:24-89 | the strategies are tried in order up to the first that loads; the result is the filtered Markdown of that page; the call fails with the last error exactly when all three fail |
| Scraper.ScrapedFromFirstLoaded | src/extractor/scraper.py:30-89 | the outcome `scrape_and_clean` promises succeeds exactly when some strategy loads, and then holds the filtered Markdown of the first one that does |
| Scraper.StrategyOrder | src/extractor/scraper.py:24-28 | the three strategies in order: networkidle with 60000 ms, domcontentloaded with 45000 ms, load with 45000 ms |
| Scraper.AllFailed | src/extractor/scraper.py:77-78 | the error raised when every strategy failed ends with the last strategy's error |
| Scraper.FirstLoaded | src/extractor/scraper.py:30-78 | the first strategy whose attempt loads: every earlier one raised, and there is none exactly when all three raise; `Scraper.FirstLoadedAt` and `Scraper.NoneLoaded` show these facts determine it |
| Scraper.SplitLines | src/extractor/scraper.py:89 | `split('\n')` never returns an empty list, and no piece holds a newline |
| Scraper.JoinLines | src/extractor/scraper.py:89 | `'\n'.join` of no lines is empty, and otherwise starts with the first line and ends with the last (`Scraper.JoinEndsWithLast`) |
| Scraper.JoinEndsWithLast | src/extractor/scraper.py:89 | `'\n'.join` of one or more lines ends with the last line |
| Scraper.NonBlank | src/extractor/scraper.py:89 | the filter keeps at most as many lines as it is given, and none exactly when every line is blank |
| Scraper.DropBlankLines | src/extractor/scraper.py:89 | the cleaned Markdown is empty exactly when every line of the input is blank |
| Scraper.JoinNonBlankEmpty | src/extractor/scraper.py:89 | joining the kept lines gives the empty text exactly when every line is blank |
| Scraper.JoinSplit | src/extractor/scraper.py:89 | joining the pieces of a split gives the text back (one character at a time, through `Scraper.SplitCons` and `Scraper.JoinConsInto`) |
| Scraper.SplitJoin | src/extractor/scraper.py:89 | splitting the join of newline-free lines gives the lines back (through `Scraper.SplitAfterLine`) |
| Scraper.NonBlankAppend | src/extractor/scraper.py:89 | the line filter works line by line and keeps the order |
| Scraper.NonBlankOne | src/extractor/scraper.py:89 | a line is kept exactly when it is not whitespace-only |
| Scraper.NonBlankKept | src/extractor/scraper.py:89 | every kept line is a non-blank line of the input |
| Scraper.NonBlankUnchanged | src/extractor/scraper.py:89 | non-blank lines pass the filter unchanged |
| Scraper.DropBlankLinesLines | src/extractor/scraper.py:89 | the output's lines are exactly the non-blank input lines in order, and the output is empty when there are none |
| Scraper.NoBlankLineLeft | src/extractor/scraper.py:89 | no line of a non-empty output is whitespace-only |
| Scraper.DropBlankLinesIdempotent | src/extractor/scraper.py:89 | filtering twice is filtering once |
| Batch.SkipOnError | main.py:32-43 | the card is present exactly when scraping and extraction both succeed, and it is the extracted card |
| Batch.ProcessCard | main.py:30-43 | scraping fails exactly when every strategy raises, with the last error; otherwise the page text is the filtered Markdown of the first strategy that loads; the outcome is the extraction of that text, or none |
| Batch.Successes | main.py:84-87 | there is at most one result per item, and one for every item exactly when no item failed |
| Batch.RunBatch | main.py:83-99 | results are the successful outcomes in input order; pauses follow items 1 to n-1; the report saves with count/total exactly when some card succeeded |
| Batch.SuccessesAppend | main.py:84-87 | the successes of two runs in a row are the successes of each, in order |
| Batch.FailedItemSkipped | main.py:84-87 | a failed item adds nothing and does not stop the items after it |
| Batch.NothingSavedIff | main.py:95-99 | nothing is saved exactly when every item failed |
| Batch.ResultsFromOutcomes | main.py:84-87 | there are no more results than items, and every result is some item's card |
| Batch.ThreeItems | main.py:83-99 | three items whose second fails give the first and third cards, pauses after items 1 and 2, and "2/3" |

## Left out

- The browser work of one attempt is the parameter `load`: launching Chromium, the
  viewport and user agent, the 3-second settle wait and the removal of noise elements.
  The timeout of each strategy is kept only as data.
- `html2text` is the parameter `toMarkdown`; its options are not modelled.
- The Gemini and OpenAI clients, their model names, the system prompt text and the API
  keys are left out; each call is a parameter that returns a reply or the error raised.
- `json.loads` is the parameter `loads`; `float()` on a string is the parameter `floatOf`.
- IEEE-754 rounding is not modelled: a finite float is a real number.
- A JSON integer too large for a float (`float(10**400)` raises OverflowError) is not
  modelled; JSON numbers are taken as floats.
- `CardId.LowerChar`: `str.lower()` is modelled on ASCII letters only. Non-ASCII
  upper-case letters are deleted by the next step, so they also fall under
  `DeletedNotReplaced`. The exceptions are characters whose lower case is ASCII:
  'İ' (U+0130) lowers to "i" plus a combining dot, and the Kelvin sign (U+212A) lowers
  to 'k'. For those two the model drops the letter where the source keeps it.
- `Llm.ExtractWithOpenAI`: the message's `parsed` being `None` (a refusal) raises in the
  source. The model folds that case into a failure of `complete`. Setting `card.id` on
  the parsed object is modelled as returning an updated value.
- `Models.ParseCard`: pydantic's error messages are reduced to the list of rejected
  top-level fields. A validated card is a value, not an object.
- Models.ParseCard builds the card with the corrected `Models.CoerceInt`, not the validator
  as written. So an infinite value in `annualFee`, `joiningFee` or a milestone's `spend` or
  `value` gives 0, where the source raises OverflowError. The source then loses the card:
  `process_card` returns None. The same holds for `Llm.ExtractWithGemini`,
  `Batch.SkipOnError`, `Models.NumbersNeverReject` and `Models.AcceptsIgnoresNumbers`:
  they describe the corrected rule.
- `load_config`, `load_urls`, `save_json`, the command-line arguments and every progress
  message are I/O and are left out. The choice between saving and reporting is kept as
  `Batch.Report`.
- `Batch.RunBatch`: the 2-second `asyncio.sleep` is recorded as the list of items after
  which the loop pauses. Each item's outcome is an input, and `ProcessCard` shows how
  one outcome is produced.
- Batch.RunBatch: each input entry is taken to carry both `url` and `card_hint`. In the
  source, they are read at main.py:85, outside the `try` of `process_card`, so an entry
  missing either key raises KeyError and ends the whole run, not just that item.
- `model_dump()` is not modelled; the saved results are the validated cards.
- src/extractor/__init__.py only re-exports names and is not part of this model.

## Findings

| source | as written | input that shows it | evidently intended | confidence | as-written member | corrected member |
|---|---|---|---|---|---|---|
| src/extractor/models.py:47-55 (and 106-114) | `int(float(v))` is guarded by `except (ValueError, TypeError)`, but `int()` of an infinite float raises OverflowError, so the validator raises and the whole card is rejected | a record with `"annualFee": Infinity` (accepted by `json.loads`), or `"inf"`/`"1e999"` as a string | every value that cannot become an integer coerces to 0, as the placeholder and unparsable cases do | medium, not executed | Models.CoerceIntAsWritten, Models.IntCoercionOverflows | Models.CoerceInt, Models.InfiniteFeeGivesZero |
