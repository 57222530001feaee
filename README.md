# reader-to-capacities in Dafny

This project models the sync engine of *reader-to-capacities*. The engine copies archived
Readwise Reader documents, with their highlights, into Capacities weblinks. It also proves
properties of that model.

The modules follow the program's files:

- `Readwise` (`readwise.dfy`) covers `ReadwiseClient` in `main.py`:
  - the rate limiter, over an abstract clock that only `sleep` advances;
  - the three-attempt retry loop, over a script of attempt outcomes;
  - pagination of the archive listing, filtered by the ledger of processed ids;
  - the highlight listing of one article.
- `Articles` (`articles.dfy`) covers the pure helpers of `main.py`:
  - choosing the URL;
  - cleaning up YouTube titles;
  - filtering and sorting highlights;
  - the markdown rendering of highlights, together with the loop that builds it.
- `MainRun` (`mainrun.dfy`) covers `main`:
  - the per-run batch of at most `ARTICLES_PER_RUN` articles;
  - the per-article loop that builds notes, tags and the weblink body;
  - recording an id in the ledger after a successful create.
- `Capacities` (`capacities.dfy`) covers `CapacitiesClient.create_weblink`: the markdown
  text, and the request body with its truncation bounds and omitted keys.
- `Config` (`config.py` → `config.dfy`) covers:
  - the processed-ids file, as a string that `add_processed_id` appends to;
  - `get_processed_ids`;
  - `get_reference_timestamp`, including the accepted forms of `strptime("%Y-%m-%d")`.
- `Sync` (`sync.dfy`) covers `sync.py`:
  - cursor pagination of Reader documents;
  - the body of `create_capacities_note` and its status rule;
  - the `sync` loop over the history map;
  - saving the history only on success.
- `Text`, `Sorting` and `Wrappers` hold the Python built-ins the core relies on:
  - `str.strip`, `split`, `join` and `title` over ASCII;
  - the stable `sorted`;
  - `Option`/`Result` and Python truthiness.

Time, the network and the file system become inputs to the model:

- The clock is a `Clock` object with a natural-number `now`.
- Each HTTP answer is a datatype value taken from a script. The scripts are a sequence of
  attempts per page, or a function from a position to a reply.
- Files are strings (`ProcessedIdsFile.content`, `ReaderToCapacitiesSync.savedHistory`).

## Model

| member | source | states |
|---|---|---|
| Readwise.Clock.Sleep | main.py:66 | `sleep(d)` advances the clock by exactly d |
| Readwise.ReadwiseClient.constructor | main.py:48-57 | a fresh client: no previous request (time 0), count 0, window opened at the current time |
| Readwise.ReadwiseClient.WaitForRateLimit | main.py:59-80 | afterwards 1 ≤ count ≤ 15 and the last request is at least 3 after the previous one; the clock advances by the interval wait plus the window wait; an elapsed window resets to the call time with count 1; a full window inside 60 is slept out, giving a new window ≥ 60 later with count 1; otherwise the count goes up by one in the same window |
| Readwise.RetryFrom | main.py:87-113 | the retry loop from attempt i: it ends within 3 attempts and sleeps at most once per attempt made |
| Readwise.RetryStopsAtFirstDecisive | main.py:87-111 | the first answer the loop does not retry decides the result; the attempts used are that index + 1; the sleeps are exactly those of the retried answers (Retry-After seconds, or 5) |
| Readwise.RetryExhaustedIffAllRetried | main.py:98-113 | `{}` comes back iff all three answers were retried: sleepable 429s, or transport errors before the last attempt; the last one is then a 429, all three attempts were made, and each was slept out |
| Readwise.TransportRaisedOnlyOnLastAttempt | main.py:107-111 | a transport error escapes only when the third attempt had one, after all three attempts |
| Readwise.HandleAttempt | main.py:98-111 | a retried answer (a 429 with a usable `Retry-After`, or a transport error before the last attempt) sleeps exactly its delay and goes on; any other answer decides the result and does not sleep |
| Readwise.ReadwiseClient.MakeRequest | main.py:82-113 | the result is that of the retry discipline; one rate-limiter pass (dispatch) per attempt; the clock advances at least by the sum of the retry sleeps |
| Readwise.NewArticlesSpec | main.py:155-162 | an article is kept iff it is in the page and its id is not processed; never longer than the page |
| Readwise.NewArticlesAppend | main.py:155-166 | filtering page after page equals filtering the concatenation (page order is kept) |
| Readwise.OutcomeAt | main.py:146-147 | the request for page k gives what the retry loop makes of that page's answers |
| Readwise.ListingKeepsEarlierPages | main.py:135-175 | the listing is the filtered concatenation of every page up to the first one that stops it (no cursor, `{}`, or an exception) |
| Readwise.UnprocessedAvoidsProcessed | main.py:155-162 | no returned article has a processed id |
| Readwise.ReadwiseClient.FetchPage | main.py:136-175 | one pass of the page loop: an exception or `{}` stops with nothing added; a page adds its unprocessed articles and the running total grows by their number; the loop goes on iff the page has a non-empty cursor |
| Readwise.ReadwiseClient.GetArticlesWithHighlights | main.py:115-178 | the `while True` loop returns the unprocessed listing, and `total_fetched` equals its length |
| Readwise.ReadwiseClient.GetHighlightsForArticle | main.py:180-212 | one rate-limiter pass; the article's highlights sorted by `created_at`, or none when the request fails |
| Articles.ProcessArticleUrl | main.py:28-36 | a non-empty source URL is chosen, so the YouTube branch gives the same value; otherwise `url` |
| Articles.CleanYoutubeTitle | main.py:38-44 | unchanged without "\|"; never contains "\|" |
| Articles.CleanYoutubeTitleOnlyFirstPiece | main.py:40-43 | the result is the stripped "\|"-pieces joined by ": ", with only the first piece title-cased |
| Articles.CleanYoutubeTitleIdempotent | main.py:38-44 | cleaning twice is cleaning once |
| Articles.FilterByParent | main.py:197-200 | keeps exactly the highlights whose `parent_id` is the article |
| Articles.FilterByParentAppend | main.py:197-200 | the comprehension keeps listing order: filtering a concatenation is filtering each part, in turn |
| Articles.FilterByParentCounts | main.py:197-200 | the comprehension keeps duplicates: a matching highlight occurs as often as in the listing, any other not at all |
| Articles.HighlightsOfSpec | main.py:198-206 | the article's highlights, as a permutation sorted by `created_at` (default "") that keeps the order of equal keys |
| Articles.SortByPositionSpec | main.py:232 | a permutation sorted by `position` (default 0) that keeps the order of equal positions |
| Articles.BlocksBullets | main.py:236-242 | one bullet per highlight with non-empty stripped content, in sorted order |
| Articles.NoteFollowsItsBullet | main.py:238-242 | every note line comes directly after the bullet of its own highlight |
| Articles.HighlightsMarkdown | main.py:228-244 | "" exactly for no highlights; otherwise it starts with "## Anotações" |
| Articles.FormatHighlightsMarkdown | main.py:214-244 | the loop that appends to `formatted_parts` returns the rendering above |
| Capacities.CapacitiesClient.constructor | capacities_client.py:14-21 | the client keeps its token and space id; nothing posted yet |
| Capacities.MarkdownText | capacities_client.py:44-52 | "**Autor:** author" and the notes joined by a blank line, each only when non-empty; absent when both are |
| Capacities.Bounded | capacities_client.py:60-67 | a field is present iff non-empty, and is then its first min(len, bound) items |
| Capacities.WeblinkPayload | capacities_client.py:55-67 | the body always has `spaceId` and the unchanged `url`; each optional key is present iff its input is non-empty, and is then its first 500 / 1000 / 30 / 200000 items (the whole input when it fits) |
| Capacities.CapacitiesClient.CreateWeblink | capacities_client.py:23-80 | posts exactly that body once; returns the created weblink, or fails when the request does |
| Config.ProcessedIds | config.py:28-31 | never contains "", and its members carry no line break and no whitespace at either end |
| Config.StrippedIdsAppend | config.py:31 | the ids of two runs of lines are the union of their ids |
| Config.ProcessedIdsFile.Open | config.py:24-26 | an existing file keeps its content; a missing one starts empty |
| Config.ProcessedIdsFile.Add | config.py:33-36 | appends exactly id + "\n", keeps the earlier content as a prefix, and leaves the file newline-terminated |
| Config.AddProcessedIdSpec | config.py:31-36 | after adding an id to a terminated file, the processed ids are the old ones plus the stripped id (if non-empty) |
| Config.AddPresentIdUnchanged | config.py:31-36 | adding an id that is already present leaves the processed ids unchanged |
| Config.Ledger | config.py:33-36 | the file written by a series of additions is newline-terminated |
| Config.LedgerLines | config.py:30-36 | its lines are the added ids, followed by the empty tail |
| Config.LedgerRoundTrip | config.py:25-36 | starting from the empty file, the processed ids are the stripped non-empty added ids |
| Config.LedgerAppend | config.py:31-36 | additions to a terminated file add exactly their stripped ids to the processed set |
| Config.LedgerRoundTripPlain | config.py:25-36 | for non-empty ids without whitespace: reading back gives exactly the set of ids added |
| Config.ParseDate | config.py:44 | an accepted date has year ≤ 9999, month 1–12 and day 1–31 |
| Config.ParseZeroPadded | config.py:44 | a "YYYY-MM-DD" string parses iff month and day are in range, and gives its spelled fields |
| Config.IsoDate | config.py:52 | a valid date is printed as ten characters with "-" at positions 4 and 7 |
| Config.SpelledOfIsoDate | config.py:44-52 | printing a valid date and reading it back gives the same date |
| Config.IsoDateOfSpelled | config.py:44-52 | reading a valid zero-padded date and printing it gives the same string |
| Config.ReferenceTimestamp | config.py:38-54 | succeeds iff the string parses and is a real calendar date; the result is 25 characters ending in "T00:00:00+00:00" |
| Config.ReferenceTimestampZeroPadded | config.py:43-54 | a valid zero-padded date gives that string + "T00:00:00+00:00"; an invalid one raises `ValueError` |
| Config.ReferenceTimestampOfIsoDate | config.py:43-52 | every valid date, printed, gives its midnight-UTC timestamp |
| Config.ReferenceTimestampIdempotent | config.py:43-52 | the date part of a result maps to the same result |
| Config.ConfiguredReferenceTimestamp | config.py:18 | the configured "2024-12-05" gives "2024-12-05T00:00:00+00:00" |
| Config.UnpaddedDateAccepted | config.py:44-52 | `strptime` also accepts "2024-1-5", which gives "2024-01-05T00:00:00+00:00" |
| MainRun.NotesText | main.py:291-298 | no notes iff there is no reading progress, no notes and no highlight text; with highlight text, the notes end with "\n" + that text |
| MainRun.BuildNotes | main.py:291-298 | the appends to `notes_parts` give exactly those notes |
| MainRun.Batch | main.py:272 | the first min(len, `ARTICLES_PER_RUN`) articles of the unprocessed listing |
| MainRun.PayloadOfArticle | main.py:300-312 | the body posted for an article: its URL and title, summary (default ""), its tags followed by the default tags, the notes, and author (default "Unknown") |
| MainRun.ProcessArticle | main.py:277-329 | one article: posts iff its step is a post; the ledger gains id + "\n" exactly when the create succeeded; a failed create is swallowed |
| MainRun.PostArticle | main.py:285-316 | for an article with a URL: one highlight request; exactly one body posted, built from the article and its highlights; created iff the endpoint created it, and only then is id + "\n" appended to the ledger |
| MainRun.ProcessArticles | main.py:275-329 | the loop posts exactly the steps' bodies, in order; the ledger gains exactly the created ids, in order; `processed_count` equals their number |
| MainRun.RunMain | main.py:258-334 | an invalid reference date changes nothing; otherwise the run processes the batch of the listing filtered by the ledger as read at the start |
| MainRun.FetchAndProcess | main.py:266-329 | the listing is fetched with the ledger's ids, and the loop then processes its first `ARTICLES_PER_RUN` articles exactly as the steps specify |
| MainRun.PostedIffNewWithUrl | main.py:277-312 | an article is posted iff it is not processed and has a URL, then to that URL in the client's space; created iff the endpoint created it |
| MainRun.CommittedOnlyAfterCreate | main.py:304-316 | an id is recorded iff its article was posted and created |
| MainRun.CommittedAtMostPosted | main.py:304-316 | recorded ids ≤ posted bodies ≤ articles considered |
| MainRun.RunIsBounded | main.py:272-316 | a run posts, and records, at most `ARTICLES_PER_RUN` articles |
| MainRun.NextRunSkipsCommitted | main.py:258-283 | an id recorded by a run is read back by the next run, which neither lists nor posts that article again |
| Sync.ReaderToCapacitiesSync.constructor | sync.py:8-21 | the history is the saved file, or `{last_sync: None, synced_articles: {}}` when there is none |
| Sync.FetchAllSpec | sync.py:28-56 | with j the first page that ends the loop: success iff page j is a 200; the result is then every page's results up to j, in order; otherwise the error of page j, with no partial result |
| Sync.FetchReaderDocuments | sync.py:28-56 | the `while True` loop returns exactly that fetch result |
| Sync.NoteOf | sync.py:58-86 | a document without a title string, a `source_url` key or a `url` key raises; otherwise the body has url = source URL, title[:500], (summary or "")[:1000], md[:200000] and tags exactly ["reader-import"] |
| Sync.ReaderToCapacitiesSync.CreateCapacitiesNote | sync.py:58-101 | posts that body once; true iff the status is 200 or 201; a transport error raises |
| Sync.DocStepEntries | sync.py:113-124 | one document either leaves the entries and the count alone, or adds a single new entry after an accepted create and counts it |
| Sync.PassStaysFailed | sync.py:113-142 | after an exception, no later document is processed |
| Sync.PassKeepsEntries | sync.py:119-123 | entries already in the history are never changed or removed |
| Sync.PassPostsOnlyUnsynced | sync.py:115-119 | no note is posted for a document already in the history when the loop starts |
| Sync.PassSkipsSyncedInPass | sync.py:113-123 | the skip reads the live history: a document whose id was added at any earlier point of the loop (say for an earlier copy in the listing) is passed over and changes nothing |
| Sync.PassEntriesOnlyAfterCreate | sync.py:119-124 | a new entry exists only for a document whose note was accepted (200/201) |
| Sync.PassCountIsNewEntries | sync.py:112-124 | `synced_count` equals the number of entries added |
| Sync.ReaderToCapacitiesSync.SyncDocuments | sync.py:112-124 | the `for` loop posts and adds entries exactly as the pass over the documents specifies, stops at the first exception, and leaves `last_sync` and the saved file unchanged |
| Sync.ReaderToCapacitiesSync.Sync | sync.py:103-142 | a failed fetch changes nothing. Otherwise the loop posts, and adds entries, as the pass specifies. On success `last_sync` is set, the history is saved, and the result has `synced_count` and `total_documents = len(documents)`. On an exception the result fails, and `last_sync` and the saved file stay as they were |
| Sorting.SortBySorted | main.py:205 | `sorted` returns a permutation of its input, ordered by key |
| Sorting.SortByStable | main.py:232 | `sorted` keeps the original order of elements with equal keys |
| Sorting.StrLeTotal | main.py:205 | Python's string `<=` is a total order |
| Text.JoinSplit | main.py:41 | splitting the title on "\|" loses nothing: joining the pieces with "\|" gives it back |
| Text.StripSpec | main.py:41 | `strip` removes exactly the leading and trailing whitespace |
| Text.TitleCaseIdempotent | main.py:42 | `title` applied twice equals applying it once |

Notes on behaviour:

- The retry delay is a constant 5 seconds.
- A non-429 HTTP error is re-raised at once.
- A transport error is retried until the last attempt.
- The highlights header is "## Anotações".
- `create_weblink` posts once, without retries.
- `{}` from `_make_request` does not require that all three attempts were 429s. Transport
  errors on the first two attempts are retried as well, so `{}` also follows two transport
  errors and a final 429. `Readwise.RetryExhaustedIffAllRetried` states the exact condition.
  A `Retry-After` header that `int()` rejects, or a negative one, raises.
- `add_processed_id` writes `id + "\n"` after whatever the file holds. A file whose last line
  has no newline (a hand edit) would merge the new id into that line. The ledger lemmas
  therefore require a newline-terminated file; every file this program writes is one.
- `main` compares raw article ids with the stripped ids of the ledger. `MainRun.NextRunSkipsCommitted`
  therefore requires ids without whitespace.
- On an exception, `sync` keeps in memory the entries already added before it. Only the file
  and `last_sync` are left unchanged. `Sync.ReaderToCapacitiesSync.Sync` states exactly that.

## Left out

- HTTP mechanics are replaced by scripted answers: requests, headers, JSON decoding, URLs and
  query parameters (`pageCursor`, `updatedAfter`, `location`). The answer script for a page
  stands for what the server returns to those parameters.
- Wall-clock time is not modelled: the clock is a natural number, and HTTP latency and
  float timestamps are not represented.
- `datetime.now()` in `sync`: each entry's stamp comes from a given `stamps` function, and
  `last_sync` from a given `finishedAt`.
- The file system and environment are not modelled: the `touch` at import, reading and
  writing files, JSON (de)serialisation of the history, and `os.environ`. A file is its
  content as a string, or a `History` value.
- Logging, `print`, and both `__main__` entry points.
- Unicode: `strip`, `title` and the `strptime` digits are limited to ASCII, which is what
  CPython does on ASCII input.
- The reading-progress percentage (`{p * 100:.1f}%`) uses float formatting. The model takes
  it as given text.
- The markdown template of `create_capacities_note` is a `render` parameter, and only its
  truncation is modelled.
- Malformed JSON members are not modelled. Listing results without `results`/`id`/`title`
  keys, and highlights without `content`/`notes`, are assumed well-formed. The model does
  cover `title` being null or missing in `sync.py`, and `source_url`/`url` lacking.
- The tag dictionary's `.keys()` in `get_articles_with_highlights` is taken as the article's
  tag list in order.
- Concurrent runs against one ledger are not modelled; the program is single-threaded.
- A server whose cursor chain never ends: the `while True` page loops of `get_articles_with_highlights`
  and `fetch_reader_documents` would never stop on it, so the listing methods require a script
  that holds a stopping page (`LastPage` of some outcome, `HasStop`).
- Readwise.ReadwiseClient.MakeRequest: states that the clock advances at least by the retry
  sleeps, not an exact total, because each attempt's rate-limiter wait depends on the state.
