/**
 * The run of main.py's `main`: read the ledger, fetch the unprocessed
 * archived articles, and for at most `ArticlesPerRun` of them create a
 * Capacities weblink carrying the article's notes and highlights,
 * recording the article's id in the ledger only once the weblink was
 * created.
 */
module MainRun {
  import opened Wrappers
  import opened Text
  import opened Articles
  import opened Readwise
  import opened Capacities
  import opened Config

  const ReadingProgressLabel := "**Reading Progress:** "
  const NotesHeading := "\n## Notes"
  const NotesSeparator := "\n\n"

  /** What `get_highlights_for_article` returns for a listing reply. */
  function HighlightsFor(reply: HighlightReply, articleId: string): seq<Highlight> {
    if reply.HighlightListing? then HighlightsOf(reply.results, articleId) else []
  }

  /** The pieces of the weblink's notes: reading progress, the article's notes, the highlights section. */
  function NotesParts(a: Article, formatted: string): seq<string> {
    var notes := Get(a.notes, None);
    (if Truthy(a.readingProgress) then [ReadingProgressLabel + a.readingProgress.value + "%"] else [])
    + (if Truthy(notes) then [NotesHeading, notes.value] else [])
    + (if formatted != "" then ["\n" + formatted] else [])
  }

  /**
   * The notes passed to `create_weblink`: the pieces separated by blank
   * lines, or none at all; the highlights section, when there is one, comes last.
   */
  function NotesText(a: Article, formatted: string): (r: Option<string>)
    ensures r.None? <==> !Truthy(a.readingProgress) && !Truthy(Get(a.notes, None)) && formatted == ""
    ensures formatted != "" ==> r.Some? && EndsWith(r.value, "\n" + formatted)
  {
    var parts := NotesParts(a, formatted);
    if parts == [] then None
    else
      assert formatted != "" ==> EndsWith(Join(parts, NotesSeparator), "\n" + formatted) by {
        JoinEndsWithLast(parts, NotesSeparator);
      }
      Some(Join(parts, NotesSeparator))
  }

  /** The title of the weblink: YouTube titles are cleaned. */
  function TitleFor(a: Article, url: string): string {
    if Contains(url, "youtube.com") then CleanYoutubeTitle(a.title) else a.title
  }

  /** The body `main` has `create_weblink` post for an article. */
  function ArticlePayload(spaceId: string, a: Article, url: string, formatted: string): Payload {
    WeblinkPayload(spaceId, url, Some(TitleFor(a, url)), Get(a.summary, Some("")),
                   Some(a.tags + DefaultTags), NotesText(a, formatted), Get(a.author, Some("Unknown")))
  }

  /** What the loop does with one article: nothing, or post a body and, if created, record the id. */
  datatype Step = Skipped | Posted(id: string, payload: Payload, created: bool)

  function StepOf(a: Article, processedIds: set<string>, spaceId: string,
                  highlightReply: HighlightReply, weblinkReply: WeblinkReply): Step
  {
    if a.id in processedIds then Skipped
    else
      var url := ProcessArticleUrl(a);
      if !Truthy(url) then Skipped
      else
        var formatted := HighlightsMarkdown(HighlightsFor(highlightReply, a.id));
        Posted(a.id, ArticlePayload(spaceId, a, url.value, formatted), weblinkReply.Created?)
  }

  /**
   * The steps for a batch; the environment's replies for the i-th article
   * of the batch are `highlightReplies(i)` and `weblinkReplies(i)`.
   */
  function Steps(batch: seq<Article>, processedIds: set<string>, spaceId: string,
                 highlightReplies: nat -> HighlightReply, weblinkReplies: nat -> WeblinkReply): (steps: seq<Step>)
    ensures |steps| == |batch|
  {
    seq(|batch|, i requires 0 <= i < |batch| => StepOf(batch[i], processedIds, spaceId, highlightReplies(i), weblinkReplies(i)))
  }

  /** The bodies posted, in order. */
  function PostedPayloads(steps: seq<Step>): seq<Payload> {
    if steps == [] then []
    else
      var last := steps[|steps| - 1];
      PostedPayloads(steps[..|steps| - 1]) + (if last.Posted? then [last.payload] else [])
  }

  /** The ids recorded in the ledger, in order. */
  function CommittedIds(steps: seq<Step>): seq<string> {
    if steps == [] then []
    else
      var last := steps[|steps| - 1];
      CommittedIds(steps[..|steps| - 1]) + (if last.Posted? && last.created then [last.id] else [])
  }

  /** The articles `main` works on: the first `ArticlesPerRun` of the fetched ones. */
  function Batch(pages: seq<seq<Attempt>>, processedIds: set<string>): (batch: seq<Article>)
    requires WellScripted(pages)
    ensures batch <= Unprocessed(pages, processedIds)
    ensures |batch| == if |Unprocessed(pages, processedIds)| <= ArticlesPerRun
                       then |Unprocessed(pages, processedIds)| else ArticlesPerRun
  {
    Take(Unprocessed(pages, processedIds), ArticlesPerRun)
  }

  lemma LedgerSnocId(ids: seq<string>, id: string)
    ensures Ledger(ids + [id]) == Ledger(ids) + id + "\n"
  {
    assert (ids + [id])[..|ids|] == ids;
  }

  lemma Assoc4(a: string, b: string, c: string, d: string)
    ensures (a + b) + (c + d) == a + ((b + c) + d)
  {
  }

  /** Recording one more id extends the ledger written since `start` by that id's line. */
  lemma LedgerGrows(start: string, ids: seq<string>, id: string)
    ensures (start + Ledger(ids)) + (id + "\n") == start + Ledger(ids + [id])
  {
    LedgerSnocId(ids, id);
    Assoc4(start, Ledger(ids), id, "\n");
  }

  /** One more step extends the posted bodies and the recorded ids by that step's. */
  lemma StepsSnoc(steps: seq<Step>, i: nat)
    requires i < |steps|
    ensures PostedPayloads(steps[..i + 1]) ==
              PostedPayloads(steps[..i]) + (if steps[i].Posted? then [steps[i].payload] else [])
    ensures CommittedIds(steps[..i + 1]) ==
              CommittedIds(steps[..i]) + (if steps[i].Posted? && steps[i].created then [steps[i].id] else [])
  {
    assert steps[..i + 1][..i] == steps[..i];
  }

  /** The notes `main` assembles, piece by piece. */
  method BuildNotes(article: Article, formattedHighlights: string) returns (notes: Option<string>)
    ensures notes == NotesText(article, formattedHighlights)
  {
    var notesParts: seq<string> := [];
    if Truthy(article.readingProgress) {
      notesParts := notesParts + [ReadingProgressLabel + article.readingProgress.value + "%"];
    }
    ghost var progress := notesParts;
    assert progress == if Truthy(article.readingProgress) then [ReadingProgressLabel + article.readingProgress.value + "%"] else [];
    var articleNotes := Get(article.notes, None);
    if Truthy(articleNotes) {
      notesParts := notesParts + [NotesHeading];
      notesParts := notesParts + [articleNotes.value];
      assert notesParts == progress + [NotesHeading, articleNotes.value];
    }
    ghost var withNotes := notesParts;
    if formattedHighlights != "" {
      notesParts := notesParts + ["\n" + formattedHighlights];
    }
    assert notesParts == withNotes + (if formattedHighlights != "" then ["\n" + formattedHighlights] else []);
    assert notesParts == NotesParts(article, formattedHighlights);
    notes := if notesParts != [] then Some(Join(notesParts, NotesSeparator)) else None;
  }

  lemma StepOfPosted(a: Article, processedIds: set<string>, spaceId: string,
                     highlightReply: HighlightReply, weblinkReply: WeblinkReply)
    requires a.id !in processedIds && Truthy(ProcessArticleUrl(a))
    ensures StepOf(a, processedIds, spaceId, highlightReply, weblinkReply) ==
              Posted(a.id, ArticlePayload(spaceId, a, ProcessArticleUrl(a).value,
                                          HighlightsMarkdown(HighlightsFor(highlightReply, a.id))),
                     weblinkReply.Created?)
  {
  }

  lemma PayloadOfArticle(spaceId: string, a: Article, url: string, title: string, formatted: string,
                         notes: Option<string>, tags: seq<string>)
    requires title == TitleFor(a, url) && notes == NotesText(a, formatted) && tags == a.tags + DefaultTags
    ensures WeblinkPayload(spaceId, url, Some(title), Get(a.summary, Some("")), Some(tags), notes,
                           Get(a.author, Some("Unknown")))
            == ArticlePayload(spaceId, a, url, formatted)
  {
  }

  /**
   * One turn of the loop in `main`: skips an article already processed or
   * without a URL; otherwise fetches and renders its highlights, posts the
   * weblink, and records the id only when the weblink was created.
   */
  method ProcessArticle(client: ReadwiseClient, sink: CapacitiesClient, ledger: ProcessedIdsFile,
                        article: Article, processedIds: set<string>,
                        highlightReply: HighlightReply, weblinkReply: WeblinkReply)
    returns (created: bool)
    requires client.Valid()
    modifies client, client.clock, sink, ledger
    ensures client.Valid()
    ensures var step := StepOf(article, processedIds, sink.spaceId, highlightReply, weblinkReply);
            sink.posted == old(sink.posted) + (if step.Posted? then [step.payload] else [])
    ensures var step := StepOf(article, processedIds, sink.spaceId, highlightReply, weblinkReply);
            created == (step.Posted? && step.created)
    ensures ledger.content == old(ledger.content) + (if created then article.id + "\n" else "")
    ensures var step := StepOf(article, processedIds, sink.spaceId, highlightReply, weblinkReply);
            |client.dispatches| == |old(client.dispatches)| + (if step.Posted? then 1 else 0)
  {
    if article.id in processedIds {
      return false;
    }
    var url := ProcessArticleUrl(article);
    if !Truthy(url) {
      return false;
    }
    StepOfPosted(article, processedIds, sink.spaceId, highlightReply, weblinkReply);
    created := PostArticle(client, sink, ledger, article, url.value, highlightReply, weblinkReply);
  }

  /**
   * The posting half of a loop turn, for an article that is not yet
   * processed and has a URL: renders its highlights and notes, posts the
   * weblink, and records the id when the weblink was created.
   */
  method PostArticle(client: ReadwiseClient, sink: CapacitiesClient, ledger: ProcessedIdsFile,
                     article: Article, url: string, highlightReply: HighlightReply, weblinkReply: WeblinkReply)
    returns (created: bool)
    requires client.Valid()
    modifies client, client.clock, sink, ledger
    ensures client.Valid()
    ensures sink.posted == old(sink.posted) +
              [ArticlePayload(sink.spaceId, article, url, HighlightsMarkdown(HighlightsFor(highlightReply, article.id)))]
    ensures created == weblinkReply.Created?
    ensures ledger.content == old(ledger.content) + (if created then article.id + "\n" else "")
    ensures |client.dispatches| == |old(client.dispatches)| + 1
  {
    var title := article.title;
    if Contains(url, "youtube.com") {
      title := CleanYoutubeTitle(title);
    }
    assert title == TitleFor(article, url);
    var formattedHighlights, notes := RenderNotes(client, article, highlightReply);
    var tags := article.tags + DefaultTags;
    PayloadOfArticle(sink.spaceId, article, url, title, formattedHighlights, notes, tags);
    var result := sink.CreateWeblink(url, Some(title), Get(article.summary, Some("")), Some(tags),
                                     notes, Get(article.author, Some("Unknown")), weblinkReply);
    created := result.Ok?;
    if created {
      ledger.Add(article.id);
    }
  }

  /** Fetches the article's highlights and renders them and the article's notes into the weblink's notes. */
  method RenderNotes(client: ReadwiseClient, article: Article, highlightReply: HighlightReply)
    returns (formattedHighlights: string, notes: Option<string>)
    requires client.Valid()
    modifies client, client.clock
    ensures client.Valid()
    ensures formattedHighlights == HighlightsMarkdown(HighlightsFor(highlightReply, article.id))
    ensures notes == NotesText(article, formattedHighlights)
    ensures |client.dispatches| == |old(client.dispatches)| + 1
  {
    var highlights := client.GetHighlightsForArticle(article.id, highlightReply);
    assert highlights == HighlightsFor(highlightReply, article.id);
    formattedHighlights := FormatHighlightsMarkdown(highlights);
    notes := BuildNotes(article, formattedHighlights);
  }

  /** The per-article loop of `main` over a batch, counting the weblinks created. */
  method ProcessArticles(client: ReadwiseClient, sink: CapacitiesClient, ledger: ProcessedIdsFile,
                         batch: seq<Article>, processedIds: set<string>,
                         highlightReplies: nat -> HighlightReply, weblinkReplies: nat -> WeblinkReply)
    returns (processedCount: nat)
    requires client.Valid()
    modifies client, client.clock, sink, ledger
    ensures client.Valid()
    ensures var steps := Steps(batch, processedIds, sink.spaceId, highlightReplies, weblinkReplies);
            && sink.posted == old(sink.posted) + PostedPayloads(steps)
            && ledger.content == old(ledger.content) + Ledger(CommittedIds(steps))
            && processedCount == |CommittedIds(steps)|
            && |client.dispatches| == |old(client.dispatches)| + |PostedPayloads(steps)|
  {
    ghost var steps := Steps(batch, processedIds, sink.spaceId, highlightReplies, weblinkReplies);
    processedCount := 0;
    for i := 0 to |batch|
      invariant client.Valid()
      invariant sink.posted == old(sink.posted) + PostedPayloads(steps[..i])
      invariant ledger.content == old(ledger.content) + Ledger(CommittedIds(steps[..i]))
      invariant processedCount == |CommittedIds(steps[..i])|
      invariant |client.dispatches| == |old(client.dispatches)| + |PostedPayloads(steps[..i])|
    {
      ghost var posted := PostedPayloads(steps[..i]);
      ghost var committed := CommittedIds(steps[..i]);
      ghost var step := steps[i];
      assert step == StepOf(batch[i], processedIds, sink.spaceId, highlightReplies(i), weblinkReplies(i));
      var created := ProcessArticle(client, sink, ledger, batch[i], processedIds, highlightReplies(i), weblinkReplies(i));
      StepsSnoc(steps, i);
      SeqAssoc(old(sink.posted), posted, if step.Posted? then [step.payload] else []);
      if created {
        assert step.Posted? && step.created && step.id == batch[i].id;
        assert CommittedIds(steps[..i + 1]) == committed + [batch[i].id];
        processedCount := processedCount + 1;
        LedgerGrows(old(ledger.content), committed, batch[i].id);
      } else {
        assert CommittedIds(steps[..i + 1]) == committed;
        assert ledger.content == old(ledger.content) + Ledger(committed);
      }
    }
    assert steps[..|batch|] == steps;
  }

  /**
   * `main`: reads the ledger, computes the reference timestamp (a bad
   * configured date ends the run before anything is fetched), fetches the
   * unprocessed articles, and runs the loop on the first batch.
   */
  method RunMain(client: ReadwiseClient, sink: CapacitiesClient, ledger: ProcessedIdsFile,
                 updatedAfter: string, pages: seq<seq<Attempt>>,
                 highlightReplies: nat -> HighlightReply, weblinkReplies: nat -> WeblinkReply)
    returns (processedCount: nat)
    requires client.Valid()
    requires WellScripted(pages)
    requires exists k :: 0 <= k < |pages| && LastPage(Outcomes(pages)[k])
    modifies client, client.clock, sink, ledger
    ensures client.Valid()
    ensures ReferenceTimestamp(updatedAfter).Err? ==>
              sink.posted == old(sink.posted) && ledger.content == old(ledger.content) && processedCount == 0
    ensures ReferenceTimestamp(updatedAfter).Ok? ==>
              var processedIds := ProcessedIds(old(ledger.content));
              var steps := Steps(Batch(pages, processedIds), processedIds, sink.spaceId, highlightReplies, weblinkReplies);
              && sink.posted == old(sink.posted) + PostedPayloads(steps)
              && ledger.content == old(ledger.content) + Ledger(CommittedIds(steps))
              && processedCount == |CommittedIds(steps)|
  {
    var processedIds := ProcessedIds(ledger.content);
    var referenceTimestamp := ReferenceTimestamp(updatedAfter);
    if referenceTimestamp.Err? {
      return 0;
    }
    processedCount := FetchAndProcess(client, sink, ledger, pages, processedIds, highlightReplies, weblinkReplies);
  }

  /** The part of `main` after the timestamp: fetch the unprocessed articles and run the loop on the first batch. */
  method FetchAndProcess(client: ReadwiseClient, sink: CapacitiesClient, ledger: ProcessedIdsFile,
                         pages: seq<seq<Attempt>>, processedIds: set<string>,
                         highlightReplies: nat -> HighlightReply, weblinkReplies: nat -> WeblinkReply)
    returns (processedCount: nat)
    requires client.Valid()
    requires WellScripted(pages)
    requires exists k :: 0 <= k < |pages| && LastPage(Outcomes(pages)[k])
    modifies client, client.clock, sink, ledger
    ensures client.Valid()
    ensures var steps := Steps(Batch(pages, processedIds), processedIds, sink.spaceId, highlightReplies, weblinkReplies);
            && sink.posted == old(sink.posted) + PostedPayloads(steps)
            && ledger.content == old(ledger.content) + Ledger(CommittedIds(steps))
            && processedCount == |CommittedIds(steps)|
  {
    var allUnprocessed, _ := client.GetArticlesWithHighlights(processedIds, pages);
    var articlesToProcess := Take(allUnprocessed, ArticlesPerRun);
    processedCount := ProcessArticles(client, sink, ledger, articlesToProcess, processedIds, highlightReplies, weblinkReplies);
  }

  // ---------------------------------------------------------------------
  // Properties of a pass
  // ---------------------------------------------------------------------

  /** An article is posted exactly when it is not yet processed and has a URL; it is then posted to that URL. */
  lemma PostedIffNewWithUrl(batch: seq<Article>, processedIds: set<string>, spaceId: string,
                            highlightReplies: nat -> HighlightReply, weblinkReplies: nat -> WeblinkReply, i: nat)
    requires i < |batch|
    ensures var step := Steps(batch, processedIds, spaceId, highlightReplies, weblinkReplies)[i];
            && (step.Posted? <==> batch[i].id !in processedIds && Truthy(ProcessArticleUrl(batch[i])))
            && (step.Posted? ==>
                  step.id == batch[i].id && step.payload.url == ProcessArticleUrl(batch[i]).value
                  && step.payload.spaceId == spaceId)
            && (step.Posted? ==> (step.created <==> weblinkReplies(i).Created?))
  {
    var a := batch[i];
    var url := ProcessArticleUrl(a);
    assert Steps(batch, processedIds, spaceId, highlightReplies, weblinkReplies)[i]
        == StepOf(a, processedIds, spaceId, highlightReplies(i), weblinkReplies(i));
    if a.id !in processedIds && Truthy(url) {
      var formatted := HighlightsMarkdown(HighlightsFor(highlightReplies(i), a.id));
      var p := ArticlePayload(spaceId, a, url.value, formatted);
      assert p.url == url.value && p.spaceId == spaceId;
    }
  }

  /** A recorded id belongs to a posted step whose weblink was created, and no other id is recorded. */
  lemma {:induction false} CommittedOnlyAfterCreate(steps: seq<Step>, id: string)
    ensures id in CommittedIds(steps) <==>
              exists i :: 0 <= i < |steps| && steps[i].Posted? && steps[i].created && steps[i].id == id
  {
    if steps != [] {
      var init := steps[..|steps| - 1];
      CommittedOnlyAfterCreate(init, id);
      if id in CommittedIds(init) {
        var i :| 0 <= i < |init| && init[i].Posted? && init[i].created && init[i].id == id;
        assert steps[i] == init[i];
      }
      if exists i :: 0 <= i < |steps| && steps[i].Posted? && steps[i].created && steps[i].id == id {
        var i :| 0 <= i < |steps| && steps[i].Posted? && steps[i].created && steps[i].id == id;
        if i < |init| {
          assert init[i] == steps[i];
        }
      }
    }
  }

  /** There are no more recorded ids than posted bodies, and no more posted bodies than articles. */
  lemma {:induction false} CommittedAtMostPosted(steps: seq<Step>)
    ensures |CommittedIds(steps)| <= |PostedPayloads(steps)| <= |steps|
  {
    if steps != [] {
      CommittedAtMostPosted(steps[..|steps| - 1]);
    }
  }

  /** A run posts at most `ArticlesPerRun` weblinks and records at most as many ids. */
  lemma RunIsBounded(pages: seq<seq<Attempt>>, processedIds: set<string>, spaceId: string,
                     highlightReplies: nat -> HighlightReply, weblinkReplies: nat -> WeblinkReply)
    requires WellScripted(pages)
    ensures var steps := Steps(Batch(pages, processedIds), processedIds, spaceId, highlightReplies, weblinkReplies);
            |CommittedIds(steps)| <= |PostedPayloads(steps)| <= ArticlesPerRun
  {
    CommittedAtMostPosted(Steps(Batch(pages, processedIds), processedIds, spaceId, highlightReplies, weblinkReplies));
  }

  /**
   * Runs are idempotent: after a pass over terminated ledger content, an
   * article whose weblink was created is skipped by every later pass, both
   * at fetch time and in the loop, provided article ids hold no whitespace.
   */
  lemma NextRunSkipsCommitted(content: string, steps: seq<Step>, a: Article, spaceId: string,
                              highlightReply: HighlightReply, weblinkReply: WeblinkReply, results: seq<Article>)
    requires Terminated(content)
    requires forall k :: 0 <= k < |CommittedIds(steps)| ==> NoSpace(CommittedIds(steps)[k])
    requires a.id != ""
    requires a.id in CommittedIds(steps)
    ensures a.id in ProcessedIds(content + Ledger(CommittedIds(steps)))
    ensures StepOf(a, ProcessedIds(content + Ledger(CommittedIds(steps))), spaceId, highlightReply, weblinkReply) == Skipped
    ensures a !in NewArticles(results, ProcessedIds(content + Ledger(CommittedIds(steps))))
  {
    var ids := CommittedIds(steps);
    forall k | 0 <= k < |ids| ensures NoLineBreak(ids[k]) {
      NoSpaceNoLineBreak(ids[k]);
    }
    LedgerAppend(content, ids);
    var k :| 0 <= k < |ids| && ids[k] == a.id;
    assert Strip(ids[k]) == a.id;
    assert a.id in StrippedIds(ids);
    NewArticlesSpec(results, ProcessedIds(content + Ledger(ids)));
  }
}
