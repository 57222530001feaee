/**
 * sync.py: the older one-shot sync. It fetches every Reader document page
 * by page, creates a Capacities note for each document not yet in the sync
 * history, records the created ones in the history, and saves the history
 * with a new last-sync time only when the whole pass completes.
 */
module Sync {
  import opened Wrappers
  import opened Text
  import opened Articles
  import opened Capacities

  /** A Reader document with the members `create_capacities_note` reads. */
  datatype Doc = Doc(id: string, title: Field, summary: Field, sourceUrl: Field, readerUrl: Field)

  /** One listing request: a transport failure, or a response with a status, results and a next-page cursor. */
  datatype ReaderReply = ReaderTransport | ReaderPage(status: int, results: seq<Doc>, cursor: Option<string>)

  /** The exceptions that end a sync pass. */
  datatype SyncError = FetchTransport | FetchStatus(status: int) | MalformedDocument | CreateTransport

  // ---------------------------------------------------------------------
  // fetch_reader_documents
  // ---------------------------------------------------------------------

  /** The loop ends at this reply: it raises, or it carries no cursor. */
  predicate Stops(r: ReaderReply) {
    !r.ReaderPage? || r.status != 200 || !Truthy(r.cursor)
  }

  predicate HasStop(replies: seq<ReaderReply>) {
    exists k :: 0 <= k < |replies| && Stops(replies[k])
  }

  function Prepend(docs: seq<Doc>, r: Result<seq<Doc>, SyncError>): Result<seq<Doc>, SyncError> {
    match r
    case Ok(rest) => Ok(docs + rest)
    case Err(e) => Err(e)
  }

  lemma HasStopTail(replies: seq<ReaderReply>)
    requires HasStop(replies)
    requires !Stops(replies[0])
    ensures HasStop(replies[1..])
  {
    var k :| 0 <= k < |replies| && Stops(replies[k]);
    assert replies[1..][k - 1] == replies[k];
  }

  /** What `fetch_reader_documents` returns or raises for a script of listing replies. */
  function FetchAll(replies: seq<ReaderReply>): Result<seq<Doc>, SyncError>
    requires HasStop(replies)
    decreases |replies|
  {
    var r := replies[0];
    if r.ReaderTransport? then Err(FetchTransport)
    else if r.status != 200 then Err(FetchStatus(r.status))
    else if !Truthy(r.cursor) then Ok(r.results)
    else
      HasStopTail(replies);
      Prepend(r.results, FetchAll(replies[1..]))
  }

  /** The results of some replies, concatenated in order. */
  function Concat(replies: seq<ReaderReply>): seq<Doc> {
    if replies == [] then []
    else (if replies[0].ReaderPage? then replies[0].results else []) + Concat(replies[1..])
  }

  /**
   * With j the first reply that ends the loop: the fetch succeeds exactly
   * when reply j is a 200 page, and then returns the results of replies
   * 0..j in order; otherwise it raises for reply j and returns nothing.
   */
  lemma {:induction false} FetchAllSpec(replies: seq<ReaderReply>, j: nat)
    requires j < |replies| && Stops(replies[j])
    requires forall i :: 0 <= i < j ==> !Stops(replies[i])
    ensures HasStop(replies)
    ensures FetchAll(replies).Ok? <==> replies[j].ReaderPage? && replies[j].status == 200
    ensures FetchAll(replies).Ok? ==> FetchAll(replies).value == Concat(replies[..j + 1])
    ensures replies[j].ReaderTransport? ==> FetchAll(replies) == Err(FetchTransport)
    ensures replies[j].ReaderPage? && replies[j].status != 200 ==> FetchAll(replies) == Err(FetchStatus(replies[j].status))
  {
    if j > 0 {
      var tail := replies[1..];
      forall i | 0 <= i < j - 1 ensures !Stops(tail[i]) {
        assert tail[i] == replies[i + 1];
      }
      FetchAllSpec(tail, j - 1);
      assert replies[..j + 1][1..] == tail[..j];
    } else {
      assert replies[..1][1..] == [];
    }
  }

  /** `fetch_reader_documents`: follows the cursor, raising on the first failed listing. */
  method FetchReaderDocuments(replies: seq<ReaderReply>) returns (r: Result<seq<Doc>, SyncError>)
    requires HasStop(replies)
    ensures r == FetchAll(replies)
  {
    var documents: seq<Doc> := [];
    var k := 0;
    ghost var stop :| 0 <= stop < |replies| && Stops(replies[stop]);
    assert replies[0..] == replies;
    assert Prepend(documents, FetchAll(replies)) == FetchAll(replies) by {
      if FetchAll(replies).Ok? {
        assert documents + FetchAll(replies).value == FetchAll(replies).value;
      }
    }
    while true
      invariant 0 <= k <= stop
      invariant HasStop(replies[k..])
      invariant FetchAll(replies) == Prepend(documents, FetchAll(replies[k..]))
      decreases stop - k
    {
      var reply := replies[k];
      assert replies[k..][0] == reply;
      if reply.ReaderTransport? {
        return Err(FetchTransport);
      }
      if reply.status != 200 {
        return Err(FetchStatus(reply.status));
      }
      ghost var before := documents;
      documents := documents + reply.results;
      if !Truthy(reply.cursor) {
        return Ok(documents);
      }
      HasStopTail(replies[k..]);
      assert replies[k..][1..] == replies[k + 1..];
      assert FetchAll(replies[k..]) == Prepend(reply.results, FetchAll(replies[k + 1..]));
      PrependTwice(before, reply.results, FetchAll(replies[k + 1..]));
      k := k + 1;
    }
  }

  lemma PrependTwice(a: seq<Doc>, b: seq<Doc>, r: Result<seq<Doc>, SyncError>)
    ensures Prepend(a, Prepend(b, r)) == Prepend(a + b, r)
  {
    if r.Ok? {
      assert a + (b + r.value) == (a + b) + r.value;
    }
  }

  // ---------------------------------------------------------------------
  // create_capacities_note
  // ---------------------------------------------------------------------

  const NoteTag := "reader-import"

  /** The body of a note: every key is always present; `url` is null when the source URL is. */
  datatype Note = Note(spaceId: string, url: Option<string>, titleOverwrite: string,
                       descriptionOverwrite: string, mdText: string, tags: seq<string>)

  /** `(document.get('summary', '') or '')`. */
  function SummaryText(doc: Doc): string {
    if doc.summary.Str? then doc.summary.s else ""
  }

  /**
   * The body `create_capacities_note` posts, where `render` is the markdown
   * template; documents without a title string, a `source_url` key or a
   * `url` key raise before anything is posted.
   */
  function NoteOf(spaceId: string, doc: Doc, render: Doc -> string): (r: Result<Note, SyncError>)
    ensures r.Ok? <==> doc.title.Str? && !doc.sourceUrl.Missing? && !doc.readerUrl.Missing?
    ensures r.Ok? ==> r.value.spaceId == spaceId && r.value.url == Get(doc.sourceUrl, None)
    ensures r.Ok? ==> r.value.titleOverwrite <= doc.title.s
                      && |r.value.titleOverwrite| == (if |doc.title.s| <= TitleLimit then |doc.title.s| else TitleLimit)
    ensures r.Ok? ==> r.value.descriptionOverwrite <= SummaryText(doc)
                      && |r.value.descriptionOverwrite|
                         == (if |SummaryText(doc)| <= DescriptionLimit then |SummaryText(doc)| else DescriptionLimit)
    ensures r.Ok? ==> r.value.mdText <= render(doc)
                      && |r.value.mdText| == (if |render(doc)| <= MdTextLimit then |render(doc)| else MdTextLimit)
    ensures r.Ok? ==> r.value.tags == [NoteTag]
  {
    if doc.sourceUrl.Missing? || doc.readerUrl.Missing? || !doc.title.Str? then Err(MalformedDocument)
    else
      Ok(Note(spaceId, Get(doc.sourceUrl, None), Take(doc.title.s, TitleLimit),
              Take(SummaryText(doc), DescriptionLimit), Take(render(doc), MdTextLimit), [NoteTag]))
  }

  /** What the note endpoint answers. */
  datatype NoteReply = NoteTransport | NoteStatus(status: int)

  /** `create_capacities_note`'s verdict on a response: created iff the status is 200 or 201. */
  predicate Accepted(status: int) {
    status == 200 || status == 201
  }

  // ---------------------------------------------------------------------
  // The sync pass
  // ---------------------------------------------------------------------

  /** A history entry; `syncedAt` is the clock reading the pass is given for that document. */
  datatype Entry = Entry(syncedAt: string, title: string)

  datatype History = History(lastSync: Option<string>, syncedArticles: map<string, Entry>)

  /** The result dictionary of `sync`. */
  datatype SyncResult = Success(syncedCount: nat, totalDocuments: nat) | Failure(error: SyncError)

  /**
   * The state of the document loop: the history's entries, the count of
   * notes created, the bodies posted and the ids they were posted for, and
   * the exception that ended the loop, if any.
   */
  datatype Pass = Pass(synced: map<string, Entry>, count: nat, posted: seq<Note>, postedIds: seq<string>,
                       failure: Option<SyncError>)

  /** One document through the loop; the environment's reply for document i is `replies(i)`. */
  function DocStep(p: Pass, doc: Doc, i: nat, spaceId: string, render: Doc -> string,
                   replies: nat -> NoteReply, stamps: nat -> string): Pass
  {
    if p.failure.Some? || doc.id in p.synced then p
    else
      match NoteOf(spaceId, doc, render)
      case Err(e) => p.(failure := Some(e))
      case Ok(note) =>
        var p' := p.(posted := p.posted + [note], postedIds := p.postedIds + [doc.id]);
        match replies(i)
        case NoteTransport => p'.(failure := Some(CreateTransport))
        case NoteStatus(status) =>
          if Accepted(status) then
            p'.(synced := p.synced[doc.id := Entry(stamps(i), doc.title.s)], count := p.count + 1)
          else p'
  }

  /** The loop over the first n documents, starting from the history's entries. */
  function PassOver(start: map<string, Entry>, docs: seq<Doc>, n: nat, spaceId: string, render: Doc -> string,
                    replies: nat -> NoteReply, stamps: nat -> string): Pass
    requires n <= |docs|
  {
    if n == 0 then Pass(start, 0, [], [], None)
    else DocStep(PassOver(start, docs, n - 1, spaceId, render, replies, stamps), docs[n - 1], n - 1,
                 spaceId, render, replies, stamps)
  }

  /** `ReaderToCapacitiesSync`: the in-memory history, the history file, and the bodies posted. */
  class ReaderToCapacitiesSync {
    const spaceId: string
    var history: History
    /** The content of the history file, if there is one. */
    var savedHistory: Option<History>
    var postedNotes: seq<Note>

    /** Loads the history from the file, or starts an empty one when there is no file. */
    constructor (spaceId: string, historyFile: Option<History>)
      ensures this.spaceId == spaceId && savedHistory == historyFile && postedNotes == []
      ensures history == historyFile.GetOr(History(None, map[]))
    {
      this.spaceId := spaceId;
      history := historyFile.GetOr(History(None, map[]));
      savedHistory := historyFile;
      postedNotes := [];
    }

    /** `create_capacities_note`: builds the body, posts it, and judges the response. */
    method CreateCapacitiesNote(doc: Doc, render: Doc -> string, reply: NoteReply) returns (r: Result<bool, SyncError>)
      modifies this
      ensures history == old(history) && savedHistory == old(savedHistory)
      ensures NoteOf(spaceId, doc, render).Err? ==> r == Err(MalformedDocument) && postedNotes == old(postedNotes)
      ensures NoteOf(spaceId, doc, render).Ok? ==>
                && postedNotes == old(postedNotes) + [NoteOf(spaceId, doc, render).value]
                && (reply.NoteTransport? ==> r == Err(CreateTransport))
                && (reply.NoteStatus? ==> r == Ok(Accepted(reply.status)))
    {
      var payload := NoteOf(spaceId, doc, render);
      if payload.Err? {
        return Err(payload.error);
      }
      postedNotes := postedNotes + [payload.value];
      match reply
      case NoteTransport =>
        return Err(CreateTransport);
      case NoteStatus(status) =>
        return Ok(status == 200 || status == 201);
    }

    /**
     * `sync`: fetches the documents, creates a note for each one not yet
     * synced, and on success stamps and saves the history. On an exception
     * the history file and the last-sync time stay as they were; entries
     * added before the exception stay in memory only.
     */
    method Sync(replies: seq<ReaderReply>, render: Doc -> string, noteReplies: nat -> NoteReply,
                stamps: nat -> string, finishedAt: string)
      returns (result: SyncResult)
      requires HasStop(replies)
      modifies this
      ensures FetchAll(replies).Err? ==>
                result == Failure(FetchAll(replies).error)
                && history == old(history) && savedHistory == old(savedHistory) && postedNotes == old(postedNotes)
      ensures FetchAll(replies).Ok? ==>
                var docs := FetchAll(replies).value;
                var p := PassOver(old(history).syncedArticles, docs, |docs|, spaceId, render, noteReplies, stamps);
                && postedNotes == old(postedNotes) + p.posted
                && history.syncedArticles == p.synced
                && (p.failure.Some? ==>
                      result == Failure(p.failure.value)
                      && history.lastSync == old(history).lastSync && savedHistory == old(savedHistory))
                && (p.failure.None? ==>
                      result == Success(p.count, |docs|)
                      && history.lastSync == Some(finishedAt) && savedHistory == Some(history))
    {
      var fetched := FetchReaderDocuments(replies);
      if fetched.Err? {
        return Failure(fetched.error);
      }
      var documents := fetched.value;
      var syncedCount, failure := SyncDocuments(documents, render, noteReplies, stamps);
      if failure.Some? {
        return Failure(failure.value);
      }
      history := history.(lastSync := Some(finishedAt));
      savedHistory := Some(history);
      return Success(syncedCount, |documents|);
    }

    /**
     * The `for` loop of `sync`: each document in turn, until one raises;
     * the documents' notes are posted and their entries added as the pass
     * over them specifies, and neither `last_sync` nor the saved file changes.
     */
    method SyncDocuments(documents: seq<Doc>, render: Doc -> string, noteReplies: nat -> NoteReply,
                         stamps: nat -> string)
      returns (syncedCount: nat, failure: Option<SyncError>)
      modifies this
      ensures var p := PassOver(old(history).syncedArticles, documents, |documents|, spaceId, render, noteReplies, stamps);
              && savedHistory == old(savedHistory) && history.lastSync == old(history).lastSync
              && postedNotes == old(postedNotes) + p.posted
              && history.syncedArticles == p.synced
              && failure == p.failure
              && syncedCount == p.count
    {
      syncedCount := 0;
      failure := None;
      ghost var start := history.syncedArticles;
      for i := 0 to |documents|
        invariant savedHistory == old(savedHistory) && history.lastSync == old(history).lastSync
        invariant failure.None?
        invariant PassOver(start, documents, i, spaceId, render, noteReplies, stamps).failure.None?
        invariant history.syncedArticles == PassOver(start, documents, i, spaceId, render, noteReplies, stamps).synced
        invariant syncedCount == PassOver(start, documents, i, spaceId, render, noteReplies, stamps).count
        invariant postedNotes == old(postedNotes) + PassOver(start, documents, i, spaceId, render, noteReplies, stamps).posted
      {
        ghost var p := PassOver(start, documents, i, spaceId, render, noteReplies, stamps);
        assert PassOver(start, documents, i + 1, spaceId, render, noteReplies, stamps)
               == DocStep(p, documents[i], i, spaceId, render, noteReplies, stamps);
        syncedCount, failure := SyncDocument(documents[i], i, render, noteReplies, stamps, syncedCount, p, old(postedNotes));
        if failure.Some? {
          PassStaysFailed(start, documents, i + 1, |documents|, spaceId, render, noteReplies, stamps);
          return;
        }
      }
    }

    /**
     * One iteration of the document loop of `sync`: skips a document already
     * in the history, otherwise creates its note and, when the endpoint
     * accepted it, records the entry and counts it. The new state is that of
     * `DocStep` from the pass `p` the loop has reached.
     */
    method SyncDocument(doc: Doc, i: nat, render: Doc -> string, noteReplies: nat -> NoteReply,
                        stamps: nat -> string, syncedCount: nat, ghost p: Pass, ghost base: seq<Note>)
      returns (newCount: nat, failure: Option<SyncError>)
      requires p.failure.None? && history.syncedArticles == p.synced && syncedCount == p.count
      requires postedNotes == base + p.posted
      modifies this
      ensures savedHistory == old(savedHistory) && history.lastSync == old(history).lastSync
      ensures var q := DocStep(p, doc, i, spaceId, render, noteReplies, stamps);
              && failure == q.failure && history.syncedArticles == q.synced && newCount == q.count
              && postedNotes == base + q.posted
    {
      newCount := syncedCount;
      failure := None;
      if doc.id in history.syncedArticles {
        return;
      }
      var created := CreateCapacitiesNote(doc, render, noteReplies(i));
      if created.Err? {
        failure := Some(created.error);
        return;
      }
      if created.value {
        history := history.(syncedArticles := history.syncedArticles[doc.id := Entry(stamps(i), doc.title.s)]);
        newCount := newCount + 1;
      }
      assert base + p.posted + [NoteOf(spaceId, doc, render).value] == base + (p.posted + [NoteOf(spaceId, doc, render).value]);
    }
  }

  /**
   * One document either leaves the entries and the count as they are, or
   * adds exactly one entry, for a document not yet in the history, after an
   * accepted create, and counts it; existing entries are kept.
   */
  lemma DocStepEntries(p: Pass, doc: Doc, i: nat, spaceId: string, render: Doc -> string,
                       replies: nat -> NoteReply, stamps: nat -> string)
    ensures var r := DocStep(p, doc, i, spaceId, render, replies, stamps);
            || (r.synced == p.synced && r.count == p.count)
            || (&& doc.id !in p.synced && r.count == p.count + 1 && r.synced.Keys == p.synced.Keys + {doc.id}
                && replies(i).NoteStatus? && Accepted(replies(i).status) && NoteOf(spaceId, doc, render).Ok?
                && forall id :: id in p.synced ==> id in r.synced && r.synced[id] == p.synced[id])
  {
  }

  /** Once the loop has raised, later documents change nothing. */
  lemma {:induction false} PassStaysFailed(start: map<string, Entry>, docs: seq<Doc>, m: nat, n: nat, spaceId: string,
                                           render: Doc -> string, replies: nat -> NoteReply, stamps: nat -> string)
    requires m <= n <= |docs|
    requires PassOver(start, docs, m, spaceId, render, replies, stamps).failure.Some?
    ensures PassOver(start, docs, n, spaceId, render, replies, stamps) == PassOver(start, docs, m, spaceId, render, replies, stamps)
    decreases n - m
  {
    if m < n {
      PassStaysFailed(start, docs, m, n - 1, spaceId, render, replies, stamps);
    }
  }

  // ---------------------------------------------------------------------
  // Properties of the pass
  // ---------------------------------------------------------------------

  /** Entries already in the history are never changed or removed. */
  lemma {:induction false} PassKeepsEntries(start: map<string, Entry>, docs: seq<Doc>, n: nat, spaceId: string,
                                            render: Doc -> string, replies: nat -> NoteReply, stamps: nat -> string)
    requires n <= |docs|
    ensures var p := PassOver(start, docs, n, spaceId, render, replies, stamps);
            forall id :: id in start ==> id in p.synced && p.synced[id] == start[id]
  {
    if n > 0 {
      PassKeepsEntries(start, docs, n - 1, spaceId, render, replies, stamps);
      DocStepEntries(PassOver(start, docs, n - 1, spaceId, render, replies, stamps), docs[n - 1], n - 1,
                     spaceId, render, replies, stamps);
    }
  }

  /** The history's keys only grow while the loop runs. */
  lemma {:induction false} PassKeysGrowFrom(start: map<string, Entry>, docs: seq<Doc>, m: nat, n: nat, spaceId: string,
                                            render: Doc -> string, replies: nat -> NoteReply, stamps: nat -> string)
    requires m <= n <= |docs|
    ensures PassOver(start, docs, m, spaceId, render, replies, stamps).synced.Keys
            <= PassOver(start, docs, n, spaceId, render, replies, stamps).synced.Keys
    decreases n - m
  {
    if m < n {
      PassKeysGrowFrom(start, docs, m, n - 1, spaceId, render, replies, stamps);
      DocStepEntries(PassOver(start, docs, n - 1, spaceId, render, replies, stamps), docs[n - 1], n - 1,
                     spaceId, render, replies, stamps);
    }
  }

  /**
   * The skip uses the live history: a document whose id was in the history
   * at any earlier point of the loop, including one added for an earlier
   * copy of it in the same listing, is passed over without a post.
   */
  lemma PassSkipsSyncedInPass(start: map<string, Entry>, docs: seq<Doc>, m: nat, n: nat, spaceId: string,
                              render: Doc -> string, replies: nat -> NoteReply, stamps: nat -> string)
    requires m < n <= |docs|
    requires docs[n - 1].id in PassOver(start, docs, m, spaceId, render, replies, stamps).synced
    ensures PassOver(start, docs, n, spaceId, render, replies, stamps)
            == PassOver(start, docs, n - 1, spaceId, render, replies, stamps)
  {
    PassKeysGrowFrom(start, docs, m, n - 1, spaceId, render, replies, stamps);
  }

  /** No note is ever posted for a document already in the history. */
  lemma {:induction false} PassPostsOnlyUnsynced(start: map<string, Entry>, docs: seq<Doc>, n: nat, spaceId: string,
                                                 render: Doc -> string, replies: nat -> NoteReply, stamps: nat -> string)
    requires n <= |docs|
    ensures var p := PassOver(start, docs, n, spaceId, render, replies, stamps);
            |p.postedIds| == |p.posted| && forall k :: 0 <= k < |p.postedIds| ==> p.postedIds[k] !in start
  {
    if n > 0 {
      PassPostsOnlyUnsynced(start, docs, n - 1, spaceId, render, replies, stamps);
      PassKeepsEntries(start, docs, n - 1, spaceId, render, replies, stamps);
    }
  }

  /** A new entry is added only for a document whose note the endpoint accepted. */
  lemma {:induction false} PassEntriesOnlyAfterCreate(start: map<string, Entry>, docs: seq<Doc>, n: nat, spaceId: string,
                                                      render: Doc -> string, replies: nat -> NoteReply,
                                                      stamps: nat -> string, id: string)
    requires n <= |docs|
    requires id in PassOver(start, docs, n, spaceId, render, replies, stamps).synced && id !in start
    ensures exists i :: 0 <= i < n && docs[i].id == id && replies(i).NoteStatus? && Accepted(replies(i).status)
                        && NoteOf(spaceId, docs[i], render).Ok?
  {
    var before := PassOver(start, docs, n - 1, spaceId, render, replies, stamps);
    DocStepEntries(before, docs[n - 1], n - 1, spaceId, render, replies, stamps);
    if id in before.synced {
      PassEntriesOnlyAfterCreate(start, docs, n - 1, spaceId, render, replies, stamps, id);
      var i :| 0 <= i < n - 1 && docs[i].id == id && replies(i).NoteStatus? && Accepted(replies(i).status)
               && NoteOf(spaceId, docs[i], render).Ok?;
    } else {
      assert docs[n - 1].id == id;
    }
  }

  /** The pass has counted exactly the entries it added to `start`. */
  predicate CountsNewKeys(start: map<string, Entry>, p: Pass) {
    p.count + |start| == |p.synced|
  }

  /** One document keeps the count equal to the number of entries added. */
  lemma DocStepCount(p: Pass, doc: Doc, i: nat, spaceId: string, render: Doc -> string,
                     replies: nat -> NoteReply, stamps: nat -> string, start: map<string, Entry>)
    requires CountsNewKeys(start, p)
    ensures CountsNewKeys(start, DocStep(p, doc, i, spaceId, render, replies, stamps))
  {
    var r := DocStep(p, doc, i, spaceId, render, replies, stamps);
    DocStepEntries(p, doc, i, spaceId, render, replies, stamps);
    if r.synced != p.synced || r.count != p.count {
      assert |r.synced.Keys| == |p.synced.Keys| + 1;
    }
  }

  /** `synced_count` is the number of entries the pass added. */
  lemma {:induction false} PassCountIsNewEntries(start: map<string, Entry>, docs: seq<Doc>, n: nat, spaceId: string,
                                                 render: Doc -> string, replies: nat -> NoteReply, stamps: nat -> string)
    requires n <= |docs|
    ensures CountsNewKeys(start, PassOver(start, docs, n, spaceId, render, replies, stamps))
  {
    if n > 0 {
      var before := PassOver(start, docs, n - 1, spaceId, render, replies, stamps);
      PassCountIsNewEntries(start, docs, n - 1, spaceId, render, replies, stamps);
      DocStepCount(before, docs[n - 1], n - 1, spaceId, render, replies, stamps, start);
    }
  }
}
