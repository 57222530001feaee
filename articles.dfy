/**
 * The pure helpers of main.py: choosing an article's URL, cleaning
 * YouTube-style titles, selecting and ordering an article's highlights,
 * and rendering highlights as the markdown section of a weblink.
 */
module Articles {
  import opened Wrappers
  import opened Text
  import opened Sorting

  /** A JSON object member as `dict.get` sees it: absent, present as null, or a string. */
  datatype Field = Missing | Null | Str(s: string)

  /** `d.get(key, default)`. */
  function Get(f: Field, default: Option<string>): Option<string> {
    match f
    case Missing => default
    case Null => None
    case Str(s) => Some(s)
  }

  /**
   * A Reader document as the sync reads it. `readingProgress` is the already
   * rendered percentage text, present when the progress is non-zero;
   * `tags` are the keys of the document's tag object, in order.
   */
  datatype Article = Article(
    id: string,
    title: string,
    sourceUrl: Field,
    url: Field,
    summary: Field,
    author: Field,
    notes: Field,
    readingProgress: Option<string>,
    tags: seq<string>)

  /** A highlight as listed by Reader; absent `content` and `notes` read as "". */
  datatype Highlight = Highlight(
    parentId: Option<string>,
    createdAt: Option<string>,
    position: Option<int>,
    content: string,
    notes: string)

  /**
   * The URL a weblink is created for: the original source URL when there is
   * one, the Reader URL otherwise. The branch for YouTube links in the source
   * returns the same value as the general rule.
   */
  function ProcessArticleUrl(a: Article): (r: Option<string>)
    ensures Truthy(Get(a.sourceUrl, None)) ==> r == Some(a.sourceUrl.s)
    ensures !Truthy(Get(a.sourceUrl, None)) ==> r == Get(a.url, None)
  {
    var sourceUrl := Get(a.sourceUrl, None);
    var url := Get(a.url, None);
    if Truthy(sourceUrl) && Contains(sourceUrl.value, "youtube.com") then sourceUrl
    else if Truthy(sourceUrl) then sourceUrl
    else url
  }

  function StripAll(parts: seq<string>): (r: seq<string>)
    ensures |r| == |parts|
    ensures forall i :: 0 <= i < |parts| ==> r[i] == Strip(parts[i])
  {
    seq(|parts|, i requires 0 <= i < |parts| => Strip(parts[i]))
  }

  /**
   * `clean_youtube_title`: a title with a "|" is split at every "|", each
   * piece stripped, the first piece title-cased, and the pieces joined with
   * ": ". Any other title is returned unchanged.
   */
  function CleanYoutubeTitle(title: string): (r: string)
    ensures '|' !in title ==> r == title
    ensures '|' !in r
  {
    if '|' in title then
      var parts := StripAll(Split(title, {'|'}));
      var first := TitleCase(parts[0]);
      assert '|' !in first by {
        forall i | 0 <= i < |first| ensures first[i] != '|' {
          assert first[i] == TitleAt(parts[0], i);
        }
      }
      JoinAvoids(parts[0 := first], ": ", '|');
      Join(parts[0 := first], ": ")
    else
      title
  }

  /** Cleaning a title twice changes nothing more than cleaning it once. */
  lemma CleanYoutubeTitleIdempotent(title: string)
    ensures CleanYoutubeTitle(CleanYoutubeTitle(title)) == CleanYoutubeTitle(title)
  {
  }

  /**
   * A cleaned title is the stripped pieces joined by ": ", except that the
   * letters of the first piece may change case; nothing after the first
   * piece is touched.
   */
  lemma CleanYoutubeTitleOnlyFirstPiece(title: string)
    requires '|' in title
    ensures var plain := Join(StripAll(Split(title, {'|'})), ": ");
            var first := Strip(Split(title, {'|'})[0]);
            var r := CleanYoutubeTitle(title);
            && |r| == |plain|
            && r[..|first|] == TitleCase(first)
            && r[|first|..] == plain[|first|..]
  {
    var parts := StripAll(Split(title, {'|'}));
    JoinReplaceFirst(parts, TitleCase(parts[0]), ": ");
  }

  /** `[h for h in results if h.get("parent_id") == article_id]`. */
  function FilterByParent(results: seq<Highlight>, articleId: string): (r: seq<Highlight>)
    ensures |r| <= |results|
    ensures forall h :: h in r <==> h in results && h.parentId == Some(articleId)
  {
    if results == [] then []
    else
      (if results[0].parentId == Some(articleId) then [results[0]] else [])
      + FilterByParent(results[1..], articleId)
  }

  /** The comprehension keeps listing order: filtering a concatenation filters each part. */
  lemma {:induction false} FilterByParentAppend(a: seq<Highlight>, b: seq<Highlight>, articleId: string)
    ensures FilterByParent(a + b, articleId) == FilterByParent(a, articleId) + FilterByParent(b, articleId)
  {
    if a != [] {
      var rest := a[1..];
      var head: seq<Highlight> := if a[0].parentId == Some(articleId) then [a[0]] else [];
      assert (a + b)[1..] == rest + b;
      assert (a + b)[0] == a[0];
      assert FilterByParent(a + b, articleId) == head + FilterByParent(rest + b, articleId);
      assert FilterByParent(a, articleId) == head + FilterByParent(rest, articleId);
      FilterByParentAppend(rest, b, articleId);
      ConsShift(head, FilterByParent(rest + b, articleId), FilterByParent(rest, articleId), FilterByParent(b, articleId),
                FilterByParent(a + b, articleId), FilterByParent(a, articleId));
    } else {
      assert a + b == b;
    }
  }

  /** A common head moved across a concatenation. */
  lemma ConsShift<T>(head: seq<T>, tail: seq<T>, front: seq<T>, back: seq<T>, whole: seq<T>, part: seq<T>)
    requires whole == head + tail && part == head + front && tail == front + back
    ensures whole == part + back
  {
    SeqAssoc(head, front, back);
  }

  /** The comprehension keeps duplicates: a matching highlight is kept as often as it is listed, any other never. */
  lemma {:induction false} FilterByParentCounts(results: seq<Highlight>, articleId: string)
    ensures forall h :: multiset(FilterByParent(results, articleId))[h]
                        == if h.parentId == Some(articleId) then multiset(results)[h] else 0
  {
    if results != [] {
      var rest := results[1..];
      var head: seq<Highlight> := if results[0].parentId == Some(articleId) then [results[0]] else [];
      assert results == [results[0]] + rest;
      assert FilterByParent(results, articleId) == head + FilterByParent(rest, articleId);
      FilterByParentCounts(rest, articleId);
    }
  }

  function CreatedAtKey(h: Highlight): string { h.createdAt.GetOr("") }

  function PositionKey(h: Highlight): int { h.position.GetOr(0) }

  /** The highlights of one article, ordered by creation time (stable), as `get_highlights_for_article` keeps them. */
  function HighlightsOf(results: seq<Highlight>, articleId: string): seq<Highlight> {
    SortBy(FilterByParent(results, articleId), CreatedAtKey, StrLe)
  }

  /**
   * The highlights kept for an article are exactly the listed ones whose
   * parent is that article, ordered by creation time, ties in listing order.
   */
  lemma HighlightsOfSpec(results: seq<Highlight>, articleId: string)
    ensures var r := HighlightsOf(results, articleId);
            && multiset(r) == multiset(FilterByParent(results, articleId))
            && (forall h :: h in r <==> h in results && h.parentId == Some(articleId))
            && SortedBy(r, CreatedAtKey, StrLe)
            && (forall k :: WithKey(r, CreatedAtKey, k) == WithKey(FilterByParent(results, articleId), CreatedAtKey, k))
  {
    var f := FilterByParent(results, articleId);
    StrLeTotal();
    SortBySorted(f, CreatedAtKey, StrLe);
    forall k ensures WithKey(SortBy(f, CreatedAtKey, StrLe), CreatedAtKey, k) == WithKey(f, CreatedAtKey, k) {
      SortByStable(f, CreatedAtKey, StrLe, k);
    }
    var r := HighlightsOf(results, articleId);
    forall h ensures h in r <==> h in f {
      assert h in r <==> h in multiset(r);
      assert h in f <==> h in multiset(f);
    }
  }

  /** The order `format_highlights_markdown` renders highlights in. */
  function SortByPosition(hs: seq<Highlight>): seq<Highlight> {
    SortBy(hs, PositionKey, IntLe)
  }

  /** Rendering order is a permutation ordered by position (absent = 0), ties in input order. */
  lemma SortByPositionSpec(hs: seq<Highlight>)
    ensures multiset(SortByPosition(hs)) == multiset(hs)
    ensures SortedBy(SortByPosition(hs), PositionKey, IntLe)
    ensures forall k :: WithKey(SortByPosition(hs), PositionKey, k) == WithKey(hs, PositionKey, k)
  {
    IntLeTotal();
    SortBySorted(hs, PositionKey, IntLe);
    forall k ensures WithKey(SortByPosition(hs), PositionKey, k) == WithKey(hs, PositionKey, k) {
      SortByStable(hs, PositionKey, IntLe, k);
    }
  }

  const Header := "## Anotações"

  function Bullet(text: string): string { "\n* " + text }

  function NoteLine(note: string): string { "  \n  *Nota: " + note + "*" }

  predicate IsBulletLine(line: string) { |line| > 0 && line[0] == '\n' }

  predicate IsNoteLine(line: string) { |line| > 0 && line[0] == ' ' }

  /** The lines one highlight contributes: none when its text is blank, else its bullet and, if it has one, its note. */
  function Block(h: Highlight): seq<string> {
    var text := Strip(h.content);
    var note := Strip(h.notes);
    if text == "" then []
    else [Bullet(text)] + (if note == "" then [] else [NoteLine(note)])
  }

  function Blocks(hs: seq<Highlight>): seq<string> {
    if hs == [] then [] else Blocks(hs[..|hs| - 1]) + Block(hs[|hs| - 1])
  }

  /** The bullet lines among some lines, in order. */
  function BulletLines(lines: seq<string>): seq<string> {
    if lines == [] then []
    else BulletLines(lines[..|lines| - 1]) + (if IsBulletLine(lines[|lines| - 1]) then [lines[|lines| - 1]] else [])
  }

  /** One bullet per highlight whose stripped text is non-empty, in order. */
  function ExpectedBullets(hs: seq<Highlight>): seq<string> {
    if hs == [] then []
    else
      var text := Strip(hs[|hs| - 1].content);
      ExpectedBullets(hs[..|hs| - 1]) + (if text != "" then [Bullet(text)] else [])
  }

  lemma {:induction false} BulletLinesAppend(a: seq<string>, b: seq<string>)
    ensures BulletLines(a + b) == BulletLines(a) + BulletLines(b)
  {
    if b != [] {
      assert (a + b)[..|a + b| - 1] == a + b[..|b| - 1];
      BulletLinesAppend(a, b[..|b| - 1]);
    } else {
      assert a + b == a;
    }
  }

  lemma BlockBullets(h: Highlight)
    ensures BulletLines(Block(h)) == if Strip(h.content) != "" then [Bullet(Strip(h.content))] else []
  {
    var text := Strip(h.content);
    var note := Strip(h.notes);
    if text != "" {
      var bullet := Bullet(text);
      assert IsBulletLine(bullet);
      if note == "" {
        assert Block(h) == [bullet];
        assert BulletLines([bullet]) == BulletLines([]) + [bullet];
      } else {
        var line := NoteLine(note);
        assert !IsBulletLine(line);
        assert Block(h) == [bullet, line];
        assert [bullet, line][..1] == [bullet];
        assert BulletLines([bullet]) == BulletLines([]) + [bullet];
      }
    }
  }

  /** The rendered lines hold exactly one bullet per highlight with text, in the given order, and no empty bullet. */
  lemma {:induction false} BlocksBullets(hs: seq<Highlight>)
    ensures BulletLines(Blocks(hs)) == ExpectedBullets(hs)
  {
    if hs != [] {
      var init := hs[..|hs| - 1];
      var h := hs[|hs| - 1];
      BlocksBullets(init);
      BulletLinesAppend(Blocks(init), Block(h));
      BlockBullets(h);
    }
  }

  /** Every note line directly follows the bullet of the same highlight. */
  lemma {:induction false} NoteFollowsItsBullet(hs: seq<Highlight>, i: nat)
    requires i < |Blocks(hs)|
    requires IsNoteLine(Blocks(hs)[i])
    ensures i > 0
    ensures exists j :: 0 <= j < |hs|
              && Blocks(hs)[i - 1] == Bullet(Strip(hs[j].content))
              && Blocks(hs)[i] == NoteLine(Strip(hs[j].notes))
  {
    var init := hs[..|hs| - 1];
    var h := hs[|hs| - 1];
    var b := Blocks(init);
    if i < |b| {
      NoteFollowsItsBullet(init, i);
      var j :| 0 <= j < |init| && b[i - 1] == Bullet(Strip(init[j].content)) && b[i] == NoteLine(Strip(init[j].notes));
      assert hs[j] == init[j];
    } else {
      var blk := Block(h);
      assert Blocks(hs)[i] == blk[i - |b|];
      assert blk[0] == Bullet(Strip(h.content));
      assert i - |b| == 1;
      assert Blocks(hs)[i - 1] == blk[0];
    }
  }

  lemma BlocksSnoc(hs: seq<Highlight>, i: nat)
    requires i < |hs|
    ensures Blocks(hs[..i + 1]) == Blocks(hs[..i]) + Block(hs[i])
  {
    assert hs[..i + 1][..i] == hs[..i];
  }

  lemma SeqAssoc<T>(a: seq<T>, b: seq<T>, c: seq<T>)
    ensures (a + b) + c == a + (b + c)
  {
  }

  /**
   * The markdown section for some highlights: "" for none; otherwise the
   * header followed by the blocks of the highlights in position order, one
   * per line.
   */
  function HighlightsMarkdown(highlights: seq<Highlight>): (md: string)
    ensures md == "" <==> highlights == []
    ensures highlights != [] ==> Header <= md
  {
    if highlights == [] then ""
    else
      var parts := [Header] + Blocks(SortByPosition(highlights));
      assert Header <= Join(parts, "\n") by {
        JoinStartsWithFirst(parts, "\n");
      }
      Join(parts, "\n")
  }

  /** One turn of the loop in `format_highlights_markdown`: the lines of one highlight appended. */
  method AppendBlock(parts: seq<string>, h: Highlight) returns (extended: seq<string>)
    ensures extended == parts + Block(h)
  {
    extended := parts;
    var text := Strip(h.content);
    if text != "" {
      extended := extended + [Bullet(text)];
      var note := Strip(h.notes);
      if note != "" {
        extended := extended + [NoteLine(note)];
        assert extended == parts + [Bullet(text), NoteLine(note)];
      }
    }
  }

  /** `format_highlights_markdown`, building the lines one highlight at a time. */
  method FormatHighlightsMarkdown(highlights: seq<Highlight>) returns (md: string)
    ensures md == HighlightsMarkdown(highlights)
  {
    if highlights == [] {
      return "";
    }
    var parts := MarkdownLines(SortByPosition(highlights));
    md := Join(parts, "\n");
  }

  /** The header line, then each highlight's block, in the given order. */
  method MarkdownLines(sorted: seq<Highlight>) returns (parts: seq<string>)
    ensures parts == [Header] + Blocks(sorted)
  {
    parts := [Header];
    assert Blocks(sorted[..0]) == [];
    for i := 0 to |sorted|
      invariant parts == [Header] + Blocks(sorted[..i])
    {
      parts := AppendBlock(parts, sorted[i]);
      BlocksSnoc(sorted, i);
      SeqAssoc([Header], Blocks(sorted[..i]), Block(sorted[i]));
    }
    assert sorted[..|sorted|] == sorted;
  }
}
