/**
 * capacities_client.py: the request body `create_weblink` posts to
 * Capacities' save-weblink endpoint. The body always names the space and the
 * URL; title, description, tags and markdown text are added only when given
 * and non-empty, each cut to the endpoint's limit.
 */
module Capacities {
  import opened Wrappers
  import opened Text

  const TitleLimit := 500
  const DescriptionLimit := 1000
  const TagLimit := 30
  const MdTextLimit := 200000
  const AuthorLabel := "**Autor:** "
  const MdSeparator := "\n\n"

  /** The JSON object posted: `spaceId`, `url` and four optional keys. */
  datatype Payload = Payload(
    spaceId: string,
    url: string,
    titleOverwrite: Option<string>,
    descriptionOverwrite: Option<string>,
    tags: Option<seq<string>>,
    mdText: Option<string>)

  /**
   * The markdown text: an author line and the notes, separated by a blank
   * line, each only when given; nothing when neither is.
   */
  function MarkdownText(notes: Option<string>, author: Option<string>): (r: Option<string>)
    ensures r.Some? <==> Truthy(author) || Truthy(notes)
    ensures Truthy(author) && Truthy(notes) ==> r == Some(AuthorLabel + author.value + MdSeparator + notes.value)
    ensures Truthy(author) && !Truthy(notes) ==> r == Some(AuthorLabel + author.value)
    ensures !Truthy(author) && Truthy(notes) ==> r == Some(notes.value)
  {
    var authorPart := if Truthy(author) then [AuthorLabel + author.value] else [];
    var notesPart := if Truthy(notes) then [notes.value] else [];
    var mdParts := authorPart + notesPart;
    assert |mdParts| == 2 ==> Join(mdParts[1..], MdSeparator) == notes.value by {
      if |mdParts| == 2 {
        assert mdParts[1..] == [notes.value];
      }
    }
    if mdParts != [] then Some(Join(mdParts, MdSeparator)) else None
  }

  /** A field cut to a limit: present iff given, then the input's first `limit` items. */
  function Bounded<T>(v: Option<seq<T>>, limit: nat): (r: Option<seq<T>>)
    ensures r.Some? <==> Truthy(v)
    ensures r.Some? ==> r.value <= v.value && |r.value| == if |v.value| <= limit then |v.value| else limit
  {
    if Truthy(v) then Some(Take(v.value, limit)) else None
  }

  /** The body `create_weblink` posts for its arguments. */
  function WeblinkPayload(spaceId: string, url: string, title: Option<string>, description: Option<string>,
                          tags: Option<seq<string>>, notes: Option<string>, author: Option<string>): (p: Payload)
    ensures p.spaceId == spaceId && p.url == url
    ensures p.titleOverwrite.Some? <==> Truthy(title)
    ensures p.titleOverwrite.Some? ==>
              && p.titleOverwrite.value <= title.value
              && |p.titleOverwrite.value| == if |title.value| <= TitleLimit then |title.value| else TitleLimit
    ensures p.titleOverwrite.Some? && |title.value| <= TitleLimit ==> p.titleOverwrite == title
    ensures p.descriptionOverwrite.Some? <==> Truthy(description)
    ensures p.descriptionOverwrite.Some? ==>
              && p.descriptionOverwrite.value <= description.value
              && |p.descriptionOverwrite.value|
                 == if |description.value| <= DescriptionLimit then |description.value| else DescriptionLimit
    ensures p.descriptionOverwrite.Some? && |description.value| <= DescriptionLimit ==> p.descriptionOverwrite == description
    ensures p.tags.Some? <==> Truthy(tags)
    ensures p.tags.Some? ==>
              && p.tags.value <= tags.value
              && |p.tags.value| == if |tags.value| <= TagLimit then |tags.value| else TagLimit
    ensures p.tags.Some? && |tags.value| <= TagLimit ==> p.tags == tags
    ensures p.mdText.Some? <==> Truthy(author) || Truthy(notes)
    ensures p.mdText.Some? ==>
              && p.mdText.value <= MarkdownText(notes, author).value
              && |p.mdText.value| == if |MarkdownText(notes, author).value| <= MdTextLimit
                                     then |MarkdownText(notes, author).value| else MdTextLimit
    ensures p.mdText.Some? && |MarkdownText(notes, author).value| <= MdTextLimit ==> p.mdText == MarkdownText(notes, author)
  {
    Payload(spaceId, url,
            Bounded(title, TitleLimit),
            Bounded(description, DescriptionLimit),
            Bounded(tags, TagLimit),
            Bounded(MarkdownText(notes, author), MdTextLimit))
  }

  /** The markdown parts of `create_weblink`, joined by a blank line; none when there are no parts. */
  method AssembleMarkdown(notes: Option<string>, author: Option<string>) returns (mdText: Option<string>)
    ensures mdText == MarkdownText(notes, author)
  {
    var mdParts: seq<string> := [];
    if Truthy(author) {
      mdParts := mdParts + [AuthorLabel + author.value];
    }
    if Truthy(notes) {
      mdParts := mdParts + [notes.value];
    }
    mdText := if mdParts != [] then Some(Join(mdParts, MdSeparator)) else None;
  }

  /** The body of `create_weblink`, key by key, each optional key cut to its limit. */
  method AssemblePayload(spaceId: string, url: string, title: Option<string>, description: Option<string>,
                         tags: Option<seq<string>>, mdText: Option<string>)
    returns (payload: Payload)
    ensures payload == Payload(spaceId, url, Bounded(title, TitleLimit), Bounded(description, DescriptionLimit),
                               Bounded(tags, TagLimit), Bounded(mdText, MdTextLimit))
  {
    payload := Payload(spaceId, url, None, None, None, None);
    if Truthy(title) {
      payload := payload.(titleOverwrite := Some(Take(title.value, TitleLimit)));
    }
    if Truthy(description) {
      payload := payload.(descriptionOverwrite := Some(Take(description.value, DescriptionLimit)));
    }
    if Truthy(tags) {
      payload := payload.(tags := Some(Take(tags.value, TagLimit)));
    }
    if Truthy(mdText) {
      payload := payload.(mdText := Some(Take(mdText.value, MdTextLimit)));
    }
  }

  /** What the endpoint answers: a created weblink, or an error the client re-raises. */
  datatype WeblinkReply = Created(weblinkId: string) | RequestFailed

  /**
   * `CapacitiesClient`: holds the space id; `posted` records every body sent
   * to the endpoint, in order.
   */
  class CapacitiesClient {
    const token: string
    const spaceId: string
    var posted: seq<Payload>

    constructor (token: string, spaceId: string)
      ensures this.token == token && this.spaceId == spaceId
      ensures posted == []
    {
      this.token := token;
      this.spaceId := spaceId;
      posted := [];
    }

    /**
     * `create_weblink`: assembles the markdown parts and the body key by key,
     * posts it once, and returns the created weblink, or fails when the
     * request does.
     */
    method CreateWeblink(url: string, title: Option<string>, description: Option<string>,
                         tags: Option<seq<string>>, notes: Option<string>, author: Option<string>,
                         reply: WeblinkReply)
      returns (r: Result<string, WeblinkReply>)
      modifies this
      ensures posted == old(posted) + [WeblinkPayload(spaceId, url, title, description, tags, notes, author)]
      ensures r.Ok? <==> reply.Created?
      ensures r.Ok? ==> r.value == reply.weblinkId
    {
      var mdText := AssembleMarkdown(notes, author);
      var payload := AssemblePayload(spaceId, url, title, description, tags, mdText);
      posted := posted + [payload];
      match reply
      case Created(id) =>
        r := Ok(id);
      case RequestFailed =>
        r := Err(reply);
    }
  }
}
