/**
 * Page metadata for search engines and link previews: the site-wide defaults,
 * the Open Graph and Twitter card records built from one title and
 * description, the article variant, and the description taken from a post.
 */
module Seo {
  import opened Wrappers

  const BaseUrl := "https://puzzles.slash.com"
  const DefaultTitle := "Slash Engineering | Puzzles"
  const DefaultDescription :=
    "Explore Slash's engineering blog and coding puzzles where we share our technical insights and interesting challenges."
  const SiteName := "Slash | Puzzles"
  const OgImageUrl := "/og-image.png"
  const OgImageWidth := 1200
  const OgImageHeight := 630

  datatype Image = Image(url: string, width: nat, height: nat, alt: string)

  /** The `openGraph` record; `publishedTime` and `authors` are None where the record has no such key. */
  datatype OpenGraph = OpenGraph(
    ogType: string,
    locale: string,
    url: string,
    title: string,
    description: string,
    siteName: string,
    images: seq<Image>,
    publishedTime: Option<string>,
    authors: Option<seq<string>>)

  datatype Twitter = Twitter(card: string, title: string, description: string, images: seq<string>)

  datatype Metadata = Metadata(title: string, description: string, openGraph: OpenGraph, twitter: Twitter)

  /** Parameters of the base metadata; None is a parameter left undefined. */
  datatype BaseParams = BaseParams(title: Option<string>, description: Option<string>, path: Option<string>)

  datatype ArticleParams = ArticleParams(
    title: Option<string>,
    description: Option<string>,
    path: Option<string>,
    publishedTime: Option<string>,
    authors: Option<seq<string>>)

  // ---------------------------------------------------------------------------
  // Page URLs

  /** The canonical URL of a page: the site root for an empty or absent path. */
  function PageUrl(path: Option<string>): (url: string)
    ensures |url| >= |BaseUrl| && url[..|BaseUrl|] == BaseUrl
    ensures url == BaseUrl <==> path.None? || path.value == ""
  {
    if path.Some? && path.value != "" then BaseUrl + "/" + path.value else BaseUrl
  }

  /** The page path a URL of the site names, if it is one. */
  function PathOfUrl(url: string): Option<string> {
    if url == BaseUrl then Some("")
    else if |url| > |BaseUrl| + 1 && url[..|BaseUrl| + 1] == BaseUrl + "/" then Some(url[|BaseUrl| + 1..])
    else None
  }

  /** The URL gives back the path it was built from (an absent path reads as the empty one). */
  lemma PageUrlRoundTrip(path: Option<string>)
    ensures PathOfUrl(PageUrl(path)) == Some(path.GetOr(""))
  {
    if path.Some? && path.value != "" {
      var url := BaseUrl + "/" + path.value;
      assert url[..|BaseUrl| + 1] == BaseUrl + "/";
      assert url[|BaseUrl| + 1..] == path.value;
    }
  }

  /** Different non-empty paths never share a URL. */
  lemma PageUrlInjective(p: string, q: string)
    requires PageUrl(Some(p)) == PageUrl(Some(q))
    ensures p == q
  {
    PageUrlRoundTrip(Some(p));
    PageUrlRoundTrip(Some(q));
  }

  // ---------------------------------------------------------------------------
  // Metadata records

  /**
   * `SEO.getBaseMetadata`: one title and one description, defaulted when
   * undefined, appear at top level, in the Open Graph record and in the
   * Twitter card; the preview image is described by the title.
   */
  function BaseMetadata(params: BaseParams): (m: Metadata)
    ensures m.title == params.title.GetOr(DefaultTitle)
    ensures m.description == params.description.GetOr(DefaultDescription)
    ensures m.openGraph.title == m.title && m.twitter.title == m.title
    ensures m.openGraph.description == m.description && m.twitter.description == m.description
    ensures m.openGraph.url == PageUrl(params.path)
    ensures m.openGraph.ogType == "website" && m.openGraph.locale == "en_US" && m.openGraph.siteName == SiteName
    ensures m.openGraph.images == [Image(OgImageUrl, OgImageWidth, OgImageHeight, m.title)]
    ensures m.openGraph.publishedTime.None? && m.openGraph.authors.None?
    ensures m.twitter.card == "summary_large_image" && m.twitter.images == [OgImageUrl]
  {
    var title := params.title.GetOr(DefaultTitle);
    var description := params.description.GetOr(DefaultDescription);
    var url := PageUrl(params.path);
    Metadata(
      title,
      description,
      OpenGraph(
        "website", "en_US", url, title, description, SiteName,
        [Image(OgImageUrl, OgImageWidth, OgImageHeight, title)],
        None, None),
      Twitter("summary_large_image", title, description, [OgImageUrl]))
  }

  /**
   * `SEO.getArticleMetadata`: the base metadata for the same title,
   * description and path, whose Open Graph record becomes an article with a
   * publication time and authors; nothing else differs.
   */
  function ArticleMetadata(params: ArticleParams): (m: Metadata)
    ensures var base := BaseMetadata(BaseParams(params.title, params.description, params.path));
      && m.title == base.title && m.description == base.description && m.twitter == base.twitter
      && m.openGraph.ogType == "article"
      && m.openGraph.publishedTime == params.publishedTime && m.openGraph.authors == params.authors
      && m.openGraph.(ogType := "website", publishedTime := None, authors := None) == base.openGraph
  {
    var base := BaseMetadata(BaseParams(params.title, params.description, params.path));
    base.(openGraph := base.openGraph.(ogType := "article", publishedTime := params.publishedTime, authors := params.authors))
  }

  /** An article keeps the base record's agreement between title, description, URL and image. */
  lemma ArticleMetadataConsistent(params: ArticleParams)
    ensures var m := ArticleMetadata(params);
      && m.openGraph.title == m.title && m.twitter.title == m.title
      && m.openGraph.description == m.description && m.twitter.description == m.description
      && m.openGraph.url == PageUrl(params.path)
      && m.openGraph.images == [Image(OgImageUrl, OgImageWidth, OgImageHeight, m.title)]
  {
  }

  // ---------------------------------------------------------------------------
  // Descriptions

  const MaxDescriptionLength := 160
  const DefaultDescriptionSentence := "Read more on Slash Engineering Puzzles"

  /**
   * The first match of `/<p>(.*?)<\/p>|^(.*?)(\n\n|\n$)/m` in a post's
   * content: the first paragraph's text and the leading line's text, None
   * for a group that did not take part in the match.
   */
  datatype ParagraphMatch = ParagraphMatch(paragraph: Option<string>, leadingLine: Option<string>)

  /** JavaScript truthiness of an optional string. */
  predicate Truthy(s: Option<string>) {
    s.Some? && s.value != ""
  }

  /** The sentence used when the content has no paragraph to take. */
  function FallbackSentence(fallbackTitle: Option<string>, fallbackAuthor: Option<string>): (s: string)
    ensures Truthy(fallbackTitle) && Truthy(fallbackAuthor) ==>
              s == "Read " + fallbackTitle.value + " by " + fallbackAuthor.value + " on Puzzles"
    ensures !(Truthy(fallbackTitle) && Truthy(fallbackAuthor)) ==> s == DefaultDescriptionSentence
  {
    if Truthy(fallbackTitle) && Truthy(fallbackAuthor)
    then "Read " + fallbackTitle.value + " by " + fallbackAuthor.value + " on Puzzles"
    else DefaultDescriptionSentence
  }

  /**
   * The text to describe: the paragraph when it is non-empty, else the
   * leading line; the fallback sentence when nothing matched. None is the
   * `undefined` that `m[1] || m[2]` gives for an empty first paragraph.
   */
  function ExtractedText(firstParagraph: Option<ParagraphMatch>, fallbackTitle: Option<string>,
                         fallbackAuthor: Option<string>): (t: Option<string>)
    ensures firstParagraph.None? ==> t == Some(FallbackSentence(fallbackTitle, fallbackAuthor))
    ensures firstParagraph.Some? && Truthy(firstParagraph.value.paragraph) ==> t == firstParagraph.value.paragraph
    ensures firstParagraph.Some? && !Truthy(firstParagraph.value.paragraph) ==> t == firstParagraph.value.leadingLine
  {
    match firstParagraph
    case None => Some(FallbackSentence(fallbackTitle, fallbackAuthor))
    case Some(m) => if Truthy(m.paragraph) then m.paragraph else m.leadingLine
  }

  /** What follows the end of a tag: the text after the first '>', or nothing if the tag is never closed. */
  function SkipTag(s: string): (rest: string)
    ensures |rest| <= |s| && rest == s[|s| - |rest|..]
    ensures '>' !in s ==> rest == []
  {
    if s == [] then []
    else if s[0] == '>' then s[1..]
    else SkipTag(s[1..])
  }

  /**
   * `replace(/<[^>]*>?/gm, '')`: each '<' starts a match that runs to the
   * next '>' inclusive, or to the end of the text; everything else is kept.
   */
  function StripTags(s: string): (r: string)
    ensures '<' !in r
    ensures |r| <= |s|
    ensures '<' !in s ==> r == s
    decreases |s|
  {
    if s == [] then []
    else if s[0] == '<' then StripTags(SkipTag(s[1..]))
    else [s[0]] + StripTags(s[1..])
  }

  /** Stripping tags is idempotent. */
  lemma StripTagsIdempotent(s: string)
    ensures StripTags(StripTags(s)) == StripTags(s)
  {
  }

  /** A closed tag after tag-free text is removed whole, and the rest is stripped as before. */
  lemma StripTagsRemovesClosedTag(x: string, tag: string, y: string)
    requires '<' !in x && '>' !in tag
    ensures StripTags(x + "<" + tag + ">" + y) == x + StripTags(y)
  {
    var closed := tag + ">" + y;
    ClosedTagSplit(x, tag, y);
    StripTagsKeepsText(x, ['<'] + closed);
    StripTagsAtOpen(closed);
    SkipTagPastClosingBracket(tag, y);
  }

  lemma ClosedTagSplit(x: string, tag: string, y: string)
    ensures x + "<" + tag + ">" + y == x + (['<'] + (tag + ">" + y))
  {
    var whole, split := x + "<" + tag + ">" + y, x + (['<'] + (tag + ">" + y));
    assert |whole| == |split|;
    forall i | 0 <= i < |whole| ensures whole[i] == split[i] {
      if i < |x| {
      } else if i == |x| {
      } else if i < |x| + 1 + |tag| {
      } else if i == |x| + 1 + |tag| {
      }
    }
  }

  /** Text before the first '<' passes through unchanged. */
  lemma {:induction false} StripTagsKeepsText(x: string, t: string)
    requires '<' !in x
    ensures StripTags(x + t) == x + StripTags(t)
  {
    if x != [] {
      assert x[0] in x;
      assert x + t == [x[0]] + (x[1..] + t);
      StripTagsKeeps(x[0], x[1..] + t);
      StripTagsKeepsText(x[1..], t);
      assert x == [x[0]] + x[1..];
    } else {
      assert x + t == t;
    }
  }

  lemma StripTagsAtOpen(t: string)
    ensures StripTags(['<'] + t) == StripTags(SkipTag(t))
  {
    assert (['<'] + t)[1..] == t;
  }

  lemma StripTagsKeeps(c: char, t: string)
    requires c != '<'
    ensures StripTags([c] + t) == [c] + StripTags(t)
  {
    assert ([c] + t)[1..] == t;
  }

  lemma {:induction false} SkipTagPastClosingBracket(tag: string, y: string)
    requires '>' !in tag
    ensures SkipTag(tag + ">" + y) == y
  {
    if tag != [] {
      assert (tag + ">" + y)[1..] == tag[1..] + ">" + y;
      SkipTagPastClosingBracket(tag[1..], y);
    }
  }

  /** `substring(0, 160)`. */
  function Truncate(s: string): (r: string)
    ensures |r| <= MaxDescriptionLength && |r| <= |s|
    ensures r == s[..|r|]
    ensures |s| <= MaxDescriptionLength ==> r == s
    ensures |s| > MaxDescriptionLength ==> |r| == MaxDescriptionLength
  {
    if |s| <= MaxDescriptionLength then s else s[..MaxDescriptionLength]
  }

  /**
   * `SEO.extractDescription`: a non-empty excerpt verbatim; otherwise the
   * extracted text without tags, cut to 160 characters.
   */
  function ExtractDescription(excerpt: Option<string>, fallbackTitle: Option<string>,
                              fallbackAuthor: Option<string>, firstParagraph: Option<ParagraphMatch>): (d: string)
    requires Truthy(excerpt) || ExtractedText(firstParagraph, fallbackTitle, fallbackAuthor).Some?
    ensures Truthy(excerpt) ==> d == excerpt.value
    ensures !Truthy(excerpt) ==> |d| <= MaxDescriptionLength && '<' !in d
    ensures !Truthy(excerpt) ==>
              var text := ExtractedText(firstParagraph, fallbackTitle, fallbackAuthor).value;
              |d| <= |StripTags(text)| && d == StripTags(text)[..|d|] && (|StripTags(text)| <= MaxDescriptionLength ==> d == StripTags(text))
              && (|StripTags(text)| > MaxDescriptionLength ==> |d| == MaxDescriptionLength)
  {
    if Truthy(excerpt) then excerpt.value
    else
      var text := ExtractedText(firstParagraph, fallbackTitle, fallbackAuthor).value;
      Truncate(StripTags(text))
  }

  /**
   * With no excerpt and no paragraph, the description is the fallback
   * sentence, provided the title and author hold no '<' and the sentence fits.
   */
  lemma FallbackDescription(fallbackTitle: Option<string>, fallbackAuthor: Option<string>)
    requires Truthy(fallbackTitle) && Truthy(fallbackAuthor)
    requires '<' !in fallbackTitle.value && '<' !in fallbackAuthor.value
    requires |"Read " + fallbackTitle.value + " by " + fallbackAuthor.value + " on Puzzles"| <= MaxDescriptionLength
    ensures ExtractDescription(None, fallbackTitle, fallbackAuthor, None)
            == "Read " + fallbackTitle.value + " by " + fallbackAuthor.value + " on Puzzles"
  {
    var s := "Read " + fallbackTitle.value + " by " + fallbackAuthor.value + " on Puzzles";
    assert '<' !in s by {
      assert forall i :: 0 <= i < |s| ==> s[i] != '<' by {
        forall i | 0 <= i < |s| ensures s[i] != '<' {
          if 5 <= i < 5 + |fallbackTitle.value| {
            assert s[i] == fallbackTitle.value[i - 5];
          } else if 9 + |fallbackTitle.value| <= i < 9 + |fallbackTitle.value| + |fallbackAuthor.value| {
            assert s[i] == fallbackAuthor.value[i - 9 - |fallbackTitle.value|];
          }
        }
      }
    }
  }

  /** Without an excerpt, a paragraph or both fallbacks, the description is the default sentence. */
  lemma DefaultSentenceDescription(fallbackTitle: Option<string>, fallbackAuthor: Option<string>)
    requires !(Truthy(fallbackTitle) && Truthy(fallbackAuthor))
    ensures ExtractDescription(None, fallbackTitle, fallbackAuthor, None) == DefaultDescriptionSentence
  {
    assert '<' !in DefaultDescriptionSentence;
  }
}
