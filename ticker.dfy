/**
 * The rendering half of `generate_logo_ticker`: from the relative paths of
 * the discovered images and a base URL, build one `<img>` tag per image,
 * double the list so the scrolling strip loops seamlessly, and place the
 * concatenated tags in a fixed HTML page that carries the ticker's CSS.
 */
module Ticker {
  import opened UrlJoin
  import opened HtmlEscape

  datatype Option<T> = None | Some(value: T)

  // ---------------------------------------------------------------------
  // Fixed template text
  // ---------------------------------------------------------------------

  /** End state of the keyframe animation. */
  const Distance: string := "translateX(-60rem)"

  /** Duration of one animation cycle. */
  const Duration: string := "10s"

  /** `"\n".join(lines)`: the template text, one source line per element. */
  function Lines(lines: seq<string>): string {
    if lines == [] then ""
    else if |lines| == 1 then lines[0]
    else lines[0] + "\n" + Lines(lines[1..])
  }

  const CssBeforeDistance: string := Lines([
    "",
    "<style>",
    "@keyframes ticker-kf {",
    "    0% {",
    "        transform: translateX(0);",
    "    }",
    "    100% {",
    "        transform: "])

  const CssBeforeDuration: string := Lines([
    ";",
    "    }",
    "}",
    "",
    ".img-ticker {",
    "    display: flex;",
    "    margin-left: -1rem;",
    "    margin-right: -1rem;",
    "    animation: ticker-kf "])

  const CssAfterDuration: string := Lines([
    " linear infinite;",
    "}",
    "",
    ".tickerlogo {",
    "    width: 8rem;",
    "    flex: none;",
    "    margin: 0 1rem 0 1rem;",
    "    align-self: flex-start;",
    "    max-width: 100%;",
    "    height: auto;",
    "}",
    "</style>",
    ""])

  /** The `<style>` block; it depends on nothing the caller supplies. */
  const Css: string := CssBeforeDistance + Distance + CssBeforeDuration + Duration + CssAfterDuration

  const PageBeforeCss: string := Lines([
    "<!DOCTYPE html>",
    "<html>",
    "<head>",
    "    <meta charset=\"UTF-8\">",
    "    <title>Logo Ticker</title>",
    "    "])

  const PageAfterCss: string := Lines([
    "",
    "</head>",
    "<body>",
    "    <!-- Wrap the slider in div with overflow hidden to hide scrollbars -->",
    "    <div style=\"overflow: hidden; width: 100%;\">",
    "        <!-- The slider itself is a flex grid -->",
    "        <div class=\"img-ticker\">",
    "            <!-- Each image is a grid column with width 8rem and horizontal margin 2rem = 10rem -->",
    "            "])

  /** Everything in the page before the image tags. */
  const PageHead: string := PageBeforeCss + Css + PageAfterCss

  /** Everything in the page after the image tags. */
  const PageTail: string := Lines([
    "",
    "        </div>",
    "    </div>",
    "</body>",
    "</html>",
    ""])

  /** The image tag around the escaped URL. */
  const TagOpen: string := "<img class=\"tickerlogo\" src=\""
  const TagClose: string := "\">"

  // ---------------------------------------------------------------------
  // Tags
  // ---------------------------------------------------------------------

  /**
   * The image tag for one URL: the escaped URL as the `src` of a
   * `tickerlogo` image. No double quote occurs between the opening and the
   * closing quote of the `src` value.
   */
  function ImageTag(url: string): (r: string)
    ensures |r| >= |TagOpen| + |TagClose|
    ensures r[..|TagOpen|] == TagOpen && r[|r| - |TagClose|..] == TagClose
    ensures '"' !in r[|TagOpen|..|r| - |TagClose|]
  {
    var v := Escape(url);
    Parts(TagOpen, v, TagClose);
    TagOpen + v + TagClose
  }

  /** One tag per URL, in order. */
  function Tags(urls: seq<string>): seq<string> {
    seq(|urls|, i requires 0 <= i < |urls| => ImageTag(urls[i]))
  }

  /** The full URL of every discovered path, in discovery order. */
  function FullUrls(baseUrl: string, svgFiles: seq<string>): seq<string> {
    seq(|svgFiles|, i requires 0 <= i < |svgFiles| => FullUrl(baseUrl, svgFiles[i]))
  }

  /** The tag list the loop builds, before doubling. */
  function ImageTags(baseUrl: string, svgFiles: seq<string>): seq<string> {
    Tags(FullUrls(baseUrl, svgFiles))
  }

  /**
   * The loop that grows `image_tags`: exactly one tag per discovered path,
   * in discovery order, the i-th embedding the escaped full URL of the i-th
   * path.
   */
  method BuildImageTags(baseUrl: string, svgFiles: seq<string>) returns (imageTags: seq<string>)
    ensures |imageTags| == |svgFiles|
    ensures forall i :: 0 <= i < |svgFiles| ==>
      imageTags[i] == TagOpen + Escape(FullUrl(baseUrl, svgFiles[i])) + TagClose
  {
    imageTags := [];
    for k := 0 to |svgFiles|
      invariant |imageTags| == k
      invariant forall i :: 0 <= i < k ==>
        imageTags[i] == TagOpen + Escape(FullUrl(baseUrl, svgFiles[i])) + TagClose
    {
      var svgFile := svgFiles[k];
      var fullUrl := FullUrl(baseUrl, svgFile);
      var imageTag := ImageTag(fullUrl);
      imageTags := imageTags + [imageTag];
    }
  }

  /**
   * List repetition by two: twice as long, and the second half repeats the first
   * element for element.
   */
  function Doubled(tags: seq<string>): (r: seq<string>)
    ensures |r| == 2 * |tags|
    ensures r[..|tags|] == tags && r[|tags|..] == tags
    ensures forall i :: 0 <= i < |tags| ==> r[i] == r[i + |tags|] == tags[i]
  {
    tags + tags
  }

  lemma DoubledTags(urls: seq<string>)
    ensures Doubled(Tags(urls)) == Tags(urls + urls)
  {
    var n := |urls|;
    var d, t := Doubled(Tags(urls)), Tags(urls + urls);
    forall i | 0 <= i < 2 * n
      ensures d[i] == t[i]
    {
      if i < n {
        assert (urls + urls)[i] == urls[i];
      } else {
        assert (urls + urls)[i] == urls[i - n];
        assert d[i] == Tags(urls)[i - n];
      }
    }
  }

  /** Joining with the empty separator: the parts one after another. */
  function Join(parts: seq<string>): string {
    if parts == [] then "" else parts[0] + Join(parts[1..])
  }

  lemma {:induction false} JoinAppend(a: seq<string>, b: seq<string>)
    ensures Join(a + b) == Join(a) + Join(b)
  {
    if a == [] {
      assert a + b == b;
    } else {
      assert (a + b)[1..] == a[1..] + b;
      JoinAppend(a[1..], b);
    }
  }

  /** The tag region holds the undoubled region twice over. */
  lemma JoinDoubled(tags: seq<string>)
    ensures Join(Doubled(tags)) == Join(tags) + Join(tags)
  {
    JoinAppend(tags, tags);
  }

  // ---------------------------------------------------------------------
  // Page
  // ---------------------------------------------------------------------

  /** The f-string of the page, with the tags joined in place. */
  function Page(tags: seq<string>): string {
    PageHead + Join(tags) + PageTail
  }

  /** The part of a page between the fixed head and the fixed tail. */
  function ImageRegion(doc: string): Option<string> {
    if |doc| >= |PageHead| + |PageTail| && PageHead <= doc && doc[|doc| - |PageTail|..] == PageTail
    then Some(doc[|PageHead|..|doc| - |PageTail|])
    else None
  }

  /** The image region of a page is exactly its joined tags. */
  lemma RegionOfPage(tags: seq<string>)
    ensures ImageRegion(Page(tags)) == Some(Join(tags))
  {
    Parts(PageHead, Join(tags), PageTail);
  }

  /** Every page starts with the same head, whatever the tags. */
  lemma PageHeadFixed(tags: seq<string>)
    ensures |PageHead| <= |Page(tags)| && Page(tags)[..|PageHead|] == PageHead
  {
    Parts(PageHead, Join(tags), PageTail);
  }

  /**
   * The head carries the CSS block, in which the strip moves to
   * `translateX(-60rem)` over `10s`.
   */
  lemma HeadCss()
    ensures var c := |PageBeforeCss|;
      c + |Css| <= |PageHead| && PageHead[c..c + |Css|] == Css
    ensures var d := |CssBeforeDistance|;
      var t := d + |Distance| + |CssBeforeDuration|;
      && t + |Duration| <= |Css|
      && Css[d..d + |Distance|] == "translateX(-60rem)"
      && Css[t..t + |Duration|] == "10s"
  {
    Parts(PageBeforeCss, Css, PageAfterCss);
    FiveParts(CssBeforeDistance, Distance, CssBeforeDuration, Duration, CssAfterDuration);
  }

  /**
   * Whatever the tags, the page's CSS moves the strip to
   * `translateX(-60rem)` and lasts `10s`, at fixed offsets.
   */
  lemma PageCss(tags: seq<string>)
    ensures var o := |PageBeforeCss| + |CssBeforeDistance|;
      o + |Distance| <= |Page(tags)| && Page(tags)[o..o + |Distance|] == "translateX(-60rem)"
    ensures var o := |PageBeforeCss| + |CssBeforeDistance| + |Distance| + |CssBeforeDuration|;
      o + |Duration| <= |Page(tags)| && Page(tags)[o..o + |Duration|] == "10s"
  {
    CssSlots(PageBeforeCss, CssBeforeDistance, Distance, CssBeforeDuration, Duration,
      CssAfterDuration, PageAfterCss, Join(tags), PageTail);
  }

  /** Where the two values inside the CSS part of a page-shaped concatenation sit. */
  lemma CssSlots(a: string, b: string, x: string, c: string, y: string, e: string, f: string, g: string, h: string)
    ensures var s := a + (b + x + c + y + e) + f + g + h;
      var o := |a| + |b| + |x| + |c|;
      && o + |y| <= |s|
      && s[|a| + |b|..|a| + |b| + |x|] == x
      && s[o..o + |y|] == y
  {
    var s := a + (b + x + c + y + e) + f + g + h;
    assert s == a + b + x + c + y + (e + f + g + h);
    Parts(a + b, x, c + y + (e + f + g + h));
    Parts(a + b + x + c, y, e + f + g + h);
  }

  /** Where the second and the fourth of five concatenated parts sit. */
  lemma FiveParts(a: string, b: string, c: string, d: string, e: string)
    ensures var s := a + b + c + d + e;
      var i := |a| + |b| + |c|;
      && |s| == i + |d| + |e|
      && s[|a|..|a| + |b|] == b
      && s[i..i + |d|] == d
  {
  }

  /** Where the three parts of a concatenation sit. */
  lemma Parts(a: string, b: string, c: string)
    ensures var s := a + b + c;
      && |s| == |a| + |b| + |c|
      && s[..|a|] == a
      && s[|a|..|a| + |b|] == b
      && s[|a| + |b|..] == c
  {
  }

  lemma Prefix(a: string, b: string)
    ensures a <= a + b && (a + b)[|a|..] == b
  {
  }

  lemma Assoc(a: string, b: string, c: string)
    ensures a + b + c == a + (b + c)
  {
  }

  // ---------------------------------------------------------------------
  // Reading the tags back
  // ---------------------------------------------------------------------

  /** Index of the first double quote in `s`, or `|s|` when there is none. */
  function QuoteIndex(s: string): (q: nat)
    ensures q <= |s|
    ensures forall j :: 0 <= j < q ==> s[j] != '"'
    ensures q < |s| ==> s[q] == '"'
  {
    if s == [] || s[0] == '"' then 0 else 1 + QuoteIndex(s[1..])
  }

  /**
   * Reads a concatenation of image tags the way an HTML reader does: each
   * `src` value ends at the first double quote, and its entities are decoded.
   */
  function ParseTags(s: string): Option<seq<string>>
    decreases |s|
  {
    if s == [] then Some([])
    else if !(TagOpen <= s) then None
    else
      var body := s[|TagOpen|..];
      var q := QuoteIndex(body);
      if q + |TagClose| <= |body| && body[q..q + |TagClose|] == TagClose then
        match ParseTags(body[q + |TagClose|..])
        case None => None
        case Some(rest) => Some([Unescape(body[..q])] + rest)
      else None
  }

  lemma {:induction false} QuoteIndexAfter(v: string, rest: string)
    requires '"' !in v && |rest| > 0 && rest[0] == '"'
    ensures QuoteIndex(v + rest) == |v|
  {
    if v != [] {
      assert (v + rest)[1..] == v[1..] + rest;
      QuoteIndexAfter(v[1..], rest);
    }
  }

  /** A tag's `src` value cannot run past its closing quote. */
  lemma ParseImageTag(url: string, rest: string)
    ensures ParseTags(ImageTag(url) + rest) ==
      match ParseTags(rest)
      case None => None
      case Some(urls) => Some([url] + urls)
  {
    var v := Escape(url);
    EscapeSafe(url);
    UnescapeEscape(url);
    Assoc(TagOpen, v, TagClose);
    Assoc(TagOpen, v + TagClose, rest);
    Assoc(v, TagClose, rest);
    Prefix(TagOpen, v + (TagClose + rest));
    TagCloseQuote();
    QuoteIndexAfter(v, TagClose + rest);
    Parts(v, TagClose, rest);
  }

  lemma TagCloseQuote()
    ensures |TagClose| == 2 && TagClose[0] == '"'
  {
  }

  /** The tag region reads back as exactly the URLs it was built from. */
  lemma {:induction false} ParseTagsJoin(urls: seq<string>)
    ensures ParseTags(Join(Tags(urls))) == Some(urls)
  {
    if urls != [] {
      assert Tags(urls)[1..] == Tags(urls[1..]);
      ParseTagsJoin(urls[1..]);
      ParseImageTag(urls[0], Join(Tags(urls[1..])));
      assert [urls[0]] + urls[1..] == urls;
    }
  }

  // ---------------------------------------------------------------------
  // The whole rendering
  // ---------------------------------------------------------------------

  /**
   * The page rendered for the discovered paths: its region between the fixed
   * head and tail reads back as the full URLs of all paths in discovery
   * order, twice, one tag each.
   */
  lemma {:induction false} RenderedPage(baseUrl: string, svgFiles: seq<string>)
    ensures var urls := FullUrls(baseUrl, svgFiles);
      var doc := Page(Doubled(ImageTags(baseUrl, svgFiles)));
      && ImageRegion(doc).Some?
      && ParseTags(ImageRegion(doc).value) == Some(urls + urls)
  {
    var urls := FullUrls(baseUrl, svgFiles);
    RegionOfPage(Doubled(Tags(urls)));
    DoubledTags(urls);
    ParseTagsJoin(urls + urls);
  }

  /** With no image discovered the page still renders, with nothing between head and tail. */
  lemma EmptyPage(baseUrl: string)
    ensures Page(Doubled(ImageTags(baseUrl, []))) == PageHead + PageTail
  {
    assert Doubled(ImageTags(baseUrl, [])) == [];
    assert PageHead + "" == PageHead;
  }

  /**
   * `generate_logo_ticker` up to the file write: the loop builds the tags,
   * the list is doubled, and the page is the template around their
   * concatenation.
   */
  method GenerateLogoTicker(baseUrl: string, svgFiles: seq<string>) returns (htmlContent: string)
    ensures htmlContent == Page(Doubled(ImageTags(baseUrl, svgFiles)))
    ensures ImageRegion(htmlContent).Some?
    ensures var urls := FullUrls(baseUrl, svgFiles);
      ParseTags(ImageRegion(htmlContent).value) == Some(urls + urls)
    ensures svgFiles == [] ==> htmlContent == PageHead + PageTail
  {
    var imageTags := BuildImageTags(baseUrl, svgFiles);
    assert imageTags == ImageTags(baseUrl, svgFiles);
    imageTags := Doubled(imageTags);
    htmlContent := Page(imageTags);
    RenderedPage(baseUrl, svgFiles);
    if svgFiles == [] {
      EmptyPage(baseUrl);
    }
  }
}
