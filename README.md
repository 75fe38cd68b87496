# Logo ticker renderer, modelled in Dafny

`images/create_ticker.py` generates a static HTML page that scrolls a strip of
logos sideways with a CSS animation. Its function `generate_logo_ticker`
collects the relative paths of the SVG files under a directory. It then renders
the page: for each path it joins the base URL and the path, HTML-escapes the
result and wraps it in an `<img class="tickerlogo" src="...">` tag. It doubles
the tag list so the strip loops seamlessly, and concatenates the tags, with no
separator, into a fixed page template that carries the ticker's CSS.

This project models the rendering half, lines 50-81, in three modules:

- `UrlJoin` (`url_join.dfy`): `base_url.rstrip('/')` followed by one `/` and
  the path. `rstrip` is characterised by three facts, which are proved to
  determine it, and is proved idempotent and blind to extra trailing slashes.
- `HtmlEscape` (`html_escape.dfy`): Python's `html.escape` with `quote=True`.
  It is written as the chain of `str.replace` calls that performs it, `&`
  first. The chain is proved equal to an escape done character by
  character. Its result is proved safe inside a double-quoted attribute, and
  decoding the five entities is proved to give back the input.
- `Ticker` (`ticker.dfy`): the tag loop as a method with loop invariants,
  the doubling `* 2`, `''.join`, and the page template. A reader for the tag
  region (`ParseTags`) splits each `src` value at its first double quote and
  decodes it. This reader is the partner used to state that the rendered
  page holds exactly the full URLs of the discovered paths, in order, twice.

The discovered paths are an input sequence, in whatever order the directory
walk produced them. The template text is reproduced from the source's
triple-quoted strings. Each constant is the list of the source lines joined
by `"\n"`, which gives the same characters.

## Model

| member | source | states |
|---|---|---|
| `UrlJoin.StripTrailingSlashes` | images/create_ticker.py:54 | `rstrip('/')` returns a prefix of the base URL that does not end in `/`, and everything it removed is `/` |
| `UrlJoin.StripUnique` | images/create_ticker.py:54 | any prefix with those three properties is the stripped base, so they define `rstrip('/')` |
| `UrlJoin.StripIdempotent` | images/create_ticker.py:54 | stripping an already stripped base changes nothing |
| `UrlJoin.StripIgnoresTrailingSlashes` | images/create_ticker.py:54 | a base with any number of extra trailing slashes strips to the same string |
| `UrlJoin.FullUrl` | images/create_ticker.py:54 | the full URL ends in `/` followed by the path; what precedes that `/` is a prefix of the base, does not end in `/`, and only slashes follow it in the base |
| `UrlJoin.FullUrlUnique` | images/create_ticker.py:54 | a string of that shape is the full URL, so the shape pins the join down exactly |
| `UrlJoin.FullUrlIgnoresTrailingSlashes` | images/create_ticker.py:54 | zero, one or several trailing slashes on the base give the same full URL |
| `HtmlEscape.Replace` | images/create_ticker.py:56 | `str.replace` with a one-character pattern leaves no occurrence of the pattern when the replacement does not contain it |
| `HtmlEscape.Escape` | images/create_ticker.py:56 | `html.escape` with `quote=True` leaves no raw `<`, `>`, `"` or `'` in the escaped URL; `EscapeIsEscapeEach`, `EscapeSafe` and `UnescapeEscape` carry its further properties |
| `HtmlEscape.EscapeIsEscapeEach` | images/create_ticker.py:56 | the replacement chain, `&` first, equals mapping each character to its entity on its own |
| `HtmlEscape.EscapeSafe` | images/create_ticker.py:56 | the escaped URL has no raw `<`, `>`, `"` or `'`, and every `&` in it starts one of the five entities |
| `HtmlEscape.UnescapeEscape` | images/create_ticker.py:56 | decoding the five entities in the escaped URL gives back the full URL exactly |
| `HtmlEscape.EscapeInjective` | images/create_ticker.py:56 | two different URLs never escape to the same attribute value |
| `HtmlEscape.EscapePlain` | images/create_ticker.py:56 | a URL with none of the five special characters passes through unchanged |
| `Ticker.ImageTag` | images/create_ticker.py:56 | a tag starts with the opening of a `tickerlogo` image up to the `src` quote, ends with the closing quote and `>`, and no double quote occurs in its `src` value; `ParseImageTag` reads the URL back from it |
| `Ticker.BuildImageTags` | images/create_ticker.py:51-57 | the loop yields exactly one tag per discovered path, in discovery order, the i-th tag wrapping the escaped full URL of the i-th path |
| `Ticker.Doubled` | images/create_ticker.py:60 | the doubled list has length 2N, both halves equal the original list, and tag i equals tag i+N |
| `Ticker.DoubledTags` | images/create_ticker.py:60 | doubling the tags is the same as building tags for the URL list repeated twice |
| `Ticker.Join` | images/create_ticker.py:76 | `''.join` places the tags one after another with no separator; `JoinAppend` and `JoinDoubled` state how it splits over concatenated lists, and `ParseTagsJoin` reads the joined tags back |
| `Ticker.JoinDoubled` | images/create_ticker.py:76 | the joined region of the doubled list is the joined region of the tags, twice over, with no separator |
| `Ticker.Page` | images/create_ticker.py:63-81 | the document f-string around the joined tags, with the CSS block of lines 15-42 in its head; `RegionOfPage`, `PageHeadFixed`, `HeadCss` and `PageCss` carry its properties |
| `Ticker.RegionOfPage` | images/create_ticker.py:63-81 | the part of the page between the fixed head and the fixed tail is exactly the concatenation of the tags |
| `Ticker.PageHeadFixed` | images/create_ticker.py:63-75 | every page starts with the same head, whatever the tags |
| `Ticker.HeadCss` | images/create_ticker.py:15-42 | the head carries the CSS block, in which the keyframe ends at `translateX(-60rem)` and the animation lasts `10s` |
| `Ticker.PageCss` | images/create_ticker.py:15-42 | whatever the tags, the page holds `translateX(-60rem)` and `10s` at the offsets of the keyframe end and the animation duration |
| `Ticker.ParseImageTag` | images/create_ticker.py:56 | reading a tag's `src` up to its first double quote and decoding it gives back the URL, and reading resumes right after the tag |
| `Ticker.ParseTagsJoin` | images/create_ticker.py:51-76 | a concatenation of tags reads back as exactly the URLs it was built from, one per tag, in order |
| `Ticker.RenderedPage` | images/create_ticker.py:50-81 | the page's tag region reads back as the full URLs of all discovered paths, in order, twice |
| `Ticker.EmptyPage` | images/create_ticker.py:60-81 | with no discovered paths the page still renders: the fixed head directly followed by the fixed tail |
| `Ticker.GenerateLogoTicker` | images/create_ticker.py:50-81 | the rendered page is the template around the doubled tags; its region reads back as the full URLs twice, and it is head plus tail when nothing was found |

## Left out

- The directory walk `Path(images_dir).glob("**/*.svg")` and `relative_to` (lines 45-48) are filesystem access. Their result is the input sequence `svgFiles`, in any order.
- The file write (lines 84-85) and the status message (line 87) are I/O and are not modelled.
- The `__main__` block (lines 89-93) only supplies example arguments and is not modelled.
- `html.escape` comes from Python's standard library, which is not part of this model. It is modelled from its documented behaviour: replace `&`, `<`, `>`, `"` and `'` in that order.
- `HtmlEscape.Unescape` decodes only the five entities that `html.escape` emits. It is not Python's `html.unescape`, which knows every named and numeric entity.
- `Ticker.ParseTags` reads exactly the tag shape this code emits. It is not a general HTML parser.
- Characters are Dafny's Unicode scalar values. A Python string can also hold lone surrogates, for instance from a file name that is not valid UTF-8; the model's strings cannot.
- The code in `images/create_ticker.py` does not sort the paths, glob `.png` files, emit `alt` text, scale the CSS distance and duration by the image count, or skip writing with a warning when no image is found, so neither does the model. It keeps the paths in discovery order, matches SVG only, emits no `alt`, uses the fixed `-60rem` and `10s`, and renders a page even when no image is found.
