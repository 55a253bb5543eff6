# WeChat article publisher and cover generator, modelled in Dafny

This project models the text-processing core of two scripts of the
`Wechat-Artical` skill.

**`wechat_publisher.py`** turns an article written in a small tagged
Markdown dialect (`artical.md`) into the inline-styled HTML that the WeChat
draft API accepts. It works in three stages.

- **Parsing.** `ArticleParser.parse` walks the lines of the file.
  - It takes the title from the `【文章标题】` line.
  - It finds the cover, either the `assets/cover.png` asset or an image line
    after a `【封面主图】` marker.
  - It turns `【引言】` and `【正文】` into quote sentinels, and `【标题N】` into a
    title-image sentinel.
  - It drops other tag lines and copies every other line verbatim.
- **Content processing.** `_process_content` uploads the section images
  `assets/1.png` to `assets/9.png`. It then points every local image
  reference of the content at its uploaded URL.
- **Rendering.** `_markdown_to_html` walks the content once, line by line.
  The first matching rule decides each block. The rules are, in order:
  blank, quote span, title image, fence, h1, h2, h3, image, bullet list,
  numbered list, divider and paragraph. Every block is one call of a style
  template. Template text goes through the inline pass `_process_inline`:
  bold, then italic, then link, then inline code.

**`img_creator.py`** generates a cover image.

- It checks the article directory and reads the prompt from
  `cover_design.md`.
- It builds the request content. This is the prompt alone, or a list of a
  text part and one base64 data URL per reference image, with a MIME type
  chosen from the file suffix.
- It tries the primary model (300 s timeout), then the fallback model
  (45 s). The first reply from which an image payload can be extracted
  wins. Otherwise every model's error is listed in one message.
- On success it wraps the cover text, or the title found in `artical.md`,
  into lines of 15 characters for the overlay.

The project is organised as follows.

| file | module | what it holds |
|---|---|---|
| `text.dfy` | `Text` | Python string operations: `strip`, `find`, `replace`, `split`, `join`, `lower`. |
| `patterns.dfy` | `Patterns` | One hand-written matcher per regular expression of the publisher. |
| `inline.dfy`, `inline_facts.dfy` | `Inline`, `InlineFacts` | The inline pass. |
| `article.dfy`, `article_facts.dfy` | `Article`, `ArticleFacts` | `ArticleParser` as a class whose methods update its fields, the specification function `ParseFrom`, and lemmas about quote balance, the title and content copying. |
| `render.dfy`, `render_facts.dfy` | `Render`, `RenderFacts` | The block pass as specification functions over a `Fragment` datatype, with lemmas about it. |
| `publisher.dfy` | `Publisher` | The `WechatPublisher` class. Its loops are methods proved equal to the specification functions. |
| `img_creator.dfy`, `img_creator_facts.dfy` | `ImageCreator`, `ImageCreatorFacts` | Content building, image extraction, the model fallback loop, the failure message, title extraction, wrapping and the input checks of cover creation. |

A few modelling conventions apply throughout.

- **Fragments.** A `Fragment` records which style template a block calls
  and with what arguments. The CSS text is not modelled. `Render.Markup`
  gives the text a template shows after the inline pass.
- **File system.** It becomes parameters:
  - `existing`: the set of paths that exist.
  - `uploads`: a map from a path to the URL its upload returns. A missing
    key is a failed upload.
  - `files`: a map from a reference image's path to its base64 text.
  - `ArticleDir`: what the cover directory holds.
- **API calls.** The image-generation call is a function parameter
  `call(model, timeout, content)` that returns an `Outcome`.

## Model

| member | source | states |
|---|---|---|
| Text.FirstNonSpace | skills/Wechat-Artical/scripts/wechat_publisher.py:115 | The scan that `strip` does from the left stops at the first non-whitespace character, or at the end. |
| Text.EndNonSpace | skills/Wechat-Artical/scripts/wechat_publisher.py:115 | The scan that `strip` does from the right stops after the last non-whitespace character. |
| Text.TrimStart | skills/Wechat-Artical/scripts/wechat_publisher.py:115 | `lstrip` yields a suffix of the text that does not start with whitespace. |
| Text.Strip | skills/Wechat-Artical/scripts/wechat_publisher.py:115 | `strip` yields a text with no whitespace at either end, no longer than its input. |
| Text.FirstNonSpaceSkipsSpaces | skills/Wechat-Artical/scripts/wechat_publisher.py:115 | Everything `strip` skips at the left is whitespace. |
| Text.FirstNonSpaceAt | skills/Wechat-Artical/scripts/wechat_publisher.py:115 | The left scan stops exactly at the first non-whitespace position. |
| Text.StripTrimmed | skills/Wechat-Artical/scripts/wechat_publisher.py:115 | `strip` leaves a text with no whitespace ends unchanged, so it is idempotent. |
| Text.StripWithout | skills/Wechat-Artical/scripts/wechat_publisher.py:115 | `strip` adds no character that was not in its input. |
| Text.EndNonSpaceSkipsSpaces | skills/Wechat-Artical/scripts/wechat_publisher.py:115 | Everything `strip` skips at the right is whitespace. |
| Text.EndNonSpaceAt | skills/Wechat-Artical/scripts/wechat_publisher.py:115 | The right scan stops exactly after the last non-whitespace position. |
| Text.StripRemovesSpaceOnly | skills/Wechat-Artical/scripts/wechat_publisher.py:115 | `strip` returns a contiguous part of its input, and everything it removes on either side is whitespace. |
| Text.StripBoth | skills/Wechat-Artical/scripts/wechat_publisher.py:115 | Whitespace, then a text with no whitespace ends, then whitespace, strips to exactly that text. |
| Text.StripLeading | skills/Wechat-Artical/scripts/wechat_publisher.py:119 | `strip` and `lstrip` remove a leading run of whitespace and keep the rest. |
| Text.FindFrom | skills/Wechat-Artical/scripts/wechat_publisher.py:127 | The search reports the leftmost occurrence at or after the start, or none when there is no occurrence. |
| Text.FindFromFirst | skills/Wechat-Artical/scripts/wechat_publisher.py:127 | An occurrence with none before it is the one the search reports. |
| Text.NotContainsWhenCharMissing | skills/Wechat-Artical/scripts/wechat_publisher.py:127 | A text lacking the first character of a non-empty pattern does not contain the pattern. |
| Text.ReplaceAllAbsent | skills/Wechat-Artical/scripts/wechat_publisher.py:377 | `str.replace` with a pattern that does not occur returns the text unchanged. |
| Text.ReplaceAllIdentity | skills/Wechat-Artical/scripts/wechat_publisher.py:377 | Replacing a pattern by itself returns the text unchanged. |
| Text.ReplaceAllOnce | skills/Wechat-Artical/scripts/wechat_publisher.py:377 | When the pattern occurs exactly once, `str.replace` puts the replacement in its place and keeps the text before and after it. |
| Text.MapChar | skills/Wechat-Artical/scripts/wechat_publisher.py:631 | Mapping a character to a replacement removes it when the replacement lacks it, and adds only characters of the replacement. |
| Text.ReplaceCharIsMap | skills/Wechat-Artical/scripts/wechat_publisher.py:631 | `str.replace` of a one-character pattern equals the per-character map. |
| Text.MapCharAppend | skills/Wechat-Artical/scripts/wechat_publisher.py:631 | The per-character map distributes over concatenation. |
| Text.Join | skills/Wechat-Artical/scripts/wechat_publisher.py:446 | `sep.join` of no parts is empty; of one part it is that part. |
| Text.ConcatAppend | skills/Wechat-Artical/scripts/wechat_publisher.py:209-211 | `''.join` of appended line lists is the concatenation of the two joins, so each appended content line extends `get_content` by exactly that line. |
| Text.IndexOfChar | skills/Wechat-Artical/scripts/wechat_publisher.py:396 | The separator search finds the first separator at or after the start, or reaches the end. |
| Text.Split | skills/Wechat-Artical/scripts/wechat_publisher.py:396 | `split` yields at least one piece, and no piece holds the separator. |
| Text.JoinSplit | skills/Wechat-Artical/scripts/wechat_publisher.py:396 | Joining the pieces of a split with the separator gives back the text. |
| Text.SplitJoin | skills/Wechat-Artical/scripts/img_creator.py:329-330 | Splitting a join of separator-free pieces gives back the pieces. |
| Text.IndexOfCharFirst | skills/Wechat-Artical/scripts/wechat_publisher.py:396 | A separator with none before it is the one the search finds. |
| Text.Lower | skills/Wechat-Artical/scripts/img_creator.py:346 | `lower` keeps the length and maps exactly the ASCII capitals to small letters. |
| Text.LowerUnchanged | skills/Wechat-Artical/scripts/img_creator.py:346 | Text without capitals is its own lower-case form. |
| Patterns.DigitRunEnd | skills/Wechat-Artical/scripts/wechat_publisher.py:176 | `\d+` takes the maximal run of digits. |
| Patterns.MatchImageAt | skills/Wechat-Artical/scripts/wechat_publisher.py:367 | A match of `!\[([^\]]*)\]\(([^)]+)\)` consumes at least one character within the text. |
| Patterns.MatchImageSound | skills/Wechat-Artical/scripts/wechat_publisher.py:367 | A match is a well-formed reference (alt without `]`, non-empty src without `)`), written out exactly where it was found and ending where the match ends. |
| Patterns.MatchImageComplete | skills/Wechat-Artical/scripts/wechat_publisher.py:474 | Every well-formed reference at the start of a text is matched, whatever follows it. |
| Patterns.MatchImageWellFormed | skills/Wechat-Artical/scripts/wechat_publisher.py:367 | Whatever the pattern matches is a well-formed reference. |
| Patterns.MatchImageCompleteAt | skills/Wechat-Artical/scripts/wechat_publisher.py:367 | A well-formed reference written at any position of a text is matched there, ending right after its `)`. |
| Patterns.MatchWritten | skills/Wechat-Artical/scripts/wechat_publisher.py:367 | A text laid out as `![`, alt, `](`, src, `)` at a position is matched there with that alt and src. |
| Patterns.ImageTextAt | skills/Wechat-Artical/scripts/wechat_publisher.py:367 | The text between `![` and the closing `)` of a match is the written form of the matched reference. |
| Patterns.IndexOfCharAt | skills/Wechat-Artical/scripts/wechat_publisher.py:143 | The closing-bracket search of the image pattern stops at the first bracket. |
| Patterns.FindAllImages | skills/Wechat-Artical/scripts/wechat_publisher.py:366-367 | `re.findall` yields only well-formed references. |
| Patterns.FindAllImagesNone | skills/Wechat-Artical/scripts/wechat_publisher.py:367 | A text without `!` has no image reference to upload. |
| Patterns.FindAllImagesSkip | skills/Wechat-Artical/scripts/wechat_publisher.py:367 | Characters other than `!` are passed over without a match. |
| Patterns.FindAllImagesMatch | skills/Wechat-Artical/scripts/wechat_publisher.py:367 | A match at a position is reported, and the search resumes right after it. |
| Patterns.FindAllImagesPiece | skills/Wechat-Artical/scripts/wechat_publisher.py:367 | Text without `!` followed by a written reference yields that reference, then whatever follows. |
| Patterns.FindAllImagesWritten | skills/Wechat-Artical/scripts/wechat_publisher.py:366-367 | Gaps without `!` interleaved with written references yield exactly those references, in order. |
| Patterns.FindAllImagesOfText | skills/Wechat-Artical/scripts/wechat_publisher.py:366-367 | For any prefix, the references written after it with `!`-free gaps between them are found, all and in order, so every image of the article is seen. |
| Patterns.FindOneImage | skills/Wechat-Artical/scripts/wechat_publisher.py:366-367 | A text whose only `!` opens one written reference yields exactly that reference. |
| Patterns.SectionMarkerNumber | skills/Wechat-Artical/scripts/wechat_publisher.py:176 | A match of `^【标题(\d+)】$` means the line is exactly the marker around a non-empty digit run. |
| Patterns.SectionMarkerComplete | skills/Wechat-Artical/scripts/wechat_publisher.py:176 | Every such marker is matched, with its number. |
| Patterns.MatchTitleImage | skills/Wechat-Artical/scripts/wechat_publisher.py:426 | A match of `__TITLE_IMAGE_(\d+)__` means the line starts with the sentinel for that number; the match is anchored at the start only. |
| Patterns.MatchTitleImageComplete | skills/Wechat-Artical/scripts/wechat_publisher.py:426 | The sentinel for a number is matched whatever follows it. |
| Patterns.DigitRunEndAt | skills/Wechat-Artical/scripts/wechat_publisher.py:426 | A digit run ends exactly at the first non-digit. |
| Patterns.OrderedMarker | skills/Wechat-Artical/scripts/wechat_publisher.py:498-503 | A match of `^\d+\. ` is a non-empty digit run followed by `. `, inside the line. |
| Patterns.DropHashes | skills/Wechat-Artical/scripts/wechat_publisher.py:121 | `re.sub(r'^#+\s*', '', s)` yields a suffix. It is shorter and starts with no whitespace when `s` starts with `#`; otherwise `s` is unchanged. |
| Patterns.DropLeading | skills/Wechat-Artical/scripts/wechat_publisher.py:121 | Removing a leading run of `#` leaves a suffix that does not start with `#`, and everything removed was `#`. |
| Inline.CloseFrom | skills/Wechat-Artical/scripts/wechat_publisher.py:656-660 | The lazy `(.+?)` closes at the first closing delimiter, and the span crosses no newline. |
| Inline.MatchAt | skills/Wechat-Artical/scripts/wechat_publisher.py:653-675 | A match of any inline rule starts with that rule's opening character and consumes at least it. |
| Inline.MatchBold | skills/Wechat-Artical/scripts/wechat_publisher.py:656-660 | A bold match starts with `*` and lies within the text. |
| Inline.MatchItalic | skills/Wechat-Artical/scripts/wechat_publisher.py:662 | An italic match starts with `*` and lies within the text. |
| Inline.MatchLink | skills/Wechat-Artical/scripts/wechat_publisher.py:664-668 | A link match starts with `[` and lies within the text. |
| Inline.MatchCode | skills/Wechat-Artical/scripts/wechat_publisher.py:670-674 | An inline-code match starts with a backtick and lies within the text. |
| InlineFacts.SubFromPlain | skills/Wechat-Artical/scripts/wechat_publisher.py:653-675 | A substitution leaves text without its opening character unchanged. |
| InlineFacts.PlainTextUnchanged | skills/Wechat-Artical/scripts/wechat_publisher.py:653-675 | Text with no `*`, `[` or backtick passes through all four passes unchanged. |
| InlineFacts.CloseFromAt | skills/Wechat-Artical/scripts/wechat_publisher.py:656-660 | The first closing delimiter on the line is the one the lazy group stops at. |
| InlineFacts.SpanHasNoMarkup | skills/Wechat-Artical/scripts/wechat_publisher.py:656-660 | The bold span's own HTML holds no markup character, so the later passes do not rewrite it. |
| InlineFacts.BoldPass | skills/Wechat-Artical/scripts/wechat_publisher.py:656-660 | The bold pass turns `**x**` into the bold span around `x`. |
| InlineFacts.BoldBeforeItalic | skills/Wechat-Artical/scripts/wechat_publisher.py:656-662 | Because bold runs first, `**x**` ends up bold and never italic. |
| Article.CloseQuote | skills/Wechat-Artical/scripts/wechat_publisher.py:202-205 | Closing a quote appends one end sentinel exactly when a quote is open; afterwards none is open and nothing else changes. |
| Article.NextNonBlank | skills/Wechat-Artical/scripts/wechat_publisher.py:140-149 | The cover scan stops at the first non-blank line; every line it skips is blank. |
| Article.AfterCover | skills/Wechat-Artical/scripts/wechat_publisher.py:152-158 | After an asset cover, the parser always moves past the marker and stays within the lines. |
| Article.CoverStep | skills/Wechat-Artical/scripts/wechat_publisher.py:126-158 | A cover marker always advances the parser. |
| Article.AssetCover | skills/Wechat-Artical/scripts/wechat_publisher.py:133-158 | The asset branch advances the parser. |
| Article.ScannedCover | skills/Wechat-Artical/scripts/wechat_publisher.py:137-150 | The backward-compatible scan advances the parser. |
| Article.Step | skills/Wechat-Artical/scripts/wechat_publisher.py:113-200 | One turn of the parse loop advances the parser and stays within the lines. |
| Article.StepAs | skills/Wechat-Artical/scripts/wechat_publisher.py:117-200 | Each tag rule advances the parser. |
| Article.SectionStep | skills/Wechat-Artical/scripts/wechat_publisher.py:175-191 | A section marker advances past itself and the title line that follows it. |
| Article.JoinPath | skills/Wechat-Artical/scripts/wechat_publisher.py:219 | A joined path is never empty. |
| Article.ArticleParser.Parse | skills/Wechat-Artical/scripts/wechat_publisher.py:103-207 | A missing file fails and leaves the state alone. Otherwise the new state is the fold of the loop over the lines, then a final quote close, so no quote stays open. |
| Article.ArticleParser.ParseLine | skills/Wechat-Artical/scripts/wechat_publisher.py:113-200 | One turn of the loop updates the fields as `Step` says. |
| Article.ArticleParser.ParseSection | skills/Wechat-Artical/scripts/wechat_publisher.py:175-191 | A section marker closes the quote, then emits the sentinel and copies the next line. |
| Article.ArticleParser.ParseCover | skills/Wechat-Artical/scripts/wechat_publisher.py:126-158 | A cover marker closes the quote and sets the cover as `CoverStep` says. |
| Article.ArticleParser.TakeAssetCover | skills/Wechat-Artical/scripts/wechat_publisher.py:133-158 | With the asset on disk, the cover becomes `assets/cover.png` and one image line is skipped. |
| Article.ArticleParser.ScanCover | skills/Wechat-Artical/scripts/wechat_publisher.py:137-150 | Without the asset, the first non-blank line is consumed; its image source becomes the cover if it is an image. |
| Article.ArticleParser.FindNonBlank | skills/Wechat-Artical/scripts/wechat_publisher.py:140-149 | The inner loop stops at the first non-blank line. |
| Article.ArticleParser.GetCoverPath | skills/Wechat-Artical/scripts/wechat_publisher.py:213-226 | A remote cover is returned as is, a local cover is joined to the article directory, and a missing cover falls back to the asset when it exists. The result is empty exactly when there is neither. |
| ArticleFacts.SectionLineNotQuote | skills/Wechat-Artical/scripts/wechat_publisher.py:185 | A title-image sentinel is never a quote sentinel. |
| ArticleFacts.AppendPlain | skills/Wechat-Artical/scripts/wechat_publisher.py:199 | Copying a non-sentinel line keeps the quote tracker consistent with the state. |
| ArticleFacts.CloseQuoteConsistent | skills/Wechat-Artical/scripts/wechat_publisher.py:202-205 | Closing the quote keeps the tracker consistent. |
| ArticleFacts.StepConsistent | skills/Wechat-Artical/scripts/wechat_publisher.py:113-200 | Every turn of the loop keeps the `_in_quote` flag equal to what the emitted sentinels say. |
| ArticleFacts.ParseFromConsistent | skills/Wechat-Artical/scripts/wechat_publisher.py:103-207 | The whole loop keeps that invariant. |
| ArticleFacts.DocumentQuotesClosed | skills/Wechat-Artical/scripts/wechat_publisher.py:103-207 | A parsed document's sentinels are well-formed and end with no quote open. |
| ArticleFacts.ScanCounts | skills/Wechat-Artical/scripts/wechat_publisher.py:160-173 | Start sentinels = end sentinels + (one if open) + starts emitted while a quote was already open. |
| ArticleFacts.OpenAfterUnmatchedStart | skills/Wechat-Artical/scripts/wechat_publisher.py:160-173 | A start sentinel with no end sentinel after it leaves a quote open. |
| ArticleFacts.QuoteBalance | skills/Wechat-Artical/scripts/wechat_publisher.py:103-207 | In a parsed document, end sentinels never outnumber starts, and every start is followed by an end. The counts are equal exactly when no `【引言】` came inside an open quote. |
| ArticleFacts.DropLeadingRun | skills/Wechat-Artical/scripts/wechat_publisher.py:121 | A leading run of `#` is removed exactly. |
| ArticleFacts.ReplacePrefixOnly | skills/Wechat-Artical/scripts/wechat_publisher.py:119 | Removing the title marker from the front of a line leaves the rest. |
| ArticleFacts.DropHashesRun | skills/Wechat-Artical/scripts/wechat_publisher.py:121 | `#`s plus whitespace are removed up to the title text. |
| ArticleFacts.StripHashed | skills/Wechat-Artical/scripts/wechat_publisher.py:119 | `strip` keeps a hashed title that has no whitespace ends. |
| ArticleFacts.TitleOfMarked | skills/Wechat-Artical/scripts/wechat_publisher.py:115-122 | `【文章标题】` + whitespace + hashes + whitespace + title yields exactly the title, for a title that does not itself hold the marker (`replace` removes every copy); the `strip` after the `replace` removes the whitespace before the hashes. |
| ArticleFacts.NoMarkerAfterHashes | skills/Wechat-Artical/scripts/wechat_publisher.py:119 | Hashes and whitespace before a marker-free title add no copy of the marker. |
| ArticleFacts.TitleExample | skills/Wechat-Artical/scripts/wechat_publisher.py:118-122 | `【文章标题】# Hello World` yields `Hello World`. |
| ArticleFacts.StepKeepsTitle | skills/Wechat-Artical/scripts/wechat_publisher.py:113-200 | Only a title line changes the title. |
| ArticleFacts.TitleUnchanged | skills/Wechat-Artical/scripts/wechat_publisher.py:113-200 | Lines without a title line leave the title as it was. |
| ArticleFacts.StepKept | skills/Wechat-Artical/scripts/wechat_publisher.py:113-200 | For every line kind, what one turn of the loop appends plus the reference reading from where it resumes equals the reference reading from the line. |
| ArticleFacts.CoverSkip | skills/Wechat-Artical/scripts/wechat_publisher.py:126-158 | The cover rule always resumes past the marker and within the lines. |
| ArticleFacts.StepAsKept | skills/Wechat-Artical/scripts/wechat_publisher.py:117-200 | Each tag rule emits what the reference reading says for its kind. |
| ArticleFacts.CoverKept | skills/Wechat-Artical/scripts/wechat_publisher.py:126-158 | A cover marker closes an open quote and skips its image line, as the reference reading says. |
| ArticleFacts.SectionKept | skills/Wechat-Artical/scripts/wechat_publisher.py:175-191 | A section marker closes an open quote, then emits its sentinel and the next line, as the reference reading says. |
| ArticleFacts.KeptFromParse | skills/Wechat-Artical/scripts/wechat_publisher.py:113-205 | For every document, the loop followed by the final quote close yields the reference reading of the lines: tags become sentinels or are dropped, and other lines are copied in order. |
| ArticleFacts.ContentIsKept | skills/Wechat-Artical/scripts/wechat_publisher.py:103-207 | The content of any parsed document is its reference reading. |
| ArticleFacts.UntaggedIsPlain | skills/Wechat-Artical/scripts/wechat_publisher.py:194-200 | A line not starting with `【` is a plain line. |
| ArticleFacts.UntaggedCopied | skills/Wechat-Artical/scripts/wechat_publisher.py:198-200 | The reference reading of lines none of which starts with `【` is those lines, unchanged and in order. |
| ArticleFacts.PlainDocument | skills/Wechat-Artical/scripts/wechat_publisher.py:198-205 | A document without tags parses to its own lines, unchanged and in order. |
| Render.Markup | skills/Wechat-Artical/scripts/wechat_publisher.py:610-628 | A list template shows one marked-up text per item. |
| Render.BlockOf | skills/Wechat-Artical/scripts/wechat_publisher.py:399-521 | A line is blank exactly when empty. Each heading, bullet or numbered rule is chosen only when its marker is present. |
| Render.RenderTitleWithImage | skills/Wechat-Artical/scripts/wechat_publisher.py:548-568 | With no non-empty URL for the number, the result is a non-first h1, otherwise the image with that URL. The text always loses its leading `#`s. |
| Render.Escape | skills/Wechat-Artical/scripts/wechat_publisher.py:630-635 | The escaped code holds no raw `<` or `>`. |
| Render.InlineAll | skills/Wechat-Artical/scripts/wechat_publisher.py:610-628 | Every list item goes through the inline pass, in order. |
| Render.QuoteLine | skills/Wechat-Artical/scripts/wechat_publisher.py:411-419 | A blank quoted line emits nothing; any other line emits one image or one paragraph. |
| Render.QuoteStop | skills/Wechat-Artical/scripts/wechat_publisher.py:410 | The quote scan stays within the lines. |
| Render.QuoteStopIs | skills/Wechat-Artical/scripts/wechat_publisher.py:410 | The quote scan stops at the first end sentinel, and nowhere else. |
| Render.QuoteFrags | skills/Wechat-Artical/scripts/wechat_publisher.py:410-420 | A quote span emits at most one fragment per line. |
| Render.FenceEnd | skills/Wechat-Artical/scripts/wechat_publisher.py:443 | The code scan stays within the lines. |
| Render.FenceEndIs | skills/Wechat-Artical/scripts/wechat_publisher.py:443 | The code body ends at the first fence line, and nowhere else. |
| Render.ItemOf | skills/Wechat-Artical/scripts/wechat_publisher.py:482-503 | A line holds a bullet item exactly when it starts with `- ` or `* `, and a numbered item exactly when it has the ordered marker. The item is a suffix of the line. |
| Render.ListStop | skills/Wechat-Artical/scripts/wechat_publisher.py:483-494 | A list run that starts on an item line takes at least that line. |
| Render.ListStopIs | skills/Wechat-Artical/scripts/wechat_publisher.py:483-494 | A list run ends at the first line without an item, and nowhere else. |
| Render.AfterList | skills/Wechat-Artical/scripts/wechat_publisher.py:489-494 | After a run, the walk resumes at or after the end of its items, never beyond the last line. |
| Render.Block | skills/Wechat-Artical/scripts/wechat_publisher.py:399-521 | Every turn of the block loop advances, to one past the end at most when a closing line is missing. |
| Render.QuoteBlock | skills/Wechat-Artical/scripts/wechat_publisher.py:407-423 | A quote span always advances, to one past the last line at most when its end sentinel is missing. |
| Render.FenceBlock | skills/Wechat-Artical/scripts/wechat_publisher.py:439-449 | A fenced block advances and emits exactly one code fragment. |
| Render.ListBlock | skills/Wechat-Artical/scripts/wechat_publisher.py:481-511 | A list run advances and emits exactly one list fragment. |
| Render.LineBlock | skills/Wechat-Artical/scripts/wechat_publisher.py:425-521 | Each single-line rule advances and emits at most one fragment. |
| Render.RenderFromStep | skills/Wechat-Artical/scripts/wechat_publisher.py:399-521 | The rendering from a line is its block's fragments, then the rendering from where that block resumes. |
| RenderFacts.EscapeOneChar | skills/Wechat-Artical/scripts/wechat_publisher.py:631 | The three replacements on one character give that character's escape. |
| RenderFacts.EscapeIsPerChar | skills/Wechat-Artical/scripts/wechat_publisher.py:631 | Replacing `&`, then `<`, then `>` escapes each character independently, so no entity is double-escaped. |
| RenderFacts.ThreePassesPerChar | skills/Wechat-Artical/scripts/wechat_publisher.py:631 | The three character maps in sequence equal the per-character escape. |
| RenderFacts.UnescapeEscape | skills/Wechat-Artical/scripts/wechat_publisher.py:630-635 | The escaped code decodes back to the original code. |
| RenderFacts.UnescapeEscapeEach | skills/Wechat-Artical/scripts/wechat_publisher.py:631 | The per-character escape has that inverse. |
| RenderFacts.FenceEndFirst | skills/Wechat-Artical/scripts/wechat_publisher.py:443-445 | The code scan stops at a fence, and no earlier line is one. |
| RenderFacts.UnterminatedFenceBlock | skills/Wechat-Artical/scripts/wechat_publisher.py:439-449 | An unclosed fence takes every later raw line, joined and escaped. |
| RenderFacts.UnterminatedFence | skills/Wechat-Artical/scripts/wechat_publisher.py:439-449 | An unclosed fence is the last block of the article. |
| RenderFacts.QuoteStopFirst | skills/Wechat-Artical/scripts/wechat_publisher.py:410 | The quote scan stops at an end sentinel, and no earlier line is one. |
| RenderFacts.QuoteFragsKinds | skills/Wechat-Artical/scripts/wechat_publisher.py:407-423 | A quote span emits only images and paragraphs. |
| RenderFacts.ListItemsAll | skills/Wechat-Artical/scripts/wechat_publisher.py:481-495 | The items of item lines are collected in order. |
| RenderFacts.ListRunToBlank | skills/Wechat-Artical/scripts/wechat_publisher.py:481-495 | Item lines followed by a blank line make one list of those items, and the blank line is consumed. |
| RenderFacts.BulletItem | skills/Wechat-Artical/scripts/wechat_publisher.py:482-487 | The line `- x` holds the item `x`. |
| RenderFacts.NumberedItem | skills/Wechat-Artical/scripts/wechat_publisher.py:498-503 | The line `d. x` holds the item `x`. |
| RenderFacts.ListExample | skills/Wechat-Artical/scripts/wechat_publisher.py:481-495 | `- a`, `- b`, blank, `next` renders as one list `[a, b]`, then the paragraph `next`. |
| RenderFacts.TitleImageFallback | skills/Wechat-Artical/scripts/wechat_publisher.py:425-437 | A sentinel without an uploaded URL renders the next line as a non-first h1 and keeps the first-heading flag. |
| RenderFacts.TitleImageUploaded | skills/Wechat-Artical/scripts/wechat_publisher.py:425-437 | With a URL, the sentinel and the next line become one image-and-title block. |
| RenderFacts.BlockFirstMargin | skills/Wechat-Artical/scripts/wechat_publisher.py:451-457 | A block uses the first-heading margin at most once, and only while it is available. |
| RenderFacts.LineBlockFlag | skills/Wechat-Artical/scripts/wechat_publisher.py:425-521 | A single-line rule clears the first-heading flag exactly when it is the h1 rule, and uses the margin only while the flag is set. |
| RenderFacts.NonHeadingKeepsFlag | skills/Wechat-Artical/scripts/wechat_publisher.py:399-521 | A block that is not an h1 leaves the first-heading flag as it was. |
| RenderFacts.HeadingTakesFlag | skills/Wechat-Artical/scripts/wechat_publisher.py:451-457 | An h1 line becomes one heading that takes the first-heading margin when the flag is set, and the flag is cleared after it. |
| RenderFacts.AtMostOneFirstHeading | skills/Wechat-Artical/scripts/wechat_publisher.py:388-457 | At most one h1 of the article gets the first-heading margin. |
| RenderFacts.SecondLevelNotFirst | skills/Wechat-Artical/scripts/wechat_publisher.py:452 | A `## ` line is never taken as an h1. |
| RenderFacts.BlankLineSkipped | skills/Wechat-Artical/scripts/wechat_publisher.py:402-405 | A blank line emits nothing and moves to the next line. |
| RenderFacts.ParagraphLines | skills/Wechat-Artical/scripts/wechat_publisher.py:519-521 | Plain lines become paragraphs in stream order, and blank lines emit nothing. |
| RenderFacts.ParagraphStep | skills/Wechat-Artical/scripts/wechat_publisher.py:519-521 | A plain line renders as its paragraph, followed by the rendering of the rest. |
| Publisher.DigitText | skills/Wechat-Artical/scripts/wechat_publisher.py:357 | `str(n)` of a one-digit number is the one digit for `n`. |
| Publisher.TitleUploadsHas | skills/Wechat-Artical/scripts/wechat_publisher.py:356-363 | A section number has an entry exactly when its asset exists and its upload succeeded, and the entry is that URL. |
| Publisher.TitleUploadsKeys | skills/Wechat-Artical/scripts/wechat_publisher.py:356-363 | The only keys are the one-digit section numbers. |
| Publisher.RewriteAllRemote | skills/Wechat-Artical/scripts/wechat_publisher.py:369-371 | Remote (`http`) references are never rewritten. |
| Publisher.RewriteAllNoUploads | skills/Wechat-Artical/scripts/wechat_publisher.py:373-377 | When no upload succeeds, the content is unchanged. |
| Publisher.RewriteOneAbsent | skills/Wechat-Artical/scripts/wechat_publisher.py:377 | A reference whose text no longer occurs leaves the content unchanged. |
| Publisher.NoEarlyLink | skills/Wechat-Artical/scripts/wechat_publisher.py:377 | A text free of `](src)` followed by that link has no occurrence before the link. |
| Publisher.RewriteOneLocal | skills/Wechat-Artical/scripts/wechat_publisher.py:373-377 | A local reference whose file exists and uploads replaces its one occurrence of `](src)` by `](url)` and keeps the rest of the content. |
| Publisher.RewriteSingleLocal | skills/Wechat-Artical/scripts/wechat_publisher.py:365-377 | Content holding one local image whose file exists and uploads is rewritten, through `findall` and the loop, to the same content with that image pointing at its URL. |
| Publisher.WechatPublisher.ProcessContent | skills/Wechat-Artical/scripts/wechat_publisher.py:350-386 | The section URLs are recorded, then the rewritten content is rendered. |
| Publisher.WechatPublisher.UploadTitleImages | skills/Wechat-Artical/scripts/wechat_publisher.py:356-363 | The loop over 1..9 records exactly the uploaded section images. |
| Publisher.WechatPublisher.RewriteImages | skills/Wechat-Artical/scripts/wechat_publisher.py:365-379 | The loop applies the rewrites of the found references in order, as `RewriteAll` of `FindAllImages` says; `RewriteSingleLocal` shows what that does to an uploaded local image. |
| Publisher.WechatPublisher.MarkdownToHtml | skills/Wechat-Artical/scripts/wechat_publisher.py:388-527 | The output is the container, the block fragments in stream order, the footer and the closing tag. |
| Publisher.WechatPublisher.RenderBlock | skills/Wechat-Artical/scripts/wechat_publisher.py:399-521 | One turn of the loop matches `Block`. |
| Publisher.WechatPublisher.RenderQuote | skills/Wechat-Artical/scripts/wechat_publisher.py:407-423 | The quote loop matches `QuoteBlock`. |
| Publisher.WechatPublisher.RenderQuoteLine | skills/Wechat-Artical/scripts/wechat_publisher.py:411-419 | A non-blank quoted line becomes an image or a paragraph. |
| Publisher.WechatPublisher.RenderCode | skills/Wechat-Artical/scripts/wechat_publisher.py:439-449 | The fence rule matches `FenceBlock`. |
| Publisher.WechatPublisher.CollectCode | skills/Wechat-Artical/scripts/wechat_publisher.py:442-445 | The code loop collects the raw lines up to the first fence. |
| Publisher.WechatPublisher.RenderList | skills/Wechat-Artical/scripts/wechat_publisher.py:481-511 | The list rules match `ListBlock`. |
| Publisher.WechatPublisher.CollectList | skills/Wechat-Artical/scripts/wechat_publisher.py:483-494 | The list loop collects the items up to the first non-item line and consumes one blank line after them. |
| ImageCreator.BaseName | skills/Wechat-Artical/scripts/img_creator.py:346 | The file name is the part of the path after the last `/`. |
| ImageCreator.LastDot | skills/Wechat-Artical/scripts/img_creator.py:346 | The search finds the last `.` before the limit, or reports that there is none. |
| ImageCreator.Suffix | skills/Wechat-Artical/scripts/img_creator.py:346 | A suffix is a proper tail of the name that starts with its only `.`. |
| ImageCreator.Existing | skills/Wechat-Artical/scripts/img_creator.py:340-342 | Missing images are skipped; every kept one exists. |
| ImageCreator.ImageParts | skills/Wechat-Artical/scripts/img_creator.py:340-353 | There is at most one image part per listed image. |
| ImageCreator.BuildContent | skills/Wechat-Artical/scripts/img_creator.py:333-355 | With no images the content is the bare prompt; otherwise it is the text part followed by the image parts. |
| ImageCreator.WordRunEnd | skills/Wechat-Artical/scripts/img_creator.py:361 | `\w+` takes the maximal run of word characters. |
| ImageCreator.B64RunEnd | skills/Wechat-Artical/scripts/img_creator.py:361 | `[A-Za-z0-9+/=]+` takes the maximal run of base64 characters. |
| ImageCreator.DataUrlAt | skills/Wechat-Artical/scripts/img_creator.py:361 | A data-URL match yields a non-empty base64 payload. |
| ImageCreator.SearchDataUrl | skills/Wechat-Artical/scripts/img_creator.py:360-363 | `re.search` yields a non-empty base64 payload. |
| ImageCreator.SecondPiece | skills/Wechat-Artical/scripts/img_creator.py:367-368 | `url.split("base64,")[1]` is no longer than the URL. |
| ImageCreator.ExtractImage | skills/Wechat-Artical/scripts/img_creator.py:358-374 | A string reply yields base64 characters only; a reply that is neither a string nor a list yields the empty payload. |
| ImageCreator.AttemptOf | skills/Wechat-Artical/scripts/img_creator.py:298-326 | A failed attempt is reported under its model; a raised call keeps its exception text; a reply that cannot be read keeps the text of what it raised; a reply of the wrong shape is reported with its rendering; success needs a reply and a file written without error. |
| ImageCreator.AttemptsOf | skills/Wechat-Artical/scripts/img_creator.py:298 | There is one attempt per model. |
| ImageCreator.RunFrom | skills/Wechat-Artical/scripts/img_creator.py:298-326 | Success yields the output path; failure adds one error per remaining attempt after the errors so far. |
| ImageCreator.TryModels | skills/Wechat-Artical/scripts/img_creator.py:298-326 | The loop calls the models in order and stops right after the first success. It calls all of them only when all fail, and its result is `Run` of the attempts. |
| ImageCreator.Generate | skills/Wechat-Artical/scripts/img_creator.py:287-330 | The primary is called first, then the fallback. Success yields the output path, and failure calls both. |
| ImageCreator.ErrorLines | skills/Wechat-Artical/scripts/img_creator.py:329 | There is one message per error, in order. |
| ImageCreator.Bullets | skills/Wechat-Artical/scripts/img_creator.py:329 | Each message gets the `  - ` prefix, in order. |
| ImageCreator.FillerEnd | skills/Wechat-Artical/scripts/img_creator.py:130 | `[#\s]*` takes the maximal run of `#` and whitespace. |
| ImageCreator.LastNonNewline | skills/Wechat-Artical/scripts/img_creator.py:130 | The back-off of `(.+)` finds the last character that is not a newline. |
| ImageCreator.ExtractTitle | skills/Wechat-Artical/scripts/img_creator.py:120-134 | The title has no whitespace ends and no newline. |
| ImageCreator.WrappedSnoc | skills/Wechat-Artical/scripts/img_creator.py:183-191 | Adding a final short piece after full lines adds one line. |
| ImageCreator.WrapText | skills/Wechat-Artical/scripts/img_creator.py:181-191 | The character loop computes `Wrapped`. |
| ImageCreator.CreateCoverImage | skills/Wechat-Artical/scripts/img_creator.py:66-117 | Each input check has its message, in order, before any model call. Models are called exactly when the prompt is non-blank. Success returns the output path with the wrapped cover text or title; failure returns the aggregated message. |
| ImageCreatorFacts.BaseNameOfFile | skills/Wechat-Artical/scripts/img_creator.py:346 | `dir/name` has the file name `name`. |
| ImageCreatorFacts.SuffixOfName | skills/Wechat-Artical/scripts/img_creator.py:346 | `stem.ext` has the suffix `.ext`. |
| ImageCreatorFacts.MediaKeyOfFile | skills/Wechat-Artical/scripts/img_creator.py:346 | The lookup key of `dir/stem.ext` is `.ext` lower-cased. |
| ImageCreatorFacts.MediaTable | skills/Wechat-Artical/scripts/img_creator.py:347-348 | The five known suffixes map to their types; others map to `png`. |
| ImageCreatorFacts.DotNameSuffix | skills/Wechat-Artical/scripts/img_creator.py:346 | A dot-file such as `.png` has no suffix. |
| ImageCreatorFacts.MimeDotFile | skills/Wechat-Artical/scripts/img_creator.py:346-348 | A dot-file is sent as `png`, whatever its name. |
| ImageCreatorFacts.ExistingMembers | skills/Wechat-Artical/scripts/img_creator.py:340-342 | An image is kept exactly when it is listed and exists. |
| ImageCreatorFacts.ExistingAppend | skills/Wechat-Artical/scripts/img_creator.py:340-342 | Filtering distributes over concatenation, so order is kept. |
| ImageCreatorFacts.ExistingAll | skills/Wechat-Artical/scripts/img_creator.py:340-342 | When all images exist, all are kept. |
| ImageCreatorFacts.ImagePartsExisting | skills/Wechat-Artical/scripts/img_creator.py:340-353 | There is one image part per existing image, in order. |
| ImageCreatorFacts.ContentShape | skills/Wechat-Artical/scripts/img_creator.py:333-355 | The content is the text part, then one part per existing image, in order. |
| ImageCreatorFacts.DataUrlLayout | skills/Wechat-Artical/scripts/img_creator.py:352 | The layout of `data:image/{mtype};base64,{b64}`. |
| ImageCreatorFacts.DataUrlAtStart | skills/Wechat-Artical/scripts/img_creator.py:361 | The string pattern finds the payload of a data URL. |
| ImageCreatorFacts.DataUrlWrittenAt | skills/Wechat-Artical/scripts/img_creator.py:361 | A data URL written at any position, not followed by a base64 character, is matched there with its payload. |
| ImageCreatorFacts.DataUrlRoundTrip | skills/Wechat-Artical/scripts/img_creator.py:358-363 | Extracting from a built data URL returns its payload. |
| ImageCreatorFacts.SearchWithoutMarker | skills/Wechat-Artical/scripts/img_creator.py:360-363 | There is no match without `data:image/`. |
| ImageCreatorFacts.SearchSkip | skills/Wechat-Artical/scripts/img_creator.py:360-363 | The search passes over positions where no data URL starts. |
| ImageCreatorFacts.NoMarkerBefore | skills/Wechat-Artical/scripts/img_creator.py:360-363 | Text without `data:image/` holds no match start before a data URL that follows it. |
| ImageCreatorFacts.DataUrlAfterText | skills/Wechat-Artical/scripts/img_creator.py:358-363 | A string reply holding a data URL after text without `data:image/` yields that URL's payload. |
| ImageCreatorFacts.NoMarkerNoPayload | skills/Wechat-Artical/scripts/img_creator.py:360-363 | A string without `data:image/` yields no image. |
| ImageCreatorFacts.MarkerInDataUrl | skills/Wechat-Artical/scripts/img_creator.py:367-368 | `base64,` first occurs right after the media type. |
| ImageCreatorFacts.NoCommaNoMarker | skills/Wechat-Artical/scripts/img_creator.py:367-368 | A comma-free payload holds no `base64,`. |
| ImageCreatorFacts.SecondPieceOfDataUrl | skills/Wechat-Artical/scripts/img_creator.py:367-369 | The split of a built data URL on `base64,` returns its payload. |
| ImageCreatorFacts.ImageItemRoundTrip | skills/Wechat-Artical/scripts/img_creator.py:364-369 | An `image_url` item leading a list yields its payload. |
| ImageCreatorFacts.TextItemFirst | skills/Wechat-Artical/scripts/img_creator.py:370-373 | A `text` item with an image decides the result. |
| ImageCreatorFacts.ScanShift | skills/Wechat-Artical/scripts/img_creator.py:365 | Scanning from the next item is scanning the remaining list. |
| ImageCreatorFacts.OtherItemSkipped | skills/Wechat-Artical/scripts/img_creator.py:365-373 | An item of another type is skipped. |
| ImageCreatorFacts.NonDictItemRaises | skills/Wechat-Artical/scripts/img_creator.py:366 | `item.get` on a non-dict item raises. |
| ImageCreatorFacts.RunFromFacts | skills/Wechat-Artical/scripts/img_creator.py:298-326 | Success happens exactly when some remaining attempt succeeds; on failure, each attempt adds its own error, in order. |
| ImageCreatorFacts.RunSucceeds | skills/Wechat-Artical/scripts/img_creator.py:298-326 | Generation succeeds, with the output path, exactly when some attempt succeeds. |
| ImageCreatorFacts.RunErrors | skills/Wechat-Artical/scripts/img_creator.py:298-330 | When all fail, there is one error per attempt, in order. |
| ImageCreatorFacts.AttemptErrorsNameModels | skills/Wechat-Artical/scripts/img_creator.py:313-326 | Each error names the model that made the attempt. |
| ImageCreatorFacts.PrimaryThenFallback | skills/Wechat-Artical/scripts/img_creator.py:291-294 | The primary (300 s) is tried, then the fallback (45 s). Failure lists both errors, in that order. |
| ImageCreatorFacts.ErrorLineNamesModel | skills/Wechat-Artical/scripts/img_creator.py:313-323 | Every error message starts with `模型 <model> `. |
| ImageCreatorFacts.FailureLines | skills/Wechat-Artical/scripts/img_creator.py:328-330 | The failure message reads back as the header line plus one bullet line per error. |
| ImageCreatorFacts.SummaryLines | skills/Wechat-Artical/scripts/img_creator.py:329-330 | The header and bullet lines split back to themselves. |
| ImageCreatorFacts.HeaderIsOneLine | skills/Wechat-Artical/scripts/img_creator.py:330 | The header has no newline. |
| ImageCreatorFacts.BulletIsOneLine | skills/Wechat-Artical/scripts/img_creator.py:329 | A bullet of a one-line message is one line. |
| ImageCreatorFacts.TitleAbsent | skills/Wechat-Artical/scripts/img_creator.py:120-134 | No file, or no marker, gives an empty title. |
| ImageCreatorFacts.TitleAfterMarker | skills/Wechat-Artical/scripts/img_creator.py:129-132 | After any text that does not hold the marker, the marker, filler, then a line that ends the text or is followed by a newline gives that line stripped, whatever comes after it. |
| ImageCreatorFacts.FillerThenLine | skills/Wechat-Artical/scripts/img_creator.py:130 | The layout marker, filler, line and rest puts the filler, the line and the line end where the pattern looks for them. |
| ImageCreatorFacts.TitleAt | skills/Wechat-Artical/scripts/img_creator.py:129-132 | After the first marker, the group starts at the first character that is not filler and runs to the end of its line; the title is that stripped. |
| ImageCreatorFacts.TitleExample | skills/Wechat-Artical/scripts/img_creator.py:129-132 | `【文章标题】# Hello World` gives `Hello World`. |
| ImageCreatorFacts.TitleFromNextLine | skills/Wechat-Artical/scripts/img_creator.py:129-132 | The filler crosses a newline, so `【文章标题】` followed by `## Real Title` on the next line gives `Real Title`. |
| ImageCreatorFacts.TitleAfterTag | skills/Wechat-Artical/scripts/img_creator.py:129-132 | A `【封面主图】` line before the marked title line does not hide the title: the result is `Hello World`. |
| ImageCreatorFacts.TitleOfHashesOnly | skills/Wechat-Artical/scripts/img_creator.py:129-132 | With only hashes after the marker, the regex backs off and the title is `#`. |
| ImageCreatorFacts.WrappedConcat | skills/Wechat-Artical/scripts/img_creator.py:183-191 | The wrapped lines concatenate back to the text. |
| ImageCreatorFacts.WrappedShape | skills/Wechat-Artical/scripts/img_creator.py:183-191 | Every line but the last has exactly 15 characters; the last has 1 to 15, and there are ceil(n/15) lines. |
| ImageCreatorFacts.WrappedUnique | skills/Wechat-Artical/scripts/img_creator.py:183-191 | Lines of that shape are the wrap of their concatenation. |

## Where the code and its description differ

The model follows the code in each case.

- **Fenced code.** The code escapes `&`, `<` and `>` in fenced code
  (`wechat_publisher.py:631`). It does not pass the code through as-is.
  `RenderFacts.UnescapeEscape` shows the escape loses nothing.
- **Inline passes.** The four passes are successive `re.sub` calls, each
  over the output of the one before (`wechat_publisher.py:656-674`). A later
  pass therefore does scan what an earlier one inserted.
  `InlineFacts.SpanHasNoMarkup` shows the bold span inserts nothing the
  later passes would match.
- **List runs.** A list run ends at a blank line or a non-item line, as
  described. A blank line is also consumed by the run
  (`wechat_publisher.py:489-491`).
- **Title-image sentinel.** The match is anchored at the start of the line
  only (`re.match` without `$`, `wechat_publisher.py:426`). A line that
  merely starts with a sentinel is therefore a title-image block.

## Left out

- HTTP: uploads, WeChat tokens, draft submission and the image API. Uploads
  are the `uploads` map, and an API call is the `call` parameter.
- The HTML template text and CSS. A fragment records its template and
  arguments, and the final `'\n'.join` of the fragments is not modelled.
- PIL drawing in `_add_text_to_image`: fonts, the band and the stroke. Only
  the 15-character wrap is modelled.
- File I/O: reading files, `mkdir`, writing the decoded image, and
  `Path.resolve`. Directory and file facts are parameters, and paths are
  joined with `/` without normalisation.
- Base64 encoding and decoding. The payload is modelled as text.
- Console output (`print`).
- `\w` and `\d` are ASCII here. Python's Unicode classes are wider.
- `lower()` is ASCII here. Other letters are left as they are.
- `Path.suffix` is modelled as the text from the last dot of the file name,
  for a name that is not a dot-file. Edge cases of particular Python
  versions, such as a name ending in `.`, are not modelled.
- JSON values hold integers, not floats.
- `ImageCreator.ReplyContent`: the reply is modelled only by its shape.
- The text of `str(data)` and of exception messages is not computed. The
  model takes each of them as given text: the call's exception, the exception
  raised while reading the reply, and the one raised while saving the image.
- `ImageCreator.CreateCoverImage`: three exits are not modelled.
  - The `图片生成失败` branch is unreachable, because `_generate` returns the
    non-empty output path or raises.
  - The outer exception handler is not modelled.
  - A failed decode of `artical.md` while looking up the title is not
    modelled; it returns an empty title.
- `ArticleFacts.QuoteBalance`, `ArticleFacts.StepConsistent`,
  `ArticleFacts.ParseFromConsistent` and `ArticleFacts.DocumentQuotesClosed`
  require that no source line is itself a sentinel string. Lines are copied
  verbatim, so such a line would count as a sentinel.
- `Publisher.WechatPublisher.ProcessContent`: whether a path exists and what
  its upload returns are fixed for the whole run.
- The run orchestration outside the core is not part of this model:
  `WechatPublisher.publish`, the access token, the cover upload and the
  command line.
