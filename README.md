# Markdown sanitizer of pagedown, modelled in Dafny

This project models `Markdown.Sanitizer.js`, the HTML post-processor that
pagedown chains after its Markdown converter. It has two passes.

- `sanitizeHtml` scans the HTML for every match of `<[^>]*>?`. That is a `<`
  and everything up to and including the next `>`, or up to the end of the
  text when no `>` follows. Each match is judged by `sanitizeTag`, which
  keeps the match when one of six anchored, case-insensitive whitelist
  patterns accepts it and replaces it by the empty string otherwise. The
  patterns are: structural tags, links, images, and YouTube, Vimeo and
  SoundCloud iframes.
- `balanceTags` lower-cases the text and collects its tags. It pairs each
  opening tag with the first later tag, not taken by an earlier opener,
  that is exactly `</name>` (line 91 compares whole tags, so `</b >` never
  closes `<b>`). It then deletes every tag left unpaired, openers and
  closers alike, from the text as written. In tags without a line break,
  the names `p`, `img`, `br`, `li` and `hr` are never touched (for
  tags with one, see the `BalanceTags` line under "## Left out").

The modules:

- `Text` (`text.dfy`): character classes, ASCII lower-casing and
  case-insensitive comparison. It also holds `TokenEnd`, the extent of a
  token that starts at a `<`.
- `Whitelist` (`whitelist.dfy`): the six patterns as recognisers over a
  whole token, and the verdict `SanitizeTag`.
- `WhitelistFacts` (`whitelist.dfy`): what the patterns guarantee. These are
  the shape of an accepted token, case insensitivity, and the link, image
  and iframe rules.
- `Sanitizer` (`sanitizer.dfy`): `SanitizeHtml` as a left-to-right scan,
  with its properties.
- `Balancer` (`balancer.dfy`): the tag scan, a functional specification of
  the pairing pass, and the imperative procedure proved against it.
  - The specification is built from `FindCloser`, `Step`, `Run`, `Marks`,
    `Excise` and `Balance`.
  - The procedure is `BalanceTags`. It uses `MarkUnpaired`, which works
    over two `bool` arrays as the source's `tagpaired` and `tagremove` do,
    with `PairOne`, `SearchForward`, `Record` and `DeleteMarked`.

Each regular expression becomes a recogniser. An optional group `(G)?`
followed by the rest `R` is written as "G then R, or R". Every group has a
fixed extent, because a quoted value runs to the next `"`, which no value
class admits. So the recognisers accept exactly the strings the anchored
patterns match. The `i` flag is ASCII case folding.

Three behaviours of the code deserve a note. The model follows the code.

- An unpaired closing tag is deleted, as the comment on lines 45-46 says.
  Line 99 is reached for a closer because line 87 skips the forward search.
  `Balancer.StrayCloserDeleted` shows `x</b>` becoming `x`.
- Balancing is not idempotent. Deleting a tag can join the text around it
  into a new tag: `<<b>b>` becomes `<b>`, and a second pass deletes that
  tag as well. `Balancer.DeletionJoinsTag` and
  `Balancer.BalanceNotIdempotent` show this.
- The comment on line 24 calls the Vimeo height optional, but the pattern
  on line 26 requires it. `WhitelistFacts.VimeoNeedsHeight` states what the
  pattern does.

## Model

| member | source | states |
|---|---|---|
| Text.Lower | Markdown.Sanitizer.js:60 | lower-casing keeps the length and changes each character only by mapping `A`-`Z` to `a`-`z` |
| Text.TokenEnd | Markdown.Sanitizer.js:41 | a token starting at `<` ends just past the first `>` after it; if no `>` follows, it ends at the end of the text; no `>` lies inside it |
| Text.TokenEndLower | Markdown.Sanitizer.js:57-60 | lower-casing the text moves no token end |
| Whitelist.BasicTag | Markdown.Sanitizer.js:14 | decides the structural-tag pattern: `<name>` or `</name>` for the listed names and `ol start="digits"`, or `br`/`hr` with an optional whitespace and an optional `/` |
| Whitelist.LinkTag | Markdown.Sanitizer.js:16 | decides the link pattern: `</a>`, or `<a`, whitespace, a safe `href`, an optional non-empty `title`, an optional whitespace and `>` |
| Whitelist.ImageTag | Markdown.Sanitizer.js:19 | decides the image pattern: `<img`, whitespace, a safe `src`, then optional width, height, alt and title in this order, and an optional whitespace, optional `/` and `>` |
| Whitelist.YouTubeTag | Markdown.Sanitizer.js:22 | decides the YouTube pattern: `</iframe>`, or `<iframe`, optional width and height each followed by whitespace, the embed `src`, optional `frameborder="0"` and `allowfullscreen`, and the close |
| Whitelist.VimeoTag | Markdown.Sanitizer.js:26 | decides the Vimeo pattern: `<iframe`, the video `src`, an optional width, a required height, optional frameborder and the three full-screen flags in order, and the close |
| Whitelist.SoundCloudTag | Markdown.Sanitizer.js:29 | decides the SoundCloud pattern: `<iframe ` and width, height, scrolling, frameborder and the widget `src`, each after a single blank, and the close |
| Whitelist.Whitelisted | Markdown.Sanitizer.js:31-33 | a token is accepted when any of the six patterns accepts it |
| Whitelist.SanitizeTag | Markdown.Sanitizer.js:31-38 | the tag comes back unchanged when some pattern accepts it, and as the empty string otherwise |
| WhitelistFacts.SanitizeTagIdempotent | Markdown.Sanitizer.js:31-38 | the verdict is the tag or the empty string, and judging the verdict again returns it unchanged |
| WhitelistFacts.BasicTagLower | Markdown.Sanitizer.js:14 | the structural-tag pattern accepts a token exactly when it accepts its lower-cased form |
| WhitelistFacts.LinkTagLower | Markdown.Sanitizer.js:16 | the link pattern accepts a token exactly when it accepts its lower-cased form |
| WhitelistFacts.ImageTagLower | Markdown.Sanitizer.js:19 | the image pattern accepts a token exactly when it accepts its lower-cased form |
| WhitelistFacts.YouTubeTagLower | Markdown.Sanitizer.js:22 | the YouTube pattern accepts a token exactly when it accepts its lower-cased form |
| WhitelistFacts.VimeoTagLower | Markdown.Sanitizer.js:26 | the Vimeo pattern accepts a token exactly when it accepts its lower-cased form |
| WhitelistFacts.SoundCloudTagLower | Markdown.Sanitizer.js:29 | the SoundCloud pattern accepts a token exactly when it accepts its lower-cased form |
| WhitelistFacts.WhitelistIgnoresCase | Markdown.Sanitizer.js:14-38 | a token is accepted exactly when its lower-cased form is, and the verdict commutes with lower-casing |
| WhitelistFacts.WhitelistedShape | Markdown.Sanitizer.js:14-29 | every accepted token has at least three characters, starts with `<` and ends with `>` |
| WhitelistFacts.UnclosedRejected | Markdown.Sanitizer.js:14-29 | a token with no `>` after its first character is never accepted |
| WhitelistFacts.BasicLead | Markdown.Sanitizer.js:14 | an accepted structural tag has a `/` or one of the letters `bcdehiklopsu` after its `<`, and `<i>` is the only one whose name starts with `i` |
| WhitelistFacts.IframeLead | Markdown.Sanitizer.js:22-29 | a token accepted by an iframe pattern starts with `</` or, up to case, with `<if` |
| WhitelistFacts.LinkCloserAccepted | Markdown.Sanitizer.js:16 | `</a>` is accepted |
| WhitelistFacts.LinkHrefIsSafe | Markdown.Sanitizer.js:16 | an accepted token starting with `<a` has a whitespace character and then an `href` whose value starts, up to case, with `http://`, `https://`, `ftp://` or `/` and continues with one or more URL characters and nothing else |
| WhitelistFacts.ImageSrcIsSafe | Markdown.Sanitizer.js:19 | an accepted token starting with `<img` has a whitespace character and then a `src` whose value starts, up to case, with `http://`, `https://` or `/` (not `ftp://`) and continues with one or more URL characters and nothing else |
| WhitelistFacts.YouTubeSrcValue | Markdown.Sanitizer.js:22 | an accepted YouTube opener has, after whitespace, a `src` attribute whose quoted value is `https://www.youtube.com/embed/` (up to case) followed by one or more embed-path characters and nothing else |
| WhitelistFacts.VimeoSrcValue | Markdown.Sanitizer.js:26 | an accepted Vimeo opener has `src` as its first attribute, and its quoted value starts with `https://player.vimeo.com/video/` and ends with `?color=ffffff` (up to case), with a path between them |
| WhitelistFacts.VimeoNeedsHeight | Markdown.Sanitizer.js:24-26 | an accepted Vimeo opener always has a `height` attribute with a non-empty numeric value, after its source |
| WhitelistFacts.SoundCloudAttrs | Markdown.Sanitizer.js:29 | an accepted SoundCloud opener has a numeric `width` first, then at strictly increasing positions a numeric `height`, a non-empty `scrolling`, a non-empty `frameborder` and a `src` whose value starts with `https://w.soundcloud.com/` and goes on |
| WhitelistFacts.IframeHostRule | Markdown.Sanitizer.js:22-29 | an accepted `<iframe` opener has a `src` attribute whose value is YouTube's embed address with a path, Vimeo's video address with a path and the colour query, or SoundCloud's widget host with a path |
| WhitelistFacts.BasicAccepted | Markdown.Sanitizer.js:14 | every structural name, in any case and `ol start="digits"` included, is accepted as `<name>` and as `</name>` |
| WhitelistFacts.UpperCaseAccepted | Markdown.Sanitizer.js:14 | `<B>` and `</STRONG>` are accepted |
| WhitelistFacts.OlStartAccepted | Markdown.Sanitizer.js:14 | `<ol start="3">` is accepted |
| WhitelistFacts.BreakAccepted | Markdown.Sanitizer.js:14 | `<br />` is accepted |
| WhitelistFacts.LinkAccepted | Markdown.Sanitizer.js:16 | `<a href="url">` and `<a href="url" title="t">` are accepted for every safe URL and every non-empty title free of `"`, `<` and `>` |
| WhitelistFacts.ImageAccepted | Markdown.Sanitizer.js:19 | `<img src="url" width="w" height="h" alt="a">` is accepted for every safe URL, sizes of one to three digits and alternative text free of `"`, `<` and `>` |
| WhitelistFacts.YouTubeAccepted | Markdown.Sanitizer.js:22 | `<iframe src="https://www.youtube.com/embed/path" allowfullscreen>` is accepted for every non-empty embed path |
| WhitelistFacts.VimeoAccepted | Markdown.Sanitizer.js:26 | `<iframe src="https://player.vimeo.com/video/path?color=ffffff" height="h">` is accepted for every non-empty embed path and numeric height |
| WhitelistFacts.SoundCloudAccepted | Markdown.Sanitizer.js:29 | `<iframe width="w" height="h" scrolling="s" frameborder="f" src="https://w.soundcloud.com/path">` is accepted for numeric sizes and non-empty quote-free values |
| WhitelistFacts.OnlyOlHasStart | Markdown.Sanitizer.js:14 | a structural tag with a `=` in it is `<ol start="` or `</ol start="` (up to case): no other structural tag carries an attribute |
| WhitelistFacts.UlStartRefused | Markdown.Sanitizer.js:14 | `<ul start="3">` is refused |
| WhitelistFacts.QuoteAfterLeadRefused | Markdown.Sanitizer.js:14-33 | a token starting `<b"` is refused by every pattern |
| WhitelistFacts.ImageWidthValue | Markdown.Sanitizer.js:19 | where the image pattern reads a width right after the source, the width has one to three digits and only a height, alternative text and a title may follow it |
| WhitelistFacts.ImageHeightValue | Markdown.Sanitizer.js:19 | where it reads a height, the height has one to three digits and only alternative text and a title may follow it |
| WhitelistFacts.SizeNotAlt | Markdown.Sanitizer.js:19 | alternative text, a title or the close never begin with a width or a height |
| WhitelistFacts.ImageAttrs | Markdown.Sanitizer.js:19 | an accepted image has `src` as its first attribute, at position 5, with a safe address; after it come at most a width and then a height, each of one to three digits, and no size after those |
| WhitelistFacts.OnlyImageRule | Markdown.Sanitizer.js:14-33 | a token beginning `<img` (up to case) is accepted only by the image pattern |
| WhitelistFacts.WideImageRefused | Markdown.Sanitizer.js:19 | `<img src="url" width="w">`, with a safe `url` and nothing after the width, is refused whenever `w` has four digits or more; for any accepted image, `ImageAttrs` bounds a width that follows `src` to three digits |
| WhitelistFacts.ImageOrderRefused | Markdown.Sanitizer.js:19 | `<img src="url" height="h" width="w">`, with a safe `url` and sizes of one to three digits, is refused; for any accepted image, `ImageAttrs` allows no size after the height |
| Sanitizer.SanitizeHtml | Markdown.Sanitizer.js:40-42 | the scan of the global replace never lengthens the text |
| Sanitizer.KeepWhitelisted | Markdown.Sanitizer.js:31-38 | the kept tokens are all accepted; each accepted token occurs in the result exactly as often as in the list, and every other token not at all |
| Sanitizer.KeepWhitelistedAppend | Markdown.Sanitizer.js:41 | each token is judged on its own: filtering two lists joined is joining the two filtered lists |
| Sanitizer.AcceptedTokenEnd | Markdown.Sanitizer.js:41 | an accepted token ends at its own `>` whatever text follows it, so keeping it does not change how the rest is split |
| Sanitizer.SanitizedIsClean | Markdown.Sanitizer.js:40-42 | in the output, every `<` the scan reaches (every `<` outside an accepted token) begins a token that the whitelist accepts |
| Sanitizer.CleanIsKept | Markdown.Sanitizer.js:40-42 | text in which every `<` the scan reaches begins an accepted token comes back unchanged |
| Sanitizer.SanitizeIdempotent | Markdown.Sanitizer.js:40-42 | sanitizing twice equals sanitizing once, and the text is unchanged exactly when it is clean |
| Sanitizer.SanitizeKeepsText | Markdown.Sanitizer.js:41 | the characters outside tokens come through in order, unchanged |
| Sanitizer.SanitizeKeepsAcceptedTags | Markdown.Sanitizer.js:41 | the output's tokens are the input's accepted tokens, whole and in order; every other token is deleted |
| Sanitizer.NoTagUnchanged | Markdown.Sanitizer.js:41 | text without a `<` comes back unchanged |
| Sanitizer.UnclosedTokenDeleted | Markdown.Sanitizer.js:41 | a `<` with no `>` after it, at the start of the text, takes the whole text with it |
| Sanitizer.UnclosedTailDeleted | Markdown.Sanitizer.js:41 | a `<` with no `>` after it deletes everything from that `<` to the end; what comes before is sanitized as if cut there |
| Sanitizer.LoneLessThan | Markdown.Sanitizer.js:41 | `a < b` becomes `a ` |
| Sanitizer.OnlyLinkRule | Markdown.Sanitizer.js:14-33 | a token beginning `<a` or `<A` is accepted only by the link pattern |
| Sanitizer.UnsafeHrefRejected | Markdown.Sanitizer.js:16 | a token starting `<a` or `<A` whose `href` value starts with none of `h`, `f` (in either case) and `/` is refused |
| Sanitizer.ScriptLinkRejected | Markdown.Sanitizer.js:16 | `<a href="javascript:alert(1)">` is refused |
| Sanitizer.LinkCloserKept | Markdown.Sanitizer.js:41 | `x</a>` comes back unchanged |
| Sanitizer.ScriptLinkDropped | Markdown.Sanitizer.js:41 | `<a href="javascript:alert(1)">x</a>` becomes `x</a>`: the opener goes, the text and the closer stay |
| Sanitizer.AngleInsideKeptValue | Markdown.Sanitizer.js:29-42 | `<iframe width="1" height="1" scrolling="<b" frameborder="0" src="https://w.soundcloud.com/x">` is accepted and comes back unchanged, yet its `<` at index 40 would not be accepted as a token of its own: the scan never reaches it |
| Balancer.TagSpans | Markdown.Sanitizer.js:57-60 | the matches of the global tag scan lie in order and do not overlap; each begins with `<` and then a word character, or `</` and then a word character, and ends where the token ends |
| Balancer.TagSpansComplete | Markdown.Sanitizer.js:57-60 | the scan misses no tag: every position where a `<` is followed by a word character, or by `/` and a word character, lies inside some match |
| Balancer.Tokens | Markdown.Sanitizer.js:60 | one token per match, in order, each the text of its match |
| Balancer.Name | Markdown.Sanitizer.js:77 | a tag's name is the longest run of word characters right after `<`, or after `</` in a closer; it is empty when none follows |
| Balancer.SearchIgnored | Markdown.Sanitizer.js:69-80 | searching the list for `<name>` succeeds exactly when the name is `p`, `img`, `br`, `li` or `hr` |
| Balancer.IgnoredBySearch | Markdown.Sanitizer.js:69-80 | for every word, the search for `<name>` in the list succeeds exactly when the name is one of the five ignored names |
| Balancer.FindCloser | Markdown.Sanitizer.js:90-95 | the result is the first position from `from` on that is not yet taken and holds the wanted closer; if there is none, nothing is returned |
| Balancer.Step | Markdown.Sanitizer.js:76-102 | a tag is skipped exactly when it is taken or its name is ignored; otherwise an opener is paired with the first later untaken tag equal to `</name>`, and a closer, or an opener with no such tag, is removed |
| Balancer.Run | Markdown.Sanitizer.js:76-103 | after `c` rounds there are `c` verdicts, and every taken closer is a tag position |
| Balancer.Marks | Markdown.Sanitizer.js:76-103 | tag `k` is marked exactly when its verdict is removal |
| Balancer.PairOne | Markdown.Sanitizer.js:77-102 | one round of the loop decides what the specification's step decides, given that the array flags mirror the taken closers |
| Balancer.SearchForward | Markdown.Sanitizer.js:90-95 | the forward search returns the first untaken exact match at or after `from`, or -1 when there is none |
| Balancer.MarkUnpaired | Markdown.Sanitizer.js:68-103 | the removal flags are the specification's marks, and `needsRemoval` holds exactly when some tag is marked |
| Balancer.Record | Markdown.Sanitizer.js:98-102 | a removed tag is flagged for removal and a found closer is flagged as paired; nothing else changes |
| Balancer.Excise | Markdown.Sanitizer.js:109-116 | deleting matches from the text never lengthens what follows the starting point |
| Balancer.Balance | Markdown.Sanitizer.js:52-117 | the balanced text is never longer than the input |
| Balancer.DeleteMarked | Markdown.Sanitizer.js:109-116 | the second replace deletes the marked matches from the text as written and keeps everything else |
| Balancer.BalanceTags | Markdown.Sanitizer.js:52-117 | the procedure returns the balanced text: the marked tags of the lower-cased text, deleted at the same places in the original |
| Balancer.TagSpansIgnoreCase | Markdown.Sanitizer.js:57-60 | the tags found in the lower-cased text sit exactly where the tags of the text as written sit |
| Balancer.TokensLower | Markdown.Sanitizer.js:60 | the tokens of the lower-cased text are the lower-cased tokens of the text |
| Balancer.PairedMeans | Markdown.Sanitizer.js:91-101 | a closer is taken before round `c` exactly when an earlier opener was paired with it |
| Balancer.CloserTakenOnce | Markdown.Sanitizer.js:91-101 | no closer is paired with two openers |
| Balancer.TakenCloserKept | Markdown.Sanitizer.js:80-81 | a closer that an opener took is skipped when the loop reaches it |
| Balancer.WhatIsRemoved | Markdown.Sanitizer.js:76-103 | a tag is marked exactly when its name is not ignored and either it is a closer no earlier opener took, or it is an opener all of whose later `</name>` were already taken |
| Balancer.KeptTagsPairUp | Markdown.Sanitizer.js:76-103 | every kept opener whose name is not ignored is paired with a later kept closer; every kept closer whose name is not ignored was taken by an earlier kept opener |
| Balancer.LoneTagMarks | Markdown.Sanitizer.js:76-103 | a tag alone is marked exactly when its name is not ignored |
| Balancer.ExciseLength | Markdown.Sanitizer.js:109-116 | deleting shortens the text by exactly the lengths of the marked matches |
| Balancer.BalanceLength | Markdown.Sanitizer.js:109-116 | the balanced text is shorter than the input by exactly the lengths of the marked tags |
| Balancer.BalanceNothingMarked | Markdown.Sanitizer.js:105-107 | with nothing marked, the text comes back unchanged |
| Balancer.BalanceWithoutTags | Markdown.Sanitizer.js:62-66 | text in which the scan finds no tag comes back unchanged |
| Balancer.UnclosedInnerDeleted | Markdown.Sanitizer.js:76-116 | `<b><i></b>` becomes `<b></b>`: the outer pair stays and the inner opener, whose closer is missing, is deleted |
| Balancer.StrayCloserDeleted | Markdown.Sanitizer.js:87-99 | `x</b>` becomes `x`: a closer that no opener took is deleted |
| Balancer.LoneOpenerDeleted | Markdown.Sanitizer.js:87-99 | `<b>` becomes the empty string |
| Balancer.LoneBreakKept | Markdown.Sanitizer.js:69-81 | `<br>` stays, although it has no partner |
| Balancer.DeletionJoinsTag | Markdown.Sanitizer.js:109-116 | `<<b>b>` becomes `<b>`: the text around a deleted tag joins into a new tag |
| Balancer.BalanceNotIdempotent | Markdown.Sanitizer.js:52-117 | balancing twice differs from balancing once for `<<b>b>` |

## Left out

- Module plumbing (lines 1-11) picks `exports` or the global `Markdown` object; it has no logic to model.
- `getSanitizingConverter` (lines 119-124) only chains the two passes onto a `Converter`, which is not part of this model.
- Strings are sequences of characters, not UTF-16 code units. Surrogate pairs are not modelled.
- The `i` flag of the six patterns is ASCII case folding: without the `u` flag, ECMA-262's Canonicalize step never folds a non-ASCII character onto an ASCII one, and every letter of the patterns is ASCII.
- Text.Lower: maps only `A`-`Z`. JavaScript's `toLowerCase` (line 60) also maps non-ASCII capitals, and two of them become ASCII word characters: U+212A (Kelvin sign) becomes `k`, and U+0130 becomes `i` followed by U+0307. Where one follows `<`, `</` or a tag name, the lower-cased text has a tag, or a tag name, that the text as written does not have.
- Balancer.Balance: differs from the source on such text. The second replace (line 111) scans the text as written, so the source's flags shift onto the wrong tags: `balanceTags("<\u212A><b></b>")` returns `<\u212A></b>`, while `Balance` returns the input unchanged. The model is exact on text in which no `<`, `</` or tag name is followed by such a character. Output of `sanitizeHtml` is such text. There, every `<` that its scan reaches starts an accepted token, and every other `<` lies inside the value of an accepted attribute (`Sanitizer.AngleInsideKeptValue`). Each pattern puts `/` or an ASCII letter after the `<` and ends the tag name with `>`, whitespace or `/`, so the tag scan of line 57 matches at exactly the positions the sanitizer's scan reaches and takes each accepted token whole, up to its only `>`. A `<`, or a capital, inside a kept value is therefore never the start of a tag or a name.
- The regular expressions are modelled as hand-written recognisers, not through a regular-expression semantics.
- BalanceTags: requires that no tag contains a line terminator. Line 77 reads the name with `.*`, which stops at a line terminator, so the name of such a tag keeps the text after the line break. The whitelist accepts such tags, because `\s` matches a line break: `<a\nhref="/(">` gets the name `a\nhref="/(">`. Line 80 hands `'<' + name + '>'` to `search`, which compiles it as a regular expression. An unbalanced `(`, `)` or `[` in it then makes `balanceTags` throw. A `|` splits it into alternatives: `<a\nhref="/x|b|y">` finds the alternative `b` in the ignore list and is kept. Otherwise nothing matches, no tag equals `</` + name + `>`, and the tag is deleted; so is the `</a>` meant to close it, unless another opener takes it. Even an ignored name is deleted this way: line 14 accepts `<br\n>`, its name is `br\n>`, and `<br\n>>` does not occur in the ignore list.
- Sanitizer.SanitizeHtml: its own contract states only that the text never grows; what it keeps and deletes is stated by the lemmas beside it.
- Running time is not modelled. The forward search makes the pass quadratic in the number of tags.
