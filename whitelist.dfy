/** The tag whitelist of Markdown.Sanitizer.js: six anchored, case-insensitive
    patterns, each written here as a recogniser over the whole token.

    An optional group `(G)?` followed by the rest of a pattern `R` is written
    `(G then R) || R`; every group has a fixed extent (a quoted value runs to
    the next `"`, which none of the value classes admits), so this decides
    exactly the strings the anchored pattern matches. */
module Whitelist {
  import opened Text

  /** A `name="value"` attribute: its value and what follows the closing quote. */
  datatype Attr = Attr(value: string, rest: string)

  /** `name="value"` at the very start of `s`, the name matched up to case. */
  function QuotedAttr(s: string, name: string): (a: Option<Attr>)
    ensures a.Some? ==> StartsCI(s, name + "=\"") && '"' !in a.value.value
    ensures a.Some? ==> |s| == |name| + 3 + |a.value.value| + |a.value.rest|
    ensures a.Some? ==> a.value.value == s[|name| + 2..|name| + 2 + |a.value.value|]
    ensures a.Some? ==> s[|name| + 2 + |a.value.value|] == '"'
    ensures a.Some? ==> a.value.rest == s[|s| - |a.value.rest|..]
  {
    var p := |name| + 2;
    if !StartsCI(s, name + "=\"") then None
    else
      var q := IndexFrom(s, '"', p);
      if q == |s| then None else Some(Attr(s[p..q], s[q + 1..]))
  }

  /** `\sname="value"`: one whitespace character, then the attribute. */
  function SpacedAttr(s: string, name: string): (a: Option<Attr>)
    ensures a.Some? ==> |a.value.rest| < |s| && a.value.rest == s[|s| - |a.value.rest|..]
  {
    if |s| > 0 && IsSpace(s[0]) then QuotedAttr(s[1..], name) else None
  }

  /** ` name="value"`: a literal blank, then the attribute. */
  function BlankAttr(s: string, name: string): (a: Option<Attr>)
    ensures a.Some? ==> |a.value.rest| < |s| && a.value.rest == s[|s| - |a.value.rest|..]
  {
    if |s| > 0 && s[0] == ' ' then QuotedAttr(s[1..], name) else None
  }

  /** `\sname`: a valueless attribute; yields what follows it. */
  function Flag(s: string, name: string): (rest: Option<string>)
    ensures rest.Some? ==> |rest.value| < |s| && rest.value == s[|s| - |rest.value|..]
  {
    if |s| > |name| && IsSpace(s[0]) && StartsCI(s[1..], name) then Some(s[|name| + 1..]) else None
  }

  /** `\s?>` */
  predicate TagClose(r: string) {
    (|r| == 1 && r[0] == '>') || (|r| == 2 && IsSpace(r[0]) && r[1] == '>')
  }

  /** `\s?\/?>` */
  predicate SelfClose(r: string) {
    TagClose(r) || (|r| == 2 && r[0] == '/' && r[1] == '>')
    || (|r| == 3 && IsSpace(r[0]) && r[1] == '/' && r[2] == '>')
  }

  /** `[-A-Za-z0-9+&@#\/%?=~_|!:,.;\(\)*[\]$]`, the characters a link or image URL may use. */
  predicate UrlChar(c: char) {
    'a' <= c <= 'z' || 'A' <= c <= 'Z' || IsDigit(c) || c in "-+&@#/%?=~_|!:,.;()*[]$"
  }

  /** `[-A-Za-z0-9+&@#\/%?=~_]`, the characters an embed path may use. */
  predicate EmbedChar(c: char) {
    'a' <= c <= 'z' || 'A' <= c <= 'Z' || IsDigit(c) || c in "-+&@#/%?=~_"
  }

  predicate AllUrlChars(s: string) {
    forall i :: 0 <= i < |s| ==> UrlChar(s[i])
  }

  predicate AllEmbedChars(s: string) {
    forall i :: 0 <= i < |s| ==> EmbedChar(s[i])
  }

  /** `[^"<>]*` */
  predicate NoQuoteOrAngle(s: string) {
    forall i :: 0 <= i < |s| ==> s[i] != '"' && s[i] != '<' && s[i] != '>'
  }

  /** `\d+` */
  predicate Number(s: string) {
    |s| > 0 && AllDigits(s)
  }

  /** `\d{1,3}` */
  predicate SmallNumber(s: string) {
    1 <= |s| <= 3 && AllDigits(s)
  }

  /** `prefix` followed by at least one URL character. */
  predicate UrlAfter(v: string, prefix: string) {
    StartsCI(v, prefix) && |v| > |prefix| && AllUrlChars(v[|prefix|..])
  }

  /** `prefix` followed by at least one embed-path character. */
  predicate EmbedAfter(v: string, prefix: string) {
    StartsCI(v, prefix) && |v| > |prefix| && AllEmbedChars(v[|prefix|..])
  }

  // ---------------------------------------------------------------------
  // Basic structural tags (line 14)

  const PairedNames: seq<string> :=
    ["b", "blockquote", "code", "del", "dd", "dl", "dt", "em", "h1", "h2", "h3", "i",
     "kbd", "li", "ol", "p", "pre", "s", "sup", "sub", "strong", "strike", "ul"]

  /** `ol start="\d+"`, the one structural tag with an attribute. */
  predicate OlStart(n: string) {
    StartsCI(n, "ol start=\"") && |n| >= 12 && n[|n| - 1] == '"' && AllDigits(n[10..|n| - 1])
  }

  /** `n` is one of `names`, up to case. */
  predicate OneOf(n: string, names: seq<string>) {
    exists k :: 0 <= k < |names| && EqCI(n, names[k])
  }

  predicate PairedName(n: string) {
    OneOf(n, PairedNames) || OlStart(n)
  }

  /** `(br|hr)\s?\/?`, what may stand between `<` and `>` of a line break or rule. */
  predicate StandaloneName(n: string) {
    (StartsCI(n, "br") || StartsCI(n, "hr")) &&
    var r := n[2..];
    |r| == 0 || (|r| == 1 && (IsSpace(r[0]) || r[0] == '/'))
    || (|r| == 2 && IsSpace(r[0]) && r[1] == '/')
  }

  predicate BasicTag(t: string) {
    |t| >= 2 && t[0] == '<' && t[|t| - 1] == '>' &&
    var n := t[1..|t| - 1];
    PairedName(n) || (|n| > 0 && n[0] == '/' && PairedName(n[1..])) || StandaloneName(n)
  }

  // ---------------------------------------------------------------------
  // Links (line 16)

  predicate SafeLinkUrl(v: string) {
    UrlAfter(v, "http://") || UrlAfter(v, "https://") || UrlAfter(v, "ftp://") || UrlAfter(v, "/")
  }

  predicate LinkTitle(r: string) {
    (var a := SpacedAttr(r, "title");
     a.Some? && |a.value.value| > 0 && NoQuoteOrAngle(a.value.value) && TagClose(a.value.rest))
    || TagClose(r)
  }

  predicate LinkTag(t: string) {
    EqCI(t, "</a>") ||
    (StartsCI(t, "<a") && |t| > 2 && IsSpace(t[2]) &&
     var a := QuotedAttr(t[3..], "href");
     a.Some? && SafeLinkUrl(a.value.value) && LinkTitle(a.value.rest))
  }

  // ---------------------------------------------------------------------
  // Images (line 19)

  predicate SafeImageUrl(v: string) {
    UrlAfter(v, "http://") || UrlAfter(v, "https://") || UrlAfter(v, "/")
  }

  predicate ImageTitle(r: string) {
    (var a := SpacedAttr(r, "title");
     a.Some? && NoQuoteOrAngle(a.value.value) && SelfClose(a.value.rest))
    || SelfClose(r)
  }

  predicate ImageAlt(r: string) {
    (var a := SpacedAttr(r, "alt");
     a.Some? && NoQuoteOrAngle(a.value.value) && ImageTitle(a.value.rest))
    || ImageTitle(r)
  }

  predicate ImageHeight(r: string) {
    (var a := SpacedAttr(r, "height"); a.Some? && SmallNumber(a.value.value) && ImageAlt(a.value.rest))
    || ImageAlt(r)
  }

  predicate ImageWidth(r: string) {
    (var a := SpacedAttr(r, "width"); a.Some? && SmallNumber(a.value.value) && ImageHeight(a.value.rest))
    || ImageHeight(r)
  }

  predicate ImageTag(t: string) {
    StartsCI(t, "<img") && |t| > 4 && IsSpace(t[4]) &&
    var a := QuotedAttr(t[5..], "src");
    a.Some? && SafeImageUrl(a.value.value) && ImageWidth(a.value.rest)
  }

  // ---------------------------------------------------------------------
  // YouTube (line 22)

  const YouTubeEmbed := "https://www.youtube.com/embed/"

  predicate YouTubeFullScreen(r: string) {
    (var f := Flag(r, "allowfullscreen"); f.Some? && TagClose(f.value)) || TagClose(r)
  }

  predicate YouTubeFrameBorder(r: string) {
    (var a := SpacedAttr(r, "frameborder");
     a.Some? && EqCI(a.value.value, "0") && YouTubeFullScreen(a.value.rest))
    || YouTubeFullScreen(r)
  }

  predicate YouTubeSrc(r: string) {
    var a := QuotedAttr(r, "src");
    a.Some? && EmbedAfter(a.value.value, YouTubeEmbed) && YouTubeFrameBorder(a.value.rest)
  }

  /** `height="\d*"\s` is optional before the source. */
  predicate YouTubeHeight(r: string) {
    (var a := QuotedAttr(r, "height");
     a.Some? && AllDigits(a.value.value) && |a.value.rest| > 0 && IsSpace(a.value.rest[0])
     && YouTubeSrc(a.value.rest[1..]))
    || YouTubeSrc(r)
  }

  /** `width="\d*"\s` is optional before the height. */
  predicate YouTubeWidth(r: string) {
    (var a := QuotedAttr(r, "width");
     a.Some? && AllDigits(a.value.value) && |a.value.rest| > 0 && IsSpace(a.value.rest[0])
     && YouTubeHeight(a.value.rest[1..]))
    || YouTubeHeight(r)
  }

  predicate YouTubeTag(t: string) {
    EqCI(t, "</iframe>") ||
    (StartsCI(t, "<iframe") && |t| > 7 && IsSpace(t[7]) && YouTubeWidth(t[8..]))
  }

  // ---------------------------------------------------------------------
  // Vimeo (line 26)

  const VimeoVideo := "https://player.vimeo.com/video/"
  const VimeoColor := "?color=ffffff"

  /** At least one embed-path character between `prefix` and `suffix`. */
  predicate EmbedBetween(v: string, prefix: string, suffix: string) {
    StartsCI(v, prefix) && |v| > |prefix| + |suffix|
    && StartsCI(v[|v| - |suffix|..], suffix)
    && AllEmbedChars(v[|prefix|..|v| - |suffix|])
  }

  /** The video path sits between the fixed prefix and the fixed colour query. */
  predicate VimeoUrl(v: string) {
    EmbedBetween(v, VimeoVideo, VimeoColor)
  }

  predicate VimeoFullScreen(r: string) {
    (var f := Flag(r, "allowfullscreen"); f.Some? && TagClose(f.value)) || TagClose(r)
  }

  predicate VimeoMoz(r: string) {
    (var f := Flag(r, "mozallowfullscreen"); f.Some? && VimeoFullScreen(f.value)) || VimeoFullScreen(r)
  }

  predicate VimeoWebkit(r: string) {
    (var f := Flag(r, "webkitallowfullscreen"); f.Some? && VimeoMoz(f.value)) || VimeoMoz(r)
  }

  predicate VimeoFrameBorder(r: string) {
    (var a := SpacedAttr(r, "frameborder"); a.Some? && Number(a.value.value) && VimeoWebkit(a.value.rest))
    || VimeoWebkit(r)
  }

  /** The height is not optional. */
  predicate VimeoHeight(r: string) {
    var a := SpacedAttr(r, "height");
    a.Some? && Number(a.value.value) && VimeoFrameBorder(a.value.rest)
  }

  predicate VimeoWidth(r: string) {
    (var a := SpacedAttr(r, "width"); a.Some? && Number(a.value.value) && VimeoHeight(a.value.rest))
    || VimeoHeight(r)
  }

  predicate VimeoSrc(r: string) {
    var a := QuotedAttr(r, "src");
    a.Some? && VimeoUrl(a.value.value) && VimeoWidth(a.value.rest)
  }

  predicate VimeoTag(t: string) {
    StartsCI(t, "<iframe") && |t| > 7 && IsSpace(t[7]) && VimeoSrc(t[8..])
  }

  // ---------------------------------------------------------------------
  // SoundCloud (line 29): every attribute required, in this order, after a literal blank

  const SoundCloudHost := "https://w.soundcloud.com/"

  predicate SoundCloudSrc(r: string) {
    var a := BlankAttr(r, "src");
    a.Some? && StartsCI(a.value.value, SoundCloudHost) && |a.value.value| > |SoundCloudHost|
    && TagClose(a.value.rest)
  }

  predicate SoundCloudFrameBorder(r: string) {
    var a := BlankAttr(r, "frameborder");
    a.Some? && |a.value.value| > 0 && SoundCloudSrc(a.value.rest)
  }

  predicate SoundCloudScrolling(r: string) {
    var a := BlankAttr(r, "scrolling");
    a.Some? && |a.value.value| > 0 && SoundCloudFrameBorder(a.value.rest)
  }

  predicate SoundCloudHeight(r: string) {
    var a := BlankAttr(r, "height");
    a.Some? && Number(a.value.value) && SoundCloudScrolling(a.value.rest)
  }

  predicate SoundCloudTag(t: string) {
    StartsCI(t, "<iframe ") &&
    var a := QuotedAttr(t[8..], "width");
    a.Some? && Number(a.value.value) && SoundCloudHeight(a.value.rest)
  }

  // ---------------------------------------------------------------------
  // The verdict (lines 31-38)

  predicate Whitelisted(t: string) {
    BasicTag(t) || LinkTag(t) || ImageTag(t) || YouTubeTag(t) || VimeoTag(t) || SoundCloudTag(t)
  }

  /** A tag token comes back verbatim when some pattern accepts it, and as
      the empty string otherwise. */
  function SanitizeTag(tag: string): (r: string)
    ensures Whitelisted(tag) ==> r == tag
    ensures !Whitelisted(tag) ==> r == []
  {
    if Whitelisted(tag) then tag else []
  }
}

/** Properties of the whitelist: the shape of every accepted token, case
    insensitivity, and the link, image and embed rules. */
module WhitelistFacts {
  import opened Text
  import opened Whitelist

  /** Lower-casing applied to both parts of a parsed attribute. */
  function LowerAttr(a: Option<Attr>): Option<Attr> {
    match a
    case None => None
    case Some(x) => Some(Attr(Lower(x.value), Lower(x.rest)))
  }

  lemma StartsCILower(s: string, lit: string)
    ensures StartsCI(Lower(s), lit) == StartsCI(s, lit)
  {
  }

  lemma QuotedAttrLower(s: string, name: string)
    ensures QuotedAttr(Lower(s), name) == LowerAttr(QuotedAttr(s, name))
  {
    var p := |name| + 2;
    StartsCILower(s, name + "=\"");
    if StartsCI(s, name + "=\"") {
      IndexFromLower(s, '"', p);
      var q := IndexFrom(s, '"', p);
      if q < |s| {
        LowerSlice(s, p, q);
        LowerDrop(s, q + 1);
        assert QuotedAttr(s, name) == Some(Attr(s[p..q], s[q + 1..]));
        assert QuotedAttr(Lower(s), name) == Some(Attr(Lower(s)[p..q], Lower(s)[q + 1..]));
      }
    }
  }

  lemma SpacedAttrLower(s: string, name: string)
    ensures SpacedAttr(Lower(s), name) == LowerAttr(SpacedAttr(s, name))
  {
    if |s| > 0 {
      LowerCharClasses(s[0]);
      LowerDrop(s, 1);
      QuotedAttrLower(s[1..], name);
      if IsSpace(s[0]) {
        assert SpacedAttr(Lower(s), name) == QuotedAttr(Lower(s[1..]), name);
      } else {
        assert SpacedAttr(Lower(s), name) == None;
      }
    }
  }

  lemma BlankAttrLower(s: string, name: string)
    ensures BlankAttr(Lower(s), name) == LowerAttr(BlankAttr(s, name))
  {
    if |s| > 0 {
      LowerDrop(s, 1);
      QuotedAttrLower(s[1..], name);
    }
  }

  lemma FlagLower(s: string, name: string)
    ensures Flag(Lower(s), name).Some? == Flag(s, name).Some?
    ensures Flag(s, name).Some? ==> Flag(Lower(s), name).value == Lower(Flag(s, name).value)
  {
    if |s| > |name| {
      LowerCharClasses(s[0]);
      LowerDrop(s, 1);
      StartsCILower(s[1..], name);
      LowerDrop(s, |name| + 1);
    }
  }

  lemma CharsLower(v: string)
    ensures AllDigits(Lower(v)) == AllDigits(v)
    ensures NoQuoteOrAngle(Lower(v)) == NoQuoteOrAngle(v)
    ensures AllUrlChars(Lower(v)) == AllUrlChars(v)
    ensures AllEmbedChars(Lower(v)) == AllEmbedChars(v)
  {
    forall i | 0 <= i < |v| {
      LowerCharClasses(v[i]);
    }
  }

  lemma ClosersLower(v: string)
    ensures TagClose(Lower(v)) == TagClose(v)
    ensures SelfClose(Lower(v)) == SelfClose(v)
    ensures EqCI(Lower(v), "0") == EqCI(v, "0")
  {
    if |v| > 0 {
      LowerCharClasses(v[0]);
    }
  }

  lemma UrlAfterLower(v: string, prefix: string)
    ensures UrlAfter(Lower(v), prefix) == UrlAfter(v, prefix)
    ensures EmbedAfter(Lower(v), prefix) == EmbedAfter(v, prefix)
  {
    StartsCILower(v, prefix);
    if |v| > |prefix| {
      LowerDrop(v, |prefix|);
      CharsLower(v[|prefix|..]);
    }
  }

  lemma SafeUrlLower(v: string)
    ensures SafeLinkUrl(Lower(v)) == SafeLinkUrl(v)
    ensures SafeImageUrl(Lower(v)) == SafeImageUrl(v)
  {
    UrlAfterLower(v, "http://");
    UrlAfterLower(v, "https://");
    UrlAfterLower(v, "ftp://");
    UrlAfterLower(v, "/");
  }

  lemma StartsCILowerAt(v: string, a: nat, lit: string)
    requires a <= |v|
    ensures StartsCI(Lower(v)[a..], lit) == StartsCI(v[a..], lit)
  {
    LowerDrop(v, a);
    StartsCILower(v[a..], lit);
  }

  lemma EmbedCharsLowerSlice(v: string, a: nat, b: nat)
    requires a <= b <= |v|
    ensures AllEmbedChars(Lower(v)[a..b]) == AllEmbedChars(v[a..b])
  {
    LowerSlice(v, a, b);
    CharsLower(v[a..b]);
  }

  lemma EmbedBetweenLower(v: string, prefix: string, suffix: string)
    ensures EmbedBetween(Lower(v), prefix, suffix) == EmbedBetween(v, prefix, suffix)
  {
    if |v| > |prefix| + |suffix| {
      var e := |v| - |suffix|;
      StartsCILower(v, prefix);
      StartsCILowerAt(v, e, suffix);
      EmbedCharsLowerSlice(v, |prefix|, e);
    }
  }

  lemma VimeoUrlLower(v: string)
    ensures VimeoUrl(Lower(v)) == VimeoUrl(v)
  {
    EmbedBetweenLower(v, VimeoVideo, VimeoColor);
  }

  // Each pattern accepts a token exactly when it accepts the lower-cased token.

  lemma BasicTagLower(t: string)
    ensures BasicTag(Lower(t)) == BasicTag(t)
  {
    if |t| >= 2 {
      LowerCharClasses(t[0]);
      LowerCharClasses(t[|t| - 1]);
      LowerSlice(t, 1, |t| - 1);
      var n := t[1..|t| - 1];
      PairedNameLower(n);
      StandaloneNameLower(n);
      if |n| > 0 {
        LowerCharClasses(n[0]);
        LowerDrop(n, 1);
        PairedNameLower(n[1..]);
      }
    }
  }

  lemma OneOfLower(n: string, names: seq<string>)
    ensures OneOf(Lower(n), names) == OneOf(n, names)
  {
    forall k | 0 <= k < |names| {
      StartsCILower(n, names[k]);
    }
  }

  lemma OlStartLower(n: string)
    ensures OlStart(Lower(n)) == OlStart(n)
  {
    StartsCILower(n, "ol start=\"");
    if |n| >= 12 {
      DigitsLowerSlice(n, 10, |n| - 1);
    }
  }

  lemma PairedNameLower(n: string)
    ensures PairedName(Lower(n)) == PairedName(n)
  {
    OneOfLower(n, PairedNames);
    OlStartLower(n);
  }

  lemma StandaloneNameLower(n: string)
    ensures StandaloneName(Lower(n)) == StandaloneName(n)
  {
    StartsCILower(n, "br");
    StartsCILower(n, "hr");
    if |n| >= 2 {
      LowerDrop(n, 2);
      if |n| > 2 {
        LowerCharClasses(n[2]);
      }
      if |n| > 3 {
        LowerCharClasses(n[3]);
      }
    }
  }

  lemma LinkTitleLower(r: string)
    ensures LinkTitle(Lower(r)) == LinkTitle(r)
  {
    SpacedAttrLower(r, "title");
    ClosersLower(r);
    var a := SpacedAttr(r, "title");
    if a.Some? {
      CharsLower(a.value.value);
      ClosersLower(a.value.rest);
    }
  }

  lemma LinkTagLower(t: string)
    ensures LinkTag(Lower(t)) == LinkTag(t)
  {
    StartsCILower(t, "</a>");
    StartsCILower(t, "<a");
    if |t| > 2 {
      LowerCharClasses(t[2]);
      LowerDrop(t, 3);
      QuotedAttrLower(t[3..], "href");
      var a := QuotedAttr(t[3..], "href");
      if a.Some? {
        SafeUrlLower(a.value.value);
        LinkTitleLower(a.value.rest);
      }
    }
  }

  lemma ImageTitleLower(r: string)
    ensures ImageTitle(Lower(r)) == ImageTitle(r)
  {
    SpacedAttrLower(r, "title");
    ClosersLower(r);
    var a := SpacedAttr(r, "title");
    if a.Some? {
      CharsLower(a.value.value);
      ClosersLower(a.value.rest);
    }
  }

  lemma ImageAltLower(r: string)
    ensures ImageAlt(Lower(r)) == ImageAlt(r)
  {
    SpacedAttrLower(r, "alt");
    ImageTitleLower(r);
    var a := SpacedAttr(r, "alt");
    if a.Some? {
      CharsLower(a.value.value);
      ImageTitleLower(a.value.rest);
    }
  }

  lemma ImageHeightLower(r: string)
    ensures ImageHeight(Lower(r)) == ImageHeight(r)
  {
    SpacedAttrLower(r, "height");
    ImageAltLower(r);
    var a := SpacedAttr(r, "height");
    if a.Some? {
      CharsLower(a.value.value);
      ImageAltLower(a.value.rest);
    }
  }

  lemma ImageWidthLower(r: string)
    ensures ImageWidth(Lower(r)) == ImageWidth(r)
  {
    SpacedAttrLower(r, "width");
    ImageHeightLower(r);
    var a := SpacedAttr(r, "width");
    if a.Some? {
      CharsLower(a.value.value);
      ImageHeightLower(a.value.rest);
    }
  }

  lemma ImageTagLower(t: string)
    ensures ImageTag(Lower(t)) == ImageTag(t)
  {
    StartsCILower(t, "<img");
    if |t| > 4 {
      LowerCharClasses(t[4]);
      LowerDrop(t, 5);
      QuotedAttrLower(t[5..], "src");
      var a := QuotedAttr(t[5..], "src");
      if a.Some? {
        SafeUrlLower(a.value.value);
        ImageWidthLower(a.value.rest);
      }
    }
  }

  lemma YouTubeFullScreenLower(r: string)
    ensures YouTubeFullScreen(Lower(r)) == YouTubeFullScreen(r)
    ensures VimeoFullScreen(Lower(r)) == VimeoFullScreen(r)
  {
    FlagLower(r, "allowfullscreen");
    ClosersLower(r);
    var f := Flag(r, "allowfullscreen");
    if f.Some? {
      ClosersLower(f.value);
    }
  }

  lemma YouTubeFrameBorderLower(r: string)
    ensures YouTubeFrameBorder(Lower(r)) == YouTubeFrameBorder(r)
  {
    SpacedAttrLower(r, "frameborder");
    YouTubeFullScreenLower(r);
    var a := SpacedAttr(r, "frameborder");
    if a.Some? {
      ClosersLower(a.value.value);
      YouTubeFullScreenLower(a.value.rest);
    }
  }

  lemma YouTubeSrcLower(r: string)
    ensures YouTubeSrc(Lower(r)) == YouTubeSrc(r)
  {
    QuotedAttrLower(r, "src");
    var a := QuotedAttr(r, "src");
    if a.Some? {
      UrlAfterLower(a.value.value, YouTubeEmbed);
      YouTubeFrameBorderLower(a.value.rest);
    }
  }

  lemma YouTubeHeightLower(r: string)
    ensures YouTubeHeight(Lower(r)) == YouTubeHeight(r)
  {
    QuotedAttrLower(r, "height");
    YouTubeSrcLower(r);
    var a := QuotedAttr(r, "height");
    if a.Some? {
      CharsLower(a.value.value);
      var rest := a.value.rest;
      if |rest| > 0 {
        LowerCharClasses(rest[0]);
        LowerDrop(rest, 1);
        YouTubeSrcLower(rest[1..]);
      }
    }
  }

  lemma YouTubeWidthLower(r: string)
    ensures YouTubeWidth(Lower(r)) == YouTubeWidth(r)
  {
    QuotedAttrLower(r, "width");
    YouTubeHeightLower(r);
    var a := QuotedAttr(r, "width");
    if a.Some? {
      CharsLower(a.value.value);
      var rest := a.value.rest;
      if |rest| > 0 {
        LowerCharClasses(rest[0]);
        LowerDrop(rest, 1);
        YouTubeHeightLower(rest[1..]);
      }
    }
  }

  lemma YouTubeTagLower(t: string)
    ensures YouTubeTag(Lower(t)) == YouTubeTag(t)
  {
    StartsCILower(t, "</iframe>");
    StartsCILower(t, "<iframe");
    if |t| > 7 {
      LowerCharClasses(t[7]);
      LowerDrop(t, 8);
      YouTubeWidthLower(t[8..]);
    }
  }

  lemma VimeoMozLower(r: string)
    ensures VimeoMoz(Lower(r)) == VimeoMoz(r)
  {
    FlagLower(r, "mozallowfullscreen");
    YouTubeFullScreenLower(r);
    var f := Flag(r, "mozallowfullscreen");
    if f.Some? {
      YouTubeFullScreenLower(f.value);
    }
  }

  lemma VimeoWebkitLower(r: string)
    ensures VimeoWebkit(Lower(r)) == VimeoWebkit(r)
  {
    FlagLower(r, "webkitallowfullscreen");
    VimeoMozLower(r);
    var f := Flag(r, "webkitallowfullscreen");
    if f.Some? {
      VimeoMozLower(f.value);
    }
  }

  lemma VimeoFrameBorderLower(r: string)
    ensures VimeoFrameBorder(Lower(r)) == VimeoFrameBorder(r)
  {
    SpacedAttrLower(r, "frameborder");
    VimeoWebkitLower(r);
    var a := SpacedAttr(r, "frameborder");
    if a.Some? {
      CharsLower(a.value.value);
      VimeoWebkitLower(a.value.rest);
    }
  }

  lemma VimeoHeightLower(r: string)
    ensures VimeoHeight(Lower(r)) == VimeoHeight(r)
  {
    SpacedAttrLower(r, "height");
    var a := SpacedAttr(r, "height");
    if a.Some? {
      CharsLower(a.value.value);
      VimeoFrameBorderLower(a.value.rest);
    }
  }

  lemma VimeoWidthLower(r: string)
    ensures VimeoWidth(Lower(r)) == VimeoWidth(r)
  {
    SpacedAttrLower(r, "width");
    VimeoHeightLower(r);
    var a := SpacedAttr(r, "width");
    if a.Some? {
      CharsLower(a.value.value);
      VimeoHeightLower(a.value.rest);
    }
  }

  lemma VimeoSrcLower(r: string)
    ensures VimeoSrc(Lower(r)) == VimeoSrc(r)
  {
    QuotedAttrLower(r, "src");
    var a := QuotedAttr(r, "src");
    if a.Some? {
      VimeoUrlLower(a.value.value);
      VimeoWidthLower(a.value.rest);
    }
  }

  lemma VimeoTagLower(t: string)
    ensures VimeoTag(Lower(t)) == VimeoTag(t)
  {
    StartsCILower(t, "<iframe");
    if |t| > 7 {
      LowerCharClasses(t[7]);
      LowerDrop(t, 8);
      VimeoSrcLower(t[8..]);
    }
  }

  lemma SoundCloudSrcLower(r: string)
    ensures SoundCloudSrc(Lower(r)) == SoundCloudSrc(r)
  {
    BlankAttrLower(r, "src");
    var a := BlankAttr(r, "src");
    if a.Some? {
      StartsCILower(a.value.value, SoundCloudHost);
      ClosersLower(a.value.rest);
    }
  }

  lemma SoundCloudFrameBorderLower(r: string)
    ensures SoundCloudFrameBorder(Lower(r)) == SoundCloudFrameBorder(r)
  {
    BlankAttrLower(r, "frameborder");
    var a := BlankAttr(r, "frameborder");
    if a.Some? {
      SoundCloudSrcLower(a.value.rest);
    }
  }

  lemma SoundCloudScrollingLower(r: string)
    ensures SoundCloudScrolling(Lower(r)) == SoundCloudScrolling(r)
  {
    BlankAttrLower(r, "scrolling");
    var a := BlankAttr(r, "scrolling");
    if a.Some? {
      SoundCloudFrameBorderLower(a.value.rest);
    }
  }

  lemma SoundCloudHeightLower(r: string)
    ensures SoundCloudHeight(Lower(r)) == SoundCloudHeight(r)
  {
    BlankAttrLower(r, "height");
    var a := BlankAttr(r, "height");
    if a.Some? {
      CharsLower(a.value.value);
      SoundCloudScrollingLower(a.value.rest);
    }
  }

  lemma SoundCloudTagLower(t: string)
    ensures SoundCloudTag(Lower(t)) == SoundCloudTag(t)
  {
    StartsCILower(t, "<iframe ");
    if |t| >= 8 {
      LowerDrop(t, 8);
      QuotedAttrLower(t[8..], "width");
      var a := QuotedAttr(t[8..], "width");
      if a.Some? {
        CharsLower(a.value.value);
        SoundCloudHeightLower(a.value.rest);
      }
    }
  }

  /** All matching is case-insensitive: a token is accepted exactly when its
      lower-cased form is, so `<B>` and `</STRONG>` pass like `<b>` and
      `</strong>`. */
  lemma WhitelistIgnoresCase(t: string)
    ensures Whitelisted(Lower(t)) == Whitelisted(t)
    ensures SanitizeTag(Lower(t)) == Lower(SanitizeTag(t))
  {
    BasicTagLower(t);
    LinkTagLower(t);
    ImageTagLower(t);
    YouTubeTagLower(t);
    VimeoTagLower(t);
    SoundCloudTagLower(t);
  }

  // ---------------------------------------------------------------------
  // The shape of an accepted token

  predicate EndsWithGt(r: string) {
    |r| > 0 && r[|r| - 1] == '>'
  }

  lemma SuffixEnds(s: string, rest: string)
    requires |rest| <= |s| && rest == s[|s| - |rest|..]
    requires EndsWithGt(rest)
    ensures EndsWithGt(s)
  {
    assert s[|s| - 1] == rest[|rest| - 1];
  }

  lemma AttrEnds(s: string, a: Option<Attr>)
    requires a.Some? && |a.value.rest| <= |s| && a.value.rest == s[|s| - |a.value.rest|..]
    requires EndsWithGt(a.value.rest)
    ensures EndsWithGt(s)
  {
    SuffixEnds(s, a.value.rest);
  }

  lemma LinkTitleEnds(r: string)
    ensures LinkTitle(r) ==> EndsWithGt(r)
  {
    var a := SpacedAttr(r, "title");
    if a.Some? && TagClose(a.value.rest) { AttrEnds(r, a); }
  }

  lemma ImageTitleEnds(r: string)
    ensures ImageTitle(r) ==> EndsWithGt(r)
  {
    var a := SpacedAttr(r, "title");
    if a.Some? && SelfClose(a.value.rest) { AttrEnds(r, a); }
  }

  lemma ImageAltEnds(r: string)
    ensures ImageAlt(r) ==> EndsWithGt(r)
  {
    var a := SpacedAttr(r, "alt");
    ImageTitleEnds(r);
    if a.Some? {
      ImageTitleEnds(a.value.rest);
      if EndsWithGt(a.value.rest) { AttrEnds(r, a); }
    }
  }

  lemma ImageHeightEnds(r: string)
    ensures ImageHeight(r) ==> EndsWithGt(r)
  {
    var a := SpacedAttr(r, "height");
    ImageAltEnds(r);
    if a.Some? {
      ImageAltEnds(a.value.rest);
      if EndsWithGt(a.value.rest) { AttrEnds(r, a); }
    }
  }

  lemma ImageWidthEnds(r: string)
    ensures ImageWidth(r) ==> EndsWithGt(r)
  {
    var a := SpacedAttr(r, "width");
    ImageHeightEnds(r);
    if a.Some? {
      ImageHeightEnds(a.value.rest);
      if EndsWithGt(a.value.rest) { AttrEnds(r, a); }
    }
  }

  lemma FullScreenEnds(r: string)
    ensures YouTubeFullScreen(r) ==> EndsWithGt(r)
    ensures VimeoFullScreen(r) ==> EndsWithGt(r)
  {
    var f := Flag(r, "allowfullscreen");
    if f.Some? && TagClose(f.value) { SuffixEnds(r, f.value); }
  }

  lemma YouTubeFrameBorderEnds(r: string)
    ensures YouTubeFrameBorder(r) ==> EndsWithGt(r)
  {
    FullScreenEnds(r);
    var a := SpacedAttr(r, "frameborder");
    if a.Some? {
      FullScreenEnds(a.value.rest);
      if EndsWithGt(a.value.rest) { AttrEnds(r, a); }
    }
  }

  lemma YouTubeSrcEnds(r: string)
    ensures YouTubeSrc(r) ==> EndsWithGt(r)
  {
    var a := QuotedAttr(r, "src");
    if a.Some? {
      YouTubeFrameBorderEnds(a.value.rest);
      if EndsWithGt(a.value.rest) { AttrEnds(r, a); }
    }
  }

  lemma YouTubeHeightEnds(r: string)
    ensures YouTubeHeight(r) ==> EndsWithGt(r)
  {
    YouTubeSrcEnds(r);
    var a := QuotedAttr(r, "height");
    if a.Some? && |a.value.rest| > 0 {
      var rest := a.value.rest;
      YouTubeSrcEnds(rest[1..]);
      if EndsWithGt(rest[1..]) { SuffixEnds(rest, rest[1..]); AttrEnds(r, a); }
    }
  }

  lemma YouTubeWidthEnds(r: string)
    ensures YouTubeWidth(r) ==> EndsWithGt(r)
  {
    YouTubeHeightEnds(r);
    var a := QuotedAttr(r, "width");
    if a.Some? && |a.value.rest| > 0 {
      var rest := a.value.rest;
      YouTubeHeightEnds(rest[1..]);
      if EndsWithGt(rest[1..]) { SuffixEnds(rest, rest[1..]); AttrEnds(r, a); }
    }
  }

  lemma VimeoMozEnds(r: string)
    ensures VimeoMoz(r) ==> EndsWithGt(r)
  {
    FullScreenEnds(r);
    var f := Flag(r, "mozallowfullscreen");
    if f.Some? {
      FullScreenEnds(f.value);
      if EndsWithGt(f.value) { SuffixEnds(r, f.value); }
    }
  }

  lemma VimeoWebkitEnds(r: string)
    ensures VimeoWebkit(r) ==> EndsWithGt(r)
  {
    VimeoMozEnds(r);
    var f := Flag(r, "webkitallowfullscreen");
    if f.Some? {
      VimeoMozEnds(f.value);
      if EndsWithGt(f.value) { SuffixEnds(r, f.value); }
    }
  }

  lemma VimeoFrameBorderEnds(r: string)
    ensures VimeoFrameBorder(r) ==> EndsWithGt(r)
  {
    VimeoWebkitEnds(r);
    var a := SpacedAttr(r, "frameborder");
    if a.Some? {
      VimeoWebkitEnds(a.value.rest);
      if EndsWithGt(a.value.rest) { AttrEnds(r, a); }
    }
  }

  lemma VimeoHeightEnds(r: string)
    ensures VimeoHeight(r) ==> EndsWithGt(r)
  {
    var a := SpacedAttr(r, "height");
    if a.Some? {
      VimeoFrameBorderEnds(a.value.rest);
      if EndsWithGt(a.value.rest) { AttrEnds(r, a); }
    }
  }

  lemma VimeoWidthEnds(r: string)
    ensures VimeoWidth(r) ==> EndsWithGt(r)
  {
    VimeoHeightEnds(r);
    var a := SpacedAttr(r, "width");
    if a.Some? {
      VimeoHeightEnds(a.value.rest);
      if EndsWithGt(a.value.rest) { AttrEnds(r, a); }
    }
  }

  lemma VimeoSrcEnds(r: string)
    ensures VimeoSrc(r) ==> EndsWithGt(r)
  {
    var a := QuotedAttr(r, "src");
    if a.Some? {
      VimeoWidthEnds(a.value.rest);
      if EndsWithGt(a.value.rest) { AttrEnds(r, a); }
    }
  }

  lemma SoundCloudSrcEnds(r: string)
    ensures SoundCloudSrc(r) ==> EndsWithGt(r)
  {
    var a := BlankAttr(r, "src");
    if a.Some? && TagClose(a.value.rest) { AttrEnds(r, a); }
  }

  lemma SoundCloudFrameBorderEnds(r: string)
    ensures SoundCloudFrameBorder(r) ==> EndsWithGt(r)
  {
    var a := BlankAttr(r, "frameborder");
    if a.Some? {
      SoundCloudSrcEnds(a.value.rest);
      if EndsWithGt(a.value.rest) { AttrEnds(r, a); }
    }
  }

  lemma SoundCloudScrollingEnds(r: string)
    ensures SoundCloudScrolling(r) ==> EndsWithGt(r)
  {
    var a := BlankAttr(r, "scrolling");
    if a.Some? {
      SoundCloudFrameBorderEnds(a.value.rest);
      if EndsWithGt(a.value.rest) { AttrEnds(r, a); }
    }
  }

  lemma SoundCloudHeightEnds(r: string)
    ensures SoundCloudHeight(r) ==> EndsWithGt(r)
  {
    var a := BlankAttr(r, "height");
    if a.Some? {
      SoundCloudScrollingEnds(a.value.rest);
      if EndsWithGt(a.value.rest) { AttrEnds(r, a); }
    }
  }

  predicate Anchored(t: string) {
    |t| >= 3 && t[0] == '<' && t[|t| - 1] == '>'
  }

  lemma BasicShape(t: string)
    requires BasicTag(t)
    ensures Anchored(t)
  {
    if |t| == 2 {
      assert !StandaloneName(t[1..1]);
      assert forall k :: 0 <= k < |PairedNames| ==> |PairedNames[k]| > 0;
    }
  }

  lemma LinkShape(t: string)
    requires LinkTag(t)
    ensures Anchored(t)
  {
    if !EqCI(t, "</a>") {
      var a := QuotedAttr(t[3..], "href");
      LinkTitleEnds(a.value.rest);
      AttrEnds(t[3..], a);
      SuffixEnds(t, t[3..]);
    }
  }

  lemma ImageShape(t: string)
    requires ImageTag(t)
    ensures Anchored(t)
  {
    var a := QuotedAttr(t[5..], "src");
    ImageWidthEnds(a.value.rest);
    AttrEnds(t[5..], a);
    SuffixEnds(t, t[5..]);
  }

  lemma YouTubeShape(t: string)
    requires YouTubeTag(t)
    ensures Anchored(t)
  {
    if !EqCI(t, "</iframe>") {
      YouTubeWidthEnds(t[8..]);
      SuffixEnds(t, t[8..]);
    }
  }

  lemma VimeoShape(t: string)
    requires VimeoTag(t)
    ensures Anchored(t)
  {
    VimeoSrcEnds(t[8..]);
    SuffixEnds(t, t[8..]);
  }

  lemma SoundCloudShape(t: string)
    requires SoundCloudTag(t)
    ensures Anchored(t)
  {
    var a := QuotedAttr(t[8..], "width");
    SoundCloudHeightEnds(a.value.rest);
    AttrEnds(t[8..], a);
    SuffixEnds(t, t[8..]);
  }

  /** Every pattern is anchored on a `<` at the start and a `>` at the end,
      so a token that runs to the end of the input without a `>` is never
      accepted. */
  lemma WhitelistedShape(t: string)
    requires Whitelisted(t)
    ensures |t| >= 3 && t[0] == '<' && t[|t| - 1] == '>'
  {
    if BasicTag(t) {
      BasicShape(t);
    } else if LinkTag(t) {
      LinkShape(t);
    } else if ImageTag(t) {
      ImageShape(t);
    } else if YouTubeTag(t) {
      YouTubeShape(t);
    } else if VimeoTag(t) {
      VimeoShape(t);
    } else {
      SoundCloudShape(t);
    }
  }

  /** A token that ends without its `>` is refused. */
  lemma UnclosedRejected(t: string)
    requires |t| > 0 && forall k :: 0 < k < |t| ==> t[k] != '>'
    ensures !Whitelisted(t)
  {
    if Whitelisted(t) {
      WhitelistedShape(t);
    }
  }

  /** The verdict is the tag or nothing, and judging it again changes
      nothing: the empty string is not a tag. */
  lemma SanitizeTagIdempotent(t: string)
    ensures SanitizeTag(t) == t || SanitizeTag(t) == []
    ensures SanitizeTag(SanitizeTag(t)) == SanitizeTag(t)
  {
    if Whitelisted([]) {
      WhitelistedShape([]);
    }
  }

  // ---------------------------------------------------------------------
  // Link, image and embed rules

  lemma NamesStart()
    ensures forall k :: 0 <= k < |PairedNames| ==> |PairedNames[k]| > 0 && PairedNames[k][0] in "bcdehiklopsu"
    ensures forall k :: 0 <= k < |PairedNames| && PairedNames[k][0] == 'i' ==> PairedNames[k] == "i"
  {
  }

  /** What a case-insensitive prefix fixes about the second and third characters. */
  lemma LeadOf(t: string, lit: string)
    ensures StartsCI(t, lit) && |lit| > 1 ==> LowerChar(t[1]) == lit[1]
    ensures StartsCI(t, lit) && |lit| > 2 ==> LowerChar(t[2]) == lit[2]
  {
  }

  /** Every embed rule starts `<iframe` or `</iframe>`. */
  lemma IframeLead(t: string)
    ensures YouTubeTag(t) || VimeoTag(t) || SoundCloudTag(t) ==>
              |t| > 2 && (t[1] == '/' || (LowerChar(t[1]) == 'i' && LowerChar(t[2]) == 'f'))
  {
    LeadOf(t, "<iframe");
    LeadOf(t, "<iframe ");
    LeadOf(t, "</iframe>");
  }

  /** The letters a structural tag can start with; `<i>` is the only one
      that starts with `i`. */
  lemma BasicLead(t: string)
    ensures BasicTag(t) ==> |t| >= 3 && (t[1] == '/' || LowerChar(t[1]) in "bcdehiklopsu")
    ensures BasicTag(t) && LowerChar(t[1]) == 'i' ==> |t| == 3
  {
    if BasicTag(t) {
      NamesStart();
      var n := t[1..|t| - 1];
      if OneOf(n, PairedNames) {
        var k :| 0 <= k < |PairedNames| && EqCI(n, PairedNames[k]);
        assert LowerChar(n[0]) == PairedNames[k][0];
      }
    }
  }

  /** The closing link tag is always kept. */
  lemma LinkCloserAccepted()
    ensures Whitelisted("</a>")
  {
    assert EqCI("</a>", "</a>");
  }

  /** A kept `<a` tag carries an `href` that starts with `http://`,
      `https://`, `ftp://` or `/`; every other link opener is dropped. */
  lemma LinkHrefIsSafe(t: string)
    requires Whitelisted(t) && StartsCI(t, "<a")
    ensures |t| > 3 && IsSpace(t[2])
    ensures var a := QuotedAttr(t[3..], "href"); a.Some? && SafeLinkUrl(a.value.value)
  {
    assert LowerChar(t[1]) == 'a';
    BasicLead(t);
    IframeLead(t);
    LeadOf(t, "<img");
  }

  /** A kept `<img` tag carries a `src` that starts with `http://`,
      `https://` or `/`. */
  lemma ImageSrcIsSafe(t: string)
    requires Whitelisted(t) && StartsCI(t, "<img")
    ensures |t| > 4 && IsSpace(t[4])
    ensures var a := QuotedAttr(t[5..], "src"); a.Some? && SafeImageUrl(a.value.value)
  {
    assert LowerChar(t[1]) == 'i' && LowerChar(t[2]) == 'm';
    BasicLead(t);
    IframeLead(t);
    LeadOf(t, "<a");
    LeadOf(t, "</a>");
  }

  // ---------------------------------------------------------------------
  // Tokens each rule accepts

  /** ` name="value"`, an attribute as the rules expect it written. */
  function AttrText(name: string, v: string): string {
    " " + name + "=\"" + v + "\""
  }

  /** Lower-casing leaves `s` as it is. */
  predicate LowerFixed(s: string) {
    forall i :: 0 <= i < |s| ==> LowerChar(s[i]) == s[i]
  }

  /** The literals the acceptance lemmas below are written with. */
  lemma LiteralsLower()
    ensures LowerFixed("<a") && LowerFixed("<img") && LowerFixed("<iframe") && LowerFixed("<iframe ")
    ensures LowerFixed("href") && LowerFixed("title") && LowerFixed("src") && LowerFixed("alt")
    ensures LowerFixed("width") && LowerFixed("height") && LowerFixed("scrolling") && LowerFixed("frameborder")
  {
    NamesLower();
  }

  lemma NamesLower()
    ensures LowerFixed("width") && LowerFixed("height") && LowerFixed("scrolling") && LowerFixed("frameborder")
  {
  }

  /** The providers' addresses are written in lower case and hold no quote. */
  lemma HostsLower()
    ensures LowerFixed(YouTubeEmbed) && LowerFixed(VimeoVideo) && LowerFixed(VimeoColor)
    ensures LowerFixed(SoundCloudHost)
    ensures '"' !in YouTubeEmbed && '"' !in VimeoVideo && '"' !in VimeoColor && '"' !in SoundCloudHost
  {
    AddressLower(YouTubeEmbed);
    AddressLower(VimeoVideo);
    AddressLower(VimeoColor);
    AddressLower(SoundCloudHost);
  }

  /** Lower-case letters, digits and URL punctuation are left as they are. */
  lemma AddressLower(s: string)
    requires forall i :: 0 <= i < |s| ==> 'a' <= s[i] <= 'z' || IsDigit(s[i]) || s[i] in ":/.?="
    ensures LowerFixed(s) && '"' !in s
  {
  }

  /** An attribute written out literally parses back into its value and
      what follows it. */
  lemma QuotedAttrOf(name: string, v: string, rest: string)
    requires LowerFixed(name)
    requires '"' !in v
    ensures QuotedAttr(name + "=\"" + v + "\"" + rest, name) == Some(Attr(v, rest))
  {
    var s := name + "=\"" + v + "\"" + rest;
    var p := |name| + 2;
    assert s[..p] == name + "=\"";
    assert StartsCI(s, name + "=\"");
    IndexFromIs(s, '"', p, p + |v|);
    assert s[p..p + |v|] == v;
    assert s[p + |v| + 1..] == rest;
  }

  lemma AttrTextOf(name: string, v: string, rest: string)
    requires LowerFixed(name)
    requires '"' !in v
    ensures SpacedAttr(AttrText(name, v) + rest, name) == Some(Attr(v, rest))
    ensures BlankAttr(AttrText(name, v) + rest, name) == Some(Attr(v, rest))
  {
    assert (AttrText(name, v) + rest)[1..] == name + "=\"" + v + "\"" + rest;
    QuotedAttrOf(name, v, rest);
  }

  /** A tag that opens with `lead` and goes on with `r` begins `lead`,
      and what follows `lead` is `r`. */
  lemma LeadThen(lead: string, r: string)
    requires LowerFixed(lead)
    ensures StartsCI(lead + r, lead) && (lead + r)[|lead|..] == r
  {
    assert (lead + r)[..|lead|] == lead;
  }

  /** A URL with a quote-free prefix holds no quote. */
  lemma UrlAfterNoQuote(v: string, prefix: string)
    requires UrlAfter(v, prefix) && '"' !in prefix
    ensures '"' !in v
  {
    forall i | 0 <= i < |v|
      ensures v[i] != '"'
    {
      if i < |prefix| {
        assert LowerChar(v[i]) == prefix[i];
      } else {
        assert v[i] == v[|prefix|..][i - |prefix|];
      }
    }
  }

  lemma SafeUrlNoQuote(v: string)
    requires SafeLinkUrl(v) || SafeImageUrl(v)
    ensures '"' !in v
  {
    if UrlAfter(v, "http://") {
      UrlAfterNoQuote(v, "http://");
    } else if UrlAfter(v, "https://") {
      UrlAfterNoQuote(v, "https://");
    } else if UrlAfter(v, "ftp://") {
      UrlAfterNoQuote(v, "ftp://");
    } else {
      UrlAfterNoQuote(v, "/");
    }
  }

  /** Every structural name is accepted in an opening and a closing tag. */
  lemma BasicAccepted(n: string)
    requires PairedName(n)
    ensures Whitelisted("<" + n + ">") && Whitelisted("</" + n + ">")
  {
    var t := "<" + n + ">";
    assert t[1..|t| - 1] == n;
    var c := "</" + n + ">";
    assert c[1..|c| - 1] == "/" + n;
    assert ("/" + n)[1..] == n;
  }

  /** The structural names are matched whatever their case. */
  lemma UpperCaseAccepted()
    ensures Whitelisted("<B>") && Whitelisted("</STRONG>")
  {
    assert EqCI("B", PairedNames[0]);
    BasicAccepted("B");
    assert "<" + "B" + ">" == "<B>";
    assert EqCI("STRONG", PairedNames[20]);
    BasicAccepted("STRONG");
    assert "</" + "STRONG" + ">" == "</STRONG>";
  }

  /** An ordered list may say where it starts. */
  lemma OlStartAccepted()
    ensures Whitelisted("<ol start=\"3\">")
  {
    var n := "ol start=\"3\"";
    assert StartsCI(n, "ol start=\"") && n[10..11] == "3";
    BasicAccepted(n);
    assert "<" + n + ">" == "<ol start=\"3\">";
  }

  /** A line break may be written self-closing. */
  lemma BreakAccepted()
    ensures Whitelisted("<br />")
  {
    var n := "br /";
    assert StartsCI(n, "br") && n[2..] == " /";
    assert "<br />"[1..5] == n;
  }

  /** A tag that opens with `lead` and one attribute: what each rule reads
      from its start. */
  lemma LeadAttr(lead: string, name: string, v: string, rest: string)
    requires LowerFixed(lead) && LowerFixed(name) && '"' !in v
    ensures var t := lead + (AttrText(name, v) + rest);
            StartsCI(t, lead) && StartsCI(t, lead + " ") && |t| > |lead| + 1 && t[|lead|] == ' '
            && QuotedAttr(t[|lead| + 1..], name) == Some(Attr(v, rest))
  {
    var r0 := AttrText(name, v) + rest;
    LeadThen(lead, r0);
    var t := lead + r0;
    assert t[|lead| + 1..] == r0[1..];
    assert r0[1..] == name + "=\"" + v + "\"" + rest;
    QuotedAttrOf(name, v, rest);
    assert t[|lead|] == ' ';
  }

  /** A link to a safe address is kept, with or without a title. */
  lemma LinkAccepted(url: string, title: string)
    requires SafeLinkUrl(url) && |title| > 0 && NoQuoteOrAngle(title)
    ensures Whitelisted("<a" + (AttrText("href", url) + ">"))
    ensures Whitelisted("<a" + (AttrText("href", url) + (AttrText("title", title) + ">")))
  {
    LiteralsLower();
    SafeUrlNoQuote(url);
    assert '"' !in title by {
      forall i | 0 <= i < |title| ensures title[i] != '"' { }
    }
    AttrTextOf("title", title, ">");
    LeadAttr("<a", "href", url, ">");
    LeadAttr("<a", "href", url, AttrText("title", title) + ">");
  }

  /** An image from a safe address is kept with its sizes and alternative text. */
  lemma ImageAccepted(url: string, w: string, h: string, alt: string)
    requires SafeImageUrl(url) && SmallNumber(w) && SmallNumber(h) && NoQuoteOrAngle(alt)
    ensures Whitelisted("<img" + (AttrText("src", url) + (AttrText("width", w)
              + (AttrText("height", h) + (AttrText("alt", alt) + ">")))))
  {
    LiteralsLower();
    SafeUrlNoQuote(url);
    assert '"' !in alt by {
      forall i | 0 <= i < |alt| ensures alt[i] != '"' { }
    }
    assert '"' !in w && '"' !in h;
    var r3 := AttrText("alt", alt) + ">";
    AttrTextOf("alt", alt, ">");
    assert ImageAlt(r3);
    var r2 := AttrText("height", h) + r3;
    AttrTextOf("height", h, r3);
    assert ImageHeight(r2);
    var r1 := AttrText("width", w) + r2;
    AttrTextOf("width", w, r2);
    assert ImageWidth(r1);
    LeadAttr("<img", "src", url, r1);
    assert ImageTag("<img" + (AttrText("src", url) + r1));
  }

  /** A YouTube embed path is kept. */
  lemma YouTubeAccepted(path: string)
    requires |path| > 0 && AllEmbedChars(path)
    ensures Whitelisted("<iframe" + (AttrText("src", YouTubeEmbed + path) + " allowfullscreen>"))
  {
    LiteralsLower();
    HostsLower();
    var v := YouTubeEmbed + path;
    LeadThen(YouTubeEmbed, path);
    assert '"' !in path;
    var f := " allowfullscreen>";
    FullScreenFlag();
    LeadAttr("<iframe", "src", v, f);
    var t := "<iframe" + (AttrText("src", v) + f);
    assert YouTubeSrc(t[8..]);
    assert YouTubeTag(t);
  }

  lemma FullScreenFlag()
    ensures YouTubeFrameBorder(" allowfullscreen>")
  {
    var f := " allowfullscreen>";
    assert f[1..] == "allowfullscreen>" && f[16..] == ">";
    assert Flag(f, "allowfullscreen") == Some(">");
  }

  /** A Vimeo video path with the colour query and a height is kept. */
  lemma VimeoAccepted(path: string, h: string)
    requires |path| > 0 && AllEmbedChars(path) && Number(h)
    ensures Whitelisted("<iframe" + (AttrText("src", VimeoVideo + path + VimeoColor) + (AttrText("height", h) + ">")))
  {
    LiteralsLower();
    var v := VimeoVideo + path + VimeoColor;
    VimeoUrlOf(path);
    assert '"' !in h;
    AttrTextOf("height", h, ">");
    var r1 := AttrText("height", h) + ">";
    assert VimeoWidth(r1);
    LeadAttr("<iframe", "src", v, r1);
    assert VimeoTag("<iframe" + (AttrText("src", v) + r1));
  }

  lemma VimeoUrlOf(path: string)
    requires |path| > 0 && AllEmbedChars(path)
    ensures VimeoUrl(VimeoVideo + path + VimeoColor) && '"' !in VimeoVideo + path + VimeoColor
  {
    HostsLower();
    var v := VimeoVideo + path + VimeoColor;
    AppendAssoc(VimeoVideo, path, VimeoColor);
    LeadThen(VimeoVideo, path + VimeoColor);
    assert v[|VimeoVideo|..|v| - |VimeoColor|] == path;
    assert v[|v| - |VimeoColor|..] == VimeoColor;
    LeadThen(VimeoColor, []);
    assert VimeoColor + [] == VimeoColor;
    assert '"' !in path;
  }

  /** What follows SoundCloud's width: height, scrolling, frameborder, source. */
  lemma SoundCloudTailAccepted(h: string, sc: string, fb: string, path: string)
    requires Number(h)
    requires |sc| > 0 && '"' !in sc && |fb| > 0 && '"' !in fb && |path| > 0 && '"' !in path
    ensures SoundCloudHeight(AttrText("height", h) + (AttrText("scrolling", sc)
              + (AttrText("frameborder", fb) + (AttrText("src", SoundCloudHost + path) + ">"))))
  {
    LiteralsLower();
    HostsLower();
    var v := SoundCloudHost + path;
    LeadThen(SoundCloudHost, path);
    assert '"' !in h;
    var r4 := AttrText("src", v) + ">";
    AttrTextOf("src", v, ">");
    assert SoundCloudSrc(r4);
    var r3 := AttrText("frameborder", fb) + r4;
    AttrTextOf("frameborder", fb, r4);
    assert SoundCloudFrameBorder(r3);
    var r2 := AttrText("scrolling", sc) + r3;
    AttrTextOf("scrolling", sc, r3);
    assert SoundCloudScrolling(r2);
    AttrTextOf("height", h, r2);
  }

  /** A SoundCloud widget with all its attributes, in order, is kept. */
  lemma SoundCloudAccepted(w: string, h: string, sc: string, fb: string, path: string)
    requires Number(w) && Number(h)
    requires |sc| > 0 && '"' !in sc && |fb| > 0 && '"' !in fb && |path| > 0 && '"' !in path
    ensures Whitelisted("<iframe" + (AttrText("width", w) + (AttrText("height", h) + (AttrText("scrolling", sc)
              + (AttrText("frameborder", fb) + (AttrText("src", SoundCloudHost + path) + ">"))))))
  {
    SoundCloudTailAccepted(h, sc, fb, path);
    SoundCloudOpener(w, AttrText("height", h) + (AttrText("scrolling", sc)
      + (AttrText("frameborder", fb) + (AttrText("src", SoundCloudHost + path) + ">"))));
  }

  lemma SoundCloudOpener(w: string, r: string)
    requires Number(w) && SoundCloudHeight(r)
    ensures SoundCloudTag("<iframe" + (AttrText("width", w) + r))
  {
    LiteralsLower();
    assert '"' !in w;
    LeadAttr("<iframe", "width", w, r);
    IframeBlank();
  }

  lemma IframeBlank()
    ensures "<iframe" + " " == "<iframe "
  {
  }

  // ---------------------------------------------------------------------
  // Where the attributes of an accepted iframe sit

  /** Position `j` of `t` follows whitespace and starts a `name="..."` attribute. */
  predicate AttrAt(t: string, j: nat, name: string) {
    0 < j <= |t| && IsSpace(t[j - 1]) && QuotedAttr(t[j..], name).Some?
  }

  /** The value of that attribute. */
  function ValueAt(t: string, j: nat, name: string): string
    requires AttrAt(t, j, name)
  {
    QuotedAttr(t[j..], name).value.value
  }

  /** A whitespace character and an attribute on a tail `r` of `t` are an
      attribute of `t`, and what follows the attribute is again a tail of `t`. */
  lemma AttrAfterSpace(t: string, r: string, name: string) returns (j: nat, rest: string)
    requires |r| <= |t| && r == t[|t| - |r|..]
    requires |r| > 0 && IsSpace(r[0]) && QuotedAttr(r[1..], name).Some?
    ensures j == |t| - |r| + 1 && AttrAt(t, j, name)
    ensures ValueAt(t, j, name) == QuotedAttr(r[1..], name).value.value
    ensures rest == QuotedAttr(r[1..], name).value.rest
    ensures |rest| < |t| - j && rest == t[|t| - |rest|..]
  {
    j := |t| - |r| + 1;
    assert t[j..] == r[1..];
    assert t[j - 1] == r[0];
    rest := QuotedAttr(r[1..], name).value.rest;
  }

  lemma YouTubeHeightSrc(t: string, r: string) returns (j: nat)
    requires |r| <= |t| && r == t[|t| - |r|..]
    requires |r| > 0 && IsSpace(r[0]) && YouTubeHeight(r[1..])
    ensures |t| - |r| < j && AttrAt(t, j, "src") && EmbedAfter(ValueAt(t, j, "src"), YouTubeEmbed)
  {
    if YouTubeSrc(r[1..]) {
      var rest;
      j, rest := AttrAfterSpace(t, r, "src");
    } else {
      var _, b := AttrAfterSpace(t, r, "height");
      assert YouTubeSrc(b[1..]);
      var rest;
      j, rest := AttrAfterSpace(t, b, "src");
    }
  }

  lemma YouTubeWidthSrc(t: string, r: string) returns (j: nat)
    requires |r| <= |t| && r == t[|t| - |r|..]
    requires |r| > 0 && IsSpace(r[0]) && YouTubeWidth(r[1..])
    ensures |t| - |r| < j && AttrAt(t, j, "src") && EmbedAfter(ValueAt(t, j, "src"), YouTubeEmbed)
  {
    if YouTubeHeight(r[1..]) {
      j := YouTubeHeightSrc(t, r);
    } else {
      var _, b := AttrAfterSpace(t, r, "width");
      assert YouTubeHeight(b[1..]);
      j := YouTubeHeightSrc(t, b);
    }
  }

  /** A YouTube opener has a `src` attribute whose value is the https embed
      path followed by a non-empty video path. */
  lemma YouTubeSrcValue(t: string)
    requires YouTubeTag(t) && StartsCI(t, "<iframe")
    ensures exists j :: 8 <= j && AttrAt(t, j, "src") && EmbedAfter(ValueAt(t, j, "src"), YouTubeEmbed)
  {
    assert LowerChar(t[1]) == 'i';
    assert t[7..][1..] == t[8..];
    var j := YouTubeWidthSrc(t, t[7..]);
  }

  /** A Vimeo opener starts with its `src` attribute, whose value begins
      with the https video path and ends with the white colour query. */
  lemma VimeoSrcValue(t: string)
    requires VimeoTag(t)
    ensures AttrAt(t, 8, "src")
    ensures var v := ValueAt(t, 8, "src");
            StartsCI(v, VimeoVideo) && |v| > |VimeoVideo| + |VimeoColor|
            && StartsCI(v[|v| - |VimeoColor|..], VimeoColor)
  {
    VimeoSrcAt(t);
    VimeoUrlParts(ValueAt(t, 8, "src"));
  }

  lemma VimeoSrcAt(t: string)
    requires VimeoTag(t)
    ensures AttrAt(t, 8, "src") && VimeoUrl(ValueAt(t, 8, "src"))
  {
    assert t[7..][1..] == t[8..];
    var j, rest := AttrAfterSpace(t, t[7..], "src");
  }

  lemma VimeoUrlParts(v: string)
    requires VimeoUrl(v)
    ensures StartsCI(v, VimeoVideo) && |v| > |VimeoVideo| + |VimeoColor|
            && StartsCI(v[|v| - |VimeoColor|..], VimeoColor)
  {
  }

  lemma VimeoHeightAt(t: string, r: string) returns (j: nat)
    requires |r| <= |t| && r == t[|t| - |r|..] && VimeoHeight(r)
    ensures |t| - |r| < j && AttrAt(t, j, "height") && Number(ValueAt(t, j, "height"))
  {
    var rest;
    j, rest := AttrAfterSpace(t, r, "height");
  }

  /** Vimeo's rule makes a numeric height mandatory: it follows the source. */
  lemma VimeoNeedsHeight(t: string)
    requires VimeoTag(t)
    ensures exists j :: 8 < j && AttrAt(t, j, "height") && Number(ValueAt(t, j, "height"))
  {
    assert t[7..][1..] == t[8..];
    var _, r := AttrAfterSpace(t, t[7..], "src");
    assert VimeoWidth(r);
    var j;
    if VimeoHeight(r) {
      j := VimeoHeightAt(t, r);
    } else {
      var _, b := AttrAfterSpace(t, r, "width");
      assert VimeoHeight(b);
      j := VimeoHeightAt(t, b);
    }
  }

  lemma SoundCloudFrameBorderAt(t: string, r: string) returns (jf: nat, jv: nat)
    requires |r| <= |t| && r == t[|t| - |r|..] && SoundCloudFrameBorder(r)
    ensures |t| - |r| < jf < jv
    ensures AttrAt(t, jf, "frameborder") && |ValueAt(t, jf, "frameborder")| > 0
    ensures AttrAt(t, jv, "src") && StartsCI(ValueAt(t, jv, "src"), SoundCloudHost)
            && |ValueAt(t, jv, "src")| > |SoundCloudHost|
  {
    var b;
    jf, b := AttrAfterSpace(t, r, "frameborder");
    assert SoundCloudSrc(b);
    var rest;
    jv, rest := AttrAfterSpace(t, b, "src");
  }

  lemma SoundCloudScrollingAt(t: string, r: string) returns (js: nat, jf: nat, jv: nat)
    requires |r| <= |t| && r == t[|t| - |r|..] && SoundCloudScrolling(r)
    ensures |t| - |r| < js < jf < jv
    ensures AttrAt(t, js, "scrolling") && |ValueAt(t, js, "scrolling")| > 0
    ensures AttrAt(t, jf, "frameborder") && |ValueAt(t, jf, "frameborder")| > 0
    ensures AttrAt(t, jv, "src") && StartsCI(ValueAt(t, jv, "src"), SoundCloudHost)
            && |ValueAt(t, jv, "src")| > |SoundCloudHost|
  {
    var b;
    js, b := AttrAfterSpace(t, r, "scrolling");
    assert SoundCloudFrameBorder(b);
    jf, jv := SoundCloudFrameBorderAt(t, b);
  }

  lemma SoundCloudHeightAt(t: string, r: string) returns (jh: nat, js: nat, jf: nat, jv: nat)
    requires |r| <= |t| && r == t[|t| - |r|..] && SoundCloudHeight(r)
    ensures |t| - |r| < jh < js < jf < jv
    ensures AttrAt(t, jh, "height") && Number(ValueAt(t, jh, "height"))
    ensures AttrAt(t, js, "scrolling") && |ValueAt(t, js, "scrolling")| > 0
    ensures AttrAt(t, jf, "frameborder") && |ValueAt(t, jf, "frameborder")| > 0
    ensures AttrAt(t, jv, "src") && StartsCI(ValueAt(t, jv, "src"), SoundCloudHost)
            && |ValueAt(t, jv, "src")| > |SoundCloudHost|
  {
    var b;
    jh, b := AttrAfterSpace(t, r, "height");
    assert SoundCloudScrolling(b);
    js, jf, jv := SoundCloudScrollingAt(t, b);
  }

  /** A SoundCloud opener carries a numeric width and height, a scrolling
      and a frameborder value, and last the source on the widget host, in
      this order. */
  lemma SoundCloudAttrs(t: string)
    requires SoundCloudTag(t)
    ensures AttrAt(t, 8, "width") && Number(ValueAt(t, 8, "width"))
    ensures exists jh, js, jf, jv ::
              8 < jh < js < jf < jv
              && AttrAt(t, jh, "height") && Number(ValueAt(t, jh, "height"))
              && AttrAt(t, js, "scrolling") && |ValueAt(t, js, "scrolling")| > 0
              && AttrAt(t, jf, "frameborder") && |ValueAt(t, jf, "frameborder")| > 0
              && AttrAt(t, jv, "src") && StartsCI(ValueAt(t, jv, "src"), SoundCloudHost)
              && |ValueAt(t, jv, "src")| > |SoundCloudHost|
  {
    assert t[7] == ' ';
    assert t[7..][1..] == t[8..];
    var _, r := AttrAfterSpace(t, t[7..], "width");
    var jh, js, jf, jv := SoundCloudHeightAt(t, r);
  }

  /** An accepted `<iframe` opener has a `src` attribute whose value is one
      of the three providers' https addresses: YouTube's embed path, Vimeo's
      video path ending in the colour query, or SoundCloud's widget host.
      An iframe from any other source is dropped. */
  lemma IframeHostRule(t: string)
    requires Whitelisted(t) && StartsCI(t, "<iframe")
    ensures exists j :: AttrAt(t, j, "src") &&
              (EmbedAfter(ValueAt(t, j, "src"), YouTubeEmbed) || VimeoUrl(ValueAt(t, j, "src"))
               || (StartsCI(ValueAt(t, j, "src"), SoundCloudHost) && |ValueAt(t, j, "src")| > |SoundCloudHost|))
  {
    assert LowerChar(t[1]) == 'i' && LowerChar(t[2]) == 'f';
    BasicLead(t);
    LeadOf(t, "<a");
    LeadOf(t, "</a>");
    LeadOf(t, "<img");
    assert YouTubeTag(t) || VimeoTag(t) || SoundCloudTag(t);
    if YouTubeTag(t) {
      YouTubeSrcValue(t);
    } else if VimeoTag(t) {
      VimeoSrcValue(t);
    } else {
      SoundCloudAttrs(t);
    }
  }

  // ---------------------------------------------------------------------
  // Attributes only where the rules allow them

  /** No structural name holds a `=` or a `"`. */
  lemma NamesPlain()
    ensures forall k :: 0 <= k < |PairedNames| ==> '=' !in PairedNames[k] && '"' !in PairedNames[k]
  {
  }

  /** A name with a `=` or a `"` in it is none of the plain structural names. */
  lemma MarkNotPlainName(n: string, i: nat)
    requires i < |n| && (n[i] == '=' || n[i] == '"')
    ensures !OneOf(n, PairedNames)
  {
    NamesPlain();
    forall k | 0 <= k < |PairedNames|
      ensures !EqCI(n, PairedNames[k])
    {
      if |n| == |PairedNames[k]| {
        assert PairedNames[k][i] != n[i];
      }
    }
  }

  /** A name with a `=` in it is not a line break or a rule. */
  lemma EqualsNotStandalone(n: string, i: nat)
    requires i < |n| && n[i] == '='
    ensures !StandaloneName(n)
  {
    if (StartsCI(n, "br") || StartsCI(n, "hr")) && 2 <= i {
      assert n[2..][i - 2] == '=';
    }
  }

  /** A case-insensitive prefix of a prefix of `s` is one of `s`. */
  lemma StartsCIExtend(n: string, s: string, lit: string)
    requires |n| <= |s| && n == s[..|n|] && StartsCI(n, lit)
    ensures StartsCI(s, lit)
  {
    forall j | 0 <= j < |lit|
      ensures LowerChar(s[j]) == lit[j]
    {
      assert s[j] == n[j];
    }
  }

  /** Only `ol` may carry an attribute among the structural tags: a
      structural tag with a `=` in it opens or closes `ol start="`. */
  lemma OnlyOlHasStart(t: string)
    ensures BasicTag(t) && '=' in t ==>
              StartsCI(t[1..], "ol start=\"") || StartsCI(t[1..], "/ol start=\"")
  {
    if BasicTag(t) && '=' in t {
      var i :| 0 <= i < |t| && t[i] == '=';
      var n := t[1..|t| - 1];
      assert 0 < i < |t| - 1;
      assert n[i - 1] == '=';
      EqualsNotStandalone(n, i - 1);
      if PairedName(n) {
        MarkNotPlainName(n, i - 1);
        StartsCIExtend(n, t[1..], "ol start=\"");
      } else {
        var m := n[1..];
        assert n[0] == '/' && PairedName(m) && 1 < i;
        assert m[i - 2] == '=';
        MarkNotPlainName(m, i - 2);
        StartsCIExtend(m, t[2..], "ol start=\"");
        OlCloserLead(t);
      }
    }
  }

  lemma OlCloserLead(t: string)
    requires |t| > 2 && t[1] == '/' && StartsCI(t[2..], "ol start=\"")
    ensures StartsCI(t[1..], "/ol start=\"")
  {
    forall j | 0 <= j < |"/ol start=\""|
      ensures LowerChar(t[1..][j]) == "/ol start=\""[j]
    {
      if 0 < j {
        assert t[1..][j] == t[2..][j - 1];
      }
    }
  }

  /** A `"` right after a `<b` ends no accepted tag's name. */
  lemma QuoteAfterLeadRefused(u: string)
    requires |u| > 3 && u[1] == 'b' && u[2] == '"'
    ensures !Whitelisted(u)
  {
    var n := u[1..|u| - 1];
    assert n[0] == 'b' && n[1] == '"';
    MarkNotPlainName(n, 1);
    LeadOf(n, "ol start=\"");
    LeadOf(n, "br");
    LeadOf(n, "hr");
    LeadOf(u, "<a");
    LeadOf(u, "<img");
    IframeLead(u);
  }

  /** An unordered list may not say where it starts. */
  lemma UlStartRefused()
    ensures !Whitelisted("<ul start=\"3\">")
  {
    var t := "<ul start=\"3\">";
    assert t[9] == '=';
    assert t[1..][0] == 'u';
    OnlyOlHasStart(t);
    BasicLead(t);
    IframeLead(t);
    LeadOf(t, "<a");
    LeadOf(t, "<img");
  }

  /** Just past the closing quote of the attribute at `j`. */
  function AttrEnd(t: string, j: nat, name: string): nat
    requires AttrAt(t, j, name)
  {
    j + |name| + 3 + |ValueAt(t, j, name)|
  }

  /** Neither a width nor a height starts `r`. */
  predicate NoSizeIn(r: string) {
    SpacedAttr(r, "width").None? && SpacedAttr(r, "height").None?
  }

  /** A height that starts `r` has one to three digits, and no size follows it. */
  predicate HeightIn(r: string) {
    var a := SpacedAttr(r, "height");
    a.Some? ==> SmallNumber(a.value.value) && NoSizeIn(a.value.rest)
  }

  /** A width that starts `r` has one to three digits and may be followed
      only by a height; a height that starts `r` is as above. */
  predicate SizesIn(r: string) {
    (var a := SpacedAttr(r, "width");
     a.Some? ==> SmallNumber(a.value.value) && HeightIn(a.value.rest))
    && HeightIn(r)
  }

  /** The first letter of a spaced attribute is the first letter of its name. */
  lemma SpacedLead(r: string, name: string)
    requires |name| > 0
    ensures SpacedAttr(r, name).Some? ==> |r| > |name| + 3 && LowerChar(r[1]) == name[0]
  {
    if SpacedAttr(r, name).Some? {
      assert StartsCI(r[1..], name + "=\"");
      assert r[1..][0] == r[1];
    }
  }

  /** Alternative text, a title or the close never start with a size. */
  lemma SizeNotAlt(r: string)
    ensures SpacedAttr(r, "width").Some? || SpacedAttr(r, "height").Some? ==> !ImageAlt(r)
  {
    SpacedLead(r, "width");
    SpacedLead(r, "height");
    SpacedLead(r, "alt");
    SpacedLead(r, "title");
  }

  /** A width right after the source is one to three digits, and only a
      height, alternative text and a title may follow it. */
  lemma ImageWidthValue(r: string)
    ensures ImageWidth(r) && SpacedAttr(r, "width").Some? ==>
              SmallNumber(SpacedAttr(r, "width").value.value) && ImageHeight(SpacedAttr(r, "width").value.rest)
  {
    SpacedLead(r, "width");
    SpacedLead(r, "height");
    SizeNotAlt(r);
  }

  /** A height where the rule reads one is one to three digits, and only
      alternative text and a title may follow it. */
  lemma ImageHeightValue(r: string)
    ensures ImageHeight(r) && SpacedAttr(r, "height").Some? ==>
              SmallNumber(SpacedAttr(r, "height").value.value) && ImageAlt(SpacedAttr(r, "height").value.rest)
  {
    SizeNotAlt(r);
  }

  lemma HeightInOf(r: string)
    requires ImageHeight(r)
    ensures HeightIn(r)
  {
    var a := SpacedAttr(r, "height");
    if a.Some? {
      ImageHeightValue(r);
      SizeNotAlt(a.value.rest);
    }
  }

  /** What the image rule accepts after the source obeys the size rules. */
  lemma SizesInOf(r: string)
    requires ImageWidth(r)
    ensures SizesIn(r)
  {
    SpacedLead(r, "width");
    SpacedLead(r, "height");
    var a := SpacedAttr(r, "width");
    if a.Some? {
      ImageWidthValue(r);
      HeightInOf(a.value.rest);
    } else {
      HeightInOf(r);
    }
  }

  /** An image starts with its `src` attribute, from a safe address; then
      come at most a width and a height, in this order, each of one to
      three digits. */
  lemma ImageAttrs(t: string)
    requires ImageTag(t)
    ensures AttrAt(t, 5, "src") && SafeImageUrl(ValueAt(t, 5, "src"))
    ensures SizesIn(t[AttrEnd(t, 5, "src")..])
  {
    assert t[4..][1..] == t[5..];
    var j, rest := AttrAfterSpace(t, t[4..], "src");
    assert AttrEnd(t, 5, "src") == |t| - |rest|;
    SizesInOf(rest);
  }

  /** Only the image rule can accept a tag that starts `<img`. */
  lemma OnlyImageRule(t: string)
    ensures StartsCI(t, "<img") && Whitelisted(t) ==> ImageTag(t)
  {
    BasicLead(t);
    IframeLead(t);
    LeadOf(t, "<a");
    LeadOf(t, "<img");
    LeadOf(t, "</a>");
  }

  /** An image with a safe source and a width of four digits or more, and
      nothing after the width, is refused. */
  lemma WideImageRefused(url: string, w: string)
    requires SafeImageUrl(url) && AllDigits(w) && |w| > 3
    ensures !Whitelisted("<img" + (AttrText("src", url) + (AttrText("width", w) + ">")))
  {
    LiteralsLower();
    SafeUrlNoQuote(url);
    assert '"' !in w;
    var r := AttrText("width", w) + ">";
    AttrTextOf("width", w, ">");
    LeadAttr("<img", "src", url, r);
    ImageWidthValue(r);
    OnlyImageRule("<img" + (AttrText("src", url) + r));
  }

  /** An image with a safe source, a height written before the width and
      nothing after them is refused. */
  lemma ImageOrderRefused(url: string, h: string, w: string)
    requires SafeImageUrl(url) && SmallNumber(h) && SmallNumber(w)
    ensures !Whitelisted("<img" + (AttrText("src", url) + (AttrText("height", h) + (AttrText("width", w) + ">"))))
  {
    LiteralsLower();
    SafeUrlNoQuote(url);
    assert '"' !in w && '"' !in h;
    var r2 := AttrText("width", w) + ">";
    AttrTextOf("width", w, ">");
    var r1 := AttrText("height", h) + r2;
    AttrTextOf("height", h, r2);
    SizeNotAlt(r2);
    ImageHeightValue(r1);
    SpacedLead(r1, "width");
    LeadAttr("<img", "src", url, r1);
    OnlyImageRule("<img" + (AttrText("src", url) + r1));
  }
}
