/** `sanitizeHtml` (Markdown.Sanitizer.js, lines 40-42): every match of
    `<[^>]*>?` (a `<`, then everything up to and including the next `>`, or
    up to the end when no `>` follows) is handed to `sanitizeTag`, and the
    verdict replaces it. The characters outside those tokens are copied. */
module Sanitizer {
  import opened Text
  import opened Whitelist
  import WhitelistFacts

  /** The scan of the global replace, one position at a time. */
  function SanitizeHtml(s: string): (r: string)
    ensures |r| <= |s|
    decreases |s|
  {
    if |s| == 0 then []
    else if s[0] != '<' then [s[0]] + SanitizeHtml(s[1..])
    else
      var e := TokenEnd(s, 0);
      SanitizeTag(s[..e]) + SanitizeHtml(s[e..])
  }

  /** Every `<` the scan reaches, that is every `<` outside an accepted
      token, opens a token that the whitelist accepts. A `<` inside the
      value of an accepted attribute is not reached (`AngleInsideKeptValue`). */
  predicate Clean(s: string)
    decreases |s|
  {
    |s| == 0
    || (s[0] != '<' && Clean(s[1..]))
    || (s[0] == '<' && Whitelisted(s[..TokenEnd(s, 0)]) && Clean(s[TokenEnd(s, 0)..]))
  }

  /** The characters of `s` that lie outside every token, in order. */
  function TextOf(s: string): string
    decreases |s|
  {
    if |s| == 0 then []
    else if s[0] != '<' then [s[0]] + TextOf(s[1..])
    else TextOf(s[TokenEnd(s, 0)..])
  }

  /** The tokens of `s`, in order. */
  function TagsOf(s: string): seq<string>
    decreases |s|
  {
    if |s| == 0 then []
    else if s[0] != '<' then TagsOf(s[1..])
    else [s[..TokenEnd(s, 0)]] + TagsOf(s[TokenEnd(s, 0)..])
  }

  /** The tokens the whitelist accepts, in their order. */
  function KeepWhitelisted(tags: seq<string>): (r: seq<string>)
    ensures |r| <= |tags|
    ensures forall i :: 0 <= i < |r| ==> Whitelisted(r[i])
    ensures forall t :: t in tags && Whitelisted(t) ==> t in r
    ensures forall t :: multiset(r)[t] == if Whitelisted(t) then multiset(tags)[t] else 0
  {
    if |tags| == 0 then []
    else
      assert tags == [tags[0]] + tags[1..];
      if Whitelisted(tags[0]) then [tags[0]] + KeepWhitelisted(tags[1..])
      else KeepWhitelisted(tags[1..])
  }

  /** Filtering a list in two parts filters each part. */
  lemma {:induction false} KeepWhitelistedAppend(a: seq<string>, b: seq<string>)
    ensures KeepWhitelisted(a + b) == KeepWhitelisted(a) + KeepWhitelisted(b)
  {
    if |a| == 0 {
      assert a + b == b;
    } else {
      var x, xs := a[0], a[1..];
      assert a == [x] + xs;
      assert a + b == [x] + (xs + b);
      KeepCons(x, xs);
      KeepCons(x, xs + b);
      KeepWhitelistedAppend(xs, b);
      var head := if Whitelisted(x) then [x] else [];
      var p, q := KeepWhitelisted(xs), KeepWhitelisted(b);
      AppendAssoc(head, p, q);
    }
  }

  lemma KeepCons(x: string, xs: seq<string>)
    ensures KeepWhitelisted([x] + xs) == (if Whitelisted(x) then [x] else []) + KeepWhitelisted(xs)
  {
    assert ([x] + xs)[0] == x && ([x] + xs)[1..] == xs;
  }

  /** An accepted token ends at its own `>`, whatever follows it. */
  lemma AcceptedTokenEnd(s: string, rest: string)
    requires |s| > 0 && s[0] == '<' && Whitelisted(s[..TokenEnd(s, 0)])
    ensures TokenEnd(s[..TokenEnd(s, 0)] + rest, 0) == TokenEnd(s, 0)
  {
    var e := TokenEnd(s, 0);
    var t := s[..e];
    WhitelistFacts.WhitelistedShape(t);
    TokenEndPrefix(s, 0, e);
    TokenEndAppend(t, rest, 0);
  }

  /** What sanitizing leaves behind is clean: every `<` the scan reaches,
      that is every `<` outside an accepted token, begins a token the
      whitelist accepts. */
  lemma {:induction false} SanitizedIsClean(s: string)
    ensures Clean(SanitizeHtml(s))
    decreases |s|
  {
    if |s| == 0 {
    } else if s[0] != '<' {
      SanitizedIsClean(s[1..]);
      assert SanitizeHtml(s)[1..] == SanitizeHtml(s[1..]);
    } else {
      var e := TokenEnd(s, 0);
      var t := s[..e];
      var rest := SanitizeHtml(s[e..]);
      SanitizedIsClean(s[e..]);
      if Whitelisted(t) {
        var r := t + rest;
        assert SanitizeHtml(s) == r;
        AcceptedTokenEnd(s, rest);
        assert r[0] == '<' && TokenEnd(r, 0) == e;
        assert r[..e] == t;
        assert r[e..] == rest;
        assert Whitelisted(r[..TokenEnd(r, 0)]) && Clean(r[TokenEnd(r, 0)..]);
      } else {
        assert SanitizeHtml(s) == rest;
      }
    }
  }

  /** Clean input passes through unchanged. */
  lemma {:induction false} CleanIsKept(s: string)
    requires Clean(s)
    ensures SanitizeHtml(s) == s
    decreases |s|
  {
    if |s| == 0 {
    } else if s[0] != '<' {
      CleanIsKept(s[1..]);
    } else {
      var e := TokenEnd(s, 0);
      CleanIsKept(s[e..]);
      assert s[..e] + s[e..] == s;
    }
  }

  /** Sanitizing is idempotent, and its fixed points are exactly the clean strings. */
  lemma SanitizeIdempotent(s: string)
    ensures SanitizeHtml(SanitizeHtml(s)) == SanitizeHtml(s)
    ensures SanitizeHtml(s) == s <==> Clean(s)
  {
    SanitizedIsClean(s);
    CleanIsKept(SanitizeHtml(s));
    if Clean(s) {
      CleanIsKept(s);
    }
  }

  /** The text between tokens comes through character for character. */
  lemma {:induction false} SanitizeKeepsText(s: string)
    ensures TextOf(SanitizeHtml(s)) == TextOf(s)
    decreases |s|
  {
    if |s| == 0 {
    } else if s[0] != '<' {
      SanitizeKeepsText(s[1..]);
      assert SanitizeHtml(s)[1..] == SanitizeHtml(s[1..]);
    } else {
      var e := TokenEnd(s, 0);
      var t := s[..e];
      var rest := SanitizeHtml(s[e..]);
      SanitizeKeepsText(s[e..]);
      if Whitelisted(t) {
        AcceptedTokenEnd(s, rest);
        assert (t + rest)[e..] == rest;
      } else {
        assert SanitizeHtml(s) == rest;
      }
    }
  }

  /** The tokens that come through are the accepted ones, whole, in their
      order; every other token is deleted. */
  lemma {:induction false} SanitizeKeepsAcceptedTags(s: string)
    ensures TagsOf(SanitizeHtml(s)) == KeepWhitelisted(TagsOf(s))
    decreases |s|
  {
    if |s| == 0 {
    } else if s[0] != '<' {
      SanitizeKeepsAcceptedTags(s[1..]);
      assert SanitizeHtml(s)[1..] == SanitizeHtml(s[1..]);
    } else {
      var e := TokenEnd(s, 0);
      var t := s[..e];
      var rest := SanitizeHtml(s[e..]);
      SanitizeKeepsAcceptedTags(s[e..]);
      assert TagsOf(s)[1..] == TagsOf(s[e..]);
      if Whitelisted(t) {
        AcceptedTokenEnd(s, rest);
        assert (t + rest)[..e] == t;
        assert (t + rest)[e..] == rest;
      } else {
        assert SanitizeHtml(s) == rest;
      }
    }
  }

  /** Without a `<` there is nothing to sanitize. */
  lemma {:induction false} NoTagUnchanged(s: string)
    requires forall k :: 0 <= k < |s| ==> s[k] != '<'
    ensures SanitizeHtml(s) == s
    decreases |s|
  {
    if |s| > 0 {
      NoTagUnchanged(s[1..]);
    }
  }

  /** A token that runs to the end without a `>` is never accepted. */
  lemma UnclosedTokenDeleted(s: string)
    requires |s| > 0 && s[0] == '<'
    requires forall k :: 0 < k < |s| ==> s[k] != '>'
    ensures SanitizeHtml(s) == []
  {
    TokenEndUnclosed(s, 0);
    assert s[..|s|] == s;
    WhitelistFacts.UnclosedRejected(s);
  }

  /** Cutting `s` at `i` after a leading text character. */
  lemma CutAfterText(s: string, i: nat)
    requires 0 < i <= |s| && s[0] != '<'
    requires SanitizeHtml(s[1..]) == SanitizeHtml(s[1..][..i - 1])
    ensures SanitizeHtml(s) == SanitizeHtml(s[..i])
  {
    DropTake(s, 1, i);
  }

  /** Cutting `s` at `i` after a leading token that ends at or before `i`. */
  lemma CutAfterToken(s: string, i: nat)
    requires 0 < i < |s| && s[0] == '<' && TokenEnd(s, 0) <= i
    requires var e := TokenEnd(s, 0); SanitizeHtml(s[e..]) == SanitizeHtml(s[e..][..i - e])
    ensures SanitizeHtml(s) == SanitizeHtml(s[..i])
  {
    var e := TokenEnd(s, 0);
    TokenEndPrefix(s, 0, i);
    DropTake(s, e, i);
  }

  /** A `<` that no `>` follows starts a token running to the end, which
      is never accepted: everything from that `<` on is deleted. */
  lemma {:induction false} UnclosedTailDeleted(s: string, i: nat)
    requires i < |s| && s[i] == '<'
    requires forall k :: i <= k < |s| ==> s[k] != '>'
    ensures SanitizeHtml(s) == SanitizeHtml(s[..i])
    decreases |s|
  {
    if s[0] != '<' {
      UnclosedTailDeleted(s[1..], i - 1);
      CutAfterText(s, i);
    } else {
      var e := TokenEnd(s, 0);
      if e <= i {
        UnclosedTailDeleted(s[e..], i - e);
        CutAfterToken(s, i);
      } else {
        UnclosedTokenDeleted(s);
        if i > 0 {
          UnclosedTokenDeleted(s[..i]);
        }
      }
    }
  }

  /** A lone less-than sign cuts the rest of its line and text away. */
  lemma LoneLessThan()
    ensures SanitizeHtml("a < b") == "a "
  {
    UnclosedTailDeleted("a < b", 2);
    assert "a < b"[..2] == "a ";
    NoTagUnchanged("a ");
  }

  const ScriptLink := "<a href=\"javascript:alert(1)\">"

  /** Only the link rule can accept a tag that starts `<a` or `<A`. */
  lemma OnlyLinkRule(t: string)
    requires |t| > 2 && LowerChar(t[1]) == 'a'
    ensures Whitelisted(t) ==> LinkTag(t)
  {
    WhitelistFacts.BasicLead(t);
    WhitelistFacts.IframeLead(t);
    WhitelistFacts.LeadOf(t, "<img");
  }

  /** A link whose address starts with neither `http`, `ftp` nor `/` is
      refused. */
  lemma UnsafeHrefRejected(t: string)
    requires |t| > 3 && LowerChar(t[1]) == 'a'
    requires var a := QuotedAttr(t[3..], "href");
      a.Some? && |a.value.value| > 0 && LowerChar(a.value.value[0]) !in "hf/"
    ensures !Whitelisted(t)
  {
    var v := QuotedAttr(t[3..], "href").value.value;
    assert !SafeLinkUrl(v);
    assert !LinkTag(t);
    OnlyLinkRule(t);
  }

  lemma ScriptHref()
    ensures QuotedAttr(ScriptLink[3..], "href") == Some(Attr("javascript:alert(1)", ">"))
  {
    ScriptLinkTail();
    WhitelistFacts.LiteralsLower();
    WhitelistFacts.QuotedAttrOf("href", "javascript:alert(1)", ">");
  }

  lemma ScriptLinkTail()
    ensures ScriptLink[3..] == "href" + "=\"" + "javascript:alert(1)" + "\"" + ">"
  {
    ScriptLinkSplit();
    ScriptHrefJoin();
  }

  lemma ScriptLinkSplit()
    ensures ScriptLink[3..] == "href=\"javascript:alert(1)\">"
  {
  }

  lemma ScriptHrefJoin()
    ensures "href" + "=\"" + "javascript:alert(1)" + "\"" + ">" == "href=\"javascript:alert(1)\">"
  {
  }

  lemma ScriptLinkRejected()
    ensures !Whitelisted(ScriptLink)
  {
    ScriptHref();
    assert LowerChar('j') == 'j';
    UnsafeHrefRejected(ScriptLink);
  }

  /** The closing link tag passes through. */
  lemma LinkCloserKept()
    ensures SanitizeHtml("x</a>") == "x</a>"
  {
    var u := "x</a>";
    assert u[1..] == "</a>";
    IndexFromIs("</a>", '>', 1, 3);
    assert "</a>"[..4] == "</a>";
    WhitelistFacts.LinkCloserAccepted();
  }

  /** A link to a `javascript:` address loses its opening tag; the text
      and the closing tag stay. */
  lemma ScriptLinkDropped()
    ensures SanitizeHtml(ScriptLink + "x</a>") == "x</a>"
  {
    var t := ScriptLink;
    var s := t + "x</a>";
    IndexFromIs(s, '>', 1, |t| - 1);
    assert s[..|t|] == t;
    assert s[|t|..] == "x</a>";
    ScriptLinkRejected();
    LinkCloserKept();
  }

  /** `r` ends with its only `>`. */
  predicate ClosesAtEnd(r: string) {
    |r| > 0 && r[|r| - 1] == '>' && forall k :: 0 <= k < |r| - 1 ==> r[k] != '>'
  }

  lemma PrependClosesAtEnd(a: string, r: string)
    requires '>' !in a && ClosesAtEnd(r)
    ensures ClosesAtEnd(a + r)
  {
    forall k | 0 <= k < |a + r| - 1
      ensures (a + r)[k] != '>'
    {
      if k < |a| {
        assert (a + r)[k] == a[k];
      } else {
        assert (a + r)[k] == r[k - |a|];
      }
    }
  }

  /** Text that ends with its only `>` is one match from any `<` in it. */
  lemma ClosesAtEndToken(t: string, i: nat)
    requires ClosesAtEnd(t) && i < |t| - 1
    ensures TokenEnd(t, i) == |t|
  {
    IndexFromIs(t, '>', i + 1, |t| - 1);
  }

  /** A SoundCloud frame whose `scrolling` value starts with `<b`. */
  const AngleFrame := "<iframe" + (WhitelistFacts.AttrText("width", "1") + (WhitelistFacts.AttrText("height", "1")
    + (WhitelistFacts.AttrText("scrolling", "<b") + (WhitelistFacts.AttrText("frameborder", "0")
    + (WhitelistFacts.AttrText("src", SoundCloudHost + "x") + ">")))))

  lemma AngleFrameCloses()
    ensures ClosesAtEnd(AngleFrame)
  {
    var r5 := WhitelistFacts.AttrText("src", SoundCloudHost + "x") + ">";
    assert '>' !in SoundCloudHost + "x";
    assert ClosesAtEnd(r5);
    var r4 := WhitelistFacts.AttrText("frameborder", "0") + r5;
    PrependClosesAtEnd(WhitelistFacts.AttrText("frameborder", "0"), r5);
    var r3 := WhitelistFacts.AttrText("scrolling", "<b") + r4;
    PrependClosesAtEnd(WhitelistFacts.AttrText("scrolling", "<b"), r4);
    var r2 := WhitelistFacts.AttrText("height", "1") + r3;
    PrependClosesAtEnd(WhitelistFacts.AttrText("height", "1"), r3);
    var r1 := WhitelistFacts.AttrText("width", "1") + r2;
    PrependClosesAtEnd(WhitelistFacts.AttrText("width", "1"), r2);
    PrependClosesAtEnd("<iframe", r1);
  }

  lemma AngleFrameAt40()
    ensures |AngleFrame| > 43 && AngleFrame[40] == '<' && AngleFrame[41] == 'b' && AngleFrame[42] == '"'
  {
    var c := WhitelistFacts.AttrText("scrolling", "<b");
    assert c[12] == '<' && c[13] == 'b' && c[14] == '"';
    assert |"<iframe" + (WhitelistFacts.AttrText("width", "1") + WhitelistFacts.AttrText("height", "1"))| == 28;
  }

  /** The SoundCloud rule lets `scrolling` hold any text without a quote, so
      sanitized text may hold a `<` that the scan never reaches: it lies
      inside an accepted token, and on its own it would not be accepted. */
  lemma AngleInsideKeptValue()
    ensures Whitelisted(AngleFrame) && SanitizeHtml(AngleFrame) == AngleFrame
    ensures AngleFrame[40] == '<' && !Whitelisted(AngleFrame[40..TokenEnd(AngleFrame, 40)])
  {
    WhitelistFacts.SoundCloudAccepted("1", "1", "<b", "0", "x");
    AngleFrameCloses();
    ClosesAtEndToken(AngleFrame, 0);
    assert AngleFrame[..|AngleFrame|] == AngleFrame;
    assert Clean(AngleFrame[|AngleFrame|..]);
    CleanIsKept(AngleFrame);
    AngleFrameAt40();
    ClosesAtEndToken(AngleFrame, 40);
    WhitelistFacts.QuoteAfterLeadRefused(AngleFrame[40..]);
  }
}
