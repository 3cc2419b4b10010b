/** `balanceTags` (Markdown.Sanitizer.js, lines 52-117): the tags of the
    lower-cased text are scanned in order; an opening tag is paired with
    the first later tag, not taken by an earlier opener, that is exactly
    `</name>` (so `</b >` never closes `<b>`), and every tag left unpaired,
    opener or closer, is deleted from the text as written. In tags without
    a line break, five names (p, img, br, li, hr) are never touched. */
module Balancer {
  import opened Text

  // ---------------------------------------------------------------------
  // Finding the tags: the global matches of `<\/?\w+[^>]*(\s|$|>)` (line 57)

  /** Where a token begins and ends (one past its last character). */
  datatype Span = Span(start: nat, end: nat)

  /** A match can begin at `i`: a `<`, an optional `/`, then a word character. */
  predicate OpensTag(s: string, i: nat)
    requires i < |s|
  {
    s[i] == '<' && i + 1 < |s|
    && (IsWordChar(s[i + 1]) || (s[i + 1] == '/' && i + 2 < |s| && IsWordChar(s[i + 2])))
  }

  /** Spans lie in order, inside `s`, at or after `lo`, and are not empty. */
  predicate WellSpanned(s: string, spans: seq<Span>, lo: nat) {
    (forall k :: 0 <= k < |spans| ==> lo <= spans[k].start < spans[k].end <= |s|)
    && (forall k :: 0 <= k < |spans| - 1 ==> spans[k].end <= spans[k + 1].start)
  }

  /** The matches of the global scan from `i` on: each runs from its `<` to
      the first `>` after it, or to the end of the text. */
  function TagSpans(s: string, i: nat): (spans: seq<Span>)
    requires i <= |s|
    ensures WellSpanned(s, spans, i)
    ensures forall k :: 0 <= k < |spans| ==> OpensTag(s, spans[k].start)
    ensures forall k :: 0 <= k < |spans| ==> spans[k].end == TokenEnd(s, spans[k].start)
    decreases |s| - i
  {
    if i == |s| then []
    else if OpensTag(s, i) then
      var rest := TagSpans(s, TokenEnd(s, i));
      SpansCons(s, i, rest);
      [Span(i, TokenEnd(s, i))] + rest
    else TagSpans(s, i + 1)
  }

  /** A tag at `i` followed by the spans found after it. */
  lemma SpansCons(s: string, i: nat, rest: seq<Span>)
    requires i < |s| && OpensTag(s, i)
    requires WellSpanned(s, rest, TokenEnd(s, i))
    requires forall k :: 0 <= k < |rest| ==> OpensTag(s, rest[k].start)
    requires forall k :: 0 <= k < |rest| ==> rest[k].end == TokenEnd(s, rest[k].start)
    ensures var spans := [Span(i, TokenEnd(s, i))] + rest;
            WellSpanned(s, spans, i)
            && (forall k :: 0 <= k < |spans| ==> OpensTag(s, spans[k].start))
            && (forall k :: 0 <= k < |spans| ==> spans[k].end == TokenEnd(s, spans[k].start))
  {
    ConsInside(s, i, rest);
    ConsOrdered(s, i, rest);
  }

  lemma ConsInside(s: string, i: nat, rest: seq<Span>)
    requires i < |s| && OpensTag(s, i)
    requires WellSpanned(s, rest, TokenEnd(s, i))
    requires forall k :: 0 <= k < |rest| ==> OpensTag(s, rest[k].start)
    requires forall k :: 0 <= k < |rest| ==> rest[k].end == TokenEnd(s, rest[k].start)
    ensures var spans := [Span(i, TokenEnd(s, i))] + rest;
            forall k :: 0 <= k < |spans| ==>
              i <= spans[k].start < spans[k].end <= |s|
              && OpensTag(s, spans[k].start) && spans[k].end == TokenEnd(s, spans[k].start)
  {
    var spans := [Span(i, TokenEnd(s, i))] + rest;
    forall k | 0 < k < |spans|
      ensures spans[k] == rest[k - 1]
    {
    }
  }

  lemma ConsOrdered(s: string, i: nat, rest: seq<Span>)
    requires i < |s|
    requires WellSpanned(s, rest, TokenEnd(s, i))
    ensures var spans := [Span(i, TokenEnd(s, i))] + rest;
            forall k :: 0 <= k < |spans| - 1 ==> spans[k].end <= spans[k + 1].start
  {
    var spans := [Span(i, TokenEnd(s, i))] + rest;
    forall k | 0 < k < |spans|
      ensures spans[k] == rest[k - 1]
    {
    }
  }

  /** The text of the tags, as `match` returns them. */
  function Tokens(s: string): (toks: seq<string>)
    ensures |toks| == |TagSpans(s, 0)|
    ensures forall k :: 0 <= k < |toks| ==> toks[k] == s[TagSpans(s, 0)[k].start..TagSpans(s, 0)[k].end]
  {
    var spans := TagSpans(s, 0);
    seq(|spans|, k requires 0 <= k < |spans| => s[spans[k].start..spans[k].end])
  }

  /** No token of `s` holds a line terminator. */
  predicate TagsOnOneLine(s: string) {
    var toks := Tokens(s);
    forall k, i :: 0 <= k < |toks| && 0 <= i < |toks[k]| ==> !IsLineTerminator(toks[k][i])
  }

  // ---------------------------------------------------------------------
  // Reading one tag (lines 77, 80, 87)

  /** The end of the run of word characters that starts at `i`. */
  function WordEnd(s: string, i: nat): (j: nat)
    requires i <= |s|
    ensures i <= j <= |s|
    ensures forall k :: i <= k < j ==> IsWordChar(s[k])
    ensures j < |s| ==> !IsWordChar(s[j])
    decreases |s| - i
  {
    if i < |s| && IsWordChar(s[i]) then WordEnd(s, i + 1) else i
  }

  /** The name of a tag: the word after `<` or `</`. */
  function Name(tag: string): (name: string)
    ensures Word(name)
    ensures NameStart(tag) <= |tag| ==>
              NameStart(tag) + |name| <= |tag|
              && name == tag[NameStart(tag)..NameStart(tag) + |name|]
              && (NameStart(tag) + |name| == |tag| || !IsWordChar(tag[NameStart(tag) + |name|]))
    ensures NameStart(tag) > |tag| ==> name == []
  {
    var i := NameStart(tag);
    if i <= |tag| then tag[i..WordEnd(tag, i)] else []
  }

  /** Where the name begins: after `</` in a closer, else after `<`. */
  function NameStart(tag: string): nat {
    if |tag| > 1 && tag[1] == '/' then 2 else 1
  }

  predicate IsCloser(tag: string) {
    |tag| > 1 && tag[0] == '<' && tag[1] == '/'
  }

  /** The closing tag an opener of this name waits for. */
  function CloserFor(name: string): string {
    "</" + name + ">"
  }

  predicate Word(name: string) {
    forall i :: 0 <= i < |name| ==> IsWordChar(name[i])
  }

  function Bracket(name: string): string {
    "<" + name + ">"
  }

  /** The list searched at line 80. */
  const IgnoredTags := "<p><img><br><li><hr>"

  /** The names that list holds. */
  const IgnoredNames := ["p", "img", "br", "li", "hr"]

  /** Tags assumed to close themselves. */
  predicate Ignored(name: string) {
    name in IgnoredNames
  }

  /** `search` with a pattern of plain characters finds `pat` in `s`. */
  predicate Occurs(pat: string, s: string) {
    exists i :: 0 <= i <= |s| - |pat| && OccursAt(pat, s, i)
  }

  predicate OccursAt(pat: string, s: string, i: nat)
    requires i + |pat| <= |s|
  {
    s[i..i + |pat|] == pat
  }

  /** The ignore test as the source writes it: a search for `<name>` in the
      list of ignored tags. */
  method SearchIgnored(name: string) returns (found: bool)
    requires Word(name)
    ensures found <==> Ignored(name)
  {
    found := Occurs(Bracket(name), IgnoredTags);
    IgnoredBySearch(name);
  }

  // ---------------------------------------------------------------------
  // The pairing pass (lines 76-103), as a specification

  /** What the pass decides for one tag. */
  datatype Verdict = Skip | Pair(closer: nat) | Remove

  /** The first tag at or after `from`, not yet paired, equal to `want`. */
  function FindCloser(toks: seq<string>, want: string, paired: set<nat>, from: nat): (r: Option<nat>)
    requires from <= |toks|
    ensures r.Some? ==> from <= r.value < |toks| && r.value !in paired && toks[r.value] == want
    ensures r.Some? ==> forall m :: from <= m < r.value ==> m in paired || toks[m] != want
    ensures r.None? ==> forall m :: from <= m < |toks| ==> m in paired || toks[m] != want
    decreases |toks| - from
  {
    if from == |toks| then None
    else if from !in paired && toks[from] == want then Some(from)
    else FindCloser(toks, want, paired, from + 1)
  }

  /** The decision for tag `k` when the closers in `paired` are taken. */
  function Step(toks: seq<string>, k: nat, paired: set<nat>): (v: Verdict)
    requires k < |toks|
    ensures v == Skip <==> k in paired || Ignored(Name(toks[k]))
    ensures v.Pair? ==>
              k < v.closer < |toks| && v.closer !in paired
              && toks[v.closer] == CloserFor(Name(toks[k]))
              && !IsCloser(toks[k]) && !Ignored(Name(toks[k]))
    ensures v.Pair? ==>
              forall m :: k < m < v.closer ==> m in paired || toks[m] != CloserFor(Name(toks[k]))
    ensures v == Remove ==>
              IsCloser(toks[k])
              || forall m :: k < m < |toks| ==> m in paired || toks[m] != CloserFor(Name(toks[k]))
  {
    if k in paired || Ignored(Name(toks[k])) then Skip
    else if IsCloser(toks[k]) then Remove
    else match FindCloser(toks, CloserFor(Name(toks[k])), paired, k + 1)
      case Some(j) => Pair(j)
      case None => Remove
  }

  /** The pass after its first `c` tags: their verdicts, and the closers
      taken so far. */
  datatype Pass = Pass(verdicts: seq<Verdict>, paired: set<nat>)

  function Run(toks: seq<string>, c: nat): (st: Pass)
    requires c <= |toks|
    ensures |st.verdicts| == c
    ensures forall j :: j in st.paired ==> j < |toks|
    decreases c
  {
    if c == 0 then Pass([], {})
    else
      var st := Run(toks, c - 1);
      var v := Step(toks, c - 1, st.paired);
      Pass(st.verdicts + [v], if v.Pair? then st.paired + {v.closer} else st.paired)
  }

  /** One more round of the pass appends the verdict of tag `c`. */
  lemma RunStep(toks: seq<string>, c: nat)
    requires c < |toks|
    ensures var st := Run(toks, c); var v := Step(toks, c, st.paired);
            Run(toks, c + 1) == Pass(st.verdicts + [v], if v.Pair? then st.paired + {v.closer} else st.paired)
  {
  }

  /** The closers taken by the openers before position `c`. */
  function Paired(toks: seq<string>, c: nat): set<nat>
    requires c <= |toks|
  {
    Run(toks, c).paired
  }

  function VerdictAt(toks: seq<string>, k: nat): Verdict
    requires k < |toks|
  {
    Step(toks, k, Paired(toks, k))
  }

  /** Which tags the pass marks for removal. */
  function Marks(toks: seq<string>): (marks: seq<bool>)
    ensures |marks| == |toks|
    ensures forall k :: 0 <= k < |toks| ==> marks[k] == (VerdictAt(toks, k) == Remove)
  {
    var verdicts := Run(toks, |toks|).verdicts;
    RunVerdicts(toks, |toks|);
    seq(|toks|, k requires 0 <= k < |toks| => verdicts[k] == Remove)
  }

  // ---------------------------------------------------------------------
  // Deleting the marked tags (lines 110-116)

  /** The text from `from` on, with the spans from `k` on deleted where
      `drop` says so; a span past the end of `drop` is kept. */
  function Excise(s: string, spans: seq<Span>, drop: seq<bool>, k: nat, from: nat): (r: string)
    requires WellSpanned(s, spans, 0) && k <= |spans| && from <= |s|
    requires k < |spans| ==> from <= spans[k].start
    ensures |r| <= |s| - from
    decreases |spans| - k
  {
    if k == |spans| then s[from..]
    else
      s[from..spans[k].start]
      + (if k < |drop| && drop[k] then [] else s[spans[k].start..spans[k].end])
      + Excise(s, spans, drop, k + 1, spans[k].end)
  }

  /** The balanced text: the tags found in the lower-cased text and marked
      there are deleted at the same places in the text as written. */
  function Balance(html: string): (r: string)
    ensures |r| <= |html|
  {
    Excise(html, TagSpans(html, 0), Marks(Tokens(Lower(html))), 0, 0)
  }

  // ---------------------------------------------------------------------
  // The procedure

  /** The pairing loop (lines 68-103) over the lower-cased tags. */
  method MarkUnpaired(tags: seq<string>) returns (marks: seq<bool>, needsRemoval: bool)
    ensures marks == Marks(tags)
    ensures needsRemoval <==> true in marks
  {
    var tagcount := |tags|;
    var tagpaired := new bool[tagcount](_ => false);
    var tagremove := new bool[tagcount](_ => false);
    needsRemoval := false;
    var ctag := 0;
    ghost var st := Pass([], {});
    while ctag < tagcount
      invariant 0 <= ctag <= tagcount
      invariant st == Run(tags, ctag)
      invariant forall k :: 0 <= k < tagcount ==> (tagpaired[k] <==> k in st.paired)
      invariant forall k :: 0 <= k < ctag ==> (tagremove[k] <==> st.verdicts[k] == Remove)
      invariant forall k :: ctag <= k < tagcount ==> !tagremove[k]
      invariant needsRemoval <==> Remove in st.verdicts
      modifies tagpaired, tagremove
    {
      var v := PairOne(tags, tagpaired, ctag, st.paired);
      Record(tagpaired, tagremove, ctag, v);
      needsRemoval := needsRemoval || v.Remove?;
      RunStep(tags, ctag);
      st := Run(tags, ctag + 1);
      ctag := ctag + 1;
    }
    marks := tagremove[..];
    MarksOfRun(tags, marks);
  }

  /** The bookkeeping after a verdict (lines 98-102): a removed tag is
      marked for removal, a found closer is marked as paired. */
  method Record(tagpaired: array<bool>, tagremove: array<bool>, ctag: nat, v: Verdict)
    requires tagpaired != tagremove && ctag < tagremove.Length
    requires v.Pair? ==> v.closer < tagpaired.Length
    modifies tagpaired, tagremove
    ensures forall k :: 0 <= k < tagremove.Length ==> tagremove[k] == (old(tagremove[k]) || (k == ctag && v.Remove?))
    ensures forall k :: 0 <= k < tagpaired.Length ==> tagpaired[k] == (old(tagpaired[k]) || (v.Pair? && k == v.closer))
  {
    if v.Remove? {
      tagremove[ctag] := true;
    } else if v.Pair? {
      tagpaired[v.closer] := true;
    }
  }

  /** One round of the pairing loop (lines 77-102, before the marks are
      written): the verdict for tag `ctag` while the closers flagged in
      `tagpaired` are taken. */
  method PairOne(tags: seq<string>, tagpaired: array<bool>, ctag: nat, ghost paired: set<nat>)
    returns (v: Verdict)
    requires tagpaired.Length == |tags| && ctag < |tags|
    requires forall k :: 0 <= k < |tags| ==> (tagpaired[k] <==> k in paired)
    ensures v == Step(tags, ctag, paired)
  {
    var tagname := Name(tags[ctag]);
    var ignored := SearchIgnored(tagname);
    if tagpaired[ctag] || ignored {
      return Skip;
    }
    var tag := tags[ctag];
    var matched := -1;
    if !IsCloser(tag) {
      var want := CloserFor(tagname);
      matched := SearchForward(tags, tagpaired, ctag + 1, want);
      ghost var found := FindCloser(tags, want, paired, ctag + 1);
      if matched == -1 {
        assert found == None;
      } else {
        assert found == Some(matched);
      }
    }
    if matched == -1 {
      v := Remove;
    } else {
      v := Pair(matched);
    }
  }

  /** The forward search for a closer (lines 90-95): the first tag from
      `from` on that is not yet paired and equals `want`, or -1. */
  method SearchForward(tags: seq<string>, tagpaired: array<bool>, from: nat, want: string)
    returns (matched: int)
    requires tagpaired.Length == |tags| && from <= |tags|
    ensures matched == -1 || (from <= matched < |tags| && !tagpaired[matched] && tags[matched] == want)
    ensures forall m :: from <= m < |tags| && (matched == -1 || m < matched) ==> tagpaired[m] || tags[m] != want
  {
    matched := -1;
    var ntag := from;
    while ntag < |tags|
      invariant from <= ntag <= |tags|
      invariant forall m :: from <= m < ntag ==> tagpaired[m] || tags[m] != want
    {
      if !tagpaired[ntag] && tags[ntag] == want {
        matched := ntag;
        return;
      }
      ntag := ntag + 1;
    }
  }

  /** The second `replace` (lines 110-115): each match is replaced by the
      empty string when marked, by itself otherwise. */
  method DeleteMarked(html: string, spans: seq<Span>, tagremove: seq<bool>) returns (result: string)
    requires WellSpanned(html, spans, 0)
    ensures result == Excise(html, spans, tagremove, 0, 0)
  {
    result := [];
    var ctag1 := 0;
    var pos: nat := 0;
    while ctag1 < |spans|
      invariant 0 <= ctag1 <= |spans|
      invariant pos <= |html|
      invariant ctag1 < |spans| ==> pos <= spans[ctag1].start
      invariant result + Excise(html, spans, tagremove, ctag1, pos) == Excise(html, spans, tagremove, 0, 0)
    {
      var m := html[spans[ctag1].start..spans[ctag1].end];
      var res := if ctag1 < |tagremove| && tagremove[ctag1] then [] else m;
      var gap := html[pos..spans[ctag1].start];
      ghost var later := Excise(html, spans, tagremove, ctag1 + 1, spans[ctag1].end);
      assert Excise(html, spans, tagremove, ctag1, pos) == gap + res + later;
      Regroup(result, gap, res, later);
      result := result + gap + res;
      pos := spans[ctag1].end;
      ctag1 := ctag1 + 1;
    }
    assert Excise(html, spans, tagremove, ctag1, pos) == html[pos..];
    result := result + html[pos..];
  }

  lemma Regroup(a: string, b: string, c: string, d: string)
    ensures a + (b + c + d) == (a + b + c) + d
  {
  }

  method BalanceTags(html: string) returns (result: string)
    requires TagsOnOneLine(html)
    ensures result == Balance(html)
  {
    if |html| == 0 {
      return [];
    }
    var tags := Tokens(Lower(html));
    TagSpansIgnoreCase(html, 0);
    if |tags| == 0 {
      ExciseKeepAll(html, TagSpans(html, 0), Marks(tags), 0, 0);
      return html;
    }
    var tagremove, needsRemoval := MarkUnpaired(tags);
    if !needsRemoval {
      ExciseKeepAll(html, TagSpans(html, 0), tagremove, 0, 0);
      return html;
    }
    result := DeleteMarked(html, TagSpans(html, 0), tagremove);
  }

  // ---------------------------------------------------------------------
  // Lemmas

  /** Lower-casing moves no token: the tags found in the lower-cased text
      sit exactly where the tags of the text as written sit. */
  lemma {:induction false} TagSpansIgnoreCase(s: string, i: nat)
    requires i <= |s|
    ensures TagSpans(Lower(s), i) == TagSpans(s, i)
    decreases |s| - i
  {
    if i < |s| {
      LowerCharClasses(s[i]);
      if i + 1 < |s| {
        LowerCharClasses(s[i + 1]);
      }
      if i + 2 < |s| {
        LowerCharClasses(s[i + 2]);
      }
      assert OpensTag(Lower(s), i) == OpensTag(s, i);
      if OpensTag(s, i) {
        TokenEndLower(s, i);
        TagSpansIgnoreCase(s, TokenEnd(s, i));
      } else {
        TagSpansIgnoreCase(s, i + 1);
      }
    }
  }

  /** The scan misses no tag: every place where a tag could open lies
      inside a span found from any earlier point. */
  lemma {:induction false} TagSpansComplete(s: string, i: nat, p: nat)
    requires i <= p < |s| && OpensTag(s, p)
    ensures Covered(TagSpans(s, i), p)
    decreases |s| - i
  {
    if OpensTag(s, i) {
      var e := TokenEnd(s, i);
      assert TagSpans(s, i) == [Span(i, e)] + TagSpans(s, e);
      if p < e {
        assert TagSpans(s, i)[0] == Span(i, e);
      } else {
        TagSpansComplete(s, e, p);
        CoveredCons(Span(i, e), TagSpans(s, e), p);
      }
    } else {
      assert i < p;
      assert TagSpans(s, i) == TagSpans(s, i + 1);
      TagSpansComplete(s, i + 1, p);
    }
  }

  /** Some span holds position `p`. */
  predicate Covered(spans: seq<Span>, p: nat) {
    exists k :: 0 <= k < |spans| && spans[k].start <= p < spans[k].end
  }

  lemma CoveredCons(x: Span, rest: seq<Span>, p: nat)
    requires Covered(rest, p)
    ensures Covered([x] + rest, p)
  {
    var k :| 0 <= k < |rest| && rest[k].start <= p < rest[k].end;
    assert ([x] + rest)[k + 1] == rest[k];
  }

  /** Marks read off the pass's verdicts are the marks of the tags. */
  lemma MarksOfRun(toks: seq<string>, marks: seq<bool>)
    requires |marks| == |toks|
    requires forall k :: 0 <= k < |toks| ==> (marks[k] <==> Run(toks, |toks|).verdicts[k] == Remove)
    ensures marks == Marks(toks)
  {
    RunVerdicts(toks, |toks|);
  }

  /** The verdicts recorded by the pass are the verdicts of the tags. */
  lemma {:induction false} RunVerdicts(toks: seq<string>, c: nat)
    requires c <= |toks|
    ensures forall k :: 0 <= k < c ==> Run(toks, c).verdicts[k] == VerdictAt(toks, k)
    decreases c
  {
    if c > 0 {
      RunVerdicts(toks, c - 1);
      forall k | 0 <= k < c
        ensures Run(toks, c).verdicts[k] == VerdictAt(toks, k)
      {
        if k < c - 1 {
          assert Run(toks, c).verdicts[k] == Run(toks, c - 1).verdicts[k];
        }
      }
    }
  }

  /** The names written one after another, each between `<` and `>`. */
  function Bracketed(names: seq<string>): string {
    if |names| == 0 then [] else Bracket(names[0]) + Bracketed(names[1..])
  }

  lemma WordHasNoBracket(w: string, k: nat)
    ensures Word(w) && k < |w| ==> w[k] != '<' && w[k] != '>'
  {
  }

  lemma SameAt(s: string, pat: string, i: nat, k: nat)
    ensures i <= k < i + |pat| <= |s| && s[i..i + |pat|] == pat ==> s[k] == pat[k - i]
  {
    if i <= k < i + |pat| <= |s| && s[i..i + |pat|] == pat {
      assert s[i..i + |pat|][k - i] == s[k];
    }
  }

  /** A bracketed word is found at the head of a bracketed list only as its
      first entry, since `<` never occurs inside an entry. */
  lemma OccursBracketedHead(name: string, n: string, rest: string)
    requires Word(name) && Word(n)
    requires Occurs(Bracket(name), Bracket(n) + rest)
    ensures name == n || Occurs(Bracket(name), rest)
  {
    var pat := Bracket(name);
    var s := Bracket(n) + rest;
    var i :| 0 <= i <= |s| - |pat| && OccursAt(pat, s, i);
    assert s[i] == '<';
    if i == 0 {
      if |name| < |n| {
        WordHasNoBracket(n, |name|);
        SameAt(s, pat, 0, |name| + 1);
        assert false;
      } else if |name| > |n| {
        WordHasNoBracket(name, |n|);
        SameAt(s, pat, 0, |n| + 1);
        assert false;
      }
      assert name == s[1..|n| + 1] == n;
    } else if i <= |n| {
      assert false;
    } else if i == |n| + 1 {
      assert false;
    } else {
      var j := i - |n| - 2;
      assert rest[j..j + |pat|] == s[i..i + |pat|];
      assert OccursAt(pat, rest, j);
    }
  }

  lemma {:induction false} OccursBracketed(name: string, names: seq<string>)
    requires Word(name) && forall k :: 0 <= k < |names| ==> Word(names[k])
    ensures Occurs(Bracket(name), Bracketed(names)) <==> name in names
  {
    var pat := Bracket(name);
    if |names| > 0 {
      var s := Bracketed(names);
      OccursBracketed(name, names[1..]);
      if Occurs(pat, s) {
        OccursBracketedHead(name, names[0], Bracketed(names[1..]));
      }
      if name == names[0] {
        assert OccursAt(pat, s, 0);
      } else if name in names[1..] {
        var rest := Bracketed(names[1..]);
        var j :| 0 <= j <= |rest| - |pat| && OccursAt(pat, rest, j);
        var i := j + |Bracket(names[0])|;
        assert s[i..i + |pat|] == rest[j..j + |pat|];
        assert OccursAt(pat, s, i);
      }
    }
  }

  /** The search string lists the ignored names, each between brackets. */
  lemma IgnoredTagsListed()
    ensures IgnoredTags == Bracketed(IgnoredNames)
    ensures forall k :: 0 <= k < |IgnoredNames| ==> Word(IgnoredNames[k])
  {
    var names := IgnoredNames;
    assert Bracketed(names[4..]) == "<hr>" by { assert names[4..][1..] == []; }
    assert Bracketed(names[3..]) == "<li>" + "<hr>" by { assert names[3..][1..] == names[4..]; }
    assert Bracketed(names[2..]) == "<br>" + "<li><hr>" by { assert names[2..][1..] == names[3..]; }
    assert Bracketed(names[1..]) == "<img>" + "<br><li><hr>" by { assert names[1..][1..] == names[2..]; }
  }

  /** Searching the list for `<name>` finds exactly the five ignored names. */
  lemma IgnoredBySearch(name: string)
    requires Word(name)
    ensures Occurs(Bracket(name), IgnoredTags) <==> Ignored(name)
  {
    IgnoredTagsListed();
    OccursBracketed(name, IgnoredNames);
  }

  /** Without deletions the text is unchanged. */
  lemma {:induction false} ExciseKeepAll(s: string, spans: seq<Span>, drop: seq<bool>, k: nat, from: nat)
    requires WellSpanned(s, spans, 0) && k <= |spans| && from <= |s|
    requires k < |spans| ==> from <= spans[k].start
    requires forall m :: k <= m < |drop| && m < |spans| ==> !drop[m]
    ensures Excise(s, spans, drop, k, from) == s[from..]
    decreases |spans| - k
  {
    if k < |spans| {
      ExciseKeepAll(s, spans, drop, k + 1, spans[k].end);
      assert s[from..spans[k].start] + s[spans[k].start..spans[k].end] + s[spans[k].end..] == s[from..];
    }
  }

  /** The tags are read off the lower-cased text one for one. */
  lemma TokensLower(s: string)
    ensures |Tokens(Lower(s))| == |Tokens(s)|
    ensures forall k :: 0 <= k < |Tokens(s)| ==> Tokens(Lower(s))[k] == Lower(Tokens(s)[k])
  {
    TagSpansIgnoreCase(s, 0);
    var spans := TagSpans(s, 0);
    forall k | 0 <= k < |spans|
      ensures Tokens(Lower(s))[k] == Lower(Tokens(s)[k])
    {
      LowerSlice(s, spans[k].start, spans[k].end);
    }
  }

  /** Some opener before position `c` took the closer at `j`. */
  predicate TakenBefore(toks: seq<string>, j: nat, c: nat)
    requires c <= |toks|
  {
    exists o :: 0 <= o < c && VerdictAt(toks, o) == Pair(j)
  }

  /** The closers taken before `c` are those some earlier opener paired with. */
  lemma {:induction false} PairedMeans(toks: seq<string>, c: nat)
    requires c <= |toks|
    ensures forall j :: j in Paired(toks, c) <==> TakenBefore(toks, j, c)
    decreases c
  {
    if c > 0 {
      PairedMeans(toks, c - 1);
      var v := VerdictAt(toks, c - 1);
      forall j
        ensures j in Paired(toks, c) <==> TakenBefore(toks, j, c)
      {
        if j in Paired(toks, c - 1) {
          var o :| 0 <= o < c - 1 && VerdictAt(toks, o) == Pair(j);
          assert 0 <= o < c && VerdictAt(toks, o) == Pair(j);
        } else if v == Pair(j) {
          assert 0 <= c - 1 < c && VerdictAt(toks, c - 1) == Pair(j);
        }
      }
    }
  }

  /** Every closer is taken by at most one opener. */
  lemma CloserTakenOnce(toks: seq<string>, o1: nat, o2: nat, j: nat)
    requires o1 < |toks| && o2 < |toks|
    requires VerdictAt(toks, o1) == Pair(j) && VerdictAt(toks, o2) == Pair(j)
    ensures o1 == o2
  {
    if o1 < o2 {
      PairedMeans(toks, o2);
      assert TakenBefore(toks, j, o2);
    } else if o2 < o1 {
      PairedMeans(toks, o1);
      assert TakenBefore(toks, j, o1);
    }
  }

  /** A taken closer is passed over when the loop reaches it, so it is kept. */
  lemma TakenCloserKept(toks: seq<string>, o: nat, j: nat)
    requires o < |toks| && VerdictAt(toks, o) == Pair(j)
    ensures j < |toks| && VerdictAt(toks, j) == Skip
  {
    PairedMeans(toks, j);
    assert TakenBefore(toks, j, j);
  }

  /** Which tags are deleted: never one of the five ignored names; a
      closing tag exactly when no earlier opener took it; an opening tag
      exactly when every later `</name>` of its name was already taken. */
  lemma WhatIsRemoved(toks: seq<string>, k: nat)
    requires k < |toks|
    ensures Marks(toks)[k] <==>
              !Ignored(Name(toks[k]))
              && (if IsCloser(toks[k]) then !TakenBefore(toks, k, k)
                  else forall j :: k < j < |toks| && toks[j] == CloserFor(Name(toks[k])) ==> TakenBefore(toks, j, k))
  {
    PairedMeans(toks, k);
    if !IsCloser(toks[k]) && TakenBefore(toks, k, k) {
      assert false;
    }
  }

  /** After balancing, the kept tags pair up: a kept opener's closer is
      kept, and a kept closer was taken by an earlier opener, which is kept.
      The five ignored names stand alone. */
  lemma KeptTagsPairUp(toks: seq<string>)
    ensures forall o :: 0 <= o < |toks| && !Marks(toks)[o] && !Ignored(Name(toks[o])) && !IsCloser(toks[o]) ==>
              exists j :: o < j < |toks| && VerdictAt(toks, o) == Pair(j) && !Marks(toks)[j]
    ensures forall j :: 0 <= j < |toks| && !Marks(toks)[j] && !Ignored(Name(toks[j])) && IsCloser(toks[j]) ==>
              exists o :: 0 <= o < j && VerdictAt(toks, o) == Pair(j) && !Marks(toks)[o]
  {
    forall o | 0 <= o < |toks| && !Marks(toks)[o] && !Ignored(Name(toks[o])) && !IsCloser(toks[o])
      ensures exists j :: o < j < |toks| && VerdictAt(toks, o) == Pair(j) && !Marks(toks)[j]
    {
      PairedMeans(toks, o);
      if TakenBefore(toks, o, o) {
        assert false;
      }
      var j := VerdictAt(toks, o).closer;
      TakenCloserKept(toks, o, j);
    }
    forall j | 0 <= j < |toks| && !Marks(toks)[j] && !Ignored(Name(toks[j])) && IsCloser(toks[j])
      ensures exists o :: 0 <= o < j && VerdictAt(toks, o) == Pair(j) && !Marks(toks)[o]
    {
      PairedMeans(toks, j);
      var o :| 0 <= o < j && VerdictAt(toks, o) == Pair(j);
    }
  }

  /** The characters deleted from `from` on: the lengths of the marked spans. */
  function DroppedLength(spans: seq<Span>, drop: seq<bool>, k: nat): int
    requires k <= |spans|
    decreases |spans| - k
  {
    if k == |spans| then 0
    else (if k < |drop| && drop[k] then spans[k].end - spans[k].start else 0) + DroppedLength(spans, drop, k + 1)
  }

  /** Deleting shortens the text by exactly the marked spans. */
  lemma {:induction false} ExciseLength(s: string, spans: seq<Span>, drop: seq<bool>, k: nat, from: nat)
    requires WellSpanned(s, spans, 0) && k <= |spans| && from <= |s|
    requires k < |spans| ==> from <= spans[k].start
    ensures |Excise(s, spans, drop, k, from)| == |s| - from - DroppedLength(spans, drop, k)
    decreases |spans| - k
  {
    if k < |spans| {
      ExciseLength(s, spans, drop, k + 1, spans[k].end);
    }
  }

  /** With nothing marked, balancing returns its input: in particular text
      without tags, and text whose tags all pair up. */
  lemma BalanceNothingMarked(html: string)
    requires true !in Marks(Tokens(Lower(html)))
    ensures Balance(html) == html
  {
    TagSpansIgnoreCase(html, 0);
    ExciseKeepAll(html, TagSpans(html, 0), Marks(Tokens(Lower(html))), 0, 0);
  }

  /** Text in which the scan finds no tag comes back as it is. */
  lemma BalanceWithoutTags(html: string)
    requires TagSpans(html, 0) == []
    ensures Balance(html) == html
  {
    TagSpansIgnoreCase(html, 0);
    BalanceNothingMarked(html);
  }

  /** Balancing removes exactly the characters of the marked tags. */
  lemma BalanceLength(html: string)
    ensures |Balance(html)| == |html| - DroppedLength(TagSpans(html, 0), Marks(Tokens(Lower(html))), 0)
  {
    ExciseLength(html, TagSpans(html, 0), Marks(Tokens(Lower(html))), 0, 0);
  }

  /** Text where no tag begins holds no tag. */
  lemma {:induction false} NoTagsBetween(s: string, i: nat, j: nat)
    requires i <= j <= |s|
    requires forall k :: i <= k < j ==> !OpensTag(s, k)
    ensures TagSpans(s, i) == TagSpans(s, j)
    decreases j - i
  {
    if i < j {
      NoTagsBetween(s, i + 1, j);
    }
  }

  /** Text holding exactly one tag, from `i` to the `>` just before `e`. */
  lemma SingleTagSpans(s: string, i: nat, e: nat)
    requires i + 1 < e - 1 && e <= |s| && OpensTag(s, i)
    requires s[e - 1] == '>' && forall k :: i < k < e - 1 ==> s[k] != '>'
    requires forall k :: 0 <= k < i ==> !OpensTag(s, k)
    requires forall k :: e <= k < |s| ==> !OpensTag(s, k)
    ensures TagSpans(s, 0) == [Span(i, e)]
  {
    NoTagsBetween(s, 0, i);
    IndexFromIs(s, '>', i + 1, e - 1);
    assert TokenEnd(s, i) == e;
    NoTagsBetween(s, e, |s|);
    assert TagSpans(s, e) == [];
    assert TagSpans(s, i) == [Span(i, e)] + TagSpans(s, e);
  }

  const Nested := "<b><i></b>"

  lemma NestedSpans()
    ensures TagSpans(Nested, 0) == [Span(0, 3), Span(3, 6), Span(6, 10)]
  {
    var s := Nested;
    IndexFromIs(s, '>', 1, 2);
    IndexFromIs(s, '>', 4, 5);
    IndexFromIs(s, '>', 7, 9);
    assert TagSpans(s, 6) == [Span(6, 10)];
    assert TagSpans(s, 3) == [Span(3, 6), Span(6, 10)];
  }

  lemma NestedSlices()
    ensures Nested[0..3] == "<b>" && Nested[3..6] == "<i>" && Nested[6..10] == "</b>"
  {
  }

  lemma NestedTokens()
    ensures Tokens(Lower(Nested)) == ["<b>", "<i>", "</b>"]
  {
    NestedLower();
    NestedRawTokens();
  }

  lemma NestedLower()
    ensures Lower(Nested) == Nested
  {
    var s := Nested;
    assert |s| == 10;
    assert forall i :: 0 <= i < |s| ==> s[i] in "<>/bi";
    LowerUnchanged(s);
  }

  lemma NestedRawTokens()
    ensures Tokens(Nested) == ["<b>", "<i>", "</b>"]
  {
    var toks := Tokens(Nested);
    NestedSpans();
    NestedSlices();
    assert |toks| == 3;
    assert toks[0] == "<b>";
    assert toks[1] == "<i>";
    assert toks[2] == "</b>";
  }

  lemma NestedMarks()
    ensures Marks(["<b>", "<i>", "</b>"]) == [false, true, false]
  {
    var toks := ["<b>", "<i>", "</b>"];
    assert Name("<b>") == "b" && Name("<i>") == "i" && Name("</b>") == "b";
    assert !Ignored("b") && !Ignored("i");
    assert FindCloser(toks, CloserFor("b"), {}, 1) == Some(2);
    assert Run(toks, 1) == Pass([Pair(2)], {2});
    assert FindCloser(toks, CloserFor("i"), {2}, 2) == None;
    assert Run(toks, 2) == Pass([Pair(2), Remove], {2});
    assert Run(toks, 3) == Pass([Pair(2), Remove, Skip], {2});
    RunVerdicts(toks, 3);
  }

  lemma NestedExcise()
    ensures WellSpanned(Nested, [Span(0, 3), Span(3, 6), Span(6, 10)], 0)
    ensures Excise(Nested, [Span(0, 3), Span(3, 6), Span(6, 10)], [false, true, false], 0, 0)
            == "<b></b>"
  {
    var s := Nested;
    var spans := [Span(0, 3), Span(3, 6), Span(6, 10)];
    var drop := [false, true, false];
    NestedSlices();
    assert Excise(s, spans, drop, 3, 10) == [];
    assert Excise(s, spans, drop, 1, 3) == s[6..10];
    assert Excise(s, spans, drop, 0, 0) == s[0..3] + s[6..10];
    assert "<b>" + "</b>" == "<b></b>";
  }

  /** An opener whose closer is taken by an outer pair is deleted; the
      outer pair stays. */
  lemma UnclosedInnerDeleted()
    ensures Balance(Nested) == "<b></b>"
  {
    NestedSpans();
    NestedTokens();
    NestedMarks();
    NestedExcise();
  }

  /** A tag on its own is removed unless its name is ignored: an opener
      finds no closer, and a closer was taken by no opener. */
  lemma LoneTagMarks(t: string)
    ensures Marks([t]) == [!Ignored(Name(t))]
  {
    var toks := [t];
    assert FindCloser(toks, CloserFor(Name(t)), {}, 1) == None;
    assert Run(toks, 1).verdicts == [Step(toks, 0, {})];
    RunVerdicts(toks, 1);
  }

  /** With a single tag, marked for removal, balancing cuts exactly that tag. */
  lemma BalanceOneTag(html: string, i: nat, e: nat)
    requires i < e <= |html|
    requires TagSpans(html, 0) == [Span(i, e)]
    requires !Ignored(Name(Lower(html)[i..e]))
    ensures Balance(html) == html[..i] + html[e..]
  {
    TagSpansIgnoreCase(html, 0);
    var low := Lower(html);
    var t := low[i..e];
    assert Tokens(low) == [t];
    LoneTagMarks(t);
    assert Marks(Tokens(low)) == [true];
    ExciseOne(html, i, e);
  }

  /** The same, for text written without capitals. */
  lemma BalanceOneLowerTag(html: string, i: nat, e: nat)
    requires forall k :: 0 <= k < |html| ==> !('A' <= html[k] <= 'Z')
    requires i < e <= |html|
    requires TagSpans(html, 0) == [Span(i, e)]
    requires !Ignored(Name(html[i..e]))
    ensures Balance(html) == html[..i] + html[e..]
  {
    LowerUnchanged(html);
    BalanceOneTag(html, i, e);
  }

  lemma OneSpan(s: string, i: nat, e: nat)
    requires i < e <= |s|
    ensures WellSpanned(s, [Span(i, e)], 0)
  {
  }

  lemma ExciseOne(s: string, i: nat, e: nat)
    requires i < e <= |s|
    ensures WellSpanned(s, [Span(i, e)], 0)
    ensures Excise(s, [Span(i, e)], [true], 0, 0) == s[..i] + s[e..]
  {
    OneSpan(s, i, e);
    ExciseHead(s, [Span(i, e)], [true]);
  }

  /** Cutting the first span alone. */
  lemma ExciseHead(s: string, spans: seq<Span>, drop: seq<bool>)
    requires |spans| == 1 && |drop| == 1 && drop[0]
    requires WellSpanned(s, spans, 0)
    ensures Excise(s, spans, drop, 0, 0) == s[..spans[0].start] + s[spans[0].end..]
  {
    var i, e := spans[0].start, spans[0].end;
    var rest := Excise(s, spans, drop, 1, e);
    assert rest == s[e..];
    assert Excise(s, spans, drop, 0, 0) == s[0..i] + [] + rest;
  }

  lemma BoldNames()
    ensures Name("<b>") == "b" && Name("</b>") == "b" && !Ignored("b")
  {
  }

  /** A closer that no opener takes is deleted. */
  lemma StrayCloserDeleted()
    ensures Balance("x</b>") == "x"
  {
    var s := "x</b>";
    SingleTagSpans(s, 1, 5);
    assert s[1..5] == "</b>" && s[..1] == "x" && s[5..] == [];
    BoldNames();
    BalanceOneLowerTag(s, 1, 5);
  }

  /** An opener with no closer is deleted. */
  lemma LoneOpenerDeleted()
    ensures Balance("<b>") == ""
  {
    var s := "<b>";
    SingleTagSpans(s, 0, 3);
    assert s[0..3] == "<b>";
    BoldNames();
    BalanceOneLowerTag(s, 0, 3);
  }

  const Joined := "<<b>b>"

  lemma JoinedSlices()
    ensures Joined[1..4] == "<b>" && Joined[..1] == "<" && Joined[4..] == "b>"
    ensures Joined[..1] + Joined[4..] == "<b>"
  {
  }

  /** Deleting a tag can join the text around it into a new tag. */
  lemma DeletionJoinsTag()
    ensures Balance(Joined) == "<b>"
  {
    var s := Joined;
    SingleTagSpans(s, 1, 4);
    JoinedSlices();
    BoldNames();
    BalanceOneLowerTag(s, 1, 4);
  }

  /** A second pass deletes the tag the first one made: balancing is not
      idempotent. */
  lemma BalanceNotIdempotent()
    ensures Balance(Balance(Joined)) != Balance(Joined)
  {
    DeletionJoinsTag();
    LoneOpenerDeleted();
  }

  lemma BreakTokens()
    ensures Tokens(Lower("<br>")) == ["<br>"] && Ignored(Name("<br>"))
  {
    var s := "<br>";
    LowerUnchanged(s);
    SingleTagSpans(s, 0, 4);
    assert s[0..4] == s;
    assert Name(s) == "br";
  }

  /** A tag the pass ignores stays, even with no partner. */
  lemma LoneBreakKept()
    ensures Balance("<br>") == "<br>"
  {
    var s := "<br>";
    BreakTokens();
    LoneTagMarks(s);
    BalanceNothingMarked(s);
  }
}
