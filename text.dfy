/** Character classes, ASCII case folding and token extents shared by the
    sanitizer and the balancer. Strings are sequences of characters; the
    regular expressions of Markdown.Sanitizer.js are replaced by the
    recognisers built from these pieces. */
module Text {

  datatype Option<T> = None | Some(value: T)

  /** JavaScript's `\s`: WhiteSpace and LineTerminator characters. */
  predicate IsSpace(c: char) {
    c == ' ' || c == '\t' || c == '\n' || c == '\U{000B}' || c == '\U{000C}' || c == '\r'
    || c == '\U{00A0}' || c == '\U{1680}' || ('\U{2000}' <= c <= '\U{200A}')
    || c == '\U{2028}' || c == '\U{2029}' || c == '\U{202F}' || c == '\U{205F}'
    || c == '\U{3000}' || c == '\U{FEFF}'
  }

  /** The characters at which JavaScript's `.` stops. */
  predicate IsLineTerminator(c: char) {
    c == '\n' || c == '\r' || c == '\U{2028}' || c == '\U{2029}'
  }

  /** JavaScript's `\d`. */
  predicate IsDigit(c: char) {
    '0' <= c <= '9'
  }

  /** JavaScript's `\w`. */
  predicate IsWordChar(c: char) {
    'a' <= c <= 'z' || 'A' <= c <= 'Z' || IsDigit(c) || c == '_'
  }

  predicate AllDigits(s: string) {
    forall i :: 0 <= i < |s| ==> IsDigit(s[i])
  }

  /** ASCII lower-casing of one character; every other character is kept. */
  function LowerChar(c: char): (d: char)
    ensures 'A' <= c <= 'Z' ==> 'a' <= d <= 'z' && d as int - c as int == 32
    ensures !('A' <= c <= 'Z') ==> d == c
  {
    if 'A' <= c <= 'Z' then (c as int + 32) as char else c
  }

  /** Lower-casing as `toLowerCase`, restricted to ASCII: length-preserving,
      character by character. */
  function Lower(s: string): (r: string)
    ensures |r| == |s|
    ensures forall i :: 0 <= i < |s| ==> r[i] == LowerChar(s[i])
  {
    seq(|s|, i requires 0 <= i < |s| => LowerChar(s[i]))
  }

  /** `lit` (written in lower case) is a prefix of `s` up to ASCII case. */
  predicate StartsCI(s: string, lit: string) {
    |lit| <= |s| && forall i :: 0 <= i < |lit| ==> LowerChar(s[i]) == lit[i]
  }

  /** `s` equals `lit` (written in lower case) up to ASCII case. */
  predicate EqCI(s: string, lit: string) {
    |s| == |lit| && StartsCI(s, lit)
  }

  /** The first index at or after `from` holding `c`, or `|s|` if there is none. */
  function IndexFrom(s: string, c: char, from: nat): (j: nat)
    requires from <= |s|
    ensures from <= j <= |s|
    ensures j < |s| ==> s[j] == c
    ensures forall k :: from <= k < j ==> s[k] != c
    decreases |s| - from
  {
    if from == |s| then |s|
    else if s[from] == c then from
    else IndexFrom(s, c, from + 1)
  }

  /** Where a token that starts with the `<` at `i` ends: just past the next
      `>`, or at the end of the string when no `>` follows. Both `<[^>]*>?`
      and `<\/?\w+[^>]*(\s|$|>)` match exactly this far. */
  function TokenEnd(s: string, i: nat): (e: nat)
    requires i < |s|
    ensures i < e <= |s|
    ensures forall k :: i < k < e - 1 ==> s[k] != '>'
    ensures (i < e - 1 && s[e - 1] == '>') || (e == |s| && forall k :: i < k < |s| ==> s[k] != '>')
  {
    var g := IndexFrom(s, '>', i + 1);
    if g < |s| then g + 1 else |s|
  }

  lemma LowerCharClasses(c: char)
    ensures IsSpace(LowerChar(c)) == IsSpace(c)
    ensures IsDigit(LowerChar(c)) == IsDigit(c)
    ensures IsWordChar(LowerChar(c)) == IsWordChar(c)
    ensures IsLineTerminator(LowerChar(c)) == IsLineTerminator(c)
    ensures LowerChar(LowerChar(c)) == LowerChar(c)
    ensures (LowerChar(c) == c) == !('A' <= c <= 'Z')
  {
  }

  /** Lower-casing commutes with slicing. */
  lemma LowerSlice(s: string, a: nat, b: nat)
    requires a <= b <= |s|
    ensures Lower(s)[a..b] == Lower(s[a..b])
  {
  }

  /** Lower-casing leaves digits where they are. */
  lemma DigitsLowerSlice(s: string, a: nat, b: nat)
    requires a <= b <= |s|
    ensures AllDigits(Lower(s)[a..b]) == AllDigits(s[a..b])
  {
    LowerSlice(s, a, b);
    var v := s[a..b];
    forall i | 0 <= i < |v| {
      LowerCharClasses(v[i]);
    }
  }

  lemma LowerDrop(s: string, a: nat)
    requires a <= |s|
    ensures Lower(s)[a..] == Lower(s[a..])
  {
  }

  /** Lower-casing leaves `<`, `>`, `/` and `"` where they are, so every
      token boundary found in a string is found in its lower-cased form. */
  lemma {:induction false} IndexFromLower(s: string, c: char, from: nat)
    requires from <= |s|
    requires !('A' <= c <= 'Z') && !('a' <= c <= 'z')
    ensures IndexFrom(Lower(s), c, from) == IndexFrom(s, c, from)
    decreases |s| - from
  {
    if from < |s| && s[from] != c {
      IndexFromLower(s, c, from + 1);
    }
  }

  lemma TokenEndLower(s: string, i: nat)
    requires i < |s|
    ensures TokenEnd(Lower(s), i) == TokenEnd(s, i)
  {
    IndexFromLower(s, '>', i + 1);
  }

  /** Searching a prefix finds what the whole string has before the cut. */
  lemma {:induction false} IndexFromPrefix(s: string, c: char, from: nat, n: nat)
    requires from <= n <= |s|
    ensures IndexFrom(s[..n], c, from) == if IndexFrom(s, c, from) < n then IndexFrom(s, c, from) else n
    decreases n - from
  {
    if from < n && s[from] != c {
      IndexFromPrefix(s, c, from + 1, n);
    }
  }

  /** A token in a prefix ends where it ends in the whole string, or at the cut. */
  lemma TokenEndPrefix(s: string, i: nat, n: nat)
    requires i < n <= |s|
    ensures TokenEnd(s[..n], i) == if TokenEnd(s, i) < n then TokenEnd(s, i) else n
  {
    IndexFromPrefix(s, '>', i + 1, n);
  }

  /** A token closed by a `>` inside `a` is not extended by what follows `a`. */
  lemma TokenEndAppend(a: string, b: string, i: nat)
    requires i < |a| && a[TokenEnd(a, i) - 1] == '>' && i < TokenEnd(a, i) - 1
    ensures TokenEnd(a + b, i) == TokenEnd(a, i)
  {
    assert (a + b)[..|a|] == a;
    TokenEndPrefix(a + b, i, |a|);
  }

  /** The first `c` at or after `from` is where `IndexFrom` stops. */
  lemma {:induction false} IndexFromIs(s: string, c: char, from: nat, j: nat)
    requires from <= j < |s| && s[j] == c
    requires forall k :: from <= k < j ==> s[k] != c
    ensures IndexFrom(s, c, from) == j
    decreases j - from
  {
    if from < j {
      IndexFromIs(s, c, from + 1, j);
    }
  }

  /** Text without capitals is its own lower-cased form. */
  lemma LowerUnchanged(s: string)
    requires forall i :: 0 <= i < |s| ==> !('A' <= s[i] <= 'Z')
    ensures Lower(s) == s
  {
  }

  /** Concatenation is associative. */
  lemma AppendAssoc<T>(a: seq<T>, b: seq<T>, c: seq<T>)
    ensures (a + b) + c == a + (b + c)
  {
  }

  /** Dropping a prefix and cutting commute. */
  lemma DropTake(s: string, a: nat, b: nat)
    requires a <= b <= |s|
    ensures s[a..][..b - a] == s[..b][a..]
    ensures s[..b][..a] == s[..a]
  {
  }

  /** With no `>` after it, a token runs to the end of the string. */
  lemma TokenEndUnclosed(s: string, i: nat)
    requires i < |s|
    requires forall k :: i < k < |s| ==> s[k] != '>'
    ensures TokenEnd(s, i) == |s|
  {
  }
}
