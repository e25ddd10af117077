/** The rich-text conversion that parseActivity applies to an outgoing text:
    four global, lazy, case-insensitive, dot-all regular-expression
    replacements `/<tag>(.*?)<\/tag>/gis` -> `mark$1mark`, for bold, italic,
    strike-through and code, in that order. */
module Markup {
  import opened Common

  function Open(tag: string): string {
    "<" + tag + ">"
  }

  function Close(tag: string): string {
    "</" + tag + ">"
  }

  /** The case-insensitive literal `t` (written in lower case) occurs in `s` at offset `i`.
      Under the non-Unicode `i` flag only ASCII letters fold onto the tag letters. */
  predicate MatchesAt(s: string, i: nat, t: string): (b: bool)
    ensures b ==> i + |t| <= |s|
    decreases |t|
  {
    if t == [] then i <= |s|
    else i < |s| && LowerChar(s[i]) == t[0] && MatchesAt(s, i + 1, t[1..])
  }

  /** The first offset at or after `from` where `t` occurs: where the lazy
      `(.*?)` stops. */
  function FindFrom(s: string, t: string, from: nat): (r: Option<nat>)
    ensures r.Some? ==> from <= r.value && MatchesAt(s, r.value, t)
    decreases |s| - from
  {
    if from + |t| > |s| then None
    else if MatchesAt(s, from, t) then Some(from)
    else FindFrom(s, t, from + 1)
  }

  /** No occurrence of `t` lies between `from` and the one found, and none at
      all at or after `from` when nothing is found: the match is the shortest. */
  lemma {:induction false} FindFromFirst(s: string, t: string, from: nat, k: nat)
    requires from <= k
    requires FindFrom(s, t, from).None? || k < FindFrom(s, t, from).value
    ensures !MatchesAt(s, k, t)
    decreases |s| - from
  {
    if from + |t| <= |s| && !MatchesAt(s, from, t) && from < k {
      FindFromFirst(s, t, from + 1, k);
    }
  }

  /** The regular expression matches at offset `i`: an opening tag there and a
      closing tag somewhere after it. */
  predicate PairStartsAt(s: string, i: nat, tag: string) {
    MatchesAt(s, i, Open(tag)) && FindFrom(s, Close(tag), i + |Open(tag)|).Some?
  }

  /** `s` holds a `<tag>...</tag>` pair starting at or after offset `i`. */
  predicate HasPairFrom(s: string, i: nat, tag: string) {
    exists k :: i <= k < |s| && PairStartsAt(s, k, tag)
  }

  /** `s` contains at least one `<tag>...</tag>` pair. */
  predicate HasPair(s: string, tag: string) {
    HasPairFrom(s, 0, tag)
  }

  /** The replacement of every match at or after offset `i`, the scan of
      `String.prototype.replace` with a global regular expression: where the
      expression matches, the match is replaced and the scan resumes after it;
      elsewhere one character is copied and the scan moves on by one. */
  function RewriteFrom(s: string, i: nat, tag: string, mark: string): string
    requires i <= |s|
    decreases |s| - i
  {
    if i == |s| then []
    else if PairStartsAt(s, i, tag) then
      var j := FindFrom(s, Close(tag), i + |Open(tag)|).value;
      mark + s[i + |Open(tag)|..j] + mark + RewriteFrom(s, j + |Close(tag)|, tag, mark)
    else
      [s[i]] + RewriteFrom(s, i + 1, tag, mark)
  }

  /** `s.replace(/<tag>(.*?)<\/tag>/gis, mark + '$1' + mark)`. */
  function Rewrite(s: string, tag: string, mark: string): string {
    RewriteFrom(s, 0, tag, mark)
  }

  /** The four replacements of parseActivity, in the order they are applied. */
  function WhatsAppMarkup(text: string): string {
    Rewrite(Rewrite(Rewrite(Rewrite(text, "b", "*"), "i", "_"), "s", "~"), "code", "```")
  }

  /** The first case-insensitive occurrence of `t` in `s` at or after `from`. */
  method IndexOfFrom(s: string, t: string, from: nat) returns (r: Option<nat>)
    ensures r == FindFrom(s, t, from)
  {
    var k := from;
    while k + |t| <= |s|
      invariant from <= k
      invariant FindFrom(s, t, from) == FindFrom(s, t, k)
      decreases |s| - k
    {
      if MatchesAt(s, k, t) {
        return Some(k);
      }
      k := k + 1;
    }
    return None;
  }

  /** One global replacement, scanning the text left to right as the regular
      expression engine does: `i` is the engine's `lastIndex`. */
  method ReplaceTagPairs(s: string, tag: string, mark: string) returns (r: string)
    ensures r == Rewrite(s, tag, mark)
  {
    var open, close := Open(tag), Close(tag);
    r := [];
    var i := 0;
    while i < |s|
      invariant i <= |s|
      invariant r + RewriteFrom(s, i, tag, mark) == Rewrite(s, tag, mark)
      decreases |s| - i
    {
      var j := None;
      if MatchesAt(s, i, open) {
        j := IndexOfFrom(s, close, i + |open|);
      }
      if j.Some? {
        r, i := r + (mark + s[i + |open|..j.value] + mark), j.value + |close|;
      } else {
        r, i := r + [s[i]], i + 1;
      }
    }
  }

  /** Text without a `<tag>...</tag>` pair from offset `i` on is copied unchanged. */
  lemma {:induction false} RewriteFromWithoutPair(s: string, i: nat, tag: string, mark: string)
    requires i <= |s| && !HasPairFrom(s, i, tag)
    ensures RewriteFrom(s, i, tag, mark) == s[i..]
    decreases |s| - i
  {
    if i < |s| {
      assert !PairStartsAt(s, i, tag);
      assert !HasPairFrom(s, i + 1, tag);
      RewriteFromWithoutPair(s, i + 1, tag, mark);
    }
  }

  /** Every replacement shortens the text (the marks are shorter than the tags). */
  lemma {:induction false} RewriteFromShortens(s: string, i: nat, tag: string, mark: string)
    requires i <= |s|
    requires 2 * |mark| < |Open(tag)| + |Close(tag)|
    ensures |RewriteFrom(s, i, tag, mark)| <= |s| - i
    ensures HasPairFrom(s, i, tag) ==> |RewriteFrom(s, i, tag, mark)| < |s| - i
    decreases |s| - i
  {
    if i == |s| {
    } else if PairStartsAt(s, i, tag) {
      var j := FindFrom(s, Close(tag), i + |Open(tag)|).value;
      RewriteFromUnfold(s, i, j, s[i + |Open(tag)|..j], tag, mark);
      RewriteFromShortens(s, j + |Close(tag)|, tag, mark);
    } else {
      RewriteFromCopy(s, i, tag, mark);
      RewriteFromShortens(s, i + 1, tag, mark);
      if HasPairFrom(s, i, tag) {
        var k :| i <= k < |s| && PairStartsAt(s, k, tag);
        assert HasPairFrom(s, i + 1, tag);
      }
    }
  }

  /** One step of the scan where the expression does not match at offset `i`. */
  lemma RewriteFromCopy(s: string, i: nat, tag: string, mark: string)
    requires i < |s| && !PairStartsAt(s, i, tag)
    ensures RewriteFrom(s, i, tag, mark) == [s[i]] + RewriteFrom(s, i + 1, tag, mark)
  {
  }

  /** A replacement leaves the text as it was exactly when the text holds no tag pair. */
  lemma RewriteUnchangedIff(s: string, tag: string, mark: string)
    requires 2 * |mark| < |Open(tag)| + |Close(tag)|
    ensures Rewrite(s, tag, mark) == s <==> !HasPair(s, tag)
  {
    RewriteFromShortens(s, 0, tag, mark);
    if !HasPair(s, tag) {
      RewriteFromWithoutPair(s, 0, tag, mark);
    }
  }

  lemma {:induction false} MatchesAtShift(s: string, d: nat, i: nat, t: string)
    requires d <= |s|
    ensures MatchesAt(s[d..], i, t) == MatchesAt(s, i + d, t)
    decreases |t|
  {
    if t != [] {
      MatchesAtShift(s, d, i + 1, t[1..]);
    }
  }

  lemma {:induction false} FindFromShift(s: string, d: nat, t: string, k: nat)
    requires d <= |s|
    ensures FindFrom(s[d..], t, k).Some? == FindFrom(s, t, k + d).Some?
    ensures FindFrom(s[d..], t, k).Some? ==> FindFrom(s[d..], t, k).value + d == FindFrom(s, t, k + d).value
    decreases |s| - d - k
  {
    MatchesAtShift(s, d, k, t);
    if k + |t| <= |s| - d && !MatchesAt(s[d..], k, t) {
      FindFromShift(s, d, t, k + 1);
    }
  }

  /** The offset where the scan resumes after offset `i`. */
  function NextOffset(s: string, i: nat, tag: string): (n: nat)
    requires i < |s|
    ensures i < n <= |s|
  {
    if PairStartsAt(s, i, tag) then FindFrom(s, Close(tag), i + |Open(tag)|).value + |Close(tag)| else i + 1
  }

  /** What the scan does from offset `d + k` of `s` depends only on `s[d..]`. */
  lemma {:induction false} RewriteFromSuffix(s: string, d: nat, k: nat, tag: string, mark: string)
    requires d + k <= |s|
    ensures RewriteFrom(s, d + k, tag, mark) == RewriteFrom(s[d..], k, tag, mark)
    decreases |s| - d - k
  {
    if d + k < |s| {
      if PairStartsAt(s[d..], k, tag) {
        var n := NextOffset(s[d..], k, tag);
        RewriteFromSuffix(s, d, n, tag, mark);
        RewriteFromSuffixPair(s, d, k, n, tag, mark);
      } else {
        RewriteFromSuffix(s, d, k + 1, tag, mark);
        RewriteFromSuffixCopy(s, d, k, tag, mark);
      }
    }
  }

  /** The step of `RewriteFromSuffix` where the expression matches. */
  lemma RewriteFromSuffixPair(s: string, d: nat, k: nat, n: nat, tag: string, mark: string)
    requires d + k < |s| && n == NextOffset(s[d..], k, tag) && PairStartsAt(s[d..], k, tag)
    requires RewriteFrom(s, d + n, tag, mark) == RewriteFrom(s[d..], n, tag, mark)
    ensures RewriteFrom(s, d + k, tag, mark) == RewriteFrom(s[d..], k, tag, mark)
  {
    PairCloseShift(s, d, k, tag);
    RewriteFromPairStep(s, d, k, n - |Close(tag)|, tag, mark);
  }

  /** The step of `RewriteFromSuffix` where one character is copied. */
  lemma RewriteFromSuffixCopy(s: string, d: nat, k: nat, tag: string, mark: string)
    requires d + k < |s| && !PairStartsAt(s[d..], k, tag)
    requires RewriteFrom(s, d + k + 1, tag, mark) == RewriteFrom(s[d..], k + 1, tag, mark)
    ensures RewriteFrom(s, d + k, tag, mark) == RewriteFrom(s[d..], k, tag, mark)
  {
    PairStartsAtShift(s, d, k, tag);
    RewriteFromCopyBoth(s, d + k, s[d..], k, tag, mark);
  }

  /** Two scans at offsets holding the same character, where the expression
      matches in neither, agree when the scans after them agree. */
  lemma RewriteFromCopyBoth(a: string, i: nat, b: string, k: nat, tag: string, mark: string)
    requires i < |a| && k < |b| && a[i] == b[k]
    requires !PairStartsAt(a, i, tag) && !PairStartsAt(b, k, tag)
    requires RewriteFrom(a, i + 1, tag, mark) == RewriteFrom(b, k + 1, tag, mark)
    ensures RewriteFrom(a, i, tag, mark) == RewriteFrom(b, k, tag, mark)
  {
    RewriteFromCopy(a, i, tag, mark);
    RewriteFromCopy(b, k, tag, mark);
  }

  lemma PairStartsAtShift(s: string, d: nat, k: nat, tag: string)
    requires d + k < |s|
    ensures PairStartsAt(s[d..], k, tag) == PairStartsAt(s, d + k, tag)
  {
    MatchesAtShift(s, d, k, Open(tag));
    FindFromShift(s, d, Close(tag), k + |Open(tag)|);
  }

  lemma PairCloseShift(s: string, d: nat, k: nat, tag: string)
    requires d + k < |s| && PairStartsAt(s[d..], k, tag)
    ensures PairStartsAt(s, d + k, tag)
    ensures FindFrom(s[d..], Close(tag), k + |Open(tag)|).value + d == FindFrom(s, Close(tag), d + k + |Open(tag)|).value
  {
    MatchesAtShift(s, d, k, Open(tag));
    FindFromShift(s, d, Close(tag), k + |Open(tag)|);
  }

  lemma RewriteFromPairStep(s: string, d: nat, k: nat, j: nat, tag: string, mark: string)
    requires d + k < |s| && PairStartsAt(s, d + k, tag) && PairStartsAt(s[d..], k, tag)
    requires j == FindFrom(s[d..], Close(tag), k + |Open(tag)|).value
    requires d + j == FindFrom(s, Close(tag), d + k + |Open(tag)|).value
    requires RewriteFrom(s, d + j + |Close(tag)|, tag, mark) == RewriteFrom(s[d..], j + |Close(tag)|, tag, mark)
    ensures RewriteFrom(s, d + k, tag, mark) == RewriteFrom(s[d..], k, tag, mark)
  {
    var t := s[d..];
    var inner := t[k + |Open(tag)|..j];
    RewriteFromUnfold(t, k, j, inner, tag, mark);
    assert s[d + k + |Open(tag)|..d + j] == inner;
    RewriteFromUnfold(s, d + k, d + j, inner, tag, mark);
  }

  /** One step of the scan where the expression matches at offset `i`, its
      closing tag is found at offset `j` and `inner` is what lies between. */
  lemma RewriteFromUnfold(s: string, i: nat, j: nat, inner: string, tag: string, mark: string)
    requires i < |s| && PairStartsAt(s, i, tag)
    requires j == FindFrom(s, Close(tag), i + |Open(tag)|).value
    requires i + |Open(tag)| <= j && s[i + |Open(tag)|..j] == inner
    ensures j + |Close(tag)| <= |s|
    ensures RewriteFrom(s, i, tag, mark) == mark + inner + mark + RewriteFrom(s, j + |Close(tag)|, tag, mark)
  {
  }

  lemma {:induction false} MatchesAtPrefix(a: string, b: string, k: nat, t: string)
    requires k + |t| <= |a|
    ensures MatchesAt(a + b, k, t) == MatchesAt(a, k, t)
    decreases |t|
  {
    if t != [] {
      MatchesAtPrefix(a, b, k + 1, t[1..]);
    }
  }

  /** A string whose lower-cased form is `t` spells `t` at the front of any text. */
  lemma {:induction false} MatchesAtLower(o: string, x: string, t: string)
    requires LowerAscii(o) == t
    ensures MatchesAt(o + x, 0, t)
    decreases |t|
  {
    if t != [] {
      assert LowerAscii(o[1..]) == t[1..];
      MatchesAtLower(o[1..], x, t[1..]);
      MatchesAtShift(o + x, 1, 0, t[1..]);
      assert (o + x)[1..] == o[1..] + x;
    }
  }

  /** The first occurrence in `a` stays the first occurrence once more text is appended. */
  lemma FindFromPrefix(a: string, b: string, t: string, p: nat)
    requires FindFrom(a, t, 0) == Some(p)
    ensures FindFrom(a + b, t, 0) == Some(p)
  {
    MatchesAtPrefix(a, b, p, t);
    var q := FindFrom(a + b, t, 0);
    if q.None? || p < q.value {
      FindFromFirst(a + b, t, 0, p);
    }
    if q.value < p {
      MatchesAtPrefix(a, b, q.value, t);
      FindFromFirst(a, t, 0, q.value);
    }
  }

  /** A pair is rewritten to its content between two marks, whatever the case
      of the tags (`<B>` as well as `<b>`), ending at the FIRST closing tag
      after the opening one (the lazy `(.*?)`), and whatever characters the
      content holds, line breaks included (the `s` flag). */
  lemma ShortestMatch(o: string, x: string, c: string, rest: string, tag: string, mark: string)
    requires LowerAscii(o) == Open(tag) && LowerAscii(c) == Close(tag)
    requires FindFrom(x + c, Close(tag), 0) == Some(|x|)
    ensures Rewrite(o + x + c + rest, tag, mark) == mark + x + mark + Rewrite(rest, tag, mark)
  {
    PairAtFront(o, x, c, rest, tag);
    RewritePairAtFront(o + x + c + rest, |o| + |x|, x, rest, tag, mark);
  }

  /** The scan of a text that opens with a pair closing at offset `j`. */
  lemma RewritePairAtFront(s: string, j: nat, x: string, rest: string, tag: string, mark: string)
    requires 0 < |s| && PairStartsAt(s, 0, tag)
    requires j == FindFrom(s, Close(tag), |Open(tag)|).value
    requires |Open(tag)| <= j && s[|Open(tag)|..j] == x
    requires j + |Close(tag)| <= |s| && s[j + |Close(tag)|..] == rest
    ensures Rewrite(s, tag, mark) == mark + x + mark + Rewrite(rest, tag, mark)
  {
    RewriteFromUnfold(s, 0, j, x, tag, mark);
    RewriteFromSuffix(s, j + |Close(tag)|, 0, tag, mark);
  }

  /** The expression matches at the front of `o + x + c + rest`, closing at `c`. */
  lemma PairAtFront(o: string, x: string, c: string, rest: string, tag: string)
    requires LowerAscii(o) == Open(tag) && LowerAscii(c) == Close(tag)
    requires FindFrom(x + c, Close(tag), 0) == Some(|x|)
    ensures |o| == |Open(tag)| && |c| == |Close(tag)|
    ensures PairStartsAt(o + x + c + rest, 0, tag)
    ensures FindFrom(o + x + c + rest, Close(tag), |Open(tag)|) == Some(|o| + |x|)
    ensures (o + x + c + rest)[|o|..|o| + |x|] == x
    ensures (o + x + c + rest)[|o| + |x| + |c|..] == rest
  {
    var s := o + x + c + rest;
    assert s == o + (x + c + rest);
    MatchesAtLower(o, x + c + rest, Open(tag));
    assert s[|o|..] == (x + c) + rest;
    FindFromPrefix(x + c, rest, Close(tag), |x|);
    FindFromShift(s, |o|, Close(tag), 0);
  }

  /** Text holding none of the four tag pairs passes through parseActivity's
      conversion unchanged. */
  lemma MarkupWithoutTags(text: string)
    requires !HasPair(text, "b") && !HasPair(text, "i") && !HasPair(text, "s") && !HasPair(text, "code")
    ensures WhatsAppMarkup(text) == text
  {
    RewriteFromWithoutPair(text, 0, "b", "*");
    RewriteFromWithoutPair(text, 0, "i", "_");
    RewriteFromWithoutPair(text, 0, "s", "~");
    RewriteFromWithoutPair(text, 0, "code", "```");
  }

  /** Text without a `<` from offset `i` on holds no tag pair there. */
  lemma NoPairWithoutBracket(s: string, i: nat, tag: string)
    requires forall k :: i <= k < |s| ==> s[k] != '<'
    ensures !HasPairFrom(s, i, tag)
  {
    forall k | i <= k < |s|
      ensures !PairStartsAt(s, k, tag)
    {
      assert Open(tag)[0] == '<';
    }
  }

  /** Without a `<` between `from` and `p`, the first occurrence of a literal
      starting with `<` at or after `from` is the one at `p`. */
  lemma {:induction false} FindFromBeforeBracket(s: string, t: string, from: nat, p: nat)
    requires from <= p && |t| > 0 && t[0] == '<' && MatchesAt(s, p, t)
    requires forall k :: from <= k < p ==> s[k] != '<'
    ensures FindFrom(s, t, from) == Some(p)
    decreases p - from
  {
    if from < p {
      assert !MatchesAt(s, from, t);
      FindFromBeforeBracket(s, t, from + 1, p);
    }
  }

  /** Bold text, with the tags written in any case, becomes WhatsApp bold
      text; the enclosed text may span lines. */
  lemma BoldBecomesAsterisks(o: string, x: string, c: string)
    requires LowerAscii(o) == Open("b") && LowerAscii(c) == Close("b")
    requires forall k :: 0 <= k < |x| ==> x[k] != '<'
    ensures WhatsAppMarkup(o + x + c) == "*" + x + "*"
  {
    MatchesAtLower(c, [], Close("b"));
    assert c + [] == c;
    MatchesAtShift(x + c, |x|, 0, Close("b"));
    assert (x + c)[|x|..] == c;
    FindFromBeforeBracket(x + c, Close("b"), 0, |x|);
    ShortestMatch(o, x, c, [], "b", "*");
    assert o + x + c + [] == o + x + c;
    var y := "*" + x + "*";
    assert Rewrite(o + x + c, "b", "*") == y;
    NoPairWithoutBracket(y, 0, "i");
    RewriteFromWithoutPair(y, 0, "i", "_");
    NoPairWithoutBracket(y, 0, "s");
    RewriteFromWithoutPair(y, 0, "s", "~");
    NoPairWithoutBracket(y, 0, "code");
    RewriteFromWithoutPair(y, 0, "code", "```");
  }
}
