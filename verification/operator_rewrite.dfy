/** The comparison-operator rewrite of the list handler: every whole word
    `gte`, `gt`, `lte` or `lt` in the serialised filter gains a `$` prefix,
    which is what the global replace with `/\b(gte|gt|lte|lt)\b/` does to the
    JSON text.

    The rewrite is stated per string (one object key or one string value).
    The quote characters that surround each of them in the JSON text are not
    word characters, so the start and the end of the string act as word
    boundaries. Inside the string, a control character is written as an
    escape that ends in a letter or a digit, so the character after it is
    not at a word boundary (`EndsInWordChar`). Word characters are those of
    the regular expression `\w` without the unicode flag: `[A-Za-z0-9_]`.
 */
module OperatorRewrite {

  predicate IsWordChar(c: char) {
    ('a' <= c <= 'z') || ('A' <= c <= 'Z') || ('0' <= c <= '9') || c == '_'
  }

  /** The JSON text of `c` ends in a word character. A word character is
      written as itself. A control character U+0000 to U+001F is written as
      an escape (`\n`, `\t`, `\u0001`) that ends in a letter or a digit. Every
      other character is written as itself, or as `\"` or `\\`, and ends in
      a non-word character. Every escape starts with `\`, which is not a
      word character, so whether there is a boundary just before `c` depends
      only on whether `c` itself is a word character. */
  predicate EndsInWordChar(c: char) {
    IsWordChar(c) || c < ' '
  }

  predicate AllWordChars(w: string) {
    forall i :: 0 <= i < |w| ==> IsWordChar(w[i])
  }

  /** The alternatives of the regular expression, in the order they are tried. */
  const Operators: seq<string> := ["gte", "gt", "lte", "lt"]

  /** `t` occurs at the start of `s` and is followed by a word boundary
      (every operator ends in a word character). */
  predicate FollowedByBoundary(s: string, t: string) {
    t <= s && (|s| == |t| || !IsWordChar(s[|t|]))
  }

  /** Length of the alternative of `(gte|gt|lte|lt)\b` that matches at the
      start of `s`, trying the alternatives in order; 0 when none matches. */
  function MatchLen(s: string): nat {
    if FollowedByBoundary(s, "gte") then 3
    else if FollowedByBoundary(s, "gt") then 2
    else if FollowedByBoundary(s, "lte") then 3
    else if FollowedByBoundary(s, "lt") then 2
    else 0
  }

  /** The longest prefix of `s` made of word characters. */
  function LeadingWord(s: string): (w: string)
    ensures w <= s && AllWordChars(w)
    ensures |w| == |s| || !IsWordChar(s[|w|])
  {
    if |s| > 0 && IsWordChar(s[0]) then [s[0]] + LeadingWord(s[1..]) else []
  }

  lemma {:induction false} LeadingWordAppend(w: string, z: string)
    requires AllWordChars(w)
    ensures LeadingWord(w + z) == w + LeadingWord(z)
  {
    if |w| > 0 {
      assert IsWordChar(w[0]);
      assert (w + z)[0] == w[0] && (w + z)[1..] == w[1..] + z;
      assert LeadingWord(w + z) == [w[0]] + LeadingWord(w[1..] + z);
      LeadingWordAppend(w[1..], z);
      assert w == [w[0]] + w[1..];
    } else {
      assert w + z == z;
    }
  }

  /** A prefix of word characters followed by a boundary is the leading word. */
  lemma BoundaryFixesLeadingWord(s: string, t: string)
    requires AllWordChars(t)
    ensures FollowedByBoundary(s, t) <==> LeadingWord(s) == t
  {
    if FollowedByBoundary(s, t) {
      assert s == t + s[|t|..];
      LeadingWordAppend(t, s[|t|..]);
    }
  }

  /** The ordered alternation matches exactly when the whole word at the
      start of `s` is one of the operators: `gtex` or `lt5` do not match. */
  lemma MatchLenIsWholeWord(s: string)
    ensures MatchLen(s) == (if LeadingWord(s) in Operators then |LeadingWord(s)| else 0)
  {
    BoundaryFixesLeadingWord(s, "gte");
    BoundaryFixesLeadingWord(s, "gt");
    BoundaryFixesLeadingWord(s, "lte");
    BoundaryFixesLeadingWord(s, "lt");
  }

  /** The left-to-right scan of the global replace. `prevWord` says whether the
      JSON text before `s` ends in a word character, i.e. whether the start of
      `s` is NOT a word boundary. */
  function RewriteFrom(s: string, prevWord: bool): string
    decreases |s|
  {
    if |s| == 0 then []
    else if !prevWord && MatchLen(s) > 0 then
      "$" + s[..MatchLen(s)] + RewriteFrom(s[MatchLen(s)..], true)
    else
      [s[0]] + RewriteFrom(s[1..], EndsInWordChar(s[0]))
  }

  /** Undoes the rewrite: drops the `$` in front of every whole-word operator. */
  function RestoreFrom(o: string, prevWord: bool): string
    decreases |o|
  {
    if |o| == 0 then []
    else if !prevWord && o[0] == '$' && MatchLen(o[1..]) > 0 then
      o[1..1 + MatchLen(o[1..])] + RestoreFrom(o[1 + MatchLen(o[1..])..], true)
    else
      [o[0]] + RestoreFrom(o[1..], EndsInWordChar(o[0]))
  }

  /** The JSON text of the character before position `i` ends in a word
      character, so position `i` is not a word boundary. */
  predicate PrevWord(s: string, i: int)
    requires 0 <= i <= |s|
  {
    i > 0 && EndsInWordChar(s[i - 1])
  }

  /** Position `i` starts a whole-word operator: it is a word boundary and the
      word beginning there is one of the four operators. */
  predicate MatchAt(s: string, i: int)
    requires 0 <= i <= |s|
  {
    !PrevWord(s, i) && LeadingWord(s[i..]) in Operators
  }

  /** No whole-word operator occurs anywhere in `s`. */
  predicate OperatorFree(s: string) {
    forall i :: 0 <= i < |s| ==> !MatchAt(s, i)
  }

  /** Declarative form of the rewrite from position `i` on: the characters of
      `s`, with one `$` inserted before every match position. */
  function Marked(s: string, i: int): string
    requires 0 <= i <= |s|
    decreases |s| - i
  {
    if i == |s| then []
    else (if MatchAt(s, i) then "$" else "") + [s[i]] + Marked(s, i + 1)
  }

  /** Number of match positions at or after `i`. */
  function MatchCount(s: string, i: int): nat
    requires 0 <= i <= |s|
    decreases |s| - i
  {
    if i == |s| then 0
    else (if MatchAt(s, i) then 1 else 0) + MatchCount(s, i + 1)
  }

  /** The rewrite applied to one key or one string value of the filter. */
  function Rewrite(s: string): (r: string)
    ensures Restore(r) == s
  {
    RestoreRewriteFrom(s, false);
    RewriteFrom(s, false)
  }

  function Restore(o: string): string {
    RestoreFrom(o, false)
  }

  // ---------------------------------------------------------------------
  // The scan agrees with the declarative form.
  // ---------------------------------------------------------------------

  /** Away from a match `Marked` copies the character. */
  lemma MarkedCopy(s: string, i: int)
    requires 0 <= i < |s| && !MatchAt(s, i)
    ensures Marked(s, i) == [s[i]] + Marked(s, i + 1)
  {
  }

  /** After a word character there is no match, so `Marked` copies the
      character. */
  lemma MarkedAfterWord(s: string, a: int)
    requires 0 < a < |s| && IsWordChar(s[a - 1])
    ensures Marked(s, a) == [s[a]] + Marked(s, a + 1)
  {
    assert PrevWord(s, a);
  }

  /** Inside a word no position is a match, so `Marked` copies it verbatim. */
  lemma {:induction false} MarkedCopies(s: string, a: int, b: int)
    requires 0 < a <= b <= |s|
    requires forall k :: a - 1 <= k < b - 1 ==> IsWordChar(s[k])
    ensures Marked(s, a) == s[a..b] + Marked(s, b)
    decreases b - a
  {
    if a < b {
      MarkedAfterWord(s, a);
      MarkedCopies(s, a + 1, b);
      ConsSlice(s, a, b);
      Regroup([], [s[a]], s[a + 1..b], Marked(s, b));
    }
  }

  /** The leading word at position `i`, read in place in `s`. */
  lemma LeadingWordInPlace(s: string, i: int)
    requires 0 <= i <= |s|
    ensures i + |LeadingWord(s[i..])| <= |s|
    ensures s[i..i + |LeadingWord(s[i..])|] == LeadingWord(s[i..])
    ensures forall k :: i <= k < i + |LeadingWord(s[i..])| ==> IsWordChar(s[k])
  {
    var w := LeadingWord(s[i..]);
    forall k | i <= k < i + |w|
      ensures IsWordChar(s[k])
    {
      assert s[k] == w[k - i];
    }
  }

  /** At a match the declarative form puts a `$` before the character. */
  lemma MarkedDollar(s: string, i: int)
    requires 0 <= i < |s| && MatchAt(s, i)
    ensures Marked(s, i) == "$" + [s[i]] + Marked(s, i + 1)
  {
  }

  /** At a match the declarative form puts a `$` and copies the operator. */
  lemma MarkedAtMatch(s: string, i: int)
    requires 0 <= i < |s| && MatchAt(s, i)
    ensures i + |LeadingWord(s[i..])| <= |s| && PrevWord(s, i + |LeadingWord(s[i..])|)
    ensures Marked(s, i) == "$" + s[i..i + |LeadingWord(s[i..])|] + Marked(s, i + |LeadingWord(s[i..])|)
  {
    var n := |LeadingWord(s[i..])|;
    LeadingWordInPlace(s, i);
    assert n > 0;
    MarkedDollar(s, i);
    MarkedWord(s, i, n);
  }

  /** A `$` followed by the word `s[i..i + n]`, when `Marked` copies the rest
      of that word. */
  lemma MarkedWord(s: string, i: int, n: int)
    requires 0 <= i && 0 < n && i + n <= |s|
    requires forall k :: i <= k < i + n ==> IsWordChar(s[k])
    requires Marked(s, i) == "$" + [s[i]] + Marked(s, i + 1)
    ensures PrevWord(s, i + n)
    ensures Marked(s, i) == "$" + s[i..i + n] + Marked(s, i + n)
  {
    assert IsWordChar(s[i + n - 1]);
    MarkedCopies(s, i + 1, i + n);
    ConsSlice(s, i, i + n);
    Regroup("$", [s[i]], s[i + 1..i + n], Marked(s, i + n));
  }

  lemma ConsSlice(s: string, i: int, j: int)
    requires 0 <= i < j <= |s|
    ensures s[i..j] == [s[i]] + s[i + 1..j]
  {
  }

  lemma Regroup(a: string, b: string, c: string, d: string)
    ensures a + b + (c + d) == a + (b + c) + d
  {
  }

  /** One step of the scan at a match: both forms emit `$` and the operator. */
  lemma ScanStepAtMatch(s: string, i: int)
    requires 0 <= i < |s| && !PrevWord(s, i) && MatchLen(s[i..]) > 0
    ensures i + MatchLen(s[i..]) <= |s| && PrevWord(s, i + MatchLen(s[i..]))
    ensures RewriteFrom(s[i..], PrevWord(s, i))
         == "$" + s[i..i + MatchLen(s[i..])] + RewriteFrom(s[i + MatchLen(s[i..])..], true)
    ensures Marked(s, i) == "$" + s[i..i + MatchLen(s[i..])] + Marked(s, i + MatchLen(s[i..]))
  {
    var t := s[i..];
    var n := MatchLen(t);
    MatchLenIsWholeWord(t);
    assert n == |LeadingWord(t)| && MatchAt(s, i);
    MarkedAtMatch(s, i);
    assert RewriteFrom(t, false) == "$" + t[..n] + RewriteFrom(t[n..], true);
    assert t[..n] == s[i..i + n] && t[n..] == s[i + n..];
  }

  /** `MatchAt` is the scan's own test: a boundary and a non-empty match. */
  lemma MatchAtIsScanTest(s: string, i: int)
    requires 0 <= i <= |s|
    ensures MatchAt(s, i) <==> !PrevWord(s, i) && MatchLen(s[i..]) > 0
  {
    MatchLenIsWholeWord(s[i..]);
    assert forall w :: w in Operators ==> |w| > 0;
  }

  /** One step of the scan elsewhere: both forms copy the character. */
  lemma ScanStepCopy(s: string, i: int)
    requires 0 <= i < |s| && (PrevWord(s, i) || MatchLen(s[i..]) == 0)
    ensures RewriteFrom(s[i..], PrevWord(s, i)) == [s[i]] + RewriteFrom(s[i + 1..], PrevWord(s, i + 1))
    ensures Marked(s, i) == [s[i]] + Marked(s, i + 1)
  {
    var t := s[i..];
    RewriteFromCopy(t, PrevWord(s, i));
    assert t[0] == s[i] && t[1..] == s[i + 1..];
    assert EndsInWordChar(s[i]) == PrevWord(s, i + 1);
    MatchAtIsScanTest(s, i);
    MarkedCopy(s, i);
  }

  /** The scan puts a `$` before a match and copies the operator. */
  lemma RewriteFromAtMatch(t: string)
    requires MatchLen(t) > 0
    ensures RewriteFrom(t, false) == "$" + t[..MatchLen(t)] + RewriteFrom(t[MatchLen(t)..], true)
  {
  }

  /** The scan copies a character that does not start a match. */
  lemma RewriteFromCopy(t: string, prevWord: bool)
    requires |t| > 0 && (prevWord || MatchLen(t) == 0)
    ensures RewriteFrom(t, prevWord) == [t[0]] + RewriteFrom(t[1..], EndsInWordChar(t[0]))
  {
  }

  lemma {:induction false} RewriteFromIsMarked(s: string, i: int)
    requires 0 <= i <= |s|
    ensures RewriteFrom(s[i..], PrevWord(s, i)) == Marked(s, i)
    decreases |s| - i, 1
  {
    if i < |s| {
      if !PrevWord(s, i) && MatchLen(s[i..]) > 0 {
        RewriteFromIsMarkedAtMatch(s, i);
      } else {
        RewriteFromIsMarkedAtCopy(s, i);
      }
    }
  }

  lemma {:induction false} RewriteFromIsMarkedAtMatch(s: string, i: int)
    requires 0 <= i < |s| && !PrevWord(s, i) && MatchLen(s[i..]) > 0
    ensures RewriteFrom(s[i..], PrevWord(s, i)) == Marked(s, i)
    decreases |s| - i, 0
  {
    ScanStepAtMatch(s, i);
    RewriteFromIsMarked(s, i + MatchLen(s[i..]));
  }

  lemma {:induction false} RewriteFromIsMarkedAtCopy(s: string, i: int)
    requires 0 <= i < |s| && (PrevWord(s, i) || MatchLen(s[i..]) == 0)
    ensures RewriteFrom(s[i..], PrevWord(s, i)) == Marked(s, i)
    decreases |s| - i, 0
  {
    ScanStepCopy(s, i);
    RewriteFromIsMarked(s, i + 1);
  }

  // ---------------------------------------------------------------------
  // The rewrite loses nothing: Restore undoes it.
  // ---------------------------------------------------------------------

  /** After a word character the scan copies the word verbatim. */
  lemma {:induction false} LeadingWordAfterWord(y: string)
    ensures LeadingWord(RewriteFrom(y, true)) == LeadingWord(y)
    decreases |y|
  {
    if |y| > 0 && IsWordChar(y[0]) {
      LeadingWordAfterWord(y[1..]);
    }
  }

  /** Right after a boundary the output never starts with a bare operator:
      either the input starts with one (and a `$` is put in front of it) or
      the leading word is copied unchanged. */
  lemma NoBareOperator(x: string)
    ensures MatchLen(RewriteFrom(x, false)) == 0
  {
    var o := RewriteFrom(x, false);
    MatchLenIsWholeWord(o);
    MatchLenIsWholeWord(x);
    if |x| > 0 && MatchLen(x) == 0 && IsWordChar(x[0]) {
      LeadingWordAfterWord(x[1..]);
    }
  }

  /** The operator copied by the scan still matches in the output: the
      characters after it are copied with the word they continue. */
  lemma OperatorSurvivesRewrite(s: string)
    requires MatchLen(s) > 0
    ensures MatchLen(s[..MatchLen(s)] + RewriteFrom(s[MatchLen(s)..], true)) == MatchLen(s)
  {
    var n := MatchLen(s);
    var rest := RewriteFrom(s[n..], true);
    MatchLenIsWholeWord(s);
    assert s == s[..n] + s[n..];
    LeadingWordAppend(s[..n], s[n..]);
    LeadingWordAfterWord(s[n..]);
    LeadingWordAppend(s[..n], rest);
    MatchLenIsWholeWord(s[..n] + rest);
  }

  /** Restoring a rewritten operator drops its `$` and nothing more. */
  lemma RestoreAtOperator(s: string)
    requires MatchLen(s) > 0
    ensures var n := MatchLen(s);
      RestoreFrom("$" + s[..n] + RewriteFrom(s[n..], true), false)
      == s[..n] + RestoreFrom(RewriteFrom(s[n..], true), true)
  {
    var n := MatchLen(s);
    var rest := RewriteFrom(s[n..], true);
    var o := "$" + s[..n] + rest;
    OperatorSurvivesRewrite(s);
    assert o[1..] == s[..n] + rest;
    assert o[1..1 + n] == s[..n];
    assert o[1 + n..] == rest;
  }

  /** A copied character is copied back, including a `$` that precedes an
      operator in the input (the rewrite then doubles it). */
  lemma RestoreAtCopy(s: string, prevWord: bool)
    requires |s| > 0 && (prevWord || MatchLen(s) == 0)
    ensures RestoreFrom(RewriteFrom(s, prevWord), prevWord)
         == [s[0]] + RestoreFrom(RewriteFrom(s[1..], EndsInWordChar(s[0])), EndsInWordChar(s[0]))
  {
    var o := [s[0]] + RewriteFrom(s[1..], EndsInWordChar(s[0]));
    assert o[1..] == RewriteFrom(s[1..], EndsInWordChar(s[0]));
    if !prevWord && s[0] == '$' {
      NoBareOperator(s[1..]);
    }
  }

  lemma {:induction false} RestoreRewriteFrom(s: string, prevWord: bool)
    ensures RestoreFrom(RewriteFrom(s, prevWord), prevWord) == s
    decreases |s|, 1
  {
    if |s| > 0 {
      if !prevWord && MatchLen(s) > 0 {
        RestoreRewriteFromAtOperator(s);
      } else {
        RestoreRewriteFromAtCopy(s, prevWord);
      }
    }
  }

  lemma {:induction false} RestoreRewriteFromAtOperator(s: string)
    requires MatchLen(s) > 0
    ensures RestoreFrom(RewriteFrom(s, false), false) == s
    decreases |s|, 0
  {
    var n := MatchLen(s);
    RewriteFromAtMatch(s);
    RestoreAtOperator(s);
    RestoreRewriteFrom(s[n..], true);
    assert s == s[..n] + s[n..];
  }

  lemma {:induction false} RestoreRewriteFromAtCopy(s: string, prevWord: bool)
    requires |s| > 0 && (prevWord || MatchLen(s) == 0)
    ensures RestoreFrom(RewriteFrom(s, prevWord), prevWord) == s
    decreases |s|, 0
  {
    RestoreAtCopy(s, prevWord);
    RestoreRewriteFrom(s[1..], EndsInWordChar(s[0]));
  }

  // ---------------------------------------------------------------------
  // Properties of the rewrite.
  // ---------------------------------------------------------------------

  lemma {:induction false} MarkedLength(s: string, i: int)
    requires 0 <= i <= |s|
    ensures |Marked(s, i)| == |s| - i + MatchCount(s, i)
    decreases |s| - i
  {
    if i < |s| {
      MarkedLength(s, i + 1);
    }
  }

  lemma {:induction false} MarkedWithoutMatch(s: string, i: int)
    requires 0 <= i <= |s|
    requires forall k :: i <= k < |s| ==> !MatchAt(s, k)
    ensures Marked(s, i) == s[i..]
    decreases |s| - i
  {
    if i < |s| {
      MarkedCopy(s, i);
      MarkedWithoutMatch(s, i + 1);
      ConsSlice(s, i, |s|);
    }
  }

  /** The rewrite puts exactly one `$` in front of every position where a
      whole-word operator starts, and changes nothing else. */
  lemma RewriteMarksMatches(s: string)
    ensures Rewrite(s) == Marked(s, 0)
  {
    RewriteFromIsMarked(s, 0);
  }

  /** Every match gains exactly one character, the `$`. */
  lemma RewriteLength(s: string)
    ensures |Rewrite(s)| == |s| + MatchCount(s, 0)
  {
    RewriteMarksMatches(s);
    MarkedLength(s, 0);
  }

  /** A string with no whole-word operator passes through unchanged. */
  lemma RewriteWithoutMatch(s: string)
    requires OperatorFree(s)
    ensures Rewrite(s) == s
  {
    RewriteMarksMatches(s);
    MarkedWithoutMatch(s, 0);
  }

  lemma {:induction false} RestoreWithoutDollar(o: string, prevWord: bool)
    requires '$' !in o
    ensures RestoreFrom(o, prevWord) == o
    decreases |o|
  {
    if |o| > 0 {
      assert '$' !in o[1..] by { assert forall c :: c in o[1..] ==> c in o; }
      RestoreWithoutDollar(o[1..], EndsInWordChar(o[0]));
    }
  }

  /** A name the rewrite produces is never a name without a `$` other than
      the one it came from. */
  lemma RewriteHitsDollarFreeOnlyFromItself(k: string, t: string)
    requires '$' !in t && Rewrite(k) == t
    ensures k == t
  {
    RestoreWithoutDollar(t, false);
  }

  lemma {:induction false} InsideWordUnchanged(s: string)
    requires AllWordChars(s)
    ensures RewriteFrom(s, true) == s
    decreases |s|
  {
    if |s| > 0 {
      InsideWordUnchanged(s[1..]);
    }
  }

  /** After a control character there is no word boundary in the JSON text,
      so an operator word right after it is left alone: `a\ngte` is
      serialised as `a\\ngte`, where `gte` follows the letter `n`. */
  lemma OperatorAfterControlCharUntouched()
    ensures Rewrite("a\ngte") == "a\ngte"
  {
    var s := "a\ngte";
    forall i | 0 <= i < |s|
      ensures !MatchAt(s, i)
    {
      if i >= 3 {
        assert LeadingWord(s[i..]) == s[i..];
      }
    }
    RewriteWithoutMatch(s);
  }

  /** A single word that is not an operator is left alone, however much of an
      operator it contains (`gtex`, `length`, `lt5`). */
  lemma PlainWordUnchanged(s: string)
    requires AllWordChars(s) && s !in Operators
    ensures Rewrite(s) == s
  {
    assert LeadingWord(s) == s;
    MatchLenIsWholeWord(s);
    if |s| > 0 {
      InsideWordUnchanged(s[1..]);
    }
  }

  /** An operator on its own gains its `$`. */
  lemma OperatorGainsDollar(t: string)
    requires t in Operators
    ensures Rewrite(t) == "$" + t
  {
    assert AllWordChars(t);
    assert LeadingWord(t) == t;
    MatchLenIsWholeWord(t);
    assert t[..MatchLen(t)] == t && t[MatchLen(t)..] == [];
  }

  /** Distinct keys stay distinct after the rewrite, so the re-parsed filter
      object never merges two keys. */
  lemma RewriteInjective()
    ensures forall a, b :: Rewrite(a) == Rewrite(b) ==> a == b
  {
    forall a, b | Rewrite(a) == Rewrite(b)
      ensures a == b
    {
      assert Restore(Rewrite(a)) == a;
      assert Restore(Rewrite(b)) == b;
    }
  }
}
