/** The comma-separated `sort` and `fields` parameters, turned into the
    space-separated form the query's `sort` and `select` stages take with
    `value.split(',').join(' ')`.
 */
module CommaList {
  import opened QueryValues

  /** `s.split(sep)` for a one-character separator: the pieces between the
      separators, empty pieces included, and always at least one piece. */
  function Split(s: string, sep: char): (parts: seq<string>)
    ensures |parts| >= 1
  {
    if |s| == 0 then [""]
    else
      var rest := Split(s[1..], sep);
      if s[0] == sep then [""] + rest
      else [[s[0]] + rest[0]] + rest[1..]
  }

  /** `s` with every occurrence of `from` replaced by `to`, character by
      character. */
  function ReplaceChar(s: string, from: char, to: char): (r: string)
    ensures |r| == |s|
    ensures forall i :: 0 <= i < |s| ==> r[i] == (if s[i] == from then to else s[i])
  {
    seq(|s|, i requires 0 <= i < |s| => if s[i] == from then to else s[i])
  }

  /** `s.split(',').join(' ')`. */
  function SpaceSeparated(s: string): (r: string)
    ensures r == ReplaceChar(s, ',', ' ')
  {
    SplitJoin(s, ',', ' ');
    JoinWith(Split(s, ','), " ")
  }

  lemma JoinPrepend(c: char, parts: seq<string>, sep: string)
    requires |parts| >= 1
    ensures JoinWith([[c] + parts[0]] + parts[1..], sep) == [c] + JoinWith(parts, sep)
  {
  }

  /** Splitting on one character and joining with another replaces the first
      character by the second. */
  lemma {:induction false} SplitJoin(s: string, sep: char, with: char)
    ensures JoinWith(Split(s, sep), [with]) == ReplaceChar(s, sep, with)
  {
    if |s| > 0 {
      SplitJoin(s[1..], sep, with);
      var rest := Split(s[1..], sep);
      if s[0] != sep {
        JoinPrepend(s[0], rest, [with]);
      }
    }
  }

  /** Joining the pieces back with the separator gives the original string. */
  lemma SplitRoundTrip(s: string, sep: char)
    ensures JoinWith(Split(s, sep), [sep]) == s
  {
    SplitJoin(s, sep, sep);
    assert ReplaceChar(s, sep, sep) == s;
  }

  /** No piece contains the separator, and there is one piece more than
      there are separators. */
  lemma {:induction false} SplitPieces(s: string, sep: char)
    ensures forall i :: 0 <= i < |Split(s, sep)| ==> sep !in Split(s, sep)[i]
    ensures |Split(s, sep)| == Occurrences(s, sep) + 1
  {
    if |s| > 0 {
      SplitPieces(s[1..], sep);
      var rest := Split(s[1..], sep);
      if s[0] != sep {
        assert sep !in [s[0]] + rest[0];
      }
    }
  }

  function Occurrences(s: string, c: char): nat {
    if |s| == 0 then 0 else (if s[0] == c then 1 else 0) + Occurrences(s[1..], c)
  }
}
