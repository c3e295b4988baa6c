/**
  * The ECMAScript `String.prototype` operations that the dashboard's scripts
  * rely on: `split` with a one-character separator, `trim`, `toLowerCase`,
  * `includes`, `startsWith`/`endsWith` and `replace` with a string pattern.
  * Strings are sequences of Unicode scalar values; UTF-16 surrogate pairs
  * are not modelled.
  */
module JsString {

  /** The WhiteSpace and LineTerminator code points of ECMAScript, the set `trim` strips. */
  predicate IsJsSpace(c: char) {
    || c == '\t' || c == '\n' || c == '\U{B}' || c == '\U{C}' || c == '\r' || c == ' '
    || c == '\U{A0}' || c == '\U{1680}' || ('\U{2000}' <= c <= '\U{200A}')
    || c == '\U{2028}' || c == '\U{2029}' || c == '\U{202F}' || c == '\U{205F}'
    || c == '\U{3000}' || c == '\U{FEFF}'
  }

  /** Neither end of `s` is white space. */
  predicate IsTrimmed(s: string) {
    s == [] || (!IsJsSpace(s[0]) && !IsJsSpace(s[|s| - 1]))
  }

  /** Drops the leading white space: the result is a suffix of `s` and what was dropped is all white space. */
  function TrimStart(s: string): (r: string)
    ensures |r| <= |s| && r == s[|s| - |r|..]
    ensures r == [] || !IsJsSpace(r[0])
    ensures forall i :: 0 <= i < |s| - |r| ==> IsJsSpace(s[i])
  {
    if s != [] && IsJsSpace(s[0]) then TrimStart(s[1..]) else s
  }

  /** Drops the trailing white space: the result is a prefix of `s` and what was dropped is all white space. */
  function TrimEnd(s: string): (r: string)
    ensures |r| <= |s| && r == s[..|r|]
    ensures r == [] || !IsJsSpace(r[|r| - 1])
    ensures forall i :: |r| <= i < |s| ==> IsJsSpace(s[i])
  {
    if s != [] && IsJsSpace(s[|s| - 1]) then TrimEnd(s[..|s| - 1]) else s
  }

  /**
    * `s.trim()`: the result is the piece `s[i..i + |r|]` of the input, with
    * only white space before and after it, and it neither starts nor ends
    * with white space; a string without any is left alone.
    */
  function Trim(s: string): (r: string)
    ensures |r| <= |s|
    ensures exists i :: IsTrimOf(s, r, i)
    ensures IsTrimmed(r)
    ensures IsTrimmed(s) ==> r == s
  {
    var t := TrimStart(s);
    var r := TrimEnd(t);
    TrimPiece(s, t, r);
    r
  }

  /** A prefix `r` of a suffix `t` of `s`, cut off at white space on both sides, is a trim of `s`. */
  lemma TrimPiece(s: string, t: string, r: string)
    requires |t| <= |s| && t == s[|s| - |t|..] && forall k :: 0 <= k < |s| - |t| ==> IsJsSpace(s[k])
    requires |r| <= |t| && r == t[..|r|] && forall k :: |r| <= k < |t| ==> IsJsSpace(t[k])
    ensures IsTrimOf(s, r, |s| - |t|)
  {
    var i := |s| - |t|;
    assert r == s[i..i + |r|];
    forall k | i + |r| <= k < |s| ensures IsJsSpace(s[k]) {
      assert s[k] == t[k - i];
    }
  }

  /** `r` is the piece of `s` from index `i` on, and only white space surrounds it. */
  predicate IsTrimOf(s: string, r: string, i: int) {
    0 <= i <= |s| - |r| && r == s[i..i + |r|] && IsSpaceOutside(s, i, i + |r|)
  }

  /** Everything of `s` before index `i` and from index `j` on is white space. */
  predicate IsSpaceOutside(s: string, i: int, j: int)
    requires 0 <= i <= j <= |s|
  {
    && (forall k :: 0 <= k < i ==> IsJsSpace(s[k]))
    && (forall k :: j <= k < |s| ==> IsJsSpace(s[k]))
  }

  /** An ASCII or Latin-1 capital letter: `A`–`Z`, or `À`–`Þ` except the multiplication sign. */
  predicate IsCapital(c: char) {
    'A' <= c <= 'Z' || ('\U{C0}' <= c <= '\U{DE}' && c != '\U{D7}')
  }

  /** Lower-casing of one code point: ASCII and Latin-1 capitals; other scripts are left as they are. */
  function LowerChar(c: char): (l: char)
    ensures IsCapital(c) ==> l as int == c as int + 32
    ensures !IsCapital(c) ==> l == c
    ensures !IsCapital(l)
  {
    if IsCapital(c) then (c as int + 32) as char else c
  }

  /**
    * `s.toLowerCase()`, restricted to the letters `LowerChar` knows: every
    * capital moves to its small letter, everything else is kept, and no
    * capital is left.
    */
  function ToLower(s: string): (r: string)
    ensures |r| == |s|
    ensures forall i :: 0 <= i < |s| && IsCapital(s[i]) ==> r[i] as int == s[i] as int + 32
    ensures forall i :: 0 <= i < |s| && !IsCapital(s[i]) ==> r[i] == s[i]
    ensures forall i :: 0 <= i < |r| ==> !IsCapital(r[i])
  {
    seq(|s|, i requires 0 <= i < |s| => LowerChar(s[i]))
  }

  /** Lower-casing twice is lower-casing once. */
  lemma ToLowerIdempotent(s: string)
    ensures ToLower(ToLower(s)) == ToLower(s)
  {
  }

  /** `s.startsWith(prefix)`. */
  predicate StartsWith(s: string, prefix: string) {
    |prefix| <= |s| && s[..|prefix|] == prefix
  }

  /** `s.endsWith(suffix)`. */
  predicate EndsWith(s: string, suffix: string) {
    |suffix| <= |s| && s[|s| - |suffix|..] == suffix
  }

  /** `s.includes(sub)`: `sub` occurs at some position of `s`. */
  predicate Includes(s: string, sub: string) {
    exists i :: 0 <= i <= |s| - |sub| && StartsWith(s[i..], sub)
  }

  /** `pat` occurs in `s` at index `i`. */
  predicate OccursAt(s: string, pat: string, i: int) {
    0 <= i <= |s| - |pat| && s[i..i + |pat|] == pat
  }

  /** `i` is the first index where `pat` occurs in `s`: the index `indexOf` reports. */
  predicate FirstOccurrence(s: string, pat: string, i: int) {
    OccursAt(s, pat, i) && forall j :: 0 <= j < i ==> !OccursAt(s, pat, j)
  }

  /**
    * `s.replace(pat, rep)` with a string pattern: only the first occurrence
    * of `pat` is replaced (no `$` patterns in `rep`).
    */
  function ReplaceFirst(s: string, pat: string, rep: string): (r: string)
    requires pat != []
    ensures !Includes(s, pat) ==> r == s
    ensures StartsWith(s, pat) ==> r == rep + s[|pat|..]
    decreases |s|
  {
    if |s| < |pat| then s
    else if StartsWith(s, pat) then
      assert s[0..] == s;
      rep + s[|pat|..]
    else
      assert !Includes(s, pat) ==> !Includes(s[1..], pat) by {
        if Includes(s[1..], pat) {
          var i :| 0 <= i <= |s[1..]| - |pat| && StartsWith(s[1..][i..], pat);
          assert s[1..][i..] == s[i + 1..];
        }
      }
      [s[0]] + ReplaceFirst(s[1..], pat, rep)
  }

  /** When `pat` first occurs at `i`, exactly that occurrence is replaced and the rest is kept. */
  lemma {:induction false} ReplaceFirstAt(s: string, pat: string, rep: string, i: int)
    requires pat != [] && FirstOccurrence(s, pat, i)
    ensures ReplaceFirst(s, pat, rep) == s[..i] + rep + s[i + |pat|..]
    decreases |s|
  {
    if i == 0 {
      ReplaceFirstFront(s, pat, rep);
    } else {
      ShiftOccurrence(s, pat, i);
      ReplaceFirstAt(s[1..], pat, rep, i - 1);
      ReplaceFirstStep(s, pat, rep, i);
    }
  }

  /** An occurrence at index 0 is the one replaced. */
  lemma ReplaceFirstFront(s: string, pat: string, rep: string)
    requires pat != [] && OccursAt(s, pat, 0)
    ensures ReplaceFirst(s, pat, rep) == s[..0] + rep + s[0 + |pat|..]
  {
    assert StartsWith(s, pat) by {
      assert s[..|pat|] == s[0..0 + |pat|];
    }
    assert s[..0] + rep == rep;
  }

  /** A replacement at `i - 1` in `s[1..]` is one at `i` in `s` when `pat` does not start `s`. */
  lemma ReplaceFirstStep(s: string, pat: string, rep: string, i: int)
    requires pat != [] && 0 < i && OccursAt(s, pat, i) && !OccursAt(s, pat, 0)
    requires ReplaceFirst(s[1..], pat, rep) == s[1..][..i - 1] + rep + s[1..][i - 1 + |pat|..]
    ensures ReplaceFirst(s, pat, rep) == s[..i] + rep + s[i + |pat|..]
  {
    assert !StartsWith(s, pat) by {
      assert s[..|pat|] == s[0..0 + |pat|];
    }
    var t := s[1..];
    ReplaceFirstUnfold(s, pat, rep);
    SpliceCons(s, t, i, |pat|, rep);
  }

  /** Without a match at the front, the first character is kept and the search goes on after it. */
  lemma ReplaceFirstUnfold(s: string, pat: string, rep: string)
    requires pat != [] && |s| >= |pat| && !StartsWith(s, pat)
    ensures ReplaceFirst(s, pat, rep) == [s[0]] + ReplaceFirst(s[1..], pat, rep)
  {
  }

  lemma SpliceCons(s: string, t: string, i: int, n: nat, rep: string)
    requires 0 < i && i + n <= |s| && t == s[1..]
    ensures [s[0]] + (t[..i - 1] + rep + t[i - 1 + n..]) == s[..i] + rep + s[i + n..]
  {
    assert s[..i] == [s[0]] + t[..i - 1];
    assert s[i + n..] == t[i - 1 + n..];
  }

  /** The first occurrence at `i > 0` in `s` is the first occurrence at `i - 1` in `s[1..]`. */
  lemma ShiftOccurrence(s: string, pat: string, i: int)
    requires FirstOccurrence(s, pat, i) && i > 0
    ensures FirstOccurrence(s[1..], pat, i - 1)
  {
    assert s[1..][i - 1..i - 1 + |pat|] == s[i..i + |pat|];
    forall j | 0 <= j < i - 1 ensures !OccursAt(s[1..], pat, j) {
      if j + |pat| <= |s| - 1 {
        assert s[1..][j..j + |pat|] == s[j + 1..j + 1 + |pat|];
      }
      assert !OccursAt(s, pat, j + 1);
    }
  }

  /** Number of occurrences of `c` in `s`. */
  function Count(s: string, c: char): nat {
    if s == [] then 0 else (if s[0] == c then 1 else 0) + Count(s[1..], c)
  }

  /**
    * `s.split(sep)` for a one-character separator: there is always one more
    * piece than there are separators, and no piece holds a separator
    * (`"".split(",")` is `[""]`, `"a,,b".split(",")` is `["a", "", "b"]`).
    */
  function Split(s: string, sep: char): (parts: seq<string>)
    ensures |parts| == Count(s, sep) + 1
    ensures forall i :: 0 <= i < |parts| ==> sep !in parts[i]
    ensures forall i, c :: 0 <= i < |parts| && c in parts[i] ==> c in s
  {
    if s == [] then [[]]
    else
      var rest := Split(s[1..], sep);
      assert forall c :: c in s[1..] ==> c in s;
      if s[0] == sep then [[]] + rest else [[s[0]] + rest[0]] + rest[1..]
  }

  /** `parts.join(sep)`, the inverse of `Split`. */
  function Join(parts: seq<string>, sep: char): string {
    if parts == [] then []
    else if |parts| == 1 then parts[0]
    else parts[0] + [sep] + Join(parts[1..], sep)
  }

  /** Joining the pieces of a split gives back the original string. */
  lemma {:induction false} JoinSplit(s: string, sep: char)
    ensures Join(Split(s, sep), sep) == s
  {
    if s != [] {
      var rest := Split(s[1..], sep);
      JoinSplit(s[1..], sep);
      if s[0] != sep {
        if |rest| == 1 {
          assert Split(s, sep) == [[s[0]] + rest[0]];
        } else {
          assert Split(s, sep)[1..] == rest[1..];
          assert Join(rest, sep) == rest[0] + [sep] + Join(rest[1..], sep);
        }
      } else {
        assert Split(s, sep)[1..] == rest;
      }
    }
  }

  /** Splitting a join of separator-free pieces gives back the pieces. */
  lemma {:induction false} SplitJoin(parts: seq<string>, sep: char)
    requires |parts| >= 1
    requires forall i :: 0 <= i < |parts| ==> sep !in parts[i]
    ensures Split(Join(parts, sep), sep) == parts
    decreases |parts|, |parts[0]|
  {
    if |parts| == 1 {
      SplitNoSeparator(parts[0], sep);
    } else if parts[0] == [] {
      var tail := Join(parts[1..], sep);
      SplitJoin(parts[1..], sep);
      assert Join(parts, sep) == [sep] + tail;
      assert ([sep] + tail)[1..] == tail;
    } else {
      var shorter := [parts[0][1..]] + parts[1..];
      assert shorter[1..] == parts[1..];
      assert parts[0][0] in parts[0];
      assert forall i :: 0 <= i < |shorter| ==> sep !in shorter[i] by {
        forall i | 0 <= i < |shorter| ensures sep !in shorter[i] {
          if i == 0 {
            assert forall c :: c in parts[0][1..] ==> c in parts[0];
          } else {
            assert shorter[i] == parts[i];
          }
        }
      }
      SplitJoin(shorter, sep);
      assert Join(parts, sep) == [parts[0][0]] + Join(shorter, sep);
      assert ([parts[0][0]] + Join(shorter, sep))[1..] == Join(shorter, sep);
      assert [parts[0][0]] + parts[0][1..] == parts[0];
    }
  }

  lemma {:induction false} SplitNoSeparator(s: string, sep: char)
    requires sep !in s
    ensures Split(s, sep) == [s]
  {
    if s != [] {
      SplitNoSeparator(s[1..], sep);
      assert [s[0]] + s[1..] == s;
    }
  }
}
