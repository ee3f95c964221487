/** String operations of Python's `str` that the components rely on. */
module Text {

  predicate IsPrefix(p: string, s: string) {
    |p| <= |s| && s[..|p|] == p
  }

  /** A string is its first `n` characters followed by the rest. */
  lemma TakeDrop(s: string, n: nat)
    requires n <= |s|
    ensures s[..n] + s[n..] == s
  {
  }

  /** `pat` occurs in `s` starting at index `i`. */
  predicate OccursAt(s: string, i: int, pat: string) {
    0 <= i <= |s| && IsPrefix(pat, s[i..])
  }

  /** Python's `pat in s`. */
  predicate Occurs(pat: string, s: string) {
    exists i | 0 <= i <= |s| :: OccursAt(s, i, pat)
  }

  /** Python's `s.replace(pat, rep)` for a non-empty `pat`: occurrences are found
      left to right and do not overlap; the scan resumes after each replaced one. */
  function ReplaceAll(s: string, pat: string, rep: string): string
    requires pat != []
    decreases |s|
  {
    if s == [] then []
    else if IsPrefix(pat, s) then rep + ReplaceAll(s[|pat|..], pat, rep)
    else [s[0]] + ReplaceAll(s[1..], pat, rep)
  }

  /** Replacing a pattern that does not occur changes nothing. */
  lemma {:induction false} ReplaceAbsent(s: string, pat: string, rep: string)
    requires pat != []
    requires !Occurs(pat, s)
    ensures ReplaceAll(s, pat, rep) == s
    decreases |s|
  {
    if s != [] {
      assert !OccursAt(s, 0, pat);
      forall i | OccursAt(s[1..], i, pat) ensures false {
        assert s[1..][i..] == s[i + 1..];
        assert OccursAt(s, i + 1, pat);
      }
      ReplaceAbsent(s[1..], pat, rep);
    }
  }

  /** Where the pattern starts the input, the output starts with the replacement. */
  lemma ReplacedHead(s: string, pat: string, rep: string)
    requires pat != []
    ensures s != [] && IsPrefix(pat, s) && rep != [] ==>
      ReplaceAll(s, pat, rep) != [] && ReplaceAll(s, pat, rep)[0] == rep[0]
  {
  }

  /** While `rep` begins with the first character of `pat`, a replacement never
      turns a prefix free of that character into something else: if the result
      starts with such a `q`, so did the input. */
  lemma {:induction false} ReplacePreservesPlainPrefix(s: string, pat: string, rep: string, q: string)
    requires pat != [] && rep != [] && rep[0] == pat[0]
    requires forall k :: 0 <= k < |q| ==> q[k] != pat[0]
    requires IsPrefix(q, ReplaceAll(s, pat, rep))
    ensures IsPrefix(q, s)
    decreases |s|
  {
    if q != [] {
      var r := ReplaceAll(s, pat, rep);
      ReplacedHead(s, pat, rep);
      if s != [] && !IsPrefix(pat, s) {
        var t := ReplaceAll(s[1..], pat, rep);
        assert r == [s[0]] + t;
        assert IsPrefix(q[1..], t) by {
          assert t[..|q| - 1] == r[1..|q|];
        }
        ReplacePreservesPlainPrefix(s[1..], pat, rep, q[1..]);
        assert s[..|q|] == [s[0]] + s[1..][..|q| - 1];
      }
    }
  }

  /** Python's `s.split(sep)` for a one-character separator. */
  function SplitOn(s: string, sep: char): (parts: seq<string>)
    ensures |parts| >= 1
    ensures forall k :: 0 <= k < |parts| ==> sep !in parts[k]
    ensures sep !in s ==> parts == [s]
    ensures sep in s ==> |parts| >= 2
    decreases |s|
  {
    if s == [] then [[]]
    else
      var rest := SplitOn(s[1..], sep);
      assert s == [s[0]] + s[1..];
      if s[0] == sep then [[]] + rest
      else [[s[0]] + rest[0]] + rest[1..]
  }

  /** Python's `sep.join(parts)`. */
  function JoinWith(parts: seq<string>, sep: char): string
    decreases |parts|
  {
    if parts == [] then []
    else if |parts| == 1 then parts[0]
    else parts[0] + [sep] + JoinWith(parts[1..], sep)
  }

  /** Splitting loses nothing: the pieces joined by the separator give back `s`. */
  lemma {:induction false} JoinSplit(s: string, sep: char)
    ensures JoinWith(SplitOn(s, sep), sep) == s
    decreases |s|
  {
    if s != [] {
      var rest := SplitOn(s[1..], sep);
      JoinSplit(s[1..], sep);
      assert s == [s[0]] + s[1..];
      if s[0] == sep {
        assert SplitOn(s, sep) == [[]] + rest;
        assert JoinWith([[]] + rest, sep) == [] + [sep] + JoinWith(rest, sep);
      } else {
        var parts := [[s[0]] + rest[0]] + rest[1..];
        assert SplitOn(s, sep) == parts;
        if |rest| == 1 {
          assert JoinWith(parts, sep) == [s[0]] + rest[0];
        } else {
          assert rest == [rest[0]] + rest[1..];
          assert JoinWith(rest, sep) == rest[0] + [sep] + JoinWith(rest[1..], sep);
          assert parts[1..] == rest[1..];
          assert JoinWith(parts, sep) == ([s[0]] + rest[0]) + [sep] + JoinWith(rest[1..], sep);
        }
      }
    }
  }

  /** ASCII lower-casing of one character: what header-name comparison uses. */
  function LowerChar(c: char): char {
    if 'A' <= c <= 'Z' then (c as int + 32) as char else c
  }

  function AsciiLower(s: string): (r: string)
    ensures |r| == |s|
    ensures forall k :: 0 <= k < |s| ==> r[k] == LowerChar(s[k])
  {
    seq(|s|, k requires 0 <= k < |s| => LowerChar(s[k]))
  }

  /** Python's `<` on `str`: lexicographic by code point. */
  predicate StrLt(a: string, b: string)
    decreases |a|
  {
    if a == [] then b != []
    else b != [] && (a[0] < b[0] || (a[0] == b[0] && StrLt(a[1..], b[1..])))
  }

  lemma {:induction false} StrLtIrreflexive(a: string)
    ensures !StrLt(a, a)
    decreases |a|
  {
    if a != [] {
      StrLtIrreflexive(a[1..]);
    }
  }

  lemma {:induction false} StrLtTransitive(a: string, b: string, c: string)
    requires StrLt(a, b) && StrLt(b, c)
    ensures StrLt(a, c)
    decreases |a|
  {
    if a != [] && a[0] == b[0] && b[0] == c[0] {
      StrLtTransitive(a[1..], b[1..], c[1..]);
    }
  }

  lemma {:induction false} StrLtTotal(a: string, b: string)
    requires a != b
    ensures StrLt(a, b) || StrLt(b, a)
    decreases |a|
  {
    if a != [] && b != [] && a[0] == b[0] {
      assert a == [a[0]] + a[1..] && b == [b[0]] + b[1..];
      StrLtTotal(a[1..], b[1..]);
    }
  }

  lemma {:induction false} StrLtAsymmetric(a: string, b: string)
    requires StrLt(a, b)
    ensures !StrLt(b, a)
  {
    if StrLt(b, a) {
      StrLtTransitive(a, b, a);
      StrLtIrreflexive(a);
    }
  }
}
