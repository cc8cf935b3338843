/**
  The Python `str` operations that the recon shells and the enumeration pipeline
  apply to tool output and to table cells: `strip`, `in`, `split`, `join`,
  `replace`, `upper`, `lstrip(chars)`, `splitlines`, and the decimal `int`/`str`
  conversions of port numbers.
 */
module Text {
  import opened Wrappers

  /** The characters for which Python's `str.isspace()` holds; `str.strip()` removes exactly these. */
  predicate IsSpace(c: char) {
    || c == ' '
    || ('\t' <= c <= '\r')
    || ('\U{1c}' <= c <= '\U{1f}')
    || c == '\U{85}' || c == '\U{a0}' || c == '\U{1680}'
    || ('\U{2000}' <= c <= '\U{200a}')
    || c == '\U{2028}' || c == '\U{2029}' || c == '\U{202f}' || c == '\U{205f}' || c == '\U{3000}'
  }

  predicate AllSpace(s: string) {
    forall i :: 0 <= i < |s| ==> IsSpace(s[i])
  }

  /** Python `s.lstrip()`: the suffix of `s` left after its leading whitespace. */
  function LStrip(s: string): (r: string)
    ensures |r| <= |s| && r == s[|s| - |r|..]
    ensures AllSpace(s[..|s| - |r|])
    ensures r == [] || !IsSpace(r[0])
  {
    if s != [] && IsSpace(s[0]) then
      var r := LStrip(s[1..]);
      SpaceBefore(s, r);
      r
    else s
  }

  /** Python `s.rstrip()`: the prefix of `s` left before its trailing whitespace. */
  function RStrip(s: string): (r: string)
    ensures |r| <= |s| && r == s[..|r|]
    ensures AllSpace(s[|r|..])
    ensures r == [] || !IsSpace(r[|r| - 1])
  {
    if s != [] && IsSpace(s[|s| - 1]) then
      var r := RStrip(s[..|s| - 1]);
      SpaceAfter(s, r);
      r
    else s
  }

  /** A leading space followed by a stripped tail. */
  lemma SpaceBefore(s: string, r: string)
    requires s != [] && IsSpace(s[0])
    requires |r| <= |s| - 1 && r == s[1..][|s| - 1 - |r|..] && AllSpace(s[1..][..|s| - 1 - |r|])
    ensures r == s[|s| - |r|..] && AllSpace(s[..|s| - |r|])
  {
    assert s[..|s| - |r|] == [s[0]] + s[1..][..|s| - 1 - |r|];
  }

  /** A stripped head followed by a trailing space. */
  lemma SpaceAfter(s: string, r: string)
    requires s != [] && IsSpace(s[|s| - 1])
    requires |r| <= |s| - 1 && r == s[..|s| - 1][..|r|] && AllSpace(s[..|s| - 1][|r|..])
    ensures r == s[..|r|] && AllSpace(s[|r|..])
  {
    assert s[|r|..] == s[..|s| - 1][|r|..] + [s[|s| - 1]];
  }

  /**
    Python `s.strip()`: `s` is the result surrounded by whitespace only, and the
    result neither starts nor ends with whitespace (so it is empty exactly when
    `s` is all whitespace).
   */
  function Strip(s: string): (r: string)
    ensures Surrounded(s, r)
    ensures r == [] || (!IsSpace(r[0]) && !IsSpace(r[|r| - 1]))
    ensures r == [] <==> AllSpace(s)
  {
    var l := LStrip(s);
    var r := RStrip(l);
    Sandwich(s, |s| - |l|, l, r);
    r
  }

  /** `r` is a slice of `s` with only whitespace before and after it. */
  predicate Surrounded(s: string, r: string) {
    exists a: nat :: a + |r| <= |s| && s[a..a + |r|] == r && AllSpace(s[..a]) && AllSpace(s[a + |r|..])
  }

  /** Whitespace before `l`, the suffix of `s`, and after `r`, the prefix of `l`, surrounds `r` in `s`. */
  lemma Sandwich(s: string, a: nat, l: string, r: string)
    requires a <= |s| && l == s[a..] && AllSpace(s[..a]) && (l == [] || !IsSpace(l[0]))
    requires |r| <= |l| && r == l[..|r|] && AllSpace(l[|r|..])
    ensures Surrounded(s, r)
    ensures r == [] || !IsSpace(r[0])
    ensures r == [] <==> AllSpace(s)
  {
    assert s[a + |r|..] == l[|r|..];
    assert s[a..a + |r|] == r;
    if r == [] {
      assert l[|r|..] == l;
      assert l == [];
      assert s[..a] == s;
    } else {
      assert s[a] == r[0] == l[0];
    }
  }

  /** `pat` occurs in `s` starting at index `i`. */
  predicate OccursAt(s: string, pat: string, i: nat) {
    i + |pat| <= |s| && s[i..i + |pat|] == pat
  }

  /** Python `s.find(pat)`, with `None` for -1: the first index where `pat` occurs. */
  function IndexOf(s: string, pat: string): (r: Option<nat>)
    ensures r.Some? ==> OccursAt(s, pat, r.value)
    ensures r.Some? ==> forall j: nat :: j < r.value ==> !OccursAt(s, pat, j)
    ensures r.None? ==> forall j: nat :: !OccursAt(s, pat, j)
    decreases |s|
  {
    if |s| < |pat| then None
    else if s[..|pat|] == pat then Some(0)
    else
      match IndexOf(s[1..], pat)
      case None =>
        assert forall j: nat :: OccursAt(s, pat, j + 1) ==> OccursAt(s[1..], pat, j) by {
          forall j: nat | OccursAt(s, pat, j + 1) ensures OccursAt(s[1..], pat, j) {
            assert s[1..][j..j + |pat|] == s[j + 1..j + 1 + |pat|];
          }
        }
        assert forall j: nat :: !OccursAt(s, pat, j) by {
          forall j: nat ensures !OccursAt(s, pat, j) {
            if j == 0 {
              assert s[..|pat|] != pat;
            } else if j + |pat| <= |s| {
              assert s[1..][j - 1..j - 1 + |pat|] == s[j..j + |pat|];
              assert !OccursAt(s[1..], pat, j - 1);
            }
          }
        }
        None
      case Some(i) =>
        assert s[1..][i..i + |pat|] == s[i + 1..i + 1 + |pat|];
        assert forall j: nat :: 0 < j < i + 1 ==> !OccursAt(s, pat, j) by {
          forall j: nat | 0 < j < i + 1 ensures !OccursAt(s, pat, j) {
            if OccursAt(s, pat, j) {
              assert s[1..][j - 1..j - 1 + |pat|] == s[j..j + |pat|];
              assert OccursAt(s[1..], pat, j - 1);
            }
          }
        }
        Some(i + 1)
  }

  /** Python `pat in s`. */
  predicate Contains(s: string, pat: string) {
    IndexOf(s, pat).Some?
  }

  lemma ContainsChar(s: string, c: char)
    ensures Contains(s, [c]) <==> c in s
  {
    if c in s {
      var j :| 0 <= j < |s| && s[j] == c;
      assert OccursAt(s, [c], j);
    }
    if Contains(s, [c]) {
      var j := IndexOf(s, [c]).value;
      assert s[j..j + 1] == [c];
      assert s[j] == c;
    }
  }

  /** An occurrence inside a prefix of `s` is an occurrence in `s`. */
  lemma OccursInPrefix(s: string, n: nat, pat: string, j: nat)
    requires n <= |s| && OccursAt(s[..n], pat, j)
    ensures OccursAt(s, pat, j)
  {
    assert s[..n][j..j + |pat|] == s[j..j + |pat|];
  }

  /**
    Python `s.split(sep)` for a non-empty separator: the pieces between the
    occurrences of `sep` found left to right; there is always at least one piece,
    and no piece contains `sep`.
   */
  function Split(s: string, sep: string): (r: seq<string>)
    requires sep != []
    ensures |r| >= 1
    ensures forall k :: 0 <= k < |r| ==> !Contains(r[k], sep)
    decreases |s|
  {
    match IndexOf(s, sep)
    case None => [s]
    case Some(i) =>
      var rest := Split(s[i + |sep|..], sep);
      assert !Contains(s[..i], sep) by {
        if Contains(s[..i], sep) {
          OccursInPrefix(s, i, sep, IndexOf(s[..i], sep).value);
        }
      }
      [s[..i]] + rest
  }

  /** Python `sep.join(parts)`. */
  function Join(parts: seq<string>, sep: string): (r: string)
    ensures parts == [] ==> r == []
    ensures |parts| == 1 ==> r == parts[0]
  {
    if parts == [] then ""
    else if |parts| == 1 then parts[0]
    else parts[0] + sep + Join(parts[1..], sep)
  }

  /** Joining the pieces of a split with the same separator gives back the string. */
  lemma {:induction false} JoinSplit(s: string, sep: string)
    requires sep != []
    ensures Join(Split(s, sep), sep) == s
    decreases |s|
  {
    var idx := IndexOf(s, sep);
    if idx.Some? {
      var i := idx.value;
      var rest := s[i + |sep|..];
      var pieces := Split(rest, sep);
      JoinSplit(rest, sep);
      assert Split(s, sep) == [s[..i]] + pieces;
      assert ([s[..i]] + pieces)[1..] == pieces;
      assert Join(Split(s, sep), sep) == s[..i] + sep + Join(pieces, sep);
      assert s[i..i + |sep|] == sep;
      assert s == s[..i] + s[i..i + |sep|] + rest;
    }
  }

  lemma IndexOfAfterPrefix(a: string, c: char, b: string)
    requires c !in a
    ensures IndexOf(a + [c] + b, [c]) == Some(|a|)
  {
    var s := a + [c] + b;
    assert OccursAt(s, [c], |a|) by { assert s[|a|..|a| + 1] == [c]; }
    forall j: nat | j < |a| ensures !OccursAt(s, [c], j) {
      assert s[j] == a[j];
    }
  }

  /**
    Splitting on a one-character separator undoes a join when no part contains
    that character.
   */
  lemma {:induction false} SplitJoin(parts: seq<string>, c: char)
    requires parts != []
    requires forall k :: 0 <= k < |parts| ==> c !in parts[k]
    ensures Split(Join(parts, [c]), [c]) == parts
    decreases |parts|
  {
    if |parts| == 1 {
      ContainsChar(parts[0], c);
    } else {
      var tail := Join(parts[1..], [c]);
      IndexOfAfterPrefix(parts[0], c, tail);
      assert Join(parts, [c]) == parts[0] + [c] + tail;
      assert (parts[0] + [c] + tail)[|parts[0]| + 1..] == tail;
      assert (parts[0] + [c] + tail)[..|parts[0]|] == parts[0];
      SplitJoin(parts[1..], c);
    }
  }

  /** Python `s.replace(pat, rep)` for a non-empty `pat`: every left-to-right occurrence replaced. */
  function Replace(s: string, pat: string, rep: string): (r: string)
    requires pat != []
    ensures !Contains(s, pat) ==> r == s
  {
    Join(Split(s, pat), rep)
  }

  /** Replacing a pattern that only occurs as the prefix of `s` removes that prefix. */
  lemma RemovePrefix(pat: string, h: string)
    requires pat != [] && !Contains(h, pat)
    ensures Replace(pat + h, pat, "") == h
  {
    var s := pat + h;
    assert OccursAt(s, pat, 0) by { assert s[..|pat|] == pat; }
    assert IndexOf(s, pat) == Some(0);
    assert s[|pat|..] == h;
    assert Split(s, pat) == [""] + [h];
  }

  /** Python `s.upper()` restricted to ASCII letters. */
  function UpperChar(c: char): (r: char)
    ensures 'a' <= c <= 'z' ==> 'A' <= r <= 'Z'
    ensures !('a' <= c <= 'z') ==> r == c
  {
    if 'a' <= c <= 'z' then (c as int - 32) as char else c
  }

  function Upper(s: string): (r: string)
    ensures |r| == |s| && forall i :: 0 <= i < |s| ==> r[i] == UpperChar(s[i])
  {
    seq(|s|, i requires 0 <= i < |s| => UpperChar(s[i]))
  }

  /** ASCII lower-casing, the comparison SQLite's `LIKE` makes by default. */
  function LowerChar(c: char): (r: char)
    ensures 'A' <= c <= 'Z' ==> 'a' <= r <= 'z'
    ensures !('A' <= c <= 'Z') ==> r == c
  {
    if 'A' <= c <= 'Z' then (c as int + 32) as char else c
  }

  function Lower(s: string): (r: string)
    ensures |r| == |s| && forall i :: 0 <= i < |s| ==> r[i] == LowerChar(s[i])
  {
    seq(|s|, i requires 0 <= i < |s| => LowerChar(s[i]))
  }

  /** Python `s.lstrip(chars)`: drop every leading character that belongs to `chars`. */
  function LStripChars(s: string, chars: set<char>): (r: string)
    ensures |r| <= |s| && r == s[|s| - |r|..]
    ensures forall i :: 0 <= i < |s| - |r| ==> s[i] in chars
    ensures r == [] || r[0] !in chars
  {
    if s != [] && s[0] in chars then LStripChars(s[1..], chars) else s
  }

  predicate StartsWith(s: string, p: string) {
    |p| <= |s| && s[..|p|] == p
  }

  predicate EndsWith(s: string, p: string) {
    |p| <= |s| && s[|s| - |p|..] == p
  }

  /**
    Python `s.splitlines()` for text whose only line break is `"\n"`: the lines,
    with no empty line produced by a final line break.
   */
  function SplitLines(s: string): (r: seq<string>)
    ensures s == [] ==> r == []
    ensures forall k :: 0 <= k < |r| ==> '\n' !in r[k]
  {
    if s == [] then []
    else
      var p := Split(s, "\n");
      assert forall k :: 0 <= k < |p| ==> '\n' !in p[k] by {
        forall k | 0 <= k < |p| ensures '\n' !in p[k] { ContainsChar(p[k], '\n'); }
      }
      if p[|p| - 1] == "" then p[..|p| - 1] else p
  }

  /** Lines joined with `"\n"` split back into the same lines, unless the last one is empty. */
  lemma SplitLinesJoin(q: seq<string>)
    requires forall k :: 0 <= k < |q| ==> '\n' !in q[k]
    requires q == [] || q[|q| - 1] != ""
    ensures SplitLines(Join(q, "\n")) == q
  {
    if q != [] {
      var s := Join(q, "\n");
      SplitJoin(q, '\n');
      assert s != [] by {
        if s == [] {
          SplitEmpty("\n");
        }
      }
      LinesOfSplit(s, q);
    }
  }

  /** Text whose split on line breaks ends in a non-empty piece has those pieces as its lines. */
  lemma LinesOfSplit(s: string, q: seq<string>)
    requires s != [] && Split(s, "\n") == q && q[|q| - 1] != ""
    ensures SplitLines(s) == q
  {
  }

  /** `"".split(sep) == [""]`. */
  lemma SplitEmpty(sep: string)
    requires sep != []
    ensures Split("", sep) == [""]
  {
    assert IndexOf("", sep).None? by {
      assert forall j: nat :: !OccursAt("", sep, j);
    }
  }

  predicate IsDigit(c: char) {
    '0' <= c <= '9'
  }

  predicate AllDigits(s: string) {
    forall i :: 0 <= i < |s| ==> IsDigit(s[i])
  }

  function DigitChar(d: nat): (c: char)
    requires d < 10
    ensures IsDigit(c)
  {
    ('0' as int + d) as char
  }

  /** Python `int(s)` on a string of ASCII digits. */
  function DecimalValue(s: string): nat
    requires AllDigits(s)
  {
    if s == [] then 0
    else DecimalValue(s[..|s| - 1]) * 10 + (s[|s| - 1] as int - '0' as int)
  }

  /** Python `str(n)` for a non-negative integer: its digits, with no leading zero. */
  function Decimal(n: nat): (r: string)
    ensures r != [] && AllDigits(r)
    ensures r[0] == '0' ==> n == 0
  {
    if n < 10 then [DigitChar(n)] else Decimal(n / 10) + [DigitChar(n % 10)]
  }

  /** `int(str(n)) == n`. */
  lemma {:induction false} DecimalRoundTrip(n: nat)
    ensures DecimalValue(Decimal(n)) == n
  {
    if n >= 10 {
      DecimalRoundTrip(n / 10);
      var r := Decimal(n);
      assert r[..|r| - 1] == Decimal(n / 10);
    }
  }

  /** Greedy run: the longest prefix of `s` whose characters satisfy `p`, and the rest. */
  function Token(s: string, p: char -> bool): (r: (string, string))
    ensures s == r.0 + r.1
    ensures forall k :: 0 <= k < |r.0| ==> p(r.0[k])
    ensures r.1 == [] || !p(r.1[0])
  {
    if s != [] && p(s[0]) then
      var t := Token(s[1..], p);
      assert s == [s[0]] + t.0 + t.1;
      ([s[0]] + t.0, t.1)
    else ([], s)
  }

  /** A greedy run stops exactly where the text after it starts with a character outside the class. */
  lemma {:induction false} TokenOf(a: string, b: string, p: char -> bool)
    requires forall k :: 0 <= k < |a| ==> p(a[k])
    requires b == [] || !p(b[0])
    ensures Token(a + b, p) == (a, b)
  {
    var s := a + b;
    if a != [] {
      assert s[0] == a[0] && p(s[0]);
      assert s[1..] == a[1..] + b;
      TokenOf(a[1..], b, p);
      assert Token(s, p) == ([s[0]] + a[1..], b);
      assert [a[0]] + a[1..] == a;
    } else {
      assert s == b;
    }
  }

  /** Number of occurrences of `c` in `s`. */
  function CountChar(s: string, c: char): nat
  {
    if s == [] then 0 else (if s[0] == c then 1 else 0) + CountChar(s[1..], c)
  }

  lemma {:induction false} CountCharAppend(a: string, b: string, c: char)
    ensures CountChar(a + b, c) == CountChar(a, c) + CountChar(b, c)
  {
    if a != [] {
      assert (a + b)[0] == a[0];
      assert (a + b)[1..] == a[1..] + b;
      CountCharAppend(a[1..], b, c);
    } else {
      assert a + b == b;
    }
  }

  lemma {:induction false} CountCharAbsent(s: string, c: char)
    requires c !in s
    ensures CountChar(s, c) == 0
  {
    if s != [] { CountCharAbsent(s[1..], c); }
  }
}
