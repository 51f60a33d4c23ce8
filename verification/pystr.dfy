/**
 * The few pieces of Python's `str` behaviour that the auditor relies on:
 * whitespace (as `str.isspace` defines it), `strip`, `split()` with no
 * separator, the substring test `p in s`, `endswith`, a decimal-digit test
 * and `upper`/`lower`. Characters are Unicode scalar values, as in Python.
 */
module PyStr {

  /** The characters for which Python's `str.isspace()` is true. */
  predicate IsSpace(c: char)
  {
    c == ' ' || ('\t' <= c <= '\r') || ('\U{1c}' <= c <= '\U{1f}') ||
    c == '\U{85}' || c == '\U{a0}' || c == '\U{1680}' || ('\U{2000}' <= c <= '\U{200a}') ||
    c == '\U{2028}' || c == '\U{2029}' || c == '\U{202f}' || c == '\U{205f}' || c == '\U{3000}'
  }

  predicate AllSpace(s: string)
  {
    forall k :: 0 <= k < |s| ==> IsSpace(s[k])
  }

  predicate NoSpace(s: string)
  {
    forall k :: 0 <= k < |s| ==> !IsSpace(s[k])
  }

  /** Number of whitespace characters at the start of `s`. */
  function LeadingSpace(s: string): (n: nat)
    ensures n <= |s| && AllSpace(s[..n])
    ensures n < |s| ==> !IsSpace(s[n])
  {
    if s == [] || !IsSpace(s[0]) then 0 else 1 + LeadingSpace(s[1..])
  }

  /** Number of whitespace characters at the end of `s`. */
  function TrailingSpace(s: string): (n: nat)
    ensures n <= |s| && AllSpace(s[|s| - n..])
    ensures n < |s| ==> !IsSpace(s[|s| - n - 1])
  {
    if s == [] || !IsSpace(s[|s| - 1]) then 0 else 1 + TrailingSpace(s[..|s| - 1])
  }

  /** Python's `s.strip()`: `s` without its leading and trailing whitespace. */
  function Strip(s: string): (r: string)
    ensures |r| <= |s|
    ensures r == [] <==> AllSpace(s)
    ensures r != [] ==> !IsSpace(r[0]) && !IsSpace(r[|r| - 1])
    ensures LeadingSpace(s) + |r| <= |s|
    ensures r != [] ==> r == s[LeadingSpace(s)..LeadingSpace(s) + |r|]
    ensures r != [] ==> AllSpace(s[..LeadingSpace(s)]) && AllSpace(s[LeadingSpace(s) + |r|..])
  {
    var a := LeadingSpace(s);
    if a == |s| then
      assert s[..a] == s;
      []
    else
      var b := TrailingSpace(s);
      assert !IsSpace(s[a]);
      var r := s[a..|s| - b];
      assert !AllSpace(s) by { assert !IsSpace(s[a]); }
      assert s[a + |r|..] == s[|s| - b..];
      r
  }

  /** The first position at or after `i` whose character is not whitespace, or `|s|`. */
  function SkipSpace(s: string, i: nat): (a: nat)
    requires i <= |s|
    ensures i <= a <= |s| && (a < |s| ==> !IsSpace(s[a]))
    ensures forall k :: i <= k < a ==> IsSpace(s[k])
    decreases |s| - i
  {
    if i == |s| || !IsSpace(s[i]) then i else SkipSpace(s, i + 1)
  }

  /** The first position at or after `i` whose character is whitespace, or `|s|`. */
  function SkipWord(s: string, i: nat): (b: nat)
    requires i <= |s|
    ensures i <= b <= |s| && (b < |s| ==> IsSpace(s[b]))
    ensures forall k :: i <= k < b ==> !IsSpace(s[k])
    decreases |s| - i
  {
    if i == |s| || IsSpace(s[i]) then i else SkipWord(s, i + 1)
  }

  /** The words of `s` from position `i` on: skip whitespace, take a word, repeat. */
  function SplitFrom(s: string, i: nat): (ws: seq<string>)
    requires i <= |s|
    ensures forall k :: 0 <= k < |ws| ==> ws[k] != [] && NoSpace(ws[k])
    ensures ws == [] <==> forall k :: i <= k < |s| ==> IsSpace(s[k])
    decreases |s| - i
  {
    var a := SkipSpace(s, i);
    if a == |s| then []
    else
      var b := SkipWord(s, a);
      assert a < b;
      [s[a..b]] + SplitFrom(s, b)
  }

  /** Python's `s.split()` with no separator. */
  function Split(s: string): (ws: seq<string>)
    ensures forall i :: 0 <= i < |ws| ==> ws[i] != [] && NoSpace(ws[i])
    ensures ws == [] <==> AllSpace(s)
  {
    SplitFrom(s, 0)
  }

  /** Joins words with one space between consecutive ones (Python's `" ".join(ws)`). */
  function JoinSpaced(ws: seq<string>): string
  {
    if ws == [] then [] else if |ws| == 1 then ws[0] else ws[0] + " " + JoinSpaced(ws[1..])
  }

  /** Whitespace at position `i` is skipped over. */
  lemma SplitFromSpace(s: string, i: nat)
    requires i < |s| && IsSpace(s[i])
    ensures SplitFrom(s, i) == SplitFrom(s, i + 1)
  {
    assert SkipSpace(s, i) == SkipSpace(s, i + 1);
  }

  /** A word that starts right at `i` and ends at `j` is the first word from `i`. */
  lemma SplitFromWord(s: string, i: nat, j: nat)
    requires i < j <= |s| && SkipSpace(s, i) == i && SkipWord(s, i) == j
    ensures SplitFrom(s, i) == [s[i..j]] + SplitFrom(s, j)
  {
  }

  /** In `s == p + w + t`, a word `w` followed by whitespace or nothing is the first word from `|p|`. */
  lemma FirstWordAfter(s: string, p: string, w: string, t: string)
    requires s == p + w + t
    requires w != [] && NoSpace(w) && (t == [] || IsSpace(t[0]))
    ensures SkipSpace(s, |p|) == |p| && SkipWord(s, |p|) == |p| + |w| && s[|p|..|p| + |w|] == w
    ensures t != [] ==> |p| + |w| < |s| && s[|p| + |w|] == t[0]
  {
    var e := |p| + |w|;
    assert s[|p|] == w[0];
    forall k | |p| <= k < e ensures !IsSpace(s[k]) {
      assert s[k] == w[k - |p|];
    }
    if t != [] {
      assert s[e] == t[0];
    }
    assert s[|p|..e] == w;
  }

  /** After any prefix `p`, a lone word `w` is the only word. */
  lemma SplitLastWord(p: string, w: string)
    requires w != [] && NoSpace(w)
    ensures SplitFrom(p + w, |p|) == [w]
  {
    var s := p + w;
    assert s == p + w + [];
    FirstWordAfter(s, p, w, []);
    SplitFromWord(s, |p|, |s|);
  }

  /** A word at `i..e` followed by whitespace at `e`: the words from `i` are it and those from `e + 1`. */
  lemma WordThenSpace(s: string, i: nat, e: nat, j: nat, w: string)
    requires i < e < |s| && SkipSpace(s, i) == i && SkipWord(s, i) == e && s[i..e] == w && IsSpace(s[e])
    requires j == e + 1
    ensures SplitFrom(s, i) == [w] + SplitFrom(s, j)
  {
    SplitFromWord(s, i, e);
    SplitFromSpace(s, e);
  }

  /** After any prefix `p`, `w + " " + r` has the word `w` and then the words of `r`. */
  lemma SplitWordThen(p: string, w: string, r: string)
    requires w != [] && NoSpace(w)
    ensures SplitFrom(p + (w + " " + r), |p|) == [w] + SplitFrom((p + w + " ") + r, |p + w + " "|)
  {
    var s := p + (w + " " + r);
    var q := p + w + " ";
    Regroup(p, w, r);
    WordThenSpaceAfter(s, p, w, r, q);
  }

  /** The same, for `s` given as `p + w + (" " + r)`, with `q` the part before `r`. */
  lemma WordThenSpaceAfter(s: string, p: string, w: string, r: string, q: string)
    requires s == p + w + (" " + r) && w != [] && NoSpace(w) && q == p + w + " "
    ensures |q| <= |s| && SplitFrom(s, |p|) == [w] + SplitFrom(s, |q|)
  {
    FirstWordAfter(s, p, w, " " + r);
    WordThenSpace(s, |p|, |p| + |w|, |q|, w);
  }

  lemma Regroup(p: string, w: string, r: string)
    ensures p + (w + " " + r) == p + w + (" " + r) == (p + w + " ") + r
  {
  }

  /** After any prefix `p`, the words of `" ".join(ws)` are `ws` again. */
  lemma {:induction false} SplitJoinFrom(p: string, ws: seq<string>)
    requires forall i :: 0 <= i < |ws| ==> ws[i] != [] && NoSpace(ws[i])
    ensures SplitFrom(p + JoinSpaced(ws), |p|) == ws
    decreases |ws|
  {
    if ws == [] {
      assert p + JoinSpaced(ws) == p;
    } else if |ws| == 1 {
      SplitLastWord(p, ws[0]);
    } else {
      SplitWordThen(p, ws[0], JoinSpaced(ws[1..]));
      SplitJoinFrom(p + ws[0] + " ", ws[1..]);
      assert ws == [ws[0]] + ws[1..];
    }
  }

  /** Splitting words joined by single spaces gives the words back. */
  lemma SplitJoinSpaced(ws: seq<string>)
    requires forall i :: 0 <= i < |ws| ==> ws[i] != [] && NoSpace(ws[i])
    ensures Split(JoinSpaced(ws)) == ws
  {
    SplitJoinFrom([], ws);
    assert [] + JoinSpaced(ws) == JoinSpaced(ws);
  }

  /**
   * `s[i..j]` is a maximal run of non-whitespace characters of `s`: it is
   * not empty, holds no whitespace, and is bounded on each side by
   * whitespace or by an end of `s`.
   */
  predicate WordAt(s: string, i: int, j: int)
  {
    0 <= i < j <= |s| && NoSpace(s[i..j]) &&
    (i == 0 || IsSpace(s[i - 1])) && (j == |s| || IsSpace(s[j]))
  }

  /** Every word from position `i` on is a maximal run, provided `i` is not inside a run. */
  lemma {:induction false} SplitFromSound(s: string, i: nat)
    requires i <= |s|
    requires i == 0 || i == |s| || IsSpace(s[i - 1]) || IsSpace(s[i])
    ensures forall w :: w in SplitFrom(s, i) ==> exists p, q :: i <= p && WordAt(s, p, q) && s[p..q] == w
    decreases |s| - i
  {
    var a := SkipSpace(s, i);
    if a < |s| {
      var b := SkipWord(s, a);
      assert WordAt(s, a, b) by {
        if a > i { assert IsSpace(s[a - 1]); }
      }
      SplitFromSound(s, b);
      forall w | w in SplitFrom(s, i) ensures exists p, q :: i <= p && WordAt(s, p, q) && s[p..q] == w {
        if w == s[a..b] {
          assert WordAt(s, a, b) && s[a..b] == w;
        } else {
          assert w in SplitFrom(s, b);
          var p, q :| b <= p && WordAt(s, p, q) && s[p..q] == w;
          assert i <= p;
        }
      }
    }
  }

  /** Every maximal run that starts at or after position `i` is a word from `i` on. */
  lemma {:induction false} SplitFromComplete(s: string, i: nat)
    requires i <= |s|
    ensures forall p, q :: i <= p && WordAt(s, p, q) ==> s[p..q] in SplitFrom(s, i)
    decreases |s| - i
  {
    var a := SkipSpace(s, i);
    forall p, q | i <= p && WordAt(s, p, q) ensures s[p..q] in SplitFrom(s, i) {
      assert !IsSpace(s[p]) by { assert s[p] == s[p..q][0]; }
      var b := SkipWord(s, a);
      if p == a {
        assert q == b;
      } else {
        assert b < p;
        SplitFromComplete(s, b);
      }
    }
  }

  /** The words of `split()` are exactly the maximal runs of non-whitespace characters. */
  lemma SplitWords(s: string)
    ensures forall w :: w in Split(s) <==> exists i, j :: WordAt(s, i, j) && s[i..j] == w
  {
    SplitFromSound(s, 0);
    SplitFromComplete(s, 0);
  }

  /** Python's `p in s` on strings: `p` occurs as a contiguous substring of `s`. */
  function Contains(s: string, p: string): bool
    decreases |s|
  {
    if |p| > |s| then false
    else if s[..|p|] == p then true
    else Contains(s[1..], p)
  }

  /** The reference reading of a substring occurrence at position `i`. */
  predicate OccursAt(s: string, p: string, i: nat)
  {
    i + |p| <= |s| && s[i..i + |p|] == p
  }

  /** `Contains` agrees with "there is a position at which `p` occurs". */
  lemma {:induction false} ContainsIff(s: string, p: string)
    ensures Contains(s, p) <==> exists i: nat :: OccursAt(s, p, i)
    decreases |s|
  {
    if |p| > |s| {
    } else if s[..|p|] == p {
      assert OccursAt(s, p, 0);
    } else {
      ContainsIff(s[1..], p);
      if Contains(s[1..], p) {
        var i: nat :| OccursAt(s[1..], p, i);
        assert s[1..][i..i + |p|] == s[i + 1..i + 1 + |p|];
        assert OccursAt(s, p, i + 1);
      }
      if exists i: nat :: OccursAt(s, p, i) {
        var i: nat :| OccursAt(s, p, i);
        assert i != 0;
        assert s[1..][i - 1..i - 1 + |p|] == s[i..i + |p|];
        assert OccursAt(s[1..], p, i - 1);
      }
    }
  }

  /** Python's `any(p in s for p in ps)`. */
  predicate ContainsAny(s: string, ps: seq<string>)
  {
    exists i :: 0 <= i < |ps| && Contains(s, ps[i])
  }

  /** Python's `s.endswith(p)`. */
  predicate EndsWith(s: string, p: string)
  {
    |p| <= |s| && s[|s| - |p|..] == p
  }

  predicate IsDigit(c: char)
  {
    '0' <= c <= '9'
  }

  /** `re.search(r'\d+', s)` succeeds: some character of `s` is a decimal digit. */
  predicate HasDigit(s: string)
  {
    exists k :: 0 <= k < |s| && IsDigit(s[k])
  }

  /** `str.lower()` on one character: ASCII and Latin-1 capitals map to their small letters. */
  function LowerChar(c: char): char
  {
    if 'A' <= c <= 'Z' || ('À' <= c <= 'Þ' && c != '×') then
      (c as int + 32) as char
    else c
  }

  /** `str.upper()` on one character: ASCII and Latin-1 small letters map to their capitals. */
  function UpperChar(c: char): char
  {
    if 'a' <= c <= 'z' || ('à' <= c <= 'þ' && c != '÷') then
      (c as int - 32) as char
    else c
  }

  function Lower(s: string): (r: string)
    ensures |r| == |s| && forall k :: 0 <= k < |s| ==> r[k] == LowerChar(s[k])
  {
    seq(|s|, k requires 0 <= k < |s| => LowerChar(s[k]))
  }

  function Upper(s: string): (r: string)
    ensures |r| == |s| && forall k :: 0 <= k < |s| ==> r[k] == UpperChar(s[k])
  {
    seq(|s|, k requires 0 <= k < |s| => UpperChar(s[k]))
  }

  /** A pattern whose first character never occurs in `s` is not a substring of `s`. */
  lemma AbsentHeadNotContained(s: string, p: string)
    requires p != [] && p[0] !in s
    ensures !Contains(s, p)
  {
    ContainsIff(s, p);
  }

  /** A capital letter is absent from `Upper(s)` when neither it nor its small letter occurs in `s`. */
  lemma UpperAvoids(s: string, c: char)
    requires 'A' <= c <= 'Z' && c !in s && (c as int + 32) as char !in s
    ensures c !in Upper(s)
  {
  }
}
