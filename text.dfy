/**
 * The string operations the source uses, with JavaScript's semantics:
 * `startsWith`, `indexOf`, `replace` with a string pattern, `split`/`slice`/`join`,
 * the comparison used to sort ISO dates, and decimal formatting of numbers.
 */
module Text {
  import opened Wrappers

  /** `s.startsWith(p)` */
  predicate StartsWith(s: string, p: string) {
    |p| <= |s| && s[..|p|] == p
  }

  /** `s.indexOf(pat)`: the first position where `pat` occurs, None for -1. */
  function IndexOf(s: string, pat: string): (r: Option<nat>)
    ensures r.Some? ==> r.value <= |s| && StartsWith(s[r.value..], pat)
    ensures r.Some? ==> forall j :: 0 <= j < r.value ==> !StartsWith(s[j..], pat)
    ensures r.None? ==> forall j :: 0 <= j <= |s| ==> !StartsWith(s[j..], pat)
    decreases |s|
  {
    if StartsWith(s, pat) then Some(0)
    else if s == [] then None
    else
      assert forall j :: 1 <= j <= |s| ==> s[j..] == s[1..][j - 1..];
      match IndexOf(s[1..], pat)
      case None => None
      case Some(i) => Some(i + 1)
  }

  /** A text that starts with `pat` finds it at position 0. */
  lemma IndexOfAtStart(s: string, pat: string)
    requires StartsWith(s, pat)
    ensures IndexOf(s, pat) == Some(0)
  {
  }

  /** A pattern whose first character does not occur in `s` is not found. */
  lemma IndexOfAbsent(s: string, pat: string)
    requires |pat| > 0 && pat[0] !in s
    ensures IndexOf(s, pat) == None
  {
    forall j | 0 <= j <= |s|
      ensures !StartsWith(s[j..], pat)
    {
      if j < |s| {
        assert s[j..][0] == s[j];
      }
    }
  }

  /** `s.replace(pat, '')` with a string pattern: only the first occurrence is deleted. */
  function RemoveFirst(s: string, pat: string): string {
    match IndexOf(s, pat)
    case None => s
    case Some(i) => s[..i] + s[i + |pat|..]
  }

  /** Deleting a pattern that `s` starts with deletes exactly that leading text. */
  lemma RemoveLeading(s: string, p: string)
    requires StartsWith(s, p)
    ensures RemoveFirst(s, p) == s[|p|..]
  {
    assert IndexOf(s, p) == Some(0);
  }

  /**
   * Deleting the first ".jpg" from `d + ".jpg"` gives back `d` whenever `d` has no dot:
   * no occurrence can start inside `d`, so the first one is the suffix.
   */
  lemma RemoveTrailing(d: string, suffix: string)
    requires |suffix| > 0 && suffix[0] !in d
    ensures RemoveFirst(d + suffix, suffix) == d
  {
    var s := d + suffix;
    assert StartsWith(s[|d|..], suffix);
    forall j | 0 <= j < |d|
      ensures !StartsWith(s[j..], suffix)
    {
      assert s[j..][0] == d[j];
    }
    match IndexOf(s, suffix)
    case None =>
      assert false;
    case Some(i) =>
      assert i == |d|;
  }

  /** A text that differs from `p` at a position inside both does not start with `p`. */
  lemma NotPrefixAt(s: string, p: string, i: nat)
    requires i < |p| && i < |s| && s[i] != p[i]
    ensures !StartsWith(s, p)
  {
    if |p| <= |s| {
      assert s[..|p|][i] == s[i];
    }
  }

  /** `s.split(c)` for a one-character separator; "" splits into [""]. */
  function Split(s: string, c: char): (parts: seq<string>)
    ensures |parts| >= 1
    ensures forall i :: 0 <= i < |parts| ==> c !in parts[i]
    decreases |s|
  {
    if s == [] then [""]
    else
      var rest := Split(s[1..], c);
      if s[0] == c then [""] + rest
      else [[s[0]] + rest[0]] + rest[1..]
  }

  /** `parts.join(c)` */
  function Join(parts: seq<string>, c: char): string {
    if |parts| == 0 then ""
    else if |parts| == 1 then parts[0]
    else parts[0] + [c] + Join(parts[1..], c)
  }

  /** Splitting a text with a separator after a separator-free head gives the head, then the rest. */
  lemma {:induction false} SplitAfterHead(a: string, b: string, c: char)
    requires c !in a
    ensures Split(a + [c] + b, c) == [a] + Split(b, c)
    decreases |a|
  {
    var s := a + [c] + b;
    if a == [] {
      assert s[1..] == b;
    } else {
      assert s[1..] == a[1..] + [c] + b;
      SplitAfterHead(a[1..], b, c);
      assert [a[0]] + a[1..] == a;
    }
  }

  /** A text without the separator splits into itself alone. */
  lemma {:induction false} SplitWithoutSeparator(a: string, c: char)
    requires c !in a
    ensures Split(a, c) == [a]
    decreases |a|
  {
    if a != [] {
      SplitWithoutSeparator(a[1..], c);
      assert [a[0]] + a[1..] == a;
    }
  }

  /** Joining separator-free parts and splitting again gives the parts back. */
  lemma {:induction false} SplitJoin(parts: seq<string>, c: char)
    requires |parts| >= 1
    requires forall i :: 0 <= i < |parts| ==> c !in parts[i]
    ensures Split(Join(parts, c), c) == parts
  {
    if |parts| == 1 {
      SplitWithoutSeparator(parts[0], c);
    } else {
      SplitJoin(parts[1..], c);
      SplitAfterHead(parts[0], Join(parts[1..], c), c);
      assert [parts[0]] + parts[1..] == parts;
    }
  }

  /** `parts.slice(0, n)` */
  function Take<T>(parts: seq<T>, n: nat): seq<T> {
    if n <= |parts| then parts[..n] else parts
  }

  /** Splitting on `c` and joining with `c` gives back the original text. */
  lemma {:induction false} JoinSplit(s: string, c: char)
    ensures Join(Split(s, c), c) == s
    decreases |s|
  {
    if s != [] {
      var rest := Split(s[1..], c);
      JoinSplit(s[1..], c);
      if s[0] == c {
        assert ([""] + rest)[1..] == rest;
      } else {
        var parts := [[s[0]] + rest[0]] + rest[1..];
        assert parts[1..] == rest[1..];
        if |rest| > 1 {
          assert Join(rest, c) == rest[0] + [c] + Join(rest[1..], c);
          assert Join(parts, c) == [s[0]] + rest[0] + [c] + Join(rest[1..], c);
        }
      }
    }
  }

  /**
   * The text of `s` before its `n`-th occurrence of `c`, or all of `s` when it has fewer:
   * an independent description of what `split(c).slice(0, n).join(c)` computes.
   */
  function BeforeNth(s: string, c: char, n: nat): string
    decreases |s|
  {
    if n == 0 || s == [] then ""
    else if s[0] == c then (if n == 1 then "" else [c] + BeforeNth(s[1..], c, n - 1))
    else [s[0]] + BeforeNth(s[1..], c, n)
  }

  lemma {:induction false} JoinConsHead(x: char, t: seq<string>, c: char)
    requires |t| >= 1
    ensures Join([[x] + t[0]] + t[1..], c) == [x] + Join(t, c)
  {
    var u := [[x] + t[0]] + t[1..];
    assert u[0] == [x] + t[0];
    if |t| > 1 {
      assert u[1..] == t[1..];
    }
  }

  /** `s.split(c).slice(0, n).join(c)` is the text before the `n`-th `c`. */
  lemma {:induction false} JoinTakeSplit(s: string, c: char, n: nat)
    requires n >= 1
    ensures Join(Take(Split(s, c), n), c) == BeforeNth(s, c, n)
    decreases |s|
  {
    if s != [] {
      if s[0] != c {
        JoinTakeSplit(s[1..], c, n);
        TakeSplitOther(s, c, n);
      } else if n == 1 {
        assert Take(Split(s, c), n) == [""];
      } else {
        JoinTakeSplit(s[1..], c, n - 1);
        TakeSplitSeparator(s, c, n);
      }
    }
  }

  /** The step of `JoinTakeSplit` past a leading separator. */
  lemma TakeSplitSeparator(s: string, c: char, n: nat)
    requires s != [] && s[0] == c && n >= 2
    requires Join(Take(Split(s[1..], c), n - 1), c) == BeforeNth(s[1..], c, n - 1)
    ensures Join(Take(Split(s, c), n), c) == BeforeNth(s, c, n)
  {
    var t := Take(Split(s[1..], c), n - 1);
    assert Take([""] + Split(s[1..], c), n) == [""] + t;
    assert ([""] + t)[1..] == t;
  }

  /** The step of `JoinTakeSplit` past a leading character other than the separator. */
  lemma TakeSplitOther(s: string, c: char, n: nat)
    requires s != [] && s[0] != c && n >= 1
    requires Join(Take(Split(s[1..], c), n), c) == BeforeNth(s[1..], c, n)
    ensures Join(Take(Split(s, c), n), c) == BeforeNth(s, c, n)
  {
    var rest := Split(s[1..], c);
    var parts := [[s[0]] + rest[0]] + rest[1..];
    var t := Take(rest, n);
    assert t[0] == rest[0];
    assert Take(parts, n) == [[s[0]] + t[0]] + t[1..];
    JoinConsHead(s[0], t, c);
  }

  lemma {:induction false} BeforeNthIsPrefix(s: string, c: char, n: nat)
    ensures StartsWith(s, BeforeNth(s, c, n))
    decreases |s|
  {
    if n != 0 && s != [] {
      if s[0] == c {
        if n > 1 {
          BeforeNthIsPrefix(s[1..], c, n - 1);
        }
      } else {
        BeforeNthIsPrefix(s[1..], c, n);
      }
    }
  }

  /** Text free of `c` is copied as it stands before the search goes on. */
  lemma {:induction false} BeforeNthSkips(p: string, q: string, c: char, n: nat)
    requires n >= 1 && c !in p
    ensures BeforeNth(p + q, c, n) == p + BeforeNth(q, c, n)
    decreases |p|
  {
    if p == [] {
      assert p + q == q;
    } else {
      assert (p + q)[0] == p[0];
      assert (p + q)[1..] == p[1..] + q;
      assert p[0] != c;
      BeforeNthSkips(p[1..], q, c, n);
      assert p == [p[0]] + p[1..];
    }
  }

  /** A leading separator is copied and counts as one occurrence. */
  lemma BeforeNthSeparator(t: string, c: char, n: nat)
    requires n >= 1
    ensures BeforeNth([c] + t, c, n + 1) == [c] + BeforeNth(t, c, n)
  {
    assert ([c] + t)[1..] == t;
  }

  /** Lexicographic order on code units: the order `localeCompare` gives ISO dates. */
  predicate LexLe(a: string, b: string)
    decreases |a|
  {
    |a| == 0 || (|b| > 0 && (a[0] < b[0] || (a[0] == b[0] && LexLe(a[1..], b[1..]))))
  }

  lemma {:induction false} LexLeTotal(a: string, b: string)
    ensures LexLe(a, b) || LexLe(b, a)
    decreases |a|
  {
    if |a| > 0 && |b| > 0 && a[0] == b[0] {
      LexLeTotal(a[1..], b[1..]);
    }
  }

  lemma {:induction false} LexLeTransitive(a: string, b: string, c: string)
    requires LexLe(a, b) && LexLe(b, c)
    ensures LexLe(a, c)
    decreases |a|
  {
    if |a| > 0 && a[0] == b[0] && b[0] == c[0] {
      LexLeTransitive(a[1..], b[1..], c[1..]);
    }
  }

  lemma {:induction false} LexLeAntisymmetric(a: string, b: string)
    requires LexLe(a, b) && LexLe(b, a)
    ensures a == b
    decreases |a|
  {
    if |a| > 0 {
      LexLeAntisymmetric(a[1..], b[1..]);
      assert a == [a[0]] + a[1..] && b == [b[0]] + b[1..];
    }
  }

  predicate IsDigit(ch: char) {
    '0' <= ch <= '9'
  }

  /** `String(n)` for a non-negative integer: its decimal digits, no leading zero. */
  function NatToString(n: nat): (s: string)
    ensures |s| >= 1
    ensures forall i :: 0 <= i < |s| ==> IsDigit(s[i])
    ensures |s| > 1 ==> s[0] != '0'
  {
    var digit := ['0' + (n % 10) as char];
    if n < 10 then digit else NatToString(n / 10) + digit
  }

  /** Distinct numbers are written differently. */
  lemma {:induction false} NatToStringInjective(a: nat, b: nat)
    requires NatToString(a) == NatToString(b)
    ensures a == b
  {
    var sa, sb := NatToString(a), NatToString(b);
    assert sa[|sa| - 1] == '0' + (a % 10) as char;
    assert sb[|sb| - 1] == '0' + (b % 10) as char;
    if a >= 10 && b >= 10 {
      assert NatToString(a / 10) == sa[..|sa| - 1];
      assert NatToString(b / 10) == sb[..|sb| - 1];
      NatToStringInjective(a / 10, b / 10);
    }
  }

  /** `String(i)` for any integer. */
  function IntToString(i: int): (s: string)
    ensures |s| >= 1
    ensures i >= 0 ==> forall k :: 0 <= k < |s| ==> IsDigit(s[k])
    ensures i < 0 ==> s[0] == '-'
  {
    if i < 0 then "-" + NatToString(-i) else NatToString(i)
  }

  /** Distinct integers are written differently. */
  lemma IntToStringInjective(a: int, b: int)
    requires IntToString(a) == IntToString(b)
    ensures a == b
  {
    if a < 0 && b < 0 {
      assert IntToString(a)[1..] == NatToString(-a);
      assert IntToString(b)[1..] == NatToString(-b);
      NatToStringInjective(-a, -b);
    } else if a >= 0 && b >= 0 {
      NatToStringInjective(a, b);
    }
  }
}
