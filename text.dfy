/** The string operations the page relies on: `split`/`join` on a one-character
    separator, `includes`, and the decimal rendering of a counter. */
module Text {

  /** `s.split(sep)` for a one-character separator: the pieces between separators,
      one more piece than there are separators. Built from the end of `s`. */
  function Split(s: string, sep: char): (parts: seq<string>)
    ensures |parts| >= 1
    ensures forall i | 0 <= i < |parts| :: sep !in parts[i]
    decreases |s|
  {
    if s == [] then [""]
    else
      var init := Split(s[..|s| - 1], sep);
      var c := s[|s| - 1];
      if c == sep then init + [""]
      else init[..|init| - 1] + [init[|init| - 1] + [c]]
  }

  /** `parts.join(sep)`. */
  function Join(parts: seq<string>, sep: char): string
    requires |parts| >= 1
  {
    if |parts| == 1 then parts[0]
    else Join(parts[..|parts| - 1], sep) + [sep] + parts[|parts| - 1]
  }

  /** `parts.pop()` on a non-empty array: its last element. */
  function Last(parts: seq<string>): string
    requires |parts| >= 1
  {
    parts[|parts| - 1]
  }

  /** Joining the pieces of a split gives back the original string. */
  lemma {:induction false} JoinSplit(s: string, sep: char)
    ensures Join(Split(s, sep), sep) == s
    decreases |s|
  {
    if s != [] {
      var s' := s[..|s| - 1];
      var c := s[|s| - 1];
      var init := Split(s', sep);
      JoinSplit(s', sep);
      if c != sep && |init| > 1 {
        var parts := init[..|init| - 1] + [init[|init| - 1] + [c]];
        assert parts[..|parts| - 1] == init[..|init| - 1];
      }
      assert s == s' + [c];
    }
  }

  /** One more character that is not the separator lengthens the last piece. */
  lemma SplitSnocPlain(s: string, c: char, sep: char)
    requires c != sep
    ensures var p := Split(s, sep);
            Split(s + [c], sep) == p[..|p| - 1] + [Last(p) + [c]]
  {
    assert (s + [c])[..|s|] == s;
  }

  /** Lengthening the last piece twice, by `t` and then by `c`, lengthens it by
      `t + [c]` and leaves the other pieces alone. */
  lemma ExtendLastTwice(pa: seq<string>, pm: seq<string>, pn: seq<string>, t: string, c: char)
    requires |pa| >= 1 && |pm| >= 1
    requires pm == pa[..|pa| - 1] + [Last(pa) + t]
    requires pn == pm[..|pm| - 1] + [Last(pm) + [c]]
    ensures pn == pa[..|pa| - 1] + [Last(pa) + (t + [c])]
  {
    assert pm[..|pm| - 1] == pa[..|pa| - 1];
    assert Last(pa) + t + [c] == Last(pa) + (t + [c]);
  }

  /** Appending text without a separator only lengthens the last piece. */
  lemma {:induction false} SplitAppendPlain(a: string, b: string, sep: char)
    requires sep !in b
    ensures var pa := Split(a, sep);
            Split(a + b, sep) == pa[..|pa| - 1] + [Last(pa) + b]
    decreases |b|
  {
    var pa := Split(a, sep);
    if b == [] {
      assert a + b == a;
      assert Last(pa) + b == Last(pa);
      assert pa[..|pa| - 1] + [Last(pa)] == pa;
    } else {
      var b', c := b[..|b| - 1], b[|b| - 1];
      assert b == b' + [c];
      assert a + b == (a + b') + [c];
      SplitAppendPlain(a, b', sep);
      SplitSnocPlain(a + b', c, sep);
      ExtendLastTwice(pa, Split(a + b', sep), Split(a + b, sep), b', c);
    }
  }

  /** A trailing separator starts a new, empty piece. */
  lemma SplitSnocSep(s: string, sep: char)
    ensures Split(s + [sep], sep) == Split(s, sep) + [""]
  {
    assert (s + [sep])[..|s|] == s;
  }

  /** Filling the empty last piece of `init + [""]` with `t` gives `init + [t]`. */
  lemma FillEmptyLast(init: seq<string>, t: string, q: seq<string>, r: seq<string>)
    requires q == init + [""]
    requires r == q[..|q| - 1] + [Last(q) + t]
    ensures r == init + [t]
  {
    assert q[..|q| - 1] == init;
    assert Last(q) + t == t;
  }

  /** One more separator-free piece joined on is split off again as the last piece. */
  lemma SplitJoinSnoc(init: seq<string>, last: string, sep: char)
    requires |init| >= 1 && Split(Join(init, sep), sep) == init
    requires sep !in last
    ensures Split(Join(init + [last], sep), sep) == init + [last]
  {
    var prefix := Join(init, sep) + [sep];
    assert (init + [last])[..|init|] == init;
    assert Join(init + [last], sep) == prefix + last;
    SplitSnocSep(Join(init, sep), sep);
    SplitAppendPlain(prefix, last, sep);
    FillEmptyLast(init, last, Split(prefix, sep), Split(prefix + last, sep));
  }

  /** Splitting a join of separator-free pieces gives back the pieces. */
  lemma {:induction false} SplitJoin(parts: seq<string>, sep: char)
    requires |parts| >= 1
    requires forall i | 0 <= i < |parts| :: sep !in parts[i]
    ensures Split(Join(parts, sep), sep) == parts
    decreases |parts|
  {
    if |parts| == 1 {
      SplitAppendPlain([], parts[0], sep);
      assert [] + parts[0] == parts[0];
    } else {
      var init, last := parts[..|parts| - 1], Last(parts);
      assert init + [last] == parts;
      SplitJoin(init, sep);
      SplitJoinSnoc(init, last, sep);
    }
  }

  /** `s.startsWith(p)`. */
  predicate StartsWith(s: string, p: string)
  {
    |p| <= |s| && s[..|p|] == p
  }

  /** `s.includes(p)`: `p` occurs in `s` at some position. */
  predicate Contains(s: string, p: string)
    ensures Contains(s, p) ==> |p| <= |s|
    decreases |s|
  {
    StartsWith(s, p) || (|s| > 0 && Contains(s[1..], p))
  }

  /** Every occurrence of `p` at a position of `s` is found by `Contains`. */
  lemma {:induction false} ContainsAt(s: string, p: string, i: nat)
    requires i + |p| <= |s| && s[i..i + |p|] == p
    ensures Contains(s, p)
    decreases i
  {
    if i > 0 {
      assert s[1..][i - 1..i - 1 + |p|] == s[i..i + |p|];
      ContainsAt(s[1..], p, i - 1);
    }
  }

  /** `p` occurs in `s` starting at position `i`. */
  predicate OccursAt(s: string, p: string, i: nat)
  {
    i + |p| <= |s| && s[i..i + |p|] == p
  }

  /** Conversely, `Contains` holds only where `p` occurs at some position of `s`. */
  lemma {:induction false} ContainsFound(s: string, p: string)
    requires Contains(s, p)
    ensures exists i: nat :: OccursAt(s, p, i)
    decreases |s|
  {
    if StartsWith(s, p) {
      assert OccursAt(s, p, 0);
    } else {
      ContainsFound(s[1..], p);
      var i: nat :| OccursAt(s[1..], p, i);
      assert s[1..][i..i + |p|] == s[i + 1..i + 1 + |p|];
      assert OccursAt(s, p, i + 1);
    }
  }

  /** A string contains only the characters of its substrings: a pattern with a
      character that `s` lacks does not occur in `s`. */
  lemma {:induction false} ContainsOnlyOwnChars(s: string, p: string, c: char)
    requires Contains(s, p) && c in p
    ensures c in s
    decreases |s|
  {
    if StartsWith(s, p) {
      var k :| 0 <= k < |p| && p[k] == c;
      assert s[k] == c;
    } else {
      ContainsOnlyOwnChars(s[1..], p, c);
      var k :| 0 <= k < |s[1..]| && s[1..][k] == c;
      assert s[k + 1] == c;
    }
  }

  /** The decimal digit for `d`. */
  function DigitChar(d: nat): (c: char)
    requires d < 10
  {
    ('0' as int + d) as char
  }

  predicate IsDigits(s: string)
  {
    forall i | 0 <= i < |s| :: '0' <= s[i] <= '9'
  }

  /** `String(n)` for a non-negative integer: its decimal digits, most significant
      first, with no leading zero. */
  function DecimalString(n: nat): (s: string)
    ensures |s| >= 1 && IsDigits(s)
    ensures s[0] == '0' ==> n == 0
  {
    if n < 10 then [DigitChar(n)] else DecimalString(n / 10) + [DigitChar(n % 10)]
  }

  /** The number a string of decimal digits denotes. */
  function DecimalValue(s: string): nat
    requires IsDigits(s)
  {
    if s == [] then 0
    else DecimalValue(s[..|s| - 1]) * 10 + (s[|s| - 1] as int - '0' as int)
  }

  /** Reading back the decimal rendering of `n` gives `n`. */
  lemma {:induction false} DecimalRoundTrip(n: nat)
    ensures DecimalValue(DecimalString(n)) == n
  {
    if n >= 10 {
      DecimalRoundTrip(n / 10);
      var s := DecimalString(n);
      assert s[..|s| - 1] == DecimalString(n / 10);
    }
  }

  /** Distinct numbers have distinct decimal renderings. */
  lemma DecimalInjective(m: nat, n: nat)
    requires DecimalString(m) == DecimalString(n)
    ensures m == n
  {
    DecimalRoundTrip(m);
    DecimalRoundTrip(n);
  }
}
