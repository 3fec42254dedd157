/** Python string semantics that the board-change logic relies on:
    `str.split(sep)` with an explicit one-character separator, `sep.join(parts)`,
    `str.strip()` with no argument, and the one-character tests `isdigit`,
    `isupper` and `islower`. Strings are `seq<char>`. */
module PyStr {

  type String = seq<char>

  /** Python's `str.isspace()` for one character: the ASCII control blanks,
      the information separators 0x1c-0x1f, space, NEL, NBSP and the Unicode
      space separators. */
  predicate IsSpace(c: char)
  {
    || c == ' ' || c == '\t' || c == '\n' || c == '\r'
    || c == '\U{0B}' || c == '\U{0C}'
    || ('\U{1C}' <= c <= '\U{1F}')
    || c == '\U{85}' || c == '\U{A0}' || c == '\U{1680}'
    || ('\U{2000}' <= c <= '\U{200A}')
    || c == '\U{2028}' || c == '\U{2029}' || c == '\U{202F}'
    || c == '\U{205F}' || c == '\U{3000}'
  }

  /** `ch.isdigit()`, restricted to the ASCII digits. */
  predicate IsDigit(c: char)
  {
    '0' <= c <= '9'
  }

  /** `ch.isupper()` for one ASCII character. */
  predicate IsUpper(c: char)
  {
    'A' <= c <= 'Z'
  }

  /** `ch.islower()` for one ASCII character. */
  predicate IsLower(c: char)
  {
    'a' <= c <= 'z'
  }

  /** `int(ch)` for an ASCII digit. */
  function DigitValue(c: char): (n: nat)
    requires IsDigit(c)
    ensures n <= 9
  {
    (c as int) - ('0' as int)
  }

  /** `c * n` in Python: `n` copies of the one-character string `c`. */
  function Repeat(c: char, n: nat): (r: String)
    ensures |r| == n
    ensures forall i :: 0 <= i < n ==> r[i] == c
  {
    if n == 0 then [] else Repeat(c, n - 1) + [c]
  }

  /** `s.split(sep)`: every occurrence of `sep` ends a field, so empty
      fields are kept and the result is never empty (`"".split(" ") == [""]`). */
  function Split(s: String, sep: char): (r: seq<String>)
    ensures |r| >= 1
    ensures forall i :: 0 <= i < |r| ==> sep !in r[i]
    decreases |s|
  {
    if |s| == 0 then [""]
    else if s[0] == sep then [""] + Split(s[1..], sep)
    else
      var rest := Split(s[1..], sep);
      [[s[0]] + rest[0]] + rest[1..]
  }

  /** `sep.join(parts)`. */
  function Join(parts: seq<String>, sep: char): String
  {
    if |parts| == 0 then ""
    else if |parts| == 1 then parts[0]
    else parts[0] + [sep] + Join(parts[1..], sep)
  }

  /** Number of occurrences of `c` in `s`. */
  function Count(s: String, c: char): nat
  {
    if |s| == 0 then 0 else (if s[0] == c then 1 else 0) + Count(s[1..], c)
  }

  /** Joining a leading field and at least one more field. */
  lemma JoinCons(x: String, parts: seq<String>, sep: char)
    requires |parts| >= 1
    ensures Join([x] + parts, sep) == x + [sep] + Join(parts, sep)
  {
    assert ([x] + parts)[1..] == parts;
  }

  /** Extending the first field of a join extends the joined string. */
  lemma JoinExtendHead(x: String, parts: seq<String>, sep: char)
    requires |parts| >= 1
    ensures Join([x + parts[0]] + parts[1..], sep) == x + Join(parts, sep)
  {
    if |parts| > 1 {
      JoinCons(x + parts[0], parts[1..], sep);
      assert parts == [parts[0]] + parts[1..];
      JoinCons(parts[0], parts[1..], sep);
    }
  }

  /** Joining the fields of a split with the same separator gives back the
      original string. */
  lemma {:induction false} JoinSplit(s: String, sep: char)
    ensures Join(Split(s, sep), sep) == s
    decreases |s|
  {
    if |s| > 0 {
      JoinSplit(s[1..], sep);
      var rest := Split(s[1..], sep);
      if s[0] == sep {
        assert Split(s, sep) == [""] + rest;
        JoinCons("", rest, sep);
      } else {
        assert Split(s, sep) == [[s[0]] + rest[0]] + rest[1..];
        JoinExtendHead([s[0]], rest, sep);
      }
      assert s == [s[0]] + s[1..];
    }
  }

  /** A split yields one more field than there are separators. */
  lemma {:induction false} SplitLength(s: String, sep: char)
    ensures |Split(s, sep)| == Count(s, sep) + 1
    decreases |s|
  {
    if |s| > 0 {
      SplitLength(s[1..], sep);
    }
  }

  /** A string without the separator splits into itself alone. */
  lemma {:induction false} SplitNoSeparator(s: String, sep: char)
    requires sep !in s
    ensures Split(s, sep) == [s]
    decreases |s|
  {
    if |s| > 0 {
      assert forall k :: 0 <= k < |s[1..]| ==> s[1..][k] == s[k + 1];
      assert sep !in s[1..];
      SplitNoSeparator(s[1..], sep);
      assert s == [s[0]] + s[1..];
    }
  }

  /** Splitting `a + sep + b`, where `a` has no separator, gives `a` and then
      the fields of `b`. */
  lemma {:induction false} SplitFirstField(a: String, sep: char, b: String)
    requires sep !in a
    ensures Split(a + [sep] + b, sep) == [a] + Split(b, sep)
    decreases |a|
  {
    var s := a + [sep] + b;
    if |a| == 0 {
      assert s == [sep] + b;
      assert s[1..] == b;
    } else {
      assert s[0] == a[0];
      assert s[1..] == a[1..] + [sep] + b;
      assert sep !in a[1..] by {
        assert forall k :: 0 <= k < |a[1..]| ==> a[1..][k] == a[k + 1];
      }
      SplitFirstField(a[1..], sep, b);
      assert a == [a[0]] + a[1..];
    }
  }

  /** Splitting a join of separator-free fields gives the fields back: the
      other half of the round trip with `JoinSplit`. */
  lemma {:induction false} SplitJoin(parts: seq<String>, sep: char)
    requires |parts| >= 1
    requires forall i :: 0 <= i < |parts| ==> sep !in parts[i]
    ensures Split(Join(parts, sep), sep) == parts
    decreases |parts|
  {
    if |parts| == 1 {
      SplitNoSeparator(parts[0], sep);
    } else {
      SplitJoin(parts[1..], sep);
      SplitFirstField(parts[0], sep, Join(parts[1..], sep));
      assert parts == [parts[0]] + parts[1..];
    }
  }

  /** The first field of a split is the longest separator-free prefix. */
  lemma {:induction false} SplitFirstIsPrefix(s: String, sep: char)
    ensures |Split(s, sep)[0]| <= |s|
    ensures Split(s, sep)[0] == s[..|Split(s, sep)[0]|]
    ensures |Split(s, sep)[0]| < |s| ==> s[|Split(s, sep)[0]|] == sep
    decreases |s|
  {
    if |s| > 0 && s[0] != sep {
      SplitFirstIsPrefix(s[1..], sep);
    }
  }

  /** Index of the first non-whitespace character of `s` at or after `i`
      (`|s|` when there is none): where `lstrip` cuts. */
  function StripStart(s: String, i: nat): (r: nat)
    requires i <= |s|
    ensures i <= r <= |s|
    ensures forall k :: i <= k < r ==> IsSpace(s[k])
    ensures r < |s| ==> !IsSpace(s[r])
    decreases |s| - i
  {
    if i < |s| && IsSpace(s[i]) then StripStart(s, i + 1) else i
  }

  /** End of the last non-whitespace character of `s` in `[lo, j)` (`lo`
      when there is none): where `rstrip` cuts. */
  function StripEnd(s: String, lo: nat, j: nat): (r: nat)
    requires lo <= j <= |s|
    ensures lo <= r <= j
    ensures forall k :: r <= k < j ==> IsSpace(s[k])
    ensures r > lo ==> !IsSpace(s[r - 1])
    decreases j
  {
    if j > lo && IsSpace(s[j - 1]) then StripEnd(s, lo, j - 1) else j
  }

  predicate AllSpace(t: String)
  {
    forall k :: 0 <= k < |t| ==> IsSpace(t[k])
  }

  /** A slice of `s` whose characters are all whitespace. */
  lemma AllSpaceSlice(s: String, i: nat, j: nat)
    requires i <= j <= |s|
    requires forall k :: i <= k < j ==> IsSpace(s[k])
    ensures AllSpace(s[i..j])
  {
    forall k | 0 <= k < j - i
      ensures IsSpace(s[i..j][k])
    {
      assert s[i..j][k] == s[i + k];
    }
  }

  /** `s.strip()`: the slice of `s` between its leading and trailing
      whitespace, with no whitespace left at either end. */
  function Strip(s: String): (r: String)
    ensures exists i, j :: 0 <= i <= j <= |s| && r == s[i..j] && AllSpace(s[..i]) && AllSpace(s[j..])
    ensures |r| > 0 ==> !IsSpace(r[0]) && !IsSpace(r[|r| - 1])
  {
    var i := StripStart(s, 0);
    var j := StripEnd(s, i, |s|);
    AllSpaceSlice(s, 0, i);
    AllSpaceSlice(s, j, |s|);
    assert s[0..i] == s[..i] && s[j..|s|] == s[j..];
    s[i..j]
  }

  /** Stripping twice is the same as stripping once. */
  lemma StripIdempotent(s: String)
    ensures Strip(Strip(s)) == Strip(s)
  {
    var t := Strip(s);
    if |t| > 0 {
      assert StripStart(t, 0) == 0;
      assert StripEnd(t, 0, |t|) == |t|;
      assert t[0..|t|] == t;
    }
  }

  /** A split yields a single field exactly when the separator is absent. */
  lemma {:induction false} SplitSingleField(s: String, sep: char)
    ensures |Split(s, sep)| == 1 <==> sep !in s
    decreases |s|
  {
    if |s| > 0 {
      SplitSingleField(s[1..], sep);
      assert s == [s[0]] + s[1..];
    }
  }

  /** Joining at least two fields puts a separator in the result. */
  lemma JoinHasSeparator(parts: seq<String>, sep: char)
    requires |parts| >= 2
    ensures sep in Join(parts, sep)
  {
    assert Join(parts, sep)[|parts[0]|] == sep;
  }
}
