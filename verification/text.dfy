/** The Ruby `String` operations the receiver relies on, restricted to what it uses:
    ASCII case mapping, `strip`, `split` on one character (with Ruby's removal of
    trailing empty fields), `split(c, 2)`, whitespace `split`, and `join`. */
module Text {
  import opened Wrappers

  /** Characters `String#strip` removes: NUL, tab, line feed, vertical tab, form feed,
      carriage return and space. */
  predicate IsStripSpace(c: char) {
    c == '\0' || c == '\t' || c == '\n' || c as int == 11 || c as int == 12 || c == '\r' || c == ' '
  }

  /** Characters a whitespace `String#split` separates on (the same set without NUL). */
  predicate IsSplitSpace(c: char) {
    c == '\t' || c == '\n' || c as int == 11 || c as int == 12 || c == '\r' || c == ' '
  }

  function Lower(c: char): char {
    if 'A' <= c <= 'Z' then (c as int + 32) as char else c
  }

  function Upper(c: char): char {
    if 'a' <= c <= 'z' then (c as int - 32) as char else c
  }

  function Downcase(s: string): string {
    seq(|s|, i requires 0 <= i < |s| => Lower(s[i]))
  }

  function Upcase(s: string): string {
    seq(|s|, i requires 0 <= i < |s| => Upper(s[i]))
  }

  /** Number of leading characters `strip` removes. */
  function LeadingSpace(s: string): (n: nat)
    ensures n <= |s|
    ensures forall k :: 0 <= k < n ==> IsStripSpace(s[k])
    ensures n == |s| || !IsStripSpace(s[n])
  {
    if |s| > 0 && IsStripSpace(s[0]) then 1 + LeadingSpace(s[1..]) else 0
  }

  /** Length of `s` once `strip` has removed its trailing space. */
  function TrailingEnd(s: string): (n: nat)
    ensures n <= |s|
    ensures forall k :: n <= k < |s| ==> IsStripSpace(s[k])
    ensures n == 0 || !IsStripSpace(s[n - 1])
  {
    if |s| > 0 && IsStripSpace(s[|s| - 1]) then TrailingEnd(s[..|s| - 1]) else |s|
  }

  /** Ruby's `String#strip`: the longest infix that neither starts nor ends with space,
      obtained by removing only space from both ends. */
  function Strip(s: string): (r: string)
    ensures exists a :: StrippedAt(s, a, r)
    ensures |r| == 0 || (!IsStripSpace(r[0]) && !IsStripSpace(r[|r| - 1]))
  {
    var a := LeadingSpace(s);
    var t := s[a..];
    var r := t[..TrailingEnd(t)];
    assert r == s[a..a + |r|];
    assert StrippedAt(s, a, r);
    r
  }

  /** `r` is `s` with only space removed before offset `a` and after `a + |r|`. */
  ghost predicate StrippedAt(s: string, a: int, r: string) {
    && 0 <= a <= |s| - |r|
    && r == s[a..a + |r|]
    && (forall k :: 0 <= k < a ==> IsStripSpace(s[k]))
    && (forall k :: a + |r| <= k < |s| ==> IsStripSpace(s[k]))
  }

  /** A character that is not space survives stripping, at its offset less `a`. */
  lemma StrippedKeeps(s: string, a: int, r: string, p: int)
    requires StrippedAt(s, a, r) && 0 <= p < |s| && !IsStripSpace(s[p])
    ensures a <= p < a + |r| && r[p - a] == s[p]
  {
  }

  /** Every field of `s` between occurrences of `sep`, empty fields included:
      one more field than there are separators. */
  function Fields(s: string, sep: char): (r: seq<string>)
    ensures |r| >= 1
    ensures forall i, k :: 0 <= i < |r| && 0 <= k < |r[i]| ==> r[i][k] != sep
  {
    if |s| == 0 then [""]
    else if s[0] == sep then [""] + Fields(s[1..], sep)
    else
      var t := Fields(s[1..], sep);
      [[s[0]] + t[0]] + t[1..]
  }

  /** `parts.join(sep)`. */
  function Join(parts: seq<string>, sep: char): string {
    if |parts| == 0 then ""
    else if |parts| == 1 then parts[0]
    else parts[0] + [sep] + Join(parts[1..], sep)
  }

  /** Ruby drops the trailing empty fields of a `split` without limit. */
  function DropTrailingEmpty(r: seq<string>): (d: seq<string>)
    ensures |d| <= |r| && d == r[..|d|]
    ensures |d| == 0 || d[|d| - 1] != ""
    ensures forall k :: |d| <= k < |r| ==> r[k] == ""
  {
    if |r| > 0 && r[|r| - 1] == "" then DropTrailingEmpty(r[..|r| - 1]) else r
  }

  /** Ruby's `s.split(sep)` for a one-character separator. */
  function Split(s: string, sep: char): seq<string> {
    DropTrailingEmpty(Fields(s, sep))
  }

  /** Ruby's `s.split(sep, 2)`: the text before the first `sep` and, when there is one,
      the text after it. */
  function SplitOnce(s: string, sep: char): (r: (string, Option<string>))
    ensures r.1.None? <==> sep !in s
    ensures r.1.None? ==> r.0 == s
    ensures r.1.Some? ==> s == r.0 + [sep] + r.1.value && sep !in r.0
  {
    if |s| == 0 then ("", None)
    else if s[0] == sep then ("", Some(s[1..]))
    else
      var t := SplitOnce(s[1..], sep);
      assert s == [s[0]] + s[1..];
      ([s[0]] + t.0, t.1)
  }

  /** Ruby's `s.split` with no argument: the maximal runs of non-space characters. */
  function Words(s: string): (r: seq<string>)
    ensures forall i :: 0 <= i < |r| ==> |r[i]| > 0
    decreases |s|
  {
    if |s| == 0 then []
    else if IsSplitSpace(s[0]) then Words(s[1..])
    else
      var n := WordEnd(s, 0);
      [s[..n]] + Words(s[n..])
  }

  function WordEnd(s: string, i: nat): (n: nat)
    requires i <= |s|
    ensures i <= n <= |s|
    ensures forall k :: i <= k < n ==> !IsSplitSpace(s[k])
    ensures n == |s| || IsSplitSpace(s[n])
    decreases |s| - i
  {
    if i == |s| || IsSplitSpace(s[i]) then i else WordEnd(s, i + 1)
  }

  /** Joining three parts puts the separator between them. */
  lemma JoinThree(a: string, b: string, c: string, sep: char)
    ensures Join([a, b, c], sep) == a + [sep] + b + [sep] + c
  {
    assert [a, b, c][1..] == [b, c];
    assert [b, c][1..] == [c];
    assert Join([c], sep) == c;
    assert Join([b, c], sep) == b + [sep] + c;
    assert Join([a, b, c], sep) == a + [sep] + (b + [sep] + c);
  }

  /** Joining the fields of a split gives the text back. */
  lemma {:induction false} JoinFields(s: string, sep: char)
    ensures Join(Fields(s, sep), sep) == s
  {
    if |s| == 0 {
    } else if s[0] == sep {
      JoinFields(s[1..], sep);
      assert s == [sep] + s[1..];
    } else {
      var t := Fields(s[1..], sep);
      JoinFields(s[1..], sep);
      if |t| == 1 {
        assert s == [s[0]] + s[1..];
      } else {
        var r := Fields(s, sep);
        assert r[1..] == t[1..];
        assert s == [s[0]] + s[1..];
      }
    }
  }

  /** Splitting a join of separator-free parts gives the parts back. */
  lemma {:induction false} FieldsJoin(parts: seq<string>, sep: char)
    requires |parts| >= 1
    requires forall i :: 0 <= i < |parts| ==> sep !in parts[i]
    ensures Fields(Join(parts, sep), sep) == parts
    decreases |parts|, |parts[0]|
  {
    if |parts| == 1 {
      FieldsOfPlain(parts[0], sep);
    } else if |parts[0]| == 0 {
      var s := Join(parts, sep);
      assert s == [sep] + Join(parts[1..], sep);
      assert s[1..] == Join(parts[1..], sep);
      FieldsJoin(parts[1..], sep);
    } else {
      var s := Join(parts, sep);
      var shorter := [parts[0][1..]] + parts[1..];
      assert shorter[1..] == parts[1..];
      assert Join(shorter, sep) == parts[0][1..] + [sep] + Join(parts[1..], sep);
      assert s[1..] == Join(shorter, sep);
      assert s[0] == parts[0][0];
      FieldsJoin(shorter, sep);
      assert [s[0]] + parts[0][1..] == parts[0];
    }
  }

  lemma {:induction false} FieldsOfPlain(s: string, sep: char)
    requires sep !in s
    ensures Fields(s, sep) == [s]
  {
    if |s| > 0 {
      FieldsOfPlain(s[1..], sep);
      assert s == [s[0]] + s[1..];
    }
  }
}
