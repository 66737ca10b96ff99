/**
 * The two string operations the candidate parser relies on: Python's
 * `str.strip()` with no argument and `str.split(sep)` with an explicit
 * one-character separator.
 */
module Text {

  /** Python's `str.isspace()` on one character: exactly the characters `strip()` removes. */
  predicate IsSpace(c: char) {
    || ('\t' <= c <= '\r')               // U+0009 .. U+000D
    || ('\U{1C}' <= c <= ' ')            // U+001C .. U+0020
    || c == '\U{85}' || c == '\U{A0}' || c == '\U{1680}'
    || ('\U{2000}' <= c <= '\U{200A}')
    || c == '\U{2028}' || c == '\U{2029}' || c == '\U{202F}'
    || c == '\U{205F}' || c == '\U{3000}'
  }

  ghost predicate AllSpace(s: string) {
    forall i :: 0 <= i < |s| ==> IsSpace(s[i])
  }

  /** A string whose first and last characters (if any) are not whitespace. */
  ghost predicate Trimmed(s: string) {
    s == [] || (!IsSpace(s[0]) && !IsSpace(s[|s| - 1]))
  }

  /** `s.lstrip()`. */
  function TrimLeft(s: string): string
    decreases |s|
  {
    if s != [] && IsSpace(s[0]) then TrimLeft(s[1..]) else s
  }

  /** `s.rstrip()`. */
  function TrimRight(s: string): string
    decreases |s|
  {
    if s != [] && IsSpace(s[|s| - 1]) then TrimRight(s[..|s| - 1]) else s
  }

  /** `lstrip()` keeps the suffix that starts at the first non-whitespace character. */
  lemma {:induction false} TrimLeftSpec(s: string)
    ensures var r := TrimLeft(s);
      && |r| <= |s| && r == s[|s| - |r|..]
      && AllSpace(s[..|s| - |r|])
      && (r == [] || !IsSpace(r[0]))
    decreases |s|
  {
    if s != [] && IsSpace(s[0]) {
      TrimLeftSpec(s[1..]);
    }
  }

  /** `rstrip()` keeps the prefix that ends at the last non-whitespace character. */
  lemma {:induction false} TrimRightSpec(s: string)
    ensures var r := TrimRight(s);
      && |r| <= |s| && r == s[..|r|]
      && AllSpace(s[|r|..])
      && (r == [] || !IsSpace(r[|r| - 1]))
    decreases |s|
  {
    if s != [] && IsSpace(s[|s| - 1]) {
      var r := TrimRight(s[..|s| - 1]);
      TrimRightSpec(s[..|s| - 1]);
      assert s[|r|..] == s[..|s| - 1][|r|..] + [s[|s| - 1]];
    }
  }

  /** `s.strip()`: `s` without its leading and trailing whitespace. */
  function Strip(s: string): string {
    TrimRight(TrimLeft(s))
  }

  /** The result of `strip()` starts and ends with non-whitespace, and is empty only for a blank string. */
  lemma StripSpec(s: string)
    ensures Trimmed(Strip(s))
    ensures Strip(s) == [] <==> AllSpace(s)
  {
    var left := TrimLeft(s);
    TrimLeftSpec(s);
    TrimRightSpec(left);
    assert left == [] ==> s[..|s| - |left|] == s;
    assert AllSpace(s) ==> left == [] by {
      if left != [] {
        assert left[0] == s[|s| - |left|];
      }
    }
  }

  /** What `strip()` removes is whitespace on both sides of its result. */
  lemma StripShape(s: string) returns (a: string, b: string)
    ensures AllSpace(a) && AllSpace(b) && s == a + Strip(s) + b
  {
    var left := TrimLeft(s);
    var r := TrimRight(left);
    TrimLeftSpec(s);
    TrimRightSpec(left);
    a, b := s[..|s| - |left|], left[|r|..];
    SliceInThree(s, |s| - |left|, |r|);
  }

  lemma SliceInThree<T>(s: seq<T>, i: nat, n: nat)
    requires i + n <= |s|
    ensures s == s[..i] + s[i..][..n] + s[i..][n..]
  {
  }

  /** Stripping is determined by the shape of its result: whitespace, a trimmed core, whitespace. */
  lemma StripCharacterised(a: string, m: string, b: string)
    requires AllSpace(a) && AllSpace(b) && Trimmed(m)
    ensures Strip(a + m + b) == m
  {
    var s := a + m + b;
    var r := Strip(s);
    StripSpec(s);
    var a', b' := StripShape(s);
    if m == [] {
      assert AllSpace(s);
    } else {
      assert s[|a|] == m[0];
      assert s[|s| - |b| - 1] == m[|m| - 1];
      assert r != [];
      // The first and last non-whitespace characters of `s` fix both split points.
      assert s[|a'|] == r[0];
      assert s[|s| - |b'| - 1] == r[|r| - 1];
      assert forall i :: 0 <= i < |a| ==> s[i] == a[i];
      assert forall i :: 0 <= i < |a'| ==> s[i] == a'[i];
      assert forall i :: 0 <= i < |b| ==> s[|s| - |b| + i] == b[i];
      assert forall i :: 0 <= i < |b'| ==> s[|s| - |b'| + i] == b'[i];
      assert |a'| == |a| && |b'| == |b|;
      assert r == s[|a|..|s| - |b|];
      assert m == s[|a|..|s| - |b|];
    }
  }

  /** Stripping twice is stripping once. */
  lemma StripIdempotent(s: string)
    ensures Strip(Strip(s)) == Strip(s)
  {
    StripSpec(s);
    StripCharacterised([], Strip(s), []);
    assert [] + Strip(s) + [] == Strip(s);
  }

  /** Position of the first occurrence of `c` in `s`. */
  function IndexOf(s: string, c: char): (i: nat)
    requires c in s
    ensures i < |s| && s[i] == c && c !in s[..i]
  {
    if s[0] == c then 0 else 1 + IndexOf(s[1..], c)
  }

  /** `sep.join(parts)`. */
  function Join(parts: seq<string>, sep: char): string {
    if parts == [] then []
    else if |parts| == 1 then parts[0]
    else parts[0] + [sep] + Join(parts[1..], sep)
  }

  /** `s.split(sep)`. */
  function Split(s: string, sep: char): seq<string>
    decreases |s|
  {
    if sep !in s then [s]
    else
      var i := IndexOf(s, sep);
      [s[..i]] + Split(s[i + 1..], sep)
  }

  /** The fields of `split` are the maximal `sep`-free pieces between the separators; there is always at least one. */
  lemma {:induction false} SplitSpec(s: string, sep: char)
    ensures var parts := Split(s, sep);
      && |parts| >= 1
      && (forall k :: 0 <= k < |parts| ==> sep !in parts[k])
      && Join(parts, sep) == s
      && (|parts| == 1 <==> sep !in s)
  {
    SplitFields(s, sep);
    SplitJoinsBack(s, sep);
  }

  lemma {:induction false} SplitFields(s: string, sep: char)
    ensures var parts := Split(s, sep);
      && |parts| >= 1
      && (forall k :: 0 <= k < |parts| ==> sep !in parts[k])
      && (|parts| == 1 <==> sep !in s)
    decreases |s|
  {
    if sep in s {
      var i := IndexOf(s, sep);
      var rest := Split(s[i + 1..], sep);
      SplitFields(s[i + 1..], sep);
      SplitUnfold(s, sep);
      var parts := [s[..i]] + rest;
      forall k | 1 <= k < |parts| ensures sep !in parts[k] {
        assert parts[k] == rest[k - 1];
      }
    }
  }

  lemma {:induction false} SplitJoinsBack(s: string, sep: char)
    ensures Join(Split(s, sep), sep) == s
    decreases |s|
  {
    if sep in s {
      var i := IndexOf(s, sep);
      var rest := Split(s[i + 1..], sep);
      SplitJoinsBack(s[i + 1..], sep);
      SplitFields(s[i + 1..], sep);
      SplitUnfold(s, sep);
      var parts := [s[..i]] + rest;
      assert parts[1..] == rest && |parts| > 1;
      calc {
        Join(parts, sep);
        s[..i] + [sep] + Join(rest, sep);
        s[..i] + [sep] + s[i + 1..];
        { Around(s, i); }
        s;
      }
    }
  }

  lemma Around(s: string, i: nat)
    requires i < |s|
    ensures s[..i] + [s[i]] + s[i + 1..] == s
  {
    assert s[..i] + [s[i]] + s[i + 1..] == s[..i] + s[i..];
  }

  lemma SplitUnfold(s: string, sep: char)
    requires sep in s
    ensures Split(s, sep) == [s[..IndexOf(s, sep)]] + Split(s[IndexOf(s, sep) + 1..], sep)
  {
  }

  /** Splitting undoes joining fields that do not contain the separator. */
  lemma {:induction false} SplitJoin(parts: seq<string>, sep: char)
    requires |parts| >= 1
    requires forall k :: 0 <= k < |parts| ==> sep !in parts[k]
    ensures Split(Join(parts, sep), sep) == parts
    decreases |parts|
  {
    if |parts| > 1 {
      var head, tail := parts[0], Join(parts[1..], sep);
      var s := head + [sep] + tail;
      assert s == Join(parts, sep);
      assert s[|head|] == sep;
      var i := IndexOf(s, sep);
      assert i == |head| by {
        assert s[..|head|] == head;
        assert sep !in head;
      }
      assert s[..i] == head;
      assert s[i + 1..] == tail;
      SplitJoin(parts[1..], sep);
      assert parts == [head] + parts[1..];
    }
  }
}
