/**
 * `sep.join(parts)` and its inverse on a one-character separator, as used for
 * `Path.as_posix()` (parts joined by `/`) and for the document (lines joined by
 * a newline).
 */
module Strings {

  /** `sep.join(parts)`. */
  function Join(parts: seq<string>, sep: string): string
    decreases |parts|
  {
    if parts == [] then ""
    else if |parts| == 1 then parts[0]
    else Join(parts[..|parts| - 1], sep) + sep + parts[|parts| - 1]
  }

  /** `s.split(c)`: the pieces of `s` between occurrences of `c`; always at least one. */
  function Split(s: string, c: char): (pieces: seq<string>)
    ensures |pieces| > 0
    decreases |s|
  {
    if s == [] then [""]
    else
      var init := Split(s[..|s| - 1], c);
      if s[|s| - 1] == c then init + [""]
      else init[..|init| - 1] + [init[|init| - 1] + [s[|s| - 1]]]
  }

  /** Joining two non-empty lists puts one separator between their joins. */
  lemma {:induction false} JoinAppend(a: seq<string>, b: seq<string>, sep: string)
    requires a != [] && b != []
    ensures Join(a + b, sep) == Join(a, sep) + sep + Join(b, sep)
    decreases |b|
  {
    var last := b[|b| - 1];
    assert (a + b)[..|a + b| - 1] == a + b[..|b| - 1];
    if |b| > 1 {
      JoinAppend(a, b[..|b| - 1], sep);
    } else {
      assert a + b == a + [last];
      assert (a + b)[..|a + b| - 1] == a;
    }
  }

  /** Splitting text with one more character: a new piece at a separator, else a longer last piece. */
  lemma SplitSnoc(s: string, ch: char, c: char)
    ensures ch == c ==> Split(s + [ch], c) == Split(s, c) + [""]
    ensures ch != c ==>
      Split(s + [ch], c) == Split(s, c)[..|Split(s, c)| - 1] + [Split(s, c)[|Split(s, c)| - 1] + [ch]]
  {
    assert (s + [ch])[..|s + [ch]| - 1] == s;
  }

  /** Text without the separator splits into itself alone, extending the last piece. */
  lemma {:induction false} SplitExtendLast(s: string, x: string, c: char)
    requires c !in x
    ensures Split(s + x, c) == Split(s, c)[..|Split(s, c)| - 1] + [Split(s, c)[|Split(s, c)| - 1] + x]
    decreases |x|
  {
    var p := Split(s, c);
    if x == [] {
      assert s + x == s;
      assert p[|p| - 1] + x == p[|p| - 1];
      assert p[..|p| - 1] + [p[|p| - 1]] == p;
    } else {
      var x', ch := x[..|x| - 1], x[|x| - 1];
      assert s + x == (s + x') + [ch];
      assert ch in x;
      SplitExtendLast(s, x', c);
      SplitSnoc(s + x', ch, c);
      var q := Split(s + x', c);
      assert q[..|q| - 1] == p[..|p| - 1];
      assert q[|q| - 1] == p[|p| - 1] + x';
      assert x' + [ch] == x;
      assert p[|p| - 1] + x' + [ch] == p[|p| - 1] + x;
    }
  }

  lemma SplitAfterSeparator(s: string, x: string, c: char)
    requires c !in x
    ensures Split(s + [c] + x, c) == Split(s, c) + [x]
  {
    assert (s + [c])[..|s + [c]| - 1] == s;
    assert Split(s + [c], c) == Split(s, c) + [""];
    SplitExtendLast(s + [c], x, c);
    assert "" + x == x;
  }

  /** Text without the separator splits into itself alone. */
  lemma SplitOfPlain(x: string, c: char)
    requires c !in x
    ensures Split(x, c) == [x]
  {
    SplitExtendLast("", x, c);
    assert "" + x == x;
  }

  lemma JoinLast(parts: seq<string>, sep: string)
    requires |parts| > 1
    ensures Join(parts, sep) == Join(parts[..|parts| - 1], sep) + sep + parts[|parts| - 1]
  {
  }

  /** Splitting undoes joining when no part contains the separator. */
  lemma {:induction false} SplitJoin(parts: seq<string>, c: char)
    requires parts != []
    requires forall k :: 0 <= k < |parts| ==> c !in parts[k]
    ensures Split(Join(parts, [c]), c) == parts
    decreases |parts|
  {
    var last := parts[|parts| - 1];
    assert c !in last;
    if |parts| == 1 {
      SplitOfPlain(last, c);
      assert parts == [last];
    } else {
      var init := parts[..|parts| - 1];
      forall k | 0 <= k < |init| ensures c !in init[k] {
        assert init[k] == parts[k];
      }
      SplitJoin(init, c);
      JoinLast(parts, [c]);
      SplitAfterSeparator(Join(init, [c]), last, c);
      assert init + [last] == parts;
    }
  }
}
