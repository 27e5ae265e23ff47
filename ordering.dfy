/**
 * Orderings used by the flattener: Python compares strings by code point,
 * and path objects by their tuple of parts, both lexicographically with a
 * proper prefix sorting first.
 */
module Ordering {

  /** `lt` is irreflexive, transitive and connected: a strict total order. */
  ghost predicate StrictTotalOrder<T(!new)>(lt: (T, T) -> bool) {
    && (forall x :: !lt(x, x))
    && (forall x, y, z :: lt(x, y) && lt(y, z) ==> lt(x, z))
    && (forall x, y :: x != y ==> lt(x, y) || lt(y, x))
  }

  /** Code point order on characters. */
  predicate CharLt(x: char, y: char) {
    x < y
  }

  /** Lexicographic extension of `lt` to sequences; a proper prefix is smaller. */
  predicate LexLt<T(==)>(a: seq<T>, b: seq<T>, lt: (T, T) -> bool) {
    if |a| == 0 then |b| > 0
    else if |b| == 0 then false
    else if a[0] == b[0] then LexLt(a[1..], b[1..], lt)
    else lt(a[0], b[0])
  }

  /** Python's `<` on `str`. */
  predicate StrLt(a: string, b: string) {
    LexLt(a, b, CharLt)
  }

  /** Python's `<` on a relative `Path`, compared part by part. */
  predicate PathLt(p: seq<string>, q: seq<string>) {
    LexLt(p, q, StrLt)
  }

  lemma {:induction false} LexLtIrreflexive<T(!new)>(a: seq<T>, lt: (T, T) -> bool)
    requires StrictTotalOrder(lt)
    ensures !LexLt(a, a, lt)
    decreases |a|
  {
    if |a| > 0 {
      LexLtIrreflexive(a[1..], lt);
    }
  }

  lemma {:induction false} LexLtTransitive<T(!new)>(a: seq<T>, b: seq<T>, c: seq<T>, lt: (T, T) -> bool)
    requires StrictTotalOrder(lt)
    requires LexLt(a, b, lt) && LexLt(b, c, lt)
    ensures LexLt(a, c, lt)
    decreases |a|
  {
    if |a| > 0 && a[0] == b[0] && b[0] == c[0] {
      LexLtTransitive(a[1..], b[1..], c[1..], lt);
    }
  }

  lemma {:induction false} LexLtConnected<T(!new)>(a: seq<T>, b: seq<T>, lt: (T, T) -> bool)
    requires StrictTotalOrder(lt)
    requires a != b
    ensures LexLt(a, b, lt) || LexLt(b, a, lt)
    decreases |a|
  {
    if |a| > 0 && |b| > 0 && a[0] == b[0] {
      assert a == [a[0]] + a[1..] && b == [b[0]] + b[1..];
      LexLtConnected(a[1..], b[1..], lt);
    }
  }

  /** Lexicographic order over a strict total order is a strict total order. */
  lemma LexLtStrictTotal<T(!new)>(lt: (T, T) -> bool)
    requires StrictTotalOrder(lt)
    ensures forall a: seq<T> :: !LexLt(a, a, lt)
    ensures forall a: seq<T>, b: seq<T>, c: seq<T> :: LexLt(a, b, lt) && LexLt(b, c, lt) ==> LexLt(a, c, lt)
    ensures forall a: seq<T>, b: seq<T> :: a != b ==> LexLt(a, b, lt) || LexLt(b, a, lt)
  {
    forall a: seq<T> ensures !LexLt(a, a, lt) {
      LexLtIrreflexive(a, lt);
    }
    forall a: seq<T>, b: seq<T>, c: seq<T> | LexLt(a, b, lt) && LexLt(b, c, lt)
      ensures LexLt(a, c, lt)
    {
      LexLtTransitive(a, b, c, lt);
    }
    forall a: seq<T>, b: seq<T> | a != b ensures LexLt(a, b, lt) || LexLt(b, a, lt) {
      LexLtConnected(a, b, lt);
    }
  }

  /** String comparison is a strict total order. */
  lemma StrLtStrictTotal()
    ensures StrictTotalOrder(StrLt)
  {
    LexLtStrictTotal(CharLt);
  }

  /** Path comparison is a strict total order. */
  lemma PathLtStrictTotal()
    ensures StrictTotalOrder(PathLt)
  {
    StrLtStrictTotal();
    LexLtStrictTotal(StrLt);
  }
}
