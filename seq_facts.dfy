/** Facts about sequence concatenation, proved once and used by the filters and the sort. */
module SeqFacts {

  lemma AppendAssoc<T>(a: seq<T>, b: seq<T>, c: seq<T>)
    ensures (a + b) + c == a + (b + c)
  {
  }

  lemma AppendEmpty<T>(a: seq<T>)
    ensures a + [] == a && [] + a == a
  {
  }

  /** Appending at the end keeps the head and appends to the tail. */
  lemma AppendTail<T>(a: seq<T>, x: T)
    requires a != []
    ensures (a + [x])[0] == a[0] && (a + [x])[1..] == a[1..] + [x]
  {
  }

  lemma CancelPrefix<T>(h: seq<T>, a: seq<T>, b: seq<T>)
    requires h + a == h + b
    ensures a == b
  {
    assert a == (h + a)[|h|..];
    assert b == (h + b)[|h|..];
  }

  /** Two pieces of which one is empty may trade places. */
  lemma SwapEmpty<T>(a: seq<T>, b: seq<T>, c: seq<T>)
    requires a == [] || b == []
    ensures a + (b + c) == b + (a + c)
  {
    if a == [] {
      assert a + (b + c) == b + c && a + c == c;
    } else {
      assert b + c == c && b + (a + c) == a + c;
    }
  }
}
