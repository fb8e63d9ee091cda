/**
 The order `heapq` uses on the priority queue's `(distance, node)` tuples:
 distances numerically, ties by Python's string comparison (code point by
 code point, a proper prefix first).
 */
module Order {
  import opened Graphs

  /** Python's `a < b` on strings: irreflexive, and a proper prefix comes first. */
  predicate StrLt(a: string, b: string): (r: bool)
    ensures r ==> a != b
    ensures |a| < |b| && a == b[..|a|] ==> r
    decreases |a|
  {
    if |a| == 0 then |b| > 0
    else if |b| == 0 then false
    else if a[0] != b[0] then a[0] < b[0]
    else StrLt(a[1..], b[1..])
  }

  lemma {:induction false} StrLtTotal(a: string, b: string)
    requires a != b
    ensures StrLt(a, b) || StrLt(b, a)
    decreases |a|
  {
    if |a| > 0 && |b| > 0 && a[0] == b[0] {
      assert a == [a[0]] + a[1..] && b == [b[0]] + b[1..];
      StrLtTotal(a[1..], b[1..]);
    }
  }

  lemma {:induction false} StrLtAsymmetric(a: string, b: string)
    requires StrLt(a, b)
    ensures !StrLt(b, a)
    decreases |a|
  {
    if |a| > 0 && |b| > 0 && a[0] == b[0] {
      StrLtAsymmetric(a[1..], b[1..]);
    }
  }

  lemma {:induction false} StrLtTransitive(a: string, b: string, c: string)
    requires StrLt(a, b) && StrLt(b, c)
    ensures StrLt(a, c)
    decreases |a|
  {
    if |a| > 0 && |b| > 0 && |c| > 0 && a[0] == b[0] && b[0] == c[0] {
      StrLtTransitive(a[1..], b[1..], c[1..]);
    }
  }

  /** Two different strings compare one way exactly. */
  lemma StrLtTrichotomy(a: string, b: string)
    requires a != b
    ensures StrLt(a, b) <==> !StrLt(b, a)
  {
  }

  /** A priority-queue entry `(dist, node)`. */
  datatype Entry = Entry(d: nat, node: Node)

  /** Python's `<=` on `(dist, node)` tuples. */
  predicate EntryLe(a: Entry, b: Entry): (r: bool)
    ensures a.d != b.d ==> (r <==> a.d < b.d)
    ensures a.d == b.d ==> (r <==> !StrLt(b.node, a.node))
  {
    if a.node != b.node then StrLtTrichotomy(a.node, b.node);
      a.d < b.d || (a.d == b.d && StrLt(a.node, b.node))
    else a.d <= b.d
  }

  lemma EntryLeTotal(a: Entry, b: Entry)
    ensures EntryLe(a, b) || EntryLe(b, a)
  {
    if a.d == b.d && a.node != b.node {
      StrLtTotal(a.node, b.node);
    }
  }

  lemma EntryLeTransitive(a: Entry, b: Entry, c: Entry)
    requires EntryLe(a, b) && EntryLe(b, c)
    ensures EntryLe(a, c)
  {
    if a.d == b.d == c.d && a.node != b.node && b.node != c.node {
      StrLtTransitive(a.node, b.node, c.node);
    }
  }

  lemma EntryLeAntisymmetric(a: Entry, b: Entry)
    requires EntryLe(a, b) && EntryLe(b, a)
    ensures a == b
  {
    if a.node != b.node {
      StrLtAsymmetric(a.node, b.node);
    }
  }

  /** `m` is what `heapq.heappop` returns from `pq`. */
  predicate IsMin(m: Entry, pq: multiset<Entry>) {
    m in pq && forall x :: x in pq ==> EntryLe(m, x)
  }

  /** Every non-empty queue has a least entry. */
  lemma {:induction false} MinExists(pq: multiset<Entry>) returns (m: Entry)
    requires |pq| > 0
    ensures IsMin(m, pq)
    decreases |pq|
  {
    var x :| x in pq;
    var rest := pq - multiset{x};
    if |rest| == 0 {
      assert pq == multiset{x};
      m := x;
      assert EntryLe(x, x);
    } else {
      var m' := MinExists(rest);
      EntryLeTotal(x, m');
      if EntryLe(x, m') {
        m := x;
        forall y | y in pq
          ensures EntryLe(m, y)
        {
          if y != x {
            assert y in rest;
            EntryLeTransitive(x, m', y);
          } else {
            assert EntryLe(x, x);
          }
        }
      } else {
        m := m';
        forall y | y in pq
          ensures EntryLe(m, y)
        {
          if y != x {
            assert y in rest;
          }
        }
      }
    }
  }

  /** The least entry is unique, so the pop is deterministic. */
  lemma MinUnique(m1: Entry, m2: Entry, pq: multiset<Entry>)
    requires IsMin(m1, pq) && IsMin(m2, pq)
    ensures m1 == m2
  {
    EntryLeAntisymmetric(m1, m2);
  }
}
