/** Finite directed graphs of names and reachability in them. */
module Graphs {
  import opened Ordering
  type Graph = map<string, set<string>>

  predicate Edge(g: Graph, a: string, b: string) { a in g && b in g[a] }

  ghost predicate ReachIn(g: Graph, a: string, b: string, n: nat)
    decreases n
  {
    if n == 0 then a == b else exists c :: Edge(g, a, c) && ReachIn(g, c, b, n - 1)
  }

  ghost predicate Reach(g: Graph, a: string, b: string) { exists n: nat :: ReachIn(g, a, b, n) }

  lemma ReachSelf(g: Graph, a: string)
    ensures Reach(g, a, a)
  {
    assert ReachIn(g, a, a, 0);
  }

  lemma ReachStep(g: Graph, a: string, b: string, c: string)
    requires Edge(g, a, b) && Reach(g, b, c)
    ensures Reach(g, a, c)
  {
    var n: nat :| ReachIn(g, b, c, n);
    assert ReachIn(g, a, c, n + 1);
  }

  lemma {:induction false} ReachSnoc(g: Graph, a: string, b: string, c: string, n: nat)
    requires ReachIn(g, a, b, n) && Edge(g, b, c)
    ensures Reach(g, a, c)
    decreases n
  {
    if n == 0 {
      ReachSelf(g, c);
      ReachStep(g, a, c, c);
    } else {
      var d :| Edge(g, a, d) && ReachIn(g, d, b, n - 1);
      ReachSnoc(g, d, b, c, n - 1);
      ReachStep(g, a, d, c);
    }
  }

  ghost predicate Closed(g: Graph, s: set<string>) {
    forall a, b :: a in s && Edge(g, a, b) ==> b in s
  }

  /** A closed set holds everything reachable from its members. */
  lemma {:induction false} ClosedHolds(g: Graph, s: set<string>, a: string, b: string, n: nat)
    requires Closed(g, s) && a in s && ReachIn(g, a, b, n)
    ensures b in s
    decreases n
  {
    if n > 0 {
      var c :| Edge(g, a, c) && ReachIn(g, c, b, n - 1);
      ClosedHolds(g, s, c, b, n - 1);
    }
  }

  /** More edges reach no less. */
  lemma {:induction false} ReachGrows(g: Graph, h: Graph, a: string, b: string, n: nat)
    requires forall x, y :: Edge(g, x, y) ==> Edge(h, x, y)
    requires ReachIn(g, a, b, n)
    ensures ReachIn(h, a, b, n)
    decreases n
  {
    if n > 0 {
      var c :| Edge(g, a, c) && ReachIn(g, c, b, n - 1);
      ReachGrows(g, h, c, b, n - 1);
    }
  }

  /** Marking one more of the keys leaves fewer to mark. */
  lemma FewerUnseen(keys: set<string>, before: set<string>, after: set<string>, c: string)
    requires c in keys && c !in before && before + {c} <= after
    ensures |keys - after| < |keys - before|
  {
    assert keys - after <= (keys - before) - {c};
    SubsetSize(keys - after, (keys - before) - {c});
  }
}
