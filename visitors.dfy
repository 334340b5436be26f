/**
 * The kind-frequency visitor.  It registers no kind-specific handler, so every
 * visit falls through to the generic handler, which records the node's kind
 * and then descends into each node-valued field.  A run clears the record,
 * visits the root and counts the record.
 *
 * A counter (the result of a run) is a map from kind to a positive count;
 * Tally is its reference definition and Total the sum of its counts.
 */
module Visitors {
  import opened Syntax

  // ---------------------------------------------------------------------------
  // Counters

  /** The counter of xs: each element of xs mapped to its number of occurrences. */
  function Tally(xs: seq<string>): (c: map<string, nat>)
    ensures forall k :: k in c <==> k in xs
  {
    map k | k in multiset(xs) :: multiset(xs)[k]
  }

  /** The sum of a counter's counts. */
  ghost function Total(c: map<string, nat>): nat
    decreases |c|
  {
    if c == map[] then 0
    else
      var k :| k in c;
      c[k] + Total(c - {k})
  }

  /** Total does not depend on which key is taken out first. */
  lemma {:induction false} TotalRemove(c: map<string, nat>, k: string)
    requires k in c
    ensures Total(c) == c[k] + Total(c - {k})
    decreases |c|
  {
    var j :| j in c && Total(c) == c[j] + Total(c - {j});
    if j != k {
      assert |c - {j}| < |c| by { assert j in c && j !in c - {j} && (c - {j}).Keys < c.Keys; }
      assert |c - {k}| < |c| by { assert k in c && k !in c - {k} && (c - {k}).Keys < c.Keys; }
      TotalRemove(c - {j}, k);
      TotalRemove(c - {k}, j);
      assert c - {j} - {k} == c - {k} - {j};
    }
  }

  lemma TotalAdd(c: map<string, nat>, k: string)
    ensures Total(c[k := if k in c then c[k] + 1 else 1]) == Total(c) + 1
  {
    var c' := c[k := if k in c then c[k] + 1 else 1];
    TotalRemove(c', k);
    if k in c {
      TotalRemove(c, k);
      assert c' - {k} == c - {k};
    } else {
      assert c' - {k} == c;
    }
  }

  lemma TallySnoc(xs: seq<string>, x: string)
    ensures Tally(xs + [x]) == Tally(xs)[x := if x in Tally(xs) then Tally(xs)[x] + 1 else 1]
  {
    assert multiset(xs + [x]) == multiset(xs) + multiset{x};
  }

  /** Every count is at least one, and the counts add up to the number of elements. */
  lemma {:induction false} TallyTotal(xs: seq<string>)
    ensures forall k :: k in Tally(xs) ==> Tally(xs)[k] >= 1
    ensures Total(Tally(xs)) == |xs|
    decreases |xs|
  {
    if xs == [] {
      assert Tally(xs) == map[];
    } else {
      var init, last := xs[..|xs| - 1], xs[|xs| - 1];
      assert xs == init + [last];
      TallyTotal(init);
      TallySnoc(init, last);
      TotalAdd(Tally(init), last);
    }
  }

  /**
   * Counting a list of kinds, as the counter constructor does: one pass that
   * bumps the element's count, starting from zero for a new key.
   */
  method CountKinds(xs: seq<string>) returns (c: map<string, nat>)
    ensures c == Tally(xs)
  {
    c := map[];
    var i := 0;
    while i < |xs|
      invariant 0 <= i <= |xs|
      invariant c == Tally(xs[..i])
    {
      var x := xs[i];
      c := c[x := if x in c then c[x] + 1 else 1];
      assert xs[..i + 1] == xs[..i] + [x];
      TallySnoc(xs[..i], x);
      i := i + 1;
    }
    assert xs[..i] == xs;
  }

  // ---------------------------------------------------------------------------
  // The visitor

  class Visitor {
    /** The kinds recorded so far, in visiting order. */
    var nodes: seq<string>

    constructor ()
      ensures nodes == []
    {
      nodes := [];
    }

    /**
     * Dispatch on the node's kind: with no visit_<Kind> handler defined,
     * every node goes to the generic handler (the base class's Constant
     * handler forwards there too when no legacy literal handler exists).
     */
    method Visit(n: Node)
      modifies this
      ensures nodes == old(nodes) + PreorderKinds(n)
      decreases n, 1
    {
      GenericVisit(n);
    }

    /**
     * Record the node's kind, then visit every node-valued field in field
     * order, and the nodes of a list field in list order.
     */
    method GenericVisit(n: Node)
      modifies this
      ensures nodes == old(nodes) + PreorderKinds(n)
      decreases n, 0
    {
      ghost var goal := old(nodes) + PreorderKinds(n);
      nodes := nodes + [n.kind];
      var fs := n.fields;
      var i := 0;
      assert fs[0..] == fs;
      while i < |fs|
        invariant 0 <= i <= |fs|
        invariant nodes + FieldsKinds(fs[i..]) == goal
      {
        ghost var rest := FieldsKinds(fs[i + 1..]);
        FieldsKindsAt(fs, i);
        assert (nodes + FieldKinds(fs[i])) + rest == goal;
        match fs[i] {
          case One(c) =>
            Visit(c);
          case Many(cs) =>
            var j := 0;
            assert cs[0..] == cs;
            while j < |cs|
              invariant 0 <= j <= |cs|
              invariant (nodes + ListKinds(cs[j..])) + rest == goal
            {
              ListKindsAt(cs, j);
              assert ((nodes + PreorderKinds(cs[j])) + ListKinds(cs[j + 1..])) + rest == goal;
              Visit(cs[j]);
              j := j + 1;
            }
            assert cs[j..] == [];
          case Leaf =>
        }
        assert nodes + rest == goal;
        i := i + 1;
      }
    }

    /** Clear the record, visit the tree and count what was recorded. */
    method Run(tree: Node) returns (counts: map<string, nat>)
      modifies this
      ensures nodes == PreorderKinds(tree)
      ensures counts == Tally(PreorderKinds(tree))
    {
      nodes := [];
      Visit(tree);
      counts := CountKinds(nodes);
    }
  }

  // ---------------------------------------------------------------------------
  // What a run's counter says about the tree

  /** The counts of a run add up to the number of nodes, root included. */
  lemma CountsSumToSize(tree: Node)
    ensures Total(Tally(PreorderKinds(tree))) == Size(tree)
  {
    TallyTotal(PreorderKinds(tree));
    PreorderLength(tree);
  }

  /** A run's keys are exactly the kinds occurring in the tree, each counted at least once. */
  lemma CountsKeysAreKinds(tree: Node)
    ensures forall k :: k in Tally(PreorderKinds(tree)) <==> Occurs(k, tree)
    ensures forall k :: k in Tally(PreorderKinds(tree)) ==> Tally(PreorderKinds(tree))[k] >= 1
  {
    TallyTotal(PreorderKinds(tree));
    forall k ensures k in PreorderKinds(tree) <==> Occurs(k, tree) {
      PreorderOccurs(tree, k);
    }
  }

  // ---------------------------------------------------------------------------
  // Concrete trees

  /** The tree of an empty source text: a module with empty body and type-ignore lists. */
  function EmptyModule(): Node
  {
    Node("Module", [Many([]), Many([])])
  }

  lemma EmptyModuleCounts()
    ensures Tally(PreorderKinds(EmptyModule())) == map["Module" := 1]
  {
    assert PreorderKinds(EmptyModule()) == ["Module"];
  }
}
