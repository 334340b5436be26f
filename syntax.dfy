/**
 * Syntax trees as the tree front end hands them to the visitors: every node
 * has a kind (its class name) and an ordered list of fields.  A field holds
 * one child node, a list of child nodes, or a leaf payload (an identifier, a
 * literal, a missing optional child) that is never visited as a node.
 *
 * The functions here are the reference definitions the visitor is proved
 * against: the pre-order sequence of kinds, an independent node counter, and
 * an independent "this kind occurs in the tree" predicate.
 */
module Syntax {

  datatype Node = Node(kind: string, fields: seq<Field>)

  /** A list field keeps only its node items: generic descent skips any other item. */
  datatype Field = One(child: Node) | Many(children: seq<Node>) | Leaf

  // ---------------------------------------------------------------------------
  // Pre-order kinds: the node's own kind, then every node-valued field in field
  // order, and within a list field in list order.

  function PreorderKinds(n: Node): seq<string>
    decreases n
  {
    [n.kind] + FieldsKinds(n.fields)
  }

  function FieldsKinds(fs: seq<Field>): seq<string>
    decreases fs
  {
    if fs == [] then [] else FieldKinds(fs[0]) + FieldsKinds(fs[1..])
  }

  function FieldKinds(f: Field): seq<string>
    decreases f
  {
    match f
    case One(c) => PreorderKinds(c)
    case Many(cs) => ListKinds(cs)
    case Leaf => []
  }

  function ListKinds(cs: seq<Node>): seq<string>
    decreases cs
  {
    if cs == [] then [] else PreorderKinds(cs[0]) + ListKinds(cs[1..])
  }

  // ---------------------------------------------------------------------------
  // Independent node counter (leaves are not nodes).

  function Size(n: Node): nat
    decreases n
  {
    1 + FieldsSize(n.fields)
  }

  function FieldsSize(fs: seq<Field>): nat
    decreases fs
  {
    if fs == [] then 0 else FieldSize(fs[0]) + FieldsSize(fs[1..])
  }

  function FieldSize(f: Field): nat
    decreases f
  {
    match f
    case One(c) => Size(c)
    case Many(cs) => ListSize(cs)
    case Leaf => 0
  }

  function ListSize(cs: seq<Node>): nat
    decreases cs
  {
    if cs == [] then 0 else Size(cs[0]) + ListSize(cs[1..])
  }

  // ---------------------------------------------------------------------------
  // Independent occurrence predicate: some node of the tree has kind k.

  predicate Occurs(k: string, n: Node)
    decreases n
  {
    n.kind == k || OccursInFields(k, n.fields)
  }

  predicate OccursInFields(k: string, fs: seq<Field>)
    decreases fs
  {
    fs != [] && (OccursInField(k, fs[0]) || OccursInFields(k, fs[1..]))
  }

  predicate OccursInField(k: string, f: Field)
    decreases f
  {
    match f
    case One(c) => Occurs(k, c)
    case Many(cs) => OccursInList(k, cs)
    case Leaf => false
  }

  predicate OccursInList(k: string, cs: seq<Node>)
    decreases cs
  {
    cs != [] && (Occurs(k, cs[0]) || OccursInList(k, cs[1..]))
  }

  // ---------------------------------------------------------------------------
  // Parent/child relation: c is held by one of n's fields.

  predicate InField(c: Node, f: Field)
  {
    f == One(c) || (f.Many? && c in f.children)
  }

  predicate IsChild(c: Node, n: Node)
  {
    exists i :: 0 <= i < |n.fields| && InField(c, n.fields[i])
  }

  /** u occurs in s as a contiguous block starting at index i. */
  predicate InfixAt(u: seq<string>, s: seq<string>, i: int)
  {
    0 <= i <= |s| - |u| && s[i..i + |u|] == u
  }

  ghost predicate IsInfix(u: seq<string>, s: seq<string>)
  {
    exists i :: InfixAt(u, s, i)
  }

  lemma FieldsKindsCons(f: Field, fs: seq<Field>)
    ensures FieldsKinds([f] + fs) == FieldKinds(f) + FieldsKinds(fs)
  {
    assert ([f] + fs)[1..] == fs;
  }

  lemma FieldsKindsAt(fs: seq<Field>, i: nat)
    requires i < |fs|
    ensures FieldsKinds(fs[i..]) == FieldKinds(fs[i]) + FieldsKinds(fs[i + 1..])
  {
    assert fs[i..][1..] == fs[i + 1..];
  }

  lemma ListKindsAt(cs: seq<Node>, j: nat)
    requires j < |cs|
    ensures ListKinds(cs[j..]) == PreorderKinds(cs[j]) + ListKinds(cs[j + 1..])
  {
    assert cs[j..][1..] == cs[j + 1..];
  }

  /** Fields holding only leaves and empty lists contribute no kinds. */
  lemma {:induction false} NothingToVisit(fs: seq<Field>)
    requires forall f :: f in fs ==> f == Leaf || f == Many([])
    ensures FieldsKinds(fs) == []
    decreases fs
  {
    if fs != [] {
      assert fs[0] in fs;
      assert forall f :: f in fs[1..] ==> f in fs;
      NothingToVisit(fs[1..]);
    }
  }

  // ---------------------------------------------------------------------------
  // Every node is recorded exactly once: the pre-order sequence has one entry
  // per node.

  lemma {:induction false} PreorderLength(n: Node)
    ensures |PreorderKinds(n)| == Size(n)
    decreases n
  {
    FieldsLength(n.fields);
  }

  lemma {:induction false} FieldsLength(fs: seq<Field>)
    ensures |FieldsKinds(fs)| == FieldsSize(fs)
    decreases fs
  {
    if fs != [] {
      FieldLength(fs[0]);
      FieldsLength(fs[1..]);
    }
  }

  lemma {:induction false} FieldLength(f: Field)
    ensures |FieldKinds(f)| == FieldSize(f)
    decreases f
  {
    match f
    case One(c) => PreorderLength(c);
    case Many(cs) => ListLength(cs);
    case Leaf =>
  }

  lemma {:induction false} ListLength(cs: seq<Node>)
    ensures |ListKinds(cs)| == ListSize(cs)
    decreases cs
  {
    if cs != [] {
      PreorderLength(cs[0]);
      ListLength(cs[1..]);
    }
  }

  // ---------------------------------------------------------------------------
  // The recorded kinds are exactly the kinds that occur in the tree.

  lemma {:induction false} PreorderOccurs(n: Node, k: string)
    ensures k in PreorderKinds(n) <==> Occurs(k, n)
    decreases n
  {
    FieldsOccurs(n.fields, k);
  }

  lemma {:induction false} FieldsOccurs(fs: seq<Field>, k: string)
    ensures k in FieldsKinds(fs) <==> OccursInFields(k, fs)
    decreases fs
  {
    if fs != [] {
      FieldOccurs(fs[0], k);
      FieldsOccurs(fs[1..], k);
    }
  }

  lemma {:induction false} FieldOccurs(f: Field, k: string)
    ensures k in FieldKinds(f) <==> OccursInField(k, f)
    decreases f
  {
    match f
    case One(c) => PreorderOccurs(c, k);
    case Many(cs) => ListOccurs(cs, k);
    case Leaf =>
  }

  lemma {:induction false} ListOccurs(cs: seq<Node>, k: string)
    ensures k in ListKinds(cs) <==> OccursInList(k, cs)
    decreases cs
  {
    if cs != [] {
      PreorderOccurs(cs[0], k);
      ListOccurs(cs[1..], k);
    }
  }

  // ---------------------------------------------------------------------------
  // Pre-order: the root's kind comes first, and every child's whole subtree
  // follows it as one contiguous block.

  lemma InfixExtend(u: seq<string>, a: seq<string>, s: seq<string>, b: seq<string>)
    requires IsInfix(u, s)
    ensures IsInfix(u, a + s + b)
  {
    var i :| InfixAt(u, s, i);
    assert (a + s + b)[|a| + i..|a| + i + |u|] == u;
    assert InfixAt(u, a + s + b, |a| + i);
  }

  lemma {:induction false} ChildInList(c: Node, cs: seq<Node>)
    requires c in cs
    ensures IsInfix(PreorderKinds(c), ListKinds(cs))
    decreases cs
  {
    if c == cs[0] {
      assert InfixAt(PreorderKinds(c), PreorderKinds(c), 0);
      InfixExtend(PreorderKinds(c), [], PreorderKinds(c), ListKinds(cs[1..]));
      assert [] + PreorderKinds(c) + ListKinds(cs[1..]) == ListKinds(cs);
    } else {
      ChildInList(c, cs[1..]);
      InfixExtend(PreorderKinds(c), PreorderKinds(cs[0]), ListKinds(cs[1..]), []);
      assert PreorderKinds(cs[0]) + ListKinds(cs[1..]) + [] == ListKinds(cs);
    }
  }

  lemma {:induction false} ChildInFields(c: Node, fs: seq<Field>, i: nat)
    requires i < |fs| && InField(c, fs[i])
    ensures IsInfix(PreorderKinds(c), FieldsKinds(fs))
    decreases fs
  {
    var u := PreorderKinds(c);
    if i == 0 {
      if fs[0] == One(c) {
        assert InfixAt(u, FieldKinds(fs[0]), 0);
      } else {
        ChildInList(c, fs[0].children);
      }
      InfixExtend(u, [], FieldKinds(fs[0]), FieldsKinds(fs[1..]));
      assert [] + FieldKinds(fs[0]) + FieldsKinds(fs[1..]) == FieldsKinds(fs);
    } else {
      ChildInFields(c, fs[1..], i - 1);
      InfixExtend(u, FieldKinds(fs[0]), FieldsKinds(fs[1..]), []);
      assert FieldKinds(fs[0]) + FieldsKinds(fs[1..]) + [] == FieldsKinds(fs);
    }
  }

  lemma ChildAfterParent(c: Node, n: Node)
    requires IsChild(c, n)
    ensures PreorderKinds(n)[0] == n.kind
    ensures IsInfix(PreorderKinds(c), PreorderKinds(n)[1..])
  {
    var i :| 0 <= i < |n.fields| && InField(c, n.fields[i]);
    ChildInFields(c, n.fields, i);
    assert PreorderKinds(n)[1..] == FieldsKinds(n.fields);
  }
}
