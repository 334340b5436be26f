/**
 * The library entry point over the visitor: the kind-frequency counts of one
 * tree, as a plain dictionary.
 */
module Api {
  import opened Syntax
  import opened Visitors

  /**
   * The counts of a run of the given visitor, copied into a dictionary.
   * Because a run starts by clearing the visitor's record, the result is a
   * function of the tree alone.
   */
  method ProcessAst(tree: Node, visitor: Visitor) returns (rv: map<string, nat>)
    modifies visitor
    ensures visitor.nodes == PreorderKinds(tree)
    ensures rv == Tally(PreorderKinds(tree))
    ensures forall k :: k in rv <==> Occurs(k, tree)
    ensures forall k :: k in rv ==> rv[k] >= 1
    ensures Total(rv) == Size(tree)
  {
    var counter := visitor.Run(tree);
    rv := counter;
    CountsKeysAreKinds(tree);
    CountsSumToSize(tree);
  }

  /**
   * A visitor that has already been used on another tree gives the same
   * dictionary as a fresh one, and calling twice gives equal dictionaries.
   */
  method ReusedVisitorAgrees(earlier: Node, tree: Node, visitor: Visitor)
    returns (first: map<string, nat>, second: map<string, nat>, onFresh: map<string, nat>)
    modifies visitor
    ensures first == second == onFresh
  {
    var ignored := ProcessAst(earlier, visitor);
    first := ProcessAst(tree, visitor);
    second := ProcessAst(tree, visitor);
    var other := new Visitor();
    onFresh := ProcessAst(tree, other);
  }

  /**
   * The tree of `def hello(): return 'world'`: a module holding one function
   * definition, whose argument list is empty and whose body is one return of
   * a string constant.
   */
  function HelloWorld(): Node
  {
    Node("Module", [Many([HelloDef()]), Many([])])
  }

  function HelloDef(): Node
  {
    Node("FunctionDef", [Leaf, One(NoArguments()), Many([ReturnWorld()]), Many([]), Leaf, Leaf, Many([])])
  }

  function NoArguments(): Node
  {
    Node("arguments", [Many([]), Many([]), Leaf, Many([]), Many([]), Leaf, Many([])])
  }

  function ReturnWorld(): Node
  {
    Node("Return", [One(Node("Constant", [Leaf, Leaf]))])
  }

  lemma HelloWorldKinds()
    ensures PreorderKinds(HelloWorld()) == ["Module", "FunctionDef", "arguments", "Return", "Constant"]
  {
    HelloDefKinds();
    ModuleFields(HelloDef());
  }

  lemma HelloDefKinds()
    ensures PreorderKinds(HelloDef()) == ["FunctionDef", "arguments", "Return", "Constant"]
  {
    NoArgumentsKinds();
    ReturnWorldKinds();
    DefFields(NoArguments(), ReturnWorld());
  }

  lemma NoArgumentsKinds()
    ensures PreorderKinds(NoArguments()) == ["arguments"]
  {
  }

  lemma ReturnWorldKinds()
    ensures PreorderKinds(ReturnWorld()) == ["Return", "Constant"]
  {
  }

  /** The fields of a module whose body is one statement. */
  lemma ModuleFields(stmt: Node)
    ensures FieldsKinds([Many([stmt]), Many([])]) == PreorderKinds(stmt)
  {
    assert ListKinds([stmt]) == PreorderKinds(stmt) by {
      assert [stmt][1..] == [];
    }
    FieldsKindsCons(Many([stmt]), [Many([])]);
    NothingToVisit([Many([])]);
  }

  /** The fields of a function definition with one argument list and a one-statement body. */
  lemma DefFields(args: Node, stmt: Node)
    ensures FieldsKinds([Leaf, One(args), Many([stmt]), Many([]), Leaf, Leaf, Many([])]) ==
      PreorderKinds(args) + PreorderKinds(stmt)
  {
    var body := [Many([stmt]), Many([]), Leaf, Leaf, Many([])];
    BodyFields(stmt);
    FieldsKindsCons(One(args), body);
    FieldsKindsCons(Leaf, [One(args)] + body);
    assert [Leaf] + ([One(args)] + body) == [Leaf, One(args), Many([stmt]), Many([]), Leaf, Leaf, Many([])];
  }

  lemma BodyFields(stmt: Node)
    ensures FieldsKinds([Many([stmt]), Many([]), Leaf, Leaf, Many([])]) == PreorderKinds(stmt)
  {
    var rest := [Many([]), Leaf, Leaf, Many([])];
    assert FieldsKinds(rest) == [] by {
      NothingToVisit(rest);
    }
    assert ListKinds([stmt]) == PreorderKinds(stmt) by {
      assert [stmt][1..] == [];
    }
    FieldsKindsCons(Many([stmt]), rest);
    assert [Many([stmt])] + rest == [Many([stmt]), Many([]), Leaf, Leaf, Many([])];
  }

  /**
   * The tree of the expression statement `x`: the name's Load context is a
   * node of its own, while the identifier is a payload.
   */
  function NameLoad(): Node
  {
    Node("Module", [Many([Node("Expr", [One(Node("Name", [Leaf, One(Node("Load", []))]))])]), Many([])])
  }

  lemma NameLoadKinds()
    ensures PreorderKinds(NameLoad()) == ["Module", "Expr", "Name", "Load"]
  {
    var name := Node("Name", [Leaf, One(Node("Load", []))]);
    var expr := Node("Expr", [One(name)]);
    assert PreorderKinds(name) == ["Name", "Load"];
    assert FieldsKinds(expr.fields) == PreorderKinds(name) by {
      assert expr.fields[1..] == [];
    }
    ModuleFields(expr);
  }

  /**
   * Its counts hold FunctionDef and Return, FunctionDef at least once, and
   * five nodes in all.
   */
  lemma HelloWorldCounts(counts: map<string, nat>)
    requires counts == Tally(PreorderKinds(HelloWorld()))
    ensures "FunctionDef" in counts && "Return" in counts
    ensures counts["FunctionDef"] >= 1
    ensures Total(counts) == 5
  {
    HelloWorldKinds();
    HelloWorldTally(PreorderKinds(HelloWorld()));
  }

  lemma HelloWorldTally(ks: seq<string>)
    requires ks == ["Module", "FunctionDef", "arguments", "Return", "Constant"]
    ensures "FunctionDef" in Tally(ks) && "Return" in Tally(ks)
    ensures Tally(ks)["FunctionDef"] >= 1
    ensures Total(Tally(ks)) == 5
  {
    assert ks[1] == "FunctionDef" && ks[3] == "Return";
    TallyTotal(ks);
  }
}
