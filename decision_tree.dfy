/**
 * DecisionTree.java: a decision tree is either a Decision leaf holding a value
 * or a Tree split that tests one attribute and continues in the child keyed by
 * the sample's value for it. Trees are never changed after they are built, so
 * they are values here; deciding reads the tree and the choices and changes
 * neither.
 */
module DecisionTrees {
  import opened Wrappers

  datatype DecisionTree =
    | Decision(value: string)
    | Tree(attr: string, children: map<string, DecisionTree>)

  /** v is the value of some leaf of t. */
  ghost predicate HasLeaf(t: DecisionTree, v: string) {
    match t
    case Decision(w) => w == v
    case Tree(_, children) => exists k :: k in children && HasLeaf(children[k], v)
  }

  /** Every leaf of t holds v. */
  ghost predicate AllLeaves(t: DecisionTree, v: string) {
    match t
    case Decision(w) => w == v
    case Tree(_, children) => forall k :: k in children ==> AllLeaves(children[k], v)
  }

  /**
   * At every split the walk visits, choices has the tested attribute and the
   * split has a child for its value: the walk reaches a leaf.
   */
  ghost predicate Admissible(t: DecisionTree, choices: map<string, string>) {
    match t
    case Decision(_) => true
    case Tree(attr, children) =>
      attr in choices && choices[attr] in children && Admissible(children[choices[attr]], choices)
  }

  /**
   * The two choice maps agree on every attribute some split of t tests: each
   * such attribute is in both or in neither, with the same value.
   */
  ghost predicate AgreeOnTested(t: DecisionTree, c1: map<string, string>, c2: map<string, string>) {
    match t
    case Decision(_) => true
    case Tree(attr, children) =>
      && (attr in c1 <==> attr in c2)
      && (attr in c1 ==> c1[attr] == c2[attr])
      && forall k :: k in children ==> AgreeOnTested(children[k], c1, c2)
  }

  /**
   * decide: a Decision returns its value; a Tree looks up its attribute in the
   * choices and returns what the child for that value decides. None stands for
   * the null dereference the source hits when the attribute or the child is
   * missing. A decided value is always the value of one of the tree's leaves.
   */
  function Decide(t: DecisionTree, choices: map<string, string>): (r: Option<string>)
    ensures r.Some? ==> HasLeaf(t, r.value)
  {
    match t
    case Decision(v) => Some(v)
    case Tree(attr, children) =>
      if attr in choices && choices[attr] in children then
        var r := Decide(children[choices[attr]], choices);
        assert r.Some? ==> HasLeaf(children[choices[attr]], r.value);
        r
      else
        None
  }

  /** decide yields a value exactly on admissible choices, and the null dereference otherwise. */
  lemma {:induction false} DecideDefinedIffAdmissible(t: DecisionTree, choices: map<string, string>)
    ensures Decide(t, choices).Some? <==> Admissible(t, choices)
  {
    match t
    case Decision(_) =>
    case Tree(attr, children) =>
      if attr in choices && choices[attr] in children {
        DecideDefinedIffAdmissible(children[choices[attr]], choices);
      }
  }

  /** A tree whose leaves all hold v decides v for every admissible choice map. */
  lemma {:induction false} UniformTreeDecides(t: DecisionTree, v: string, choices: map<string, string>)
    requires AllLeaves(t, v) && Admissible(t, choices)
    ensures Decide(t, choices) == Some(v)
  {
    match t
    case Decision(_) =>
    case Tree(attr, children) =>
      UniformTreeDecides(children[choices[attr]], v, choices);
  }

  /**
   * decide depends only on the attributes the tree tests: two choice maps that
   * agree there get the same answer, null dereference included.
   */
  lemma {:induction false} DecideReadsOnlyTested(t: DecisionTree, c1: map<string, string>, c2: map<string, string>)
    requires AgreeOnTested(t, c1, c2)
    ensures Decide(t, c1) == Decide(t, c2)
  {
    match t
    case Decision(_) =>
    case Tree(attr, children) =>
      if attr in c1 && c1[attr] in children {
        DecideReadsOnlyTested(children[c1[attr]], c1, c2);
      }
  }
}
