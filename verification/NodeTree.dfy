/** The control tree: controllers with children, and leaves that stand for one process each. */
module NodeTree {
  // A leaf whose process holds several modules reports a list of states.
  datatype Status = One(name: string) | Many(names: seq<string>)

  // The optional entry `qualified_types` of a module type.
  datatype Qualifier = Unqualified | Single(name: string) | Several(names: seq<string>)

  datatype ModuleType = ModuleType(kind: string, qualifier: Qualifier)

  // `types == []` stands for a node without the attribute; the constructor does not set it for an empty list.
  datatype Tree = Tree(types: seq<ModuleType>, included: bool, state: Status, inconsistent: bool, children: seq<Tree>)

  // `states` lists the states of the state machine in their order, `allowed` gives the actions that a state allows, and
  // `order` gives, for the actions that have a rule, the module types in the order in which they are to be addressed.
  datatype Rules = Rules(states: seq<string>, allowed: map<string, seq<string>>, order: map<string, seq<string>>)

  type Path = seq<nat>

  predicate Leaf(tree: Tree) {
    tree.children == []
  }

  /** Marks a node and everything below it as included or excluded. */
  function Marked(tree: Tree, included: bool): Tree {
    var children := seq(|tree.children|, i requires 0 <= i < |tree.children| => Marked(tree.children[i], included));
    tree.(included := included, children := children)
  }

  predicate Exists(tree: Tree, path: Path) {
    path == [] || (path[0] < |tree.children| && Exists(tree.children[path[0]], path[1..]))
  }

  function NodeAt(tree: Tree, path: Path): Tree
    decreases |path|
  {
    if path == [] || path[0] >= |tree.children| then tree else NodeAt(tree.children[path[0]], path[1..])
  }

  /** Marking sets the flag of every node and changes nothing else. */
  lemma {:induction false} MarkedNode(tree: Tree, included: bool, path: Path)
    requires Exists(tree, path)
    ensures Exists(Marked(tree, included), path)
    ensures var node, marked := NodeAt(tree, path), NodeAt(Marked(tree, included), path);
            && marked.included == included && marked.types == node.types && marked.state == node.state
            && marked.inconsistent == node.inconsistent && |marked.children| == |node.children|
    decreases |path|
  {
    if path != [] {
      MarkedNode(tree.children[path[0]], included, path[1..]);
    }
  }

  /** `path` leads through included nodes only to an included leaf. */
  predicate Reachable(tree: Tree, path: Path) {
    tree.included &&
    if Leaf(tree) then path == []
    else path != [] && path[0] < |tree.children| && Reachable(tree.children[path[0]], path[1..])
  }
}
