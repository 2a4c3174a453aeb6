/** The checkers of all controllers of a control tree at work together: each controller has a thread of its own, and
    their rounds come in any order. */
module Checkers {
  import opened NodeTree
  import opened TreeState

  /** One round of the checker of the controller at `path`; a leaf has none. */
  function Round(tree: Tree, path: Path, order: seq<string>): Tree
    decreases |path|
  {
    if Leaf(tree) then tree
    else if path == [] then Checked(tree, order)
    else if path[0] >= |tree.children| then tree
    else tree.(children := tree.children[path[0] := Round(tree.children[path[0]], path[1..], order)])
  }

  function Rounds(tree: Tree, paths: seq<Path>, order: seq<string>): Tree {
    if paths == [] then tree
    else Round(Rounds(tree, paths[..|paths| - 1], order), paths[|paths| - 1], order)
  }

  /** No re-inclusion is pending: every controller above an included leaf is included. */
  predicate Noticed(tree: Tree) {
    Leaf(tree) ||
    ((HasIncludedLeaf(tree) ==> tree.included)
     && forall i :: 0 <= i < |tree.children| ==> Noticed(tree.children[i]))
  }

  predicate Healthy(tree: Tree) {
    Sound(tree) && Noticed(tree)
  }

  /** The same shape with the same leaves. */
  predicate Alike(a: Tree, b: Tree) {
    && a.types == b.types && |a.children| == |b.children|
    && (Leaf(a) ==> a == b)
    && forall i :: 0 <= i < |a.children| ==> Alike(a.children[i], b.children[i])
  }

  lemma {:induction false} AlikeItself(tree: Tree)
    ensures Alike(tree, tree)
  {
    forall i | 0 <= i < |tree.children| ensures Alike(tree.children[i], tree.children[i]) {
      AlikeItself(tree.children[i]);
    }
  }

  lemma {:induction false} AlikeLeaves(a: Tree, b: Tree)
    requires Alike(a, b)
    ensures HasIncludedLeaf(a) <==> HasIncludedLeaf(b)
  {
    forall i | 0 <= i < |a.children| ensures HasIncludedLeaf(a.children[i]) <==> HasIncludedLeaf(b.children[i]) {
      AlikeLeaves(a.children[i], b.children[i]);
    }
  }

  lemma {:induction false} AlikeChain(a: Tree, b: Tree, c: Tree)
    requires Alike(a, b) && Alike(b, c)
    ensures Alike(a, c)
  {
    forall i | 0 <= i < |a.children| ensures Alike(a.children[i], c.children[i]) {
      AlikeChain(a.children[i], b.children[i], c.children[i]);
    }
  }

  // --- a round keeps the leaves and the inclusion of what is above them ---

  /** Excluding a part without included leaves changes no leaf. */
  lemma {:induction false} MarkedAlike(tree: Tree)
    requires !HasIncludedLeaf(tree) && Healthy(tree)
    ensures Alike(tree, Marked(tree, false)) && Healthy(Marked(tree, false)) && !HasIncludedLeaf(Marked(tree, false))
  {
    var m := Marked(tree, false);
    forall i | 0 <= i < |tree.children|
      ensures var c := m.children[i];
              Alike(tree.children[i], c) && Healthy(c) && !HasIncludedLeaf(c)
    {
      MarkedAlike(tree.children[i]);
    }
  }

  /** If no child is included, no leaf below is. */
  lemma NoneBelow(tree: Tree)
    requires !Leaf(tree) && Healthy(tree) && Gathered(tree.children) == []
    ensures !HasIncludedLeaf(tree)
  {
    forall i | 0 <= i < |tree.children|
      ensures Names(tree.children[i].state) != [] && !HasIncludedLeaf(tree.children[i])
    {
      assert Sound(tree.children[i]) && Noticed(tree.children[i]);
      assert tree.children[i] in tree.children;
      StatesNotEmpty(tree);
    }
  }

  lemma StatesNotEmpty(tree: Tree)
    requires !Leaf(tree) && Sound(tree) && Gathered(tree.children) == []
    ensures forall c <- tree.children :: Names(c.state) != [] && !c.included
  {
    forall i | 0 <= i < |tree.children| ensures Names(tree.children[i].state) != [] {
      assert Sound(tree.children[i]);
    }
    GatheredNone(tree.children);
  }

  lemma CheckedAlike(tree: Tree, order: seq<string>)
    requires !Leaf(tree) && Healthy(tree)
    ensures Alike(tree, Checked(tree, order)) && Healthy(Checked(tree, order))
  {
    hide Lowest, AllSame, Singles, Gathered;
    var t := Checked(tree, order);
    if Gathered(tree.children) == [] {
      NoneBelow(tree);
      MarkedAlike(tree);
      assert t.children == Marked(tree, false).children;
      AlikeLeaves(tree, Marked(tree, false));
    } else {
      AlikeItself(tree);
      assert t.children == tree.children;
    }
  }

  lemma {:induction false} RoundAlike(tree: Tree, path: Path, order: seq<string>)
    requires Healthy(tree)
    ensures Alike(tree, Round(tree, path, order)) && Healthy(Round(tree, path, order))
    decreases |path|
  {
    if Leaf(tree) {
    } else if path == [] {
      CheckedAlike(tree, order);
    } else if path[0] < |tree.children| {
      RoundAlike(tree.children[path[0]], path[1..], order);
      ChildAlike(tree, path[0], Round(tree.children[path[0]], path[1..], order));
    } else {
      AlikeItself(tree);
    }
  }

  lemma ChildAlike(tree: Tree, i: nat, child: Tree)
    requires Healthy(tree) && i < |tree.children| && Alike(tree.children[i], child) && Healthy(child)
    ensures var t := tree.(children := tree.children[i := child]); Alike(tree, t) && Healthy(t)
  {
    var t := tree.(children := tree.children[i := child]);
    forall j | 0 <= j < |tree.children| ensures Alike(tree.children[j], t.children[j]) && Healthy(t.children[j]) {
      AlikeItself(tree.children[j]);
    }
    AlikeLeaves(tree, t);
  }

  lemma {:induction false} RoundsAlike(tree: Tree, paths: seq<Path>, order: seq<string>)
    requires Healthy(tree)
    ensures Alike(tree, Rounds(tree, paths, order)) && Healthy(Rounds(tree, paths, order))
  {
    if paths == [] {
      AlikeItself(tree);
    } else {
      var front := paths[..|paths| - 1];
      RoundsAlike(tree, front, order);
      RoundAlike(Rounds(tree, front, order), paths[|paths| - 1], order);
      AlikeChain(tree, Rounds(tree, front, order), Rounds(tree, paths, order));
    }
  }

  // --- what has settled stays ---

  /** Rounds inside a part that a pass has settled change nothing there. */
  lemma {:induction false} SettledRound(tree: Tree, path: Path, order: seq<string>)
    requires Sound(tree)
    ensures Round(Pass(tree, order), path, order) == Pass(tree, order)
    decreases |path|
  {
    var t := Pass(tree, order);
    PassInclusion(tree, order);
    if Leaf(tree) {
    } else if path == [] {
      CheckAgain(tree, order);
    } else if path[0] < |tree.children| {
      SettledRound(tree.children[path[0]], path[1..], order);
      assert t.children[path[0] := t.children[path[0]]] == t.children;
    }
  }

  lemma {:induction false} MarkedAt(tree: Tree, path: Path)
    requires Exists(tree, path)
    ensures NodeAt(Marked(tree, false), path) == Marked(NodeAt(tree, path), false)
    decreases |path|
  {
    if path != [] {
      MarkedAt(tree.children[path[0]], path[1..]);
    }
  }

  lemma {:induction false} NoneAt(tree: Tree, path: Path)
    requires Exists(tree, path) && !HasIncludedLeaf(tree)
    ensures !HasIncludedLeaf(NodeAt(tree, path))
    decreases |path|
  {
    if path != [] {
      NoneAt(tree.children[path[0]], path[1..]);
    }
  }

  /** A round above a settled part leaves it alone, too. */
  lemma CheckedAbove(tree: Tree, path: Path, part: Tree, order: seq<string>)
    requires Healthy(tree) && path != [] && Exists(tree, path) && Sound(part) && NodeAt(tree, path) == Pass(part, order)
    requires HasIncludedLeaf(Pass(part, order)) <==> HasIncludedLeaf(part)
    ensures NodeAt(Checked(tree, order), path) == Pass(part, order)
  {
    hide Lowest, AllSame, Singles, Gathered;
    PassInclusion(part, order);
    var t := Checked(tree, order);
    if Gathered(tree.children) == [] {
      NoneBelow(tree);
      NoneAt(tree, path);
      MarkedAt(tree, path);
      ExcludedMarked(Pass(part, order));
      assert t.children == Marked(tree, false).children;
    } else {
      assert t.children == tree.children;
    }
  }

  lemma {:induction false} PassKeepsLeaves(tree: Tree, order: seq<string>)
    requires Sound(tree)
    ensures HasIncludedLeaf(Pass(tree, order)) <==> HasIncludedLeaf(tree)
  {
    PassInclusion(tree, order);
    var t := Pass(tree, order);
    if !Leaf(tree) {
      forall i | 0 <= i < |tree.children|
        ensures HasIncludedLeaf(t.children[i]) <==> HasIncludedLeaf(tree.children[i])
      {
        PassKeepsLeaves(tree.children[i], order);
      }
    }
  }

  /** Once a part is as a pass would leave it, no round anywhere changes it. */
  lemma {:induction false} SettledStays(tree: Tree, round: Path, path: Path, part: Tree, order: seq<string>)
    requires Healthy(tree) && Exists(tree, path) && Sound(part) && NodeAt(tree, path) == Pass(part, order)
    ensures Exists(Round(tree, round, order), path) && NodeAt(Round(tree, round, order), path) == Pass(part, order)
    decreases |path|
  {
    if path == [] {
      SettledRound(part, round, order);
    } else if round == [] {
      PassKeepsLeaves(part, order);
      CheckedAbove(tree, path, part, order);
      CheckedAlike(tree, order);
      ExistsAlike(tree, Checked(tree, order), path);
    } else if round[0] == path[0] {
      SettledStays(tree.children[path[0]], round[1..], path[1..], part, order);
    }
  }

  lemma {:induction false} ExistsAlike(a: Tree, b: Tree, path: Path)
    requires Alike(a, b)
    ensures Exists(a, path) ==> Exists(b, path) && Alike(NodeAt(a, path), NodeAt(b, path))
    decreases |path|
  {
    if path != [] && path[0] < |a.children| {
      ExistsAlike(a.children[path[0]], b.children[path[0]], path[1..]);
    }
  }

  lemma {:induction false} SettledStaysOn(tree: Tree, paths: seq<Path>, more: seq<Path>, path: Path, part: Tree,
                                          order: seq<string>)
    requires Healthy(tree) && Sound(part)
    requires var t := Rounds(tree, paths, order); Exists(t, path) && NodeAt(t, path) == Pass(part, order)
    ensures var t := Rounds(tree, paths + more, order); Exists(t, path) && NodeAt(t, path) == Pass(part, order)
    decreases |more|
  {
    hide Round, Pass, Alike, Sound, Noticed, NodeAt, Exists;
    if more == [] {
      assert paths + more == paths;
    } else {
      var front := more[..|more| - 1];
      SettledStaysOn(tree, paths, front, path, part, order);
      assert (paths + more)[..|paths + more| - 1] == paths + front;
      RoundsAlike(tree, paths + front, order);
      SettledStays(Rounds(tree, paths + front, order), more[|more| - 1], path, part, order);
    }
  }

  // --- any order of rounds that contains a bottom-up pass ---

  /** At every controller the states that count can be compared when those below have settled. */
  predicate Decided(tree: Tree, order: seq<string>) {
    Leaf(tree) ||
    (Comparable(order, Items(Passed(tree, order).children))
     && forall i :: 0 <= i < |tree.children| ==> Decided(tree.children[i], order))
  }

  /** Among the rounds there is one of the controller at `path` after each of its children had settled. */
  ghost predicate Settled(paths: seq<Path>, tree: Tree, path: Path)
    decreases tree
  {
    Leaf(tree) ||
    exists k :: 0 <= k < |paths| && paths[k] == path && ChildrenSettled(paths[..k], tree, path)
  }

  ghost predicate ChildrenSettled(paths: seq<Path>, tree: Tree, path: Path)
    decreases tree, 0
  {
    forall i :: 0 <= i < |tree.children| ==> Settled(paths, tree.children[i], path + [i])
  }

  lemma {:induction false} NodeAtChild(tree: Tree, path: Path, i: nat)
    requires Exists(tree, path) && i < |NodeAt(tree, path).children|
    ensures Exists(tree, path + [i]) && NodeAt(tree, path + [i]) == NodeAt(tree, path).children[i]
    decreases |path|
  {
    if path == [] {
      assert path + [i] == [i] && [i][1..] == [];
    } else {
      assert (path + [i])[1..] == path[1..] + [i];
      NodeAtChild(tree.children[path[0]], path[1..], i);
    }
  }

  lemma {:induction false} RoundAt(tree: Tree, path: Path, order: seq<string>)
    requires Exists(tree, path) && !Leaf(NodeAt(tree, path))
    ensures Exists(Round(tree, path, order), path)
    ensures NodeAt(Round(tree, path, order), path) == Checked(NodeAt(tree, path), order)
    decreases |path|
  {
    if path != [] {
      RoundAt(tree.children[path[0]], path[1..], order);
    }
  }

  lemma {:induction false} SoundAt(tree: Tree, path: Path)
    requires Sound(tree) && Exists(tree, path)
    ensures Sound(NodeAt(tree, path))
    decreases |path|
  {
    if path != [] {
      SoundAt(tree.children[path[0]], path[1..]);
    }
  }

  /** What a round makes of a controller depends on its children only, if their states can be compared. */
  lemma CheckedSame(tree: Tree, now: Tree, order: seq<string>)
    requires !Leaf(tree) && now.types == tree.types && now.children == Passed(tree, order).children
    requires Comparable(order, Items(now.children))
    ensures Checked(now, order) == Pass(tree, order)
  {
    hide Lowest, AllSame, Gathered, Singles;
    PassParts(tree, order);
  }

  lemma PassParts(tree: Tree, order: seq<string>)
    requires !Leaf(tree)
    ensures Pass(tree, order) == Checked(Passed(tree, order), order)
  {
  }

  lemma {:induction false} SettledMeans(root: Tree, node: Tree, path: Path, paths: seq<Path>, order: seq<string>)
    requires Healthy(root) && Exists(root, path) && node == NodeAt(root, path) && Decided(node, order)
    requires Settled(paths, node, path)
    ensures var t := Rounds(root, paths, order); Exists(t, path) && NodeAt(t, path) == Pass(node, order)
    decreases node
  {
    hide Comparable, Items, Healthy, Pass, Rounds;
    if Leaf(node) {
      LeafStays(root, path, paths, order);
    } else {
      var k :| 0 <= k < |paths| && paths[k] == path && ChildrenSettled(paths[..k], node, path);
      forall i | 0 <= i < |node.children|
        ensures NodeAt(Rounds(root, paths[..k], order), path + [i]) == Pass(node.children[i], order)
      {
        NodeAtChild(root, path, i);
        SettledMeans(root, node.children[i], path + [i], paths[..k], order);
      }
      LastRound(root, node, path, paths, k, order);
      SettledSince(root, node, path, paths, k + 1, order);
    }
  }

  lemma LeafStays(root: Tree, path: Path, paths: seq<Path>, order: seq<string>)
    requires Healthy(root) && Exists(root, path) && Leaf(NodeAt(root, path))
    ensures var t := Rounds(root, paths, order); Exists(t, path) && NodeAt(t, path) == Pass(NodeAt(root, path), order)
  {
    hide Healthy, Rounds;
    RoundsAlike(root, paths, order);
    ExistsAlike(root, Rounds(root, paths, order), path);
  }

  lemma SettledSince(root: Tree, node: Tree, path: Path, paths: seq<Path>, k: nat, order: seq<string>)
    requires Healthy(root) && Exists(root, path) && node == NodeAt(root, path) && k <= |paths|
    requires var t := Rounds(root, paths[..k], order); Exists(t, path) && NodeAt(t, path) == Pass(node, order)
    ensures var t := Rounds(root, paths, order); Exists(t, path) && NodeAt(t, path) == Pass(node, order)
  {
    hide Pass, Rounds, Round;
    SoundAt(root, path);
    assert paths[..k] + paths[k..] == paths;
    SettledStaysOn(root, paths[..k], paths[k..], path, node, order);
  }

  lemma LastRound(root: Tree, node: Tree, path: Path, paths: seq<Path>, k: nat, order: seq<string>)
    requires Healthy(root) && Exists(root, path) && node == NodeAt(root, path) && Decided(node, order) && !Leaf(node)
    requires k < |paths| && paths[k] == path
    requires forall i :: 0 <= i < |node.children| ==>
               NodeAt(Rounds(root, paths[..k], order), path + [i]) == Pass(node.children[i], order)
    ensures var t := Rounds(root, paths[..k + 1], order); Exists(t, path) && NodeAt(t, path) == Pass(node, order)
  {
    hide Comparable, Items, Checked, Healthy;
    var t := Rounds(root, paths[..k], order);
    RoundsAlike(root, paths[..k], order);
    ExistsAlike(root, t, path);
    var now := NodeAt(t, path);
    forall i | 0 <= i < |node.children| ensures now.children[i] == Pass(node.children[i], order) {
      NodeAtChild(t, path, i);
    }
    assert now.children == Passed(node, order).children;
    CheckedSame(node, now, order);
    RoundAt(t, path, order);
    assert paths[..k + 1][..k] == paths[..k];
  }

  /** With still leaves and no re-inclusion pending, any sequence of rounds in which every controller has one after
      those below it have settled ends in the state that a pass from the bottom up computes, whatever other rounds come
      before, between and after. */
  lemma AnyOrderEndsInPass(tree: Tree, paths: seq<Path>, order: seq<string>)
    requires Healthy(tree) && Decided(tree, order) && Settled(paths, tree, [])
    ensures Rounds(tree, paths, order) == Pass(tree, order)
  {
    SettledMeans(tree, tree, [], paths, order);
  }

  /** Every leaf reports a single state that the state machine knows. */
  predicate SingleStates(tree: Tree, order: seq<string>) {
    if Leaf(tree) then tree.state.One? && tree.state.name in order
    else forall i :: 0 <= i < |tree.children| ==> SingleStates(tree.children[i], order)
  }

  /** Then the states can be compared everywhere. */
  lemma {:induction false} SingleStatesDecide(tree: Tree, order: seq<string>)
    requires Sound(tree) && SingleStates(tree, order)
    ensures Decided(tree, order) && var s := Pass(tree, order).state; s.One? && s.name in order
  {
    if !Leaf(tree) {
      forall i | 0 <= i < |tree.children|
        ensures Decided(tree.children[i], order)
        ensures var s := Pass(tree.children[i], order).state; s.One? && s.name in order
      {
        SingleStatesDecide(tree.children[i], order);
      }
      SinglesCompare(Passed(tree, order).children, order);
      PassParts(tree, order);
    }
  }

  lemma SinglesCompare(children: seq<Tree>, order: seq<string>)
    requires children != []
             && forall i :: 0 <= i < |children| ==> children[i].state.One? && children[i].state.name in order
    ensures Comparable(order, Items(children))
  {
    GatheredKnown(children, order);
    assert forall c <- children :: c.state.One?;
  }

  lemma {:induction false} GatheredKnown(children: seq<Tree>, order: seq<string>)
    requires forall i :: 0 <= i < |children| ==> children[i].state.One? && children[i].state.name in order
    ensures forall s <- Gathered(children) :: s in order
  {
    if children != [] {
      GatheredKnown(children[..|children| - 1], order);
    }
  }

  // --- a re-included leaf ---

  /** A root with one controller, not included, above one leaf that has just been included again. */
  function Reincluding(state: string): Tree {
    var leaf := Tree([], true, One(state), false, []);
    var middle := Tree([], false, One(state), false, [leaf]);
    Tree([], true, One(state), false, [middle])
  }

  /** If the checker of the root has its round first, it excludes the leaf again; if that of the controller between
      has, the leaf stays. */
  lemma OrderDecidesInclusion(state: string, order: seq<string>)
    ensures var first, second := Rounds(Reincluding(state), [[]], order), Rounds(Reincluding(state), [[0], []], order);
            && Exists(first, [0, 0]) && !NodeAt(first, [0, 0]).included
            && Exists(second, [0, 0]) && NodeAt(second, [0, 0]).included && second.included
  {
    hide Checked;
    var root := Reincluding(state);
    RoundsTwo(root, [0], [], order);
    RootFirst(state, order);
    BetweenFirst(state, order);
  }

  lemma RoundsTwo(tree: Tree, first: Path, second: Path, order: seq<string>)
    ensures Rounds(tree, [first], order) == Round(tree, first, order)
    ensures Rounds(tree, [second], order) == Round(tree, second, order)
    ensures Rounds(tree, [first, second], order) == Round(Round(tree, first, order), second, order)
  {
    hide Round;
    var none: seq<Path> := [];
    var both: seq<Path> := [first, second];
    assert Rounds(tree, none, order) == tree;
    assert [first][..0] == none && [second][..0] == none && both[..1] == [first];
  }

  lemma RootFirst(state: string, order: seq<string>)
    ensures var t := Round(Reincluding(state), [], order); Exists(t, [0, 0]) && !NodeAt(t, [0, 0]).included
  {
    hide Lowest, AllSame, Singles, Gathered, Comparable;
    var root := Reincluding(state);
    var middle := root.children[0];
    OneChild(middle);
    assert |Marked(root, false).children| == 1 && Marked(root, false).children[0] == Marked(middle, false);
    assert |Marked(middle, false).children| == 1;
    TwoBelow(Round(root, [], order));
  }

  lemma BetweenFirst(state: string, order: seq<string>)
    ensures var t := Round(Round(Reincluding(state), [0], order), [], order);
            Exists(t, [0, 0]) && NodeAt(t, [0, 0]).included && t.included
  {
    hide Checked, Gathered;
    var root := Reincluding(state);
    var middle := root.children[0];
    OneChild(middle.children[0]);
    CheckedKeeps(middle, order);
    var checked := Checked(middle, order);
    var between := root.(children := [checked]);
    TwoBelow(root);
    assert root.children[0 := checked] == [checked];
    OneChild(checked);
    CheckedKeeps(between, order);
    TwoBelow(Checked(between, order));
  }

  lemma CheckedKeeps(tree: Tree, order: seq<string>)
    requires Gathered(tree.children) != [] && tree.state.One?
    ensures var t := Checked(tree, order); t.included && t.children == tree.children && t.state.One?
  {
    hide Lowest, AllSame, Singles, Gathered, Comparable;
  }

  lemma TwoBelow(tree: Tree)
    requires |tree.children| == 1 && |tree.children[0].children| == 1
    ensures Exists(tree, [0, 0]) && NodeAt(tree, [0, 0]) == tree.children[0].children[0]
    ensures forall order :: Round(tree, [0], order)
                         == tree.(children := tree.children[0 := Checked(tree.children[0], order)])
  {
    hide Checked;
    var path: Path, rest: Path, end: Path := [0, 0], [0], [];
    var middle := tree.children[0];
    var leaf := middle.children[0];
    assert path[1..] == rest && rest[1..] == end;
    assert Exists(leaf, end) && NodeAt(leaf, end) == leaf;
    assert rest != [] && rest[0] == 0 < |middle.children|;
    assert Exists(middle, rest) && NodeAt(middle, rest) == leaf;
  }

  lemma OneChild(child: Tree)
    ensures Gathered([child]) == if child.included then Names(child.state) else []
  {
    assert [child][..0] == [];
  }
}
