/** `NodeTree.childrenStateChecker`: how the states of the leaves and their inclusion spread up the control tree. */
module TreeState {
  import opened Sequences
  import opened NodeTree

  // --- one round of the checker of a controller ---

  function Names(state: Status): seq<string> {
    match state
    case One(s) => [s]
    case Many(ss) => ss
  }

  /** The states of the included children. */
  function Gathered(children: seq<Tree>): seq<string> {
    if children == [] then []
    else
      var n := |children| - 1;
      Gathered(children[..n]) + (if children[n].included then Names(children[n].state) else [])
  }

  /** The states of all children as they are; a list of states cannot be compared. */
  function Singles(children: seq<Tree>): Option<seq<string>> {
    if forall c <- children :: c.state.One?
    then Some(seq(|children|, i requires 0 <= i < |children| && children[i].state.One? => children[i].state.name))
    else None
  }

  /** The position of a state in the state machine. */
  function Rank(order: seq<string>, s: string): nat
    requires s in order
  {
    if order[0] == s then 0 else 1 + Rank(order[1..], s)
  }

  /** The rank of a state is where it stands in the order for the first time. */
  lemma {:induction false} RankIs(order: seq<string>, s: string)
    requires s in order
    ensures var r := Rank(order, s); r < |order| && order[r] == s && forall i :: 0 <= i < r ==> order[i] != s
  {
    if order[0] != s {
      RankIs(order[1..], s);
    }
  }

  predicate Comparable(order: seq<string>, items: Option<seq<string>>) {
    items.Some? && items.value != [] && forall s <- items.value :: s in order
  }

  function Lowest(order: seq<string>, items: seq<string>): (r: string)
    requires items != [] && forall s <- items :: s in order
    ensures r in items && forall s <- items :: Rank(order, r) <= Rank(order, s)
  {
    var n := |items| - 1;
    if n == 0 then items[0]
    else
      var best := Lowest(order, items[..n]);
      if Rank(order, items[n]) < Rank(order, best) then items[n] else best
  }

  predicate AllSame(items: seq<string>) {
    forall a <- items, b <- items :: a == b
  }

  function Items(children: seq<Tree>): Option<seq<string>> {
    if Gathered(children) == [] then Singles(children) else Some(Gathered(children))
  }

  function Reincluded(tree: Tree): Tree {
    if Gathered(tree.children) == [] then Marked(tree, false) else tree.(included := true)
  }

  /** One round. States that cannot be compared raise an exception after the inclusion was updated. */
  function Checked(tree: Tree, order: seq<string>): Tree {
    var items := Items(tree.children);
    if Comparable(order, items)
    then Reincluded(tree).(state := One(Lowest(order, items.value)), inconsistent := !AllSame(items.value))
    else Reincluded(tree)
  }

  /** One round of every controller, those below first. */
  function Pass(tree: Tree, order: seq<string>): Tree {
    if Leaf(tree) then tree
    else
      var children := seq(|tree.children|, i requires 0 <= i < |tree.children| => Pass(tree.children[i], order));
      Checked(tree.(children := children), order)
  }

  // --- the leaves below a node ---

  predicate HasIncludedLeaf(tree: Tree) {
    if Leaf(tree) then tree.included else exists i :: 0 <= i < |tree.children| && HasIncludedLeaf(tree.children[i])
  }

  /** The states of the included leaves, from left to right. */
  function LeafStates(tree: Tree): seq<string>
    decreases tree, 1
  {
    if Leaf(tree) then (if tree.included then Names(tree.state) else []) else LeafStatesOf(tree, |tree.children|)
  }

  function LeafStatesOf(tree: Tree, n: nat): seq<string>
    requires n <= |tree.children|
    decreases tree, 0, n
  {
    if n == 0 then [] else LeafStatesOf(tree, n - 1) + LeafStates(tree.children[n - 1])
  }

  /** Every leaf reports at least one state; the state of a controller is never a list. */
  predicate Sound(tree: Tree) {
    if Leaf(tree) then Names(tree.state) != []
    else tree.state.One? && forall i :: 0 <= i < |tree.children| ==> Sound(tree.children[i])
  }

  predicate Excluded(tree: Tree) {
    !tree.included && forall i :: 0 <= i < |tree.children| ==> Excluded(tree.children[i])
  }

  lemma {:induction false} ExcludedMarked(tree: Tree)
    requires Excluded(tree)
    ensures Marked(tree, false) == tree
  {
    forall i | 0 <= i < |tree.children| ensures Marked(tree, false).children[i] == tree.children[i] {
      ExcludedMarked(tree.children[i]);
    }
    assert Marked(tree, false).children == tree.children;
  }

  lemma {:induction false} MarkedExcluded(tree: Tree)
    ensures Excluded(Marked(tree, false))
  {
    forall i | 0 <= i < |tree.children| ensures Excluded(Marked(tree, false).children[i]) {
      MarkedExcluded(tree.children[i]);
    }
  }

  lemma {:induction false} GatheredNone(children: seq<Tree>)
    requires forall c <- children :: Names(c.state) != []
    ensures Gathered(children) == [] <==> forall c <- children :: !c.included
  {
    if children != [] {
      var n := |children| - 1;
      GatheredNone(children[..n]);
      assert children == children[..n] + [children[n]];
    }
  }

  function Passed(tree: Tree, order: seq<string>): Tree {
    tree.(children := seq(|tree.children|, i requires 0 <= i < |tree.children| => Pass(tree.children[i], order)))
  }

  /** After a pass a node is included exactly if a leaf below it is; if none is, everything below is excluded. The
      states stay sound. */
  lemma {:induction false} PassInclusion(tree: Tree, order: seq<string>)
    requires Sound(tree)
    ensures var t := Pass(tree, order);
            && (t.included <==> HasIncludedLeaf(tree)) && (!t.included ==> Excluded(t)) && Names(t.state) != []
            && t.children == Passed(tree, order).children
            && (!Leaf(tree) ==> (t.included <==> Gathered(t.children) != []))
  {
    if !Leaf(tree) {
      var p := Passed(tree, order);
      forall i | 0 <= i < |tree.children|
        ensures var c := p.children[i];
                (c.included <==> HasIncludedLeaf(tree.children[i])) && (!c.included ==> Excluded(c))
                && Names(c.state) != []
      {
        PassInclusion(tree.children[i], order);
      }
      GatheredNone(p.children);
      PassStep(tree, order);
    }
  }

  lemma PassStep(tree: Tree, order: seq<string>)
    requires !Leaf(tree) && tree.state.One?
    requires var p := Passed(tree, order);
             && (Gathered(p.children) == [] <==> forall c <- p.children :: !c.included)
             && forall i :: 0 <= i < |p.children| ==> (!p.children[i].included ==> Excluded(p.children[i]))
    ensures var t := Pass(tree, order);
            && t.children == Passed(tree, order).children && t.state.One?
            && (t.included <==> Gathered(t.children) != []) && (!t.included ==> Excluded(t))
  {
    var p := Passed(tree, order);
    assert Pass(tree, order) == Checked(p, order);
    if Gathered(p.children) == [] {
      forall i | 0 <= i < |p.children|
        ensures Excluded(p.children[i]) && Marked(p.children[i], false) == p.children[i]
      {
        ExcludedMarked(p.children[i]);
      }
      assert Marked(p, false).children == p.children;
    }
  }

  /** A second pass changes nothing. */
  lemma {:induction false} SecondPass(tree: Tree, order: seq<string>)
    requires Sound(tree)
    ensures Pass(Pass(tree, order), order) == Pass(tree, order)
  {
    if !Leaf(tree) {
      PassInclusion(tree, order);
      var t := Pass(tree, order);
      forall i | 0 <= i < |tree.children| ensures Pass(t.children[i], order) == t.children[i] {
        SecondPass(tree.children[i], order);
      }
      assert Passed(t, order).children == t.children;
      assert Pass(t, order) == Checked(t, order);
      if !t.included {
        ExcludedMarked(t);
      }
      CheckAgain(tree, order);
    }
  }

  lemma CheckAgain(tree: Tree, order: seq<string>)
    requires !Leaf(tree) && Sound(tree)
    ensures Checked(Pass(tree, order), order) == Pass(tree, order)
  {
    hide Gathered, Lowest, AllSame, Singles, Sound;
    PassInclusion(tree, order);
    var t := Pass(tree, order);
    assert t == Checked(Passed(tree, order), order);
    if !t.included {
      ExcludedMarked(t);
    }
  }

  // --- what a pass establishes at every node ---

  /** A pass over the whole tree leaves at every node what a pass over the part below it leaves; in particular it
      changes no leaf. */
  lemma {:induction false} PassAt(tree: Tree, order: seq<string>, path: Path)
    requires Sound(tree) && Exists(tree, path)
    ensures NodeAt(Pass(tree, order), path) == Pass(NodeAt(tree, path), order)
    ensures Exists(Pass(tree, order), path) && Sound(NodeAt(tree, path))
    decreases |path|
  {
    if path != [] {
      PassInclusion(tree, order);
      PassAt(tree.children[path[0]], order, path[1..]);
    }
  }

  /** At every node: leaves keep everything, and a controller is included exactly if a leaf below it is. */
  lemma InclusionFollowsLeaves(tree: Tree, order: seq<string>, path: Path)
    requires Sound(tree) && Exists(tree, path)
    ensures var before, after := NodeAt(tree, path), NodeAt(Pass(tree, order), path);
            (Leaf(before) ==> after == before) && (after.included <==> HasIncludedLeaf(before))
  {
    PassAt(tree, order, path);
    PassInclusion(NodeAt(tree, path), order);
  }

  ghost predicate KnownLeaves(tree: Tree, order: seq<string>) {
    Among(LeafStates(tree), order)
  }

  lemma {:induction false} LeafStatesPart(tree: Tree, n: nat, i: nat)
    requires i < n <= |tree.children|
    ensures forall s <- LeafStates(tree.children[i]) :: s in LeafStatesOf(tree, n)
  {
    if i < n - 1 {
      LeafStatesPart(tree, n - 1, i);
    }
  }

  lemma {:induction false} NoIncludedNoStates(tree: Tree)
    requires Sound(tree)
    ensures HasIncludedLeaf(tree) <==> LeafStates(tree) != []
  {
    if !Leaf(tree) {
      NoIncludedNoStatesOf(tree, |tree.children|);
    }
  }

  lemma {:induction false} NoIncludedNoStatesOf(tree: Tree, n: nat)
    requires n <= |tree.children| && forall i :: 0 <= i < |tree.children| ==> Sound(tree.children[i])
    ensures LeafStatesOf(tree, n) != [] <==> exists i :: 0 <= i < n && HasIncludedLeaf(tree.children[i])
    decreases tree, 0, n
  {
    if n > 0 {
      NoIncludedNoStatesOf(tree, n - 1);
      NoIncludedNoStates(tree.children[n - 1]);
    }
  }

  ghost predicate Among(items: seq<string>, all: seq<string>) {
    forall s <- items :: s in all
  }

  ghost predicate Bounded(order: seq<string>, items: seq<string>, s: string) {
    exists m <- items :: m in order && s in order && Rank(order, m) <= Rank(order, s)
  }

  /** `items` are among `all`, and nothing in `all` is below all of them. */
  ghost predicate Covers(order: seq<string>, items: seq<string>, all: seq<string>) {
    Among(items, all) && Among(all, order) && forall s <- all :: Bounded(order, items, s)
  }

  lemma CoversConcat(order: seq<string>, a: seq<string>, b: seq<string>, x: seq<string>, y: seq<string>)
    requires Covers(order, a, x) && Covers(order, b, y)
    ensures Covers(order, a + b, x + y)
  {
    hide Rank;
    forall s <- x + y ensures Bounded(order, a + b, s) {
      BoundedMore(order, a, b, s);
    }
  }

  lemma BoundedMore(order: seq<string>, a: seq<string>, b: seq<string>, s: string)
    requires Bounded(order, a, s) || Bounded(order, b, s)
    ensures Bounded(order, a + b, s)
  {
    hide Rank;
    var m :| m in a + b && m in order && s in order && Rank(order, m) <= Rank(order, s);
  }

  lemma CoversItself(order: seq<string>, all: seq<string>)
    requires Among(all, order)
    ensures Covers(order, all, all)
  {
    forall s <- all ensures Bounded(order, all, s) {
      assert Rank(order, s) <= Rank(order, s);
    }
  }

  /** What a node passes up after a pass, against the states of the included leaves below it. */
  lemma {:induction false} NamesCover(tree: Tree, order: seq<string>)
    requires Sound(tree) && KnownLeaves(tree, order)
    ensures var t := Pass(tree, order);
            && (t.included ==> Covers(order, Names(t.state), LeafStates(tree)))
            && (!Leaf(tree) && t.included ==>
                  && Covers(order, Gathered(t.children), LeafStates(tree)) && Gathered(t.children) != []
                  && t.state == One(Lowest(order, Gathered(t.children)))
                  && (t.inconsistent <==> !AllSame(Gathered(t.children))))
    decreases tree, 1
  {
    hide Covers, Lowest, Gathered, AllSame, Sound;
    var t := Pass(tree, order);
    PassInclusion(tree, order);
    if Leaf(tree) {
      if t.included {
        CoversItself(order, Names(t.state));
      }
    } else if t.included {
      GatheredCover(tree, order, |tree.children|);
      assert t.children[..|tree.children|] == t.children;
      LowestCovers(order, Gathered(t.children), LeafStates(tree));
      ControllerState(tree, order);
    }
  }

  lemma ControllerState(tree: Tree, order: seq<string>)
    requires !Leaf(tree) && Pass(tree, order).children == Passed(tree, order).children
    requires var items := Gathered(Pass(tree, order).children);
             items != [] && forall s <- items :: s in order
    ensures var t := Pass(tree, order);
            t.state == One(Lowest(order, Gathered(t.children))) && (t.inconsistent <==> !AllSame(Gathered(t.children)))
  {
    hide Lowest, Gathered, AllSame;
    assert Pass(tree, order) == Checked(Passed(tree, order), order);
  }

  lemma LowestCovers(order: seq<string>, items: seq<string>, all: seq<string>)
    requires Covers(order, items, all) && items != []
    ensures forall s <- items :: s in order
    ensures Covers(order, [Lowest(order, items)], all)
  {
    hide Rank, Lowest;
    var low := Lowest(order, items);
    forall s <- all ensures Bounded(order, [low], s) {
      var m :| m in items && m in order && s in order && Rank(order, m) <= Rank(order, s);
      assert low in [low];
    }
  }

  lemma {:induction false} GatheredCover(tree: Tree, order: seq<string>, n: nat)
    requires !Leaf(tree) && Sound(tree) && KnownLeaves(tree, order) && n <= |tree.children|
    ensures Covers(order, Gathered(Passed(tree, order).children[..n]), LeafStatesOf(tree, n))
    decreases tree, 0, n
  {
    hide Covers, Pass;
    var ps := Passed(tree, order).children;
    if n == 0 {
      CoversNothing(order);
    } else {
      var child, c := tree.children[n - 1], ps[n - 1];
      GatheredCover(tree, order, n - 1);
      assert ps[..n][..n - 1] == ps[..n - 1];
      LeafStatesPart(tree, |tree.children|, n - 1);
      NamesCover(child, order);
      PassInclusion(child, order);
      NoIncludedNoStates(child);
      CoversNothing(order);
      CoversConcat(order, Gathered(ps[..n - 1]), if c.included then Names(c.state) else [],
                   LeafStatesOf(tree, n - 1), LeafStates(child));
    }
  }

  lemma CoversNothing(order: seq<string>)
    ensures Covers(order, [], [])
  {
  }

  /** At every controller with an included leaf whose leaf states are all known: its state is the lowest state of the
      included leaves below it, and it is inconsistent exactly if the states of its included children differ. */
  lemma StateIsLowest(tree: Tree, order: seq<string>, path: Path)
    requires Sound(tree) && Exists(tree, path)
    requires var node := NodeAt(tree, path);
             !Leaf(node) && HasIncludedLeaf(node) && KnownLeaves(node, order)
    ensures var before, after := NodeAt(tree, path), NodeAt(Pass(tree, order), path);
            && after.state.One? && after.state.name in LeafStates(before) && after.state.name in order
            && (forall s <- LeafStates(before) :: s in order && Rank(order, after.state.name) <= Rank(order, s))
            && (after.inconsistent <==> !AllSame(Gathered(after.children)))
  {
    hide Sound, Pass, HasIncludedLeaf, LeafStates, NodeAt, Exists, KnownLeaves;
    PassAt(tree, order, path);
    NodeStateIsLowest(NodeAt(tree, path), order);
  }

  lemma NodeStateIsLowest(node: Tree, order: seq<string>)
    requires Sound(node) && !Leaf(node) && HasIncludedLeaf(node) && KnownLeaves(node, order)
    ensures var after := Pass(node, order);
            && after.state.One? && after.state.name in LeafStates(node) && after.state.name in order
            && (forall s <- LeafStates(node) :: s in order && Rank(order, after.state.name) <= Rank(order, s))
            && (after.inconsistent <==> !AllSame(Gathered(after.children)))
  {
    hide Sound, HasIncludedLeaf, LeafStates, AllSame, Gathered, Pass, Rank, Lowest, Covers, KnownLeaves;
    PassInclusion(node, order);
    NamesCover(node, order);
    CoveredByOne(order, Pass(node, order).state.name, LeafStates(node));
  }

  lemma CoveredByOne(order: seq<string>, m: string, all: seq<string>)
    requires Covers(order, [m], all)
    ensures m in all && m in order && forall s <- all :: s in order && Rank(order, m) <= Rank(order, s)
  {
    hide Rank;
    assert m in [m];
    forall s <- all ensures s in order && Rank(order, m) <= Rank(order, s) {
      assert Bounded(order, [m], s);
    }
  }

  // --- consistency of a whole tree ---

  /** No included controller in the tree is inconsistent. */
  predicate Consistent(tree: Tree) {
    Leaf(tree) || !tree.included
    || (!tree.inconsistent && forall i :: 0 <= i < |tree.children| ==> Consistent(tree.children[i]))
  }

  /** All included leaves below a controller are in the same state exactly if, after a pass, no included controller from
      there on down is inconsistent. */
  lemma {:induction false} ConsistentIffAllSame(tree: Tree, order: seq<string>)
    requires Sound(tree) && KnownLeaves(tree, order) && !Leaf(tree)
    ensures Consistent(Pass(tree, order)) <==> AllSame(LeafStates(tree))
    decreases tree
  {
    hide LeafStates, AllSame, Gathered, Pass, KnownLeaves, HasIncludedLeaf, Covers;
    PassInclusion(tree, order);
    NoIncludedNoStates(tree);
    var t := Pass(tree, order);
    if t.included {
      forall i | 0 <= i < |tree.children|
        ensures Consistent(t.children[i]) <==> Leaf(tree.children[i]) || AllSame(LeafStates(tree.children[i]))
      {
        KnownPart(tree, order, i);
        if !Leaf(tree.children[i]) {
          ConsistentIffAllSame(tree.children[i], order);
        } else {
          LeafPass(tree.children[i], order);
        }
      }
      NamesCover(tree, order);
      SameIff(tree, order);
    } else {
      assert AllSame(LeafStates(tree)) by {
        NothingSame(LeafStates(tree));
      }
    }
  }

  lemma NothingSame(items: seq<string>)
    requires items == []
    ensures AllSame(items)
  {
  }

  lemma LeafPass(leaf: Tree, order: seq<string>)
    requires Leaf(leaf)
    ensures Pass(leaf, order) == leaf
  {
  }

  lemma KnownPart(tree: Tree, order: seq<string>, i: nat)
    requires !Leaf(tree) && KnownLeaves(tree, order) && i < |tree.children|
    ensures KnownLeaves(tree.children[i], order)
  {
    LeafStatesPart(tree, |tree.children|, i);
  }

  predicate SamePerChild(tree: Tree) {
    forall i :: 0 <= i < |tree.children| ==> Leaf(tree.children[i]) || AllSame(LeafStates(tree.children[i]))
  }

  lemma SameIff(tree: Tree, order: seq<string>)
    requires Sound(tree) && KnownLeaves(tree, order) && !Leaf(tree) && Pass(tree, order).included
    ensures AllSame(Gathered(Pass(tree, order).children)) && SamePerChild(tree) <==> AllSame(LeafStates(tree))
  {
    hide Gathered, Pass, Sound, KnownLeaves, LeafStates, AllSame, Covers, Lowest;
    PassInclusion(tree, order);
    NamesCover(tree, order);
    var t := Pass(tree, order);
    assert t.children[..|tree.children|] == t.children;
    if AllSame(LeafStates(tree)) {
      SameParts(tree);
      SameAmong(Gathered(t.children), LeafStates(tree), order);
    } else if AllSame(Gathered(t.children)) && SamePerChild(tree) {
      SameBelow(tree, order, |tree.children|);
      AllOfTree(tree);
      AllSameAmong(LeafStates(tree), Gathered(t.children));
      assert false;
    }
  }

  lemma SameAmong(items: seq<string>, all: seq<string>, order: seq<string>)
    requires Covers(order, items, all) && AllSame(all)
    ensures AllSame(items)
  {
    AllSameAmong(items, all);
  }

  lemma AllSameAmong(items: seq<string>, all: seq<string>)
    requires Among(items, all) && AllSame(all)
    ensures AllSame(items)
  {
  }

  lemma AllOfTree(tree: Tree)
    requires !Leaf(tree)
    ensures LeafStates(tree) == LeafStatesOf(tree, |tree.children|)
  {
  }

  lemma SameParts(tree: Tree)
    requires !Leaf(tree) && AllSame(LeafStates(tree))
    ensures SamePerChild(tree)
  {
    forall i | 0 <= i < |tree.children| ensures AllSame(LeafStates(tree.children[i])) {
      LeafStatesPart(tree, |tree.children|, i);
    }
  }

  /** If each child controller has only one state below it, every state of a leaf is gathered. */
  lemma {:induction false} SameBelow(tree: Tree, order: seq<string>, n: nat)
    requires !Leaf(tree) && Sound(tree) && KnownLeaves(tree, order) && n <= |tree.children|
    requires SamePerChild(tree)
    ensures Among(LeafStatesOf(tree, n), Gathered(Passed(tree, order).children[..n]))
  {
    hide Pass, Covers;
    if n > 0 {
      var ps := Passed(tree, order).children;
      SameBelow(tree, order, n - 1);
      assert ps[..n][..n - 1] == ps[..n - 1];
      SameChild(tree, order, n - 1);
    }
  }

  lemma SameChild(tree: Tree, order: seq<string>, i: nat)
    requires !Leaf(tree) && Sound(tree) && KnownLeaves(tree, order) && i < |tree.children|
    requires Leaf(tree.children[i]) || AllSame(LeafStates(tree.children[i]))
    ensures var c := Pass(tree.children[i], order);
            forall s <- LeafStates(tree.children[i]) :: c.included && s in Names(c.state)
  {
    var child := tree.children[i];
    LeafStatesPart(tree, |tree.children|, i);
    PassInclusion(child, order);
    NoIncludedNoStates(child);
    NamesCover(child, order);
  }

  /** A controller can look consistent although the leaves below it are in different states. */
  lemma InconsistencyStaysBelow(s: string, low: string, order: seq<string>)
    requires s in order && low in order && s != low && Rank(order, low) < Rank(order, s)
    ensures var a, b := Tree([], true, One(s), false, []), Tree([], true, One(low), false, []);
            var tree := Tree([], true, One(s), false, [Tree([], true, One(s), false, [a, b])]);
            var t := Pass(tree, order);
            !t.inconsistent && t.state == One(low) && t.children[0].inconsistent && !AllSame(LeafStates(tree))
  {
    var a, b := Tree([], true, One(s), false, []), Tree([], true, One(low), false, []);
    var middle := Tree([], true, One(s), false, [a, b]);
    var tree := Tree([], true, One(s), false, [middle]);
    TwoLeaves(a, b, middle, order);
    OneController(middle, tree, low, order);
    assert s in LeafStates(tree) && low in LeafStates(tree);
  }

  lemma OneController(middle: Tree, tree: Tree, low: string, order: seq<string>)
    requires tree.children == [middle] && low in order
    requires var m := Pass(middle, order); m.included && m.state == One(low)
    ensures var t := Pass(tree, order);
            !t.inconsistent && t.state == One(low) && t.children == [Pass(middle, order)]
    ensures LeafStates(tree) == LeafStates(middle)
  {
    var m := Pass(middle, order);
    assert Passed(tree, order).children == [m];
    assert [m][..0] == [];
    assert Gathered([m]) == [low];
    assert LeafStatesOf(tree, 1) == LeafStatesOf(tree, 0) + LeafStates(middle);
  }

  lemma TwoLeaves(a: Tree, b: Tree, middle: Tree, order: seq<string>)
    requires Leaf(a) && Leaf(b) && a.included && b.included && a.state.One? && b.state.One? && middle.children == [a, b]
    requires a.state.name in order && b.state.name in order && Rank(order, b.state.name) < Rank(order, a.state.name)
    ensures var m := Pass(middle, order);
            m.included && m.state == b.state && m.inconsistent && LeafStates(middle) == [a.state.name, b.state.name]
  {
    hide Gathered, Lowest, AllSame, LeafStatesOf, Rank;
    TwoStates(a, b, middle);
    TwoItems(a.state.name, b.state.name, order);
    assert Passed(middle, order).children == [a, b];
    assert Pass(middle, order) == Checked(Passed(middle, order), order);
  }

  lemma TwoItems(s: string, low: string, order: seq<string>)
    requires s in order && low in order && Rank(order, low) < Rank(order, s)
    ensures Lowest(order, [s, low]) == low && !AllSame([s, low])
  {
    var items := [s, low];
    assert items[..1] == [s];
    assert s in items && low in items && s != low;
  }

  lemma TwoStates(a: Tree, b: Tree, middle: Tree)
    requires Leaf(a) && Leaf(b) && a.included && b.included && a.state.One? && b.state.One? && middle.children == [a, b]
    ensures Gathered([a, b]) == [a.state.name, b.state.name] == LeafStatesOf(middle, 2)
  {
    assert [a, b][..1] == [a] && [a][..0] == [];
    assert Gathered([a]) == [a.state.name];
    assert LeafStatesOf(middle, 1) == LeafStatesOf(middle, 0) + LeafStates(a);
    assert LeafStatesOf(middle, 2) == LeafStatesOf(middle, 1) + LeafStates(b);
  }

  /** The states gathered are those of the included children, one after the other, with lists taken apart. */
  lemma {:induction false} GatheredAre(children: seq<Tree>) returns (states: seq<seq<string>>)
    ensures |states| == |children| && Gathered(children) == Flat(states)
    ensures forall i :: 0 <= i < |children| ==>
              && (!children[i].included ==> states[i] == [])
              && (children[i].included && children[i].state.One? ==> states[i] == [children[i].state.name])
              && (children[i].included && children[i].state.Many? ==> states[i] == children[i].state.names)
  {
    states := [];
    if children != [] {
      var n := |children| - 1;
      var front := GatheredAre(children[..n]);
      var last := if children[n].included then Names(children[n].state) else [];
      FlatSnoc(front, last);
      states := front + [last];
    }
  }

  /** A leaf reports the state `s`. */
  predicate Reports(leaf: Tree, s: string) {
    leaf.included &&
    match leaf.state
    case One(name) => name == s
    case Many(names) => s in names
  }

  predicate Reporting(tree: Tree, path: Path, s: string) {
    Exists(tree, path) && Leaf(NodeAt(tree, path)) && Reports(NodeAt(tree, path), s)
  }

  /** The states counted for a tree are those that its included leaves report, one by one or in lists. */
  lemma {:induction false} LeafStatesAre(tree: Tree, s: string)
    ensures s in LeafStates(tree) <==> exists path :: Reporting(tree, path, s)
    decreases tree, 1
  {
    if Leaf(tree) {
      assert Reporting(tree, [], s) <==> Reports(tree, s);
      forall path | Reporting(tree, path, s) ensures path == [] {
      }
    } else {
      LeafStatesOfAre(tree, |tree.children|, s);
      if path :| Reporting(tree, path, s) {
        assert Reporting(tree.children[path[0]], path[1..], s);
      }
      if i, rest :| 0 <= i < |tree.children| && Reporting(tree.children[i], rest, s) {
        assert ([i] + rest)[1..] == rest;
        assert Reporting(tree, [i] + rest, s);
      }
    }
  }

  lemma {:induction false} LeafStatesOfAre(tree: Tree, n: nat, s: string)
    requires n <= |tree.children|
    ensures s in LeafStatesOf(tree, n) <==> exists i, rest :: 0 <= i < n && Reporting(tree.children[i], rest, s)
    decreases tree, 0, n
  {
    if n > 0 {
      LeafStatesOfAre(tree, n - 1, s);
      LeafStatesAre(tree.children[n - 1], s);
    }
  }

  // --- a round with and without included children ---

  /** If included children report states, the controller is included and nothing below it changes; it takes the
      lowest of these states and is inconsistent exactly if two of them differ, and keeps its state if one of them
      is unknown. */
  lemma RoundWithIncluded(tree: Tree, order: seq<string>)
    requires Gathered(tree.children) != []
    ensures var t, states := Checked(tree, order), Gathered(tree.children);
            && t.included && t.children == tree.children && t.types == tree.types
            && if forall s <- states :: s in order
               then t.state.One? && t.state.name in states
                    && (forall s <- states :: Rank(order, t.state.name) <= Rank(order, s))
                    && (t.inconsistent <==> exists a <- states, b <- states :: a != b)
               else t.state == tree.state && t.inconsistent == tree.inconsistent
  {
    hide Gathered, Rank, Lowest;
  }

  /** If no child is included, the controller and all nodes below it are excluded; it takes the lowest of the states
      of all its children, and is inconsistent exactly if two of them differ. It keeps its state if some child reports a
      list or a state that is not in the order. */
  lemma RoundWithoutIncluded(tree: Tree, order: seq<string>)
    requires !Leaf(tree) && forall c <- tree.children :: !c.included
    ensures var t := Checked(tree, order);
            && Excluded(t)
            && (if forall c <- tree.children :: c.state.One? && c.state.name in order
                then IsLowest(t.state, t.inconsistent, tree.children, order)
                else t.state == tree.state && t.inconsistent == tree.inconsistent)
  {
    NoneGathered(tree.children);
    MarkedExcluded(tree);
    hide Marked, Gathered;
    if forall c <- tree.children :: c.state.One? {
      SinglesLowest(tree.children, order);
    }
  }

  ghost predicate IsLowest(state: Status, inconsistent: bool, children: seq<Tree>, order: seq<string>)
    requires forall c <- children :: c.state.One? && c.state.name in order
  {
    && state.One? && (exists c <- children :: c.state == state)
    && (forall c <- children :: state.name in order && Rank(order, state.name) <= Rank(order, c.state.name))
    && (inconsistent <==> exists c <- children, d <- children :: c.state != d.state)
  }

  lemma {:induction false} NoneGathered(children: seq<Tree>)
    requires forall c <- children :: !c.included
    ensures Gathered(children) == []
  {
    if children != [] {
      NoneGathered(children[..|children| - 1]);
    }
  }

  lemma SinglesLowest(children: seq<Tree>, order: seq<string>)
    requires children != [] && forall c <- children :: c.state.One?
    ensures Singles(children).Some?
    ensures Comparable(order, Singles(children)) <==> forall c <- children :: c.state.name in order
    ensures Comparable(order, Singles(children)) ==>
              var names := Singles(children).value;
              IsLowest(One(Lowest(order, names)), !AllSame(names), children, order)
  {
    hide Lowest, Rank;
    var names := Singles(children).value;
    assert |names| == |children| && forall i :: 0 <= i < |names| ==> names[i] == children[i].state.name;
    forall c <- children ensures c.state.name in names {
      var i :| 0 <= i < |children| && children[i] == c;
      assert names[i] == c.state.name;
    }
    forall s <- names ensures exists c <- children :: c.state == One(s) {
      var i :| 0 <= i < |names| && names[i] == s;
      assert children[i] in children;
    }
  }

  // --- the order of the checkers matters ---

  /** All leaves below two trees of the same shape are the same. */
  predicate SameLeaves(a: Tree, b: Tree) {
    if Leaf(a) || Leaf(b) then a == b
    else |a.children| == |b.children| && forall i :: 0 <= i < |a.children| ==> SameLeaves(a.children[i], b.children[i])
  }

  /** A single round of one checker leaves the leaves alone exactly if a child is included or no leaf below is: if the
      controllers between have not yet noticed that a leaf was included, the leaf is excluded again. */
  lemma CheckKeepsLeavesIff(tree: Tree, order: seq<string>)
    requires !Leaf(tree) && Sound(tree)
    ensures SameLeaves(tree, Checked(tree, order)) <==> Gathered(tree.children) != [] || !HasIncludedLeaf(tree)
  {
    if Gathered(tree.children) != [] {
      SameLeavesReflexive(tree);
    } else {
      MarkedLeaves(tree);
    }
  }

  lemma {:induction false} SameLeavesReflexive(tree: Tree)
    ensures SameLeaves(tree, tree)
  {
    forall i | 0 <= i < |tree.children| ensures SameLeaves(tree.children[i], tree.children[i]) {
      SameLeavesReflexive(tree.children[i]);
    }
  }

  lemma {:induction false} MarkedLeaves(tree: Tree)
    ensures SameLeaves(tree, Marked(tree, false)) <==> !HasIncludedLeaf(tree)
  {
    var m := Marked(tree, false);
    forall i | 0 <= i < |tree.children|
      ensures SameLeaves(tree.children[i], m.children[i]) <==> !HasIncludedLeaf(tree.children[i])
    {
      MarkedLeaves(tree.children[i]);
    }
  }

  /** After a pass an action reaches exactly the included leaves, whatever the controllers were before. */
  lemma {:induction false} PassReaches(tree: Tree, order: seq<string>, path: Path)
    requires Sound(tree)
    ensures Reachable(Pass(tree, order), path)
       <==> Exists(tree, path) && Leaf(NodeAt(tree, path)) && NodeAt(tree, path).included
    decreases |path|
  {
    PassInclusion(tree, order);
    if !Leaf(tree) && path != [] && path[0] < |tree.children| {
      var child := tree.children[path[0]];
      PassReaches(child, order, path[1..]);
      if Reachable(Pass(child, order), path[1..]) {
        IncludedUp(child, path[1..]);
      }
    }
  }

  lemma {:induction false} IncludedUp(tree: Tree, path: Path)
    requires Exists(tree, path) && Leaf(NodeAt(tree, path)) && NodeAt(tree, path).included
    ensures HasIncludedLeaf(tree)
    decreases |path|
  {
    if path != [] {
      IncludedUp(tree.children[path[0]], path[1..]);
    }
  }
}
