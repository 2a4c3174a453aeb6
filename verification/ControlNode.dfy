/** The objects of the control tree: the methods of `NodeTree`, which change a node and the nodes below it in place. */
module ControlNode {
  import opened Sequences
  import opened NodeTree
  import opened Dispatch
  import opened TreeState

  class Node {
    const types: seq<ModuleType>
    const children: seq<Node>
    ghost const Repr: set<Node>
    var included: bool
    var state: Status
    var inconsistent: bool

    ghost predicate Valid()
      decreases Repr
    {
      && this in Repr
      && (forall c <- children :: c.Repr < Repr && this !in c.Repr && c.Valid())
      && (forall i, j :: 0 <= i < j < |children| ==> children[i].Repr !! children[j].Repr)
    }

    ghost function View(): Tree
      requires Valid()
      reads Repr
      decreases Repr, |children| + 1
    {
      Tree(types, included, state, inconsistent, Views(|children|))
    }

    ghost function Views(n: nat): (views: seq<Tree>)
      requires Valid() && n <= |children|
      reads Repr
      ensures |views| == n && forall i :: 0 <= i < n ==> views[i] == children[i].View()
      decreases Repr, n
    {
      if n == 0 then [] else Views(n - 1) + [children[n - 1].View()]
    }

    constructor (types: seq<ModuleType>, children: seq<Node>)
      requires forall c <- children :: c.Valid()
      requires forall i, j :: 0 <= i < j < |children| ==> children[i].Repr !! children[j].Repr
      ensures Valid() && this.types == types && this.children == children
      ensures included && state == One("not_added") && !inconsistent
    {
      this.types, this.children := types, children;
      included, state, inconsistent := true, One("not_added"), false;
      Repr := {this} + (set c, n | c in children && n in c.Repr :: n);
    }

    lemma Shape()
      requires Valid()
      ensures this in Repr
      ensures forall i :: 0 <= i < |children| ==>
                children[i].Repr < Repr && this !in children[i].Repr && children[i].Valid()
      ensures forall i, j :: 0 <= i < j < |children| ==> children[i].Repr !! children[j].Repr
    {
    }

    lemma ViewParts()
      requires Valid()
      ensures var t := View();
              && t == Tree(types, included, state, inconsistent, t.children) && |t.children| == |children|
              && (forall i :: 0 <= i < |children| ==> children[i].Valid() && t.children[i] == children[i].View())
    {
    }

    lemma ViewIs(t: Tree)
      requires Valid() && t == Tree(types, included, state, inconsistent, t.children) && |t.children| == |children|
      requires forall i :: 0 <= i < |children| ==> children[i].Valid() && t.children[i] == children[i].View()
      ensures View() == t
    {
      assert View().children == t.children;
    }

    /** Includes or excludes the node and all nodes below it. */
    method Mark(value: bool)
      requires Valid()
      modifies Repr
      ensures View() == Marked(old(View()), value)
      decreases Repr
    {
      hide Valid, View, Marked;
      Shape();
      ViewParts();
      included := value;
      for i := 0 to |children|
        invariant included == value && state == old(state) && inconsistent == old(inconsistent)
        invariant forall j :: 0 <= j < i ==> children[j].View() == Marked(old(children[j].View()), value)
        invariant forall j :: i <= j < |children| ==> children[j].View() == old(children[j].View())
      {
        children[i].Mark(value);
      }
      MarkedParts(old(View()), value);
      ViewIs(Marked(old(View()), value));
    }

    method Include()
      requires Valid()
      modifies Repr
      ensures View() == Marked(old(View()), true)
    {
      Mark(true);
    }

    method Exclude()
      requires Valid()
      modifies Repr
      ensures View() == Marked(old(View()), false)
    {
      Mark(false);
    }

    // --- executing an action ---

    /** The submissions for one module type of an order rule. */
    method MatchingTasks(kind: string) returns (tasks: seq<Task>)
      requires Valid()
      ensures tasks == Matching(View().children, kind) && forall t <- tasks :: t.child < |children|
      ensures forall c: nat, wanted :: Count(tasks, Task(c, wanted)) ==
                (if c < |children| then |Matches(children[c].types, kind, wanted)| else 0)
    {
      hide Valid, View, EntriesOf, TasksFor;
      Shape();
      ViewParts();
      ghost var views := View().children;
      tasks := [];
      for i := 0 to |children|
        invariant tasks == Matching(views[..i], kind) && forall t <- tasks :: t.child < |children|
      {
        assert views[..i + 1][..i] == views[..i];
        ChildView(i);
        var mine := EntryTasks(i, children[i].types, kind);
        tasks := tasks + mine;
      }
      assert views[..|children|] == views;
      forall c: nat, wanted
        ensures Count(tasks, Task(c, wanted)) ==
                (if c < |children| then |Matches(children[c].types, kind, wanted)| else 0)
      {
        MatchingCount(views, kind, c, wanted);
        if c < |children| {
          ChildView(c);
        }
      }
    }

    method UntypedTasks() returns (tasks: seq<Task>)
      requires Valid()
      ensures tasks == Untyped(View().children) && forall t <- tasks :: t.child < |children|
    {
      hide Valid, View;
      Shape();
      ViewParts();
      ghost var views := View().children;
      tasks := [];
      for i := 0 to |children|
        invariant tasks == Untyped(views[..i]) && forall t <- tasks :: t.child < |children|
      {
        assert views[..i + 1][..i] == views[..i];
        ChildView(i);
        if children[i].types == [] {
          tasks := tasks + [Task(i, [])];
        }
      }
      assert views[..|children|] == views;
    }

    method AllTasks() returns (tasks: seq<Task>)
      requires Valid()
      ensures tasks == Everyone(View().children) && forall t <- tasks :: t.child < |children|
    {
      hide Valid, View;
      ViewParts();
      ghost var views := View().children;
      tasks := [];
      for i := 0 to |children|
        invariant tasks == Everyone(views[..i]) && forall t <- tasks :: t.child < |children|
      {
        assert views[..i + 1][..i] == views[..i];
        tasks := tasks + [Task(i, [])];
      }
      assert views[..|children|] == views;
    }

    /** Gives tasks to the thread pool and waits for all of them. */
    method SubmitAll(path: Path, tasks: seq<Task>, rule: Option<seq<string>>) returns (plan: Plan)
      requires Valid() && forall t <- tasks :: t.child < |children|
      ensures plan == InParallel(View(), path, tasks, rule)
      decreases Repr, 0
    {
      hide Valid, View, ActionPlan;
      Shape();
      ViewParts();
      ghost var tree := View();
      plan := Done;
      for i := 0 to |tasks|
        invariant plan == InParallel(tree, path, tasks[..i], rule)
      {
        assert tasks[..i + 1][..i] == tasks[..i];
        var t := tasks[i];
        var one := children[t.child].ExecuteAction(path + [t.child], t.types, rule);
        plan := Both(plan, one);
      }
      assert tasks[..|tasks|] == tasks;
    }

    /** What executing an action does, for an action with the given order rule. */
    method ExecuteAction(path: Path, given: Types, rule: Option<seq<string>>) returns (plan: Plan)
      requires Valid()
      ensures plan == ActionPlan(View(), path, given, rule)
      decreases Repr, 1
    {
      hide Valid, View, InParallel, Matching, Untyped, Everyone;
      ViewParts();
      ghost var tree := View();
      if !included {
        return Done;
      }
      if children == [] {
        return Call(Request(path, given));
      }
      plan := Done;
      match rule
      case None =>
        var all := AllTasks();
        var last := SubmitAll(path, all, rule);
        StagesNext(tree, path, [], all, rule);
        plan := Then(plan, last);
      case Some(kinds) =>
        for k := 0 to |kinds|
          invariant plan == InSequence(tree, path, TypeStages(tree.children, kinds[..k]), rule)
        {
          assert kinds[..k + 1][..k] == kinds[..k];
          var tasks := MatchingTasks(kinds[k]);
          var group := SubmitAll(path, tasks, rule);
          StagesNext(tree, path, TypeStages(tree.children, kinds[..k]), tasks, rule);
          plan := Then(plan, group);
        }
        assert kinds[..|kinds|] == kinds;
        var untyped := UntypedTasks();
        var last := SubmitAll(path, untyped, rule);
        StagesNext(tree, path, TypeStages(tree.children, kinds), untyped, rule);
        plan := Then(plan, last);
    }

    /** Whether the state of the leaf allows an action; a state that the rules do not know raises an exception. */
    method TryAction(action: string, rules: Rules) returns (allowed: Option<bool>)
      ensures allowed == if Known(state, rules) then Some(Allows(state, action, rules)) else None
      ensures var names := if state.One? then [state.name] else state.names;
              && (allowed.None? <==> exists s <- names :: s !in rules.allowed)
              && (allowed.Some? ==> (allowed.value <==> exists s <- names :: action in rules.allowed[s]))
    {
      match state
      case One(s) =>
        if s !in rules.allowed {
          return None;
        }
        return Some(action in rules.allowed[s]);
      case Many(names) =>
        var actions := [];
        for i := 0 to |names|
          invariant forall j :: 0 <= j < i ==> names[j] in rules.allowed
          invariant action in actions <==>
                    exists j :: 0 <= j < i && names[j] in rules.allowed && action in rules.allowed[names[j]]
        {
          if names[i] !in rules.allowed {
            return None;
          }
          actions := rules.allowed[names[i]] + actions;
        }
        return Some(action in actions);
    }

    // --- the checker ---

    /** The states of the included children. */
    method GatherStates() returns (states: seq<string>)
      requires Valid()
      ensures states == Gathered(View().children)
    {
      hide Valid, View;
      Shape();
      ViewParts();
      ghost var views := View().children;
      states := [];
      for i := 0 to |children|
        invariant states == Gathered(views[..i])
      {
        assert views[..i + 1][..i] == views[..i];
        if children[i].included {
          ChildView(i);
          match children[i].state
          case One(s) => states := states + [s];
          case Many(ss) => states := states + ss;
        }
        ChildView(i);
      }
      assert views[..|children|] == views;
    }

    lemma ChildView(i: nat)
      requires Valid() && i < |children|
      ensures children[i].Valid()
      ensures var c := View().children;
              && i < |c|
              && c[i] == Tree(children[i].types, children[i].included, children[i].state, children[i].inconsistent,
                              c[i].children)
    {
    }

    /** The states of all children, unless one of them is a list. */
    method AllStates() returns (states: Option<seq<string>>)
      requires Valid()
      ensures states == Singles(View().children)
    {
      hide Valid, View;
      Shape();
      ViewParts();
      ghost var views := View().children;
      var all := [];
      for i := 0 to |children|
        invariant |all| == i
        invariant forall j :: 0 <= j < i ==> views[j].state.One? && all[j] == views[j].state.name
      {
        ChildView(i);
        match children[i].state
        case One(s) => all := all + [s];
        case Many(_) =>
          assert !views[i].state.One? && views[i] in views;
          return None;
      }
      SinglesOf(views, all);
      return Some(all);
    }

    /** One round of the checker of a controller. */
    method CheckRound(order: seq<string>)
      requires Valid() && children != []
      modifies Repr
      ensures View() == Checked(old(View()), order)
    {
      hide Valid, View, Marked, Gathered, Singles, Lowest, AllSame;
      Shape();
      ViewParts();
      ghost var before := View();
      var states := GatherStates();
      var items := Some(states);
      if states == [] {
        items := AllStates();
        Exclude();
      } else if !included {
        included := true;
        ViewIs(before.(included := true));
      }
      ViewParts();
      assert View() == Reincluded(before) && items == Items(before.children);
      if items.None? || items.value == [] || exists s <- items.value :: s !in order {
        return;
      }
      var newState, different := Summary(order, items.value);
      state, inconsistent := One(newState), different;
      ViewIs(Reincluded(before).(state := One(newState), inconsistent := different));
    }

    /** One round of every controller from here on down, those below first. */
    method CheckAll(order: seq<string>)
      requires Valid()
      modifies Repr
      ensures View() == Pass(old(View()), order)
      decreases Repr
    {
      hide Valid, View, Pass, Checked;
      Shape();
      ViewParts();
      ghost var before := View();
      for i := 0 to |children|
        invariant included == before.included && state == before.state && inconsistent == before.inconsistent
        invariant forall j :: 0 <= j < i ==> children[j].View() == Pass(before.children[j], order)
        invariant forall j :: i <= j < |children| ==> children[j].View() == before.children[j]
      {
        children[i].CheckAll(order);
      }
      PassParts(before, order);
      ViewIs(Passed(before, order));
      if children != [] {
        CheckRound(order);
      }
    }
  }

  lemma SinglesOf(children: seq<Tree>, all: seq<string>)
    requires |all| == |children|
    requires forall i :: 0 <= i < |children| ==> children[i].state.One? && all[i] == children[i].state.name
    ensures Singles(children) == Some(all)
  {
    assert forall c <- children :: c.state.One?;
    assert Singles(children).value == all;
  }

  /** The new state of a controller and whether it is inconsistent, from the states that count. */
  method Summary(order: seq<string>, items: seq<string>) returns (state: string, inconsistent: bool)
    requires items != [] && forall s <- items :: s in order
    ensures state == Lowest(order, items) && inconsistent == !AllSame(items)
  {
    hide Rank, Lowest, AllSame;
    var highest, lowest := Extremes(order, items);
    var highestCount, lowestCount := CountExtremes(items, highest, lowest);
    AllSameMeans(items, highest);
    if highestCount == |items| {
      state, inconsistent := highest, false;
    } else if lowestCount == |items| {
      state, inconsistent := lowest, false;
    } else {
      state, inconsistent := lowest, true;
    }
  }

  method Extremes(order: seq<string>, items: seq<string>) returns (highest: string, lowest: string)
    requires items != [] && forall s <- items :: s in order
    ensures highest in items && (forall s <- items :: Rank(order, s) <= Rank(order, highest))
    ensures lowest == Lowest(order, items)
  {
    hide Rank, Lowest;
    highest, lowest := items[0], items[0];
    LowestFirst(order, items);
    for i := 1 to |items|
      invariant highest in items && lowest in items
      invariant forall j :: 0 <= j < i ==> Rank(order, items[j]) <= Rank(order, highest)
      invariant lowest == Lowest(order, items[..i])
    {
      LowestNext(order, items, i);
      if Rank(order, items[i]) > Rank(order, highest) {
        highest := items[i];
      }
      if Rank(order, items[i]) < Rank(order, lowest) {
        lowest := items[i];
      }
    }
    assert items[..|items|] == items;
  }

  lemma LowestFirst(order: seq<string>, items: seq<string>)
    requires items != [] && items[0] in order
    ensures Lowest(order, items[..1]) == items[0]
  {
  }

  lemma LowestNext(order: seq<string>, items: seq<string>, i: nat)
    requires 0 < i < |items| && forall s <- items :: s in order
    ensures var best := Lowest(order, items[..i]);
            Lowest(order, items[..i + 1]) == if Rank(order, items[i]) < Rank(order, best) then items[i] else best
  {
    hide Rank;
    assert items[..i + 1][..i] == items[..i];
  }

  method CountExtremes(items: seq<string>, highest: string, lowest: string)
    returns (highestCount: nat, lowestCount: nat)
    ensures highestCount == |items| <==> (forall i :: 0 <= i < |items| ==> items[i] == highest)
    ensures lowestCount == |items| <==> (forall i :: 0 <= i < |items| ==> items[i] == lowest && items[i] != highest)
  {
    highestCount, lowestCount := 0, 0;
    for i := 0 to |items|
      invariant highestCount <= i && lowestCount <= i
      invariant highestCount == i <==> (forall j :: 0 <= j < i ==> items[j] == highest)
      invariant lowestCount == i <==> (forall j :: 0 <= j < i ==> items[j] == lowest && items[j] != highest)
    {
      if items[i] == highest {
        highestCount := highestCount + 1;
      } else if items[i] == lowest {
        lowestCount := lowestCount + 1;
      }
    }
  }

  lemma AllSameMeans(items: seq<string>, s: string)
    requires s in items
    ensures AllSame(items) <==> forall i :: 0 <= i < |items| ==> items[i] == s
  {
    if AllSame(items) {
      assert forall a <- items :: a == s;
      assert forall i :: 0 <= i < |items| ==> items[i] in items;
    }
  }

  lemma PassParts(tree: Tree, order: seq<string>)
    ensures var p := Passed(tree, order);
            && p == tree.(children := p.children) && |p.children| == |tree.children|
            && (forall i :: 0 <= i < |p.children| ==> p.children[i] == Pass(tree.children[i], order))
            && Pass(tree, order) == if Leaf(tree) then p else Checked(p, order)
  {
    if Leaf(tree) {
      assert Passed(tree, order).children == tree.children;
    }
  }

  method EntryTasks(child: nat, entries: seq<ModuleType>, kind: string) returns (tasks: seq<Task>)
    ensures tasks == TasksFor(child, EntriesOf(entries, kind)) && forall t <- tasks :: t.child == child
  {
    hide EntriesOf, TasksFor;
    tasks := [];
    NoTasks(child, entries, kind);
    for i := 0 to |entries|
      invariant tasks == TasksFor(child, EntriesOf(entries[..i], kind)) && forall t <- tasks :: t.child == child
    {
      EntriesNext(entries, i, kind);
      if entries[i].kind == kind {
        TasksForNext(child, EntriesOf(entries[..i], kind), Qualified(entries[i].qualifier));
        tasks := tasks + [Task(child, Qualified(entries[i].qualifier))];
      }
    }
    assert entries[..|entries|] == entries;
  }

  lemma NoTasks(child: nat, entries: seq<ModuleType>, kind: string)
    ensures TasksFor(child, EntriesOf(entries[..0], kind)) == []
  {
  }

  lemma EntriesNext(entries: seq<ModuleType>, i: nat, kind: string)
    requires i < |entries|
    ensures var before, after := EntriesOf(entries[..i], kind), EntriesOf(entries[..i + 1], kind);
            after == if entries[i].kind == kind then before + [Qualified(entries[i].qualifier)] else before
  {
    assert entries[..i + 1][..i] == entries[..i];
  }

  lemma TasksForNext(child: nat, types: seq<Types>, last: Types)
    ensures TasksFor(child, types + [last]) == TasksFor(child, types) + [Task(child, last)]
  {
    assert (types + [last])[..|types|] == types;
  }

  lemma StagesNext(tree: Tree, path: Path, stages: seq<seq<Task>>, last: seq<Task>, rule: Option<seq<string>>)
    ensures InSequence(tree, path, stages + [last], rule)
         == Then(InSequence(tree, path, stages, rule), InParallel(tree, path, last, rule))
    ensures stages == [] ==> stages + [last] == [last]
  {
    assert (stages + [last])[..|stages|] == stages;
  }

  lemma MarkedParts(tree: Tree, value: bool)
    ensures var m := Marked(tree, value);
            && m == tree.(included := value, children := m.children) && |m.children| == |tree.children|
            && forall i :: 0 <= i < |m.children| ==> m.children[i] == Marked(tree.children[i], value)
  {
  }
}
