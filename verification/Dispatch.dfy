/** `NodeTree.executeAction`: how an action spreads over the control tree, and in which order the processes get it. */
module Dispatch {
  import opened Sequences
  import opened Arithmetic
  import opened NodeTree

  type Types = seq<string>

  // The call of executeAction on the leaf at `path`.
  datatype Request = Request(path: Path, types: Types)

  // One submission to the thread pool: a child and the types to pass on.
  datatype Task = Task(child: nat, types: Types)

  // What a call of executeAction does: nothing on an excluded node, a leaf call, tasks given to the thread pool
  // together (`Both`), or waiting for all the results of the first part before beginning the second (`Then`).
  datatype Plan = Done | Call(request: Request) | Both(Plan, Plan) | Then(Plan, Plan)

  // A leaf call looks at the state of the leaf, and the command to the process begins and ends if the state allows it.
  datatype Kind = Look | Begin | End
  datatype Event = Event(kind: Kind, request: Request, state: Status)

  // --- the plan of an action ---

  function Qualified(q: Qualifier): Types {
    match q
    case Unqualified => []
    case Single(name) => [name]
    case Several(names) => names
  }

  /** The types to pass on for the entries of a node that are of a given kind. */
  function EntriesOf(entries: seq<ModuleType>, kind: string): seq<Types> {
    if entries == [] then []
    else
      var last := entries[|entries| - 1];
      EntriesOf(entries[..|entries| - 1], kind) + (if last.kind == kind then [Qualified(last.qualifier)] else [])
  }

  function TasksFor(child: nat, types: seq<Types>): seq<Task> {
    if types == [] then [] else TasksFor(child, types[..|types| - 1]) + [Task(child, types[|types| - 1])]
  }

  /** The submissions for one module type: child by child, one for every entry of that type. */
  function Matching(children: seq<Tree>, kind: string): seq<Task> {
    if children == [] then []
    else
      var n := |children| - 1;
      Matching(children[..n], kind) + TasksFor(n, EntriesOf(children[n].types, kind))
  }

  function Untyped(children: seq<Tree>): seq<Task> {
    if children == [] then []
    else
      var n := |children| - 1;
      Untyped(children[..n]) + (if children[n].types == [] then [Task(n, [])] else [])
  }

  function Everyone(children: seq<Tree>): seq<Task> {
    if children == [] then []
    else
      var n := |children| - 1;
      Everyone(children[..n]) + [Task(n, [])]
  }

  /** The groups of submissions: one for each type of the rule, then the children without types. */
  function TypeStages(children: seq<Tree>, kinds: seq<string>): seq<seq<Task>> {
    if kinds == [] then []
    else TypeStages(children, kinds[..|kinds| - 1]) + [Matching(children, kinds[|kinds| - 1])]
  }

  function Stages(children: seq<Tree>, rule: Option<seq<string>>): seq<seq<Task>> {
    match rule
    case None => [Everyone(children)]
    case Some(kinds) => TypeStages(children, kinds) + [Untyped(children)]
  }

  /** executeAction on the node at `path`; the types passed on count for leaves only. */
  function ActionPlan(tree: Tree, path: Path, types: Types, rule: Option<seq<string>>): Plan
    decreases tree, 2
  {
    if !tree.included then Done
    else if Leaf(tree) then Call(Request(path, types))
    else InSequence(tree, path, Stages(tree.children, rule), rule)
  }

  function InSequence(tree: Tree, path: Path, stages: seq<seq<Task>>, rule: Option<seq<string>>): Plan
    decreases tree, 1, |stages|
  {
    if stages == [] then Done
    else
      var n := |stages| - 1;
      Then(InSequence(tree, path, stages[..n], rule), InParallel(tree, path, stages[n], rule))
  }

  function InParallel(tree: Tree, path: Path, tasks: seq<Task>, rule: Option<seq<string>>): Plan
    decreases tree, 0, |tasks|
  {
    if tasks == [] then Done
    else
      var n := |tasks| - 1;
      Both(InParallel(tree, path, tasks[..n], rule), Submit(tree, path, tasks[n], rule))
  }

  function Submit(tree: Tree, path: Path, task: Task, rule: Option<seq<string>>): Plan
    decreases tree, 0, 0
  {
    if task.child < |tree.children| then ActionPlan(tree.children[task.child], path + [task.child], task.types, rule)
    else Done
  }

  // --- the runs of a plan ---

  predicate Known(state: Status, rules: Rules) {
    match state
    case One(s) => s in rules.allowed
    case Many(ss) => forall s <- ss :: s in rules.allowed
  }

  predicate Allows(state: Status, action: string, rules: Rules) {
    match state
    case One(s) => s in rules.allowed && action in rules.allowed[s]
    case Many(ss) => exists s <- ss :: s in rules.allowed && action in rules.allowed[s]
  }

  /** A leaf call: it raises if it sees a state that the rules do not know; the command itself may raise, too. */
  predicate LeafRuns(r: Request, t: seq<Event>, ok: bool, action: string, rules: Rules) {
    && t != []
    && var s := t[0].state;
       && t[0] == Event(Look, r, s)
       && (if !Known(s, rules) then |t| == 1 && !ok
           else if !Allows(s, action, rules) then |t| == 1 && ok
           else t == [Event(Look, r, s), Event(Begin, r, s), Event(End, r, s)])
  }

  ghost predicate Shuffle(a: seq<Event>, b: seq<Event>, t: seq<Event>) {
    if t == [] then a == [] && b == []
    else
      var n := |t| - 1;
      || (a != [] && a[|a| - 1] == t[n] && Shuffle(a[..|a| - 1], b, t[..n]))
      || (b != [] && b[|b| - 1] == t[n] && Shuffle(a, b[..|b| - 1], t[..n]))
  }

  /** The events may happen in the order `t`; `ok` tells that no exception was raised. An exception lets the tasks
      submitted together finish, but what would have followed is not begun. */
  ghost predicate Runs(plan: Plan, t: seq<Event>, ok: bool, action: string, rules: Rules) {
    match plan
    case Done => t == [] && ok
    case Call(r) => LeafRuns(r, t, ok, action, rules)
    case Both(p, q) =>
      exists a, b, okA, okB :: Runs(p, a, okA, action, rules) && Runs(q, b, okB, action, rules) && Shuffle(a, b, t)
                               && ok == (okA && okB)
    case Then(p, q) =>
      || (Runs(p, t, false, action, rules) && !ok)
      || (exists a, b :: Runs(p, a, true, action, rules) && Runs(q, b, ok, action, rules) && t == a + b)
  }

  /** The runs of an action from the root of a tree. */
  ghost predicate ActionRuns(tree: Tree, t: seq<Event>, ok: bool, action: string, rules: Rules) {
    Runs(ActionPlan(tree, [], [], RuleFor(action, rules)), t, ok, action, rules)
  }

  function RuleFor(action: string, rules: Rules): Option<seq<string>> {
    if action in rules.order then Some(rules.order[action]) else None
  }

  // --- how often each leaf is called ---

  /** The number of leaf calls for a request in a run. */
  function Looks(t: seq<Event>, r: Request): nat {
    if t == [] then 0
    else Looks(t[..|t| - 1], r) + (if t[|t| - 1].kind == Look && t[|t| - 1].request == r then 1 else 0)
  }

  function Calls(plan: Plan, r: Request): nat {
    match plan
    case Done => 0
    case Call(q) => if q == r then 1 else 0
    case Both(p, q) => Calls(p, r) + Calls(q, r)
    case Then(p, q) => Calls(p, r) + Calls(q, r)
  }

  /** No part of the plan waits for a part that could raise. */
  predicate Unstoppable(plan: Plan) {
    match plan
    case Done | Call(_) => true
    case Both(p, q) => Unstoppable(p) && Unstoppable(q)
    case Then(p, q) => p == Done && Unstoppable(q)
  }

  lemma {:induction false} ShuffleLooks(a: seq<Event>, b: seq<Event>, t: seq<Event>, r: Request)
    requires Shuffle(a, b, t)
    ensures Looks(t, r) == Looks(a, r) + Looks(b, r)
  {
    if t != [] {
      var n := |t| - 1;
      if a != [] && a[|a| - 1] == t[n] && Shuffle(a[..|a| - 1], b, t[..n]) {
        ShuffleLooks(a[..|a| - 1], b, t[..n], r);
      } else {
        ShuffleLooks(a, b[..|b| - 1], t[..n], r);
      }
    }
  }

  lemma {:induction false} LooksConcat(a: seq<Event>, b: seq<Event>, r: Request)
    ensures Looks(a + b, r) == Looks(a, r) + Looks(b, r)
  {
    if b == [] {
      assert a + b == a;
    } else {
      assert (a + b)[..|a + b| - 1] == a + b[..|b| - 1];
      LooksConcat(a, b[..|b| - 1], r);
    }
  }

  lemma LeafLooks(q: Request, t: seq<Event>, ok: bool, action: string, rules: Rules, r: Request)
    requires LeafRuns(q, t, ok, action, rules)
    ensures Looks(t, r) == if q == r then 1 else 0
  {
    var s := t[0].state;
    var look, begin, end := Event(Look, q, s), Event(Begin, q, s), Event(End, q, s);
    assert [look][..0] == [];
    assert Looks([look], r) == if q == r then 1 else 0;
    if |t| == 1 {
      assert t == [look];
    } else {
      assert [look, begin][..1] == [look];
      assert t[..2] == [look, begin];
    }
  }

  /** In every run each leaf is called at most as often as the plan says, and exactly as often if nothing raises or
      nothing waits. */
  lemma {:induction false} RunCounts(plan: Plan, t: seq<Event>, ok: bool, action: string, rules: Rules, r: Request)
    requires Runs(plan, t, ok, action, rules)
    ensures Looks(t, r) <= Calls(plan, r)
    ensures ok || Unstoppable(plan) ==> Looks(t, r) == Calls(plan, r)
  {
    match plan
    case Done =>
    case Call(q) =>
      LeafLooks(q, t, ok, action, rules, r);
    case Both(p, q) =>
      var a, b, okA, okB :| Runs(p, a, okA, action, rules) && Runs(q, b, okB, action, rules) && Shuffle(a, b, t)
                            && ok == (okA && okB);
      RunCounts(p, a, okA, action, rules, r);
      RunCounts(q, b, okB, action, rules, r);
      ShuffleLooks(a, b, t, r);
    case Then(p, q) =>
      if Runs(p, t, false, action, rules) && !ok {
        RunCounts(p, t, false, action, rules, r);
      } else {
        var a, b :| Runs(p, a, true, action, rules) && Runs(q, b, ok, action, rules) && t == a + b;
        RunCounts(p, a, true, action, rules, r);
        RunCounts(q, b, ok, action, rules, r);
        LooksConcat(a, b, r);
      }
  }

  // --- the calls in a plan, seen from the leaf ---

  /** How a node is submitted when its parent executes an action: with the types of each entry that matches the rule,
      once if it has no entries, and once if the action has no rule. */
  function Submissions(node: Tree, rule: Option<seq<string>>): seq<Types> {
    match rule
    case None => [[]]
    case Some(kinds) => if node.types == [] then [[]] else EntriesOfKinds(node.types, kinds)
  }

  function EntriesOfKinds(entries: seq<ModuleType>, kinds: seq<string>): seq<Types> {
    if kinds == [] then []
    else EntriesOfKinds(entries, kinds[..|kinds| - 1]) + EntriesOf(entries, kinds[|kinds| - 1])
  }

  /** How often the leaf at `path` below `tree` is called with the types `wanted` when `tree` itself is called once for
      each element of `given`: never below an excluded node; otherwise as often as the numbers of submissions along the
      path multiply to. */
  function Expected(tree: Tree, path: Path, given: seq<Types>, rule: Option<seq<string>>, wanted: Types): nat
    decreases tree
  {
    if !tree.included then 0
    else if Leaf(tree) then (if path == [] then Count(given, wanted) else 0)
    else if path == [] || path[0] >= |tree.children| then 0
    else
      var child := tree.children[path[0]];
      Times(|given|, Expected(child, path[1..], Submissions(child, rule), rule, wanted))
  }

  lemma ExpectedSnoc(tree: Tree, path: Path, given: seq<Types>, d: Types, rule: Option<seq<string>>, wanted: Types)
    ensures Expected(tree, path, given + [d], rule, wanted)
         == Expected(tree, path, given, rule, wanted) + Expected(tree, path, [d], rule, wanted)
    ensures Expected(tree, path, [], rule, wanted) == 0
  {
    CountSnoc(given, d, wanted);
    CountSnoc([], d, wanted);
    assert [] + [d] == [d];
    if tree.included && !Leaf(tree) && path != [] && path[0] < |tree.children| {
      var child := tree.children[path[0]];
      var n := Expected(child, path[1..], Submissions(child, rule), rule, wanted);
      TimesSum(|given|, 1, n);
      assert |given + [d]| == |given| + 1;
    }
  }

  /** The types that the tasks of one child pass on. */
  function TypesOf(tasks: seq<Task>, child: nat): seq<Types> {
    if tasks == [] then []
    else
      var last := tasks[|tasks| - 1];
      TypesOf(tasks[..|tasks| - 1], child) + (if last.child == child then [last.types] else [])
  }

  lemma {:induction false} TypesOfConcat(a: seq<Task>, b: seq<Task>, child: nat)
    ensures TypesOf(a + b, child) == TypesOf(a, child) + TypesOf(b, child)
  {
    if b == [] {
      assert a + b == a;
    } else {
      var n := |b| - 1;
      assert (a + b)[..|a + b| - 1] == a + b[..n];
      TypesOfConcat(a, b[..n], child);
      Assoc(TypesOf(a, child), TypesOf(b[..n], child), if b[n].child == child then [b[n].types] else []);
    }
  }

  lemma {:induction false} TasksForOne(n: nat, types: seq<Types>, child: nat)
    ensures TypesOf(TasksFor(n, types), child) == if n == child then types else []
  {
    if types != [] {
      var front := types[..|types| - 1];
      TasksForOne(n, front, child);
      TypesOfConcat(TasksFor(n, front), [Task(n, types[|types| - 1])], child);
    }
  }

  lemma {:induction false} MatchingOne(children: seq<Tree>, kind: string, child: nat)
    ensures TypesOf(Matching(children, kind), child)
         == if child < |children| then EntriesOf(children[child].types, kind) else []
  {
    if children != [] {
      var n := |children| - 1;
      var types := EntriesOf(children[n].types, kind);
      MatchingOne(children[..n], kind, child);
      TasksForOne(n, types, child);
      TypesOfConcat(Matching(children[..n], kind), TasksFor(n, types), child);
    }
  }

  lemma {:induction false} UntypedOne(children: seq<Tree>, child: nat)
    ensures TypesOf(Untyped(children), child)
         == if child < |children| && children[child].types == [] then [[]] else []
  {
    if children != [] {
      var n := |children| - 1;
      UntypedOne(children[..n], child);
      TypesOfConcat(Untyped(children[..n]), if children[n].types == [] then [Task(n, [])] else [], child);
    }
  }

  lemma {:induction false} EveryoneOne(children: seq<Tree>, child: nat)
    ensures TypesOf(Everyone(children), child) == if child < |children| then [[]] else []
  {
    if children != [] {
      var n := |children| - 1;
      EveryoneOne(children[..n], child);
      TypesOfConcat(Everyone(children[..n]), [Task(n, [])], child);
    }
  }

  lemma {:induction false} TypeStagesOne(children: seq<Tree>, kinds: seq<string>, child: nat)
    ensures TypesOf(Flat(TypeStages(children, kinds)), child)
         == if child < |children| then EntriesOfKinds(children[child].types, kinds) else []
  {
    if kinds != [] {
      var front, kind := kinds[..|kinds| - 1], kinds[|kinds| - 1];
      TypeStagesOne(children, front, child);
      MatchingOne(children, kind, child);
      FlatSnoc(TypeStages(children, front), Matching(children, kind));
      TypesOfConcat(Flat(TypeStages(children, front)), Matching(children, kind), child);
    }
  }

  lemma {:induction false} EntriesOfNothing(kinds: seq<string>)
    ensures EntriesOfKinds([], kinds) == []
  {
    if kinds != [] {
      EntriesOfNothing(kinds[..|kinds| - 1]);
    }
  }

  /** The groups of a controller hold, for each child, exactly its submissions. */
  lemma StagesOne(children: seq<Tree>, rule: Option<seq<string>>, child: nat)
    ensures TypesOf(Flat(Stages(children, rule)), child)
         == if child < |children| then Submissions(children[child], rule) else []
  {
    match rule
    case None =>
      FlatSingle(Everyone(children));
      EveryoneOne(children, child);
    case Some(kinds) =>
      TypeStagesOne(children, kinds, child);
      UntypedOne(children, child);
      FlatSnoc(TypeStages(children, kinds), Untyped(children));
      TypesOfConcat(Flat(TypeStages(children, kinds)), Untyped(children), child);
      EntriesOfNothing(kinds);
  }

  // --- the plan has exactly the expected calls ---

  lemma {:induction false} SequenceCalls(tree: Tree, path: Path, stages: seq<seq<Task>>, rule: Option<seq<string>>,
                                         r: Request)
    ensures Calls(InSequence(tree, path, stages, rule), r) == Calls(InParallel(tree, path, Flat(stages), rule), r)
  {
    if stages != [] {
      var n := |stages| - 1;
      SequenceCalls(tree, path, stages[..n], rule, r);
      ParallelConcat(tree, path, Flat(stages[..n]), stages[n], rule, r);
    }
  }

  lemma {:induction false} ParallelConcat(tree: Tree, path: Path, a: seq<Task>, b: seq<Task>,
                                          rule: Option<seq<string>>, r: Request)
    ensures Calls(InParallel(tree, path, a + b, rule), r)
         == Calls(InParallel(tree, path, a, rule), r) + Calls(InParallel(tree, path, b, rule), r)
  {
    hide Submit;
    if b == [] {
      assert a + b == a;
    } else {
      assert (a + b)[..|a + b| - 1] == a + b[..|b| - 1];
      ParallelConcat(tree, path, a, b[..|b| - 1], rule, r);
    }
  }

  /** Calls below another path are not in the plan of a node. */
  lemma {:induction false} CallsBelow(tree: Tree, path: Path, types: Types, rule: Option<seq<string>>, r: Request)
    requires !(path <= r.path)
    ensures Calls(ActionPlan(tree, path, types, rule), r) == 0
    decreases tree, 2
  {
    if tree.included && !Leaf(tree) {
      var tasks := Flat(Stages(tree.children, rule));
      SequenceCalls(tree, path, Stages(tree.children, rule), rule, r);
      CallsBelowTasks(tree, path, tasks, rule, r);
    }
  }

  lemma {:induction false} CallsBelowTasks(tree: Tree, path: Path, tasks: seq<Task>, rule: Option<seq<string>>,
                                           r: Request)
    requires !(path <= r.path)
    ensures Calls(InParallel(tree, path, tasks, rule), r) == 0
    decreases tree, 1, |tasks|
  {
    if tasks != [] {
      var n := |tasks| - 1;
      CallsBelowTasks(tree, path, tasks[..n], rule, r);
      if tasks[n].child < |tree.children| {
        assert path <= path + [tasks[n].child];
        CallsBelow(tree.children[tasks[n].child], path + [tasks[n].child], tasks[n].types, rule, r);
      }
    }
  }

  /** The plan of an action calls each leaf exactly as often as expected. */
  lemma {:induction false} PlanCalls(tree: Tree, path: Path, types: Types, rule: Option<seq<string>>, rest: Path,
                                     wanted: Types)
    ensures Calls(ActionPlan(tree, path, types, rule), Request(path + rest, wanted))
         == Expected(tree, rest, [types], rule, wanted)
    decreases tree, 2
  {
    var r := Request(path + rest, wanted);
    if !tree.included {
    } else if Leaf(tree) {
      CountSnoc([], types, wanted);
      assert [] + [types] == [types];
      assert rest != [] ==> |path + rest| > |path|;
      assert path + [] == path;
    } else {
      var stages := Stages(tree.children, rule);
      SequenceCalls(tree, path, stages, rule, r);
      ParallelCalls(tree, path, Flat(stages), rule, rest, wanted);
      if rest != [] {
        StagesOne(tree.children, rule, rest[0]);
        if rest[0] < |tree.children| {
          ExpectedOnce(tree, rest, types, rule, wanted);
        }
      }
    }
  }

  lemma ExpectedOnce(tree: Tree, rest: Path, types: Types, rule: Option<seq<string>>, wanted: Types)
    requires tree.included && !Leaf(tree) && rest != [] && rest[0] < |tree.children|
    ensures var child := tree.children[rest[0]];
            Expected(tree, rest, [types], rule, wanted)
            == Expected(child, rest[1..], Submissions(child, rule), rule, wanted)
  {
    var child := tree.children[rest[0]];
    var n := Expected(child, rest[1..], Submissions(child, rule), rule, wanted);
    assert Times(1, n) == Times(0, n) + n;
  }

  /** The tasks given to the thread pool call a leaf as often as those for its ancestor do. */
  lemma {:induction false} ParallelCalls(tree: Tree, path: Path, tasks: seq<Task>, rule: Option<seq<string>>,
                                         rest: Path, wanted: Types)
    ensures Calls(InParallel(tree, path, tasks, rule), Request(path + rest, wanted))
         == (if rest != [] && rest[0] < |tree.children|
             then Expected(tree.children[rest[0]], rest[1..], TypesOf(tasks, rest[0]), rule, wanted) else 0)
    decreases tree, 1, |tasks|
  {
    var r := Request(path + rest, wanted);
    if tasks == [] {
      if rest != [] && rest[0] < |tree.children| {
        ExpectedSnoc(tree.children[rest[0]], rest[1..], [], [], rule, wanted);
      }
    } else {
      var n := |tasks| - 1;
      ParallelCalls(tree, path, tasks[..n], rule, rest, wanted);
      SubmitCalls(tree, path, tasks[n], rule, rest, wanted);
      if rest != [] && rest[0] < |tree.children| {
        var before := TypesOf(tasks[..n], rest[0]);
        ExpectedSnoc(tree.children[rest[0]], rest[1..], before, tasks[n].types, rule, wanted);
        assert TypesOf(tasks, rest[0]) == if tasks[n].child == rest[0] then before + [tasks[n].types] else before;
      }
    }
  }

  lemma {:induction false} SubmitCalls(tree: Tree, path: Path, task: Task, rule: Option<seq<string>>, rest: Path,
                                       wanted: Types)
    ensures Calls(Submit(tree, path, task, rule), Request(path + rest, wanted))
         == (if rest != [] && rest[0] < |tree.children| && task.child == rest[0]
             then Expected(tree.children[rest[0]], rest[1..], [task.types], rule, wanted) else 0)
    decreases tree, 0, 0
  {
    var r := Request(path + rest, wanted);
    if task.child < |tree.children| {
      var below := path + [task.child];
      if rest != [] && task.child == rest[0] {
        assert path + rest == below + rest[1..];
        PlanCalls(tree.children[task.child], below, task.types, rule, rest[1..], wanted);
      } else {
        NotBelow(path, task.child, rest);
        CallsBelow(tree.children[task.child], below, task.types, rule, r);
      }
    }
  }

  lemma NotBelow(path: Path, child: nat, rest: Path)
    requires rest == [] || rest[0] != child
    ensures !(path + [child] <= path + rest)
  {
    if rest != [] {
      assert (path + rest)[|path|] == rest[0] && (path + [child])[|path|] == child;
    }
  }

  /** Over every run of an action: each leaf is called at most as often as expected, and exactly as often when nothing
      raises or when the action has no rule. */
  lemma CallsAreExpected(tree: Tree, t: seq<Event>, ok: bool, action: string, rules: Rules, path: Path, types: Types)
    requires ActionRuns(tree, t, ok, action, rules)
    ensures var rule, n := RuleFor(action, rules), Looks(t, Request(path, types));
            && n <= Expected(tree, path, [[]], rule, types)
            && (ok || rule.None? ==> n == Expected(tree, path, [[]], rule, types))
  {
    var rule := RuleFor(action, rules);
    RunCounts(ActionPlan(tree, [], [], rule), t, ok, action, rules, Request(path, types));
    PlanCalls(tree, [], [], rule, path, types);
    assert [] + path == path;
    if rule.None? {
      UnorderedUnstoppable(tree, [], []);
    }
  }

  lemma {:induction false} UnorderedUnstoppable(tree: Tree, path: Path, types: Types)
    ensures Unstoppable(ActionPlan(tree, path, types, None))
    decreases tree, 2
  {
    if tree.included && !Leaf(tree) {
      var all := Everyone(tree.children);
      UnorderedTasks(tree, path, all);
      assert [all][..0] == [];
      assert InSequence(tree, path, [all], None) == Then(Done, InParallel(tree, path, all, None));
    }
  }

  lemma {:induction false} UnorderedTasks(tree: Tree, path: Path, tasks: seq<Task>)
    ensures Unstoppable(InParallel(tree, path, tasks, None))
    decreases tree, 1, |tasks|
  {
    if tasks != [] {
      var n := |tasks| - 1;
      UnorderedTasks(tree, path, tasks[..n]);
      if tasks[n].child < |tree.children| {
        UnorderedUnstoppable(tree.children[tasks[n].child], path + [tasks[n].child], tasks[n].types);
      }
    }
  }

  lemma {:induction false} UnorderedExpected(tree: Tree, path: Path, types: Types)
    ensures Expected(tree, path, [[]], None, types) == if Reachable(tree, path) && types == [] then 1 else 0
    decreases tree
  {
    if tree.included && !Leaf(tree) && path != [] && path[0] < |tree.children| {
      var child := tree.children[path[0]];
      UnorderedExpected(child, path[1..], types);
      ExpectedOnce(tree, path, [], None, types);
    } else {
      var none: Types := [];
      CountSnoc([], none, types);
      assert [] + [none] == [none];
    }
  }

  /** An action without a rule calls each reachable included leaf exactly once in every run, also when commands raise
      exceptions, and nothing else. */
  lemma UnorderedOnce(tree: Tree, t: seq<Event>, ok: bool, action: string, rules: Rules, path: Path, types: Types)
    requires ActionRuns(tree, t, ok, action, rules) && action !in rules.order
    ensures Looks(t, Request(path, types)) == if Reachable(tree, path) && types == [] then 1 else 0
  {
    CallsAreExpected(tree, t, ok, action, rules, path, types);
    UnorderedExpected(tree, path, types);
  }

  /** Every node on the way is included and submitted by its parent, the leaf with the types `wanted`. */
  predicate Addressed(tree: Tree, path: Path, given: seq<Types>, rule: Option<seq<string>>, wanted: Types)
    decreases tree
  {
    tree.included &&
    if Leaf(tree) then path == [] && wanted in given
    else
      && given != [] && path != [] && path[0] < |tree.children|
      && var child := tree.children[path[0]]; Addressed(child, path[1..], Submissions(child, rule), rule, wanted)
  }

  lemma {:induction false} ExpectedIffAddressed(tree: Tree, path: Path, given: seq<Types>, rule: Option<seq<string>>,
                                                wanted: Types)
    ensures Expected(tree, path, given, rule, wanted) > 0 <==> Addressed(tree, path, given, rule, wanted)
    decreases tree
  {
    if tree.included && !Leaf(tree) && path != [] && path[0] < |tree.children| {
      var child := tree.children[path[0]];
      ExpectedIffAddressed(child, path[1..], Submissions(child, rule), rule, wanted);
      TimesPositive(|given|, Expected(child, path[1..], Submissions(child, rule), rule, wanted));
    } else {
      CountPositive(given, wanted);
    }
  }

  // --- the types that a leaf is called with ---

  /** An entry of a node passes on the types by which it is qualified. */
  predicate Passes(q: Qualifier, types: Types) {
    match q
    case Unqualified => types == []
    case Single(name) => |types| == 1 && types[0] == name
    case Several(names) => types == names
  }

  lemma PassesIff(q: Qualifier, types: Types)
    ensures Passes(q, types) <==> types == Qualified(q)
  {
    if Passes(q, types) && q.Single? {
      assert types == [q.name];
    }
  }

  /** The entries of one kind that pass on `wanted`. */
  function Matches(entries: seq<ModuleType>, kind: string, wanted: Types): set<nat> {
    set x: nat | x < |entries| && entries[x].kind == kind && Passes(entries[x].qualifier, wanted)
  }

  lemma {:induction false} EntriesCount(entries: seq<ModuleType>, kind: string, wanted: Types)
    ensures Count(EntriesOf(entries, kind), wanted) == |Matches(entries, kind, wanted)|
  {
    if entries == [] {
      assert Matches(entries, kind, wanted) == {};
    } else {
      var n := |entries| - 1;
      var front, last := entries[..n], entries[n];
      EntriesCount(front, kind, wanted);
      var more := if last.kind == kind && Passes(last.qualifier, wanted) then {n} else {};
      assert Matches(entries, kind, wanted) == Matches(front, kind, wanted) + more;
      PassesIff(last.qualifier, wanted);
      if last.kind == kind {
        CountSnoc(EntriesOf(front, kind), Qualified(last.qualifier), wanted);
      } else {
        assert EntriesOf(front, kind) + [] == EntriesOf(front, kind);
      }
    }
  }

  /** How often a rule with the types `kinds` matches an entry that passes on `wanted`. */
  function MatchCount(entries: seq<ModuleType>, kinds: seq<string>, wanted: Types): nat {
    if kinds == [] then 0
    else MatchCount(entries, kinds[..|kinds| - 1], wanted) + |Matches(entries, kinds[|kinds| - 1], wanted)|
  }

  lemma {:induction false} KindsCount(entries: seq<ModuleType>, kinds: seq<string>, wanted: Types)
    ensures Count(EntriesOfKinds(entries, kinds), wanted) == MatchCount(entries, kinds, wanted)
  {
    hide Matches;
    if kinds != [] {
      var front, kind := kinds[..|kinds| - 1], kinds[|kinds| - 1];
      KindsCount(entries, front, wanted);
      EntriesCount(entries, kind, wanted);
      CountConcat(EntriesOfKinds(entries, front), EntriesOf(entries, kind), wanted);
    }
  }

  /** How often a leaf is called with the types `wanted` when its parent executes an action. */
  function CallsWith(leaf: Tree, rule: Option<seq<string>>, wanted: Types): nat {
    if rule.None? || leaf.types == [] then (if wanted == [] then 1 else 0)
    else MatchCount(leaf.types, rule.value, wanted)
  }

  lemma SubmissionsCount(node: Tree, rule: Option<seq<string>>, wanted: Types)
    ensures Count(Submissions(node, rule), wanted) == CallsWith(node, rule, wanted)
  {
    if rule.None? || node.types == [] {
      var none: Types := [];
      CountSnoc([], none, wanted);
      assert [] + [none] == [none];
    } else {
      KindsCount(node.types, rule.value, wanted);
    }
  }

  lemma {:induction false} ExpectedOfLeaf(tree: Tree, at: Path, i: nat, given: seq<Types>, rule: Option<seq<string>>,
                                          wanted: Types)
    requires Exists(tree, at) && i < |NodeAt(tree, at).children|
    requires var leaf := NodeAt(tree, at).children[i]; Leaf(leaf) && leaf.included
    ensures Expected(tree, at + [i], given, rule, wanted)
         == Times(|given|, Times(Visits(tree, at, rule), CallsWith(NodeAt(tree, at).children[i], rule, wanted)))
    decreases |at|
  {
    hide CallsWith, Submissions;
    var calls := CallsWith(NodeAt(tree, at).children[i], rule, wanted);
    if !tree.included {
      TimesZero(|given|);
    } else if at == [] {
      SubmissionsCount(tree.children[i], rule, wanted);
      assert Times(1, calls) == Times(0, calls) + calls;
      assert ([] + [i])[1..] == [];
    } else {
      var child := tree.children[at[0]];
      assert (at + [i])[1..] == at[1..] + [i];
      ExpectedOfLeaf(child, at[1..], i, Submissions(child, rule), rule, wanted);
      TimesAssoc(|Submissions(child, rule)|, Visits(child, at[1..], rule), calls);
    }
  }

  /** In every run without exceptions a leaf is called, for each time that its controller is, with the types of each of
      its entries that matches the rule, with no types if it has no entries or the action has no rule, and in no other
      way. */
  lemma LeafCalls(tree: Tree, t: seq<Event>, ok: bool, action: string, rules: Rules, at: Path, i: nat, wanted: Types)
    requires ActionRuns(tree, t, ok, action, rules) && (ok || action !in rules.order)
    requires Exists(tree, at) && i < |NodeAt(tree, at).children|
    requires var leaf := NodeAt(tree, at).children[i]; Leaf(leaf) && leaf.included
    ensures var rule := if action in rules.order then Some(rules.order[action]) else None;
            Looks(t, Request(at + [i], wanted))
            == Times(Visits(tree, at, rule), CallsWith(NodeAt(tree, at).children[i], rule, wanted))
  {
    hide Expected, Visits, CallsWith;
    var rule := RuleFor(action, rules);
    CallsAreExpected(tree, t, ok, action, rules, at + [i], wanted);
    ExpectedOfLeaf(tree, at, i, [[]], rule, wanted);
    var n := Times(Visits(tree, at, rule), CallsWith(NodeAt(tree, at).children[i], rule, wanted));
    assert Times(1, n) == Times(0, n) + n;
  }

  /** A single match: the leaf is called once, with the types of the matching entry. */
  lemma SingleMatch(tree: Tree, t: seq<Event>, action: string, rules: Rules, i: nat, k: nat, x: nat)
    requires tree.included && i < |tree.children| && ActionRuns(tree, t, true, action, rules) && action in rules.order
    requires var leaf, kinds := tree.children[i], rules.order[action];
             && Leaf(leaf) && leaf.included && k < |kinds| && x < |leaf.types|
             && forall l, y :: 0 <= l < |kinds| && 0 <= y < |leaf.types| ==>
                  (leaf.types[y].kind == kinds[l] <==> l == k && y == x)
    ensures forall wanted :: Looks(t, Request([i], wanted)) <= 1
    ensures var q := tree.children[i].types[x].qualifier;
            && (q.Unqualified? ==> Looks(t, Request([i], [])) == 1)
            && (q.Single? ==> Looks(t, Request([i], [q.name])) == 1)
            && (q.Several? ==> Looks(t, Request([i], q.names)) == 1)
  {
    var leaf, kinds := tree.children[i], rules.order[action];
    forall wanted
      ensures Looks(t, Request([i], wanted)) == if Passes(leaf.types[x].qualifier, wanted) then 1 else 0
    {
      LeafCalls(tree, t, true, action, rules, [], i, wanted);
      assert [] + [i] == [i];
      var n := MatchCount(leaf.types, kinds, wanted);
      assert Times(1, n) == Times(0, n) + n;
      MatchedOnce(leaf.types, kinds, k, x, wanted);
    }
  }

  lemma {:induction false} MatchedOnce(entries: seq<ModuleType>, kinds: seq<string>, k: nat, x: nat, wanted: Types)
    requires x < |entries|
    requires forall l, y :: 0 <= l < |kinds| && 0 <= y < |entries| ==>
               (entries[y].kind == kinds[l] <==> l == k && y == x)
    ensures MatchCount(entries, kinds, wanted)
         == if k < |kinds| && Passes(entries[x].qualifier, wanted) then 1 else 0
  {
    if kinds != [] {
      var n := |kinds| - 1;
      MatchedOnce(entries, kinds[..n], k, x, wanted);
      assert Matches(entries, kinds[n], wanted) == if n == k && Passes(entries[x].qualifier, wanted) then {x} else {};
    }
  }

  /** The submissions for one type of a rule, counted for each child and for the types passed on. */
  lemma {:induction false} MatchingCount(children: seq<Tree>, kind: string, child: nat, wanted: Types)
    ensures Count(Matching(children, kind), Task(child, wanted))
         == if child < |children| then |Matches(children[child].types, kind, wanted)| else 0
  {
    hide Matches;
    if children != [] {
      var n := |children| - 1;
      var types := EntriesOf(children[n].types, kind);
      MatchingCount(children[..n], kind, child, wanted);
      TasksForCount(n, types, child, wanted);
      EntriesCount(children[n].types, kind, wanted);
      CountConcat(Matching(children[..n], kind), TasksFor(n, types), Task(child, wanted));
    }
  }

  lemma {:induction false} TasksForCount(n: nat, types: seq<Types>, child: nat, wanted: Types)
    ensures Count(TasksFor(n, types), Task(child, wanted)) == if n == child then Count(types, wanted) else 0
  {
    if types != [] {
      var front, last := types[..|types| - 1], types[|types| - 1];
      TasksForCount(n, front, child, wanted);
      CountSnoc(TasksFor(n, front), Task(n, last), Task(child, wanted));
    }
  }

  // --- exceptions ---

  /** A run in which some leaf is in a state that the rules do not know raises an exception. */
  lemma {:induction false} UnknownStateRaises(plan: Plan, t: seq<Event>, ok: bool, action: string, rules: Rules, x: nat)
    requires Runs(plan, t, ok, action, rules) && x < |t| && !Known(t[x].state, rules)
    ensures !ok
  {
    if ok {
      OnlyKnown(plan, t, action, rules);
    }
  }

  lemma {:induction false} OnlyKnown(plan: Plan, t: seq<Event>, action: string, rules: Rules)
    requires Runs(plan, t, true, action, rules)
    ensures forall e <- t :: Known(e.state, rules)
  {
    match plan
    case Done =>
    case Call(r) =>
    case Both(p, q) =>
      var a, b, okA, okB :| Runs(p, a, okA, action, rules) && Runs(q, b, okB, action, rules) && Shuffle(a, b, t)
                            && true == (okA && okB);
      OnlyKnown(p, a, action, rules);
      OnlyKnown(q, b, action, rules);
      ShuffleMembers(a, b, t);
    case Then(p, q) =>
      var a, b :| Runs(p, a, true, action, rules) && Runs(q, b, true, action, rules) && t == a + b;
      OnlyKnown(p, a, action, rules);
      OnlyKnown(q, b, action, rules);
  }

  lemma {:induction false} ShuffleMembers(a: seq<Event>, b: seq<Event>, t: seq<Event>)
    requires Shuffle(a, b, t)
    ensures forall e <- t :: e in a || e in b
  {
    if t != [] {
      var n := |t| - 1;
      if a != [] && a[|a| - 1] == t[n] && Shuffle(a[..|a| - 1], b, t[..n]) {
        ShuffleMembers(a[..|a| - 1], b, t[..n]);
      } else {
        ShuffleMembers(a, b[..|b| - 1], t[..n]);
      }
      assert t == t[..n] + [t[n]];
    }
  }

  /** An exception has a cause: a state that the rules do not know, or a command, which may raise one itself. */
  lemma {:induction false} ExceptionHasCause(plan: Plan, t: seq<Event>, action: string, rules: Rules)
    requires Runs(plan, t, false, action, rules)
    ensures exists e <- t :: !Known(e.state, rules) || e.kind == Begin
  {
    match plan
    case Done =>
    case Call(r) =>
      if |t| > 1 {
        assert t[1] in t;
      }
    case Both(p, q) =>
      var a, b, okA, okB :| Runs(p, a, okA, action, rules) && Runs(q, b, okB, action, rules) && Shuffle(a, b, t)
                            && false == (okA && okB);
      if !okA {
        ExceptionHasCause(p, a, action, rules);
      } else {
        ExceptionHasCause(q, b, action, rules);
      }
      ShuffleKeeps(a, b, t);
    case Then(p, q) =>
      if Runs(p, t, false, action, rules) {
        ExceptionHasCause(p, t, action, rules);
      } else {
        var a, b :| Runs(p, a, true, action, rules) && Runs(q, b, false, action, rules) && t == a + b;
        ExceptionHasCause(q, b, action, rules);
      }
  }

  lemma {:induction false} ShuffleKeeps(a: seq<Event>, b: seq<Event>, t: seq<Event>)
    requires Shuffle(a, b, t)
    ensures forall e :: e in a || e in b ==> e in t
  {
    if t != [] {
      var n := |t| - 1;
      if a != [] && a[|a| - 1] == t[n] && Shuffle(a[..|a| - 1], b, t[..n]) {
        ShuffleKeeps(a[..|a| - 1], b, t[..n]);
        assert a == a[..|a| - 1] + [t[n]];
      } else {
        ShuffleKeeps(a, b[..|b| - 1], t[..n]);
        assert b == b[..|b| - 1] + [t[n]];
      }
      assert t == t[..n] + [t[n]];
    }
  }

  // --- what is commanded ---

  lemma {:induction false} ShuffleCount(a: seq<Event>, b: seq<Event>, t: seq<Event>, e: Event)
    requires Shuffle(a, b, t)
    ensures Count(t, e) == Count(a, e) + Count(b, e)
  {
    if t != [] {
      var n := |t| - 1;
      if a != [] && a[|a| - 1] == t[n] && Shuffle(a[..|a| - 1], b, t[..n]) {
        ShuffleCount(a[..|a| - 1], b, t[..n], e);
      } else {
        ShuffleCount(a, b[..|b| - 1], t[..n], e);
      }
    }
  }

  /** The commands of a run: one, begun and ended, for each look at a state that allows the action. */
  ghost predicate Commanded(t: seq<Event>, r: Request, s: Status, action: string, rules: Rules) {
    && Count(t, Event(Begin, r, s)) == Count(t, Event(End, r, s))
    && Count(t, Event(Begin, r, s))
       == if Known(s, rules) && Allows(s, action, rules) then Count(t, Event(Look, r, s)) else 0
  }

  lemma LeafCommanded(q: Request, t: seq<Event>, ok: bool, action: string, rules: Rules, r: Request, s: Status)
    requires LeafRuns(q, t, ok, action, rules)
    ensures Commanded(t, r, s, action, rules)
  {
    hide Allows, Known;
    var look, begin, end := Event(Look, q, t[0].state), Event(Begin, q, t[0].state), Event(End, q, t[0].state);
    CountThree(look, begin, end, Event(Look, r, s));
    CountThree(look, begin, end, Event(Begin, r, s));
    CountThree(look, begin, end, Event(End, r, s));
    assert t == [look] || t == [look, begin, end];
  }

  lemma CountThree<T>(x: T, y: T, z: T, w: T)
    ensures Count([x], w) == if x == w then 1 else 0
    ensures Count([x, y, z], w) == (if x == w then 1 else 0) + (if y == w then 1 else 0) + (if z == w then 1 else 0)
  {
    CountSnoc([], x, w);
    CountSnoc([x], y, w);
    CountSnoc([x, y], z, w);
    assert [] + [x] == [x] && [x] + [y] == [x, y] && [x, y] + [z] == [x, y, z];
  }

  lemma {:induction false} RunCommanded(plan: Plan, t: seq<Event>, ok: bool, action: string, rules: Rules, r: Request,
                                        s: Status)
    requires Runs(plan, t, ok, action, rules)
    ensures Commanded(t, r, s, action, rules)
  {
    hide Allows, Known, Count, LeafRuns;
    match plan
    case Done =>
      CountEmpty(t, r, s);
    case Call(q) =>
      LeafCommanded(q, t, ok, action, rules, r, s);
    case Both(p, q) =>
      var a, b, okA, okB :| Runs(p, a, okA, action, rules) && Runs(q, b, okB, action, rules) && Shuffle(a, b, t)
                            && ok == (okA && okB);
      RunCommanded(p, a, okA, action, rules, r, s);
      RunCommanded(q, b, okB, action, rules, r, s);
      forall k: Kind {
        ShuffleCount(a, b, t, Event(k, r, s));
      }
    case Then(p, q) =>
      if Runs(p, t, false, action, rules) && !ok {
        RunCommanded(p, t, false, action, rules, r, s);
      } else {
        var a, b :| Runs(p, a, true, action, rules) && Runs(q, b, ok, action, rules) && t == a + b;
        RunCommanded(p, a, true, action, rules, r, s);
        RunCommanded(q, b, ok, action, rules, r, s);
        forall k: Kind {
          CountConcat(a, b, Event(k, r, s));
        }
      }
  }

  lemma CountEmpty(t: seq<Event>, r: Request, s: Status)
    requires t == []
    ensures forall k: Kind :: Count(t, Event(k, r, s)) == 0
  {
  }

  lemma {:induction false} LooksOfCount(t: seq<Event>, r: Request, s: Status)
    ensures Count(t, Event(Look, r, s)) <= Looks(t, r)
  {
    if t != [] {
      LooksOfCount(t[..|t| - 1], r, s);
    }
  }

  /** In every run of an action each command goes to an addressed leaf, so to an included one below included nodes only,
      whose state allows the action, and every command that was begun has ended. */
  lemma CommandsAreAllowed(tree: Tree, t: seq<Event>, ok: bool, action: string, rules: Rules, r: Request, s: Status)
    requires ActionRuns(tree, t, ok, action, rules)
    ensures Commanded(t, r, s, action, rules)
    ensures Event(Begin, r, s) in t ==>
              && Addressed(tree, r.path, [[]], RuleFor(action, rules), r.types) && Reachable(tree, r.path)
              && Known(s, rules) && Allows(s, action, rules) && Event(End, r, s) in t
  {
    var rule := RuleFor(action, rules);
    hide Known, Allows;
    RunCommanded(ActionPlan(tree, [], [], rule), t, ok, action, rules, r, s);
    CountPositive(t, Event(Begin, r, s));
    CountPositive(t, Event(End, r, s));
    if Event(Begin, r, s) in t {
      LooksOfCount(t, r, s);
      CallsAreExpected(tree, t, ok, action, rules, r.path, r.types);
      ExpectedIffAddressed(tree, r.path, [[]], rule, r.types);
      AddressedReachable(tree, r.path, [[]], rule, r.types);
    }
  }

  lemma {:induction false} AddressedReachable(tree: Tree, path: Path, given: seq<Types>, rule: Option<seq<string>>,
                                              wanted: Types)
    requires Addressed(tree, path, given, rule, wanted)
    ensures Reachable(tree, path)
    decreases tree
  {
    if !Leaf(tree) {
      var child := tree.children[path[0]];
      AddressedReachable(child, path[1..], Submissions(child, rule), rule, wanted);
    }
  }

  // --- the order of the calls ---

  /** The plan has a call below `p`. */
  predicate Has(plan: Plan, p: Path) {
    match plan
    case Done => false
    case Call(r) => p <= r.path
    case Both(a, b) => Has(a, p) || Has(b, p)
    case Then(a, b) => Has(a, p) || Has(b, p)
  }

  /** The plan makes sure that the calls below `p` are over before those below `q` begin. */
  predicate Apart(plan: Plan, p: Path, q: Path) {
    match plan
    case Done => true
    case Call(r) => !(p <= r.path && q <= r.path)
    case Both(a, b) => Apart(a, p, q) && Apart(b, p, q) && !(Has(a, p) && Has(b, q)) && !(Has(a, q) && Has(b, p))
    case Then(a, b) => Apart(a, p, q) && Apart(b, p, q) && !(Has(a, q) && Has(b, p))
  }

  /** A command to a process below `p` begins or ends. */
  predicate Commands(e: Event, p: Path) {
    e.kind != Look && p <= e.request.path
  }

  predicate Mentions(t: seq<Event>, p: Path) {
    t != [] && (Mentions(t[..|t| - 1], p) || Commands(t[|t| - 1], p))
  }

  predicate InOrder(t: seq<Event>, p: Path, q: Path) {
    t == [] || (InOrder(t[..|t| - 1], p, q) && (Commands(t[|t| - 1], p) ==> !Mentions(t[..|t| - 1], q)))
  }

  /** Some state allows the action. */
  predicate Grants(action: string, rules: Rules) {
    exists s <- rules.allowed :: action in rules.allowed[s]
  }

  lemma {:induction false} ShuffleMentions(a: seq<Event>, b: seq<Event>, t: seq<Event>, p: Path)
    requires Shuffle(a, b, t)
    ensures Mentions(t, p) <==> Mentions(a, p) || Mentions(b, p)
  {
    if t != [] {
      var n := |t| - 1;
      if a != [] && a[|a| - 1] == t[n] && Shuffle(a[..|a| - 1], b, t[..n]) {
        ShuffleMentions(a[..|a| - 1], b, t[..n], p);
      } else {
        ShuffleMentions(a, b[..|b| - 1], t[..n], p);
      }
    }
  }

  lemma {:induction false} ShuffleInOrder(a: seq<Event>, b: seq<Event>, t: seq<Event>, p: Path, q: Path)
    requires Shuffle(a, b, t) && InOrder(a, p, q) && InOrder(b, p, q)
    requires !(Mentions(a, p) && Mentions(b, q)) && !(Mentions(a, q) && Mentions(b, p))
    ensures InOrder(t, p, q)
  {
    if t != [] {
      var n := |t| - 1;
      if a != [] && a[|a| - 1] == t[n] && Shuffle(a[..|a| - 1], b, t[..n]) {
        ShuffleInOrder(a[..|a| - 1], b, t[..n], p, q);
        ShuffleMentions(a[..|a| - 1], b, t[..n], q);
      } else {
        ShuffleInOrder(a, b[..|b| - 1], t[..n], p, q);
        ShuffleMentions(a, b[..|b| - 1], t[..n], q);
      }
    }
  }

  lemma {:induction false} ConcatMentions(a: seq<Event>, b: seq<Event>, p: Path)
    ensures Mentions(a + b, p) <==> Mentions(a, p) || Mentions(b, p)
  {
    if b == [] {
      assert a + b == a;
    } else {
      assert (a + b)[..|a + b| - 1] == a + b[..|b| - 1];
      ConcatMentions(a, b[..|b| - 1], p);
    }
  }

  lemma {:induction false} ConcatInOrder(a: seq<Event>, b: seq<Event>, p: Path, q: Path)
    requires InOrder(a, p, q) && InOrder(b, p, q) && !(Mentions(a, q) && Mentions(b, p))
    ensures InOrder(a + b, p, q)
  {
    if b == [] {
      assert a + b == a;
    } else {
      assert (a + b)[..|a + b| - 1] == a + b[..|b| - 1];
      ConcatInOrder(a, b[..|b| - 1], p, q);
      ConcatMentions(a, b[..|b| - 1], q);
    }
  }

  lemma LeafMentions(r: Request, t: seq<Event>, ok: bool, action: string, rules: Rules, p: Path, q: Path)
    requires LeafRuns(r, t, ok, action, rules)
    ensures Mentions(t, p) ==> p <= r.path && Grants(action, rules)
    ensures !(p <= r.path && q <= r.path) ==> InOrder(t, p, q)
  {
    var s := t[0].state;
    if |t| == 3 {
      AllowsGrants(s, action, rules);
    }
    hide Known, Allows, Grants;
    assert |t| == 1 || |t| == 3;
    assert forall i :: 0 <= i < |t| ==> t[i].request == r;
    SameMentions(t, r, p, q);
    if |t| == 1 {
      assert t[..0] == [] && !Mentions([], p) && !Commands(t[0], p);
    }
  }

  lemma AllowsGrants(s: Status, action: string, rules: Rules)
    requires Allows(s, action, rules)
    ensures Grants(action, rules)
  {
  }

  lemma {:induction false} SameMentions(t: seq<Event>, r: Request, p: Path, q: Path)
    requires forall i :: 0 <= i < |t| ==> t[i].request == r
    ensures Mentions(t, p) ==> p <= r.path
    ensures !(p <= r.path && q <= r.path) ==> InOrder(t, p, q)
  {
    if t != [] {
      SameMentions(t[..|t| - 1], r, p, q);
      SameMentions(t[..|t| - 1], r, q, p);
    }
  }

  lemma {:induction false} RunMentions(plan: Plan, t: seq<Event>, ok: bool, action: string, rules: Rules, p: Path)
    requires Runs(plan, t, ok, action, rules)
    ensures Mentions(t, p) ==> Has(plan, p) && Grants(action, rules)
  {
    hide LeafRuns, Grants;
    match plan
    case Done =>
    case Call(r) =>
      LeafMentions(r, t, ok, action, rules, p, p);
    case Both(x, y) =>
      var a, b, okA, okB :| Runs(x, a, okA, action, rules) && Runs(y, b, okB, action, rules) && Shuffle(a, b, t)
                            && ok == (okA && okB);
      RunMentions(x, a, okA, action, rules, p);
      RunMentions(y, b, okB, action, rules, p);
      ShuffleMentions(a, b, t, p);
    case Then(x, y) =>
      if Runs(x, t, false, action, rules) && !ok {
        RunMentions(x, t, false, action, rules, p);
      } else {
        var a, b :| Runs(x, a, true, action, rules) && Runs(y, b, ok, action, rules) && t == a + b;
        RunMentions(x, a, true, action, rules, p);
        RunMentions(y, b, ok, action, rules, p);
        ConcatMentions(a, b, p);
      }
  }

  /** A plan that keeps two parts of the tree apart does so in every run. */
  lemma {:induction false} RunInOrder(plan: Plan, t: seq<Event>, ok: bool, action: string, rules: Rules,
                                      p: Path, q: Path)
    requires Runs(plan, t, ok, action, rules) && Apart(plan, p, q)
    ensures InOrder(t, p, q)
  {
    hide LeafRuns, Has, Mentions;
    match plan
    case Done =>
    case Call(r) =>
      LeafMentions(r, t, ok, action, rules, p, q);
    case Both(x, y) =>
      var a, b, okA, okB :| Runs(x, a, okA, action, rules) && Runs(y, b, okB, action, rules) && Shuffle(a, b, t)
                            && ok == (okA && okB);
      RunInOrder(x, a, okA, action, rules, p, q);
      RunInOrder(y, b, okB, action, rules, p, q);
      RunMentions(x, a, okA, action, rules, p);
      RunMentions(x, a, okA, action, rules, q);
      RunMentions(y, b, okB, action, rules, p);
      RunMentions(y, b, okB, action, rules, q);
      ShuffleInOrder(a, b, t, p, q);
    case Then(x, y) =>
      if Runs(x, t, false, action, rules) && !ok {
        RunInOrder(x, t, false, action, rules, p, q);
      } else {
        var a, b :| Runs(x, a, true, action, rules) && Runs(y, b, ok, action, rules) && t == a + b;
        RunInOrder(x, a, true, action, rules, p, q);
        RunInOrder(y, b, ok, action, rules, p, q);
        RunMentions(x, a, true, action, rules, q);
        RunMentions(y, b, ok, action, rules, p);
        ConcatInOrder(a, b, p, q);
      }
  }

  lemma {:induction false} MissingApart(plan: Plan, p: Path, q: Path)
    requires !Has(plan, p) || !Has(plan, q)
    ensures Apart(plan, p, q)
  {
    match plan
    case Done =>
    case Call(_) =>
    case Both(a, b) =>
      MissingApart(a, p, q);
      MissingApart(b, p, q);
    case Then(a, b) =>
      MissingApart(a, p, q);
      MissingApart(b, p, q);
  }

  // --- where the calls of a node go ---

  lemma {:induction false} HasBelow(tree: Tree, path: Path, types: Types, rule: Option<seq<string>>, p: Path)
    requires Has(ActionPlan(tree, path, types, rule), p)
    ensures path <= p || p <= path
    decreases tree, 2
  {
    if tree.included && !Leaf(tree) {
      HasBelowSequence(tree, path, Stages(tree.children, rule), rule, p);
    }
  }

  lemma {:induction false} HasBelowSequence(tree: Tree, path: Path, stages: seq<seq<Task>>, rule: Option<seq<string>>,
                                            p: Path)
    requires Has(InSequence(tree, path, stages, rule), p)
    ensures path <= p || p <= path
    decreases tree, 1, |stages|
  {
    var n := |stages| - 1;
    if Has(InParallel(tree, path, stages[n], rule), p) {
      HasBelowParallel(tree, path, stages[n], rule, p);
    } else {
      HasBelowSequence(tree, path, stages[..n], rule, p);
    }
  }

  lemma {:induction false} HasBelowParallel(tree: Tree, path: Path, tasks: seq<Task>, rule: Option<seq<string>>,
                                            p: Path)
    requires Has(InParallel(tree, path, tasks, rule), p)
    ensures path <= p || p <= path
    decreases tree, 0, |tasks|
  {
    var n := |tasks| - 1;
    if Has(Submit(tree, path, tasks[n], rule), p) {
      HasBelow(tree.children[tasks[n].child], path + [tasks[n].child], tasks[n].types, rule, p);
    } else {
      HasBelowParallel(tree, path, tasks[..n], rule, p);
    }
  }

  /** Only the tasks for a child have calls below it. */
  lemma SubmitHas(tree: Tree, path: Path, task: Task, rule: Option<seq<string>>, child: nat, rest: Path)
    requires Has(Submit(tree, path, task, rule), path + [child] + rest)
    ensures task.child == child
  {
    var p, mine := path + [child] + rest, path + [task.child];
    HasBelow(tree.children[task.child], mine, task.types, rule, p);
    assert p[|path|] == child && mine[|path|] == task.child;
  }

  lemma {:induction false} ParallelHas(tree: Tree, path: Path, tasks: seq<Task>, rule: Option<seq<string>>, child: nat,
                                       rest: Path)
    requires Has(InParallel(tree, path, tasks, rule), path + [child] + rest)
    ensures TypesOf(tasks, child) != []
  {
    var n := |tasks| - 1;
    if Has(Submit(tree, path, tasks[n], rule), path + [child] + rest) {
      SubmitHas(tree, path, tasks[n], rule, child, rest);
    } else {
      ParallelHas(tree, path, tasks[..n], rule, child, rest);
    }
  }

  lemma {:induction false} SequenceHas(tree: Tree, path: Path, stages: seq<seq<Task>>, rule: Option<seq<string>>,
                                       child: nat, rest: Path) returns (k: nat)
    requires Has(InSequence(tree, path, stages, rule), path + [child] + rest)
    ensures k < |stages| && TypesOf(stages[k], child) != []
  {
    var n := |stages| - 1;
    if Has(InParallel(tree, path, stages[n], rule), path + [child] + rest) {
      ParallelHas(tree, path, stages[n], rule, child, rest);
      k := n;
    } else {
      k := SequenceHas(tree, path, stages[..n], rule, child, rest);
    }
  }

  predicate StagesApart(stages: seq<seq<Task>>, i: nat, j: nat) {
    forall k, l :: 0 <= k < |stages| && 0 <= l < |stages| ==>
      TypesOf(stages[k], i) != [] && TypesOf(stages[l], j) != [] ==> k < l
  }

  lemma {:induction false} SequenceApart(tree: Tree, path: Path, stages: seq<seq<Task>>, rule: Option<seq<string>>,
                                         i: nat, j: nat)
    requires StagesApart(stages, i, j)
    ensures Apart(InSequence(tree, path, stages, rule), path + [i], path + [j])
  {
    hide InParallel, TypesOf;
    if stages != [] {
      var n := |stages| - 1;
      var front, last := InSequence(tree, path, stages[..n], rule), InParallel(tree, path, stages[n], rule);
      SequenceApart(tree, path, stages[..n], rule, i, j);
      assert path + [i] + [] == path + [i] && path + [j] + [] == path + [j];
      if Has(last, path + [i]) {
        ParallelHas(tree, path, stages[n], rule, i, []);
        if Has(last, path + [j]) {
          ParallelHas(tree, path, stages[n], rule, j, []);
          assert false;
        } else if Has(front, path + [j]) {
          var k := SequenceHas(tree, path, stages[..n], rule, j, []);
          assert false;
        }
      }
      MissingApart(last, path + [i], path + [j]);
    }
  }

  /** If a child is submitted at most once, what is apart within it is apart in the whole. */
  lemma {:induction false} SoloParallel(tree: Tree, path: Path, tasks: seq<Task>, rule: Option<seq<string>>, child: nat,
                                        p: Path, q: Path)
    requires child < |tree.children| && |TypesOf(tasks, child)| <= 1
    requires forall types ::
               Apart(ActionPlan(tree.children[child], path + [child], types, rule),
                     path + [child] + p, path + [child] + q)
    ensures Apart(InParallel(tree, path, tasks, rule), path + [child] + p, path + [child] + q)
  {
    if tasks != [] {
      var n := |tasks| - 1;
      var front, last := InParallel(tree, path, tasks[..n], rule), Submit(tree, path, tasks[n], rule);
      SoloParallel(tree, path, tasks[..n], rule, child, p, q);
      if tasks[n].child == child {
        assert last == ActionPlan(tree.children[child], path + [child], tasks[n].types, rule);
        if Has(front, path + [child] + p) {
          ParallelHas(tree, path, tasks[..n], rule, child, p);
          assert false;
        } else if Has(front, path + [child] + q) {
          ParallelHas(tree, path, tasks[..n], rule, child, q);
          assert false;
        }
      } else {
        if Has(last, path + [child] + p) {
          SubmitHas(tree, path, tasks[n], rule, child, p);
          assert false;
        } else if Has(last, path + [child] + q) {
          SubmitHas(tree, path, tasks[n], rule, child, q);
          assert false;
        }
        MissingApart(last, path + [child] + p, path + [child] + q);
      }
    }
  }

  lemma {:induction false} SoloSequence(tree: Tree, path: Path, stages: seq<seq<Task>>, rule: Option<seq<string>>,
                                        child: nat, p: Path, q: Path)
    requires child < |tree.children| && |TypesOf(Flat(stages), child)| <= 1
    requires forall types ::
               Apart(ActionPlan(tree.children[child], path + [child], types, rule),
                     path + [child] + p, path + [child] + q)
    ensures Apart(InSequence(tree, path, stages, rule), path + [child] + p, path + [child] + q)
  {
    hide ActionPlan;
    if stages != [] {
      var n := |stages| - 1;
      var front, last := InSequence(tree, path, stages[..n], rule), InParallel(tree, path, stages[n], rule);
      TypesOfConcat(Flat(stages[..n]), stages[n], child);
      SoloSequence(tree, path, stages[..n], rule, child, p, q);
      SoloParallel(tree, path, stages[n], rule, child, p, q);
      if Has(last, path + [child] + p) {
        ParallelHas(tree, path, stages[n], rule, child, p);
        if Has(front, path + [child] + q) {
          var k := SequenceHas(tree, path, stages[..n], rule, child, q);
          FlatHas(stages[..n], k, child);
          assert false;
        }
      }
    }
  }

  lemma {:induction false} FlatHas(stages: seq<seq<Task>>, k: nat, child: nat)
    requires k < |stages| && TypesOf(stages[k], child) != []
    ensures TypesOf(Flat(stages), child) != []
  {
    var n := |stages| - 1;
    TypesOfConcat(Flat(stages[..n]), stages[n], child);
    if k < n {
      FlatHas(stages[..n], k, child);
    }
  }

  // --- order rules ---

  /** The group of a rule in which a node is submitted: a node with several types may be in several. */
  predicate InStage(node: Tree, kinds: seq<string>, k: nat) {
    if k < |kinds| then exists e <- node.types :: e.kind == kinds[k] else k == |kinds| && node.types == []
  }

  /** Every group of the first node comes before every group of the second. */
  ghost predicate Precedes(a: Tree, b: Tree, kinds: seq<string>) {
    forall k: nat, l: nat :: InStage(a, kinds, k) && InStage(b, kinds, l) ==> k < l
  }

  /** No node on the way from `tree` to `path` is submitted more than once. */
  predicate OnceAlong(tree: Tree, path: Path, rule: Option<seq<string>>) {
    path == [] ||
    (path[0] < |tree.children| && |Submissions(tree.children[path[0]], rule)| <= 1
     && OnceAlong(tree.children[path[0]], path[1..], rule))
  }

  lemma {:induction false} EntriesOfAny(entries: seq<ModuleType>, kind: string)
    ensures EntriesOf(entries, kind) != [] <==> exists e <- entries :: e.kind == kind
  {
    if entries != [] {
      var front, last := entries[..|entries| - 1], entries[|entries| - 1];
      EntriesOfAny(front, kind);
      assert entries == front + [last];
      if last.kind == kind {
        assert last in entries;
      }
    }
  }

  lemma {:induction false} TypeStagesAt(children: seq<Tree>, kinds: seq<string>, k: nat)
    requires k < |kinds|
    ensures |TypeStages(children, kinds)| == |kinds| && TypeStages(children, kinds)[k] == Matching(children, kinds[k])
  {
    var front := kinds[..|kinds| - 1];
    if k < |front| {
      TypeStagesAt(children, front, k);
    } else if front != [] {
      TypeStagesAt(children, front, 0);
    }
  }

  lemma InStageOf(children: seq<Tree>, kinds: seq<string>, k: nat, i: nat)
    requires i < |children|
    ensures var stages := Stages(children, Some(kinds));
            |stages| == |kinds| + 1
            && (k < |stages| && TypesOf(stages[k], i) != [] <==> InStage(children[i], kinds, k))
  {
    if kinds != [] {
      TypeStagesAt(children, kinds, 0);
    }
    if k < |kinds| {
      TypeStagesAt(children, kinds, k);
      MatchingOne(children, kinds[k], i);
      EntriesOfAny(children[i].types, kinds[k]);
    } else if k == |kinds| {
      UntypedOne(children, i);
    }
  }

  lemma PrecedesApart(children: seq<Tree>, kinds: seq<string>, i: nat, j: nat)
    requires i < |children| && j < |children| && Precedes(children[i], children[j], kinds)
    ensures StagesApart(Stages(children, Some(kinds)), i, j)
  {
    hide TypesOf, Stages, InStage;
    var stages := Stages(children, Some(kinds));
    forall k, l | 0 <= k < |stages| && 0 <= l < |stages| && TypesOf(stages[k], i) != [] && TypesOf(stages[l], j) != []
      ensures k < l
    {
      InStageOf(children, kinds, k, i);
      InStageOf(children, kinds, l, j);
    }
  }

  lemma {:induction false} PlanApart(tree: Tree, path: Path, types: Types, kinds: seq<string>, at: Path, i: nat, j: nat)
    requires OnceAlong(tree, at, Some(kinds))
    requires var node := NodeAt(tree, at);
             i < |node.children| && j < |node.children| && Precedes(node.children[i], node.children[j], kinds)
    ensures Apart(ActionPlan(tree, path, types, Some(kinds)), path + at + [i], path + at + [j])
    decreases |at|
  {
    hide Precedes, Submissions, Apart, Has;
    if at == [] {
      PlanApartHere(tree, path, types, kinds, i, j);
      assert path + [] == path;
    } else {
      var c, rest := at[0], at[1..];
      var mine := path + [c];
      forall given
        ensures Apart(ActionPlan(tree.children[c], mine, given, Some(kinds)), mine + (rest + [i]), mine + (rest + [j]))
      {
        PlanApart(tree.children[c], mine, given, kinds, rest, i, j);
        Assoc(mine, rest, [i]);
        Assoc(mine, rest, [j]);
      }
      PlanApartBelow(tree, path, types, kinds, c, rest + [i], rest + [j]);
      assert path + at + [i] == mine + (rest + [i]) && path + at + [j] == mine + (rest + [j]);
    }
  }

  lemma PlanApartHere(tree: Tree, path: Path, types: Types, kinds: seq<string>, i: nat, j: nat)
    requires i < |tree.children| && j < |tree.children| && Precedes(tree.children[i], tree.children[j], kinds)
    ensures Apart(ActionPlan(tree, path, types, Some(kinds)), path + [i], path + [j])
  {
    hide Precedes, InSequence, Stages;
    if tree.included {
      PrecedesApart(tree.children, kinds, i, j);
      SequenceApart(tree, path, Stages(tree.children, Some(kinds)), Some(kinds), i, j);
    }
  }

  lemma PlanApartBelow(tree: Tree, path: Path, types: Types, kinds: seq<string>, c: nat, p: Path, q: Path)
    requires c < |tree.children| && |Submissions(tree.children[c], Some(kinds))| <= 1
    requires forall given ::
               Apart(ActionPlan(tree.children[c], path + [c], given, Some(kinds)), path + [c] + p, path + [c] + q)
    ensures Apart(ActionPlan(tree, path, types, Some(kinds)), path + [c] + p, path + [c] + q)
  {
    hide InSequence, Stages, Submissions;
    if tree.included {
      StagesOne(tree.children, Some(kinds), c);
      SoloSequence(tree, path, Stages(tree.children, Some(kinds)), Some(kinds), c, p, q);
    }
  }

  lemma {:induction false} InOrderMeans(t: seq<Event>, p: Path, q: Path, x: nat, y: nat)
    requires InOrder(t, p, q) && x < y < |t| && Commands(t[y], p)
    ensures !Commands(t[x], q)
  {
    var n := |t| - 1;
    if y < n {
      InOrderMeans(t[..n], p, q, x, y);
    } else if Commands(t[x], q) {
      MentionsMeans(t[..n], q, x);
      assert false;
    }
  }

  lemma {:induction false} MentionsMeans(t: seq<Event>, q: Path, x: nat)
    requires x < |t| && Commands(t[x], q)
    ensures Mentions(t, q)
  {
    if x < |t| - 1 {
      MentionsMeans(t[..|t| - 1], q, x);
    }
  }

  /** All commands to processes below `p` have ended before any to a process below `q` begins. */
  ghost predicate Before(t: seq<Event>, p: Path, q: Path) {
    forall x, y :: 0 <= x < y < |t| && Commands(t[y], p) ==> !Commands(t[x], q)
  }

  lemma {:induction false} BeforeIffInOrder(t: seq<Event>, p: Path, q: Path)
    ensures Before(t, p, q) <==> InOrder(t, p, q)
  {
    if InOrder(t, p, q) {
      forall x, y | 0 <= x < y < |t| && Commands(t[y], p) ensures !Commands(t[x], q) {
        InOrderMeans(t, p, q, x, y);
      }
    } else {
      BeforeIffInOrder(t[..|t| - 1], p, q);
      if InOrder(t[..|t| - 1], p, q) {
        var x := MentionedAt(t[..|t| - 1], q);
        assert Commands(t[x], q);
      }
    }
  }

  lemma {:induction false} MentionedAt(t: seq<Event>, q: Path) returns (x: nat)
    requires Mentions(t, q)
    ensures x < |t| && Commands(t[x], q)
  {
    if Commands(t[|t| - 1], q) {
      x := |t| - 1;
    } else {
      x := MentionedAt(t[..|t| - 1], q);
    }
  }

  /** Children without types come after all the others. */
  lemma UntypedComeLast(a: Tree, b: Tree, kinds: seq<string>)
    requires a.types != [] && b.types == []
    ensures Precedes(a, b, kinds)
  {
  }

  /** A child with types of which the rule names none is not called at all, nor is anything below it. */
  lemma UnmatchedNeverCalled(tree: Tree, t: seq<Event>, ok: bool, action: string, rules: Rules, child: nat, rest: Path,
                             types: Types)
    requires ActionRuns(tree, t, ok, action, rules) && action in rules.order && child < |tree.children|
    requires tree.children[child].types != []
    requires forall e <- tree.children[child].types :: e.kind !in rules.order[action]
    ensures Looks(t, Request([child] + rest, types)) == 0
  {
    var kinds := rules.order[action];
    CallsAreExpected(tree, t, ok, action, rules, [child] + rest, types);
    NoEntries(tree.children[child].types, kinds);
    assert Submissions(tree.children[child], Some(kinds)) == [];
    assert ([child] + rest)[1..] == rest;
    ExpectedSnoc(tree.children[child], rest, [], [], Some(kinds), types);
    if tree.included {
      ExpectedOnce(tree, [child] + rest, [], Some(kinds), types);
    }
  }

  lemma {:induction false} NoEntries(entries: seq<ModuleType>, kinds: seq<string>)
    requires forall e <- entries :: e.kind !in kinds
    ensures EntriesOfKinds(entries, kinds) == []
  {
    if kinds != [] {
      var front, kind := kinds[..|kinds| - 1], kinds[|kinds| - 1];
      forall e <- entries ensures e.kind !in front {
        assert front <= kinds;
      }
      NoEntries(entries, front);
      EntriesOfAny(entries, kind);
    }
  }

  // --- the order holds only then ---

  /** If some state allows the action, there is a run in which every call leads to a command. */
  lemma {:induction false} SomeRun(plan: Plan, action: string, rules: Rules) returns (t: seq<Event>)
    requires Grants(action, rules)
    ensures Runs(plan, t, true, action, rules) && forall p :: Has(plan, p) ==> Mentions(t, p)
  {
    match plan
    case Done =>
      t := [];
    case Call(r) =>
      t := CommandRun(r, action, rules);
    case Both(a, b) =>
      var u := SomeRun(a, action, rules);
      var v := SomeRun(b, action, rules);
      ShuffleConcat(u, v);
      t := u + v;
      forall p {
        ConcatMentions(u, v, p);
      }
    case Then(a, b) =>
      var u := SomeRun(a, action, rules);
      var v := SomeRun(b, action, rules);
      t := u + v;
      forall p {
        ConcatMentions(u, v, p);
      }
  }

  lemma CommandRun(r: Request, action: string, rules: Rules) returns (t: seq<Event>)
    requires Grants(action, rules)
    ensures LeafRuns(r, t, true, action, rules) && forall p :: p <= r.path ==> Mentions(t, p)
    ensures LeafRuns(r, t, false, action, rules)
  {
    var s :| s in rules.allowed && action in rules.allowed[s];
    var look, begin, end := Event(Look, r, One(s)), Event(Begin, r, One(s)), Event(End, r, One(s));
    t := [look, begin, end];
    assert t[|t| - 1] == end;
  }

  lemma {:induction false} ShuffleConcat(a: seq<Event>, b: seq<Event>)
    ensures Shuffle(a, b, a + b) && Shuffle(b, a, a + b)
  {
    if b != [] {
      assert (a + b)[..|a + b| - 1] == a + b[..|b| - 1];
      ShuffleConcat(a, b[..|b| - 1]);
    } else if a != [] {
      assert (a + b)[..|a + b| - 1] == a[..|a| - 1] + b;
      ShuffleConcat(a[..|a| - 1], b);
    }
  }

  lemma {:induction false} OutOfOrder(a: seq<Event>, b: seq<Event>, p: Path, q: Path)
    requires !InOrder(a, p, q) || !InOrder(b, p, q) || (Mentions(a, q) && Mentions(b, p))
    ensures !InOrder(a + b, p, q)
  {
    if b == [] {
      assert a + b == a;
    } else {
      var front := b[..|b| - 1];
      assert (a + b)[..|a + b| - 1] == a + front;
      ConcatMentions(a, front, q);
      if !InOrder(a, p, q) || !InOrder(front, p, q) || (Mentions(a, q) && Mentions(front, p)) {
        OutOfOrder(a, front, p, q);
      }
    }
  }

  lemma OnePath(p: Path, q: Path, r: Path)
    requires p <= r && q <= r
    ensures p <= q || q <= p
  {
  }

  /** A plan that does not keep two parts of the tree apart has a run, without any exception, that mixes up the commands
      in them. */
  lemma {:induction false} BadRun(plan: Plan, action: string, rules: Rules, p: Path, q: Path) returns (t: seq<Event>)
    requires !Apart(plan, p, q) && !(p <= q) && !(q <= p) && Grants(action, rules)
    ensures Runs(plan, t, true, action, rules) && !InOrder(t, p, q)
    decreases plan, 1
  {
    match plan
    case Call(r) =>
      OnePath(p, q, r.path);
      assert false;
    case Both(a, b) =>
      t := BadTogether(a, b, action, rules, p, q);
    case Then(a, b) =>
      var u := SomeRun(a, action, rules);
      var v := SomeRun(b, action, rules);
      if !Apart(a, p, q) {
        u := BadRun(a, action, rules, p, q);
      } else if !Apart(b, p, q) {
        v := BadRun(b, action, rules, p, q);
      }
      OutOfOrder(u, v, p, q);
      t := u + v;
  }

  lemma {:induction false} BadTogether(a: Plan, b: Plan, action: string, rules: Rules, p: Path, q: Path)
    returns (t: seq<Event>)
    requires !Apart(Both(a, b), p, q) && !(p <= q) && !(q <= p) && Grants(action, rules)
    ensures Runs(Both(a, b), t, true, action, rules) && !InOrder(t, p, q)
    decreases Both(a, b), 0
  {
    hide Runs;
    var u := SomeRun(a, action, rules);
    var v := SomeRun(b, action, rules);
    if !Apart(a, p, q) {
      u := BadRun(a, action, rules, p, q);
      t := u + v;
      OutOfOrder(u, v, p, q);
    } else if !Apart(b, p, q) {
      v := BadRun(b, action, rules, p, q);
      t := u + v;
      OutOfOrder(u, v, p, q);
    } else if Has(a, p) && Has(b, q) {
      t := v + u;
      OutOfOrder(v, u, p, q);
    } else {
      t := u + v;
      OutOfOrder(u, v, p, q);
    }
    ShuffleConcat(u, v);
    ShuffleConcat(v, u);
    TogetherRuns(a, b, u, v, t, action, rules);
  }

  lemma TogetherRuns(a: Plan, b: Plan, u: seq<Event>, v: seq<Event>, t: seq<Event>, action: string, rules: Rules)
    requires Runs(a, u, true, action, rules) && Runs(b, v, true, action, rules) && Shuffle(u, v, t)
    ensures Runs(Both(a, b), t, true, action, rules)
  {
  }

  /** How often executeAction is called on the controller at `at` for one call on `tree`, excluded nodes not
      counting. */
  function Visits(tree: Tree, at: Path, rule: Option<seq<string>>): nat
    decreases tree
  {
    if !tree.included then 0
    else if at == [] then 1
    else if at[0] >= |tree.children| then 0
    else Times(|Submissions(tree.children[at[0]], rule)|, Visits(tree.children[at[0]], at[1..], rule))
  }

  /** A call on the node reaches some leaf. */
  predicate Live(tree: Tree, rule: Option<seq<string>>)
    decreases tree, 0
  {
    tree.included
    && (Leaf(tree) || exists i :: 0 <= i < |tree.children| && Submitted(tree.children[i], rule))
  }

  predicate Submitted(tree: Tree, rule: Option<seq<string>>)
    decreases tree, 1
  {
    Submissions(tree, rule) != [] && Live(tree, rule)
  }

  lemma {:induction false} LiveHas(tree: Tree, path: Path, types: Types, rule: Option<seq<string>>)
    requires Live(tree, rule)
    ensures Has(ActionPlan(tree, path, types, rule), path)
    decreases tree
  {
    hide InSequence, Stages, Submissions;
    if !Leaf(tree) {
      var i :| 0 <= i < |tree.children| && Submitted(tree.children[i], rule);
      forall given ensures Has(ActionPlan(tree.children[i], path + [i], given, rule), path + [i]) {
        LiveHas(tree.children[i], path + [i], given, rule);
      }
      StagesOne(tree.children, rule, i);
      assert path + [i] + [] == path + [i];
      SequenceHasAll(tree, path, Stages(tree.children, rule), rule, i, []);
      HasShorter(InSequence(tree, path, Stages(tree.children, rule), rule), path, path + [i] + []);
    }
  }

  lemma {:induction false} HasShorter(plan: Plan, p: Path, q: Path)
    requires p <= q && Has(plan, q)
    ensures Has(plan, p)
  {
    match plan
    case Call(r) =>
    case Both(a, b) =>
      if Has(a, q) {
        HasShorter(a, p, q);
      } else {
        HasShorter(b, p, q);
      }
    case Then(a, b) =>
      if Has(a, q) {
        HasShorter(a, p, q);
      } else {
        HasShorter(b, p, q);
      }
  }

  /** Every call on the child has calls below `rest`. */
  ghost predicate ChildHas(tree: Tree, path: Path, rule: Option<seq<string>>, child: nat, rest: Path) {
    child < |tree.children|
    && forall types :: Has(ActionPlan(tree.children[child], path + [child], types, rule), path + [child] + rest)
  }

  lemma {:induction false} ParallelHasAll(tree: Tree, path: Path, tasks: seq<Task>, rule: Option<seq<string>>,
                                          child: nat, rest: Path)
    requires TypesOf(tasks, child) != [] && ChildHas(tree, path, rule, child, rest)
    ensures Has(InParallel(tree, path, tasks, rule), path + [child] + rest)
  {
    hide ActionPlan;
    var n := |tasks| - 1;
    if tasks[n].child == child {
      assert Submit(tree, path, tasks[n], rule)
          == ActionPlan(tree.children[child], path + [child], tasks[n].types, rule);
    } else {
      ParallelHasAll(tree, path, tasks[..n], rule, child, rest);
    }
  }

  lemma {:induction false} SequenceHasAll(tree: Tree, path: Path, stages: seq<seq<Task>>, rule: Option<seq<string>>,
                                          child: nat, rest: Path)
    requires TypesOf(Flat(stages), child) != [] && ChildHas(tree, path, rule, child, rest)
    ensures Has(InSequence(tree, path, stages, rule), path + [child] + rest)
  {
    hide ActionPlan, InParallel, ChildHas;
    var n := |stages| - 1;
    TypesOfConcat(Flat(stages[..n]), stages[n], child);
    if TypesOf(stages[n], child) != [] {
      ParallelHasAll(tree, path, stages[n], rule, child, rest);
    } else {
      SequenceHasAll(tree, path, stages[..n], rule, child, rest);
    }
  }

  // --- what an exception prevents ---

  /** If some state allows the action, a command below `p` may raise an exception. */
  lemma {:induction false} RaisingRun(plan: Plan, action: string, rules: Rules, p: Path) returns (t: seq<Event>)
    requires Grants(action, rules) && Has(plan, p)
    ensures Runs(plan, t, false, action, rules) && Mentions(t, p)
  {
    match plan
    case Call(r) =>
      t := CommandRun(r, action, rules);
    case Both(a, b) =>
      var u, v, okA, okB := [], [], true, true;
      if Has(a, p) {
        u := RaisingRun(a, action, rules, p);
        v := SomeRun(b, action, rules);
        okA := false;
      } else {
        u := SomeRun(a, action, rules);
        v := RaisingRun(b, action, rules, p);
        okB := false;
      }
      ShuffleConcat(u, v);
      t := u + v;
      ConcatMentions(u, v, p);
      assert Runs(a, u, okA, action, rules) && Runs(b, v, okB, action, rules) && Shuffle(u, v, t);
    case Then(a, b) =>
      if Has(a, p) {
        t := RaisingRun(a, action, rules, p);
      } else {
        var u := SomeRun(a, action, rules);
        var v := RaisingRun(b, action, rules, p);
        t := u + v;
        ConcatMentions(u, v, p);
      }
  }

  /** A run of the first groups that ends with an exception is a run of all groups. */
  lemma {:induction false} AbortedRun(tree: Tree, path: Path, stages: seq<seq<Task>>, n: nat, rule: Option<seq<string>>,
                                      t: seq<Event>, action: string, rules: Rules)
    requires n <= |stages| && Runs(InSequence(tree, path, stages[..n], rule), t, false, action, rules)
    ensures Runs(InSequence(tree, path, stages, rule), t, false, action, rules)
  {
    hide InParallel;
    if n == |stages| {
      assert stages[..n] == stages;
    } else {
      var m := |stages| - 1;
      assert stages[..m][..n] == stages[..n];
      AbortedRun(tree, path, stages[..m], n, rule, t, action, rules);
    }
  }

  lemma {:induction false} NotInStages(stages: seq<seq<Task>>, n: nat, child: nat)
    requires n <= |stages| && forall k :: 0 <= k < n ==> TypesOf(stages[k], child) == []
    ensures TypesOf(Flat(stages[..n]), child) == []
  {
    if n > 0 {
      NotInStages(stages, n - 1, child);
      assert stages[..n][..n - 1] == stages[..n - 1];
      TypesOfConcat(Flat(stages[..n - 1]), stages[n - 1], child);
    }
  }

  /** When a command below one child raises an exception, a child all of whose groups come later need not be called at
      all. */
  lemma ExceptionSkipsLaterGroups(tree: Tree, action: string, rules: Rules, i: nat, j: nat)
    requires tree.included && action in rules.order && Grants(action, rules)
    requires i < |tree.children| && j < |tree.children| && Submitted(tree.children[i], Some(rules.order[action]))
    requires Precedes(tree.children[i], tree.children[j], rules.order[action])
    ensures exists t :: ActionRuns(tree, t, false, action, rules) && Mentions(t, [i])
              && forall rest, types :: Looks(t, Request([j] + rest, types)) == 0
  {
    hide Grants, Precedes, Looks, Mentions, InSequence;
    var kinds := rules.order[action];
    var rule, stages := Some(kinds), Stages(tree.children, Some(kinds));
    var k := SomeGroup(tree.children, kinds, i);
    EarlierGroups(tree.children, kinds, i, j, k);
    LiveChild(tree, i, rule);
    TypesInFront(stages, k, i);
    SequenceHasAll(tree, [], stages[..k + 1], rule, i, []);
    assert [] + [i] + [] == [i];
    var t := RaisingRun(InSequence(tree, [], stages[..k + 1], rule), action, rules, [i]);
    AbortedRun(tree, [], stages, k + 1, rule, t, action, rules);
    forall rest, types ensures Looks(t, Request([j] + rest, types)) == 0 {
      NoLooks(tree, stages[..k + 1], rule, t, action, rules, j, rest, types);
    }
    assert ActionPlan(tree, [], [], rule) == InSequence(tree, [], stages, rule);
    assert ActionRuns(tree, t, false, action, rules);
  }

  lemma SomeGroup(children: seq<Tree>, kinds: seq<string>, i: nat) returns (k: nat)
    requires i < |children| && Submissions(children[i], Some(kinds)) != []
    ensures k <= |kinds| && InStage(children[i], kinds, k)
    ensures |Stages(children, Some(kinds))| == |kinds| + 1 && TypesOf(Stages(children, Some(kinds))[k], i) != []
  {
    if children[i].types == [] {
      k := |kinds|;
    } else if forall e <- children[i].types :: e.kind !in kinds {
      NoEntries(children[i].types, kinds);
      assert false;
    } else {
      var e :| e in children[i].types && e.kind in kinds;
      k :| 0 <= k < |kinds| && kinds[k] == e.kind;
    }
    InStageOf(children, kinds, k, i);
  }

  lemma EarlierGroups(children: seq<Tree>, kinds: seq<string>, i: nat, j: nat, k: nat)
    requires i < |children| && j < |children| && Precedes(children[i], children[j], kinds)
    requires k <= |kinds| && InStage(children[i], kinds, k)
    ensures var stages := Stages(children, Some(kinds));
            k < |stages| && forall l :: 0 <= l <= k ==> TypesOf(stages[l], j) == []
  {
    hide InStage, Stages, TypesOf;
    InStageOf(children, kinds, k, j);
    forall l | 0 <= l <= k ensures TypesOf(Stages(children, Some(kinds))[l], j) == [] {
      InStageOf(children, kinds, l, j);
    }
  }

  lemma LiveChild(tree: Tree, i: nat, rule: Option<seq<string>>)
    requires i < |tree.children| && Live(tree.children[i], rule)
    ensures ChildHas(tree, [], rule, i, [])
  {
    hide Live, ActionPlan, Has;
    forall types ensures Has(ActionPlan(tree.children[i], [] + [i], types, rule), [] + [i] + []) {
      assert [] + [i] + [] == [] + [i];
      LiveHas(tree.children[i], [] + [i], types, rule);
    }
  }

  lemma TypesInFront(stages: seq<seq<Task>>, k: nat, i: nat)
    requires k < |stages| && TypesOf(stages[k], i) != []
    ensures TypesOf(Flat(stages[..k + 1]), i) != []
  {
    hide TypesOf;
    assert stages[..k + 1][..k] == stages[..k];
    TypesOfConcat(Flat(stages[..k]), stages[k], i);
  }

  lemma NoLooks(tree: Tree, stages: seq<seq<Task>>, rule: Option<seq<string>>, t: seq<Event>, action: string,
                rules: Rules, j: nat, rest: Path, types: Types)
    requires Runs(InSequence(tree, [], stages, rule), t, false, action, rules) && j < |tree.children|
    requires forall l :: 0 <= l < |stages| ==> TypesOf(stages[l], j) == []
    ensures Looks(t, Request([j] + rest, types)) == 0
  {
    hide InSequence, InParallel, Looks;
    var r := Request([j] + rest, types);
    RunCounts(InSequence(tree, [], stages, rule), t, false, action, rules, r);
    SequenceCalls(tree, [], stages, rule, r);
    assert stages[..|stages|] == stages && [] + ([j] + rest) == [j] + rest && ([j] + rest)[1..] == rest;
    NotInStages(stages, |stages|, j);
    ParallelCalls(tree, [], Flat(stages), rule, [j] + rest, types);
    ExpectedSnoc(tree.children[j], rest, [], [], rule, types);
  }

  /** Two children in one group are not kept apart. */
  lemma {:induction false} ParallelMixes(tree: Tree, path: Path, tasks: seq<Task>, rule: Option<seq<string>>,
                                         i: nat, j: nat)
    requires TypesOf(tasks, i) != [] && TypesOf(tasks, j) != [] && i != j
    requires ChildHas(tree, path, rule, i, []) && ChildHas(tree, path, rule, j, [])
    ensures !Apart(InParallel(tree, path, tasks, rule), path + [i], path + [j])
  {
    hide ActionPlan, ChildHas;
    var n := |tasks| - 1;
    assert path + [i] + [] == path + [i] && path + [j] + [] == path + [j];
    assert tasks[n..] == [tasks[n]];
    if tasks[n].child == i {
      ParallelHasAll(tree, path, tasks[..n], rule, j, []);
      TaskHas(tree, path, tasks[n], rule, i, []);
    } else if tasks[n].child == j {
      ParallelHasAll(tree, path, tasks[..n], rule, i, []);
      TaskHas(tree, path, tasks[n], rule, j, []);
    } else {
      ParallelMixes(tree, path, tasks[..n], rule, i, j);
    }
  }

  lemma TaskHas(tree: Tree, path: Path, task: Task, rule: Option<seq<string>>, child: nat, rest: Path)
    requires task.child == child && ChildHas(tree, path, rule, child, rest)
    ensures Has(Submit(tree, path, task, rule), path + [child] + rest)
  {
    assert Submit(tree, path, task, rule) == ActionPlan(tree.children[child], path + [child], task.types, rule);
  }

  /** Nor are two children if a group of the first is not before some group of the second. */
  lemma {:induction false} SequenceMixes(tree: Tree, path: Path, stages: seq<seq<Task>>, rule: Option<seq<string>>,
                                         i: nat, j: nat, k: nat, l: nat)
    requires l <= k < |stages| && TypesOf(stages[k], i) != [] && TypesOf(stages[l], j) != [] && i != j
    requires ChildHas(tree, path, rule, i, []) && ChildHas(tree, path, rule, j, [])
    ensures !Apart(InSequence(tree, path, stages, rule), path + [i], path + [j])
  {
    hide ActionPlan, ChildHas, InParallel, TypesOf;
    var n := |stages| - 1;
    assert path + [i] + [] == path + [i] && path + [j] + [] == path + [j];
    if k < n {
      SequenceMixes(tree, path, stages[..n], rule, i, j, k, l);
    } else if l < n {
      ParallelHasAll(tree, path, stages[n], rule, i, []);
      FlatHas(stages[..n], l, j);
      SequenceHasAll(tree, path, stages[..n], rule, j, []);
    } else {
      ParallelMixes(tree, path, stages[n], rule, i, j);
    }
  }

  /** What one call of a child mixes up is mixed up in the whole. */
  lemma {:induction false} ParallelPart(tree: Tree, path: Path, tasks: seq<Task>, rule: Option<seq<string>>, child: nat,
                                        p: Path, q: Path)
    requires child < |tree.children| && TypesOf(tasks, child) != []
    requires forall types :: !Apart(ActionPlan(tree.children[child], path + [child], types, rule), p, q)
    ensures !Apart(InParallel(tree, path, tasks, rule), p, q)
  {
    hide ActionPlan;
    var n := |tasks| - 1;
    if tasks[n].child == child {
      assert Submit(tree, path, tasks[n], rule)
          == ActionPlan(tree.children[child], path + [child], tasks[n].types, rule);
    } else {
      ParallelPart(tree, path, tasks[..n], rule, child, p, q);
    }
  }

  lemma {:induction false} SequencePart(tree: Tree, path: Path, stages: seq<seq<Task>>, rule: Option<seq<string>>,
                                        child: nat, p: Path, q: Path)
    requires child < |tree.children| && TypesOf(Flat(stages), child) != []
    requires forall types :: !Apart(ActionPlan(tree.children[child], path + [child], types, rule), p, q)
    ensures !Apart(InSequence(tree, path, stages, rule), p, q)
  {
    hide ActionPlan, InParallel;
    var n := |stages| - 1;
    TypesOfConcat(Flat(stages[..n]), stages[n], child);
    if TypesOf(stages[n], child) != [] {
      ParallelPart(tree, path, stages[n], rule, child, p, q);
    } else {
      SequencePart(tree, path, stages[..n], rule, child, p, q);
    }
  }

  /** Two calls on one child mix up whatever both of them call. */
  lemma {:induction false} ParallelTwice(tree: Tree, path: Path, tasks: seq<Task>, rule: Option<seq<string>>,
                                         child: nat, p: Path, q: Path)
    requires |TypesOf(tasks, child)| >= 2
    requires ChildHas(tree, path, rule, child, p) && ChildHas(tree, path, rule, child, q)
    ensures !Apart(InParallel(tree, path, tasks, rule), path + [child] + p, path + [child] + q)
  {
    hide ActionPlan, ChildHas;
    var n := |tasks| - 1;
    if tasks[n].child == child {
      TaskHas(tree, path, tasks[n], rule, child, p);
      ParallelHasAll(tree, path, tasks[..n], rule, child, q);
    } else {
      ParallelTwice(tree, path, tasks[..n], rule, child, p, q);
    }
  }

  lemma {:induction false} SequenceTwice(tree: Tree, path: Path, stages: seq<seq<Task>>, rule: Option<seq<string>>,
                                         child: nat, p: Path, q: Path)
    requires |TypesOf(Flat(stages), child)| >= 2
    requires ChildHas(tree, path, rule, child, p) && ChildHas(tree, path, rule, child, q)
    ensures !Apart(InSequence(tree, path, stages, rule), path + [child] + p, path + [child] + q)
  {
    hide ActionPlan, ChildHas, InParallel;
    var n := |stages| - 1;
    TypesOfConcat(Flat(stages[..n]), stages[n], child);
    if |TypesOf(stages[n], child)| >= 2 {
      ParallelTwice(tree, path, stages[n], rule, child, p, q);
    } else if |TypesOf(Flat(stages[..n]), child)| >= 2 {
      SequenceTwice(tree, path, stages[..n], rule, child, p, q);
    } else {
      ParallelHasAll(tree, path, stages[n], rule, child, p);
      SequenceHasAll(tree, path, stages[..n], rule, child, q);
    }
  }

  lemma {:induction false} VisitedHas(tree: Tree, path: Path, types: Types, rule: Option<seq<string>>, at: Path, i: nat)
    requires Visits(tree, at, rule) > 0 && Exists(tree, at)
    requires i < |NodeAt(tree, at).children| && Submitted(NodeAt(tree, at).children[i], rule)
    ensures Has(ActionPlan(tree, path, types, rule), path + at + [i])
    decreases |at|
  {
    hide InSequence, Stages, Submissions, Live;
    var c, rest := if at == [] then i else at[0], if at == [] then [] else at[1..] + [i];
    var mine := path + [c];
    assert path + at + [i] == mine + rest;
    StagesOne(tree.children, rule, c);
    if at == [] {
      forall given ensures Has(ActionPlan(tree.children[c], mine, given, rule), mine + rest) {
        LiveHas(tree.children[c], mine, given, rule);
        assert mine + rest == mine;
      }
    } else {
      TimesPositive(|Submissions(tree.children[c], rule)|, Visits(tree.children[c], at[1..], rule));
      forall given ensures Has(ActionPlan(tree.children[c], mine, given, rule), mine + rest) {
        VisitedHas(tree.children[c], mine, given, rule, at[1..], i);
        Assoc(mine, at[1..], [i]);
      }
    }
    SequenceHasAll(tree, path, Stages(tree.children, rule), rule, c, rest);
  }

  /** The children `i` and `j` of the node at `at` are called at all. */
  ghost predicate Contested(tree: Tree, kinds: seq<string>, at: Path, i: nat, j: nat) {
    Exists(tree, at)
    && var node := NodeAt(tree, at);
       i != j && i < |node.children| && j < |node.children|
       && Submitted(node.children[i], Some(kinds)) && Submitted(node.children[j], Some(kinds))
  }

  ghost predicate PrecedesAt(tree: Tree, kinds: seq<string>, at: Path, i: nat, j: nat) {
    var node := NodeAt(tree, at);
    i < |node.children| && j < |node.children| && Precedes(node.children[i], node.children[j], kinds)
  }

  lemma MixedHere(tree: Tree, path: Path, types: Types, kinds: seq<string>, i: nat, j: nat)
    requires tree.included && Contested(tree, kinds, [], i, j) && !PrecedesAt(tree, kinds, [], i, j)
    ensures !Apart(ActionPlan(tree, path, types, Some(kinds)), path + [i], path + [j])
  {
    hide InSequence, Stages, Submissions, Live, InStage, Apart;
    var a, b := tree.children[i], tree.children[j];
    var k: nat, l: nat :| InStage(a, kinds, k) && InStage(b, kinds, l) && l <= k;
    InStageOf(tree.children, kinds, k, i);
    InStageOf(tree.children, kinds, l, j);
    forall given ensures Has(ActionPlan(a, path + [i], given, Some(kinds)), path + [i] + []) {
      LiveHas(a, path + [i], given, Some(kinds));
      assert path + [i] + [] == path + [i];
    }
    forall given ensures Has(ActionPlan(b, path + [j], given, Some(kinds)), path + [j] + []) {
      LiveHas(b, path + [j], given, Some(kinds));
      assert path + [j] + [] == path + [j];
    }
    SequenceMixes(tree, path, Stages(tree.children, Some(kinds)), Some(kinds), i, j, k, l);
  }

  /** A controller called more than once mixes up the calls below any two of its children, and one called once mixes up
      those below children whose groups are not in order. */
  lemma {:induction false} PlanMixes(tree: Tree, path: Path, types: Types, kinds: seq<string>, at: Path, i: nat, j: nat)
    requires Contested(tree, kinds, at, i, j) && Visits(tree, at, Some(kinds)) > 0
    requires Visits(tree, at, Some(kinds)) > 1 || !PrecedesAt(tree, kinds, at, i, j)
    ensures !Apart(ActionPlan(tree, path, types, Some(kinds)), path + at + [i], path + at + [j])
    decreases |at|
  {
    hide InSequence, Stages, Submissions, Live, Precedes, Apart;
    if at == [] {
      MixedHere(tree, path, types, kinds, i, j);
      assert path + [] == path;
    } else {
      var rule, c, rest := Some(kinds), at[0], at[1..];
      var child, mine, stages := tree.children[c], path + [c], Stages(tree.children, rule);
      var n, m := |Submissions(child, rule)|, Visits(child, rest, rule);
      TimesPositive(n, m);
      StagesOne(tree.children, rule, c);
      assert path + at + [i] == mine + (rest + [i]) && path + at + [j] == mine + (rest + [j]);
      if m > 1 || !PrecedesAt(child, kinds, rest, i, j) {
        forall given ensures !Apart(ActionPlan(child, mine, given, rule), mine + (rest + [i]), mine + (rest + [j])) {
          PlanMixes(child, mine, given, kinds, rest, i, j);
          Assoc(mine, rest, [i]);
          Assoc(mine, rest, [j]);
        }
        SequencePart(tree, path, stages, rule, c, mine + (rest + [i]), mine + (rest + [j]));
      } else {
        assert n >= 2 by {
          TimesOne(n);
        }
        forall given
          ensures Has(ActionPlan(child, mine, given, rule), mine + (rest + [i]))
          ensures Has(ActionPlan(child, mine, given, rule), mine + (rest + [j]))
        {
          VisitedHas(child, mine, given, rule, rest, i);
          VisitedHas(child, mine, given, rule, rest, j);
          Assoc(mine, rest, [i]);
          Assoc(mine, rest, [j]);
        }
        SequenceTwice(tree, path, stages, rule, c, rest + [i], rest + [j]);
      }
    }
  }

  lemma {:induction false} VisitedOnce(tree: Tree, at: Path, rule: Option<seq<string>>)
    requires Visits(tree, at, rule) == 1 && Exists(tree, at)
    ensures OnceAlong(tree, at, rule)
    decreases |at|
  {
    hide Submissions;
    if at != [] {
      var n, m := |Submissions(tree.children[at[0]], rule)|, Visits(tree.children[at[0]], at[1..], rule);
      TimesPositive(n, m);
      TimesMonotone(1, n, m);
      TimesCommutes(n, m);
      TimesMonotone(1, m, n);
      TimesOne(1);
      TimesCommutes(1, m);
      assert Times(1, n) == n && Times(1, m) == m;
      VisitedOnce(tree.children[at[0]], at[1..], rule);
    }
  }

  /** A node that is not visited has no calls below it. */
  lemma {:induction false} UnvisitedHasNot(tree: Tree, path: Path, types: Types, rule: Option<seq<string>>, at: Path,
                                           rest: Path)
    requires Exists(tree, at) && Visits(tree, at, rule) == 0
    ensures !Has(ActionPlan(tree, path, types, rule), path + at + rest)
    decreases |at|
  {
    hide InSequence, Stages, Submissions;
    if tree.included && at != [] {
      var c, deeper := at[0], at[1..] + rest;
      var child, mine, stages := tree.children[c], path + [c], Stages(tree.children, rule);
      assert path + at + rest == mine + deeper;
      StagesOne(tree.children, rule, c);
      TimesPositive(|Submissions(child, rule)|, Visits(child, at[1..], rule));
      if Has(ActionPlan(tree, path, types, rule), mine + deeper) {
        var k := SequenceHas(tree, path, stages, rule, c, deeper);
        FlatHas(stages, k, c);
        forall given ensures !Has(ActionPlan(child, mine, given, rule), mine + deeper) {
          UnvisitedHasNot(child, mine, given, rule, at[1..], rest);
          Assoc(mine, at[1..], rest);
        }
        SequenceHasPart(tree, path, stages, rule, c, deeper);
        assert false;
      }
    }
  }

  lemma {:induction false} SequenceHasPart(tree: Tree, path: Path, stages: seq<seq<Task>>, rule: Option<seq<string>>,
                                           child: nat, rest: Path)
    requires child < |tree.children|
    requires forall types :: !Has(ActionPlan(tree.children[child], path + [child], types, rule), path + [child] + rest)
    ensures !Has(InSequence(tree, path, stages, rule), path + [child] + rest)
  {
    hide ActionPlan, InParallel;
    if stages != [] {
      SequenceHasPart(tree, path, stages[..|stages| - 1], rule, child, rest);
      ParallelHasPart(tree, path, stages[|stages| - 1], rule, child, rest);
    }
  }

  lemma {:induction false} ParallelHasPart(tree: Tree, path: Path, tasks: seq<Task>, rule: Option<seq<string>>,
                                           child: nat, rest: Path)
    requires child < |tree.children|
    requires forall types :: !Has(ActionPlan(tree.children[child], path + [child], types, rule), path + [child] + rest)
    ensures !Has(InParallel(tree, path, tasks, rule), path + [child] + rest)
  {
    hide ActionPlan;
    if tasks != [] {
      var last := tasks[|tasks| - 1];
      ParallelHasPart(tree, path, tasks[..|tasks| - 1], rule, child, rest);
      if last.child == child {
        assert Submit(tree, path, last, rule) == ActionPlan(tree.children[child], path + [child], last.types, rule);
      } else if Has(Submit(tree, path, last, rule), path + [child] + rest) {
        SubmitHas(tree, path, last, rule, child, rest);
        assert false;
      }
    }
  }

  /** The whole truth about order: the commands below the child `i` of a controller have ended before any below its
      child `j` begins, in every run, exactly if no state allows the action, or the controller is never called, or it is
      called once and every group of `i` comes before every group of `j`. A controller with two matching entries in its
      own parent is called twice, and the order below it is lost. */
  lemma GroupsInOrderIff(tree: Tree, action: string, rules: Rules, at: Path, i: nat, j: nat)
    requires action in rules.order && Contested(tree, rules.order[action], at, i, j)
    ensures var kinds := rules.order[action];
            var n := Visits(tree, at, Some(kinds));
            (forall t, ok :: ActionRuns(tree, t, ok, action, rules) ==> Before(t, at + [i], at + [j]))
            <==> !Grants(action, rules) || n == 0 || (n == 1 && PrecedesAt(tree, kinds, at, i, j))
  {
    hide Precedes, Runs, ActionPlan, Before, Apart, Visits, Submitted, InOrder, PrecedesAt, Grants;
    var kinds := rules.order[action];
    var plan, p, q := ActionPlan(tree, [], [], Some(kinds)), at + [i], at + [j];
    assert [] + at + [i] == p && [] + at + [j] == q;
    if !Grants(action, rules) {
      NoCommandsBefore(plan, action, rules, p, q);
    } else if Visits(tree, at, Some(kinds)) == 0 {
      UnvisitedHasNot(tree, [], [], Some(kinds), at, [i]);
      MissingApart(plan, p, q);
      ApartBefore(plan, action, rules, p, q);
    } else if Visits(tree, at, Some(kinds)) == 1 && PrecedesAt(tree, kinds, at, i, j) {
      VisitedOnce(tree, at, Some(kinds));
      PlanApartAt(tree, kinds, at, i, j);
      ApartBefore(plan, action, rules, p, q);
    } else {
      PlanMixes(tree, [], [], kinds, at, i, j);
      assert p[|at|] == i && q[|at|] == j;
      var t := BadRun(plan, action, rules, p, q);
      BeforeIffInOrder(t, p, q);
      assert ActionRuns(tree, t, true, action, rules);
    }
  }

  lemma NoCommandsBefore(plan: Plan, action: string, rules: Rules, p: Path, q: Path)
    requires !Grants(action, rules)
    ensures forall t, ok :: Runs(plan, t, ok, action, rules) ==> Before(t, p, q)
  {
    hide Runs, Before, Grants;
    forall t, ok | Runs(plan, t, ok, action, rules) ensures Before(t, p, q) {
      RunMentions(plan, t, ok, action, rules, p);
      Unmentioned(t, p, q);
      BeforeIffInOrder(t, p, q);
    }
  }

  lemma {:induction false} Unmentioned(t: seq<Event>, p: Path, q: Path)
    requires !Mentions(t, p)
    ensures InOrder(t, p, q)
  {
    if t != [] {
      Unmentioned(t[..|t| - 1], p, q);
    }
  }

  lemma PlanApartAt(tree: Tree, kinds: seq<string>, at: Path, i: nat, j: nat)
    requires OnceAlong(tree, at, Some(kinds)) && PrecedesAt(tree, kinds, at, i, j)
    ensures Apart(ActionPlan(tree, [], [], Some(kinds)), [] + at + [i], [] + at + [j])
  {
    hide Precedes, ActionPlan, Apart;
    PlanApart(tree, [], [], kinds, at, i, j);
  }

  lemma ApartBefore(plan: Plan, action: string, rules: Rules, p: Path, q: Path)
    requires Apart(plan, p, q)
    ensures forall t, ok :: Runs(plan, t, ok, action, rules) ==> Before(t, p, q)
  {
    hide Runs, Before, Apart;
    forall t, ok | Runs(plan, t, ok, action, rules) ensures Before(t, p, q) {
      RunInOrder(plan, t, ok, action, rules, p, q);
      BeforeIffInOrder(t, p, q);
    }
  }
}
