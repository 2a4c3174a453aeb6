/** The states of the modules of a process (`ModuleManager`) and the command `down`, which takes them all back. */
module Modules {
  import opened Sequences
  import opened Responses

  datatype Module = Module(name: string, kind: string, status: string)

  const BOOTED := "booted"
  const READY := "ready"
  const RUNNING := "running"
  const INCONSISTENT := "inconsistent"

  // --- the overall state ---

  predicate AllBooted(modules: seq<Module>) {
    forall m <- modules :: m.status == BOOTED
  }

  /** Module `i` is the first one that is not booted. */
  predicate FirstOther(modules: seq<Module>, i: nat) {
    i < |modules| && modules[i].status != BOOTED && forall j :: 0 <= j < i ==> modules[j].status == BOOTED
  }

  predicate SameAfter(modules: seq<Module>, i: nat)
    requires i < |modules|
  {
    forall j :: i < j < |modules| ==> modules[j].status == modules[i].status
  }

  /** The state that the modules from `i` on have in common, if they do. */
  function Common(modules: seq<Module>, i: nat): string
    requires i < |modules|
  {
    if SameAfter(modules, i) then modules[i].status else INCONSISTENT
  }

  /** The overall state: "booted" if every module is, otherwise the state of the first module that is not, provided all
      the modules after it are in the same state. */
  ghost predicate IsOverall(modules: seq<Module>, state: string) {
    if AllBooted(modules) then state == BOOTED
    else exists i: nat :: FirstOther(modules, i) && state == Common(modules, i)
  }

  lemma OverallUnique(modules: seq<Module>, s: string, t: string)
    requires IsOverall(modules, s) && IsOverall(modules, t)
    ensures s == t
  {
    if !AllBooted(modules) {
      var i: nat :| FirstOther(modules, i) && s == Common(modules, i);
      var k: nat :| FirstOther(modules, k) && t == Common(modules, k);
      assert i == k;
    }
  }

  lemma BootedIffAllBooted(modules: seq<Module>, s: string)
    requires IsOverall(modules, s)
    ensures s == BOOTED <==> AllBooted(modules)
  {
    assert BOOTED[0] == 'b' && INCONSISTENT[0] == 'i';
  }

  /** Booted modules before the others are overlooked, those after them are not: the overall state depends on the
      order of the module names. */
  lemma OrderMatters(a: string, b: string, kind: string)
    ensures IsOverall([Module(a, kind, BOOTED), Module(b, kind, READY)], READY)
    ensures IsOverall([Module(a, kind, READY), Module(b, kind, BOOTED)], INCONSISTENT)
  {
    assert READY[0] == 'r' && BOOTED[0] == 'b';
    var first := [Module(a, kind, BOOTED), Module(b, kind, READY)];
    var second := [Module(a, kind, READY), Module(b, kind, BOOTED)];
    assert first[1] in first && second[0] in second;
    assert FirstOther(first, 1) && SameAfter(first, 1);
    assert second[1].status != second[0].status;
    assert FirstOther(second, 0) && !SameAfter(second, 0);
  }

  lemma OverallExists(modules: seq<Module>) returns (state: string)
    ensures IsOverall(modules, state)
  {
    if AllBooted(modules) {
      state := BOOTED;
    } else {
      var i := FirstOtherExists(modules);
      state := Common(modules, i);
    }
  }

  lemma {:induction false} FirstOtherExists(modules: seq<Module>) returns (i: nat)
    requires !AllBooted(modules)
    ensures FirstOther(modules, i)
  {
    var front, last := modules[..|modules| - 1], modules[|modules| - 1];
    assert modules == front + [last];
    if AllBooted(front) {
      assert forall j :: 0 <= j < |front| ==> front[j] in front;
      i := |front|;
    } else {
      i := FirstOtherExists(front);
    }
  }

  /** Every order of the same modules gives the same overall state. */
  ghost predicate OrderFree(modules: seq<Module>) {
    forall p, s, t :: multiset(p) == multiset(modules) && IsOverall(modules, s) && IsOverall(p, t) ==> s == t
  }

  predicate NoneBooted(modules: seq<Module>) {
    forall m <- modules :: m.status != BOOTED
  }

  /** All modules that are not booted have the status `x`. */
  predicate OthersAre(modules: seq<Module>, x: string) {
    forall m <- modules :: m.status != BOOTED ==> m.status == x
  }

  /** Two modules that are not booted differ, or both are called "inconsistent" already. */
  ghost predicate OthersInconsistent(modules: seq<Module>) {
    forall x :: OthersAre(modules, x) ==> x == INCONSISTENT
  }

  lemma SameMembers(p: seq<Module>, q: seq<Module>)
    requires multiset(p) == multiset(q)
    ensures forall m :: m in p <==> m in q
  {
    forall m ensures m in p <==> m in q {
      assert m in p <==> m in multiset(p);
      assert m in q <==> m in multiset(q);
    }
  }

  /** The overall state of modules of which some are not booted, and the others have the status `x`. */
  lemma OverallOfOthers(modules: seq<Module>, s: string, x: string)
    requires IsOverall(modules, s) && !AllBooted(modules) && OthersAre(modules, x)
    ensures s == x || s == INCONSISTENT
    ensures NoneBooted(modules) ==> s == x
  {
    var i: nat :| FirstOther(modules, i) && s == Common(modules, i);
    assert modules[i] in modules;
    if NoneBooted(modules) {
      forall j | i < j < |modules| ensures modules[j].status == modules[i].status {
        assert modules[j] in modules;
      }
    }
  }

  lemma OverallInconsistent(modules: seq<Module>, s: string)
    requires IsOverall(modules, s) && !AllBooted(modules) && OthersInconsistent(modules)
    ensures s == INCONSISTENT
  {
    var i: nat :| FirstOther(modules, i) && s == Common(modules, i);
    if SameAfter(modules, i) {
      forall m <- modules ensures m.status != BOOTED ==> m.status == modules[i].status {
        var j :| 0 <= j < |modules| && modules[j] == m;
      }
      assert OthersAre(modules, modules[i].status);
    }
  }

  function Booted(modules: seq<Module>): seq<Module> {
    if modules == [] then []
    else
      var last := modules[|modules| - 1];
      Booted(modules[..|modules| - 1]) + (if last.status == BOOTED then [last] else [])
  }

  function Others(modules: seq<Module>): seq<Module> {
    if modules == [] then []
    else
      var last := modules[|modules| - 1];
      Others(modules[..|modules| - 1]) + (if last.status != BOOTED then [last] else [])
  }

  lemma {:induction false} Parts(modules: seq<Module>)
    ensures multiset(modules) == multiset(Booted(modules)) + multiset(Others(modules))
    ensures (forall m <- Booted(modules) :: m.status == BOOTED) && (forall m <- Others(modules) :: m.status != BOOTED)
  {
    if modules != [] {
      var front, last := modules[..|modules| - 1], modules[|modules| - 1];
      Parts(front);
      assert modules == front + [last];
      assert multiset(modules) == multiset(front) + multiset([last]);
    }
  }

  /** With the booted modules first they are overlooked, with them last they are not. */
  lemma BothOrders(modules: seq<Module>, x: string)
    requires OthersAre(modules, x) && !AllBooted(modules) && !NoneBooted(modules)
    ensures var b, o := Booted(modules), Others(modules);
            && multiset(b + o) == multiset(o + b) == multiset(modules)
            && IsOverall(b + o, x) && IsOverall(o + b, INCONSISTENT)
  {
    hide Booted, Others;
    var b, o := Booted(modules), Others(modules);
    Parts(modules);
    PartsNotEmpty(modules, b, o, x);
    BootedFirst(b, o, x);
    BootedLast(b, o, x);
  }

  lemma PartsNotEmpty(modules: seq<Module>, b: seq<Module>, o: seq<Module>, x: string)
    requires OthersAre(modules, x) && !AllBooted(modules) && !NoneBooted(modules)
    requires multiset(modules) == multiset(b) + multiset(o)
    requires (forall m <- b :: m.status == BOOTED) && (forall m <- o :: m.status != BOOTED)
    ensures b != [] && o != [] && x != BOOTED && forall m <- o :: m.status == x
  {
    SameMembers(modules, b + o);
    var y :| y in modules && y.status == BOOTED;
    var z :| z in modules && z.status != BOOTED;
    assert y in b + o && z in b + o;
  }

  lemma BootedFirst(b: seq<Module>, o: seq<Module>, x: string)
    requires o != [] && x != BOOTED
    requires (forall m <- b :: m.status == BOOTED) && (forall m <- o :: m.status == x)
    ensures IsOverall(b + o, x)
  {
    var p := b + o;
    assert forall j :: 0 <= j < |b| ==> p[j] == b[j] && b[j] in b;
    assert forall j :: |b| <= j < |p| ==> p[j] == o[j - |b|] && o[j - |b|] in o;
    assert p[|b|] in p;
    assert FirstOther(p, |b|) && SameAfter(p, |b|);
  }

  lemma BootedLast(b: seq<Module>, o: seq<Module>, x: string)
    requires b != [] && o != [] && x != BOOTED
    requires (forall m <- b :: m.status == BOOTED) && (forall m <- o :: m.status == x)
    ensures IsOverall(o + b, INCONSISTENT)
  {
    var p := o + b;
    assert p[0] == o[0] && o[0] in o && p[0] in p && p[|o|] == b[0] && b[0] in b;
    assert FirstOther(p, 0);
    assert p[|o|].status != p[0].status;
    assert !SameAfter(p, 0);
  }

  /** The overall state does not depend on the order of the module names exactly if no module is booted, or all are, or
      those that are not booted differ in status or are called "inconsistent". */
  lemma OrderFreeIff(modules: seq<Module>)
    ensures OrderFree(modules) <==> NoneBooted(modules) || AllBooted(modules) || OthersInconsistent(modules)
  {
    if NoneBooted(modules) || AllBooted(modules) || OthersInconsistent(modules) {
      forall p, s, t | multiset(p) == multiset(modules) && IsOverall(modules, s) && IsOverall(p, t) ensures s == t {
        SameOverall(modules, p, s, t);
      }
    } else {
      var x :| OthersAre(modules, x) && x != INCONSISTENT;
      BothOrders(modules, x);
      var s := OverallExists(modules);
      assert !(s == x && s == INCONSISTENT);
    }
  }

  lemma SameOverall(modules: seq<Module>, p: seq<Module>, s: string, t: string)
    requires NoneBooted(modules) || AllBooted(modules) || OthersInconsistent(modules)
    requires multiset(p) == multiset(modules) && IsOverall(modules, s) && IsOverall(p, t)
    ensures s == t
  {
    SameMembers(p, modules);
    if AllBooted(modules) {
      OverallUnique(p, s, t);
    } else if OthersInconsistent(modules) {
      assert forall x :: OthersAre(p, x) ==> OthersAre(modules, x);
      OverallInconsistent(modules, s);
      OverallInconsistent(p, t);
    } else {
      var x :| OthersAre(modules, x) && x != INCONSISTENT;
      OverallOfOthers(modules, s, x);
      OverallOfOthers(p, t, x);
    }
  }

  method GetStatesAsString(modules: seq<Module>) returns (state: string)
    ensures IsOverall(modules, state)
    ensures state == BOOTED <==> AllBooted(modules)
    ensures state == "booted" <==> forall m <- modules :: m.status == "booted"
    ensures forall i :: 0 <= i < |modules| && FirstOther(modules, i) && !SameAfter(modules, i) ==>
              state == "inconsistent"
  {
    state := BOOTED;
    var first := true;
    ghost var other := 0;
    for i := 0 to |modules|
      invariant first ==> state == BOOTED && forall j :: 0 <= j < i ==> modules[j].status == BOOTED
      invariant !first ==>
                  && other < i && FirstOther(modules, other) && state == modules[other].status
                  && forall j :: other <= j < i ==> modules[j].status == state
    {
      if modules[i].status != state {
        if first {
          state, first, other := modules[i].status, false, i;
        } else {
          state := INCONSISTENT;
          assert modules[other] in modules;
          BootedIffAllBooted(modules, state);
          return;
        }
      }
    }
    if !first {
      assert modules[other] in modules;
    }
    BootedIffAllBooted(modules, state);
  }

  // --- the modules a command applies to ---

  predicate Eligible(m: Module, kinds: set<string>, states: set<string>) {
    m.status in states && (kinds == {} || m.kind in kinds)
  }

  method GetModulesEligibleForCommand(modules: seq<Module>, kinds: set<string>, states: set<string>)
    returns (names: set<string>)
    ensures forall n :: n in names <==> exists m <- modules :: m.name == n && Eligible(m, kinds, states)
    ensures forall n ::
              n in names <==>
              exists m <- modules :: m.name == n && m.status in states && (kinds == {} || m.kind in kinds)
  {
    names := {};
    for i := 0 to |modules|
      invariant forall n ::
          n in names <==> exists j :: 0 <= j < i && modules[j].name == n && Eligible(modules[j], kinds, states)
    {
      if Eligible(modules[i], kinds, states) {
        names := names + {modules[i].name};
      }
    }
  }

  function Names(modules: seq<Module>): set<string> {
    set m | m in modules :: m.name
  }

  ghost predicate DistinctNames(modules: seq<Module>) {
    forall i, j :: 0 <= i < j < |modules| ==> modules[i].name != modules[j].name
  }

  function EligibleNames(modules: seq<Module>, kinds: set<string>, states: set<string>): set<string> {
    set m | m in modules && Eligible(m, kinds, states) :: m.name
  }

  // --- what the commands do ---

  function Moved(modules: seq<Module>, names: set<string>, status: string): seq<Module> {
    seq(|modules|, i requires 0 <= i < |modules| =>
      if modules[i].name in names then modules[i].(status := status) else modules[i])
  }

  const DONE := Entry(Some(SUCCESS), Some(""))

  /** Success, reported for each of the modules named. */
  function Done(names: set<string>): Reply {
    Reply(DONE, if names == {} then None else Some(map n | n in names :: DONE))
  }

  const STOP_NONE := "No modules eligible for stop."
  const UNCONFIGURE_NONE := "No modules eligible for configure."

  function CommandReply(modules: seq<Module>, names: set<string>, none: string): Reply {
    if names == {} then Reply(Entry(Some(ERROR), Some(none)), Some(map[])) else Done(names * Names(modules))
  }

  /** After `down`: the ready and the running modules of the given types are booted. */
  function TakenBack(modules: seq<Module>, kinds: set<string>): seq<Module> {
    seq(|modules|, i requires 0 <= i < |modules| =>
      if Eligible(modules[i], kinds, {READY, RUNNING}) then modules[i].(status := BOOTED) else modules[i])
  }

  predicate Rejected(modules: seq<Module>, kinds: set<string>) {
    !AllBooted(modules) && forall m <- modules :: !Eligible(m, kinds, {BOOTED, READY, RUNNING})
  }

  function InvalidState(state: string): Reply {
    Reply(Entry(Some(ERROR), Some("Invalid state " + state + " for command down")), None)
  }

  lemma MergeDone(a: set<string>, b: set<string>)
    ensures Merge(Done(a), Done(b)) == Done(a + b)
  {
    hide MergeEntries, Clash;
    assert MergeEntries(DONE, DONE) == DONE && !Clash(DONE, DONE) by {
      DoneMerges();
    }
    assert a + {} == a && {} + b == b;
    if a != {} && b != {} {
      assert MergeModules(map n | n in a :: DONE, map n | n in b :: DONE) == map n | n in a + b :: DONE;
    }
  }

  lemma DoneMerges()
    ensures MergeEntries(DONE, DONE) == DONE && !Clash(DONE, DONE)
  {
  }

  /** Stopping what runs and then unconfiguring what is ready takes exactly the ready and running modules back. */
  lemma StopThenUnconfigure(modules: seq<Module>, kinds: set<string>)
    requires DistinctNames(modules)
    ensures var stopped := Moved(modules, EligibleNames(modules, kinds, {RUNNING}), READY);
            var ready := EligibleNames(stopped, kinds, {READY});
            && Moved(stopped, ready, BOOTED) == TakenBack(modules, kinds)
            && EligibleNames(modules, kinds, {RUNNING}) + ready == EligibleNames(modules, kinds, {READY, RUNNING})
  {
    var running := EligibleNames(modules, kinds, {RUNNING});
    var stopped := Moved(modules, running, READY);
    var ready := EligibleNames(stopped, kinds, {READY});
    StoppedAt(modules, kinds);
    assert Moved(stopped, ready, BOOTED) == TakenBack(modules, kinds) by {
      forall i | 0 <= i < |modules| ensures Moved(stopped, ready, BOOTED)[i] == TakenBack(modules, kinds)[i] {
        assert stopped[i].name == modules[i].name;
      }
    }
    ReadyNames(modules, kinds);
  }

  lemma InNames(modules: seq<Module>, kinds: set<string>, states: set<string>, i: nat)
    requires DistinctNames(modules) && i < |modules|
    ensures modules[i].name in EligibleNames(modules, kinds, states) <==> Eligible(modules[i], kinds, states)
  {
    if modules[i].name in EligibleNames(modules, kinds, states) {
      var m :| m in modules && Eligible(m, kinds, states) && m.name == modules[i].name;
      var j :| 0 <= j < |modules| && modules[j] == m;
      assert j == i;
    }
  }

  lemma StoppedAt(modules: seq<Module>, kinds: set<string>)
    requires DistinctNames(modules)
    ensures var stopped := Moved(modules, EligibleNames(modules, kinds, {RUNNING}), READY);
            forall i :: 0 <= i < |modules| ==>
              (stopped[i].name in EligibleNames(stopped, kinds, {READY})
               <==> Eligible(modules[i], kinds, {READY, RUNNING}))
              && (modules[i].name in EligibleNames(modules, kinds, {RUNNING})
                  <==> Eligible(modules[i], kinds, {RUNNING}))
              && stopped[i]
                 == if Eligible(modules[i], kinds, {RUNNING}) then modules[i].(status := READY) else modules[i]
  {
    hide Eligible, EligibleNames;
    var stopped := Moved(modules, EligibleNames(modules, kinds, {RUNNING}), READY);
    forall i | 0 <= i < |modules|
      ensures (stopped[i].name in EligibleNames(stopped, kinds, {READY})
               <==> Eligible(modules[i], kinds, {READY, RUNNING}))
      ensures modules[i].name in EligibleNames(modules, kinds, {RUNNING}) <==> Eligible(modules[i], kinds, {RUNNING})
    {
      InNames(modules, kinds, {RUNNING}, i);
      InNames(stopped, kinds, {READY}, i);
      StatusChange(modules[i], kinds);
    }
  }

  lemma StatusChange(m: Module, kinds: set<string>)
    ensures Eligible(if Eligible(m, kinds, {RUNNING}) then m.(status := READY) else m, kinds, {READY})
       <==> Eligible(m, kinds, {READY, RUNNING})
  {
  }

  lemma ReadyNames(modules: seq<Module>, kinds: set<string>)
    requires DistinctNames(modules)
    ensures var running := EligibleNames(modules, kinds, {RUNNING});
            running + EligibleNames(Moved(modules, running, READY), kinds, {READY})
            == EligibleNames(modules, kinds, {READY, RUNNING})
  {
    var running := EligibleNames(modules, kinds, {RUNNING});
    var stopped := Moved(modules, running, READY);
    StoppedAt(modules, kinds);
    forall i | 0 <= i < |modules|
      ensures modules[i].name in EligibleNames(modules, kinds, {READY, RUNNING})
         <==> Eligible(modules[i], kinds, {READY, RUNNING})
    {
      InNames(modules, kinds, {READY, RUNNING}, i);
    }
    forall n
      ensures n in EligibleNames(stopped, kinds, {READY}) <==> n in EligibleNames(modules, kinds, {READY, RUNNING})
    {
      if n in EligibleNames(stopped, kinds, {READY}) {
        var i :| 0 <= i < |stopped| && stopped[i].name == n;
      }
    }
    assert EligibleNames(stopped, kinds, {READY}) == EligibleNames(modules, kinds, {READY, RUNNING});
    assert running <= EligibleNames(modules, kinds, {READY, RUNNING});
  }

  // --- what the replies and the new states say, word by word ---

  predicate Success(e: Entry) {
    e.status == Some("Success") && e.response == Some("")
  }

  /** The reply tells success for the manager and for each of the modules named, and speaks of no other module. */
  predicate ReportsSuccess(reply: Reply, names: set<string>) {
    && reply.Reply? && Success(reply.own)
    && (if names == {} then reply.modules.None?
        else reply.modules.Some? && reply.modules.value.Keys == names
             && forall n <- names :: Success(reply.modules.value[n]))
  }

  predicate ReportsError(reply: Reply, text: string) {
    reply.Reply? && reply.own.status == Some("Error") && reply.own.response == Some(text)
    && (reply.modules.Some? ==> reply.modules.value == map[])
  }

  lemma DoneReports(names: set<string>)
    ensures ReportsSuccess(Done(names), names)
  {
  }

  /** What `stop` and `unconfigure` do: the modules named get the new status and the others stay; the answer is an error
      if no module is named, otherwise success for the modules named that exist. */
  ghost predicate MovedAndTold(before: seq<Module>, after: seq<Module>, names: set<string>, status: string,
                               none: string, reply: Reply) {
    && |after| == |before|
    && (forall i :: 0 <= i < |before| ==>
          after[i] == if before[i].name in names then before[i].(status := status) else before[i])
    && (names == {} ==> ReportsError(reply, none))
    && (names != {} ==> ReportsSuccess(reply, names * set m | m in before :: m.name))
  }

  ghost predicate Stopped(before: seq<Module>, after: seq<Module>, names: set<string>, reply: Reply) {
    MovedAndTold(before, after, names, "ready", "No modules eligible for stop.", reply)
  }

  ghost predicate Unconfigured(before: seq<Module>, after: seq<Module>, names: set<string>, reply: Reply) {
    MovedAndTold(before, after, names, "booted", "No modules eligible for configure.", reply)
  }

  lemma CommandReports(modules: seq<Module>, names: set<string>, status: string, none: string)
    ensures MovedAndTold(modules, Moved(modules, names, status), names, status, none,
                         CommandReply(modules, names, none))
  {
    DoneReports(names * Names(modules));
  }

  /** A module that `down` takes back, and one that makes the manager accept it. */
  predicate IsTakenBack(m: Module, kinds: set<string>) {
    (m.status == "ready" || m.status == "running") && (kinds == {} || m.kind in kinds)
  }

  predicate Accepts(m: Module, kinds: set<string>) {
    (m.status == "booted" || m.status == "ready" || m.status == "running") && (kinds == {} || m.kind in kinds)
  }

  /** `down` is rejected exactly if some module is not booted and none of the given types, or of any type if none are
      given, is in one of the three states. Otherwise the ready and the running modules of these types end up booted and
      the others stay as they are. */
  lemma DownTakesBack(modules: seq<Module>, kinds: set<string>)
    ensures Rejected(modules, kinds)
       <==> (exists m <- modules :: m.status != "booted") && forall m <- modules :: !Accepts(m, kinds)
    ensures var after := TakenBack(modules, kinds);
            |after| == |modules| && forall i :: 0 <= i < |modules| ==>
              after[i] == if IsTakenBack(modules[i], kinds) then modules[i].(status := "booted") else modules[i]
    ensures forall n ::
              n in EligibleNames(modules, kinds, {READY, RUNNING})
              <==> exists m <- modules :: m.name == n && IsTakenBack(m, kinds)
  {
  }

  /** All modules are booted after `down` exactly if each of them was already or is taken back. */
  lemma DownTakesAllBack(modules: seq<Module>, kinds: set<string>)
    ensures AllBooted(TakenBack(modules, kinds))
       <==> forall m <- modules :: m.status == "booted" || IsTakenBack(m, kinds)
  {
    var after := TakenBack(modules, kinds);
    if AllBooted(after) {
      forall m <- modules ensures m.status == "booted" || IsTakenBack(m, kinds) {
        var i :| 0 <= i < |modules| && modules[i] == m;
        assert after[i] in after;
      }
    }
    if forall m <- modules :: m.status == "booted" || IsTakenBack(m, kinds) {
      forall m <- after ensures m.status == BOOTED {
        var i :| 0 <= i < |after| && after[i] == m;
        assert modules[i] in modules;
      }
    }
  }

  class ModuleManager {
    // In the order of their names.
    var modules: seq<Module>
    var shouldStop: bool

    ghost predicate Valid()
      reads this
    {
      DistinctNames(modules)
    }

    constructor ()
      ensures modules == [] && !shouldStop && Valid()
    {
      modules, shouldStop := [], false;
    }

    /** Moves the modules named to a new status, one after the other. */
    method Move(names: set<string>, status: string, none: string) returns (reply: Reply)
      requires Valid()
      modifies this`modules
      ensures Valid() && modules == Moved(old(modules), names, status)
      ensures reply == CommandReply(old(modules), names, none)
    {
      if names == {} {
        assert modules == Moved(modules, names, status);
        return Reply(Entry(Some(ERROR), Some(none)), Some(map[]));
      }
      ghost var before := modules;
      var reported := {};
      for i := 0 to |modules|
        invariant |modules| == |before|
        invariant forall j :: 0 <= j < i ==> modules[j] == Moved(before, names, status)[j]
        invariant forall j :: i <= j < |before| ==> modules[j] == before[j]
        invariant forall n :: n in reported <==> n in names && exists j :: 0 <= j < i && before[j].name == n
      {
        if modules[i].name in names {
          reported := reported + {modules[i].name};
          modules := modules[i := modules[i].(status := status)];
        }
      }
      assert reported == names * Names(before);
      return Done(reported);
    }

    method Stop(names: set<string>) returns (reply: Reply)
      requires Valid()
      modifies this`modules
      ensures Valid() && modules == Moved(old(modules), names, READY)
      ensures reply == CommandReply(old(modules), names, STOP_NONE)
      ensures Stopped(old(modules), modules, names, reply)
    {
      reply := Move(names, READY, STOP_NONE);
      CommandReports(old(modules), names, READY, STOP_NONE);
    }

    method Unconfigure(names: set<string>) returns (reply: Reply)
      requires Valid()
      modifies this`modules
      ensures Valid() && modules == Moved(old(modules), names, BOOTED)
      ensures reply == CommandReply(old(modules), names, UNCONFIGURE_NONE)
      ensures Unconfigured(old(modules), modules, names, reply)
    {
      reply := Move(names, BOOTED, UNCONFIGURE_NONE);
      CommandReports(old(modules), names, BOOTED, UNCONFIGURE_NONE);
    }

    method EligibleModules(kinds: set<string>, states: set<string>) returns (names: set<string>)
      ensures names == EligibleNames(modules, kinds, states) && names <= Names(modules)
    {
      names := GetModulesEligibleForCommand(modules, kinds, states);
    }

    method Down(kinds: set<string>) returns (reply: Reply)
      requires Valid()
      modifies this
      ensures Valid()
      ensures if Rejected(old(modules), kinds)
              then modules == old(modules) && shouldStop == old(shouldStop)
                   && exists s :: IsOverall(modules, s) && reply == InvalidState(s)
              else modules == TakenBack(old(modules), kinds)
                   && shouldStop == (old(shouldStop) || AllBooted(modules))
                   && reply == Done(EligibleNames(old(modules), kinds, {READY, RUNNING}))
      ensures Told(old(modules), modules, kinds, reply)
      ensures shouldStop == (old(shouldStop)
                             || (!Rejected(old(modules), kinds) && forall m <- modules :: m.status == "booted"))
    {
      hide TakenBack, Told, Done, InvalidState, IsOverall, EligibleNames, Rejected;
      ghost var before := modules;
      reply := DownModules(kinds);
      if Rejected(before, kinds) {
        var state :| IsOverall(before, state) && reply == InvalidState(state);
        RejectedTold(before, kinds, state);
      } else {
        TakenBackTold(before, kinds);
      }
    }

    /** Stops the running modules of the given types and then unconfigures the ready ones. */
    method DownModules(kinds: set<string>) returns (reply: Reply)
      requires Valid()
      modifies this
      ensures Valid()
      ensures if Rejected(old(modules), kinds)
              then modules == old(modules) && shouldStop == old(shouldStop)
                   && exists s :: IsOverall(modules, s) && reply == InvalidState(s)
              else modules == TakenBack(old(modules), kinds)
                   && shouldStop == (old(shouldStop) || AllBooted(modules))
                   && reply == Done(EligibleNames(old(modules), kinds, {READY, RUNNING}))
    {
      hide Eligible, Moved, Merge, TakenBack, IsOverall, AllBooted, Stopped, Unconfigured;
      var accepting := EligibleModules(kinds, {BOOTED, READY, RUNNING});
      var state := GetStatesAsString(modules);
      NoneEligible(modules, kinds, {BOOTED, READY, RUNNING});
      if accepting == {} && state != BOOTED {
        return InvalidState(state);
      }
      var before := modules;
      StopThenUnconfigure(before, kinds);
      var running := EligibleModules(kinds, {RUNNING});
      var stopped, unconfigured := Empty, Empty;
      MovedNone(modules, READY);
      if running != {} {
        stopped := Stop(running);
        assert running * Names(before) == running;
      }
      var ready := EligibleModules(kinds, {READY});
      MovedNone(modules, BOOTED);
      ghost var between := modules;
      if ready != {} {
        unconfigured := Unconfigure(ready);
        assert ready * Names(between) == ready;
      }
      state := GetStatesAsString(modules);
      if state == BOOTED {
        shouldStop := true;
      }
      reply := MergeCommandResponses(stopped, unconfigured);
      MergeDone(running, ready);
      MergeIdentity(stopped);
      MergeIdentity(unconfigured);
      if reply.Empty? {
        reply := Done({});
      }
      assert {} + ready == ready && running + {} == running;
    }
  }

  /** What `down` answers, and what becomes of the modules. */
  ghost predicate Told(before: seq<Module>, after: seq<Module>, kinds: set<string>, reply: Reply) {
    if (exists m <- before :: m.status != "booted") && forall m <- before :: !Accepts(m, kinds)
    then
      && after == before && reply.Reply? && reply.own.status == Some("Error") && reply.modules.None?
      && exists s :: IsOverall(before, s) && reply.own.response == Some("Invalid state " + s + " for command down")
    else
      && |after| == |before|
      && (forall i :: 0 <= i < |before| ==>
            after[i] == if IsTakenBack(before[i], kinds) then before[i].(status := "booted") else before[i])
      && ReportsSuccess(reply, set m | m in before && IsTakenBack(m, kinds) :: m.name)
  }

  lemma TakenBackTold(modules: seq<Module>, kinds: set<string>)
    requires !Rejected(modules, kinds)
    ensures Told(modules, TakenBack(modules, kinds), kinds, Done(EligibleNames(modules, kinds, {READY, RUNNING})))
  {
    hide EligibleNames, Rejected, TakenBack, Done, Accepts, IsTakenBack, ReportsSuccess;
    DownTakesBack(modules, kinds);
    var names := EligibleNames(modules, kinds, {READY, RUNNING});
    DoneReports(names);
    assert names == set m | m in modules && IsTakenBack(m, kinds) :: m.name;
  }

  lemma RejectedTold(modules: seq<Module>, kinds: set<string>, state: string)
    requires Rejected(modules, kinds) && IsOverall(modules, state)
    ensures Told(modules, modules, kinds, InvalidState(state))
  {
    hide Rejected, IsOverall, Accepts, TakenBack, EligibleNames;
    DownTakesBack(modules, kinds);
  }

  lemma NoneEligible(modules: seq<Module>, kinds: set<string>, states: set<string>)
    ensures EligibleNames(modules, kinds, states) == {} <==> forall m <- modules :: !Eligible(m, kinds, states)
  {
    if EligibleNames(modules, kinds, states) == {} {
      forall m <- modules ensures !Eligible(m, kinds, states) {
        assert Eligible(m, kinds, states) ==> m.name in EligibleNames(modules, kinds, states);
      }
    }
  }

  lemma MovedNone(modules: seq<Module>, status: string)
    ensures Moved(modules, {}, status) == modules
  {
  }
}
