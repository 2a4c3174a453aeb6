/** Merging the responses of two commands (`Command::mergeCommandResponses`). */
module Responses {
  import opened Sequences

  // The status and response of the module manager or of one module; either may be missing.
  datatype Entry = Entry(status: Option<string>, response: Option<string>)

  // An empty response, or the entry of the module manager and those of its modules.
  datatype Reply = Empty | Reply(own: Entry, modules: Option<map<string, Entry>>)

  datatype Relation = Equal | Less | Greater | Unordered

  const SUCCESS := "Success"
  const ERROR := "Error"
  const FATAL := "FatalError"
  const NOT_MERGED := "Could not merge command responces."
  const NOT_COMPARED := "Merging error during handling command responces by their importance."
  const MODULES_NOT_MERGED := "Error during merging modules responses."

  function Compare(a: Entry, b: Entry): Relation {
    if a.status == b.status then Equal
    else if b.status.None? then Greater
    else if a.status.None? then Less
    else if a.status.value == FATAL then Greater
    else if b.status.value == FATAL then Less
    else if a.status.value == ERROR then Greater
    else if b.status.value == ERROR then Less
    else Unordered
  }

  predicate Silent(e: Entry) {
    e.response.None? || e.response.value == ""
  }

  function MergeEntries(a: Entry, b: Entry): Entry {
    match Compare(a, b)
    case Equal =>
      if Silent(a) then a.(response := b.response)
      else if Silent(b) then a
      else Entry(Some(ERROR), Some(NOT_MERGED))
    case Less => b
    case Greater => a
    case Unordered => Entry(Some(ERROR), Some(NOT_COMPARED))
  }

  /** Two entries that cannot be merged. */
  predicate Clash(a: Entry, b: Entry) {
    match Compare(a, b)
    case Equal => !Silent(a) && !Silent(b)
    case Unordered => true
    case _ => false
  }

  function MergeModules(a: map<string, Entry>, b: map<string, Entry>): map<string, Entry> {
    map key | key in a.Keys + b.Keys ::
      if key !in b then a[key] else if key !in a then b[key] else MergeEntries(a[key], b[key])
  }

  ghost predicate ModulesClash(a: map<string, Entry>, b: map<string, Entry>) {
    exists key :: key in a && key in b && Clash(a[key], b[key])
  }

  ghost function Merge(a: Reply, b: Reply): Reply {
    if a.Empty? then b
    else if b.Empty? then a
    else
      var own := MergeEntries(a.own, b.own);
      if a.modules.None? then Reply(own, b.modules)
      else if b.modules.None? then Reply(own, a.modules)
      else
        var modules := Some(MergeModules(a.modules.value, b.modules.value));
        if ModulesClash(a.modules.value, b.modules.value)
        then Reply(Entry(Some(ERROR), Some(MODULES_NOT_MERGED)), modules)
        else Reply(own, modules)
  }

  /** The merging as a loop over the modules of the second response. */
  method MergeCommandResponses(a: Reply, b: Reply) returns (r: Reply)
    ensures r == Merge(a, b)
  {
    hide Compare, Silent;
    if a.Empty? {
      return b;
    }
    if b.Empty? {
      return a;
    }
    var own := MergeEntries(a.own, b.own);
    if a.modules.None? {
      return Reply(own, b.modules);
    }
    if b.modules.None? {
      return Reply(own, a.modules);
    }
    var merged, clash := a.modules.value, false;
    var todo := b.modules.value.Keys;
    while todo != {}
      invariant todo <= b.modules.value.Keys
      invariant merged == MergeModules(a.modules.value, b.modules.value - todo)
      invariant clash <==> ModulesClash(a.modules.value, b.modules.value - todo)
      decreases todo
    {
      var key :| key in todo;
      var value := b.modules.value[key];
      if key in merged {
        if Clash(merged[key], value) {
          clash := true;
        }
        merged := merged[key := MergeEntries(merged[key], value)];
      } else {
        merged := merged[key := value];
      }
      todo := todo - {key};
    }
    assert b.modules.value - {} == b.modules.value;
    if clash {
      own := Entry(Some(ERROR), Some(MODULES_NOT_MERGED));
    }
    r := Reply(own, Some(merged));
  }

  // --- entries as they are meant to be: with one of the three statuses and a response ---

  predicate Proper(e: Entry) {
    e.status.Some? && e.response.Some?
    && (e.status.value == SUCCESS || e.status.value == ERROR || e.status.value == FATAL)
  }

  function Severity(e: Entry): nat {
    if e.status == Some(FATAL) then 2 else if e.status == Some(ERROR) then 1 else 0
  }

  function Max(a: nat, b: nat): nat {
    if a < b then b else a
  }

  /** How important a status is; a missing one is the least important. */
  function Importance(status: Option<string>): nat {
    match status
    case None => 0
    case Some(s) => if s == "FatalError" then 3 else if s == "Error" then 2 else 1
  }

  /** Any two entries, with any statuses or none: the more important one wins; among equal statuses the one with a text,
      and two texts, or two unknown statuses, make an error. */
  lemma MergedByImportance(a: Entry, b: Entry)
    ensures var m, i, j := MergeEntries(a, b), Importance(a.status), Importance(b.status);
            && (i > j ==> m == a) && (i < j ==> m == b)
            && (a.status == b.status && Wordless(a) ==> m == Entry(b.status, b.response))
            && (a.status == b.status && Wordless(b) && !Wordless(a) ==> m == a)
            && (a.status == b.status && !Wordless(a) && !Wordless(b) ==>
                  m == Entry(Some("Error"), Some("Could not merge command responces.")))
            && (i == j && a.status != b.status ==>
                  m == Entry(Some("Error"),
                             Some("Merging error during handling command responces by their importance.")))
  {
  }

  predicate Wordless(e: Entry) {
    e.response == None || e.response == Some("")
  }

  /** Where the entries of some module clash, the manager's entry says so, whatever it was. */
  lemma ClashIsReported(a: Reply, b: Reply, key: string)
    requires a.Reply? && b.Reply? && a.modules.Some? && b.modules.Some?
    requires key in a.modules.value && key in b.modules.value
    requires var x, y := a.modules.value[key], b.modules.value[key];
             x.status == y.status && !Wordless(x) && !Wordless(y)
    ensures Merge(a, b).own == Entry(Some("Error"), Some("Error during merging modules responses."))
  {
    hide MergeEntries, MergeModules;
    assert Clash(a.modules.value[key], b.modules.value[key]);
  }

  lemma CompareIsSeverity(a: Entry, b: Entry)
    requires Proper(a) && Proper(b)
    ensures Compare(a, b)
         == if Severity(a) == Severity(b) then Equal else if Severity(a) < Severity(b) then Less else Greater
    ensures a.status == b.status <==> Severity(a) == Severity(b)
  {
  }

  /** Without a clash the merged entry has the greater severity, and its response is the one with a text among those of
      that severity. */
  lemma MergedEntry(a: Entry, b: Entry)
    requires Proper(a) && Proper(b)
    ensures var m := MergeEntries(a, b);
            && Proper(m) && (Clash(a, b) ==> Severity(m) == 1)
            && (!Clash(a, b) ==>
                  && Severity(m) == Max(Severity(a), Severity(b))
                  && (m == a || m == b)
                  && (!Silent(a) && Severity(a) >= Severity(b) ==> m == a)
                  && (!Silent(b) && Severity(b) >= Severity(a) ==> m == b))
    ensures Clash(a, b) <==> Severity(a) == Severity(b) && !Silent(a) && !Silent(b)
  {
    CompareIsSeverity(a, b);
    if Severity(a) == Severity(b) && Silent(a) {
      assert MergeEntries(a, b) == b;
    }
  }

  lemma EntriesCommute(a: Entry, b: Entry)
    requires Proper(a) && Proper(b)
    ensures Clash(a, b) <==> Clash(b, a)
    ensures MergeEntries(a, b) == MergeEntries(b, a)
  {
    CompareIsSeverity(a, b);
    CompareIsSeverity(b, a);
  }

  lemma EntriesAssociate(a: Entry, b: Entry, c: Entry)
    requires Proper(a) && Proper(b) && Proper(c) && !Clash(a, b) && !Clash(b, c) && !Clash(a, c)
    ensures MergeEntries(MergeEntries(a, b), c) == MergeEntries(a, MergeEntries(b, c))
    ensures !Clash(MergeEntries(a, b), c) && !Clash(a, MergeEntries(b, c))
  {
    hide Compare;
    CompareIsSeverity(a, b);
    CompareIsSeverity(b, c);
    CompareIsSeverity(a, c);
  }

  ghost predicate ProperModules(modules: map<string, Entry>) {
    forall key :: key in modules ==> Proper(modules[key])
  }

  ghost predicate ProperReply(r: Reply) {
    r.Reply? ==> Proper(r.own) && (r.modules.Some? ==> ProperModules(r.modules.value))
  }

  /** No slot, that of the manager or of a module, has a text of the same severity in both. */
  ghost predicate Agree(a: Reply, b: Reply) {
    a.Reply? && b.Reply? ==>
      && !Clash(a.own, b.own)
      && (a.modules.Some? && b.modules.Some? ==> !ModulesClash(a.modules.value, b.modules.value))
  }

  /** The modules that a reply speaks of. */
  function Keys(r: Reply): set<string> {
    if r.Reply? && r.modules.Some? then r.modules.value.Keys else {}
  }

  function Slot(r: Reply, key: string): Option<Entry> {
    if r.Reply? && r.modules.Some? && key in r.modules.value then Some(r.modules.value[key]) else None
  }

  /** The empty response changes nothing. */
  lemma MergeIdentity(a: Reply)
    ensures Merge(Empty, a) == a && Merge(a, Empty) == a
  {
  }

  /** The merged reply speaks of exactly the modules that either speaks of. */
  lemma MergeKeys(a: Reply, b: Reply)
    ensures Keys(Merge(a, b)) == Keys(a) + Keys(b)
  {
    hide MergeEntries, ModulesClash;
  }

  /** The entry of each module is merged from its entries in the two replies, whatever happens to the others. */
  lemma MergeSlots(a: Reply, b: Reply, key: string)
    ensures var x, y := Slot(a, key), Slot(b, key);
            Slot(Merge(a, b), key)
            == if x.None? then y else if y.None? then x else Some(MergeEntries(x.value, y.value))
  {
    hide MergeEntries, ModulesClash;
  }

  lemma ModulesCommute(a: map<string, Entry>, b: map<string, Entry>)
    requires ProperModules(a) && ProperModules(b)
    ensures MergeModules(a, b) == MergeModules(b, a) && (ModulesClash(a, b) <==> ModulesClash(b, a))
  {
    hide MergeEntries, Clash, Proper;
    forall key | key in a && key in b
      ensures MergeEntries(a[key], b[key]) == MergeEntries(b[key], a[key])
      ensures Clash(a[key], b[key]) <==> Clash(b[key], a[key])
    {
      EntriesCommute(a[key], b[key]);
    }
    if ModulesClash(b, a) {
      var key :| key in b && key in a && Clash(b[key], a[key]);
      assert Clash(a[key], b[key]);
    }
  }

  /** Merging does not depend on the order, even where the responses cannot be merged. */
  lemma MergeCommutes(a: Reply, b: Reply)
    requires ProperReply(a) && ProperReply(b)
    ensures Merge(a, b) == Merge(b, a)
  {
    hide MergeEntries, Clash, Proper, MergeModules, ModulesClash;
    if a.Reply? && b.Reply? {
      EntriesCommute(a.own, b.own);
      if a.modules.Some? && b.modules.Some? {
        ModulesCommute(a.modules.value, b.modules.value);
      }
    }
  }

  lemma ModulesAssociate(a: map<string, Entry>, b: map<string, Entry>, c: map<string, Entry>)
    requires ProperModules(a) && ProperModules(b) && ProperModules(c)
    requires !ModulesClash(a, b) && !ModulesClash(b, c) && !ModulesClash(a, c)
    ensures MergeModules(MergeModules(a, b), c) == MergeModules(a, MergeModules(b, c))
    ensures !ModulesClash(MergeModules(a, b), c) && !ModulesClash(a, MergeModules(b, c))
  {
    hide MergeEntries, Clash, Proper, MergeModules;
    var left, right := MergeModules(MergeModules(a, b), c), MergeModules(a, MergeModules(b, c));
    MergedKeys(a, b);
    MergedKeys(b, c);
    MergedKeys(MergeModules(a, b), c);
    MergedKeys(a, MergeModules(b, c));
    assert left.Keys == right.Keys;
    forall key | key in left ensures left[key] == right[key] {
      ModuleAssociates(a, b, c, key);
    }
    forall key | key in MergeModules(a, b) && key in c ensures !Clash(MergeModules(a, b)[key], c[key]) {
      ModuleAssociates(a, b, c, key);
    }
    forall key | key in a && key in MergeModules(b, c) ensures !Clash(a[key], MergeModules(b, c)[key]) {
      ModuleAssociates(a, b, c, key);
    }
  }

  lemma MergedKeys(a: map<string, Entry>, b: map<string, Entry>)
    ensures MergeModules(a, b).Keys == a.Keys + b.Keys
  {
  }

  lemma MergedAt(a: map<string, Entry>, b: map<string, Entry>, key: string)
    requires key in a || key in b
    ensures key in MergeModules(a, b)
    ensures MergeModules(a, b)[key]
         == if key !in b then a[key] else if key !in a then b[key] else MergeEntries(a[key], b[key])
  {
  }

  lemma ModuleAssociates(a: map<string, Entry>, b: map<string, Entry>, c: map<string, Entry>, key: string)
    requires ProperModules(a) && ProperModules(b) && ProperModules(c)
    requires !ModulesClash(a, b) && !ModulesClash(b, c) && !ModulesClash(a, c)
    requires key in a || key in b || key in c
    ensures var ab, bc := MergeModules(a, b), MergeModules(b, c);
            && key in MergeModules(ab, c) && key in MergeModules(a, bc)
            && MergeModules(ab, c)[key] == MergeModules(a, bc)[key]
            && (key in ab && key in c ==> !Clash(ab[key], c[key]))
            && (key in a && key in bc ==> !Clash(a[key], bc[key]))
  {
    hide MergeEntries, Clash, Proper, MergeModules;
    MergedKeys(a, b);
    MergedKeys(b, c);
    if key in a || key in b {
      MergedAt(a, b, key);
    }
    if key in b || key in c {
      MergedAt(b, c, key);
    }
    MergedAt(MergeModules(a, b), c, key);
    MergedAt(a, MergeModules(b, c), key);
    if key in a && key in b && key in c {
      EntriesAssociate(a[key], b[key], c[key]);
    }
  }

  /** Merging several replies of which any two agree does not depend on the grouping. */
  lemma MergeAssociates(a: Reply, b: Reply, c: Reply)
    requires ProperReply(a) && ProperReply(b) && ProperReply(c)
    requires Agree(a, b) && Agree(b, c) && Agree(a, c)
    ensures Merge(Merge(a, b), c) == Merge(a, Merge(b, c))
    ensures Agree(Merge(a, b), c) && Agree(a, Merge(b, c))
  {
    hide MergeEntries, Clash, Proper, MergeModules, ModulesClash, ProperModules;
    if a.Reply? && b.Reply? && c.Reply? {
      EntriesAssociate(a.own, b.own, c.own);
      if a.modules.Some? && b.modules.Some? && c.modules.Some? {
        ModulesAssociate(a.modules.value, b.modules.value, c.modules.value);
      }
    }
  }

  lemma ModulesStayProper(a: map<string, Entry>, b: map<string, Entry>)
    requires ProperModules(a) && ProperModules(b)
    ensures ProperModules(MergeModules(a, b))
  {
    hide MergeEntries, Clash, Proper;
    forall key | key in MergeModules(a, b) ensures Proper(MergeModules(a, b)[key]) {
      if key in a && key in b {
        MergedEntry(a[key], b[key]);
      }
    }
  }

  /** The status of the merged reply is the more severe of the two exactly if the replies agree or that is "Error"
      anyway: where they clash, two successes become an error and a fatal error becomes an ordinary one. */
  lemma StatusIsMaxIff(a: Reply, b: Reply)
    requires ProperReply(a) && ProperReply(b) && a.Reply? && b.Reply?
    ensures var m, max := Merge(a, b), Max(Severity(a.own), Severity(b.own));
            && ProperReply(m) && m.Reply?
            && (Severity(m.own) == max <==> Agree(a, b) || max == 1)
            && (!Agree(a, b) ==> Severity(m.own) == 1)
  {
    hide MergeEntries, Clash, Proper, MergeModules, ModulesClash, ProperModules;
    MergedEntry(a.own, b.own);
    if a.modules.Some? && b.modules.Some? {
      ModulesStayProper(a.modules.value, b.modules.value);
      ErrorEntry(MODULES_NOT_MERGED);
    }
  }

  lemma ErrorEntry(text: string)
    ensures Proper(Entry(Some(ERROR), Some(text))) && Severity(Entry(Some(ERROR), Some(text))) == 1
  {
  }

  /** Two fatal errors that both say why are merged into an ordinary error. */
  lemma FatalIsLost(why: string, because: string)
    requires why != "" && because != ""
    ensures var a, b := Reply(Entry(Some(FATAL), Some(why)), None),
                        Reply(Entry(Some(FATAL), Some(because)), Some(map[]));
            Severity(a.own) == Severity(b.own) == 2 && Severity(Merge(a, b).own) == 1
  {
    var a, b := Reply(Entry(Some(FATAL), Some(why)), None), Reply(Entry(Some(FATAL), Some(because)), Some(map[]));
    MergedEntry(a.own, b.own);
    assert Merge(a, b).own == MergeEntries(a.own, b.own);
  }

  // --- exactly when the grouping matters ---

  const NOT_MERGED_ENTRY := Entry(Some(ERROR), Some(NOT_MERGED))

  /** An error that stands for a clash of entries like `x` gives way to nothing that `other` would have given way to. */
  predicate Calm(x: Entry, other: Entry) {
    match Severity(x)
    case 0 => Severity(other) != 1 || other == NOT_MERGED_ENTRY
    case 1 => true
    case _ => Severity(other) != 2 || other == x
  }

  predicate GroupingFree(a: Entry, b: Entry, c: Entry) {
    (Clash(a, b) ==> Calm(a, c)) && (Clash(b, c) ==> Calm(c, a))
  }

  /** The grouping of three entries does not matter exactly if each clash of two neighbours leaves the third one calm:
      two fatal errors with texts must not meet a further fatal error, and two successes with texts must not meet an
      error, except for the same entry again. Ordinary errors clash without consequence. */
  lemma GroupingIff(a: Entry, b: Entry, c: Entry)
    requires Proper(a) && Proper(b) && Proper(c)
    ensures MergeEntries(MergeEntries(a, b), c) == MergeEntries(a, MergeEntries(b, c)) <==> GroupingFree(a, b, c)
  {
    hide MergeEntries, Clash, Severity, Silent;
    MergedByCases(a, b);
    MergedByCases(b, c);
    MergedByCases(MergeEntries(a, b), c);
    MergedByCases(a, MergeEntries(b, c));
    ClashEntry();
    SilentAlike(a, b);
    SilentAlike(b, c);
    SilentAlike(a, c);
  }

  lemma MergedByCases(a: Entry, b: Entry)
    requires Proper(a) && Proper(b)
    ensures MergeEntries(a, b)
         == if Severity(a) < Severity(b) then b else if Severity(b) < Severity(a) then a
            else if Silent(a) then b else if Silent(b) then a else NOT_MERGED_ENTRY
    ensures Clash(a, b) <==> Severity(a) == Severity(b) && !Silent(a) && !Silent(b)
    ensures Proper(MergeEntries(a, b))
  {
    CompareIsSeverity(a, b);
    MergedEntry(a, b);
  }

  lemma ClashEntry()
    ensures Severity(NOT_MERGED_ENTRY) == 1 && !Silent(NOT_MERGED_ENTRY)
  {
    ErrorEntry(NOT_MERGED);
  }

  lemma SilentAlike(a: Entry, b: Entry)
    requires Proper(a) && Proper(b)
    ensures Severity(a) == Severity(b) && Silent(a) && Silent(b) ==> a == b
    ensures Severity(a) <= 2 && Severity(b) <= 2
  {
    CompareIsSeverity(a, b);
  }

  predicate SlotGroupingFree(x: Option<Entry>, y: Option<Entry>, z: Option<Entry>) {
    x.Some? && y.Some? && z.Some? ==> GroupingFree(x.value, y.value, z.value)
  }

  /** So it is for the entries of each module in three replies. */
  lemma SlotGroupingIff(a: Reply, b: Reply, c: Reply, key: string)
    requires ProperReply(a) && ProperReply(b) && ProperReply(c)
    ensures Slot(Merge(Merge(a, b), c), key) == Slot(Merge(a, Merge(b, c)), key)
       <==> SlotGroupingFree(Slot(a, key), Slot(b, key), Slot(c, key))
  {
    hide Merge, MergeEntries, GroupingFree;
    MergeSlots(a, b, key);
    MergeSlots(b, c, key);
    MergeSlots(Merge(a, b), c, key);
    MergeSlots(a, Merge(b, c), key);
    var x, y, z := Slot(a, key), Slot(b, key), Slot(c, key);
    if x.Some? && y.Some? && z.Some? {
      GroupingIff(x.value, y.value, z.value);
    }
  }

  const CLASHED := Entry(Some(ERROR), Some(MODULES_NOT_MERGED))

  /** Two replies of which some module has entries that clash. */
  ghost predicate RepliesClash(a: Reply, b: Reply) {
    a.Reply? && b.Reply? && a.modules.Some? && b.modules.Some? && ModulesClash(a.modules.value, b.modules.value)
  }

  /** The entry of the manager when `a` and `b` are merged first and then `c`, where `inner` and `outer` tell whether
      modules clash in the first and in the second merge. */
  function OwnMerged(inner: bool, outer: bool, a: Entry, b: Entry, c: Entry): Entry {
    if outer then CLASHED else MergeEntries(if inner then CLASHED else MergeEntries(a, b), c)
  }

  lemma MergedOwn(a: Reply, b: Reply)
    requires a.Reply? && b.Reply?
    ensures Merge(a, b).Reply? && Merge(a, b).own == if RepliesClash(a, b) then CLASHED else MergeEntries(a.own, b.own)
  {
    hide MergeEntries, ModulesClash, MergeModules;
  }

  /** Replies are equal exactly if their own entries and their entries for each module are, and both or neither list
      modules. */
  lemma EqualReplies(a: Reply, b: Reply)
    requires a.Reply? && b.Reply? && (a.modules.Some? <==> b.modules.Some?)
    ensures a == b <==> a.own == b.own && forall key :: Slot(a, key) == Slot(b, key)
  {
    if a.own == b.own && a.modules.Some? && forall key :: Slot(a, key) == Slot(b, key) {
      var m, n := a.modules.value, b.modules.value;
      forall key ensures key in m <==> key in n {
        assert Slot(a, key) == Slot(b, key);
      }
      forall key | key in m ensures m[key] == n[key] {
        assert Slot(a, key) == Slot(b, key);
      }
      assert m == n;
    }
  }

  lemma MergedLists(a: Reply, b: Reply)
    requires a.Reply? && b.Reply?
    ensures Merge(a, b).Reply? && (Merge(a, b).modules.Some? <==> a.modules.Some? || b.modules.Some?)
  {
    hide MergeEntries, ModulesClash, MergeModules;
  }

  // --- when a module clashes with what was merged before ---

  predicate SlotsClash(x: Option<Entry>, y: Option<Entry>) {
    x.Some? && y.Some? && Clash(x.value, y.value)
  }

  /** After a clash of the first two, an error with a text clashes; otherwise what clashes with one of them that has not
      given way to the other. */
  predicate ClashesAfter(x: Entry, y: Entry, z: Entry) {
    if Clash(x, y) then Outspoken(z)
    else (Severity(x) >= Severity(y) && Clash(x, z)) || (Severity(y) >= Severity(x) && Clash(y, z))
  }

  predicate SlotClashesAfter(x: Option<Entry>, y: Option<Entry>, z: Option<Entry>) {
    if x.None? then SlotsClash(y, z)
    else if y.None? then SlotsClash(x, z)
    else z.Some? && ClashesAfter(x.value, y.value, z.value)
  }

  lemma ClashesAfterIff(x: Entry, y: Entry, z: Entry)
    requires Proper(x) && Proper(y) && Proper(z)
    ensures Clash(MergeEntries(x, y), z) <==> ClashesAfter(x, y, z)
  {
    hide MergeEntries, Clash, Severity, Silent;
    MergedByCases(x, y);
    MergedByCases(x, z);
    MergedByCases(y, z);
    MergedByCases(MergeEntries(x, y), z);
    ClashEntry();
  }

  lemma RepliesClashIff(a: Reply, b: Reply)
    ensures RepliesClash(a, b) <==> exists key :: SlotsClash(Slot(a, key), Slot(b, key))
  {
    hide Clash;
    if RepliesClash(a, b) {
      var key :| key in a.modules.value && key in b.modules.value && Clash(a.modules.value[key], b.modules.value[key]);
      assert SlotsClash(Slot(a, key), Slot(b, key));
    }
    if key :| SlotsClash(Slot(a, key), Slot(b, key)) {
      assert Clash(a.modules.value[key], b.modules.value[key]);
    }
  }

  /** Some module of `c` clashes with what `a` and `b` say of it together. */
  ghost predicate ClashWithBoth(a: Reply, b: Reply, c: Reply) {
    exists key :: SlotClashesAfter(Slot(a, key), Slot(b, key), Slot(c, key))
  }

  lemma SlotProper(a: Reply, key: string)
    requires ProperReply(a)
    ensures Slot(a, key).Some? ==> Proper(Slot(a, key).value)
  {
    hide Proper;
  }

  lemma ClashWithBothIff(a: Reply, b: Reply, c: Reply)
    requires ProperReply(a) && ProperReply(b) && ProperReply(c)
    ensures RepliesClash(Merge(a, b), c) <==> ClashWithBoth(a, b, c)
  {
    hide Merge, MergeEntries, RepliesClash, Slot, ProperReply, Proper, Clash, ClashesAfter;
    RepliesClashIff(Merge(a, b), c);
    forall key
      ensures SlotsClash(Slot(Merge(a, b), key), Slot(c, key))
              <==> SlotClashesAfter(Slot(a, key), Slot(b, key), Slot(c, key))
    {
      MergeSlots(a, b, key);
      SlotProper(a, key);
      SlotProper(b, key);
      SlotProper(c, key);
      var x, y, z := Slot(a, key), Slot(b, key), Slot(c, key);
      if x.Some? && y.Some? && z.Some? {
        ClashesAfterIff(x.value, y.value, z.value);
      }
    }
  }

  lemma ReplyClashCommutes(a: Reply, b: Reply)
    requires ProperReply(a) && ProperReply(b)
    ensures RepliesClash(a, b) <==> RepliesClash(b, a)
  {
    hide Proper, Clash, MergeModules, ModulesClash;
    if a.Reply? && b.Reply? && a.modules.Some? && b.modules.Some? {
      ModulesCommute(a.modules.value, b.modules.value);
    }
  }

  lemma MergedProper(a: Reply, b: Reply)
    requires ProperReply(a) && ProperReply(b)
    ensures ProperReply(Merge(a, b))
  {
    if a.Reply? && b.Reply? {
      hide Merge, ProperReply;
      StatusIsMaxIff(a, b);
    }
  }

  lemma ClashFromBehind(a: Reply, b: Reply, c: Reply)
    requires ProperReply(a) && ProperReply(b) && ProperReply(c)
    ensures RepliesClash(a, Merge(b, c)) <==> ClashWithBoth(c, b, a)
  {
    hide Merge, RepliesClash, ClashWithBoth, Proper, ProperModules;
    MergeCommutes(b, c);
    MergedProper(b, c);
    ReplyClashCommutes(a, Merge(c, b));
    ClashWithBothIff(c, b, a);
  }

  // --- the entry of the manager under both groupings ---

  /** An entry that gives way to an error with a text. */
  predicate Mild(e: Entry) {
    Severity(e) == 0 || (Severity(e) == 1 && Silent(e))
  }

  predicate Outspoken(e: Entry) {
    Severity(e) == 1 && !Silent(e)
  }

  predicate FatalText(e: Entry) {
    Severity(e) == 2 && !Silent(e)
  }

  /** `x` and `y`, and then `z`, are merged into the entry for clashing modules: one of them is that entry, and the
      others give way to it. */
  predicate MakesClashed(x: Entry, y: Entry, z: Entry) {
    || (x == CLASHED && Mild(y) && Mild(z))
    || (y == CLASHED && Mild(x) && Mild(z))
    || (z == CLASHED && Mild(x) && Mild(y) && !Clash(x, y))
  }

  /** The entry for clashing modules becomes the same with `x` as with `z`. */
  predicate SameAfterClash(x: Entry, z: Entry) {
    (Mild(x) && Mild(z)) || (Outspoken(x) && Outspoken(z)) || (Severity(x) == 2 && x == z)
  }

  /** `x` and `y`, and then `z`, are merged into what the entry for clashing modules becomes with `x`. */
  predicate LikeAfterClash(x: Entry, y: Entry, z: Entry) {
    if Mild(x) then MakesClashed(x, y, z)
    else if Severity(x) == 2 then (if FatalText(y) then z == x && !Silent(x) else !FatalText(z))
    else if Severity(y) == 2 then Clash(y, z)
    else if Outspoken(y) then Severity(z) <= 1
    else Outspoken(z) || (x == NOT_MERGED_ENTRY && Mild(z))
  }

  /** Which own entries make both groupings alike, when modules clash (`inner`) in the first merge of `a` with `b` and
      (`outer`) in the second one with `c`, and likewise for `c` with `b` and then with `a`. */
  predicate OwnFree(inner: bool, outer: bool, inner': bool, outer': bool, a: Entry, b: Entry, c: Entry) {
    if outer && outer' then true
    else if outer then (if inner' then Mild(a) else MakesClashed(c, b, a))
    else if outer' then (if inner then Mild(c) else MakesClashed(a, b, c))
    else if inner && inner' then SameAfterClash(c, a)
    else if inner then LikeAfterClash(c, b, a)
    else if inner' then LikeAfterClash(a, b, c)
    else GroupingFree(a, b, c)
  }

  lemma ClashedWith(e: Entry)
    requires Proper(e)
    ensures MergeEntries(CLASHED, e) == if Mild(e) then CLASHED else if Severity(e) == 1 then NOT_MERGED_ENTRY else e
    ensures Severity(CLASHED) == 1 && !Silent(CLASHED) && CLASHED != NOT_MERGED_ENTRY
  {
    ErrorEntry(MODULES_NOT_MERGED);
    MergedByCases(CLASHED, e);
    assert MODULES_NOT_MERGED[0] == 'E' && NOT_MERGED[0] == 'C';
  }

  lemma MakesClashedIff(x: Entry, y: Entry, z: Entry)
    requires Proper(x) && Proper(y) && Proper(z)
    ensures MergeEntries(MergeEntries(x, y), z) == CLASHED <==> MakesClashed(x, y, z)
  {
    hide MergeEntries, Clash, Severity, Silent;
    MergedByCases(x, y);
    MergedByCases(MergeEntries(x, y), z);
    ClashedWith(x);
    ClashEntry();
    SilentAlike(x, y);
    SilentAlike(x, z);
  }

  lemma SameAfterClashIff(x: Entry, z: Entry)
    requires Proper(x) && Proper(z)
    ensures MergeEntries(CLASHED, x) == MergeEntries(CLASHED, z) <==> SameAfterClash(x, z)
  {
    hide MergeEntries, Severity, Silent;
    ClashedWith(x);
    ClashedWith(z);
    ClashEntry();
    SilentAlike(x, z);
  }

  lemma LikeAfterClashIff(x: Entry, y: Entry, z: Entry)
    requires Proper(x) && Proper(y) && Proper(z)
    ensures MergeEntries(MergeEntries(x, y), z) == MergeEntries(CLASHED, x) <==> LikeAfterClash(x, y, z)
  {
    hide MergeEntries, Clash, Severity, Silent;
    ClashedWith(x);
    if Mild(x) {
      MakesClashedIff(x, y, z);
    } else {
      MergedByCases(x, y);
      MergedByCases(y, z);
      MergedByCases(MergeEntries(x, y), z);
      ClashEntry();
      SilentAlike(x, y);
      SilentAlike(y, z);
      SilentAlike(x, z);
    }
  }

  /** So the own entries decide for the manager, given where modules clash. */
  lemma OwnGroupingIff(inner: bool, outer: bool, inner': bool, outer': bool, a: Entry, b: Entry, c: Entry)
    requires Proper(a) && Proper(b) && Proper(c)
    ensures OwnMerged(inner, outer, a, b, c) == OwnMerged(inner', outer', c, b, a)
       <==> OwnFree(inner, outer, inner', outer', a, b, c)
  {
    hide MergeEntries, GroupingFree, Proper, MakesClashed, SameAfterClash, LikeAfterClash, Mild;
    ClashedWith(a);
    ClashedWith(c);
    MakesClashedIff(a, b, c);
    MakesClashedIff(c, b, a);
    SameAfterClashIff(c, a);
    LikeAfterClashIff(a, b, c);
    LikeAfterClashIff(c, b, a);
    OwnUnclashed(a, b, c);
  }

  lemma OwnUnclashed(a: Entry, b: Entry, c: Entry)
    requires Proper(a) && Proper(b) && Proper(c)
    ensures MergeEntries(MergeEntries(a, b), c) == MergeEntries(MergeEntries(c, b), a) <==> GroupingFree(a, b, c)
  {
    hide MergeEntries, GroupingFree, Proper;
    GroupingIff(a, b, c);
    EntriesCommute(b, c);
    MergedEntry(b, c);
    EntriesCommute(a, MergeEntries(b, c));
  }

  /** The grouping of three whole replies does not matter exactly if one is empty, or it matters for no module and the
      own entries are such that it does not matter for the manager, which depends on where modules clash. */
  lemma MergeGroupingIff(a: Reply, b: Reply, c: Reply)
    requires ProperReply(a) && ProperReply(b) && ProperReply(c)
    ensures Merge(Merge(a, b), c) == Merge(a, Merge(b, c)) <==>
            a.Empty? || b.Empty? || c.Empty?
            || ((forall key :: SlotGroupingFree(Slot(a, key), Slot(b, key), Slot(c, key)))
                && OwnFree(RepliesClash(a, b), ClashWithBoth(a, b, c), RepliesClash(b, c), ClashWithBoth(c, b, a),
                           a.own, b.own, c.own))
  {
    if a.Empty? || b.Empty? || c.Empty? {
      return;
    }
    hide Merge, Slot, SlotGroupingFree, RepliesClash, ClashWithBoth, MergeEntries, ProperModules, Proper;
    hide OwnFree, OwnMerged;
    var left, right := Merge(Merge(a, b), c), Merge(a, Merge(b, c));
    MergedLists(a, b);
    MergedLists(b, c);
    MergedLists(Merge(a, b), c);
    MergedLists(a, Merge(b, c));
    EqualReplies(left, right);
    forall key
      ensures Slot(left, key) == Slot(right, key) <==> SlotGroupingFree(Slot(a, key), Slot(b, key), Slot(c, key))
    {
      SlotGroupingIff(a, b, c, key);
    }
    OwnGrouping(a, b, c);
    ClashWithBothIff(a, b, c);
    ClashFromBehind(a, b, c);
    OwnGroupingIff(RepliesClash(a, b), ClashWithBoth(a, b, c), RepliesClash(b, c), ClashWithBoth(c, b, a),
                   a.own, b.own, c.own);
  }

  lemma OwnGrouping(a: Reply, b: Reply, c: Reply)
    requires ProperReply(a) && ProperReply(b) && ProperReply(c) && a.Reply? && b.Reply? && c.Reply?
    ensures Merge(a, b).Reply? && Merge(b, c).Reply?
    ensures Merge(Merge(a, b), c).Reply? && Merge(a, Merge(b, c)).Reply?
    ensures Merge(Merge(a, b), c).own
         == OwnMerged(RepliesClash(a, b), RepliesClash(Merge(a, b), c), a.own, b.own, c.own)
    ensures Merge(a, Merge(b, c)).own
         == OwnMerged(RepliesClash(b, c), RepliesClash(a, Merge(b, c)), c.own, b.own, a.own)
  {
    hide Merge, RepliesClash, MergeEntries, ProperModules, Proper;
    MergedOwn(a, b);
    MergedOwn(b, c);
    MergedOwn(Merge(a, b), c);
    MergedOwn(a, Merge(b, c));
    EntriesCommute(b.own, c.own);
    ProperClashed();
    MergedEntry(b.own, c.own);
    EntriesCommute(a.own, if RepliesClash(b, c) then CLASHED else MergeEntries(b.own, c.own));
  }

  lemma ProperClashed()
    ensures Proper(CLASHED)
  {
    ErrorEntry(MODULES_NOT_MERGED);
  }

  /** Of three fatal errors with texts only the one merged last survives. */
  lemma GroupingMatters(x: string, y: string, z: string)
    requires x != "" && y != "" && z != "" && x != z
    ensures var a, b, c := FatalReply(x), FatalReply(y), FatalReply(z);
            Merge(Merge(a, b), c) == c && Merge(a, Merge(b, c)) == a && a != c
  {
    var a, b, c := FatalReply(x), FatalReply(y), FatalReply(z);
    TwoFatal(x, y);
    TwoFatal(y, z);
    FatalWins(x);
    FatalWins(z);
    EntriesCommute(Entry(Some(FATAL), Some(x)), NOT_MERGED_ENTRY);
  }

  function FatalReply(why: string): Reply {
    Reply(Entry(Some(FATAL), Some(why)), None)
  }

  lemma TwoFatal(x: string, y: string)
    requires x != "" && y != ""
    ensures MergeEntries(Entry(Some(FATAL), Some(x)), Entry(Some(FATAL), Some(y)))
         == Entry(Some(ERROR), Some(NOT_MERGED))
  {
  }

  lemma FatalWins(x: string)
    ensures MergeEntries(Entry(Some(ERROR), Some(NOT_MERGED)), Entry(Some(FATAL), Some(x)))
         == Entry(Some(FATAL), Some(x))
  {
    assert ERROR[0] == 'E' && FATAL[0] == 'F';
  }
}
