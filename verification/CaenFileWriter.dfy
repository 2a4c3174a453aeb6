/** The CAEN file writer: the consumer loop of one channel (`CaenFileWriterModule::flusher`) and the write state that
    survives stopping, restarting and changing runs (`WriteState`). */
module CaenFileWriter {
  import opened Sequences
  import opened CaenNaming

  // An event; an event without channel data is empty. `None` stands for a null payload.
  datatype Event = Event(number: nat, channels: seq<nat>)

  datatype WhenStopped = Pause | CloseFiles | CloseAndTrim
  datatype WhenFinished = IgnoreLast | ClearLast

  datatype Settings = Settings(whenStopped: WhenStopped, whenFinished: WhenFinished, conflicts: Policy,
                               maxPerFile: nat, maxTotal: nat, modulus: Positive)

  datatype WriteState = WriteState(run: nat, filenum: nat, eventsWritten: nat, total: nat, filenames: seq<Name>,
                                   channels: seq<nat>, error: Error)

  // What each existing file holds: for a file of this writer, the events written to it.
  type Files = map<Name, seq<Event>>

  // A set of files that was opened together, and the events written to it.
  datatype FileSet = FileSet(names: seq<Name>, events: seq<Event>)

  // From a start to the next stop: the non-empty events that arrived and those written.
  datatype Session = Session(arrived: seq<Event>, written: seq<Event>)

  datatype State = State(
    write: WriteState,
    files: Files,
    // The consumer loop: whether it runs, its open streams (by file name), and whether it resumes paused files.
    active: bool,
    streams: seq<Name>,
    resuming: bool,
    // History.
    sets: seq<FileSet>,
    sessions: seq<Session>)

  datatype Action =
    // The name generator saw `call`, took `round` rounds and answered `result`; the first `openable`
    // files can be opened.
    | Receive(event: Option<Event>, call: Call, round: nat, result: Result, openable: nat)
    | Start(run: nat)
    | Stop(atLoopTest: bool)

  function Initial(files: Files): State {
    State(WriteState(0, 0, 0, 0, [], [], NoError), files, false, [], false, [], [])
  }

  // --- the write state ---

  function Without(files: Files, names: seq<Name>): Files {
    files - (set n | n in names)
  }

  function FinishedRun(w: WriteState): WriteState {
    w.(filenum := 0, eventsWritten := 0, filenames := [], channels := [])
  }

  function NewRun(w: WriteState, run: nat): WriteState {
    var v := if w.run != run then FinishedRun(w).(run := run) else w;
    v.(error := if v.error == MaxTotalReached then MaxTotalReached else NoError)
  }

  function StepStart(s: State, run: nat, settings: Settings): State {
    var w := NewRun(s.write, run);
    var cleared := s.write.run != run && settings.whenFinished == ClearLast;
    s.(write := w,
       files := if cleared then Without(s.files, s.write.filenames) else s.files,
       active := true, streams := [], resuming := w.filenames != [],
       sessions := s.sessions + [Session([], [])])
  }

  // --- one payload ---

  predicate Empty(e: Option<Event>) {
    e.None? || e.value.channels == []
  }

  /** Opening a list of files, for appending or from scratch. */
  function OpenFiles(files: Files, names: seq<Name>, append: bool): Files {
    files + map n | n in names :: Opened(files, n, append)
  }

  function Opened(files: Files, n: Name, append: bool): seq<Event> {
    if append && n in files then files[n] else []
  }

  function WriteEvent(files: Files, names: seq<Name>, e: Event): Files {
    files + map n | n in names :: Extended(files, n, e)
  }

  function Extended(files: Files, n: Name, e: Event): seq<Event> {
    (if n in files then files[n] else []) + [e]
  }

  function Arrive(s: State, e: Event): State {
    if s.sessions == [] then s
    else
      var last := s.sessions[|s.sessions| - 1];
      s.(sessions := s.sessions[|s.sessions| - 1 := last.(arrived := last.arrived + [e])])
  }

  /** The channel list is taken from the first event that is written. */
  function TakeChannels(s: State, e: Event): State {
    if s.write.channels == [] then s.(write := s.write.(channels := e.channels)) else s
  }

  function Generate(s: State, r: Result): State {
    if s.write.filenames != [] then s
    else
      s.(write := s.write.(filenames := r.filenames, error := r.error, filenum := r.filenum),
         sets := if r.error == NoError then s.sets + [FileSet(r.filenames, [])] else s.sets)
  }

  function OpenStreams(s: State, openable: nat): State {
    if s.streams != [] then s
    else
      var names := s.write.filenames;
      if openable >= |names| then
        s.(streams := names, files := OpenFiles(s.files, names, s.resuming), resuming := false)
      else
        s.(write := s.write.(error := NotOpened, filenames := []),
           files := OpenFiles(s.files, names[..openable], s.resuming), resuming := false)
  }

  function Flush(s: State, e: Event): State {
    if s.sets == [] || s.sessions == [] then s
    else
      var lastSet, lastSession := s.sets[|s.sets| - 1], s.sessions[|s.sessions| - 1];
      s.(files := WriteEvent(s.files, s.streams, e),
         write := s.write.(eventsWritten := s.write.eventsWritten + 1, total := s.write.total + 1),
         sets := s.sets[|s.sets| - 1 := lastSet.(events := lastSet.events + [e])],
         sessions := s.sessions[|s.sessions| - 1 := lastSession.(written := lastSession.written + [e])])
  }

  function Rotate(s: State, settings: Settings): State {
    var t :=
      if s.write.eventsWritten >= settings.maxPerFile then
        s.(streams := [], write := s.write.(filenames := [], eventsWritten := 0))
      else s;
    if t.write.total >= settings.maxTotal then
      t.(streams := [], write := t.write.(filenames := [], error := MaxTotalReached))
    else t
  }

  function StepEvent(s: State, e: Event, r: Result, openable: nat, settings: Settings): State {
    var t := Arrive(s, e);
    if t.write.error != NoError then t else AfterArrival(t, e, r, openable, settings)
  }

  function AfterArrival(s: State, e: Event, r: Result, openable: nat, settings: Settings): State {
    var s2 := Generate(TakeChannels(s, e), r);
    if s2.write.error != NoError then s2 else WriteToFiles(s2, e, openable, settings)
  }

  function WriteToFiles(s: State, e: Event, openable: nat, settings: Settings): State {
    var t := OpenStreams(s, openable);
    if t.write.error != NoError then t else Rotate(Flush(t, e), settings)
  }

  // --- stopping ---

  function StopPolicy(s: State, settings: Settings): State {
    var w := s.write;
    match settings.whenStopped
    case Pause => s
    case CloseFiles =>
      var filenum := if w.eventsWritten > 0 then Next(w.filenum, settings.modulus) else w.filenum;
      s.(write := w.(filenames := [], filenum := filenum))
    case CloseAndTrim =>
      if 0 < w.eventsWritten < settings.maxPerFile then
        s.(files := Without(s.files, w.filenames),
           write := w.(filenames := [], filenum := if w.filenum > 0 then w.filenum - 1 else 0))
      else s.(write := w.(filenames := []))
  }

  /** The stop flag is seen while waiting for a payload, or by the test of the loop, which applies no policy. */
  function StepStop(s: State, atLoopTest: bool, settings: Settings): State {
    var t := s.(active := false, streams := [], resuming := false);
    if atLoopTest then t else StopPolicy(t, settings)
  }

  function Step(s: State, a: Action, settings: Settings): State {
    match a
    case Start(run) => if s.active then s else StepStart(s, run, settings)
    case Stop(atLoopTest) => if s.active then StepStop(s, atLoopTest, settings) else s
    case Receive(e, call, round, r, openable) =>
      if !s.active || Empty(e) then s else StepEvent(s, e.value, r, openable, settings)
  }

  /** The name generator was called with the state at hand and answered as it promises. */
  ghost predicate Generated(s: State, a: Action, settings: Settings) {
    a.Receive? && !Empty(a.event) && s.active && s.write.error == NoError && s.write.filenames == [] ==>
      && a.call.policy == settings.conflicts && a.call.modulus == settings.modulus
      && a.call.existing == s.files.Keys && a.call.previous == []
      && (forall f :: a.call.names(f) != [])
      && Outcome(a.call, s.write.filenum, a.round, a.result)
  }

  ghost predicate Possible(s: State, actions: seq<Action>, settings: Settings) {
    actions == [] ||
    (Possible(s, actions[..|actions| - 1], settings)
     && Generated(Run(s, actions[..|actions| - 1], settings), actions[|actions| - 1], settings))
  }

  function Run(s: State, actions: seq<Action>, settings: Settings): State {
    if actions == [] then s
    else Step(Run(s, actions[..|actions| - 1], settings), actions[|actions| - 1], settings)
  }

  // --- what holds in every reachable state ---

  function AtLeastOne(n: nat): nat {
    if n == 0 then 1 else n
  }

  ghost function Events(sets: seq<FileSet>): seq<Event> {
    if sets == [] then [] else Events(sets[..|sets| - 1]) + sets[|sets| - 1].events
  }

  ghost function Written(sessions: seq<Session>): seq<Event> {
    if sessions == [] then [] else Written(sessions[..|sessions| - 1]) + sessions[|sessions| - 1].written
  }

  /** The events are written in order to one file set after another, and no set gets more than its share. */
  ghost predicate SetsOk(s: State, settings: Settings) {
    && Events(s.sets) == Written(s.sessions)
    && (forall i :: 0 <= i < |s.sets| ==> |s.sets[i].events| <= AtLeastOne(settings.maxPerFile))
  }

  /** The limit on the number of events of a lifetime. */
  ghost predicate TotalOk(w: WriteState, written: nat, settings: Settings) {
    && w.total == written <= AtLeastOne(settings.maxTotal)
    && (w.error == MaxTotalReached <==> w.total > 0 && w.total >= settings.maxTotal)
  }

  /** The current file set: named once, open in full or not at all, and holding exactly its events. */
  ghost predicate CurrentOk(s: State, settings: Settings) {
    && Distinct(s.write.filenames)
    && (s.streams == [] || s.streams == s.write.filenames)
    && (!s.active ==> s.streams == [])
    && (s.active ==> (s.resuming <==> s.write.filenames != [] && s.streams == []))
    && s.write.eventsWritten < AtLeastOne(settings.maxPerFile)
    && (s.write.filenames != [] ==>
          && s.sets != []
          && var last := s.sets[|s.sets| - 1];
             && last.names == s.write.filenames
             && |last.events| <= s.write.eventsWritten
             && forall n <- last.names :: n in s.files && s.files[n] == last.events)
  }

  /** In each session the events written are the first of those that arrived, and all of them while there is no
      error. */
  ghost predicate SessionsOk(s: State) {
    && (s.active ==> s.sessions != [])
    && (forall i :: 0 <= i < |s.sessions| ==> s.sessions[i].written <= s.sessions[i].arrived)
    && (s.active && s.write.error == NoError ==>
          var last := s.sessions[|s.sessions| - 1]; last.written == last.arrived)
  }

  ghost predicate Inv(s: State, settings: Settings) {
    && SetsOk(s, settings) && TotalOk(s.write, |Written(s.sessions)|, settings) && CurrentOk(s, settings)
    && SessionsOk(s)
  }

  lemma StartKeepsInv(s: State, run: nat, settings: Settings)
    requires Inv(s, settings) && !s.active
    ensures Inv(StepStart(s, run, settings), settings)
  {
    var t := StepStart(s, run, settings);
    assert t.sessions[..|s.sessions|] == s.sessions;
  }

  lemma StopKeepsInv(s: State, atLoopTest: bool, settings: Settings)
    requires Inv(s, settings) && s.active
    ensures Inv(StepStop(s, atLoopTest, settings), settings)
  {
    hide Events, Written, Without;
  }

  ghost predicate Holds(files: Files, names: seq<Name>, events: seq<Event>) {
    forall n <- names :: n in files && files[n] == events
  }

  /** Just before the event `e` is written. */
  ghost predicate Ready(s: State, e: Event, settings: Settings) {
    && s.active && !s.resuming && s.write.error == NoError
    && s.streams == s.write.filenames != [] && Distinct(s.streams)
    && SetsOk(s, settings) && TotalOk(s.write, |Written(s.sessions)|, settings)
    && s.write.eventsWritten < AtLeastOne(settings.maxPerFile)
    && s.sets != [] && s.sets[|s.sets| - 1].names == s.streams
    && |s.sets[|s.sets| - 1].events| <= s.write.eventsWritten
    && Holds(s.files, s.streams, s.sets[|s.sets| - 1].events)
    && ArrivedNotWritten(s.sessions, e)
  }

  ghost predicate ArrivedNotWritten(sessions: seq<Session>, e: Event) {
    && sessions != []
    && (forall i :: 0 <= i < |sessions| ==> sessions[i].written <= sessions[i].arrived)
    && sessions[|sessions| - 1].arrived == sessions[|sessions| - 1].written + [e]
  }

  lemma EventsChangeLast(sets: seq<FileSet>, last: FileSet)
    requires sets != []
    ensures Events(sets[|sets| - 1 := last]) == Events(sets[..|sets| - 1]) + last.events
  {
    assert sets[|sets| - 1 := last][..|sets| - 1] == sets[..|sets| - 1];
  }

  lemma WrittenChangeLast(sessions: seq<Session>, last: Session)
    requires sessions != []
    ensures Written(sessions[|sessions| - 1 := last]) == Written(sessions[..|sessions| - 1]) + last.written
  {
    assert sessions[|sessions| - 1 := last][..|sessions| - 1] == sessions[..|sessions| - 1];
  }

  lemma FlushKeeps(s: State, e: Event, settings: Settings)
    requires Ready(s, e, settings)
    ensures var t := Flush(s, e);
            && Events(t.sets) == Written(t.sessions) == Written(s.sessions) + [e]
            && Holds(t.files, t.streams, t.sets[|t.sets| - 1].events)
  {
    var set', session := s.sets[|s.sets| - 1], s.sessions[|s.sessions| - 1];
    EventsChangeLast(s.sets, set'.(events := set'.events + [e]));
    WrittenChangeLast(s.sessions, session.(written := session.written + [e]));
    Assoc(Events(s.sets[..|s.sets| - 1]), set'.events, [e]);
    Assoc(Written(s.sessions[..|s.sessions| - 1]), session.written, [e]);
  }

  lemma WriteKeepsInv(s: State, e: Event, settings: Settings)
    requires Ready(s, e, settings)
    ensures Inv(Rotate(Flush(s, e), settings), settings)
  {
    FlushKeeps(s, e, settings);
    hide Events, Written, WriteEvent;
    var t := Flush(s, e);
    assert |t.sets[|t.sets| - 1].events| == |s.sets[|s.sets| - 1].events| + 1;
    var last := t.sessions[|t.sessions| - 1];
    assert last.written == last.arrived;
  }

  /** A new file set starts with an empty list of events. */
  lemma NewSet(sets: seq<FileSet>, names: seq<Name>)
    ensures Events(sets + [FileSet(names, [])]) == Events(sets)
  {
    assert (sets + [FileSet(names, [])])[..|sets|] == sets;
  }

  lemma ArriveKeeps(s: State, e: Event, settings: Settings)
    requires Inv(s, settings) && s.active
    ensures var t := Arrive(s, e);
            && Written(t.sessions) == Written(s.sessions)
            && (s.write.error == NoError ==> ArrivedNotWritten(t.sessions, e))
            && (s.write.error != NoError ==> Inv(t, settings))
  {
    var last := s.sessions[|s.sessions| - 1];
    WrittenChangeLast(s.sessions, last.(arrived := last.arrived + [e]));
    assert s.sessions[|s.sessions| - 1 := last] == s.sessions;
    WrittenChangeLast(s.sessions, last);
  }

  lemma OpenKeeps(s: State, openable: nat, e: Event, settings: Settings)
    requires s.active && s.write.error == NoError && s.write.filenames != [] && Distinct(s.write.filenames)
    requires SetsOk(s, settings) && TotalOk(s.write, |Written(s.sessions)|, settings)
    requires s.write.eventsWritten < AtLeastOne(settings.maxPerFile) && ArrivedNotWritten(s.sessions, e)
    requires s.streams == [] || (s.streams == s.write.filenames && !s.resuming)
    requires s.sets != [] && s.sets[|s.sets| - 1].names == s.write.filenames
    requires |s.sets[|s.sets| - 1].events| <= s.write.eventsWritten
    requires if s.streams != [] || s.resuming then Holds(s.files, s.write.filenames, s.sets[|s.sets| - 1].events)
             else s.sets[|s.sets| - 1].events == []
    ensures var t := OpenStreams(s, openable);
            if t.write.error == NoError then Ready(t, e, settings) else Inv(t, settings)
  {
    hide Events, Written;
  }

  /** From an arriving event to the open files. */
  lemma OpeningKeepsInv(s: State, a: Action, settings: Settings)
    requires Inv(s, settings) && s.active && a.Receive? && !Empty(a.event) && Generated(s, a, settings)
    requires s.write.error == NoError && (s.write.filenames == [] ==> a.result.error == NoError)
    ensures var e := a.event.value;
            var s2 := Generate(TakeChannels(Arrive(s, e), e), a.result);
            var s3 := OpenStreams(s2, a.openable);
            && s2.write.error == NoError && s2.write.filenames != [] && s2.sets != []
            && (s2.resuming ==> Holds(s2.files, s2.write.filenames, s2.sets[|s2.sets| - 1].events))
            && if s3.write.error == NoError then Ready(s3, e, settings) else Inv(s3, settings)
  {
    hide Events, Written, OpenFiles, WriteEvent, Outcome;
    var e := a.event.value;
    ArriveKeeps(s, e, settings);
    if s.write.filenames == [] {
      OutcomePromised(a.call, s.write.filenum, a.round, a.result);
      NamesNotEmpty(a.call, s.write.filenum, a.round, a.result);
      NewSet(s.sets, a.result.filenames);
    }
    OpenKeeps(Generate(TakeChannels(Arrive(s, e), e), a.result), a.openable, e, settings);
  }

  lemma EventKeepsInv(s: State, a: Action, settings: Settings)
    requires Inv(s, settings) && s.active && a.Receive? && !Empty(a.event) && Generated(s, a, settings)
    ensures Inv(StepEvent(s, a.event.value, a.result, a.openable, settings), settings)
  {
    hide Events, Written, OpenFiles, WriteEvent, Outcome, OpenStreams, Flush, Rotate;
    var e := a.event.value;
    ArriveKeeps(s, e, settings);
    if s.write.error == NoError {
      if s.write.filenames == [] && a.result.error != NoError {
        OutcomePromised(a.call, s.write.filenum, a.round, a.result);
      } else {
        OpeningKeepsInv(s, a, settings);
        var s3 := OpenStreams(Generate(TakeChannels(Arrive(s, e), e), a.result), a.openable);
        if s3.write.error == NoError {
          WriteKeepsInv(s3, e, settings);
        }
      }
    }
  }

  lemma NamesNotEmpty(call: Call, f: nat, round: nat, r: Result)
    requires Outcome(call, f, round, r) && forall g :: call.names(g) != []
    ensures r.error == NoError ==> r.filenames != []
  {
  }

  // --- whole runs ---

  lemma InitialInv(files: Files, settings: Settings)
    ensures Inv(Initial(files), settings)
  {
  }

  lemma {:induction false} RunKeepsInv(s: State, actions: seq<Action>, settings: Settings)
    requires Inv(s, settings) && Possible(s, actions, settings)
    ensures Inv(Run(s, actions, settings), settings)
  {
    hide Inv, Generated, StepEvent, StepStart, StepStop;
    if actions != [] {
      var front, a := actions[..|actions| - 1], actions[|actions| - 1];
      RunKeepsInv(s, front, settings);
      var t := Run(s, front, settings);
      match a
      case Start(run) =>
        if !t.active {
          StartKeepsInv(t, run, settings);
        }
      case Stop(atLoopTest) =>
        if t.active {
          StopKeepsInv(t, atLoopTest, settings);
        }
      case Receive(e, _, _, _, _) =>
        if t.active && !Empty(e) {
          EventKeepsInv(t, a, settings);
        }
    }
  }

  /** Over any sequence of starts, stops, run changes and payloads: the events written are, session by session, the
      first non-empty events of the session, and all of them as long as it has no error; they go in order to one file
      set after another, of which none receives more than the limit; and their number stays within the total limit. */
  lemma WriterKeepsPromises(files: Files, actions: seq<Action>, settings: Settings)
    requires Possible(Initial(files), actions, settings)
    ensures var s := Run(Initial(files), actions, settings);
            && (forall i :: 0 <= i < |s.sessions| ==> s.sessions[i].written <= s.sessions[i].arrived)
            && (s.active && s.write.error == NoError ==>
                  s.sessions != [] && var last := s.sessions[|s.sessions| - 1]; last.written == last.arrived)
            && Events(s.sets) == Written(s.sessions)
            && (forall i :: 0 <= i < |s.sets| ==> |s.sets[i].events| <= AtLeastOne(settings.maxPerFile))
            && s.write.total == |Written(s.sessions)| <= AtLeastOne(settings.maxTotal)
  {
    InitialInv(files, settings);
    RunKeepsInv(Initial(files), actions, settings);
  }

  /** The current file set has pairwise different names, one open stream per name or none, and its files hold exactly
      its events, also while writing is paused and after it is resumed. */
  lemma CurrentFilesHoldTheirEvents(files: Files, actions: seq<Action>, settings: Settings)
    requires Possible(Initial(files), actions, settings)
    ensures var s := Run(Initial(files), actions, settings);
            && Distinct(s.write.filenames) && (s.streams == [] || s.streams == s.write.filenames)
            && (s.write.filenames != [] ==>
                  && s.sets != [] && s.sets[|s.sets| - 1].names == s.write.filenames
                  && Holds(s.files, s.write.filenames, s.sets[|s.sets| - 1].events))
  {
    InitialInv(files, settings);
    RunKeepsInv(Initial(files), actions, settings);
  }

  /** Once the total limit is reached nothing is written any more, in no later session and no later run. */
  lemma {:induction false} LimitIsFinal(s: State, actions: seq<Action>, settings: Settings)
    requires s.write.error == MaxTotalReached && (s.active ==> s.sessions != [])
    ensures var t := Run(s, actions, settings);
            && t.write.error == MaxTotalReached && t.write.total == s.write.total && (t.active ==> t.sessions != [])
            && Written(t.sessions) == Written(s.sessions) && t.sets == s.sets
  {
    hide Written;
    if actions != [] {
      var front := actions[..|actions| - 1];
      LimitIsFinal(s, front, settings);
      LimitStays(Run(s, front, settings), actions[|actions| - 1], settings);
    }
  }

  lemma LimitStays(s: State, a: Action, settings: Settings)
    requires s.write.error == MaxTotalReached && (s.active ==> s.sessions != [])
    ensures var t := Step(s, a, settings);
            && t.write.error == MaxTotalReached && t.write.total == s.write.total && (t.active ==> t.sessions != [])
            && Written(t.sessions) == Written(s.sessions) && t.sets == s.sets
  {
    if a.Receive? && s.active && !Empty(a.event) {
      var last := s.sessions[|s.sessions| - 1];
      WrittenChangeLast(s.sessions, last.(arrived := last.arrived + [a.event.value]));
      assert s.sessions[|s.sessions| - 1 := last] == s.sessions;
      WrittenChangeLast(s.sessions, last);
    } else if a.Start? && !s.active {
      assert (s.sessions + [Session([], [])])[..|s.sessions|] == s.sessions;
    }
  }

  /** After an error nothing more is written until the next start, although the warning about files that cannot be
      opened announces that the output goes on with the next files. */
  lemma {:induction false} ErrorLastsUntilStart(s: State, actions: seq<Action>, settings: Settings)
    requires s.active && s.write.error != NoError && s.sessions != []
    requires forall a <- actions :: a.Receive?
    ensures var t := Run(s, actions, settings);
            && t.active && t.write == s.write && t.sets == s.sets && t.files == s.files && t.sessions != []
            && Written(t.sessions) == Written(s.sessions)
  {
    hide Written;
    if actions != [] {
      var front, a := actions[..|actions| - 1], actions[|actions| - 1];
      assert forall b <- front :: b in actions;
      ErrorLastsUntilStart(s, front, settings);
      var t := Run(s, front, settings);
      assert a in actions && a.Receive?;
      if !Empty(a.event) {
        var last := t.sessions[|t.sessions| - 1];
        WrittenChangeLast(t.sessions, last.(arrived := last.arrived + [a.event.value]));
        assert t.sessions[|t.sessions| - 1 := last] == t.sessions;
        WrittenChangeLast(t.sessions, last);
      }
    }
  }

  /** An arriving event is written exactly if there is no error yet, the name generator accepts if names are needed, and
      all files can be opened if they are not open; otherwise it is lost for good. */
  lemma WrittenIff(s: State, a: Action, settings: Settings)
    requires Inv(s, settings) && s.active && a.Receive? && !Empty(a.event) && Generated(s, a, settings)
    ensures var t, names := Step(s, a, settings),
                if s.write.filenames == [] then a.result.filenames else s.write.filenames;
            if s.write.error == NoError && (s.write.filenames == [] ==> a.result.error == NoError)
               && (s.streams == [] ==> a.openable >= |names|)
            then Written(t.sessions) == Written(s.sessions) + [a.event.value]
            else Written(t.sessions) == Written(s.sessions)
  {
    hide Written, Events, OpenFiles, WriteEvent, Outcome;
    var e := a.event.value;
    ArriveKeeps(s, e, settings);
    if s.write.error == NoError {
      if s.write.filenames == [] {
        OutcomePromised(a.call, s.write.filenum, a.round, a.result);
        NamesNotEmpty(a.call, s.write.filenum, a.round, a.result);
      }
      var s2 := Generate(TakeChannels(Arrive(s, e), e), a.result);
      if s2.write.error == NoError {
        var s3 := OpenStreams(s2, a.openable);
        if s3.write.error == NoError {
          FlushWrites(s3, e);
        }
      }
    }
  }

  lemma FlushWrites(s: State, e: Event)
    requires s.sets != [] && s.sessions != []
    ensures Written(Flush(s, e).sessions) == Written(s.sessions) + [e]
  {
    hide WriteEvent;
    var last := s.sessions[|s.sessions| - 1];
    WrittenChangeLast(s.sessions, last.(written := last.written + [e]));
    Assoc(Written(s.sessions[..|s.sessions| - 1]), last.written, [e]);
  }

  // --- examples of runs ---

  ghost predicate Leads(s: State, t: State, settings: Settings) {
    exists actions :: Possible(s, actions, settings) && Run(s, actions, settings) == t
  }

  /** With an empty file system at the beginning. */
  ghost predicate Reaches(s: State, settings: Settings) {
    Leads(Initial(map[]), s, settings)
  }

  lemma StepLeads(s: State, t: State, a: Action, settings: Settings)
    requires Leads(s, t, settings) && Generated(t, a, settings)
    ensures Leads(s, Step(t, a, settings), settings)
  {
    hide Step, Generated;
    var actions :| Possible(s, actions, settings) && Run(s, actions, settings) == t;
    assert (actions + [a])[..|actions|] == actions;
    assert Run(s, actions + [a], settings) == Step(t, a, settings);
    assert Possible(s, actions + [a], settings);
  }

  lemma LeadsToItself(s: State, settings: Settings)
    ensures Leads(s, s, settings)
  {
    assert Run(s, [], settings) == s;
  }

  /** One name for each file number. */
  function NameOf(f: nat): Name {
    if f == 0 then "a" else "b"
  }

  function ExampleCall(settings: Settings, existing: set<Name>): Call {
    Call((f: nat) => [NameOf(f)], settings.modulus, existing, settings.conflicts, [])
  }

  /** The reception of an event when the name generator accepts the first name. */
  function Taken(s: State, e: Event, openable: nat, settings: Settings): Action {
    Receive(Some(e), ExampleCall(settings, s.files.Keys), 0,
            Result([NameOf(s.write.filenum)], NoError, Next(s.write.filenum, settings.modulus)), openable)
  }

  lemma TakenGenerated(s: State, e: Event, openable: nat, settings: Settings)
    requires settings.conflicts == Overwrite || NameOf(s.write.filenum) !in s.files
    ensures Generated(s, Taken(s, e, openable, settings), settings)
  {
    var call := ExampleCall(settings, s.files.Keys);
    var names := call.names(Nth(s.write.filenum, 0, call.modulus));
    assert names == [NameOf(s.write.filenum)];
    assert Nth(s.write.filenum, 1, call.modulus) == Next(s.write.filenum, settings.modulus);
  }

  /** The warning about files that cannot be opened is wrong: the second event of this session meets no obstacle of its
      own and is lost. */
  lemma OpenFailureLosesNextEvent(e: Event, d: Event, settings: Settings)
    requires e.channels != [] && d.channels != []
    ensures exists s :: Reaches(s, settings) && s.active && s.sessions == [Session([e, d], [])]
              && s.write.error == NotOpened
  {
    hide Leads, Generated;
    var s0 := Initial(map[]);
    LeadsToItself(s0, settings);
    NoNamesNeeded(s0, Start(0), settings);
    StepLeads(s0, s0, Start(0), settings);
    var s1 := Step(s0, Start(0), settings);
    TakenGenerated(s1, e, 0, settings);
    StepLeads(s0, s1, Taken(s1, e, 0, settings), settings);
    var s2 := Step(s1, Taken(s1, e, 0, settings), settings);
    assert [] + [e] == [e] && [e] + [d] == [e, d];
    assert s2.write.error == NotOpened && s2.sessions == [Session([e], [])];
    NoNamesNeeded(s2, Taken(s2, d, 1, settings), settings);
    StepLeads(s0, s2, Taken(s2, d, 1, settings), settings);
    assert Step(s2, Taken(s2, d, 1, settings), settings).sessions == [Session([e, d], [])];
  }

  lemma NoNamesNeeded(s: State, a: Action, settings: Settings)
    requires !a.Receive? || s.write.error != NoError || s.write.filenames != []
    ensures Generated(s, a, settings)
  {
  }

  // --- a flaw of trimming: the file number goes back without a file to delete ---

  function IdleRounds(s: State, rounds: nat, settings: Settings): State {
    if rounds == 0 then s
    else StepStop(StepStart(IdleRounds(s, rounds - 1, settings), s.write.run, settings), false, settings)
  }

  /** After a trimmed session with an incomplete file set, every further start and stop without an event takes the file
      number back by one, although there is nothing left to delete. */
  lemma {:induction false} IdleRoundsRewind(s: State, rounds: nat, settings: Settings)
    requires settings.whenStopped == CloseAndTrim && s.write.filenames == []
    requires 0 < s.write.eventsWritten < settings.maxPerFile
    ensures var t := IdleRounds(s, rounds, settings);
            && t.write.filenum == (if rounds <= s.write.filenum then s.write.filenum - rounds else 0)
            && t.write.filenames == [] && t.write.eventsWritten == s.write.eventsWritten && t.write.run == s.write.run
            && t.files == s.files
  {
    if rounds > 0 {
      IdleRoundsRewind(s, rounds - 1, settings);
      var t := IdleRounds(s, rounds - 1, settings);
      assert Without(t.files, []) == t.files;
    }
  }

  /** An idle session leaves the file number as it is exactly if writing is only paused, or no event was written to the
      last file set, or, when trimming, there is no incomplete set or the number is 0 already. */
  lemma IdleRoundIff(s: State, settings: Settings)
    requires s.write.filenames == []
    ensures var t := StepStop(StepStart(s, s.write.run, settings), false, settings);
            t.write.filenum == s.write.filenum <==>
            match settings.whenStopped
            case Pause => true
            case CloseFiles => s.write.eventsWritten == 0 || (settings.modulus == 1 && s.write.filenum == 0)
            case CloseAndTrim => !(0 < s.write.eventsWritten < settings.maxPerFile) || s.write.filenum == 0
  {
  }

  ghost predicate TrimAndOverwrite(settings: Settings) {
    && settings.whenStopped == CloseAndTrim && settings.conflicts == Overwrite
    && settings.maxPerFile == 2 && settings.maxTotal >= 10 && settings.modulus >= 10
  }

  /** The first set of files is full and closed. */
  function Full(e: seq<Event>): State
    requires |e| == 4
  {
    State(WriteState(0, 1, 0, 2, [], e[0].channels, NoError), map["a" := [e[0], e[1]]], true, [], false,
          [FileSet(["a"], [e[0], e[1]])], [Session([e[0], e[1]], [e[0], e[1]])])
  }

  /** A third event went to the second set, which was deleted at a stop, and a new session is under way. */
  function Trimmed(e: seq<Event>): State
    requires |e| == 4
  {
    var written := [e[0], e[1], e[2]];
    Full(e).(write := WriteState(0, 1, 1, 3, [], e[0].channels, NoError),
             sets := [FileSet(["a"], [e[0], e[1]]), FileSet(["b"], [e[2]])],
             sessions := [Session(written, written), Session([], [])])
  }

  lemma FullReached(e: seq<Event>, settings: Settings)
    requires TrimAndOverwrite(settings) && |e| == 4 && forall d <- e :: d.channels != []
    ensures Reaches(Full(e), settings)
  {
    hide Leads, Generated;
    var s0 := Initial(map[]);
    LeadsToItself(s0, settings);
    NoNamesNeeded(s0, Start(0), settings);
    StepLeads(s0, s0, Start(0), settings);
    var s1 := Step(s0, Start(0), settings);
    TakenGenerated(s1, e[0], 1, settings);
    StepLeads(s0, s1, Taken(s1, e[0], 1, settings), settings);
    var s2 := State(WriteState(0, 1, 1, 1, ["a"], e[0].channels, NoError), map["a" := [e[0]]], true, ["a"], false,
                    [FileSet(["a"], [e[0]])], [Session([e[0]], [e[0]])]);
    FirstWrite(e, settings);
    NoNamesNeeded(s2, Taken(s2, e[1], 1, settings), settings);
    StepLeads(s0, s2, Taken(s2, e[1], 1, settings), settings);
    SecondWrite(e, settings);
  }

  lemma FirstWrite(e: seq<Event>, settings: Settings)
    requires TrimAndOverwrite(settings) && |e| == 4 && e[0].channels != []
    ensures var s1 := Step(Initial(map[]), Start(0), settings);
            Step(s1, Taken(s1, e[0], 1, settings), settings)
            == State(WriteState(0, 1, 1, 1, ["a"], e[0].channels, NoError), map["a" := [e[0]]], true, ["a"], false,
                     [FileSet(["a"], [e[0]])], [Session([e[0]], [e[0]])])
  {
    assert [] + [e[0]] == [e[0]];
    OneFile(map[], "a", e[0]);
  }

  lemma SecondWrite(e: seq<Event>, settings: Settings)
    requires TrimAndOverwrite(settings) && |e| == 4 && e[1].channels != [] && e[0].channels != []
    ensures var s2 := State(WriteState(0, 1, 1, 1, ["a"], e[0].channels, NoError), map["a" := [e[0]]], true,
                            ["a"], false,
                            [FileSet(["a"], [e[0]])], [Session([e[0]], [e[0]])]);
            Step(s2, Taken(s2, e[1], 1, settings), settings) == Full(e)
  {
    assert [e[0]] + [e[1]] == [e[0], e[1]];
    assert WriteEvent(map["a" := [e[0]]], ["a"], e[1]) == map["a" := [e[0], e[1]]];
  }

  /** A set opened afresh holds the event. */
  lemma OneFile(files: Files, n: Name, e: Event)
    ensures WriteEvent(OpenFiles(files, [n], false), [n], e) == files[n := [e]]
    ensures OpenFiles(files, [n], false) == files[n := []]
  {
    assert [] + [e] == [e];
    assert OpenFiles(files, [n], false) == files[n := []];
  }

  lemma TrimmedReached(e: seq<Event>, settings: Settings)
    requires TrimAndOverwrite(settings) && |e| == 4 && forall d <- e :: d.channels != []
    ensures Leads(Full(e), Trimmed(e), settings)
  {
    hide Leads, Generated;
    var s3 := Full(e);
    LeadsToItself(s3, settings);
    TakenGenerated(s3, e[2], 1, settings);
    StepLeads(s3, s3, Taken(s3, e[2], 1, settings), settings);
    var s4 := ThirdWrite(e, settings);
    NoNamesNeeded(s4, Stop(false), settings);
    StepLeads(s3, s4, Stop(false), settings);
    var s5 := Step(s4, Stop(false), settings);
    NoNamesNeeded(s5, Start(0), settings);
    StepLeads(s3, s5, Start(0), settings);
    assert s5.files == map["a" := [e[0], e[1]]];
    assert Step(s5, Start(0), settings) == Trimmed(e);
  }

  lemma ThirdWrite(e: seq<Event>, settings: Settings) returns (s: State)
    requires TrimAndOverwrite(settings) && |e| == 4 && e[2].channels != [] && e[0].channels != []
    ensures s == Step(Full(e), Taken(Full(e), e[2], 1, settings), settings)
    ensures var written := [e[0], e[1], e[2]];
            s == State(WriteState(0, 2, 1, 3, ["b"], e[0].channels, NoError), map["a" := [e[0], e[1]], "b" := [e[2]]],
                       true, ["b"], false, [FileSet(["a"], [e[0], e[1]]), FileSet(["b"], [e[2]])],
                       [Session(written, written)])
  {
    s := Step(Full(e), Taken(Full(e), e[2], 1, settings), settings);
    assert [e[0], e[1]] + [e[2]] == [e[0], e[1], e[2]] && [] + [e[2]] == [e[2]];
    OneFile(Full(e).files, "b", e[2]);
  }

  /** Trimming and overwriting destroy a complete file set: a run fills the set with number 0, a later stop deletes an
      incomplete set with number 1, an idle session takes the number back once more, and the next event replaces the
      full set. */
  lemma FullSetIsReplaced(e: seq<Event>, settings: Settings)
    requires TrimAndOverwrite(settings) && |e| == 4 && forall d <- e :: d.channels != []
    ensures exists s, t :: Reaches(s, settings) && Leads(s, t, settings)
              && s.sets == [FileSet(["a"], [e[0], e[1]])] && s.files == map["a" := [e[0], e[1]]]
              && s.write.filenames == []
              && |s.sets| <= |t.sets| && t.sets[0] == s.sets[0] && "a" in t.files && t.files["a"] == [e[3]]
  {
    hide Leads, Generated;
    FullReached(e, settings);
    TrimmedReached(e, settings);
    var s3, s6 := Full(e), Trimmed(e);
    NoNamesNeeded(s6, Stop(false), settings);
    StepLeads(s3, s6, Stop(false), settings);
    var s7 := Step(s6, Stop(false), settings);
    NoNamesNeeded(s7, Start(0), settings);
    StepLeads(s3, s7, Start(0), settings);
    var s8 := Step(s7, Start(0), settings);
    assert Without(s6.files, []) == s6.files;
    TakenGenerated(s8, e[3], 1, settings);
    StepLeads(s3, s8, Taken(s8, e[3], 1, settings), settings);
    OneFile(s8.files, "a", e[3]);
    LastWrite(s8, e[3], settings);
  }

  lemma LastWrite(s: State, e: Event, settings: Settings)
    requires s.active && s.write.error == NoError && s.write.filenames == s.streams == [] && !s.resuming
    requires s.sessions != [] && s.sets != [] && s.write.filenum == 0 && e.channels != []
    ensures var t := Step(s, Taken(s, e, 1, settings), settings);
            |s.sets| <= |t.sets| && t.sets[0] == s.sets[0] && "a" in t.files && t.files["a"] == [e]
  {
    hide OpenFiles, WriteEvent, Rotate;
    OneFile(s.files, "a", e);
    var a := Taken(s, e, 1, settings);
    assert a.result.filenames == ["a"];
    var s2 := Generate(TakeChannels(Arrive(s, e), e), a.result);
    var s3 := OpenStreams(s2, 1);
    assert s3.streams == ["a"] && s3.files == OpenFiles(s.files, ["a"], false)
      && s3.sets == s.sets + [FileSet(["a"], [])];
    var s4 := Flush(s3, e);
    assert s4.files == WriteEvent(s3.files, ["a"], e) && s4.sets[0] == s.sets[0];
    RotateKeepsFiles(s4, settings);
  }

  lemma RotateKeepsFiles(s: State, settings: Settings)
    ensures Rotate(s, settings).files == s.files && Rotate(s, settings).sets == s.sets
  {
  }

  /** After an event was written, the set is closed exactly if it has its share or the total limit is reached; then the
      count begins again, or writing has come to its end. */
  lemma SetClosesIff(s: State, e: Event, openable: nat, settings: Settings)
    requires s.write.error == NoError && s.write.filenames != [] && s.sets != [] && s.sessions != []
    requires s.streams == [] || s.streams == s.write.filenames
    requires s.streams == [] ==> openable >= |s.write.filenames|
    ensures var t := WriteToFiles(s, e, openable, settings);
            var full, end := s.write.eventsWritten + 1 >= settings.maxPerFile, s.write.total + 1 >= settings.maxTotal;
            && (t.write.filenames == [] <==> full || end) && (t.streams == [] <==> full || end)
            && t.write.eventsWritten == (if full then 0 else s.write.eventsWritten + 1)
            && t.write.total == s.write.total + 1 && t.write.filenum == s.write.filenum
            && t.write.error == (if end then MaxTotalReached else NoError)
  {
    hide OpenFiles, WriteEvent;
    var t := OpenStreams(s, openable);
    assert t.streams == s.write.filenames == t.write.filenames && t.write.error == NoError;
  }

  // --- the file numbers ---

  /** The action makes the writer look for new file names. */
  predicate Searches(s: State, a: Action) {
    a.Receive? && !Empty(a.event) && s.active && s.write.error == NoError && s.write.filenames == []
  }

  /** The number at which a search ended. */
  function NumberOf(s: State, a: Action): nat
    requires a.Receive?
  {
    s.write.filenum + a.round
  }

  /** The action does not take the counter to its end, starts no other run, and trims nothing. */
  predicate Advances(s: State, a: Action, settings: Settings) {
    && settings.whenStopped != CloseAndTrim
    && (a.Start? && !s.active ==> a.run == s.write.run)
    && s.write.filenum + (if a.Receive? then a.round else 0) + 1 < settings.modulus
  }

  lemma {:induction false} NthFollows(f: nat, j: nat, modulus: Positive)
    requires f + j < modulus
    ensures Nth(f, j, modulus) == f + j
  {
    if j > 0 {
      NthFollows(f, j - 1, modulus);
    }
  }

  /** What one action does to the number from which the next search starts. */
  lemma NumberAfter(s: State, a: Action, settings: Settings)
    requires Generated(s, a, settings) && Advances(s, a, settings)
    ensures var t := Step(s, a, settings);
            if Searches(s, a) then t.write.filenum == NumberOf(s, a) + 1
            else if a.Stop? && s.active && !a.atLoopTest && settings.whenStopped == CloseFiles
                    && s.write.eventsWritten > 0
            then t.write.filenum == s.write.filenum + 1
            else t.write.filenum == s.write.filenum
  {
    if Searches(s, a) {
      NumberKept(s, a, settings);
      NthFollows(s.write.filenum, a.round + 1, settings.modulus);
    } else if a.Receive? {
      NumberKept(s, a, settings);
    }
  }

  lemma NumberKept(s: State, a: Action, settings: Settings)
    requires a.Receive?
    ensures Step(s, a, settings).write.filenum == if Searches(s, a) then a.result.filenum else s.write.filenum
  {
    hide OpenFiles, WriteEvent;
    if s.active && !Empty(a.event) {
      var t := TakeChannels(Arrive(s, a.event.value), a.event.value);
      assert t.write.filenum == s.write.filenum && t.write.filenames == s.write.filenames;
      WritingKeepsNumber(Generate(t, a.result), a.event.value, a.openable, settings);
      hide Generate, WriteToFiles;
    }
  }

  lemma WritingKeepsNumber(s: State, e: Event, openable: nat, settings: Settings)
    ensures WriteToFiles(s, e, openable, settings).write.filenum == s.write.filenum
  {
    hide OpenFiles, WriteEvent;
    var t := OpenStreams(s, openable);
    assert t.write.filenum == s.write.filenum;
    assert Flush(t, e).write.filenum == t.write.filenum;
    assert Rotate(Flush(t, e), settings).write.filenum == Flush(t, e).write.filenum;
  }

  ghost predicate AdvancingRun(s: State, actions: seq<Action>, settings: Settings) {
    forall k :: 0 <= k < |actions| ==> Advances(Run(s, actions[..k], settings), actions[k], settings)
  }

  /** A set that is named gets the names of its number. */
  lemma NamedAt(s: State, a: Action, settings: Settings)
    requires Generated(s, a, settings) && Advances(s, a, settings) && Searches(s, a) && a.result.error == NoError
    ensures a.result.filenames == a.call.names(NumberOf(s, a))
  {
    NthFollows(s.write.filenum, a.round, settings.modulus);
  }

  lemma {:induction false} NumberStays(s: State, actions: seq<Action>, settings: Settings)
    requires Possible(s, actions, settings) && AdvancingRun(s, actions, settings)
    ensures Run(s, actions, settings).write.filenum >= s.write.filenum
  {
    hide Step, Generated, Advances;
    if actions != [] {
      var n := |actions| - 1;
      var front := actions[..n];
      FrontAdvances(s, actions, settings);
      NumberStays(s, front, settings);
      NumberAfter(Run(s, front, settings), actions[n], settings);
    }
  }

  lemma FrontAdvances(s: State, actions: seq<Action>, settings: Settings)
    requires AdvancingRun(s, actions, settings) && actions != []
    ensures AdvancingRun(s, actions[..|actions| - 1], settings)
    ensures Advances(Run(s, actions[..|actions| - 1], settings), actions[|actions| - 1], settings)
  {
    hide Advances, Run;
    var n := |actions| - 1;
    forall k | 0 <= k < n ensures Advances(Run(s, actions[..n][..k], settings), actions[..n][k], settings) {
      assert actions[..n][..k] == actions[..k];
    }
  }

  /** Within a run, and until the counter wraps around, a file number is never used twice unless sets are trimmed: every
      later search starts above every number at which an earlier one ended, whatever pauses, stops and starts come
      between. */
  lemma {:induction false} NumbersGrow(s: State, actions: seq<Action>, i: nat, settings: Settings)
    requires Possible(s, actions, settings) && AdvancingRun(s, actions, settings)
    requires i < |actions| && Searches(Run(s, actions[..i], settings), actions[i])
    ensures Run(s, actions, settings).write.filenum > NumberOf(Run(s, actions[..i], settings), actions[i])
    decreases |actions|
  {
    hide Step, Generated, Advances, Empty;
    var n := |actions| - 1;
    FrontAdvances(s, actions, settings);
    NumberAfter(Run(s, actions[..n], settings), actions[n], settings);
    assert actions[..n][..i] == actions[..i];
    if i < n {
      NumbersGrow(s, actions[..n], i, settings);
    }
  }

  /** What a stop leaves behind under each policy: the file number goes on by one, modulo the number of file
      numbers, when a set with events is closed, and back by one when it is trimmed; only trimming deletes, and only
      an incomplete set. The loop test applies no policy. */
  lemma StopOutcome(s: State, atLoopTest: bool, settings: Settings)
    requires s.active && s.write.filenum < settings.modulus
    ensures var t, policy := Step(s, Stop(atLoopTest), settings), settings.whenStopped;
            var written, kept := s.write.eventsWritten, atLoopTest || policy == Pause;
            var trims := !kept && policy == CloseAndTrim && 0 < written < settings.maxPerFile;
            && !t.active && t.streams == [] && !t.resuming && t.sets == s.sets && t.sessions == s.sessions
            && t.write == s.write.(filenum := t.write.filenum, filenames := t.write.filenames)
            && t.write.filenames == (if kept then s.write.filenames else [])
            && (kept ==> t.write.filenum == s.write.filenum)
            && (!kept && policy == CloseFiles ==>
                  t.write.filenum == (s.write.filenum + (if written > 0 then 1 else 0)) % settings.modulus)
            && (!kept && policy == CloseAndTrim ==>
                  t.write.filenum + (if trims && s.write.filenum > 0 then 1 else 0) == s.write.filenum)
            && (forall n :: n in t.files <==> n in s.files && !(trims && n in s.write.filenames))
            && forall n <- t.files :: t.files[n] == s.files[n]
  {
  }

  /** A new run starts from number 0, with no event in its set, no names and no channels, and with the error only if
      it is the final one. */
  lemma NewRunStarts(s: State, run: nat, settings: Settings)
    requires !s.active
    ensures var t := Step(s, Start(run), settings);
            && t.active && t.streams == [] && t.write.run == run && t.write.total == s.write.total
            && t.sets == s.sets && t.sessions == s.sessions + [Session([], [])]
            && t.write.error == (if s.write.error == MaxTotalReached then MaxTotalReached else NoError)
            && (run != s.write.run ==>
                  && t.write.filenum == 0 && t.write.eventsWritten == 0 && t.write.filenames == []
                  && t.write.channels == []
                  && forall n :: n in t.files <==>
                       n in s.files && !(settings.whenFinished == ClearLast && n in s.write.filenames))
            && (run == s.write.run ==>
                  && t.write.filenum == s.write.filenum && t.write.eventsWritten == s.write.eventsWritten
                  && t.write.filenames == s.write.filenames && t.write.channels == s.write.channels
                  && t.files == s.files)
            && forall n <- t.files :: t.files[n] == s.files[n]
  {
  }

  // --- complete file sets are kept ---

  // What became of a set of files: still in use, closed because it was full, closed otherwise, deleted by one of the
  // policies, or never opened in full.
  datatype Fate = Current | Rotated | Ended | Deleted | Failed

  predicate Live(fate: Fate) {
    !fate.Deleted? && !fate.Failed?
  }

  /** The set in use, if there is one, meets its fate. */
  function Close(fates: seq<Fate>, names: seq<Name>, fate: Fate): seq<Fate> {
    if fates == [] || names == [] then fates else fates[|fates| - 1 := fate]
  }

  function FatesAfterStop(s: State, fates: seq<Fate>, settings: Settings): seq<Fate> {
    match settings.whenStopped
    case Pause => fates
    case CloseFiles => Close(fates, s.write.filenames, Ended)
    case CloseAndTrim =>
      Close(fates, s.write.filenames, if 0 < s.write.eventsWritten < settings.maxPerFile then Deleted else Ended)
  }

  function FatesAfterRotate(s: State, fates: seq<Fate>, settings: Settings): seq<Fate> {
    if s.write.eventsWritten >= settings.maxPerFile then Close(fates, s.write.filenames, Rotated)
    else if s.write.total >= settings.maxTotal then Close(fates, s.write.filenames, Ended)
    else fates
  }

  /** The fates after an event for which the writer had no error. */
  function FatesAfterEvent(s: State, e: Event, r: Result, openable: nat, fates: seq<Fate>,
                           settings: Settings): seq<Fate> {
    var s2 := Generate(s, r);
    var fates2 := if s.write.filenames == [] && r.error == NoError then fates + [Current] else fates;
    var s3 := OpenStreams(s2, openable);
    if s2.write.error != NoError then fates2
    else if s3.write.error != NoError then Close(fates2, s2.write.filenames, if s2.resuming then Ended else Failed)
    else FatesAfterRotate(Flush(s3, e), fates2, settings)
  }

  function FatesAfter(s: State, a: Action, fates: seq<Fate>, settings: Settings): seq<Fate> {
    match a
    case Start(run) =>
      if s.active || run == s.write.run then fates
      else Close(fates, s.write.filenames, if settings.whenFinished == ClearLast then Deleted else Ended)
    case Stop(atLoopTest) => if !s.active || atLoopTest then fates else FatesAfterStop(s, fates, settings)
    case Receive(e, _, _, r, openable) =>
      if !s.active || Empty(e) || s.write.error != NoError then fates
      else FatesAfterEvent(TakeChannels(Arrive(s, e.value), e.value), e.value, r, openable, fates, settings)
  }

  /** The fates of the sets of a run, in order. */
  function Fates(s: State, actions: seq<Action>, settings: Settings): seq<Fate> {
    if actions == [] then []
    else
      var front := actions[..|actions| - 1];
      FatesAfter(Run(s, front, settings), actions[|actions| - 1], Fates(s, front, settings), settings)
  }

  /** The first `n` sets, unless deleted or never opened, have their files, which hold exactly their events. */
  ghost predicate KeptUpTo(files: Files, sets: seq<FileSet>, fates: seq<Fate>, n: nat) {
    && n <= |sets| && n <= |fates|
    && forall i :: 0 <= i < n && Live(fates[i]) ==> sets[i].names != [] && Holds(files, sets[i].names, sets[i].events)
  }

  /** Sets that still have their files have no name in common. */
  ghost predicate Separate(sets: seq<FileSet>, fates: seq<Fate>) {
    && |sets| == |fates|
    && forall i, j :: 0 <= i < j < |sets| && Live(fates[i]) && Live(fates[j]) ==> NoCommon(sets[i].names, sets[j].names)
  }

  ghost predicate LastIsCurrent(sets: seq<FileSet>, fates: seq<Fate>, names: seq<Name>) {
    names != [] ==>
      && sets != [] && |sets| == |fates|
      && fates[|fates| - 1] == Current && sets[|sets| - 1].names == names
  }

  ghost predicate KeptInv(s: State, fates: seq<Fate>) {
    && Separate(s.sets, fates) && KeptUpTo(s.files, s.sets, fates, |s.sets|)
    && LastIsCurrent(s.sets, fates, s.write.filenames)
  }

  /** New names are not those of a set that still has its files. */
  ghost predicate Careful(s: State, a: Action, fates: seq<Fate>) {
    && a.Receive? && !Empty(a.event) && s.active && s.write.error == NoError && s.write.filenames == []
    && a.result.error == NoError ==>
      Avoids(s.sets, fates, a.result.filenames)
  }

  ghost predicate Avoids(sets: seq<FileSet>, fates: seq<Fate>, names: seq<Name>) {
    forall i :: 0 <= i < |sets| && i < |fates| && Live(fates[i]) ==> NoCommon(sets[i].names, names)
  }

  ghost predicate SameElsewhere(files: Files, files': Files, names: seq<Name>) {
    forall n :: n in files && n !in names ==> n in files' && files'[n] == files[n]
  }

  /** Changes to other names leave the sets as they are. */
  lemma Persist(files: Files, files': Files, sets: seq<FileSet>, fates: seq<Fate>, n: nat, names: seq<Name>)
    requires KeptUpTo(files, sets, fates, n) && SameElsewhere(files, files', names)
    requires forall i :: 0 <= i < n && Live(fates[i]) ==> NoCommon(sets[i].names, names)
    ensures KeptUpTo(files', sets, fates, n)
  {
  }

  lemma CloseKeeps(files: Files, files': Files, sets: seq<FileSet>, fates: seq<Fate>, names: seq<Name>, fate: Fate)
    requires Separate(sets, fates) && KeptUpTo(files, sets, fates, |sets|) && LastIsCurrent(sets, fates, names)
    requires SameElsewhere(files, files', names) && (names == [] || !Live(fate) || files' == files)
    ensures Separate(sets, Close(fates, names, fate)) && KeptUpTo(files', sets, Close(fates, names, fate), |sets|)
  {
    if names == [] {
      Persist(files, files', sets, fates, |sets|, names);
    } else if !Live(fate) {
      var n := |sets| - 1;
      assert KeptUpTo(files, sets, fates, n);
      Persist(files, files', sets, fates, n, names);
    }
  }

  lemma WithoutElsewhere(files: Files, names: seq<Name>)
    ensures SameElsewhere(files, Without(files, names), names) && (names == [] ==> Without(files, names) == files)
    ensures SameElsewhere(files, files, names)
  {
  }

  lemma StartKeepsSets(s: State, run: nat, fates: seq<Fate>, settings: Settings)
    requires KeptInv(s, fates) && !s.active
    ensures KeptInv(StepStart(s, run, settings), FatesAfter(s, Start(run), fates, settings))
  {
    hide Without, SameElsewhere, KeptUpTo, Separate;
    var names := s.write.filenames;
    WithoutElsewhere(s.files, names);
    if run != s.write.run {
      if settings.whenFinished == ClearLast {
        CloseKeeps(s.files, Without(s.files, names), s.sets, fates, names, Deleted);
      } else {
        CloseKeeps(s.files, s.files, s.sets, fates, names, Ended);
      }
    }
  }

  lemma StopKeepsSets(s: State, atLoopTest: bool, fates: seq<Fate>, settings: Settings)
    requires KeptInv(s, fates) && s.active
    ensures KeptInv(StepStop(s, atLoopTest, settings), FatesAfter(s, Stop(atLoopTest), fates, settings))
  {
    hide Without, SameElsewhere, KeptUpTo, Separate;
    var names := s.write.filenames;
    WithoutElsewhere(s.files, names);
    CloseKeeps(s.files, s.files, s.sets, fates, names, Ended);
    CloseKeeps(s.files, Without(s.files, names), s.sets, fates, names, Deleted);
  }

  // The stages of an event: all sets but the last one are kept, and the last one has the current names.
  ghost predicate KeptBut(s: State, fates: seq<Fate>) {
    && Separate(s.sets, fates) && s.sets != [] && KeptUpTo(s.files, s.sets, fates, |s.sets| - 1)
    && s.write.filenames != [] && LastIsCurrent(s.sets, fates, s.write.filenames)
  }

  lemma NewSetSeparate(sets: seq<FileSet>, fates: seq<Fate>, names: seq<Name>)
    requires Separate(sets, fates) && Avoids(sets, fates, names)
    ensures Separate(sets + [FileSet(names, [])], fates + [Current])
  {
  }

  lemma MoreSets(files: Files, sets: seq<FileSet>, fates: seq<Fate>, set': FileSet, fate: Fate)
    requires KeptUpTo(files, sets, fates, |sets|) && |sets| == |fates|
    ensures KeptUpTo(files, sets + [set'], fates + [fate], |sets|)
  {
  }

  lemma GenerateKeepsSets(s: State, r: Result, fates: seq<Fate>)
    requires KeptInv(s, fates)
    requires s.write.filenames == [] ==> r.error == NoError && r.filenames != [] && Avoids(s.sets, fates, r.filenames)
    ensures KeptBut(Generate(s, r), if s.write.filenames == [] then fates + [Current] else fates)
  {
    if s.write.filenames == [] {
      NewSetSeparate(s.sets, fates, r.filenames);
      MoreSets(s.files, s.sets, fates, FileSet(r.filenames, []), Current);
    }
  }

  lemma OpenElsewhere(files: Files, names: seq<Name>, n: nat, append: bool, e: Event)
    requires n <= |names|
    ensures SameElsewhere(files, OpenFiles(files, names[..n], append), names)
    ensures SameElsewhere(files, WriteEvent(files, names, e), names)
  {
  }

  lemma FrontPersists(s: State, fates: seq<Fate>, files: Files)
    requires KeptBut(s, fates) && SameElsewhere(s.files, files, s.write.filenames)
    ensures KeptUpTo(files, s.sets, fates, |s.sets| - 1)
  {
    Persist(s.files, files, s.sets, fates, |s.sets| - 1, s.write.filenames);
  }

  lemma OpenKeepsSets(s: State, openable: nat, fates: seq<Fate>)
    requires KeptBut(s, fates) && s.write.error == NoError
    requires s.streams == [] || s.streams == s.write.filenames
    ensures var t := OpenStreams(s, openable);
            t.write.error == NoError ==> KeptBut(t, fates) && t.streams == t.write.filenames
  {
    hide OpenFiles, SameElsewhere, KeptUpTo, Separate;
    var names := s.write.filenames;
    assert names[..|names|] == names;
    OpenElsewhere(s.files, names, |names|, s.resuming, Event(0, []));
    if s.streams == [] && openable >= |names| {
      FrontPersists(s, fates, OpenFiles(s.files, names, s.resuming));
    }
  }

  /** If the files cannot be opened, those of a paused set are still as they were. */
  lemma OpenFailureKeepsSets(s: State, openable: nat, fates: seq<Fate>)
    requires KeptBut(s, fates) && s.streams == [] && openable < |s.write.filenames|
    requires s.resuming ==> Holds(s.files, s.write.filenames, s.sets[|s.sets| - 1].events)
    ensures KeptInv(OpenStreams(s, openable), Close(fates, s.write.filenames, if s.resuming then Ended else Failed))
  {
    hide SameElsewhere, KeptUpTo, Separate, OpenFiles, Holds;
    var names := s.write.filenames;
    var files := OpenFiles(s.files, names[..openable], s.resuming);
    OpenElsewhere(s.files, names, openable, s.resuming, Event(0, []));
    FrontPersists(s, fates, files);
    if s.resuming {
      ReopenHolds(s.files, names, openable, s.sets[|s.sets| - 1].events);
    }
    CloseLast(files, s.sets, fates, names, if s.resuming then Ended else Failed);
  }

  /** Opening files to append to them does not change them. */
  lemma ReopenHolds(files: Files, names: seq<Name>, n: nat, events: seq<Event>)
    requires n <= |names| && Holds(files, names, events)
    ensures Holds(OpenFiles(files, names[..n], true), names, events)
  {
    assert forall m <- names[..n] :: m in names;
  }

  lemma CloseLast(files: Files, sets: seq<FileSet>, fates: seq<Fate>, names: seq<Name>, fate: Fate)
    requires Separate(sets, fates) && sets != [] && KeptUpTo(files, sets, fates, |sets| - 1)
    requires names != [] && LastIsCurrent(sets, fates, names)
    requires Live(fate) ==> Holds(files, names, sets[|sets| - 1].events)
    ensures Separate(sets, Close(fates, names, fate)) && KeptUpTo(files, sets, Close(fates, names, fate), |sets|)
  {
  }

  lemma FlushKeepsSets(s: State, e: Event, fates: seq<Fate>, settings: Settings)
    requires Ready(s, e, settings) && KeptBut(s, fates)
    ensures KeptInv(Flush(s, e), fates)
  {
    hide WriteEvent, Written, Events, SameElsewhere, SetsOk, TotalOk;
    FlushKeeps(s, e, settings);
    var t := Flush(s, e);
    OpenElsewhere(s.files, s.streams, 0, false, e);
    FrontPersists(s, fates, t.files);
    assert t.sets[..|s.sets| - 1] == s.sets[..|s.sets| - 1];
  }

  lemma RotateKeepsSets(s: State, fates: seq<Fate>, settings: Settings)
    requires KeptInv(s, fates)
    ensures KeptInv(Rotate(s, settings), FatesAfterRotate(s, fates, settings))
  {
    hide SameElsewhere, KeptUpTo, Separate;
    WithoutElsewhere(s.files, s.write.filenames);
    CloseKeeps(s.files, s.files, s.sets, fates, s.write.filenames, Rotated);
    CloseKeeps(s.files, s.files, s.sets, fates, s.write.filenames, Ended);
  }

  lemma EventKeepsSets(s: State, a: Action, fates: seq<Fate>, settings: Settings)
    requires Inv(s, settings) && KeptInv(s, fates) && s.active && a.Receive? && !Empty(a.event)
    requires Generated(s, a, settings) && Careful(s, a, fates)
    ensures KeptInv(Step(s, a, settings), FatesAfter(s, a, fates, settings))
  {
    hide Inv, KeptUpTo, Separate, LastIsCurrent, Outcome, Ready, OpenStreams, Flush, Rotate, Generate, FatesAfterRotate;
    var e := a.event.value;
    ArrivalKeepsSets(s, e, fates);
    if s.write.error == NoError {
      var s1 := TakeChannels(Arrive(s, e), e);
      if s.write.filenames == [] && a.result.error != NoError {
        NoSet(s1, a, s.write.filenum, fates);
      } else {
        OpeningKeepsInv(s, a, settings);
        AcceptedNames(s, a, settings);
        GenerateKeepsSets(s1, a.result, fates);
        var fates2 := if s.write.filenames == [] then fates + [Current] else fates;
        StreamsOfNames(s, a, settings);
        OpenedSets(Generate(s1, a.result), e, a.openable, fates2, settings);
      }
    }
  }

  lemma ArrivalKeepsSets(s: State, e: Event, fates: seq<Fate>)
    requires KeptInv(s, fates)
    ensures KeptInv(Arrive(s, e), fates) && KeptInv(TakeChannels(Arrive(s, e), e), fates)
    ensures var t := TakeChannels(Arrive(s, e), e);
            t.write == s.write.(channels := t.write.channels) && t.sets == s.sets && Arrive(s, e).write == s.write
  {
  }

  lemma NoSet(s: State, a: Action, filenum: nat, fates: seq<Fate>)
    requires KeptInv(s, fates) && s.write.filenames == [] && a.Receive? && a.result.error != NoError
    requires Outcome(a.call, filenum, a.round, a.result)
    ensures KeptInv(Generate(s, a.result), fates) && Generate(s, a.result).write.error != NoError
  {
    OutcomePromised(a.call, filenum, a.round, a.result);
  }

  lemma AcceptedNames(s: State, a: Action, settings: Settings)
    requires Generated(s, a, settings) && a.Receive? && !Empty(a.event) && s.active && s.write.error == NoError
    ensures s.write.filenames == [] && a.result.error == NoError ==> a.result.filenames != []
  {
    if s.write.filenames == [] {
      NamesNotEmpty(a.call, s.write.filenum, a.round, a.result);
    }
  }

  lemma StreamsOfNames(s: State, a: Action, settings: Settings)
    requires Inv(s, settings) && s.active && a.Receive? && !Empty(a.event)
    ensures var e := a.event.value;
            var t := Generate(TakeChannels(Arrive(s, e), e), a.result);
            t.streams == [] || t.streams == t.write.filenames
  {
  }

  lemma OpenedSets(s: State, e: Event, openable: nat, fates: seq<Fate>, settings: Settings)
    requires KeptBut(s, fates) && s.write.error == NoError && (s.streams == [] || s.streams == s.write.filenames)
    requires s.resuming ==> Holds(s.files, s.write.filenames, s.sets[|s.sets| - 1].events)
    requires var t := OpenStreams(s, openable); t.write.error == NoError ==> Ready(t, e, settings)
    ensures var t := OpenStreams(s, openable);
            if t.write.error != NoError
            then KeptInv(t, Close(fates, s.write.filenames, if s.resuming then Ended else Failed))
            else KeptInv(Rotate(Flush(t, e), settings), FatesAfterRotate(Flush(t, e), fates, settings))
  {
    hide KeptUpTo, Separate, LastIsCurrent, Ready, Flush, Rotate, FatesAfterRotate, OpenFiles;
    var t := OpenStreams(s, openable);
    OpenKeepsSets(s, openable, fates);
    if t.write.error == NoError {
      FlushKeepsSets(t, e, fates, settings);
      RotateKeepsSets(Flush(t, e), fates, settings);
    } else {
      OpenFailureKeepsSets(s, openable, fates);
    }
  }

  lemma StepKeepsSets(s: State, a: Action, fates: seq<Fate>, settings: Settings)
    requires Inv(s, settings) && KeptInv(s, fates) && Generated(s, a, settings) && Careful(s, a, fates)
    ensures KeptInv(Step(s, a, settings), FatesAfter(s, a, fates, settings))
  {
    hide Inv, KeptInv, StepStart, StepStop, StepEvent, Generated, Careful, FatesAfterStop, FatesAfterEvent;
    match a
    case Start(run) =>
      if !s.active {
        StartKeepsSets(s, run, fates, settings);
      }
    case Stop(atLoopTest) =>
      if s.active {
        StopKeepsSets(s, atLoopTest, fates, settings);
      }
    case Receive(e, _, _, _, _) =>
      if s.active && !Empty(e) {
        EventKeepsSets(s, a, fates, settings);
      }
  }

  /** Every name generation of the run was careful. */
  ghost predicate CarefulRun(s: State, actions: seq<Action>, settings: Settings) {
    actions == [] ||
    var front := actions[..|actions| - 1];
    CarefulRun(s, front, settings)
    && Careful(Run(s, front, settings), actions[|actions| - 1], Fates(s, front, settings))
  }

  lemma {:induction false} RunKeepsSets(files: Files, actions: seq<Action>, settings: Settings)
    requires Possible(Initial(files), actions, settings) && CarefulRun(Initial(files), actions, settings)
    ensures KeptInv(Run(Initial(files), actions, settings), Fates(Initial(files), actions, settings))
  {
    hide Inv, KeptInv, Generated, Careful, Step, FatesAfter;
    if actions == [] {
      NoSetsKept(files);
    } else {
      var front, last := actions[..|actions| - 1], actions[|actions| - 1];
      RunKeepsSets(files, front, settings);
      InitialInv(files, settings);
      RunKeepsInv(Initial(files), front, settings);
      StepKeepsSets(Run(Initial(files), front, settings), last, Fates(Initial(files), front, settings), settings);
    }
  }

  lemma NoSetsKept(files: Files)
    ensures KeptInv(Initial(files), [])
  {
  }

  /** Without overwriting, new names never meet those of a set that still has its files. */
  lemma CarefulWithoutOverwriting(s: State, a: Action, fates: seq<Fate>, settings: Settings)
    requires KeptInv(s, fates) && Generated(s, a, settings) && settings.conflicts != Overwrite
    ensures Careful(s, a, fates)
  {
    if a.Receive? && !Empty(a.event) && s.active && s.write.error == NoError && s.write.filenames == []
       && a.result.error == NoError {
      OutcomePromised(a.call, s.write.filenum, a.round, a.result);
      var names := a.result.filenames;
      assert !Exist(a.call, names);
      forall i | 0 <= i < |s.sets| && Live(fates[i]) ensures NoCommon(s.sets[i].names, names) {
        assert Holds(s.files, s.sets[i].names, s.sets[i].events);
      }
    }
  }

  lemma {:induction false} CarefulRunWithoutOverwriting(files: Files, actions: seq<Action>, settings: Settings)
    requires Possible(Initial(files), actions, settings) && settings.conflicts != Overwrite
    ensures CarefulRun(Initial(files), actions, settings)
  {
    hide Generated, Careful, Step, FatesAfter, KeptInv;
    if actions != [] {
      var front, last := actions[..|actions| - 1], actions[|actions| - 1];
      CarefulRunWithoutOverwriting(files, front, settings);
      RunKeepsSets(files, front, settings);
      CarefulWithoutOverwriting(Run(Initial(files), front, settings), last, Fates(Initial(files), front, settings),
                                settings);
    }
  }

  /** Unless files may be overwritten, every set of files that was closed because it was full, and every other one
      that was neither deleted by a policy nor failed to open, still has its files, holding exactly its events, whatever
      starts, stops and run changes come after. */
  lemma ClosedSetsAreKept(files: Files, actions: seq<Action>, settings: Settings)
    requires Possible(Initial(files), actions, settings) && settings.conflicts != Overwrite
    ensures var s, fates := Run(Initial(files), actions, settings), Fates(Initial(files), actions, settings);
            && |fates| == |s.sets|
            && forall i :: 0 <= i < |fates| && Live(fates[i]) ==> Holds(s.files, s.sets[i].names, s.sets[i].events)
  {
    CarefulRunWithoutOverwriting(files, actions, settings);
    RunKeepsSets(files, actions, settings);
  }

  /** Only incomplete sets are deleted or not opened, and the set in use is neither. */
  ghost predicate FullLive(sets: seq<FileSet>, fates: seq<Fate>, names: seq<Name>, share: nat) {
    && |fates| == |sets|
    && (forall i :: 0 <= i < |fates| && |sets[i].events| >= share ==> Live(fates[i]))
    && LastIsCurrent(sets, fates, names)
  }

  /** The set in use has not got its share yet. */
  ghost predicate LastNotFull(sets: seq<FileSet>, names: seq<Name>, share: nat) {
    names != [] ==> sets != [] && |sets[|sets| - 1].events| < share
  }

  lemma InvNotFull(s: State, settings: Settings)
    requires Inv(s, settings)
    ensures LastNotFull(s.sets, s.write.filenames, AtLeastOne(settings.maxPerFile))
  {
  }

  lemma CloseFullLive(sets: seq<FileSet>, fates: seq<Fate>, names: seq<Name>, fate: Fate, share: nat)
    requires FullLive(sets, fates, names, share) && (!Live(fate) ==> LastNotFull(sets, names, share))
    ensures FullLive(sets, Close(fates, names, fate), [], share)
  {
  }

  lemma GenerateFullLive(s: State, r: Result, fates: seq<Fate>, share: nat)
    requires FullLive(s.sets, fates, s.write.filenames, share) && LastNotFull(s.sets, s.write.filenames, share)
    requires share > 0
    requires s.write.filenames == [] && r.error != NoError ==> r.filenames == []
    ensures var t := Generate(s, r);
            var fates2 := if s.write.filenames == [] && r.error == NoError then fates + [Current] else fates;
            FullLive(t.sets, fates2, t.write.filenames, share) && LastNotFull(t.sets, t.write.filenames, share)
  {
  }

  lemma FlushFullLive(s: State, e: Event, fates: seq<Fate>, share: nat)
    requires FullLive(s.sets, fates, s.write.filenames, share) && s.write.filenames != []
    ensures var t := Flush(s, e); FullLive(t.sets, fates, t.write.filenames, share)
  {
    hide WriteEvent;
  }

  lemma RotateFullLive(s: State, fates: seq<Fate>, share: nat, settings: Settings)
    requires FullLive(s.sets, fates, s.write.filenames, share)
    ensures var t := Rotate(s, settings);
            FullLive(t.sets, FatesAfterRotate(s, fates, settings), t.write.filenames, share)
  {
    CloseFullLive(s.sets, fates, s.write.filenames, Rotated, share);
    CloseFullLive(s.sets, fates, s.write.filenames, Ended, share);
  }

  lemma EventFullLive(s: State, a: Action, fates: seq<Fate>, settings: Settings)
    requires Inv(s, settings) && Generated(s, a, settings) && s.active && a.Receive? && !Empty(a.event)
    requires FullLive(s.sets, fates, s.write.filenames, AtLeastOne(settings.maxPerFile))
    ensures var t := Step(s, a, settings);
            FullLive(t.sets, FatesAfter(s, a, fates, settings), t.write.filenames, AtLeastOne(settings.maxPerFile))
  {
    hide Inv, FullLive, LastNotFull, Outcome, Flush, Rotate, Generate, FatesAfterRotate, OpenFiles;
    var e, share := a.event.value, AtLeastOne(settings.maxPerFile);
    InvNotFull(s, settings);
    var s1 := TakeChannels(Arrive(s, e), e);
    assert s1.sets == s.sets && s1.write.filenames == s.write.filenames && s1.write.error == s.write.error;
    if s.write.error == NoError {
      if s.write.filenames == [] {
        OutcomePromised(a.call, s.write.filenum, a.round, a.result);
        AcceptedNames(s, a, settings);
      }
      GenerateFullLive(s1, a.result, fates, share);
      var fates2 := if s.write.filenames == [] && a.result.error == NoError then fates + [Current] else fates;
      var s2 := Generate(s1, a.result);
      if s2.write.error == NoError {
        NamesAfter(s1, a.result);
        OpenFullLive(s2, e, a.openable, fates2, share, settings);
      }
    }
  }

  lemma NamesAfter(s: State, r: Result)
    requires s.write.filenames == [] && r.error == NoError ==> r.filenames != []
    ensures var t := Generate(s, r); t.write.error == NoError && s.write.error == NoError ==> t.write.filenames != []
  {
  }

  lemma OpenFullLive(s: State, e: Event, openable: nat, fates: seq<Fate>, share: nat, settings: Settings)
    requires FullLive(s.sets, fates, s.write.filenames, share) && LastNotFull(s.sets, s.write.filenames, share)
    requires s.write.error == NoError && s.write.filenames != []
    ensures var t, u := OpenStreams(s, openable), WriteToFiles(s, e, openable, settings);
            if t.write.error != NoError
            then FullLive(u.sets, Close(fates, s.write.filenames, if s.resuming then Ended else Failed),
                          u.write.filenames, share)
            else FullLive(u.sets, FatesAfterRotate(Flush(t, e), fates, settings), u.write.filenames, share)
  {
    hide FullLive, LastNotFull, Flush, Rotate, FatesAfterRotate, OpenFiles;
    var t := OpenStreams(s, openable);
    assert t.sets == s.sets;
    CloseFullLive(s.sets, fates, s.write.filenames, if s.resuming then Ended else Failed, share);
    if t.write.error == NoError {
      assert t.write.filenames == s.write.filenames;
      FlushFullLive(t, e, fates, share);
      RotateFullLive(Flush(t, e), fates, share, settings);
    }
  }

  lemma StepFullLive(s: State, a: Action, fates: seq<Fate>, settings: Settings)
    requires Inv(s, settings) && Generated(s, a, settings)
    requires FullLive(s.sets, fates, s.write.filenames, AtLeastOne(settings.maxPerFile))
    ensures var t := Step(s, a, settings);
            FullLive(t.sets, FatesAfter(s, a, fates, settings), t.write.filenames, AtLeastOne(settings.maxPerFile))
  {
    hide Inv, FullLive, LastNotFull, Outcome, StepEvent, FatesAfterEvent, Generated;
    var share, names := AtLeastOne(settings.maxPerFile), s.write.filenames;
    InvNotFull(s, settings);
    match a
    case Start(run) =>
      CloseFullLive(s.sets, fates, names, if settings.whenFinished == ClearLast then Deleted else Ended, share);
    case Stop(atLoopTest) =>
      CloseFullLive(s.sets, fates, names, Ended, share);
      CloseFullLive(s.sets, fates, names, Deleted, share);
    case Receive(e, _, _, _, _) =>
      if s.active && !Empty(e) {
        EventFullLive(s, a, fates, settings);
      }
  }

  lemma {:induction false} RunFullLive(files: Files, actions: seq<Action>, settings: Settings)
    requires Possible(Initial(files), actions, settings)
    ensures var s, fates := Run(Initial(files), actions, settings), Fates(Initial(files), actions, settings);
            FullLive(s.sets, fates, s.write.filenames, AtLeastOne(settings.maxPerFile))
  {
    hide Inv, Generated, Step, FatesAfter;
    if actions != [] {
      var front, last := actions[..|actions| - 1], actions[|actions| - 1];
      RunFullLive(files, front, settings);
      InitialInv(files, settings);
      RunKeepsInv(Initial(files), front, settings);
      StepFullLive(Run(Initial(files), front, settings), last, Fates(Initial(files), front, settings), settings);
    }
  }

  /** Unless files may be overwritten, a set that got its full share of events keeps its files with exactly
      these events, under every policy for stops and ends of runs, and whatever starts, stops, runs and failures
      come after. */
  lemma FullSetsAreKept(files: Files, actions: seq<Action>, i: nat, settings: Settings)
    requires Possible(Initial(files), actions, settings) && settings.conflicts != Overwrite
    ensures var s := Run(Initial(files), actions, settings);
            i < |s.sets| && |s.sets[i].events| >= 1 && |s.sets[i].events| >= settings.maxPerFile ==>
              s.sets[i].names != [] && forall n <- s.sets[i].names :: n in s.files && s.files[n] == s.sets[i].events
  {
    hide FullLive, KeptInv;
    CarefulRunWithoutOverwriting(files, actions, settings);
    RunKeepsSets(files, actions, settings);
    RunFullLive(files, actions, settings);
    var s := Run(Initial(files), actions, settings);
    if i < |s.sets| && |s.sets[i].events| >= 1 && |s.sets[i].events| >= settings.maxPerFile {
      FullKept(s, Fates(Initial(files), actions, settings), i, AtLeastOne(settings.maxPerFile));
    }
  }

  lemma FullKept(s: State, fates: seq<Fate>, i: nat, share: nat)
    requires FullLive(s.sets, fates, s.write.filenames, share) && KeptInv(s, fates)
    requires i < |s.sets| && |s.sets[i].events| >= share
    ensures s.sets[i].names != [] && Holds(s.files, s.sets[i].names, s.sets[i].events)
  {
  }

  /** Nothing is ever deleted or left unopened: no policy deletes, and all the files of each set can be opened. */
  ghost predicate NothingDeleted(s: State, actions: seq<Action>, settings: Settings) {
    && settings.whenStopped != CloseAndTrim && settings.whenFinished != ClearLast
    && forall k :: 0 <= k < |actions| && actions[k].Receive? ==>
         && actions[k].openable >= |actions[k].result.filenames|
         && actions[k].openable >= |Run(s, actions[..k], settings).write.filenames|
  }

  lemma {:induction false} AllLive(s: State, actions: seq<Action>, settings: Settings)
    requires NothingDeleted(s, actions, settings)
    ensures forall f <- Fates(s, actions, settings) :: Live(f)
  {
    hide Run, Step, FatesAfter;
    if actions != [] {
      var n := |actions| - 1;
      var front := actions[..n];
      forall k | 0 <= k < n && front[k].Receive?
        ensures front[k].openable >= |front[k].result.filenames|
        ensures front[k].openable >= |Run(s, front[..k], settings).write.filenames|
      {
        assert front[..k] == actions[..k];
      }
      AllLive(s, front, settings);
      StepLive(Run(s, front, settings), actions[n], Fates(s, front, settings), settings);
    }
  }

  lemma StepLive(s: State, a: Action, fates: seq<Fate>, settings: Settings)
    requires settings.whenStopped != CloseAndTrim && settings.whenFinished != ClearLast
    requires a.Receive? ==> a.openable >= |a.result.filenames| && a.openable >= |s.write.filenames|
    requires forall f <- fates :: Live(f)
    ensures forall f <- FatesAfter(s, a, fates, settings) :: Live(f)
  {
    hide OpenFiles, Flush;
    if a.Receive? && s.active && !Empty(a.event) && s.write.error == NoError {
      var s1 := TakeChannels(Arrive(s, a.event.value), a.event.value);
      assert s1.write.filenames == s.write.filenames && s1.write.error == NoError;
      OpensAll(Generate(s1, a.result), a.openable);
    }
  }

  lemma OpensAll(s: State, openable: nat)
    requires openable >= |s.write.filenames|
    ensures OpenStreams(s, openable).write.error == s.write.error
  {
  }

  /** Without overwriting, deleting and failures to open, every set keeps its files with exactly its events. */
  lemma AllSetsAreKept(files: Files, actions: seq<Action>, i: nat, settings: Settings)
    requires Possible(Initial(files), actions, settings) && settings.conflicts != Overwrite
    requires NothingDeleted(Initial(files), actions, settings)
    ensures var s := Run(Initial(files), actions, settings);
            i < |s.sets| ==>
              s.sets[i].names != [] && forall n <- s.sets[i].names :: n in s.files && s.files[n] == s.sets[i].events
  {
    CarefulRunWithoutOverwriting(files, actions, settings);
    RunKeepsSets(files, actions, settings);
    AllLive(Initial(files), actions, settings);
  }

  /** With overwriting, this is exactly what an event in new files does: an earlier set whose files hold its events
      keeps them if and only if none of the new names is among its own, or its only event is the same one. */
  lemma OverwritesIff(s: State, a: Action, i: nat, settings: Settings)
    requires Inv(s, settings) && Generated(s, a, settings)
    requires s.active && a.Receive? && !Empty(a.event) && s.write.error == NoError && s.write.filenames == []
    requires a.result.error == NoError && a.openable >= |a.result.filenames|
    requires i < |s.sets| && Holds(s.files, s.sets[i].names, s.sets[i].events)
    ensures var t := Step(s, a, settings);
            Holds(t.files, s.sets[i].names, s.sets[i].events)
            <==> NoCommon(s.sets[i].names, a.result.filenames) || s.sets[i].events == [a.event.value]
  {
    var e, names := a.event.value, a.result.filenames;
    AcceptedNames(s, a, settings);
    NewFiles(s, a, settings);
    NewContents(s.files, names, e);
    hide Inv, Generated, Step, OpenFiles, WriteEvent;
    var files := Step(s, a, settings).files;
    if !NoCommon(s.sets[i].names, names) {
      var n :| n in s.sets[i].names && n in names;
      assert files[n] == [e];
    }
  }

  lemma NewFiles(s: State, a: Action, settings: Settings)
    requires Inv(s, settings) && Generated(s, a, settings)
    requires s.active && a.Receive? && !Empty(a.event) && s.write.error == NoError && s.write.filenames == []
    requires a.result.error == NoError && a.result.filenames != [] && a.openable >= |a.result.filenames|
    ensures Step(s, a, settings).files
         == WriteEvent(OpenFiles(s.files, a.result.filenames, false), a.result.filenames, a.event.value)
  {
    hide Events, Written, OpenFiles, WriteEvent, SetsOk, TotalOk;
    var e, names := a.event.value, a.result.filenames;
    var s2 := Generate(TakeChannels(Arrive(s, e), e), a.result);
    var s3 := OpenStreams(s2, a.openable);
    assert s3.streams == names && s3.files == OpenFiles(s.files, names, false) && s3.sets != [] && s3.sessions != [];
    var s4 := Flush(s3, e);
    assert s4.files == WriteEvent(s3.files, names, e);
    assert Step(s, a, settings) == Rotate(s4, settings);
  }

  lemma NewContents(files: Files, names: seq<Name>, e: Event)
    ensures var after := WriteEvent(OpenFiles(files, names, false), names, e);
            && (forall n <- names :: n in after && after[n] == [e])
            && forall n :: n in files && n !in names ==> n in after && after[n] == files[n]
  {
    assert [] + [e] == [e];
  }

  // --- the program ---

  class ChannelWriter {
    const settings: Settings
    var run: nat
    var filenum: nat
    var eventsWritten: nat
    var total: nat
    var filenames: seq<Name>
    var channels: seq<nat>
    var error: Error
    // The file system.
    var files: Files
    // The consumer thread.
    var active: bool
    var streams: seq<Name>
    var resuming: bool
    ghost var sets: seq<FileSet>
    ghost var sessions: seq<Session>

    ghost function View(): State
      reads this
    {
      State(WriteState(run, filenum, eventsWritten, total, filenames, channels, error), files, active, streams,
            resuming, sets, sessions)
    }

    ghost predicate Valid()
      reads this
    {
      Inv(View(), settings)
    }

    constructor (settings: Settings, files: Files)
      ensures Valid() && this.settings == settings && View() == Initial(files)
    {
      this.settings, this.files := settings, files;
      run, filenum, eventsWritten, total, filenames, channels, error := 0, 0, 0, 0, [], [], NoError;
      active, streams, resuming, sets, sessions := false, [], false, [], [];
    }

    /** Deletes the current files. */
    method RemoveFiles()
      modifies this`files
      ensures files == Without(old(files), filenames)
      ensures forall n :: n in files <==> n in old(files) && n !in filenames
      ensures forall n <- files :: files[n] == old(files)[n]
    {
      for i := 0 to |filenames|
        invariant files == Without(old(files), filenames[..i])
      {
        assert filenames[..i + 1] == filenames[..i] + [filenames[i]];
        files := files - {filenames[i]};
      }
      assert filenames[..|filenames|] == filenames;
    }

    method FinishRun()
      modifies this
      ensures View() == old(View()).(
                write := FinishedRun(old(View()).write),
                files := if settings.whenFinished == ClearLast then Without(old(files), old(filenames)) else old(files))
      ensures filenum == 0 && eventsWritten == 0 && filenames == [] && channels == []
    {
      filenum, eventsWritten := 0, 0;
      if filenames != [] && settings.whenFinished == ClearLast {
        RemoveFiles();
      }
      assert Without(files, []) == files;
      filenames, channels := [], [];
    }

    /** A new session of the writer, of the same run or of a new one. */
    method Start(newRun: nat)
      requires Valid() && !active
      modifies this
      ensures Valid() && View() == StepStart(old(View()), newRun, settings)
    {
      hide Inv, Without;
      StartKeepsInv(View(), newRun, settings);
      if run != newRun {
        FinishRun();
        run := newRun;
      }
      error := if error == MaxTotalReached then error else NoError;
      active, streams, resuming := true, [], filenames != [];
      sessions := sessions + [Session([], [])];
    }

    /** The call of the name generator for the names that the pattern gives at this moment. */
    function NamingCall(names: nat -> seq<Name>): Call
      reads this
    {
      Call(names, settings.modulus, files.Keys, settings.conflicts, [])
    }

    /** One payload. `names` are the file names that the pattern gives at this moment, and `openable` is how many of the
        files can be opened. If names are needed, the search for them has to end. */
    method Receive(event: Option<Event>, names: nat -> seq<Name>, openable: nat)
      requires Valid() && active && forall f :: names(f) != []
      requires !Empty(event) && error == NoError && filenames == [] ==> Terminates(NamingCall(names), filenum)
      modifies this
      ensures Valid()
      ensures exists a: Action :: a.Receive? && a.event == event && a.openable == openable
                                  && Generated(old(View()), a, settings) && View() == Step(old(View()), a, settings)
    {
      hide Outcome, Rotate, Flush, Generate, OpenStreams;
      ghost var before, call, r, round := View(), NamingCall(names), Result([], NoError, 0), 0;
      if event.Some? && event.value.channels != [] {
        var e := event.value;
        ghost var last := sessions[|sessions| - 1];
        sessions := sessions[|sessions| - 1 := last.(arrived := last.arrived + [e])];
        if error == NoError {
          r, round := Write(e, names, openable);
        }
      }
      ghost var a := Action.Receive(event, call, round, r, openable);
      assert Generated(before, a, settings) && View() == Step(before, a, settings);
      if !Empty(event) {
        EventKeepsInv(before, a, settings);
      }
    }

    /** Writes an event, opening the next files if necessary. */
    method Write(e: Event, names: nat -> seq<Name>, openable: nat) returns (ghost r: Result, ghost round: nat)
      requires active && error == NoError && sessions != [] && Distinct(filenames)
      requires (filenames != [] ==> sets != []) && (streams == [] || streams == filenames)
      requires forall f :: names(f) != []
      requires filenames == [] ==> Terminates(NamingCall(names), filenum)
      modifies this
      ensures View() == AfterArrival(old(View()), e, r, openable, settings)
      ensures old(filenames) == [] ==> Outcome(old(NamingCall(names)), old(filenum), round, r)
    {
      hide Outcome, WriteToFiles, Generate;
      if channels == [] {
        channels := e.channels;
      }
      r, round := GenerateNames(names);
      if error != NoError {
        return;
      }
      WriteNow(e, openable);
    }

    /** Writes an event to the current files. */
    method WriteNow(e: Event, openable: nat)
      requires error == NoError && sets != [] && sessions != [] && Distinct(filenames)
      requires streams == [] || streams == filenames
      modifies this
      ensures View() == WriteToFiles(old(View()), e, openable, settings)
    {
      hide OpenStreams, Flush;
      OpenStreamsKeeps(View(), openable);
      if streams == [] {
        OpenFilesInOrder(openable);
        if error != NoError {
          return;
        }
      }
      FlushEvent(e);
      if eventsWritten >= settings.maxPerFile {
        streams, filenames, eventsWritten := [], [], 0;
      }
      if total >= settings.maxTotal {
        error, streams, filenames := MaxTotalReached, [], [];
      }
    }

    /** Looks for the next file names if there are none. */
    method GenerateNames(names: nat -> seq<Name>) returns (ghost r: Result, ghost round: nat)
      requires Distinct(filenames) && (streams == [] || streams == filenames) && (filenames != [] ==> sets != [])
      requires error == NoError && forall f :: names(f) != []
      requires filenames == [] ==> Terminates(NamingCall(names), filenum)
      modifies this
      ensures View() == Generate(old(View()), r)
      ensures old(filenames) == [] ==> Outcome(old(NamingCall(names)), old(filenum), round, r)
      ensures Distinct(filenames) && (error == NoError ==> sets != [] && sessions == old(sessions))
      ensures streams == [] || streams == filenames
    {
      hide Outcome;
      r, round := Result([], NoError, 0), 0;
      if filenames == [] {
        var call, first := NamingCall(names), filenum;
        var next;
        next, round := NextFiles(call, filenum);
        NamesNotEmpty(call, first, round, next);
        OutcomePromised(call, first, round, next);
        r := next;
        filenames, error, filenum := next.filenames, next.error, next.filenum;
        if error == NoError {
          sets := sets + [FileSet(next.filenames, [])];
        }
      }
    }

    /** Opens the files of the current set one by one; the first one that cannot be opened is an error. */
    method OpenFilesInOrder(openable: nat)
      requires streams == [] && Distinct(filenames)
      modifies this
      ensures View() == OpenStreams(old(View()), openable)
    {
      hide OpenFiles;
      ghost var before := files;
      OpenNone(before, resuming);
      var names := filenames;
      for i := 0 to |names|
        invariant View() == old(View()).(files := OpenFiles(before, names[..i], resuming))
        invariant i <= openable
      {
        if i == openable {
          error, filenames, resuming := NotOpened, [], false;
          return;
        }
        var n := names[i];
        OpenOneMore(before, names, i, resuming);
        files := files[n := Opened(files, n, resuming)];
      }
      assert names[..|names|] == names;
      streams, resuming := names, false;
    }

    /** Writes the event to every open stream. */
    method FlushEvent(e: Event)
      requires sets != [] && sessions != [] && Distinct(streams)
      modifies this
      ensures View() == Flush(old(View()), e)
    {
      hide WriteEvent;
      ghost var before := files;
      WriteNone(before, e);
      var names := streams;
      for i := 0 to |names|
        invariant View() == old(View()).(files := WriteEvent(before, names[..i], e))
      {
        var n := names[i];
        WriteOneMore(before, names, i, e);
        files := files[n := Extended(files, n, e)];
      }
      assert names[..|names|] == names;
      eventsWritten, total := eventsWritten + 1, total + 1;
      ghost var lastSet, lastSession := sets[|sets| - 1], sessions[|sessions| - 1];
      sets := sets[|sets| - 1 := lastSet.(events := lastSet.events + [e])];
      sessions := sessions[|sessions| - 1 := lastSession.(written := lastSession.written + [e])];
    }

    /** The stop flag is seen; the streams are closed in any case. */
    method Stop(atLoopTest: bool)
      requires Valid() && active
      modifies this
      ensures Valid() && View() == StepStop(old(View()), atLoopTest, settings)
    {
      hide Inv, Without;
      StopKeepsInv(View(), atLoopTest, settings);
      active, streams, resuming := false, [], false;
      if atLoopTest {
        return;
      }
      match settings.whenStopped
      case Pause =>
      case CloseFiles =>
        filenames := [];
        if eventsWritten > 0 {
          filenum := Next(filenum, settings.modulus);
        }
      case CloseAndTrim =>
        if 0 < eventsWritten < settings.maxPerFile {
          RemoveFiles();
          if filenum > 0 {
            filenum := filenum - 1;
          }
        }
        filenames := [];
    }
  }

  lemma OpenStreamsKeeps(s: State, openable: nat)
    ensures var t := OpenStreams(s, openable);
            && t.sets == s.sets && t.sessions == s.sessions && (s.streams != [] ==> t == s)
            && (t.streams == s.streams || t.streams == s.write.filenames)
  {
  }

  lemma OpenNone(files: Files, append: bool)
    ensures OpenFiles(files, [], append) == files
  {
  }

  lemma OpenOneMore(files: Files, names: seq<Name>, i: nat, append: bool)
    requires i < |names| && Distinct(names)
    ensures var before, n := OpenFiles(files, names[..i], append), names[i];
            OpenFiles(files, names[..i + 1], append) == before[n := Opened(before, n, append)]
  {
    assert names[i] !in names[..i];
    assert names[..i + 1] == names[..i] + [names[i]];
    OpenLast(files, names[..i], names[i], append);
  }

  lemma OpenLast(files: Files, front: seq<Name>, n: Name, append: bool)
    ensures OpenFiles(files, front + [n], append) == OpenFiles(files, front, append)[n := Opened(files, n, append)]
  {
    hide Opened;
  }

  lemma WriteNone(files: Files, e: Event)
    ensures WriteEvent(files, [], e) == files
  {
  }

  lemma WriteOneMore(files: Files, names: seq<Name>, i: nat, e: Event)
    requires i < |names| && Distinct(names)
    ensures var before, n := WriteEvent(files, names[..i], e), names[i];
            WriteEvent(files, names[..i + 1], e) == before[n := Extended(before, n, e)]
  {
    assert names[i] !in names[..i];
    assert names[..i + 1] == names[..i] + [names[i]];
    WriteLast(files, names[..i], names[i], e);
  }

  lemma WriteLast(files: Files, front: seq<Name>, n: Name, e: Event)
    ensures WriteEvent(files, front + [n], e) == WriteEvent(files, front, e)[n := Extended(files, n, e)]
  {
    hide Extended;
  }
}
