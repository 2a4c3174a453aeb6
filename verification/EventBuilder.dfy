/** The event builder (`EventBuilderModule::runner`): a receive loop over n channels and a consumer thread share a map
    from sequence numbers to fragments and a bounded queue of completed sequence numbers. Every access to shared data
    is one step, and the steps of the two threads interleave freely. */
module EventBuilder {
  import opened Arithmetic
  import opened Sequences

  // A fragment as received: the channel it came from, the sequence number in its header, and all its bytes.
  datatype Fragment = Fragment(channel: nat, number: nat, bytes: seq<bv8>)

  // Where the consumer thread is; `Done` tells which number, if any, it had read and gave up when it returned.
  datatype Consumer =
    | Top
    | Reading
    | ReadFailed
    | Leaving(read: Option<nat>)
    | Building(number: nat)
    | Sending(out: seq<bv8>)
    | SendFailed(out: seq<bv8>)
    | Done(left: Option<nat>)

  // The receive loop: the last number of each channel and, as history, its first number and all fragments received.
  datatype Input = Input(prev: seq<nat>, first: seq<Option<nat>>, log: seq<Fragment>)

  datatype State = State(
    capacity: nat,
    run: bool,
    halted: bool,
    input: Input,
    events: map<nat, seq<Fragment>>,
    queue: seq<nat>,
    consumer: Consumer,
    // History: the numbers offered to the queue, those it took, those read from it, the numbers and fragments of the
    // events built, and the messages sent.
    offered: seq<nat>,
    accepted: seq<nat>,
    seen: seq<nat>,
    numbers: seq<nat>,
    built: seq<seq<Fragment>>,
    sent: seq<seq<bv8>>)

  datatype Action =
    | Receive(fragment: Fragment)
    | Consume(sendOk: bool)
    | Stop

  function Start(channels: nat, capacity: nat): State {
    State(capacity, true, false, Input(seq(channels, _ => 0), seq(channels, _ => None), []), map[], [], Top,
          [], [], [], [], [], [])
  }

  function Bytes(fragments: seq<Fragment>): seq<bv8> {
    if fragments == [] then [] else Bytes(fragments[..|fragments| - 1]) + fragments[|fragments| - 1].bytes
  }

  /** The test on the sequence number; failing it is fatal. */
  predicate InSequence(prev: nat, number: nat) {
    prev + 1 == number || number == 0
  }

  predicate Open(s: State, f: Fragment) {
    !s.halted && f.channel < |s.input.prev| == |s.input.first|
  }

  function Note(x: Input, f: Fragment): Input
    requires f.channel < |x.prev| == |x.first|
  {
    Input(x.prev[f.channel := f.number],
          x.first[f.channel := if x.first[f.channel].None? then Some(f.number) else x.first[f.channel]],
          x.log + [f])
  }

  function StepReceive(s: State, f: Fragment): State
    requires Open(s, f)
  {
    var k := f.number;
    if !InSequence(s.input.prev[f.channel], k) then s.(halted := true)
    else
      var fragments := (if k in s.events then s.events[k] else []) + [f];
      var t := s.(input := Note(s.input, f), events := s.events[k := fragments]);
      if |fragments| == |s.input.prev| then Offer(t, k) else t
  }

  /** `complete_seq.write(k)`, whose result nobody looks at. */
  function Offer(s: State, k: nat): State {
    if |s.queue| < s.capacity then
      s.(offered := s.offered + [k], accepted := s.accepted + [k], queue := s.queue + [k])
    else s.(offered := s.offered + [k])
  }

  function StepConsume(s: State, sendOk: bool): State {
    match s.consumer
    case Top => s.(consumer := if s.run || s.queue != [] then Reading else Done(None))
    case Reading =>
      if s.queue == [] then s.(consumer := ReadFailed)
      else s.(queue := s.queue[1..], seen := s.seen + [s.queue[0]], consumer := Leaving(Some(s.queue[0])))
    case ReadFailed => s.(consumer := if s.run then Reading else Leaving(None))
    case Leaving(read) =>
      s.(consumer := if !s.run then Done(read) else if read.Some? then Building(read.value) else Leaving(None))
    case Building(k) =>
      var fragments := if k in s.events then s.events[k] else [];
      s.(events := s.events - {k}, numbers := s.numbers + [k], built := s.built + [fragments],
         consumer := Sending(Bytes(fragments)))
    case Sending(out) =>
      if sendOk then s.(sent := s.sent + [out], consumer := Top) else s.(consumer := SendFailed(out))
    case SendFailed(out) => s.(consumer := if s.run then Sending(out) else Top)
    case Done(_) => s
  }

  function Step(s: State, a: Action): State {
    if s.halted then s
    else
      match a
      case Receive(f) => if Open(s, f) then StepReceive(s, f) else s
      case Consume(sendOk) => StepConsume(s, sendOk)
      case Stop => s.(run := false)
  }

  function Run(s: State, actions: seq<Action>): State {
    if actions == [] then s else Step(Run(s, actions[..|actions| - 1]), actions[|actions| - 1])
  }

  // --- what holds in every reachable state ---

  /** The fragments with number `k`, in the order received. */
  function Numbered(log: seq<Fragment>, k: nat): seq<Fragment> {
    if log == [] then []
    else
      var rest, f := Numbered(log[..|log| - 1], k), log[|log| - 1];
      if f.number == k then rest + [f] else rest
  }

  ghost function Channels(fragments: seq<Fragment>): set<nat> {
    set f | f in fragments :: f.channel
  }

  ghost function Range(n: nat): set<nat> {
    if n == 0 then {} else Range(n - 1) + {n - 1}
  }

  /** Channel `c` has delivered number `k`. */
  ghost predicate Has(x: Input, c: nat, k: nat)
    requires c < |x.prev| == |x.first|
  {
    x.first[c].Some? && x.first[c].value <= k <= x.prev[c]
  }

  ghost predicate Shape(x: Input) {
    && |x.prev| == |x.first|
    && forall c :: 0 <= c < |x.prev| ==>
         if x.first[c].None? then x.prev[c] == 0 else x.first[c].value <= 1 && x.first[c].value <= x.prev[c]
  }

  ghost predicate AllHave(x: Input, k: nat)
    requires |x.prev| == |x.first|
  {
    forall c :: 0 <= c < |x.prev| ==> Has(x, c, k)
  }

  /** The fragments received with one number come from different channels: those that have delivered it. */
  ghost predicate OnePerChannel(x: Input, k: nat)
    requires |x.prev| == |x.first|
  {
    var fs := Numbered(x.log, k);
    && |Channels(fs)| == |fs|
    && forall c: nat :: c in Channels(fs) <==> c < |x.prev| && Has(x, c, k)
  }

  ghost predicate LogOk(x: Input) {
    Shape(x) && forall k: nat :: OnePerChannel(x, k)
  }

  /** The map holds exactly what was received and has not been built into an event. */
  ghost predicate MapOk(log: seq<Fragment>, events: map<nat, seq<Fragment>>, numbers: seq<nat>) {
    && (forall k: nat :: k in events <==> Numbered(log, k) != [] && k !in numbers)
    && (forall k <- events :: events[k] == Numbered(log, k))
  }

  /** Each event consists of all fragments with its number, and every channel has delivered one. */
  ghost predicate BuiltOk(x: Input, numbers: seq<nat>, built: seq<seq<Fragment>>)
    requires |x.prev| == |x.first|
  {
    && |built| == |numbers|
    && forall i :: 0 <= i < |numbers| ==> built[i] == Numbered(x.log, numbers[i]) && AllHave(x, numbers[i])
  }

  ghost predicate Consecutive(ks: seq<nat>) {
    && (ks != [] ==> ks[0] <= 1)
    && forall i :: 0 <= i < |ks| ==> ks[i] == ks[0] + i
  }

  /** The numbers offered are those that every channel has delivered, in order. */
  ghost predicate OfferedOk(x: Input, offered: seq<nat>)
    requires |x.prev| == |x.first|
  {
    Consecutive(offered) && forall k: nat :: k in offered <==> x.prev != [] && AllHave(x, k)
  }

  ghost predicate Increasing(ks: seq<nat>) {
    forall i, j :: 0 <= i < j < |ks| ==> ks[i] < ks[j]
  }

  /** The queue took an increasing selection of the numbers offered, all of them if it was never full, and the consumer
      saw them in that order. */
  ghost predicate QueueOk(offered: seq<nat>, accepted: seq<nat>, seen: seq<nat>, queue: seq<nat>) {
    && accepted == seen + queue
    && Increasing(accepted)
    && (forall k <- accepted :: k in offered)
    && |accepted| <= |offered|
    && (|accepted| == |offered| ==> accepted == offered)
  }

  /** The events built are those whose numbers the consumer has read, except one it may be holding. */
  ghost predicate ConsumerOk(consumer: Consumer, run: bool, seen: seq<nat>, numbers: seq<nat>) {
    match consumer
    case Leaving(read) => if read.Some? then seen == numbers + [read.value] else seen == numbers && !run
    case Building(k) => seen == numbers + [k]
    case Done(left) => seen == numbers + (if left.Some? then [left.value] else [])
    case _ => seen == numbers
  }

  function Messages(built: seq<seq<Fragment>>): seq<seq<bv8>> {
    seq(|built|, i requires 0 <= i < |built| => Bytes(built[i]))
  }

  /** Every event built has been sent in order, except the one being sent, or the last one once a stop gave it up. */
  ghost predicate SentOk(consumer: Consumer, run: bool, built: seq<seq<Fragment>>, sent: seq<seq<bv8>>) {
    && sent <= Messages(built) && |built| <= |sent| + 1
    && match consumer
       case Sending(out) => sent + [out] == Messages(built)
       case SendFailed(out) => sent + [out] == Messages(built)
       case Building(_) => sent == Messages(built)
       case _ => run ==> sent == Messages(built)
  }

  ghost predicate Inv(s: State) {
    && LogOk(s.input)
    && MapOk(s.input.log, s.events, s.numbers)
    && BuiltOk(s.input, s.numbers, s.built)
    && OfferedOk(s.input, s.offered)
    && QueueOk(s.offered, s.accepted, s.seen, s.queue)
    && ConsumerOk(s.consumer, s.run, s.seen, s.numbers)
    && SentOk(s.consumer, s.run, s.built, s.sent)
  }

  // --- receiving ---

  /** The assumption on the data: sequence number 0 is at most the first number of a channel. */
  predicate ZeroOnlyFirst(x: Input, f: Fragment)
    requires f.channel < |x.first|
  {
    f.number == 0 ==> x.first[f.channel].None?
  }

  lemma {:induction false} RangeIs(n: nat)
    ensures |Range(n)| == n && forall c: nat :: c in Range(n) <==> c < n
  {
    if n > 0 {
      RangeIs(n - 1);
    }
  }

  lemma SubsetOfSameSize(a: set<nat>, b: set<nat>)
    requires a <= b && |a| == |b|
    ensures a == b
  {
    assert b == a + (b - a);
  }

  /** A number is complete by count exactly when every channel has delivered it. */
  lemma CompleteIff(x: Input, k: nat)
    requires Shape(x) && OnePerChannel(x, k)
    ensures |Numbered(x.log, k)| == |x.prev| <==> AllHave(x, k)
  {
    hide Numbered;
    RangeIs(|x.prev|);
    var cs := Channels(Numbered(x.log, k));
    assert cs <= Range(|x.prev|);
    if |cs| == |x.prev| {
      SubsetOfSameSize(cs, Range(|x.prev|));
    }
    if AllHave(x, k) {
      assert cs == Range(|x.prev|);
    }
  }

  lemma NumberedSnoc(log: seq<Fragment>, f: Fragment, k: nat)
    ensures Numbered(log + [f], k) == if f.number == k then Numbered(log, k) + [f] else Numbered(log, k)
  {
    assert (log + [f])[..|log|] == log;
  }

  /** `y` is `x` after a fragment in sequence that respects the assumption on number 0. */
  ghost predicate Noted(x: Input, f: Fragment, y: Input) {
    && Shape(x) && f.channel < |x.prev|
    && InSequence(x.prev[f.channel], f.number) && ZeroOnlyFirst(x, f) && y == Note(x, f)
  }

  /** Receiving adds exactly one delivered number. */
  lemma HasAfter(x: Input, f: Fragment, y: Input)
    requires Noted(x, f, y)
    ensures Shape(y) && |y.prev| == |x.prev| == |x.first| && !Has(x, f.channel, f.number)
    ensures forall c, k {:trigger Has(y, c, k)} ::
              0 <= c < |x.prev| ==> (Has(y, c, k) <==> Has(x, c, k) || (c == f.channel && k == f.number))
  {
  }

  lemma LogAfter(x: Input, f: Fragment, y: Input)
    requires Noted(x, f, y) && LogOk(x)
    ensures LogOk(y)
  {
    hide Numbered, Shape;
    HasAfter(x, f, y);
    forall k: nat ensures OnePerChannel(y, k) {
      assert OnePerChannel(x, k);
      NumberedSnoc(x.log, f, k);
      if k == f.number {
        assert Channels(Numbered(y.log, k)) == Channels(Numbered(x.log, k)) + {f.channel};
      }
    }
  }

  /** A number that has just been delivered is not that of an event already built. */
  lemma NotBuilt(x: Input, f: Fragment, y: Input, numbers: seq<nat>, built: seq<seq<Fragment>>)
    requires Noted(x, f, y) && BuiltOk(x, numbers, built)
    ensures f.number !in numbers
  {
    hide Numbered;
    HasAfter(x, f, y);
    forall i | 0 <= i < |numbers| ensures numbers[i] != f.number {
      assert AllHave(x, numbers[i]);
    }
  }

  lemma MapAfter(x: Input, f: Fragment, events: map<nat, seq<Fragment>>, numbers: seq<nat>)
    requires MapOk(x.log, events, numbers) && f.number !in numbers
    ensures MapOk(x.log + [f],
                  events[f.number := (if f.number in events then events[f.number] else []) + [f]], numbers)
  {
    hide Numbered;
    forall k: nat ensures Numbered(x.log + [f], k) ==
                          if f.number == k then Numbered(x.log, k) + [f] else Numbered(x.log, k)
    {
      NumberedSnoc(x.log, f, k);
    }
  }

  lemma BuiltAfter(x: Input, f: Fragment, y: Input, numbers: seq<nat>, built: seq<seq<Fragment>>)
    requires Noted(x, f, y) && BuiltOk(x, numbers, built)
    ensures BuiltOk(y, numbers, built)
  {
    hide Numbered;
    NotBuilt(x, f, y, numbers, built);
    HasAfter(x, f, y);
    forall i | 0 <= i < |numbers| ensures built[i] == Numbered(y.log, numbers[i]) && AllHave(y, numbers[i]) {
      NumberedSnoc(x.log, f, numbers[i]);
      assert AllHave(x, numbers[i]);
    }
  }

  lemma AllHaveAfter(x: Input, f: Fragment, y: Input, k: nat)
    requires Noted(x, f, y)
    ensures AllHave(x, k) <==> AllHave(y, k) && k != f.number
  {
    HasAfter(x, f, y);
    if AllHave(y, k) && k != f.number {
      forall c | 0 <= c < |x.prev| ensures Has(x, c, k) {
        assert Has(y, c, k);
      }
    }
  }

  lemma EarlierComplete(x: Input, f: Fragment, y: Input, k: nat)
    requires Noted(x, f, y) && AllHave(y, f.number) && 1 <= k == f.number - 1
    ensures AllHave(x, k)
  {
    HasAfter(x, f, y);
    forall c | 0 <= c < |x.prev| ensures Has(x, c, k) {
      assert Has(y, c, f.number);
    }
  }

  /** A newly complete number is the successor of the last complete one, or the first one and at most 1. */
  lemma NextComplete(x: Input, f: Fragment, y: Input, offered: seq<nat>)
    requires Noted(x, f, y) && AllHave(y, f.number) && OfferedOk(x, offered)
    ensures Consecutive(offered + [f.number])
  {
    HasAfter(x, f, y);
    var k := f.number;
    if offered == [] {
      if k >= 2 {
        EarlierComplete(x, f, y, k - 1);
        assert false;
      }
    } else {
      var last := offered[|offered| - 1];
      assert last in offered && AllHave(x, last) && Has(x, f.channel, last);
      forall j <- offered ensures j <= last {
        LastIsLargest(offered, j);
      }
      if k > last + 1 {
        EarlierComplete(x, f, y, k - 1);
        assert false;
      }
    }
  }

  lemma LastIsLargest(ks: seq<nat>, k: nat)
    requires Consecutive(ks) && k in ks
    ensures k <= ks[|ks| - 1] && (k in ks[..|ks| - 1] ==> k < ks[|ks| - 1])
  {
    assert ks[|ks| - 1] == ks[0] + (|ks| - 1);
  }

  lemma OfferedAfter(x: Input, f: Fragment, y: Input, offered: seq<nat>)
    requires Noted(x, f, y) && OfferedOk(x, offered)
    ensures OfferedOk(y, if AllHave(y, f.number) then offered + [f.number] else offered)
  {
    hide Consecutive, AllHave;
    HasAfter(x, f, y);
    if AllHave(y, f.number) {
      NextComplete(x, f, y, offered);
    }
    forall k: nat ensures AllHave(x, k) <==> AllHave(y, k) && k != f.number {
      AllHaveAfter(x, f, y, k);
    }
  }

  lemma QueueAfter(offered: seq<nat>, accepted: seq<nat>, seen: seq<nat>, queue: seq<nat>, k: nat)
    requires QueueOk(offered, accepted, seen, queue) && Consecutive(offered + [k])
    ensures QueueOk(offered + [k], accepted + [k], seen, queue + [k])
    ensures QueueOk(offered + [k], accepted, seen, queue)
  {
    Assoc(seen, queue, [k]);
    assert (offered + [k])[..|offered|] == offered;
    forall i | 0 <= i < |accepted| ensures accepted[i] < k {
      LastIsLargest(offered + [k], accepted[i]);
    }
  }

  lemma ReceiveKeepsInv(s: State, f: Fragment)
    requires Inv(s) && Open(s, f) && ZeroOnlyFirst(s.input, f)
    ensures Inv(StepReceive(s, f))
  {
    hide LogOk, MapOk, BuiltOk, OfferedOk, QueueOk, ConsumerOk, SentOk, Numbered, AllHave;
    if InSequence(s.input.prev[f.channel], f.number) {
      var x, y, k := s.input, Note(s.input, f), f.number;
      LogShape(x);
      LogAfter(x, f, y);
      NotBuilt(x, f, y, s.numbers, s.built);
      MapAfter(x, f, s.events, s.numbers);
      BuiltAfter(x, f, y, s.numbers, s.built);
      OfferedAfter(x, f, y, s.offered);
      CompleteAfter(x, f, y, s.events, s.numbers);
      if AllHave(y, k) {
        NextComplete(x, f, y, s.offered);
        QueueAfter(s.offered, s.accepted, s.seen, s.queue, k);
      }
    }
  }

  lemma LogShape(x: Input)
    requires LogOk(x)
    ensures Shape(x)
  {
  }

  /** The size test of the receive loop recognises complete numbers. */
  lemma CompleteAfter(x: Input, f: Fragment, y: Input, events: map<nat, seq<Fragment>>, numbers: seq<nat>)
    requires Noted(x, f, y) && LogOk(y) && MapOk(x.log, events, numbers) && f.number !in numbers
    ensures |(if f.number in events then events[f.number] else []) + [f]| == |x.prev| <==> AllHave(y, f.number)
  {
    hide Numbered;
    assert OnePerChannel(y, f.number);
    CompleteIff(y, f.number);
    NumberedSnoc(x.log, f, f.number);
  }

  // --- the consumer ---

  lemma BuildKeepsInv(s: State)
    requires Inv(s) && s.consumer.Building?
    ensures s.consumer.number in s.events
    ensures Inv(StepConsume(s, true)) && StepConsume(s, false) == StepConsume(s, true)
  {
    hide LogOk, SentOk, Numbered, AllHave;
    var k, t := s.consumer.number, StepConsume(s, true);
    LogShape(s.input);
    assert s.accepted[|s.numbers|] == k;
    assert k !in s.numbers by {
      forall i | 0 <= i < |s.numbers| ensures s.numbers[i] != k {
        assert s.accepted[i] == s.numbers[i];
      }
    }
    assert k in s.offered;
    CompleteNotEmpty(s.input, k);
    assert s.events[k] == Numbered(s.input.log, k);
    BuiltSent(s, s.events[k]);
  }

  lemma CompleteNotEmpty(x: Input, k: nat)
    requires LogOk(x) && x.prev != [] && AllHave(x, k)
    ensures Numbered(x.log, k) != []
  {
    hide Numbered;
    assert OnePerChannel(x, k) && Has(x, 0, k);
    assert 0 in Channels(Numbered(x.log, k));
  }

  lemma BuiltSent(s: State, fragments: seq<Fragment>)
    requires s.consumer.Building? && SentOk(s.consumer, s.run, s.built, s.sent)
    ensures SentOk(Sending(Bytes(fragments)), s.run, s.built + [fragments], s.sent)
  {
    assert Messages(s.built + [fragments]) == Messages(s.built) + [Bytes(fragments)];
  }

  lemma ConsumeKeepsInv(s: State, sendOk: bool)
    requires Inv(s)
    ensures Inv(StepConsume(s, sendOk))
  {
    hide LogOk, MapOk, BuiltOk, OfferedOk, Messages;
    if s.consumer.Building? {
      BuildKeepsInv(s);
    } else if s.consumer == Reading && s.queue != [] {
      assert s.seen + s.queue == s.seen + [s.queue[0]] + s.queue[1..];
    }
  }

  lemma StopKeepsInv(s: State)
    requires Inv(s)
    ensures Inv(s.(run := false)) && Inv(s.(halted := true))
  {
  }

  lemma StartInv(channels: nat, capacity: nat)
    ensures Inv(Start(channels, capacity))
  {
    var s := Start(channels, capacity);
    forall k: nat ensures OnePerChannel(s.input, k) {
    }
    forall k: nat ensures s.input.prev != [] ==> !AllHave(s.input, k) {
      if s.input.prev != [] {
        assert !Has(s.input, 0, k);
      }
    }
  }

  // --- whole runs ---

  /** The assumption on the data, on the inputs alone: number 0 never follows another fragment of the same channel. */
  ghost predicate Admissible(actions: seq<Action>) {
    forall i, j :: 0 <= i < j < |actions| && SameChannel(actions[i], actions[j]) ==> actions[j].fragment.number != 0
  }

  predicate SameChannel(a: Action, b: Action) {
    a.Receive? && b.Receive? && a.fragment.channel == b.fragment.channel
  }

  lemma {:induction false} FirstWasReceived(s: State, actions: seq<Action>, c: nat)
    requires forall d :: 0 <= d < |s.input.first| ==> s.input.first[d].None?
    ensures var t := Run(s, actions);
            c < |t.input.first| && t.input.first[c].Some? ==>
              exists i :: 0 <= i < |actions| && actions[i].Receive? && actions[i].fragment.channel == c
  {
    if actions != [] {
      FirstWasReceived(s, actions[..|actions| - 1], c);
      var t := Run(s, actions);
      if c < |t.input.first| && t.input.first[c].Some? {
        var u := Run(s, actions[..|actions| - 1]);
        if c < |u.input.first| && u.input.first[c].Some? {
          var i :| 0 <= i < |actions| - 1 && actions[..|actions| - 1][i].Receive?
                   && actions[..|actions| - 1][i].fragment.channel == c;
          assert actions[i].fragment.channel == c;
        } else {
          assert actions[|actions| - 1].Receive? && actions[|actions| - 1].fragment.channel == c;
        }
      }
    }
  }

  lemma {:induction false} RunKeepsInv(channels: nat, capacity: nat, actions: seq<Action>)
    requires Admissible(actions)
    ensures Inv(Run(Start(channels, capacity), actions))
  {
    hide Inv;
    if actions == [] {
      StartInv(channels, capacity);
    } else {
      var front, a := actions[..|actions| - 1], actions[|actions| - 1];
      RunKeepsInv(channels, capacity, front);
      var s := Run(Start(channels, capacity), front);
      if !s.halted {
        match a
        case Receive(f) =>
          if Open(s, f) {
            FirstWasReceived(Start(channels, capacity), front, f.channel);
            ReceiveKeepsInv(s, f);
          }
        case Consume(sendOk) => ConsumeKeepsInv(s, sendOk);
        case Stop => StopKeepsInv(s);
      }
    }
  }

  /** Whatever order the channels are served in and whatever the consumer does meanwhile, the numbers offered to the
      completion queue are consecutive from 0 or 1 on. The consumer sees an increasing selection of them, and a prefix
      of them if the queue was never full. */
  lemma OfferedAndSeen(channels: nat, capacity: nat, actions: seq<Action>)
    requires Admissible(actions)
    ensures var s := Run(Start(channels, capacity), actions);
            && (s.offered != [] ==> s.offered[0] <= 1)
            && (forall i :: 0 <= i < |s.offered| ==> s.offered[i] == s.offered[0] + i)
            && s.seen <= s.accepted && Increasing(s.seen) && (forall k <- s.seen :: k in s.offered)
            && (|s.accepted| == |s.offered| ==> s.seen <= s.offered)
  {
    RunKeepsInv(channels, capacity, actions);
    var s := Run(Start(channels, capacity), actions);
    forall i, j | 0 <= i < j < |s.seen| ensures s.seen[i] < s.seen[j] {
      assert s.accepted[i] == s.seen[i] && s.accepted[j] == s.seen[j];
    }
    forall k <- s.seen ensures k in s.offered {
      assert k in s.accepted;
    }
  }

  /** `fragments` is one fragment of every channel, all with number `k`. */
  ghost predicate WholeEvent(fragments: seq<Fragment>, channels: nat, k: nat) {
    && |fragments| == channels
    && (forall f <- fragments :: f.number == k && f.channel < channels)
    && forall c :: 0 <= c < channels ==> From(fragments, c)
  }

  ghost predicate From(fragments: seq<Fragment>, c: nat) {
    exists f <- fragments :: f.channel == c
  }

  lemma {:induction false} NumberedHasNumber(log: seq<Fragment>, k: nat)
    ensures forall f <- Numbered(log, k) :: f.number == k && f in log
  {
    if log != [] {
      NumberedHasNumber(log[..|log| - 1], k);
    }
  }

  lemma CompleteIsWhole(x: Input, k: nat)
    requires LogOk(x) && AllHave(x, k)
    ensures WholeEvent(Numbered(x.log, k), |x.prev|, k)
  {
    var fs := Numbered(x.log, k);
    NumberedHasNumber(x.log, k);
    hide Numbered;
    assert OnePerChannel(x, k);
    CompleteIff(x, k);
    forall f <- fs ensures f.channel < |x.prev| {
      assert f.channel in Channels(fs);
    }
    forall c | 0 <= c < |x.prev| ensures From(fs, c) {
      assert Has(x, c, k) && c in Channels(fs);
    }
  }

  /** Where the bytes of fragment `j` begin in the message. */
  function Offset(fragments: seq<Fragment>, j: nat): nat
    requires j <= |fragments|
  {
    if j == 0 then 0 else Offset(fragments, j - 1) + |fragments[j - 1].bytes|
  }

  /** The message has the bytes of every fragment, one fragment after the other, and nothing else. */
  ghost predicate Joins(out: seq<bv8>, fragments: seq<Fragment>) {
    && |out| == Offset(fragments, |fragments|)
    && forall j :: 0 <= j < |fragments| ==>
         && Offset(fragments, j) + |fragments[j].bytes| <= |out|
         && out[Offset(fragments, j)..Offset(fragments, j) + |fragments[j].bytes|] == fragments[j].bytes
  }

  lemma {:induction false} OffsetFront(fragments: seq<Fragment>, n: nat, j: nat)
    requires j <= n <= |fragments|
    ensures Offset(fragments[..n], j) == Offset(fragments, j)
  {
    if j > 0 {
      OffsetFront(fragments, n, j - 1);
    }
  }

  lemma JoinsMore(out: seq<bv8>, fragments: seq<Fragment>, n: nat)
    requires |fragments| == n + 1 && Joins(out, fragments[..n])
    ensures Joins(out + fragments[n].bytes, fragments)
  {
    hide Offset;
    var more := out + fragments[n].bytes;
    OffsetFront(fragments, n, n);
    OffsetNext(fragments, n);
    forall j | 0 <= j < n
      ensures Offset(fragments, j) + |fragments[j].bytes| <= |more|
      ensures more[Offset(fragments, j)..Offset(fragments, j) + |fragments[j].bytes|] == fragments[j].bytes
    {
      OffsetFront(fragments, n, j);
      assert fragments[..n][j] == fragments[j];
      var from, to := Offset(fragments, j), Offset(fragments, j) + |fragments[j].bytes|;
      assert more[from..to] == out[from..to];
    }
  }

  lemma OffsetNext(fragments: seq<Fragment>, n: nat)
    requires n < |fragments|
    ensures Offset(fragments, n + 1) == Offset(fragments, n) + |fragments[n].bytes|
  {
  }

  lemma {:induction false} BytesJoin(fragments: seq<Fragment>)
    ensures Joins(Bytes(fragments), fragments)
  {
    if fragments != [] {
      hide Joins;
      BytesJoin(fragments[..|fragments| - 1]);
      JoinsMore(Bytes(fragments[..|fragments| - 1]), fragments, |fragments| - 1);
    }
  }

  /** In any run, whatever the numbers are, the messages sent are the events built, in order, and each of them joins the
      fragments of its event. */
  lemma MessagesJoinEvents(channels: nat, capacity: nat, actions: seq<Action>)
    ensures var s := Run(Start(channels, capacity), actions);
            && |s.sent| <= |s.built| <= |s.sent| + 1
            && forall i :: 0 <= i < |s.sent| ==> Joins(s.sent[i], s.built[i])
  {
    hide Bytes, Joins;
    RunKeepsSent(channels, capacity, actions);
    var s := Run(Start(channels, capacity), actions);
    forall i | 0 <= i < |s.sent| ensures Joins(s.sent[i], s.built[i]) {
      BytesJoin(s.built[i]);
      assert s.sent[i] == Messages(s.built)[i];
    }
  }

  lemma {:induction false} RunKeepsSent(channels: nat, capacity: nat, actions: seq<Action>)
    ensures var s := Run(Start(channels, capacity), actions); SentOk(s.consumer, s.run, s.built, s.sent)
  {
    hide StepReceive, SentOk;
    if actions == [] {
      NothingSent();
    } else {
      var front, last := actions[..|actions| - 1], actions[|actions| - 1];
      RunKeepsSent(channels, capacity, front);
      StepKeepsSent(Run(Start(channels, capacity), front), last);
    }
  }

  lemma NothingSent()
    ensures SentOk(Top, true, [], [])
  {
  }

  lemma StepKeepsSent(s: State, a: Action)
    requires SentOk(s.consumer, s.run, s.built, s.sent)
    ensures var t := Step(s, a); SentOk(t.consumer, t.run, t.built, t.sent)
  {
    hide Bytes, Messages, InSequence, Note;
    if a.Consume? && !s.halted && s.consumer.Building? {
      var k := s.consumer.number;
      BuiltSent(s, if k in s.events then s.events[k] else []);
    }
  }

  /** Every event is built once and is one fragment per channel with its number, in the order received; every message
      sent has the bytes of such an event, fragment by fragment. */
  lemma EventsAreWhole(channels: nat, capacity: nat, actions: seq<Action>)
    requires Admissible(actions)
    ensures var s := Run(Start(channels, capacity), actions);
            && |s.built| == |s.numbers| && Increasing(s.numbers)
            && (forall i :: 0 <= i < |s.built| ==>
                  s.built[i] == Numbered(s.input.log, s.numbers[i]) && WholeEvent(s.built[i], channels, s.numbers[i]))
            && |s.sent| <= |s.built| <= |s.sent| + 1
            && (forall i :: 0 <= i < |s.sent| ==> Joins(s.sent[i], s.built[i]))
  {
    hide Numbered, Messages, WholeEvent, Joins;
    MessagesJoinEvents(channels, capacity, actions);
    RunKeepsInv(channels, capacity, actions);
    RunKeepsChannels(channels, capacity, actions);
    var s := Run(Start(channels, capacity), actions);
    LogShape(s.input);
    assert s.numbers <= s.seen <= s.accepted;
    forall i, j | 0 <= i < j < |s.numbers| ensures s.numbers[i] < s.numbers[j] {
      assert s.accepted[i] == s.numbers[i] && s.accepted[j] == s.numbers[j];
    }
    forall i | 0 <= i < |s.built| ensures WholeEvent(s.built[i], channels, s.numbers[i]) {
      CompleteIsWhole(s.input, s.numbers[i]);
    }
  }

  lemma {:induction false} RunKeepsChannels(channels: nat, capacity: nat, actions: seq<Action>)
    ensures |Run(Start(channels, capacity), actions).input.prev| == channels
  {
    if actions != [] {
      RunKeepsChannels(channels, capacity, actions[..|actions| - 1]);
    }
  }

  /** The queue never holds more than it has room for. */
  lemma {:induction false} QueueFits(channels: nat, capacity: nat, actions: seq<Action>)
    ensures var s := Run(Start(channels, capacity), actions); |s.queue| <= s.capacity == capacity
  {
    if actions != [] {
      QueueFits(channels, capacity, actions[..|actions| - 1]);
    }
  }

  function Consumed(s: State, sends: seq<bool>): State {
    if sends == [] then s else StepConsume(Consumed(s, sends[..|sends| - 1]), sends[|sends| - 1])
  }

  /** How far a stopped consumer is from its end. */
  function Remaining(consumer: Consumer): nat {
    match consumer
    case Done(_) => 0
    case Leaving(_) => 1
    case ReadFailed => 2
    case Reading => 3
    case Top => 4
    case SendFailed(_) => 5
    case Sending(_) => 6
    case Building(_) => 7
  }

  /** After a stop the consumer ends after at most seven more steps, whether its messages can be sent or not. */
  lemma {:induction false} StopEndsConsumer(s: State, sends: seq<bool>)
    requires !s.run
    ensures var t := Consumed(s, sends); !t.run && Remaining(t.consumer) <= if |sends| < 7 then 7 - |sends| else 0
    ensures |sends| >= 7 ==> Consumed(s, sends).consumer.Done?
  {
    hide Bytes;
    if sends != [] {
      StopEndsConsumer(s, sends[..|sends| - 1]);
    }
  }

  /** While the event builder runs, five steps of the consumer build the event at the front of the queue and send it. */
  lemma RunningConsumerSends(s: State)
    requires s.run && s.consumer == Top && s.queue != [] && s.queue[0] in s.events
    ensures var t, k := Consumed(s, [true, true, true, true, true]), s.queue[0];
            && t.consumer == Top && t.queue == s.queue[1..] && t.numbers == s.numbers + [k]
            && t.events == s.events - {k} && t.built == s.built + [s.events[k]]
            && |t.sent| == |s.sent| + 1 && t.sent[..|s.sent|] == s.sent && Joins(t.sent[|s.sent|], s.events[k])
  {
    hide Bytes, Joins;
    BytesJoin(s.events[s.queue[0]]);
    var five, four, three, two, one := [true, true, true, true, true], [true, true, true, true], [true, true, true],
                                       [true, true], [true];
    assert five[..4] == four && four[..3] == three && three[..2] == two && two[..1] == one && one[..0] == [];
    assert Consumed(s, []) == s;
    assert Consumed(s, one).consumer == Reading && Consumed(s, two).consumer == Leaving(Some(s.queue[0]));
    assert Consumed(s, three).consumer == Building(s.queue[0]);
  }

  /** What receiving a fragment does: a number that is neither 0 nor the next one of its channel is fatal and nothing
      else changes; any other fragment goes behind those with its number, and the number is offered to the queue exactly
      if there are as many of them as channels. */
  lemma ReceiveOutcome(s: State, f: Fragment)
    requires Open(s, f)
    ensures var t, k := Step(s, Receive(f)), f.number;
            var pending := if k in s.events then s.events[k] else [];
            if k != 0 && k != s.input.prev[f.channel] + 1 then t == s.(halted := true)
            else
              && !t.halted && t.run == s.run && t.consumer == s.consumer && t.input.log == s.input.log + [f]
              && t.input.prev == s.input.prev[f.channel := k]
              && t.events.Keys == s.events.Keys + {k} && t.events[k] == pending + [f]
              && (forall j <- s.events :: j != k ==> t.events[j] == s.events[j])
              && t.offered == s.offered + (if |pending| + 1 == |s.input.prev| then [k] else [])
              && t.queue == s.queue + (if |pending| + 1 == |s.input.prev| && |s.queue| < s.capacity then [k] else [])
  {
  }

  /** After a stop, a number that waits in the queue is still read, and then given up. */
  lemma StoppedConsumerDiscards(s: State)
    requires !s.run && s.consumer == Top && s.queue != []
    ensures var t := Consumed(s, [true, true, true]);
            && t.consumer == Done(Some(s.queue[0])) && t.queue == s.queue[1..] && t.seen == s.seen + [s.queue[0]]
            && t.numbers == s.numbers && t.events == s.events && t.sent == s.sent
  {
    hide Bytes;
    var three, two, one := [true, true, true], [true, true], [true];
    assert three[..2] == two && two[..1] == one && one[..0] == [];
    assert Consumed(s, []) == s && Consumed(s, one).consumer == Reading;
  }

  // --- conservation ---

  /** How many fragments the map holds. */
  ghost function Held(events: map<nat, seq<Fragment>>): nat {
    if events == map[] then 0
    else
      var k :| k in events;
      |events[k]| + Held(events - {k})
  }

  lemma {:induction false} HeldWithout(events: map<nat, seq<Fragment>>, k: nat)
    requires k in events
    ensures Held(events) == |events[k]| + Held(events - {k})
    decreases events
  {
    var j :| j in events && Held(events) == |events[j]| + Held(events - {j});
    if j != k {
      HeldWithout(events - {j}, k);
      HeldWithout(events - {k}, j);
      assert events - {j} - {k} == events - {k} - {j};
    }
  }

  lemma HeldAdd(events: map<nat, seq<Fragment>>, f: Fragment)
    ensures Held(events[f.number := (if f.number in events then events[f.number] else []) + [f]]) == Held(events) + 1
  {
    var k := f.number;
    var after := events[k := (if k in events then events[k] else []) + [f]];
    HeldWithout(after, k);
    assert after - {k} == events - {k};
    if k in events {
      HeldWithout(events, k);
    } else {
      assert events - {k} == events;
    }
  }

  /** No fragment is lost or counted twice: those received are those in the map and n for each event built. */
  lemma {:induction false} Conservation(channels: nat, capacity: nat, actions: seq<Action>)
    requires Admissible(actions)
    ensures var s := Run(Start(channels, capacity), actions);
            |s.input.log| == Held(s.events) + Times(|s.built|, channels)
  {
    hide Inv, Step;
    if actions != [] {
      var front := actions[..|actions| - 1];
      Conservation(channels, capacity, front);
      RunKeepsInv(channels, capacity, front);
      RunKeepsChannels(channels, capacity, front);
      StepConserves(Run(Start(channels, capacity), front), actions[|actions| - 1], channels);
    }
  }

  lemma StepConserves(s: State, a: Action, channels: nat)
    requires Inv(s) && |s.input.prev| == channels
    requires |s.input.log| == Held(s.events) + Times(|s.built|, channels)
    ensures var t := Step(s, a); |t.input.log| == Held(t.events) + Times(|t.built|, channels)
  {
    hide Inv, Held;
    if a.Receive? {
      HeldAdd(s.events, a.fragment);
    } else if a.Consume? && s.consumer.Building? {
      BuildKeepsInv(s);
      HeldWithout(s.events, s.consumer.number);
      BuiltSize(s, channels);
    }
  }

  lemma BuiltSize(s: State, channels: nat)
    requires Inv(s) && s.consumer.Building? && |s.input.prev| == channels && s.consumer.number in s.events
    ensures |s.events[s.consumer.number]| == channels
  {
    hide Numbered;
    BuildKeepsInv(s);
    var t := StepConsume(s, true);
    CompleteIsWhole(s.input, s.consumer.number) by {
      assert t.numbers[|s.numbers|] == s.consumer.number;
    }
  }

  // --- stopping ---

  /** After a stop no further event is built, unless the consumer had already decided to build one: complete events
      still in the queue are given up, whatever the comment on the consumer's loop promises. */
  lemma {:induction false} StopBuildsNothing(s: State, actions: seq<Action>)
    requires !s.run && !s.consumer.Building?
    ensures var t := Run(s, actions); t.built == s.built && !t.run && !t.consumer.Building?
  {
    if actions != [] {
      StopBuildsNothing(s, actions[..|actions| - 1]);
    }
  }

  // What the queue and the consumer keep in every run, whatever the fragments are.
  ghost predicate QueueShape(s: State) {
    s.accepted == s.seen + s.queue && ConsumerOk(s.consumer, s.run, s.seen, s.numbers)
  }

  lemma StepKeepsQueue(s: State, a: Action)
    requires QueueShape(s)
    ensures QueueShape(Step(s, a))
  {
    match a
    case Receive(f) =>
      if Open(s, f) {
        hide ConsumerOk, Note;
        Assoc(s.seen, s.queue, [f.number]);
      }
    case Consume(sendOk) =>
      ConsumeKeepsQueue(s, sendOk);
    case Stop =>
  }

  lemma ConsumeKeepsQueue(s: State, sendOk: bool)
    requires QueueShape(s)
    ensures QueueShape(StepConsume(s, sendOk))
  {
    if s.consumer == Reading && s.queue != [] {
      assert s.seen + s.queue == s.seen + [s.queue[0]] + s.queue[1..];
    }
  }

  lemma {:induction false} RunKeepsQueue(channels: nat, capacity: nat, actions: seq<Action>)
    ensures QueueShape(Run(Start(channels, capacity), actions))
  {
    hide Step, QueueShape;
    if actions == [] {
      assert QueueShape(Start(channels, capacity)) by {
        StartQueue(channels, capacity);
      }
    } else {
      RunKeepsQueue(channels, capacity, actions[..|actions| - 1]);
      StepKeepsQueue(Run(Start(channels, capacity), actions[..|actions| - 1]), actions[|actions| - 1]);
    }
  }

  lemma StartQueue(channels: nat, capacity: nat)
    ensures QueueShape(Start(channels, capacity))
  {
  }

  /** After a stop in `s`, at most the event that the consumer had decided to build has been built until `t`. */
  ghost predicate StoppedSince(s: State, t: State) {
    && !t.run && (s.halted ==> t == s) && (t.consumer.Building? ==> t.consumer == s.consumer)
    && t.numbers == s.numbers + (if s.consumer.Building? && !s.halted && !t.consumer.Building?
                                 then [s.consumer.number] else [])
  }

  lemma StepSinceStop(s: State, t: State, a: Action)
    requires StoppedSince(s, t)
    ensures StoppedSince(s, Step(t, a))
  {
    match a
    case Receive(f) =>
      if Open(t, f) {
        hide Note;
        assert StepReceive(t, f).numbers == t.numbers;
      }
    case Consume(sendOk) =>
      hide Bytes;
    case Stop =>
  }

  lemma {:induction false} AfterStop(s: State, actions: seq<Action>)
    requires !s.run
    ensures StoppedSince(s, Run(s, actions))
  {
    hide Step;
    if actions != [] {
      AfterStop(s, actions[..|actions| - 1]);
      StepSinceStop(s, Run(s, actions[..|actions| - 1]), actions[|actions| - 1]);
    }
  }

  ghost predicate Finishable(s: State) {
    exists actions :: s.accepted <= Run(s, actions).numbers
  }

  /** Nothing waits that a stopped consumer will not build: the queue is empty, and the consumer has read no number,
      unless it has already decided to build it. */
  predicate NothingWaits(s: State) {
    s.queue == [] &&
    match s.consumer
    case Leaving(read) => read.None?
    case Building(_) => !s.halted
    case Done(left) => left.None?
    case _ => true
  }

  /** The comment on the consumer's loop is right exactly then: once stopped, the complete events that the queue has
      accepted can all still be built if and only if nothing waits any more. */
  lemma StopFinishesIff(channels: nat, capacity: nat, actions: seq<Action>)
    requires !Run(Start(channels, capacity), actions).run
    ensures var s := Run(Start(channels, capacity), actions); Finishable(s) <==> NothingWaits(s)
  {
    RunKeepsQueue(channels, capacity, actions);
    var s := Run(Start(channels, capacity), actions);
    hide Step, StepConsume;
    if Finishable(s) {
      var more :| s.accepted <= Run(s, more).numbers;
      AfterStop(s, more);
      assert s.numbers <= s.seen <= s.accepted;
    }
    if NothingWaits(s) {
      assert s.accepted == s.seen;
      if s.consumer.Building? {
        BuildsNow(s);
        assert s.accepted <= Run(s, [Consume(true)]).numbers;
      } else {
        assert s.accepted <= Run(s, []).numbers;
      }
    }
  }

  lemma BuildsNow(s: State)
    requires !s.halted && s.consumer.Building?
    ensures Run(s, [Consume(true)]).numbers == s.numbers + [s.consumer.number]
  {
    assert [Consume(true)][..0] == [];
    assert Run(s, [Consume(true)]) == Step(Run(s, []), Consume(true));
  }

  /** A complete event that is still in the queue when the builder is stopped is never built, whatever the capacity. */
  lemma StopLeavesCompleteEvent(f: Fragment, capacity: nat)
    requires capacity > 0 && f.channel == 0 && f.number <= 1
    ensures var s := Run(Start(1, capacity), [Receive(f), Stop]);
            && !s.run && !s.halted && s.queue == s.accepted == [f.number]
            && forall more :: Run(s, more).numbers == [] && Run(s, more).built == []
  {
    var actions, start := [Receive(f), Stop], Start(1, capacity);
    assert actions[..1] == [Receive(f)] && actions[..1][..0] == [];
    var one := Run(start, actions[..1]);
    assert one == Step(Run(start, []), Receive(f)) == StepReceive(start, f);
    assert [] + [f] == [f];
    var s := Run(start, actions);
    assert s == Step(one, Stop);
    forall more ensures Run(s, more).numbers == [] && Run(s, more).built == [] {
      AfterStop(s, more);
      StopBuildsNothing(s, more);
    }
  }

  // --- fragments of one channel in one event ---

  /** No fragment of the same channel is pending under the number of `f`: a test the receive loop could make. */
  ghost predicate Fresh(s: State, f: Fragment) {
    f.number in s.events ==> forall g <- s.events[f.number] :: g.channel != f.channel
  }

  ghost predicate Unmixed(fragments: seq<Fragment>) {
    forall i, j :: 0 <= i < j < |fragments| ==> fragments[i].channel != fragments[j].channel
  }

  /** The fragment is let through and stored. */
  ghost predicate Stored(s: State, f: Fragment) {
    Open(s, f) && InSequence(s.input.prev[f.channel], f.number)
  }

  /** After a reception the fragments pending under its number are from different channels exactly if none of the same
      channel was pending before. */
  lemma UnmixedIffFresh(s: State, f: Fragment)
    requires Stored(s, f) && (f.number in s.events ==> Unmixed(s.events[f.number]))
    ensures f.number in StepReceive(s, f).events
    ensures Unmixed(StepReceive(s, f).events[f.number]) <==> Fresh(s, f)
  {
    var before := if f.number in s.events then s.events[f.number] else [];
    var after := before + [f];
    assert StepReceive(s, f).events[f.number] == after;
    if Unmixed(after) {
      forall i | 0 <= i < |before| ensures before[i].channel != f.channel {
        assert after[i] == before[i] && after[|before|] == f;
      }
    }
  }

  /** Every fragment stored in the run was fresh. */
  ghost predicate Guarded(s: State, actions: seq<Action>) {
    actions == [] ||
    var front, last := actions[..|actions| - 1], actions[|actions| - 1];
    Guarded(s, front) && (last.Receive? && Stored(Run(s, front), last.fragment) ==> Fresh(Run(s, front), last.fragment))
  }

  /** A pending entry: fragments of different channels with the number `k`. */
  ghost predicate Entry(fragments: seq<Fragment>, channels: nat, k: nat) {
    Unmixed(fragments) && forall f <- fragments :: f.number == k && f.channel < channels
  }

  /** The number that the consumer has read and may build. */
  function ReadAhead(consumer: Consumer): seq<nat> {
    match consumer
    case Leaving(read) => if read.Some? then [read.value] else []
    case Building(k) => [k]
    case _ => []
  }

  /** Each number waiting to be built waits once, with a full entry. */
  ghost predicate WaitingOk(waiting: seq<nat>, events: map<nat, seq<Fragment>>, channels: nat) {
    && (forall i, j :: 0 <= i < j < |waiting| ==> waiting[i] != waiting[j])
    && forall k <- waiting :: k in events && |events[k]| == channels
  }

  ghost predicate EntriesOk(events: map<nat, seq<Fragment>>, channels: nat) {
    forall k <- events :: Entry(events[k], channels, k)
  }

  ghost predicate BuiltWhole(built: seq<seq<Fragment>>, numbers: seq<nat>, channels: nat) {
    |built| == |numbers| && forall i :: 0 <= i < |built| ==> WholeEvent(built[i], channels, numbers[i])
  }

  ghost predicate WholeInv(s: State, channels: nat) {
    && |s.input.prev| == channels
    && EntriesOk(s.events, channels)
    && WaitingOk(ReadAhead(s.consumer) + s.queue, s.events, channels)
    && BuiltWhole(s.built, s.numbers, channels)
  }

  lemma {:induction false} UnmixedSize(fragments: seq<Fragment>)
    requires Unmixed(fragments)
    ensures |Channels(fragments)| == |fragments|
  {
    if fragments != [] {
      var front, last := fragments[..|fragments| - 1], fragments[|fragments| - 1];
      UnmixedSize(front);
      assert Channels(fragments) == Channels(front) + {last.channel};
    }
  }

  /** An entry has at most one fragment for each channel, and a full one is a whole event. */
  lemma EntrySize(fragments: seq<Fragment>, channels: nat, k: nat)
    requires Entry(fragments, channels, k)
    ensures |fragments| <= channels
    ensures |fragments| == channels ==> WholeEvent(fragments, channels, k)
  {
    RangeIs(channels);
    UnmixedSize(fragments);
    var cs := Channels(fragments);
    assert cs <= Range(channels);
    assert |cs| <= |Range(channels)| by {
      assert Range(channels) == cs + (Range(channels) - cs);
    }
    if |fragments| == channels {
      SubsetOfSameSize(cs, Range(channels));
      forall c | 0 <= c < channels ensures From(fragments, c) {
        assert c in cs;
      }
    }
  }

  lemma StoreKeepsWhole(s: State, f: Fragment, channels: nat)
    requires WholeInv(s, channels) && Stored(s, f) && Fresh(s, f)
    ensures WholeInv(StepReceive(s, f), channels)
  {
    hide Entry, WholeEvent, BuiltWhole, WaitingOk, EntriesOk;
    var k, waiting := f.number, ReadAhead(s.consumer) + s.queue;
    var after := (if k in s.events then s.events[k] else []) + [f];
    var events := s.events[k := after];
    FreshEntry(s, f, channels);
    assert EntriesOk(events, channels) by {
      MoreEntries(s.events, k, after, channels);
    }
    MoreWaiting(waiting, s.events, k, after, channels);
    if |after| == channels {
      Assoc(ReadAhead(s.consumer), s.queue, [k]);
    }
  }

  lemma FreshEntry(s: State, f: Fragment, channels: nat)
    requires |s.input.prev| == channels && EntriesOk(s.events, channels) && Stored(s, f) && Fresh(s, f)
    ensures var before := if f.number in s.events then s.events[f.number] else [];
            Entry(before + [f], channels, f.number) && |before| < channels
  {
    var before := if f.number in s.events then s.events[f.number] else [];
    if f.number in s.events {
      assert Entry(s.events[f.number], channels, f.number);
    }
    UnmixedIffFresh(s, f);
    EntrySize(before + [f], channels, f.number);
  }

  lemma MoreEntries(events: map<nat, seq<Fragment>>, k: nat, entry: seq<Fragment>, channels: nat)
    requires EntriesOk(events, channels) && Entry(entry, channels, k)
    ensures EntriesOk(events[k := entry], channels)
  {
    hide Entry;
  }

  /** An entry that was not full yet is not waiting; it is added once it is full. */
  lemma MoreWaiting(waiting: seq<nat>, events: map<nat, seq<Fragment>>, k: nat, entry: seq<Fragment>, channels: nat)
    requires WaitingOk(waiting, events, channels) && (k in events ==> |events[k]| < channels)
    ensures WaitingOk(waiting, events[k := entry], channels)
    ensures |entry| == channels ==> WaitingOk(waiting + [k], events[k := entry], channels)
  {
    assert k !in waiting;
  }

  lemma BuildKeepsWhole(s: State, sendOk: bool, channels: nat)
    requires WholeInv(s, channels) && s.consumer.Building?
    ensures WholeInv(StepConsume(s, sendOk), channels)
  {
    hide Unmixed, WholeEvent;
    var k, waiting := s.consumer.number, ReadAhead(s.consumer) + s.queue;
    assert waiting[0] == k && waiting[1..] == s.queue;
    EntrySize(s.events[k], channels, k);
    assert forall i :: 0 <= i < |s.queue| ==> s.queue[i] == waiting[i + 1];
  }

  lemma StepKeepsWhole(s: State, a: Action, channels: nat)
    requires WholeInv(s, channels)
    requires a.Receive? && Stored(s, a.fragment) ==> Fresh(s, a.fragment)
    ensures WholeInv(Step(s, a), channels)
  {
    hide EntriesOk, BuiltWhole, WaitingOk, StepConsume;
    match a
    case Receive(f) =>
      if Stored(s, f) {
        StoreKeepsWhole(s, f, channels);
      }
    case Consume(sendOk) => ConsumeKeepsWhole(s, sendOk, channels);
    case Stop =>
  }

  lemma ConsumeKeepsWhole(s: State, sendOk: bool, channels: nat)
    requires WholeInv(s, channels)
    ensures WholeInv(StepConsume(s, sendOk), channels)
  {
    hide EntriesOk, BuiltWhole, WaitingOk, Bytes;
    if s.consumer.Building? {
      BuildKeepsWhole(s, sendOk, channels);
    } else if s.consumer == Reading && s.queue != [] {
      assert [] + s.queue == [s.queue[0]] + s.queue[1..];
    } else if s.consumer.Leaving? && s.consumer.read.Some? {
      LessWaiting(s.consumer.read.value, s.queue, s.events, channels);
    }
  }

  lemma LessWaiting(k: nat, queue: seq<nat>, events: map<nat, seq<Fragment>>, channels: nat)
    requires WaitingOk([k] + queue, events, channels)
    ensures WaitingOk([] + queue, events, channels)
  {
    var waiting := [k] + queue;
    assert forall i :: 0 <= i < |queue| ==> queue[i] == waiting[i + 1];
  }

  lemma {:induction false} RunKeepsWhole(channels: nat, capacity: nat, actions: seq<Action>)
    requires Guarded(Start(channels, capacity), actions)
    ensures WholeInv(Run(Start(channels, capacity), actions), channels)
  {
    hide Step, WholeInv, Stored, Fresh;
    if actions == [] {
      StartWhole(channels, capacity);
    } else {
      RunKeepsWhole(channels, capacity, actions[..|actions| - 1]);
      StepKeepsWhole(Run(Start(channels, capacity), actions[..|actions| - 1]), actions[|actions| - 1], channels);
    }
  }

  lemma StartWhole(channels: nat, capacity: nat)
    ensures WholeInv(Start(channels, capacity), channels)
  {
  }

  /** Whatever the sequence numbers are: if no fragment is stored while another one of its channel is pending under its
      number, every event built is one fragment of every channel, all with its number. */
  lemma GuardedEventsAreWhole(channels: nat, capacity: nat, actions: seq<Action>)
    requires Guarded(Start(channels, capacity), actions)
    ensures var s := Run(Start(channels, capacity), actions);
            |s.built| == |s.numbers|
            && forall i :: 0 <= i < |s.built| ==> WholeEvent(s.built[i], channels, s.numbers[i])
  {
    RunKeepsWhole(channels, capacity, actions);
  }

  // --- why the assumption on number 0 is needed ---

  /** Of the numbers the test lets through, those that continue their channel are exactly those that respect the
      assumption. */
  lemma InSequenceContinuesIff(x: Input, f: Fragment)
    requires Shape(x) && f.channel < |x.prev| && InSequence(x.prev[f.channel], f.number)
    ensures ZeroOnlyFirst(x, f) <==>
            Shape(Note(x, f)) && !Has(x, f.channel, f.number)
            && forall k: nat :: Has(Note(x, f), f.channel, k) <==> Has(x, f.channel, k) || k == f.number
  {
    if ZeroOnlyFirst(x, f) {
      HasAfter(x, f, Note(x, f));
    }
  }

  /** A repeated number 0 is not noticed: it is not fresh, and the two fragments of one channel complete an event that
      the other channel has not contributed to. */
  lemma RepeatedZeroMixesEvents(bytes: seq<bv8>, capacity: nat)
    requires capacity > 0
    ensures var zero := Receive(Fragment(0, 0, bytes));
            var s := Run(Start(2, capacity), [zero, zero]);
            && s.accepted == [0] && s.input.first == [Some(0), None] && !s.halted
            && !Fresh(Run(Start(2, capacity), [zero]), zero.fragment)
  {
    var f := Fragment(0, 0, bytes);
    var zero, start := Receive(f), Start(2, capacity);
    assert [zero, zero][..1] == [zero] && [zero][..0] == [];
    var s := Run(start, [zero]);
    assert s == Step(Run(start, []), zero) == StepReceive(start, f);
    assert [] + [f] == [f] && s.events[0] == [f] && s.offered == s.queue == s.accepted == [];
    var t := Run(start, [zero, zero]);
    assert t == Step(s, zero) == StepReceive(s, f);
    assert t.input.first == [Some(0), None];
  }

  // --- the program ---

  /** The receptions of one pass over the channels: what each of them had to deliver, if anything. */
  function Receptions(inputs: seq<Option<Fragment>>): seq<Action> {
    if inputs == [] then []
    else
      var front, last := Receptions(inputs[..|inputs| - 1]), inputs[|inputs| - 1];
      if last.Some? then front + [Receive(last.value)] else front
  }

  lemma RunOneMore(s: State, actions: seq<Action>, a: Action)
    ensures Run(s, actions + [a]) == Step(Run(s, actions), a)
  {
    assert (actions + [a])[..|actions|] == actions;
  }

  class Builder {
    const channels: nat
    const capacity: nat
    var run: bool
    var halted: bool
    var prevSeq: seq<nat>
    var events: map<nat, seq<Fragment>>
    var completeSeq: seq<nat>
    var consumer: Consumer
    ghost var first: seq<Option<nat>>
    ghost var log: seq<Fragment>
    ghost var offered: seq<nat>
    ghost var accepted: seq<nat>
    ghost var seen: seq<nat>
    ghost var numbers: seq<nat>
    ghost var built: seq<seq<Fragment>>
    ghost var sent: seq<seq<bv8>>

    ghost function View(): State
      reads this
    {
      State(capacity, run, halted, Input(prevSeq, first, log), events, completeSeq, consumer,
            offered, accepted, seen, numbers, built, sent)
    }

    ghost predicate Valid()
      reads this
    {
      |prevSeq| == |first| == channels
    }

    constructor (channels: nat, capacity: nat)
      ensures Valid() && this.channels == channels && View() == Start(channels, capacity)
    {
      this.channels, this.capacity := channels, capacity;
      run, halted, prevSeq, events, completeSeq := true, false, seq(channels, _ => 0), map[], [];
      consumer, first, log, offered := Top, seq(channels, _ => None), [], [];
      accepted, seen, numbers, built, sent := [], [], [], [], [];
    }

    /** A fragment has come in on its channel. */
    method Receive(f: Fragment)
      requires Valid() && f.channel < channels && !halted
      modifies this
      ensures Valid() && View() == StepReceive(old(View()), f)
    {
      hide Offer, Note;
      if prevSeq[f.channel] + 1 != f.number && f.number != 0 {
        halted := true;
        return;
      }
      NoteNumber(f);
      var fragments := (if f.number in events then events[f.number] else []) + [f];
      events := events[f.number := fragments];
      if |fragments| == channels {
        Write(f.number);
      }
    }

    /** Stores the last number of the channel. */
    method NoteNumber(f: Fragment)
      requires Valid() && f.channel < channels
      modifies this`prevSeq, this`first, this`log
      ensures Valid() && Input(prevSeq, first, log) == Note(old(Input(prevSeq, first, log)), f)
    {
      prevSeq := prevSeq[f.channel := f.number];
      first := first[f.channel := if first[f.channel].None? then Some(f.number) else first[f.channel]];
      log := log + [f];
    }

    /** Offers a number to the queue; a full queue refuses it. */
    method Write(number: nat)
      requires Valid()
      modifies this`completeSeq, this`offered, this`accepted
      ensures View() == Offer(old(View()), number)
      ensures completeSeq == old(completeSeq) + (if |old(completeSeq)| < capacity then [number] else [])
    {
      offered := offered + [number];
      if |completeSeq| < capacity {
        completeSeq, accepted := completeSeq + [number], accepted + [number];
      }
    }

    /** One pass of the receive loop over all channels. */
    method ReceivePass(inputs: seq<Option<Fragment>>)
      requires Valid() && |inputs| == channels
      requires forall ch :: 0 <= ch < channels && inputs[ch].Some? ==> inputs[ch].value.channel == ch
      modifies this
      ensures Valid() && View() == Run(old(View()), Receptions(inputs))
    {
      assert inputs[..0] == [];
      for ch := 0 to channels
        invariant Valid() && View() == Run(old(View()), Receptions(inputs[..ch]))
      {
        assert inputs[..ch + 1][..ch] == inputs[..ch];
        if inputs[ch].Some? {
          RunOneMore(old(View()), Receptions(inputs[..ch]), Action.Receive(inputs[ch].value));
          if !halted {
            Receive(inputs[ch].value);
          }
        }
      }
      assert inputs[..channels] == inputs;
    }

    /** The consumer joins the fragments of a complete event and removes them from the map. */
    method Build(number: nat) returns (out: seq<bv8>)
      requires Valid()
      modifies this`events, this`numbers, this`built
      ensures var fragments := if number in old(events) then old(events)[number] else [];
              && Joins(out, fragments) && out == Bytes(fragments) && events == old(events) - {number}
              && numbers == old(numbers) + [number] && built == old(built) + [fragments]
    {
      var fragments := if number in events then events[number] else [];
      out := [];
      for i := 0 to |fragments|
        invariant out == Bytes(fragments[..i])
      {
        assert fragments[..i + 1][..i] == fragments[..i];
        out := out + fragments[i].bytes;
      }
      assert fragments[..|fragments|] == fragments;
      BytesJoin(fragments);
      events := events - {number};
      numbers, built := numbers + [number], built + [fragments];
    }

    /** The next step of the consumer thread. */
    method Consume(sendOk: bool)
      requires Valid() && !halted
      modifies this
      ensures Valid() && View() == StepConsume(old(View()), sendOk)
    {
      hide Bytes;
      match consumer
      case Top => consumer := if run || completeSeq != [] then Reading else Done(None);
      case Reading =>
        if completeSeq == [] {
          consumer := ReadFailed;
        } else {
          var number := completeSeq[0];
          completeSeq, seen, consumer := completeSeq[1..], seen + [number], Leaving(Some(number));
        }
      case ReadFailed => consumer := if run then Reading else Leaving(None);
      case Leaving(read) =>
        consumer := if !run then Done(read) else if read.Some? then Building(read.value) else Leaving(None);
      case Building(number) =>
        var out := Build(number);
        consumer := Sending(out);
      case Sending(out) =>
        if sendOk {
          sent, consumer := sent + [out], Top;
        } else {
          consumer := SendFailed(out);
        }
      case SendFailed(out) => consumer := if run then Sending(out) else Top;
      case Done(_) =>
    }
  }
}
