/** A sending relay that feeds a receiving relay: the chained sender of the one and the chained receiver of the other
    are the two ends of a wire that holds a bounded number of messages. */
module RelayLink {
  import opened Sequences
  import opened QueueReceiver
  import opened QueueSender

  datatype Link<T> = Link(sender: Sender<T>, wire: seq<T>, receiver: Receiver<T>)

  datatype LinkAction<T> = AtSender(send: SendAction<T>) | AtReceiver(receive: ReceiveAction<T>)

  /** What the chained sender takes goes onto the wire, which holds at most `room` messages, and the chained receiver
      hands out the oldest message there. */
  function LinkStep<T>(l: Link<T>, a: LinkAction<T>, capacity: nat, room: nat): Link<T> {
    match a
    case AtSender(b) =>
      var c := if b.Proceed? then Proceed(b.taken && |l.wire| < room) else b;
      var onto := l.sender.at.HandOver? && c.Proceed? && c.taken;
      l.(sender := SendStep(l.sender, c, capacity), wire := if onto then l.wire + [l.sender.at.message] else l.wire)
    case AtReceiver(b) =>
      if b.Arrive? then
        if l.wire == [] || !l.receiver.at.Take? then l
        else l.(receiver := ReceiveStep(l.receiver, Arrive(l.wire[0]), capacity), wire := l.wire[1..])
      else l.(receiver := ReceiveStep(l.receiver, b, capacity))
  }

  function LinkRun<T>(actions: seq<LinkAction<T>>, capacity: nat, room: nat): Link<T> {
    if actions == [] then Link(NewSender(), [], NewReceiver())
    else LinkStep(LinkRun(actions[..|actions| - 1], capacity, room), actions[|actions| - 1], capacity, room)
  }

  function AllTaken<T>(sessions: seq<Session<T>>): seq<T> {
    if sessions == [] then [] else AllTaken(sessions[..|sessions| - 1]) + sessions[|sessions| - 1].taken
  }

  ghost predicate LinkInv<T>(l: Link<T>, capacity: nat, room: nat) {
    && ReceiveInv(l.receiver, capacity) && SendInv(l.sender, capacity)
    && TakenOver(l.sender.handed) == AllTaken(l.receiver.sessions) + l.wire && |l.wire| <= room
  }

  lemma RecordTaken<T>(sessions: seq<Session<T>>, last: Session<T>)
    requires sessions != []
    ensures AllTaken(Record(sessions, last)) == AllTaken(sessions[..|sessions| - 1]) + last.taken
  {
    assert Record(sessions, last)[..|sessions| - 1] == sessions[..|sessions| - 1];
  }

  /** Only an arrival changes what was taken. */
  lemma ReceiveTaken<T>(s: Receiver<T>, a: ReceiveAction<T>, capacity: nat)
    requires ReceiveInv(s, capacity)
    ensures AllTaken(ReceiveStep(s, a, capacity).sessions)
         == AllTaken(s.sessions) + (if a.Arrive? && s.at.Take? then [a.message] else [])
  {
    var now := Current(s.sessions);
    match a
    case Start =>
      assert (s.sessions + [Session([], false)])[..|s.sessions|] == s.sessions;
    case Advance =>
      if s.at.WriteFailed? {
        RecordTaken(s.sessions, now.(dropped := true));
      }
    case Arrive(m) =>
      if s.at.Take? {
        RecordTaken(s.sessions, now.(taken := now.taken + [m]));
        Assoc(AllTaken(s.sessions[..|s.sessions| - 1]), now.taken, [m]);
      }
    case _ =>
  }

  lemma SendTaken<T>(s: Sender<T>, a: SendAction<T>, capacity: nat)
    ensures TakenOver(SendStep(s, a, capacity).handed)
         == TakenOver(s.handed) + (if s.at.HandOver? && a.Proceed? && a.taken then [s.at.message] else [])
  {
    if s.at.HandOver? && a.Proceed? {
      HandoverNext(s.handed, Handover(s.at.message, a.taken));
    }
  }

  lemma LinkKeepsInv<T>(l: Link<T>, a: LinkAction<T>, capacity: nat, room: nat)
    requires LinkInv(l, capacity, room)
    ensures LinkInv(LinkStep(l, a, capacity, room), capacity, room)
  {
    hide ReceiveInv, SendInv, ReceiveStep, SendStep, AllTaken, TakenOver;
    match a
    case AtSender(b) =>
      var c := if b.Proceed? then Proceed(b.taken && |l.wire| < room) else b;
      SendKeepsInv(l.sender, c, capacity);
      SendTaken(l.sender, c, capacity);
      if l.sender.at.HandOver? {
        Assoc(AllTaken(l.receiver.sessions), l.wire, [l.sender.at.message]);
      }
    case AtReceiver(b) =>
      StepKeepsInv(l.receiver, b, capacity);
      ReceiveTaken(l.receiver, b, capacity);
      if b.Arrive? && l.wire != [] && l.receiver.at.Take? {
        StepKeepsInv(l.receiver, Arrive(l.wire[0]), capacity);
        ReceiveTaken(l.receiver, Arrive(l.wire[0]), capacity);
        assert l.wire == [l.wire[0]] + l.wire[1..];
        Assoc(AllTaken(l.receiver.sessions), [l.wire[0]], l.wire[1..]);
      }
  }

  lemma {:induction false} LinkRunKeepsInv<T>(actions: seq<LinkAction<T>>, capacity: nat, room: nat)
    ensures LinkInv(LinkRun(actions, capacity, room), capacity, room)
  {
    hide LinkStep;
    if actions != [] {
      var l := LinkRun(actions[..|actions| - 1], capacity, room);
      LinkRunKeepsInv(actions[..|actions| - 1], capacity, room);
      LinkKeepsInv(l, actions[|actions| - 1], capacity, room);
    }
  }

  /** From end to end: the messages accepted by the sending relay are, in order, those handed over, the one on the way
      and those in its queue; those handed over are, in order, the ones taken by the receiving relay and the ones on the
      wire, with the refused ones in between. */
  lemma LinkConserves<T>(actions: seq<LinkAction<T>>, capacity: nat, room: nat)
    ensures var l := LinkRun(actions, capacity, room);
            && l.sender.queued == Messages(l.sender.handed) + Unsent(l.sender)
            && TakenOver(l.sender.handed) == AllTaken(l.receiver.sessions) + l.wire
            && AllKept(l.receiver.sessions) == l.receiver.delivered + (l.receiver.queue + InHand(l.receiver.at))
            && |l.sender.queue| <= capacity && |l.wire| <= room && |l.receiver.queue| <= capacity
  {
    LinkRunKeepsInv(actions, capacity, room);
  }

  /** Where the messages are, from those read out back to those last accepted. */
  function Everywhere<T>(l: Link<T>): seq<T> {
    (l.receiver.delivered + (l.receiver.queue + InHand(l.receiver.at))) + l.wire + Unsent(l.sender)
  }

  /** Nothing is lost from end to end exactly if no hand-over was refused and no session gave up a message; otherwise
      exactly these are missing. */
  lemma LinkLosesNothingIff<T>(actions: seq<LinkAction<T>>, capacity: nat, room: nat)
    ensures var l := LinkRun(actions, capacity, room);
            && (l.sender.queued == Everywhere(l)
                <==> Refused(l.sender.handed) == 0 && Dropped(l.receiver.sessions) == 0)
            && |l.sender.queued| == |Everywhere(l)| + Refused(l.sender.handed) + Dropped(l.receiver.sessions)
  {
    hide LinkRun, ReceiveInv, Messages, TakenOver, Refused, AllTaken, AllKept, Dropped;
    LinkRunKeepsInv(actions, capacity, room);
    var l := LinkRun(actions, capacity, room);
    HandoverSizes(l.sender.handed);
    ReceiveInvMeans(l.receiver, capacity);
    SessionSizes(l.receiver.sessions);
  }

  lemma ReceiveInvMeans<T>(s: Receiver<T>, capacity: nat)
    requires ReceiveInv(s, capacity)
    ensures AllKept(s.sessions) == s.delivered + (s.queue + InHand(s.at))
  {
  }

  lemma {:induction false} SessionSizes<T>(sessions: seq<Session<T>>)
    ensures |AllTaken(sessions)| == |AllKept(sessions)| + Dropped(sessions)
    ensures Dropped(sessions) == 0 ==> AllKept(sessions) == AllTaken(sessions)
  {
    if sessions != [] {
      SessionSizes(sessions[..|sessions| - 1]);
    }
  }

  // --- which steps lose a message ---

  /** A hand-over that finds no room or a chained sender that does not take it, or a handler that finds the stop flag
      set after its write failed. */
  predicate Losing<T>(l: Link<T>, a: LinkAction<T>, room: nat) {
    match a
    case AtSender(b) => l.sender.at.HandOver? && b.Proceed? && (|l.wire| >= room || !b.taken)
    case AtReceiver(b) => b.Advance? && l.receiver.at.WriteFailed? && l.receiver.stop
  }

  /** How many steps of a run lose a message. */
  function Losses<T>(actions: seq<LinkAction<T>>, capacity: nat, room: nat): nat {
    if actions == [] then 0
    else
      var front, last := actions[..|actions| - 1], actions[|actions| - 1];
      Losses(front, capacity, room) + (if Losing(LinkRun(front, capacity, room), last, room) then 1 else 0)
  }

  lemma SendRefused<T>(s: Sender<T>, a: SendAction<T>, capacity: nat)
    ensures Refused(SendStep(s, a, capacity).handed)
         == Refused(s.handed) + (if s.at.HandOver? && a.Proceed? && !a.taken then 1 else 0)
  {
    if s.at.HandOver? && a.Proceed? {
      assert (s.handed + [Handover(s.at.message, a.taken)])[..|s.handed|] == s.handed;
    }
  }

  lemma ReceiveDropped<T>(s: Receiver<T>, a: ReceiveAction<T>, capacity: nat)
    requires ReceiveInv(s, capacity)
    ensures Dropped(ReceiveStep(s, a, capacity).sessions)
         == Dropped(s.sessions) + (if a.Advance? && s.at.WriteFailed? && s.stop then 1 else 0)
  {
    hide AllKept;
    var now := Current(s.sessions);
    match a
    case Start =>
      assert (s.sessions + [Session([], false)])[..|s.sessions|] == s.sessions;
    case Advance =>
      if s.at.WriteFailed? && s.stop {
        RecordKept(s.sessions, now.(dropped := true));
        CurrentKept(s.sessions);
      }
    case Arrive(m) =>
      if s.at.Take? {
        RecordKept(s.sessions, now.(taken := now.taken + [m]));
        CurrentKept(s.sessions);
      }
    case _ =>
  }

  lemma StepLosses<T>(l: Link<T>, a: LinkAction<T>, capacity: nat, room: nat)
    requires LinkInv(l, capacity, room)
    ensures var t := LinkStep(l, a, capacity, room);
            Refused(t.sender.handed) + Dropped(t.receiver.sessions)
            == Refused(l.sender.handed) + Dropped(l.receiver.sessions) + (if Losing(l, a, room) then 1 else 0)
  {
    hide ReceiveInv, SendInv, ReceiveStep, SendStep, Refused, Dropped;
    match a
    case AtSender(b) =>
      SendRefused(l.sender, if b.Proceed? then Proceed(b.taken && |l.wire| < room) else b, capacity);
    case AtReceiver(b) =>
      ReceiveDropped(l.receiver, b, capacity);
      if b.Arrive? && l.wire != [] {
        ReceiveDropped(l.receiver, Arrive(l.wire[0]), capacity);
      }
  }

  lemma {:induction false} LossesAreCounted<T>(actions: seq<LinkAction<T>>, capacity: nat, room: nat)
    ensures var l := LinkRun(actions, capacity, room);
            Losses(actions, capacity, room) == Refused(l.sender.handed) + Dropped(l.receiver.sessions)
  {
    hide LinkStep, Losing, LinkInv;
    if actions != [] {
      var front := actions[..|actions| - 1];
      LossesAreCounted(front, capacity, room);
      LinkRunKeepsInv(front, capacity, room);
      StepLosses(LinkRun(front, capacity, room), actions[|actions| - 1], capacity, room);
    }
  }

  lemma {:induction false} NoLossesIff<T>(actions: seq<LinkAction<T>>, capacity: nat, room: nat)
    ensures Losses(actions, capacity, room) == 0
       <==> forall k :: 0 <= k < |actions| ==> !Losing(LinkRun(actions[..k], capacity, room), actions[k], room)
  {
    hide LinkRun, Losing;
    if actions != [] {
      var front := actions[..|actions| - 1];
      NoLossesIff(front, capacity, room);
      assert forall k :: 0 <= k < |front| ==> front[..k] == actions[..k];
    }
  }

  /** In terms of what the two handlers meet: nothing is lost from end to end exactly if no hand-over met a full wire
      or a refusal, and no handler met the stop flag after a failed write; otherwise one message for each time. */
  lemma LosingStepsIff<T>(actions: seq<LinkAction<T>>, capacity: nat, room: nat)
    ensures var l := LinkRun(actions, capacity, room);
            && (l.sender.queued == Everywhere(l) <==>
                forall k :: 0 <= k < |actions| ==> !Losing(LinkRun(actions[..k], capacity, room), actions[k], room))
            && |l.sender.queued| == |Everywhere(l)| + Losses(actions, capacity, room)
  {
    hide LinkRun, Losing, Losses, Refused, Dropped, Everywhere;
    LinkLosesNothingIff(actions, capacity, room);
    LossesAreCounted(actions, capacity, room);
    NoLossesIff(actions, capacity, room);
  }

  // --- losses without any stop ---

  type Bytes = seq<bv8>

  ghost predicate LinkReaches(l: Link<Bytes>, capacity: nat, room: nat) {
    exists actions :: LinkRun(actions, capacity, room) == l
  }

  lemma LinkNext(l: Link<Bytes>, a: LinkAction<Bytes>, capacity: nat, room: nat)
    requires LinkReaches(l, capacity, room)
    ensures LinkReaches(LinkStep(l, a, capacity, room), capacity, room)
  {
    hide LinkStep;
    var actions :| LinkRun(actions, capacity, room) == l;
    assert (actions + [a])[..|actions|] == actions;
    assert LinkRun(actions + [a], capacity, room) == LinkStep(l, a, capacity, room);
  }

  /** A link whose receiver has not been started and whose sender has handed over everything. */
  function Waiting(queued: seq<Bytes>, handed: seq<Handover<Bytes>>, wire: seq<Bytes>): Link<Bytes> {
    Link(Sender(TestFlag, false, [], queued, handed), wire, NewReceiver())
  }

  lemma WaitingReached(capacity: nat, room: nat)
    ensures LinkReaches(Waiting([], [], []), capacity, room)
  {
    hide LinkReaches;
    assert LinkReaches(Link(NewSender<Bytes>(), [], NewReceiver()), capacity, room) by {
      StartReached(capacity, room);
    }
    LinkNext(Link(NewSender(), [], NewReceiver()), AtSender(Begin), capacity, room);
  }

  lemma StartReached(capacity: nat, room: nat)
    ensures LinkReaches(Link(NewSender<Bytes>(), [], NewReceiver()), capacity, room)
  {
    assert LinkRun<Bytes>([], capacity, room) == Link(NewSender(), [], NewReceiver());
  }

  /** One more message goes through the sending relay, onto the wire if there is room. */
  lemma SendsOne(queued: seq<Bytes>, handed: seq<Handover<Bytes>>, wire: seq<Bytes>, m: Bytes, capacity: nat, room: nat)
    requires capacity > 0 && LinkReaches(Waiting(queued, handed, wire), capacity, room)
    ensures var fits := |wire| < room;
            LinkReaches(Waiting(queued + [m], handed + [Handover(m, fits)], if fits then wire + [m] else wire),
                        capacity, room)
  {
    hide LinkReaches;
    var go, r, q := AtSender(Proceed(true)), NewReceiver<Bytes>(), queued + [m];
    LinkNext(Waiting(queued, handed, wire), AtSender(Send(m)), capacity, room);
    assert [] + [m] == [m] && [m][1..] == [];
    LinkNext(Link(Sender(TestFlag, false, [m], q, handed), wire, r), go, capacity, room);
    LinkNext(Link(Sender(TestSize, false, [m], q, handed), wire, r), go, capacity, room);
    LinkNext(Link(Sender(TakeOut, false, [m], q, handed), wire, r), go, capacity, room);
    LinkNext(Link(Sender(HandOver(m), false, [], q, handed), wire, r), go, capacity, room);
    var after := LinkStep(Link(Sender(HandOver(m), false, [], q, handed), wire, r), go, capacity, room);
    LinkNext(after, go, capacity, room);
  }

  /** The messages that find room on the wire. */
  function Fitting(ms: seq<Bytes>, room: nat): seq<Bytes> {
    if |ms| <= room then ms else ms[..room]
  }

  lemma {:induction false} SendsAll(ms: seq<Bytes>, capacity: nat, room: nat) returns (handed: seq<Handover<Bytes>>)
    requires capacity > 0
    ensures LinkReaches(Waiting(ms, handed, Fitting(ms, room)), capacity, room)
  {
    hide LinkReaches;
    if ms == [] {
      handed := [];
      WaitingReached(capacity, room);
    } else {
      var front, m := ms[..|ms| - 1], ms[|ms| - 1];
      handed := SendsAll(front, capacity, room);
      SendsOne(front, handed, Fitting(front, room), m, capacity, room);
      handed := handed + [Handover(m, |Fitting(front, room)| < room)];
      assert ms == front + [m];
      assert room <= |front| ==> ms[..room] == front[..room];
    }
  }

  /** Losses happen without any stop: whatever the wire holds and whatever is sent, while nobody takes messages off
      the wire the sending relay accepts all of them, and those that do not fit onto the wire are gone. */
  lemma FullWireLoses(ms: seq<Bytes>, capacity: nat, room: nat)
    requires capacity > 0
    ensures exists l :: LinkReaches(l, capacity, room)
              && l.sender.queued == ms && Everywhere(l) == Fitting(ms, room)
              && l.receiver.stops == 0 && !l.sender.stop
  {
    hide LinkReaches;
    var handed := SendsAll(ms, capacity, room);
    var l := Waiting(ms, handed, Fitting(ms, room));
    assert Everywhere(l) == Fitting(ms, room);
  }

  // --- messages get through ---

  /** A link with both handlers at work through which all messages sent have gone. */
  function Through(ms: seq<Bytes>, handed: seq<Handover<Bytes>>): Link<Bytes> {
    Link(Sender(TestFlag, false, [], ms, handed), [], Receiver(TestStop, false, [], ms, [Session(ms, false)], 0))
  }

  lemma {:induction false} GoesThrough(ms: seq<Bytes>, capacity: nat, room: nat) returns (handed: seq<Handover<Bytes>>)
    requires capacity > 0 && room > 0
    ensures LinkReaches(Through(ms, handed), capacity, room)
  {
    hide LinkReaches;
    if ms == [] {
      handed := [];
      WaitingReached(capacity, room);
      LinkNext(Waiting([], [], []), AtReceiver(Start), capacity, room);
      var first: seq<Session<Bytes>> := [Session([], false)];
      assert [] + first == first;
    } else {
      var front, m := ms[..|ms| - 1], ms[|ms| - 1];
      handed := GoesThrough(front, capacity, room);
      OntoWire(front, handed, m, capacity, room);
      OffWire(front, handed + [Handover(m, true)], m, capacity, room);
      handed := handed + [Handover(m, true)];
      assert ms == front + [m];
    }
  }

  lemma OntoWire(ms: seq<Bytes>, handed: seq<Handover<Bytes>>, m: Bytes, capacity: nat, room: nat)
    requires capacity > 0 && room > 0 && LinkReaches(Through(ms, handed), capacity, room)
    ensures LinkReaches(Through(ms, handed).(sender := Sender(TestFlag, false, [], ms + [m],
                                                              handed + [Handover(m, true)]), wire := [m]),
                        capacity, room)
  {
    hide LinkReaches;
    var go, r, q := AtSender(Proceed(true)), Through(ms, handed).receiver, ms + [m];
    LinkNext(Through(ms, handed), AtSender(Send(m)), capacity, room);
    assert [] + [m] == [m] && [m][1..] == [];
    LinkNext(Link(Sender(TestFlag, false, [m], q, handed), [], r), go, capacity, room);
    LinkNext(Link(Sender(TestSize, false, [m], q, handed), [], r), go, capacity, room);
    LinkNext(Link(Sender(TakeOut, false, [m], q, handed), [], r), go, capacity, room);
    LinkNext(Link(Sender(HandOver(m), false, [], q, handed), [], r), go, capacity, room);
    LinkNext(Link(Sender(Publish, false, [], q, handed + [Handover(m, true)]), [m], r), go, capacity, room);
  }

  lemma OffWire(ms: seq<Bytes>, handed: seq<Handover<Bytes>>, m: Bytes, capacity: nat, room: nat)
    requires capacity > 0
    requires LinkReaches(Link(Sender(TestFlag, false, [], ms + [m], handed), [m], Through(ms, handed).receiver),
                         capacity, room)
    ensures LinkReaches(Through(ms + [m], handed), capacity, room)
  {
    hide LinkReaches;
    var go, s := AtReceiver(ReceiveAction<Bytes>.Advance), Sender(TestFlag, false, [], ms + [m], handed);
    var before, after := [Session(ms, false)], [Session(ms + [m], false)];
    assert [m][1..] == [] && [] + [m] == [m];
    LinkNext(Link(s, [m], Receiver(TestStop, false, [], ms, before, 0)), go, capacity, room);
    LinkNext(Link(s, [m], Receiver(Take, false, [], ms, before, 0)), AtReceiver(Arrive(m)), capacity, room);
    assert Record(before, Session(ms + [m], false)) == after;
    LinkNext(Link(s, [], Receiver(Hold(m), false, [], ms, after, 0)), go, capacity, room);
    LinkNext(Link(s, [], Receiver(Tail, false, [m], ms, after, 0)), go, capacity, room);
    LinkNext(Link(s, [], Receiver(TestStop, false, [m], ms, after, 0)), AtReceiver(Read), capacity, room);
  }

  /** Any messages can go all the way through a link, in order, if queue and wire have room for one at a time. */
  lemma EverythingCanArrive(ms: seq<Bytes>, capacity: nat, room: nat)
    requires capacity > 0 && room > 0
    ensures exists l :: LinkReaches(l, capacity, room) && l.sender.queued == ms == l.receiver.delivered
  {
    hide LinkReaches;
    var handed := GoesThrough(ms, capacity, room);
    assert Through(ms, handed).sender.queued == ms;
  }
}
