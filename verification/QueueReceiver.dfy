/** The receiving relay (`QueueReceiver`): a handler thread moves messages from the chained receiver into a bounded
    queue, while other threads use the other end of the queue and start and stop the handler. Every access to the stop
    flag or the queue is one step. A write to a full queue fails and leaves the message intact. */
module QueueReceiver {
  import opened Sequences

  // Where the handler thread is; `Off` before it is started and after it was joined.
  datatype ReceivePoint<T> = Off | TestStop | Take | Hold(message: T) | WriteFailed(message: T) | Tail

  // From one start to the next: the messages taken from the chained receiver, and whether the last one was given up.
  datatype Session<T> = Session(taken: seq<T>, dropped: bool)

  datatype Receiver<T> = Receiver(at: ReceivePoint<T>, stop: bool, queue: seq<T>, delivered: seq<T>,
                                  sessions: seq<Session<T>>, stops: nat)

  // `Arrive` is the chained receiver handing out a message; without one the handler goes round its loop.
  datatype ReceiveAction<T> = Start | Stop | Advance | Arrive(message: T) | Read

  function NewReceiver<T>(): Receiver<T> {
    Receiver(Off, false, [], [], [], 0)
  }

  function Record<T>(sessions: seq<Session<T>>, last: Session<T>): seq<Session<T>> {
    if sessions == [] then sessions else sessions[|sessions| - 1 := last]
  }

  function Current<T>(sessions: seq<Session<T>>): Session<T> {
    if sessions == [] then Session([], false) else sessions[|sessions| - 1]
  }

  function HandlerStep<T>(s: Receiver<T>, capacity: nat): Receiver<T> {
    match s.at
    case Off => s
    case TestStop => s.(at := if s.stop then Off else Take)
    case Take => s.(at := Tail)
    case Hold(m) => if |s.queue| < capacity then s.(at := Tail, queue := s.queue + [m]) else s.(at := WriteFailed(m))
    case WriteFailed(m) =>
      if s.stop then s.(at := Tail, sessions := Record(s.sessions, Current(s.sessions).(dropped := true)))
      else s.(at := Hold(m))
    case Tail => s.(at := TestStop)
  }

  /** Starting is possible once the previous handler was joined; stopping only while one runs. */
  function ReceiveStep<T>(s: Receiver<T>, a: ReceiveAction<T>, capacity: nat): Receiver<T> {
    match a
    case Start =>
      if s.at.Off? then s.(at := TestStop, stop := false, sessions := s.sessions + [Session([], false)]) else s
    case Stop => if s.at.Off? || s.stop then s else s.(stop := true, stops := s.stops + 1)
    case Advance => HandlerStep(s, capacity)
    case Arrive(m) =>
      if !s.at.Take? then s
      else
        var now := Current(s.sessions);
        s.(at := Hold(m), sessions := Record(s.sessions, now.(taken := now.taken + [m])))
    case Read => if s.queue == [] then s else s.(queue := s.queue[1..], delivered := s.delivered + [s.queue[0]])
  }

  function ReceiveRun<T>(actions: seq<ReceiveAction<T>>, capacity: nat): Receiver<T> {
    if actions == [] then NewReceiver()
    else ReceiveStep(ReceiveRun(actions[..|actions| - 1], capacity), actions[|actions| - 1], capacity)
  }

  predicate GaveUp<T>(session: Session<T>) {
    session.dropped && session.taken != []
  }

  function Kept<T>(session: Session<T>): seq<T> {
    if GaveUp(session) then session.taken[..|session.taken| - 1] else session.taken
  }

  function AllKept<T>(sessions: seq<Session<T>>): seq<T> {
    if sessions == [] then [] else AllKept(sessions[..|sessions| - 1]) + Kept(sessions[|sessions| - 1])
  }

  /** How many sessions gave up a message. */
  function Dropped<T>(sessions: seq<Session<T>>): nat {
    if sessions == [] then 0
    else Dropped(sessions[..|sessions| - 1]) + (if GaveUp(sessions[|sessions| - 1]) then 1 else 0)
  }

  function InHand<T>(at: ReceivePoint<T>): seq<T> {
    if at.Hold? || at.WriteFailed? then [at.message] else []
  }

  ghost predicate ReceiveInv<T>(s: Receiver<T>, capacity: nat) {
    && AllKept(s.sessions) == s.delivered + (s.queue + InHand(s.at))
    && |s.queue| <= capacity
    && (!s.at.Off? ==> s.sessions != [])
    && (!s.at.Off? && Current(s.sessions).dropped ==> s.stop && (s.at.Tail? || s.at.TestStop?))
    && (InHand(s.at) != [] ==>
          var taken := Current(s.sessions).taken; taken != [] && taken[|taken| - 1] == InHand(s.at)[0])
    && Dropped(s.sessions) + (if !s.at.Off? && s.stop && !Current(s.sessions).dropped then 1 else 0) <= s.stops
  }

  lemma RecordKept<T>(sessions: seq<Session<T>>, last: Session<T>)
    requires sessions != []
    ensures AllKept(Record(sessions, last)) == AllKept(sessions[..|sessions| - 1]) + Kept(last)
    ensures Dropped(Record(sessions, last)) == Dropped(sessions[..|sessions| - 1]) + (if GaveUp(last) then 1 else 0)
    ensures Current(Record(sessions, last)) == last && Record(sessions, last) != []
  {
    assert Record(sessions, last)[..|sessions| - 1] == sessions[..|sessions| - 1];
  }

  lemma CurrentKept<T>(sessions: seq<Session<T>>)
    requires sessions != []
    ensures AllKept(sessions) == AllKept(sessions[..|sessions| - 1]) + Kept(Current(sessions))
    ensures Dropped(sessions) == Dropped(sessions[..|sessions| - 1]) + (if GaveUp(Current(sessions)) then 1 else 0)
  {
  }

  lemma HandlerKeepsInv<T>(s: Receiver<T>, capacity: nat)
    requires ReceiveInv(s, capacity)
    ensures ReceiveInv(HandlerStep(s, capacity), capacity)
  {
    match s.at
    case WriteFailed(m) =>
      if s.stop {
        DropKeepsInv(s, capacity);
      }
    case _ =>
  }

  lemma DropKeepsInv<T>(s: Receiver<T>, capacity: nat)
    requires ReceiveInv(s, capacity) && s.at.WriteFailed? && s.stop
    ensures ReceiveInv(HandlerStep(s, capacity), capacity)
  {
    hide AllKept, Dropped, Record;
    var now := Current(s.sessions);
    var front := AllKept(s.sessions[..|s.sessions| - 1]);
    var m := now.taken[|now.taken| - 1];
    RecordKept(s.sessions, now.(dropped := true));
    CurrentKept(s.sessions);
    assert now.taken == now.taken[..|now.taken| - 1] + [m];
    Assoc(front, now.taken[..|now.taken| - 1], [m]);
    Assoc(s.delivered, s.queue, [m]);
    SnocEqual(front + now.taken[..|now.taken| - 1], s.delivered + s.queue, m);
  }

  lemma SnocEqual<T>(a: seq<T>, b: seq<T>, x: T)
    requires a + [x] == b + [x]
    ensures a == b
  {
    assert (a + [x])[..|a|] == a && (b + [x])[..|b|] == b;
  }

  lemma ArriveKeepsInv<T>(s: Receiver<T>, m: T, capacity: nat)
    requires ReceiveInv(s, capacity) && s.at.Take?
    ensures ReceiveInv(ReceiveStep(s, Arrive(m), capacity), capacity)
  {
    hide AllKept, Dropped, Record;
    var now := Current(s.sessions);
    var front := AllKept(s.sessions[..|s.sessions| - 1]);
    RecordKept(s.sessions, now.(taken := now.taken + [m]));
    CurrentKept(s.sessions);
    Assoc(front, now.taken, [m]);
    Assoc(s.delivered, s.queue, [m]);
  }

  lemma StepKeepsInv<T>(s: Receiver<T>, a: ReceiveAction<T>, capacity: nat)
    requires ReceiveInv(s, capacity)
    ensures ReceiveInv(ReceiveStep(s, a, capacity), capacity)
  {
    match a
    case Start =>
      if s.at.Off? {
        BeginKeepsInv(s, capacity);
      }
    case Stop =>
    case Advance =>
      HandlerKeepsInv(s, capacity);
    case Arrive(m) =>
      if s.at.Take? {
        ArriveKeepsInv(s, m, capacity);
      }
    case Read =>
      if s.queue != [] {
        ReadKeepsInv(s, capacity);
      }
  }

  lemma BeginKeepsInv<T>(s: Receiver<T>, capacity: nat)
    requires ReceiveInv(s, capacity) && s.at.Off?
    ensures ReceiveInv(ReceiveStep(s, Start, capacity), capacity)
  {
    assert (s.sessions + [Session([], false)])[..|s.sessions|] == s.sessions;
  }

  lemma ReadKeepsInv<T>(s: Receiver<T>, capacity: nat)
    requires ReceiveInv(s, capacity) && s.queue != []
    ensures ReceiveInv(ReceiveStep(s, Read, capacity), capacity)
  {
    hide AllKept, Dropped;
    assert s.queue == [s.queue[0]] + s.queue[1..];
    Assoc(s.delivered, [s.queue[0]], s.queue[1..] + InHand(s.at));
    Assoc([s.queue[0]], s.queue[1..], InHand(s.at));
  }

  lemma {:induction false} ReceiveRunKeepsInv<T>(actions: seq<ReceiveAction<T>>, capacity: nat)
    ensures ReceiveInv(ReceiveRun(actions, capacity), capacity)
  {
    hide ReceiveStep;
    if actions != [] {
      ReceiveRunKeepsInv(actions[..|actions| - 1], capacity);
      StepKeepsInv(ReceiveRun(actions[..|actions| - 1], capacity), actions[|actions| - 1], capacity);
    }
  }

  /** In every reachable state, over any number of starts and stops: the messages taken from the chained receiver are,
      in order, those read out, those in the queue and the one in hand, except that each stop may have cost the last
      message of its session; no session that was not stopped has lost one. */
  lemma ReceiverIsFifo<T>(actions: seq<ReceiveAction<T>>, capacity: nat)
    ensures var s := ReceiveRun(actions, capacity);
            && AllKept(s.sessions) == s.delivered + (s.queue + InHand(s.at)) && |s.queue| <= capacity
            && Dropped(s.sessions) <= s.stops
            && (!s.at.Off? && !s.stop ==> s.sessions != [] && Kept(Current(s.sessions)) == Current(s.sessions).taken)
  {
    ReceiveRunKeepsInv(actions, capacity);
  }

  // --- messages get through ---

  /** Reading takes the oldest message of the queue, and nothing but an empty queue keeps it from doing so. */
  lemma ReadTakesOldest<T>(s: Receiver<T>, capacity: nat)
    ensures var t := ReceiveStep(s, Read, capacity);
            && (s.queue == [] ==> t == s)
            && (s.queue != [] ==> [t.delivered[|t.delivered| - 1]] + t.queue == s.queue
                                  && t.delivered[..|t.delivered| - 1] == s.delivered)
  {
  }

  /** In one round of a handler that is not stopped, a message that arrives gets into the queue if there is room. */
  lemma RoundQueues<T>(s: Receiver<T>, m: T, capacity: nat)
    requires s.at.TestStop? && !s.stop && |s.queue| < capacity && s.sessions != []
    ensures var s1 := ReceiveStep(s, Advance, capacity);
            var s2 := ReceiveStep(s1, Arrive(m), capacity);
            var s3 := ReceiveStep(s2, Advance, capacity);
            var t := ReceiveStep(s3, Advance, capacity);
            && t.at.TestStop? && t.queue == s.queue + [m] && t.delivered == s.delivered
            && Current(t.sessions).taken == Current(s.sessions).taken + [m]
  {
  }

  /** A handler that finds the queue full tries again, and keeps the message until there is room or it is stopped. */
  lemma FullQueueWaits<T>(s: Receiver<T>, m: T, capacity: nat)
    requires s.at == Hold(m) && |s.queue| >= capacity && !s.stop
    ensures ReceiveStep(ReceiveStep(s, Advance, capacity), Advance, capacity) == s
  {
  }

  /** After a stop the handler ends after at most four steps, whatever it was doing; then it can be started again. */
  lemma StopEndsHandler<T>(s: Receiver<T>, capacity: nat)
    ensures var s1 := ReceiveStep(s, Stop, capacity);
            var t := HandlerStep(HandlerStep(HandlerStep(HandlerStep(s1, capacity), capacity), capacity), capacity);
            var u := ReceiveStep(t, Start, capacity);
            && t.at.Off? && u.at.TestStop? && !u.stop && u.queue == t.queue
            && u.sessions == t.sessions + [Session([], false)]
  {
  }
}
