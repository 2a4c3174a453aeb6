/** The sending relay (`QueueSender`): a handler thread moves messages from a bounded queue to the chained sender,
    while other threads use the other end of the queue and start and stop the handler. Every access to the stop flag or
    the queue is one step. A write to a full queue fails and leaves the message intact. */
module QueueSender {
  import opened Sequences

  datatype SendPoint<T> = Idle | TestFlag | TestSize | TakeOut | HandOver(message: T) | Publish

  // A message handed to the chained sender, and whether that took it.
  datatype Handover<T> = Handover(message: T, taken: bool)

  datatype Sender<T> = Sender(at: SendPoint<T>, stop: bool, queue: seq<T>, queued: seq<T>, handed: seq<Handover<T>>)

  // `taken` is the answer of the chained sender, if it is asked.
  datatype SendAction<T> = Begin | Halt | Proceed(taken: bool) | Send(message: T)

  function NewSender<T>(): Sender<T> {
    Sender(Idle, false, [], [], [])
  }

  /** Sending answers whether there was room; the handler ignores the answer of the chained sender. */
  function SendStep<T>(s: Sender<T>, a: SendAction<T>, capacity: nat): Sender<T> {
    match a
    case Begin => if s.at.Idle? then s.(at := TestFlag, stop := false) else s
    case Halt => if s.at.Idle? then s else s.(stop := true)
    case Send(m) => if |s.queue| < capacity then s.(queue := s.queue + [m], queued := s.queued + [m]) else s
    case Proceed(taken) =>
      match s.at
      case Idle => s
      case TestFlag => s.(at := if s.stop then Idle else TestSize)
      case TestSize => s.(at := if s.queue != [] then TakeOut else Publish)
      case TakeOut => if s.queue == [] then s.(at := Publish) else s.(at := HandOver(s.queue[0]), queue := s.queue[1..])
      case HandOver(m) => s.(at := Publish, handed := s.handed + [Handover(m, taken)])
      case Publish => s.(at := TestFlag)
  }

  /** The messages handed over, those that were taken, and the number of those refused. */
  function Messages<T>(handed: seq<Handover<T>>): seq<T> {
    if handed == [] then [] else Messages(handed[..|handed| - 1]) + [handed[|handed| - 1].message]
  }

  function TakenOver<T>(handed: seq<Handover<T>>): seq<T> {
    if handed == [] then []
    else
      var last := handed[|handed| - 1];
      TakenOver(handed[..|handed| - 1]) + (if last.taken then [last.message] else [])
  }

  function Refused<T>(handed: seq<Handover<T>>): nat {
    if handed == [] then 0 else Refused(handed[..|handed| - 1]) + (if handed[|handed| - 1].taken then 0 else 1)
  }

  lemma HandoverNext<T>(handed: seq<Handover<T>>, h: Handover<T>)
    ensures Messages(handed + [h]) == Messages(handed) + [h.message]
    ensures TakenOver(handed + [h]) == TakenOver(handed) + (if h.taken then [h.message] else [])
  {
    assert (handed + [h])[..|handed|] == handed;
  }

  lemma {:induction false} HandoverSizes<T>(handed: seq<Handover<T>>)
    ensures |Messages(handed)| == |TakenOver(handed)| + Refused(handed)
    ensures Refused(handed) == 0 ==> Messages(handed) == TakenOver(handed)
  {
    if handed != [] {
      HandoverSizes(handed[..|handed| - 1]);
    }
  }

  function SendRun<T>(actions: seq<SendAction<T>>, capacity: nat): Sender<T> {
    if actions == [] then NewSender()
    else SendStep(SendRun(actions[..|actions| - 1], capacity), actions[|actions| - 1], capacity)
  }

  /** The message on the way to the chained sender, if there is one, and those in the queue. */
  function Unsent<T>(s: Sender<T>): seq<T> {
    if s.at.HandOver? then [s.at.message] + s.queue else s.queue
  }

  ghost predicate SendInv<T>(s: Sender<T>, capacity: nat) {
    s.queued == Messages(s.handed) + Unsent(s) && |s.queue| <= capacity
  }

  lemma SendKeepsInv<T>(s: Sender<T>, a: SendAction<T>, capacity: nat)
    requires SendInv(s, capacity)
    ensures SendInv(SendStep(s, a, capacity), capacity)
  {
    hide Messages;
    match a
    case Send(m) =>
      Assoc(Messages(s.handed), Unsent(s), [m]);
      if s.at.HandOver? {
        Assoc([s.at.message], s.queue, [m]);
      }
    case Proceed(taken) =>
      if s.at.TakeOut? && s.queue != [] {
        assert s.queue == [s.queue[0]] + s.queue[1..];
      } else if s.at.HandOver? {
        HandoverNext(s.handed, Handover(s.at.message, taken));
        Assoc(Messages(s.handed), [s.at.message], s.queue);
      }
    case _ =>
  }

  /** Over any number of starts and stops, the messages accepted into the queue are, in order, those handed to the
      chained sender, taken or not, the one on the way and those in the queue; a stopped handler has none on the way. */
  lemma {:induction false} SenderIsFifo<T>(actions: seq<SendAction<T>>, capacity: nat)
    ensures var s := SendRun(actions, capacity);
            && s.queued == Messages(s.handed) + Unsent(s) && |s.queue| <= capacity
            && (s.at.Idle? ==> Unsent(s) == s.queue)
  {
    if actions != [] {
      SenderIsFifo(actions[..|actions| - 1], capacity);
      SendKeepsInv(SendRun(actions[..|actions| - 1], capacity), actions[|actions| - 1], capacity);
    }
  }

  // --- messages get through ---

  /** In one round of a handler that is not stopped, the oldest message of the queue is handed to the chained sender. */
  lemma RoundHandsOver<T>(s: Sender<T>, taken: bool, capacity: nat)
    requires s.at.TestFlag? && !s.stop && s.queue != []
    ensures var s1 := SendStep(s, Proceed(taken), capacity);
            var s2 := SendStep(s1, Proceed(taken), capacity);
            var s3 := SendStep(s2, Proceed(taken), capacity);
            var s4 := SendStep(s3, Proceed(taken), capacity);
            var t := SendStep(s4, Proceed(taken), capacity);
            && t.at.TestFlag? && t.queue == s.queue[1..] && t.queued == s.queued
            && t.handed == s.handed + [Handover(s.queue[0], taken)]
  {
  }

  /** Sending puts a message behind the others exactly if there is room. */
  lemma SendQueues<T>(s: Sender<T>, m: T, capacity: nat)
    ensures var t := SendStep(s, Send(m), capacity);
            && t.queue == s.queue + (if |s.queue| < capacity then [m] else [])
            && t.queued == s.queued + (if |s.queue| < capacity then [m] else []) && t.handed == s.handed
  {
  }

  /** After a stop the handler ends after at most five steps, with the message in hand handed over; then it can be
      started again. */
  lemma StopEndsSender<T>(s: Sender<T>, taken: bool, capacity: nat)
    ensures var s1 := SendStep(SendStep(SendStep(s, Halt, capacity), Proceed(taken), capacity),
                               Proceed(taken), capacity);
            var t := SendStep(SendStep(SendStep(s1, Proceed(taken), capacity), Proceed(taken), capacity),
                              Proceed(taken), capacity);
            var u := SendStep(t, Begin, capacity);
            && t.at.Idle? && u.at.TestFlag? && !u.stop && u.queue == t.queue && u.handed == t.handed
  {
  }
}
