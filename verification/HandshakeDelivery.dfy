/**
 What the handshake delivers, over every run: what the client published is handed over, what was handed over is
 acknowledged, what was queued is written, and the channels lose nothing.
 */
module HandshakeDelivery {
  import opened Wrappers
  import opened Bytes
  import opened Handshakes
  import opened HandshakeSafety

  // ---------------------------------------------------------------- what a trace says

  function ReadPackets(trace: seq<Event>): seq<Packet> {
    if trace == [] then []
    else
      ReadPackets(trace[..|trace| - 1]) +
      match trace[|trace| - 1]
      case Read(p) => [p]
      case _ => []
  }

  function WrittenPackets(trace: seq<Event>): seq<Packet> {
    if trace == [] then []
    else
      WrittenPackets(trace[..|trace| - 1]) +
      match trace[|trace| - 1]
      case Wrote(p) => [p]
      case _ => []
  }

  function HandedPackets(trace: seq<Event>): seq<Packet> {
    if trace == [] then []
    else
      HandedPackets(trace[..|trace| - 1]) +
      match trace[|trace| - 1]
      case Handed(p) => [p]
      case _ => []
  }

  /** The messages written, in order, whatever ids they were given. */
  function SentMessages(trace: seq<Event>): seq<Outgoing> {
    if trace == [] then []
    else
      SentMessages(trace[..|trace| - 1]) +
      match trace[|trace| - 1]
      case Wrote(Publish(qos, _, message)) => [Outgoing(qos, message)]
      case _ => []
  }

  /** The acknowledgement that ends an inbound handshake. */
  function LastReply(p: Packet): Option<Packet> {
    match p
    case Publish(1, id, _) => Some(PubAck(id))
    case Publish(2, id, _) => Some(PubComp(id))
    case _ => None
  }

  /** The last replies due for the packets handed over. */
  function Due(trace: seq<Event>): seq<Option<Packet>> {
    if trace == [] then []
    else
      Due(trace[..|trace| - 1]) +
      match trace[|trace| - 1]
      case Handed(p) => [LastReply(p)]
      case _ => []
  }

  predicate EndsHandshake(p: Packet) {
    p.PubAck? || p.PubComp?
  }

  // ---------------------------------------------------------------- what the threads and the writer hold

  /** The packet a thread has still to hand over. */
  function Unhanded(thread: Thread): Option<Packet> {
    if thread.at == Published || thread.at == Finished then None else Some(Publish(thread.qos, thread.id, thread.message))
  }

  function AllUnhanded(threads: seq<Thread>): seq<Option<Packet>> {
    seq(|threads|, t requires 0 <= t < |threads| => Unhanded(threads[t]))
  }

  /** The last reply a thread has still to write for what it has handed over. */
  function Unreplied(thread: Thread): Option<Packet> {
    if thread.at == Published then LastReply(Publish(thread.qos, thread.id, thread.message)) else None
  }

  function AllUnreplied(threads: seq<Thread>): seq<Option<Packet>> {
    seq(|threads|, t requires 0 <= t < |threads| => Unreplied(threads[t]))
  }

  function Unwritten(w: WriterAt): seq<Outgoing> {
    if w.Armed? then [Outgoing(w.qos, w.message)] else []
  }

  // ---------------------------------------------------------------- one step

  /** The event of a step, if it has one. */
  function EventOf(s: State, a: Action): seq<Event>
    requires Enabled(s, a)
  {
    match a
    case WriterStep =>
      (match s.writer
       case Ready => if s.queue[0].qos == 0 then [Wrote(Publish(0, 0, s.queue[0].message))] else []
       case Armed(qos, id, message) => [Wrote(Publish(qos, id, message))]
       case RelArmed(id) => [Wrote(PubRel(id))]
       case _ => [])
    case ReaderStep(owner) => [Read(s.fromClient[0])]
    case ThreadStep(t) => ThreadEvents(s.threads[t])
    case _ => []
  }

  function ThreadEvents(thread: Thread): seq<Event> {
    var packet := Publish(thread.qos, thread.id, thread.message);
    match thread.at
    case Started => if thread.qos == 2 then [] else [Handed(packet)]
    case Listening => [Wrote(PubRec(thread.id))]
    case Released => [Handed(packet)]
    case Published => [Wrote(if thread.qos == 2 then PubComp(thread.id) else PubAck(thread.id))]
    case _ => []
  }

  lemma NextEvents(s: State, a: Action)
    requires Enabled(s, a)
    ensures Next(s, a).trace == s.trace + EventOf(s, a) && |EventOf(s, a)| <= 1
  {
    assert s.trace + [] == s.trace;
  }

  lemma Snoc(trace: seq<Event>, events: seq<Event>)
    requires |events| <= 1
    ensures ReadPackets(trace + events) == ReadPackets(trace) + ReadPackets(events)
    ensures WrittenPackets(trace + events) == WrittenPackets(trace) + WrittenPackets(events)
    ensures HandedPackets(trace + events) == HandedPackets(trace) + HandedPackets(events)
    ensures SentMessages(trace + events) == SentMessages(trace) + SentMessages(events)
    ensures Due(trace + events) == Due(trace) + Due(events)
  {
    hide ReadPackets, WrittenPackets, HandedPackets, SentMessages, Due;
    NoPackets();
    if events == [] {
      assert trace + events == trace;
    } else {
      assert events == [events[0]];
      OnePacket(events[0]);
      OneMorePacket(trace, events[0]);
      OneMoreHanded(trace, events[0]);
    }
  }

  lemma OneMorePacket(trace: seq<Event>, e: Event)
    ensures ReadPackets(trace + [e]) == ReadPackets(trace) + if e.Read? then [e.packet] else []
    ensures WrittenPackets(trace + [e]) == WrittenPackets(trace) + if e.Wrote? then [e.packet] else []
  {
    assert (trace + [e])[..|trace|] == trace && (trace + [e])[|trace|] == e;
  }

  lemma OneMoreHanded(trace: seq<Event>, e: Event)
    ensures HandedPackets(trace + [e]) == HandedPackets(trace) + if e.Handed? then [e.packet] else []
    ensures Due(trace + [e]) == Due(trace) + if e.Handed? then [LastReply(e.packet)] else []
    ensures SentMessages(trace + [e]) ==
            SentMessages(trace) + if e.Wrote? && e.packet.Publish? then [Outgoing(e.packet.qos, e.packet.message)] else []
  {
    assert (trace + [e])[..|trace|] == trace && (trace + [e])[|trace|] == e;
  }

  /** What a step does to the threads. */
  lemma NextThreads(s: State, a: Action)
    requires Enabled(s, a)
    ensures var threads := Next(s, a).threads;
            match a
            case ReaderStep(owner) =>
              var p := s.fromClient[0];
              threads == s.threads + if p.Publish? then [Thread(p.qos, p.id, p.message, Started)] else []
            case ThreadStep(t) => threads == s.threads[t := s.threads[t].(at := NextAt(s.threads[t]))]
            case _ => threads == s.threads
  {
    match a
    case ThreadStep(t) => ThreadMoves(s, t);
    case _ => assert s.threads + [] == s.threads;
  }

  lemma UnhandedChanges(threads: seq<Thread>, t: nat, thread: Thread, p: Option<Packet>)
    ensures multiset(AllUnhanded(threads + [thread]))[p] == multiset(AllUnhanded(threads))[p] + if Unhanded(thread) == p then 1 else 0
    ensures t < |threads| ==>
              multiset(AllUnhanded(threads[t := thread]))[p] + (if Unhanded(threads[t]) == p then 1 else 0) ==
              multiset(AllUnhanded(threads))[p] + if Unhanded(thread) == p then 1 else 0
  {
    hide Unhanded;
    assert AllUnhanded(threads + [thread]) == AllUnhanded(threads) + [Unhanded(thread)];
    CountAppend(AllUnhanded(threads), Unhanded(thread));
    if t < |threads| {
      assert AllUnhanded(threads[t := thread]) == AllUnhanded(threads)[t := Unhanded(thread)];
      CountSet(AllUnhanded(threads), t, Unhanded(thread));
    }
  }

  lemma UnrepliedChanges(threads: seq<Thread>, t: nat, thread: Thread, p: Option<Packet>)
    ensures multiset(AllUnreplied(threads + [thread]))[p] == multiset(AllUnreplied(threads))[p] + if Unreplied(thread) == p then 1 else 0
    ensures t < |threads| ==>
              multiset(AllUnreplied(threads[t := thread]))[p] + (if Unreplied(threads[t]) == p then 1 else 0) ==
              multiset(AllUnreplied(threads))[p] + if Unreplied(thread) == p then 1 else 0
  {
    hide Unreplied;
    assert AllUnreplied(threads + [thread]) == AllUnreplied(threads) + [Unreplied(thread)];
    CountAppend(AllUnreplied(threads), Unreplied(thread));
    if t < |threads| {
      assert AllUnreplied(threads[t := thread]) == AllUnreplied(threads)[t := Unreplied(thread)];
      CountSet(AllUnreplied(threads), t, Unreplied(thread));
    }
  }

  lemma OnePacket(e: Event)
    ensures ReadPackets([e]) == if e.Read? then [e.packet] else []
    ensures WrittenPackets([e]) == if e.Wrote? then [e.packet] else []
    ensures HandedPackets([e]) == if e.Handed? then [e.packet] else []
    ensures SentMessages([e]) == if e.Wrote? && e.packet.Publish? then [Outgoing(e.packet.qos, e.packet.message)] else []
    ensures Due([e]) == if e.Handed? then [LastReply(e.packet)] else []
  {
    hide ReadPackets, WrittenPackets, HandedPackets, SentMessages, Due;
    NoPackets();
    assert [] + [e] == [e];
    OneMorePacket([], e);
    OneMoreHanded([], e);
  }

  lemma NoPackets()
    ensures ReadPackets([]) == [] && WrittenPackets([]) == [] && HandedPackets([]) == [] && SentMessages([]) == [] && Due([]) == []
  {
  }

  /** What one more event adds to the counts of a packet. */
  lemma EventCounts(trace: seq<Event>, events: seq<Event>, p: Packet)
    requires |events| <= 1
    ensures var all := trace + events;
            && multiset(ReadPackets(all))[p] == multiset(ReadPackets(trace))[p] + (if events == [Read(p)] then 1 else 0)
            && multiset(WrittenPackets(all))[p] == multiset(WrittenPackets(trace))[p] + (if events == [Wrote(p)] then 1 else 0)
            && multiset(HandedPackets(all))[p] == multiset(HandedPackets(trace))[p] + (if events == [Handed(p)] then 1 else 0)
            && multiset(Due(all))[Some(p)] ==
               multiset(Due(trace))[Some(p)] +
               (if events != [] && events[0].Handed? && LastReply(events[0].packet) == Some(p) then 1 else 0)
  {
    hide ReadPackets, WrittenPackets, HandedPackets, Due, SentMessages, LastReply;
    Snoc(trace, events);
    NoPackets();
    if events == [] {
      assert trace + events == trace;
    } else {
      assert events == [events[0]];
      OnePacket(events[0]);
    }
  }

  // ---------------------------------------------------------------- nothing read is lost

  /** The PUBLISH packets read are those handed over and those a thread has still to hand over. */
  ghost predicate Conserved(s: State, p: Packet) {
    multiset(ReadPackets(s.trace))[p] == multiset(HandedPackets(s.trace))[p] + multiset(AllUnhanded(s.threads))[Some(p)]
  }

  lemma ThreadConserves(s: State, t: nat, p: Packet)
    requires Enabled(s, ThreadStep(t)) && Conserved(s, p)
    ensures Conserved(Next(s, ThreadStep(t)), p)
  {
    hide ReadPackets, HandedPackets, WrittenPackets, Due, AllUnhanded, Next;
    var thread := s.threads[t];
    NextEvents(s, ThreadStep(t));
    NextThreads(s, ThreadStep(t));
    EventCounts(s.trace, ThreadEvents(thread), p);
    UnhandedChanges(s.threads, t, thread.(at := NextAt(thread)), Some(p));
  }

  lemma ReaderConserves(s: State, owner: Owner, p: Packet)
    requires p.Publish? && Enabled(s, ReaderStep(owner)) && Conserved(s, p)
    ensures Conserved(Next(s, ReaderStep(owner)), p)
  {
    hide ReadPackets, HandedPackets, WrittenPackets, Due, AllUnhanded, Next;
    var x := s.fromClient[0];
    NextEvents(s, ReaderStep(owner));
    NextThreads(s, ReaderStep(owner));
    EventCounts(s.trace, [Read(x)], p);
    if x.Publish? {
      UnhandedChanges(s.threads, 0, Thread(x.qos, x.id, x.message, Started), Some(p));
    } else {
      assert s.threads + [] == s.threads;
    }
  }

  lemma OthersConserve(s: State, a: Action, p: Packet)
    requires Enabled(s, a) && !a.ThreadStep? && !a.ReaderStep? && Conserved(s, p)
    ensures Conserved(Next(s, a), p)
  {
    hide ReadPackets, HandedPackets, WrittenPackets, Due, AllUnhanded, Next;
    NextEvents(s, a);
    NextThreads(s, a);
    EventCounts(s.trace, EventOf(s, a), p);
  }

  /**
   In every run, whatever its qos: as often as a PUBLISH was read it has been handed to the broker, with its id and message,
   but for the threads that have still to do so.
   */
  lemma {:induction false} PublishesHandedOver(actions: seq<Action>, p: Packet)
    requires Runs(actions) && p.Publish?
    ensures var s := After(actions);
            multiset(ReadPackets(s.trace))[p] == multiset(HandedPackets(s.trace))[p] + multiset(AllUnhanded(s.threads))[Some(p)]
    decreases |actions|
  {
    hide Enabled, Next, Conserved;
    if actions == [] {
      NothingRead(p);
    } else {
      var init, last := actions[..|actions| - 1], actions[|actions| - 1];
      PublishesHandedOver(init, p);
      var s := After(init);
      IsConserved(s, p);
      match last {
        case ReaderStep(owner) => ReaderConserves(s, owner, p);
        case ThreadStep(t) => ThreadConserves(s, t, p);
        case _ => OthersConserve(s, last, p);
      }
    }
    IsConserved(After(actions), p);
  }

  lemma IsConserved(s: State, p: Packet)
    ensures Conserved(s, p) <==>
            multiset(ReadPackets(s.trace))[p] == multiset(HandedPackets(s.trace))[p] + multiset(AllUnhanded(s.threads))[Some(p)]
  {
  }

  lemma NothingRead(p: Packet)
    ensures Conserved(START, p)
  {
    assert AllUnhanded([]) == [];
  }

  // ---------------------------------------------------------------- what is handed over is acknowledged, and nothing else

  ghost predicate Replied(s: State, a: Packet) {
    multiset(WrittenPackets(s.trace))[a] + multiset(AllUnreplied(s.threads))[Some(a)] == multiset(Due(s.trace))[Some(a)]
  }

  predicate PublishedAbove(threads: seq<Thread>) {
    forall t :: 0 <= t < |threads| && threads[t].at == Published ==> threads[t].qos > 0
  }

  lemma {:induction false} PublishedQos(actions: seq<Action>)
    requires Runs(actions)
    ensures PublishedAbove(After(actions).threads)
    decreases |actions|
  {
    hide Enabled, Next, Shaped;
    if actions != [] {
      var init, last := actions[..|actions| - 1], actions[|actions| - 1];
      PublishedQos(init);
      ShapedRun(init);
      var s := After(init);
      NextThreads(s, last);
      if last.ThreadStep? {
        ReleasedQos(s, last.t);
        assert NextAt(s.threads[last.t]) == Published ==> s.threads[last.t].qos > 0;
      }
    }
  }

  lemma ReleasedQos(s: State, t: nat)
    requires Shaped(s) && Enabled(s, ThreadStep(t))
    ensures t < |s.threads| && s.threads[t].qos <= 2 && (s.threads[t].at in {Listening, Awaiting, Released} ==> s.threads[t].qos == 2)
  {
  }

  lemma ThreadReplies(s: State, t: nat, a: Packet)
    requires Shaped(s) && PublishedAbove(s.threads) && EndsHandshake(a) && Enabled(s, ThreadStep(t)) && Replied(s, a)
    ensures Replied(Next(s, ThreadStep(t)), a)
  {
    hide ReadPackets, HandedPackets, WrittenPackets, Due, AllUnreplied, Next, Shaped;
    ReleasedQos(s, t);
    var thread := s.threads[t];
    NextEvents(s, ThreadStep(t));
    NextThreads(s, ThreadStep(t));
    EventCounts(s.trace, ThreadEvents(thread), a);
    UnrepliedChanges(s.threads, t, thread.(at := NextAt(thread)), Some(a));
  }

  lemma OthersReply(s: State, last: Action, a: Packet)
    requires Enabled(s, last) && !last.ThreadStep? && EndsHandshake(a) && Replied(s, a)
    ensures Replied(Next(s, last), a)
  {
    hide ReadPackets, HandedPackets, WrittenPackets, Due, AllUnreplied, Next;
    NextEvents(s, last);
    NextThreads(s, last);
    EventCounts(s.trace, EventOf(s, last), a);
    if last.ReaderStep? {
      var x := s.fromClient[0];
      if x.Publish? {
        UnrepliedChanges(s.threads, 0, Thread(x.qos, x.id, x.message, Started), Some(a));
      } else {
        assert s.threads + [] == s.threads;
      }
    }
  }

  /**
   In every run, each PUBACK of an id is written for a qos 1 message of that id that was handed over, and each PUBCOMP for
   one of qos 2: as many as were handed over, but for the threads that have still to write theirs, and never before.
   */
  lemma RepliesWritten(actions: seq<Action>, a: Packet)
    requires Runs(actions) && EndsHandshake(a)
    ensures var s := After(actions);
            && multiset(WrittenPackets(s.trace))[a] + multiset(AllUnreplied(s.threads))[Some(a)] == multiset(Due(s.trace))[Some(a)]
            && forall i :: 0 <= i <= |s.trace| ==>
                 multiset(WrittenPackets(s.trace[..i]))[a] <= multiset(Due(s.trace[..i]))[Some(a)]
  {
    hide Runs, After, Replied, WrittenPackets, Due, AllUnreplied;
    var s := After(actions);
    RunReplies(actions, a);
    IsReplied(s, a);
    forall i | 0 <= i <= |s.trace|
      ensures multiset(WrittenPackets(s.trace[..i]))[a] <= multiset(Due(s.trace[..i]))[Some(a)]
    {
      NeverBefore(actions, a, i);
    }
  }

  lemma {:induction false} RunReplies(actions: seq<Action>, a: Packet)
    requires Runs(actions) && EndsHandshake(a)
    ensures Replied(After(actions), a)
    decreases |actions|
  {
    hide Enabled, Next, Replied, Shaped;
    if actions == [] {
      NothingDue(a);
    } else {
      var init, last := actions[..|actions| - 1], actions[|actions| - 1];
      RunReplies(init, a);
      PublishedQos(init);
      ShapedRun(init);
      if last.ThreadStep? {
        ThreadReplies(After(init), last.t, a);
      } else {
        OthersReply(After(init), last, a);
      }
    }
  }

  lemma {:induction false} NeverBefore(actions: seq<Action>, a: Packet, i: nat)
    requires Runs(actions) && EndsHandshake(a) && i <= |After(actions).trace|
    ensures var trace := After(actions).trace[..i]; multiset(WrittenPackets(trace))[a] <= multiset(Due(trace))[Some(a)]
    decreases |actions|
  {
    hide Enabled, Next, Replied, WrittenPackets, Due, AllUnreplied;
    var s := After(actions);
    if i == |s.trace| {
      RunReplies(actions, a);
      IsReplied(s, a);
      assert s.trace[..i] == s.trace;
    } else {
      assert actions != [];
      var init := actions[..|actions| - 1];
      NextEvents(After(init), actions[|actions| - 1]);
      NeverBefore(init, a, i);
      assert s.trace[..i] == After(init).trace[..i];
    }
  }

  lemma IsReplied(s: State, a: Packet)
    ensures Replied(s, a) <==>
            multiset(WrittenPackets(s.trace))[a] + multiset(AllUnreplied(s.threads))[Some(a)] == multiset(Due(s.trace))[Some(a)]
  {
  }

  lemma NothingDue(a: Packet)
    ensures Replied(START, a)
  {
    assert AllUnreplied([]) == [];
  }

  // ---------------------------------------------------------------- what is queued is written

  /** The messages the broker queued for this client. */
  function QueuedMessages(actions: seq<Action>): seq<Outgoing> {
    if actions == [] then []
    else
      QueuedMessages(actions[..|actions| - 1]) +
      match actions[|actions| - 1]
      case Queue(outgoing) => [outgoing]
      case _ => []
  }

  /** In every run the messages written are those queued, in order, but for the one in hand and those still queued. */
  lemma {:induction false} MessagesWritten(actions: seq<Action>)
    requires Runs(actions)
    ensures var s := After(actions); QueuedMessages(actions) == SentMessages(s.trace) + Unwritten(s.writer) + s.queue
    decreases |actions|
  {
    hide Enabled, Next, SentMessages;
    NoPackets();
    if actions != [] {
      var init, last := actions[..|actions| - 1], actions[|actions| - 1];
      MessagesWritten(init);
      NextMessages(After(init), last);
    }
  }

  lemma NextMessages(s: State, a: Action)
    requires Enabled(s, a)
    ensures var next := Next(s, a);
            SentMessages(next.trace) + Unwritten(next.writer) + next.queue ==
            SentMessages(s.trace) + Unwritten(s.writer) + s.queue + if a.Queue? then [a.outgoing] else []
  {
    hide ReadPackets, HandedPackets, WrittenPackets, SentMessages, Due, Enabled, Next, EventOf, Unwritten;
    NextEvents(s, a);
    Snoc(s.trace, EventOf(s, a));
    var next, sent, added := Next(s, a), SentMessages(s.trace), SentMessages(EventOf(s, a));
    Parts(sent, added, Unwritten(next.writer), next.queue);
    if a.WriterStep? {
      WriterMessages(s);
      Parts(sent, [], Unwritten(s.writer), s.queue);
      assert sent + [] == sent && [] + Unwritten(s.writer) == Unwritten(s.writer);
      assert sent + Unwritten(s.writer) + s.queue + [] == sent + Unwritten(s.writer) + s.queue;
    } else {
      OtherMessages(s, a);
      assert sent + [] == sent;
      Parts([], sent + Unwritten(s.writer), s.queue, if a.Queue? then [a.outgoing] else []);
      assert [] + (sent + Unwritten(s.writer)) == sent + Unwritten(s.writer);
    }
  }

  lemma Parts<T>(a: seq<T>, b: seq<T>, c: seq<T>, d: seq<T>)
    ensures ((a + b) + c) + d == a + ((b + c) + d) == (a + b) + (c + d)
  {
  }

  lemma WriterMessages(s: State)
    requires Enabled(s, WriterStep)
    ensures var next := Next(s, WriterStep);
            SentMessages(EventOf(s, WriterStep)) + Unwritten(next.writer) + next.queue == Unwritten(s.writer) + s.queue
  {
    hide SentMessages, EventOf, Next;
    WriterEvents(s);
    WriterMoves(s);
    if s.writer.Ready? {
      assert s.queue == [s.queue[0]] + s.queue[1..];
    }
  }

  lemma WriterEvents(s: State)
    requires Enabled(s, WriterStep)
    ensures SentMessages(EventOf(s, WriterStep)) ==
            match s.writer
            case Ready => if s.queue[0].qos == 0 then [s.queue[0]] else []
            case Armed(qos, id, message) => [Outgoing(qos, message)]
            case _ => []
  {
    hide SentMessages;
    NoPackets();
    match s.writer
    case Ready => OnePacket(Wrote(Publish(0, 0, s.queue[0].message)));
    case Armed(qos, id, message) => OnePacket(Wrote(Publish(qos, id, message)));
    case RelArmed(id) => OnePacket(Wrote(PubRel(id)));
    case _ =>
  }

  lemma WriterMoves(s: State)
    requires Enabled(s, WriterStep)
    ensures var next := Next(s, WriterStep);
            && next.queue == (if s.writer.Ready? then s.queue[1..] else s.queue)
            && Unwritten(next.writer) == if s.writer.Ready? && s.queue[0].qos > 0 then [s.queue[0]] else []
  {
  }

  lemma OtherMessages(s: State, a: Action)
    requires Enabled(s, a) && !a.WriterStep?
    ensures var next := Next(s, a);
            && SentMessages(EventOf(s, a)) == [] && next.writer == s.writer
            && next.queue == s.queue + if a.Queue? then [a.outgoing] else []
  {
    hide SentMessages, ThreadSteps, ReaderSteps;
    NoPackets();
    match a
    case ReaderStep(owner) =>
      OnePacket(Read(s.fromClient[0]));
      ReaderQueues(s, owner);
    case ThreadStep(t) =>
      ThreadMoves(s, t);
      var events := ThreadEvents(s.threads[t]);
      if events != [] {
        OnePacket(events[0]);
        assert events == [events[0]];
      }
    case _ =>
  }

  lemma ReaderQueues(s: State, owner: Owner)
    requires ReaderEnabled(s, owner)
    ensures var next := ReaderSteps(s, owner);
            && next.queue == s.queue && next.writer == s.writer && next.toClient == s.toClient && next.fromClient == s.fromClient[1..]
  {
  }

  // ---------------------------------------------------------------- the channels

  /** What the client sent, in order, and how many packets it has read. */
  function ClientSent(actions: seq<Action>): seq<Packet> {
    if actions == [] then []
    else
      ClientSent(actions[..|actions| - 1]) +
      match actions[|actions| - 1]
      case ClientAnswers(answer) => [answer]
      case ClientPublishes(p) => [p]
      case _ => []
  }

  function ClientRead(actions: seq<Action>): nat {
    if actions == [] then 0 else ClientRead(actions[..|actions| - 1]) + if actions[|actions| - 1].ClientReads? then 1 else 0
  }

  /** In every run each side reads what the other wrote, in order, but for what is on its way. */
  lemma {:induction false} ChannelsKeep(actions: seq<Action>)
    requires Runs(actions)
    ensures var s := After(actions);
            && ReadPackets(s.trace) + s.fromClient == ClientSent(actions)
            && ClientRead(actions) <= |WrittenPackets(s.trace)|
            && WrittenPackets(s.trace)[ClientRead(actions)..] == s.toClient
    decreases |actions|
  {
    hide Enabled, Next, ReadPackets, WrittenPackets;
    NoPackets();
    if actions != [] {
      var init, last := actions[..|actions| - 1], actions[|actions| - 1];
      var before := After(init);
      ChannelsKeep(init);
      NextPackets(before, last);
      var n := ClientRead(init);
      assert before.toClient != [] ==> WrittenPackets(before.trace)[n..][1..] == WrittenPackets(before.trace)[n + 1..];
    }
  }

  lemma NextPackets(s: State, a: Action)
    requires Enabled(s, a)
    ensures var next := Next(s, a);
            && ReadPackets(next.trace) + next.fromClient ==
               ReadPackets(s.trace) + s.fromClient +
               (match a case ClientAnswers(answer) => [answer] case ClientPublishes(p) => [p] case _ => [])
            && WrittenPackets(next.trace) == WrittenPackets(s.trace) + WrittenPackets(EventOf(s, a))
            && (if a.ClientReads? then s.toClient != [] && next.toClient == s.toClient[1..]
                else next.toClient == s.toClient + WrittenPackets(EventOf(s, a)))
            && (a.ClientReads? ==> EventOf(s, a) == [])
  {
    hide ReadPackets, HandedPackets, WrittenPackets, SentMessages, Due, Enabled, Next, EventOf;
    NextEvents(s, a);
    Snoc(s.trace, EventOf(s, a));
    ReadNext(s, a);
    WrittenNext(s, a);
    var read, added := ReadPackets(s.trace), ReadPackets(EventOf(s, a));
    Parts([], read, added, Next(s, a).fromClient);
    Parts([], read, s.fromClient, match a case ClientAnswers(answer) => [answer] case ClientPublishes(p) => [p] case _ => []);
    assert [] + read == read;
  }

  lemma ReadNext(s: State, a: Action)
    requires Enabled(s, a)
    ensures ReadPackets(EventOf(s, a)) + Next(s, a).fromClient ==
            s.fromClient + match a case ClientAnswers(answer) => [answer] case ClientPublishes(p) => [p] case _ => []
  {
    hide ReadPackets, ThreadSteps, WriterSteps, ReaderSteps, ThreadEvents;
    NoPackets();
    match a
    case ReaderStep(owner) =>
      OnePacket(Read(s.fromClient[0]));
      ReaderQueues(s, owner);
      assert s.fromClient == [s.fromClient[0]] + s.fromClient[1..];
    case ThreadStep(t) =>
      ThreadMoves(s, t);
      ThreadPackets(s.threads[t]);
    case WriterStep =>
      WriterChannels(s);
    case _ =>
  }

  /** The packets of a thread's step: none read, and written what it writes. */
  lemma ThreadPackets(thread: Thread)
    ensures ReadPackets(ThreadEvents(thread)) == [] && |ThreadEvents(thread)| <= 1
    ensures WrittenPackets(ThreadEvents(thread)) == if ThreadEvents(thread) != [] && ThreadEvents(thread)[0].Wrote? then [ThreadEvents(thread)[0].packet] else []
  {
    hide ReadPackets, WrittenPackets;
    NoPackets();
    var events := ThreadEvents(thread);
    if events != [] {
      OnePacket(events[0]);
      assert events == [events[0]];
    }
  }

  lemma ThreadWrites(s: State, t: nat)
    requires ThreadEnabled(s, t)
    ensures var events := ThreadEvents(s.threads[t]);
            ThreadSteps(s, t).toClient == s.toClient + if events != [] && events[0].Wrote? then [events[0].packet] else []
  {
    assert s.toClient + [] == s.toClient;
  }

  lemma WriterChannels(s: State)
    requires WriterEnabled(s)
    ensures WriterSteps(s).fromClient == s.fromClient && ReadPackets(EventOf(s, WriterStep)) == []
    ensures WriterSteps(s).toClient == s.toClient + WrittenPackets(EventOf(s, WriterStep))
  {
    hide ReadPackets, WrittenPackets;
    NoPackets();
    assert s.toClient + [] == s.toClient;
    match s.writer
    case Ready => OnePacket(Wrote(Publish(0, 0, s.queue[0].message)));
    case Armed(qos, id, message) => OnePacket(Wrote(Publish(qos, id, message)));
    case RelArmed(id) => OnePacket(Wrote(PubRel(id)));
    case _ =>
  }

  lemma WrittenNext(s: State, a: Action)
    requires Enabled(s, a)
    ensures var next := Next(s, a);
            && (if a.ClientReads? then s.toClient != [] && next.toClient == s.toClient[1..] && EventOf(s, a) == []
                else next.toClient == s.toClient + WrittenPackets(EventOf(s, a)))
  {
    hide WrittenPackets, WriterSteps, ReaderSteps, ThreadSteps, ThreadEvents;
    NoPackets();
    assert s.toClient + [] == s.toClient;
    match a
    case ReaderStep(owner) =>
      OnePacket(Read(s.fromClient[0]));
      ReaderQueues(s, owner);
    case ThreadStep(t) =>
      ThreadPackets(s.threads[t]);
      ThreadWrites(s, t);
    case WriterStep =>
      WriterChannels(s);
    case _ =>
  }

  // ---------------------------------------------------------------- at rest

  /** Once every thread is done, what was read is what was handed over, and that is what was acknowledged. */
  lemma InboundAtRest(actions: seq<Action>, p: Packet)
    requires Runs(actions) && forall t :: 0 <= t < |After(actions).threads| ==> After(actions).threads[t].at == Finished
    ensures var trace := After(actions).trace;
            && (p.Publish? ==> multiset(ReadPackets(trace))[p] == multiset(HandedPackets(trace))[p])
            && (p.PubAck? || p.PubComp? ==> multiset(WrittenPackets(trace))[p] == multiset(Due(trace))[Some(p)])
  {
    hide Runs, After, ReadPackets, WrittenPackets, HandedPackets, Due;
    var threads := After(actions).threads;
    if p.Publish? {
      PublishesHandedOver(actions, p);
      NoneLeft(AllUnhanded(threads), p);
    } else if EndsHandshake(p) {
      RepliesWritten(actions, p);
      NoneLeft(AllUnreplied(threads), p);
    }
  }

  lemma NoneLeft(left: seq<Option<Packet>>, p: Packet)
    requires forall i :: 0 <= i < |left| ==> left[i] == None
    ensures multiset(left)[Some(p)] == 0
  {
    assert Some(p) !in left;
  }

  /** Once the writer is ready and nothing is queued, every message queued has been written, in order. */
  lemma OutboundAtRest(actions: seq<Action>)
    requires Runs(actions) && After(actions).writer == Ready && After(actions).queue == []
    ensures SentMessages(After(actions).trace) == QueuedMessages(actions)
  {
    hide Runs, After, SentMessages, QueuedMessages;
    MessagesWritten(actions);
    assert SentMessages(After(actions).trace) + [] + [] == SentMessages(After(actions).trace);
  }

  // ---------------------------------------------------------------- whole exchanges

  lemma Onward(actions: seq<Action>, a: Action)
    requires Runs(actions) && Enabled(After(actions), a)
    ensures Runs(actions + [a]) && After(actions + [a]) == Next(After(actions), a)
  {
    hide Enabled, Next;
    assert (actions + [a])[..|actions|] == actions;
  }

  /** A qos 2 message goes out: PUBLISH, PUBREC, PUBREL, PUBCOMP, and the writer is ready for the next. */
  lemma OutboundExchange(message: bytes)
    ensures exists actions :: Runs(actions) && After(actions).writer == Ready && After(actions).usedIds == {} &&
              After(actions).trace == [Wrote(Publish(2, 0, message)), Read(PubRec(0)), Wrote(PubRel(0)), Read(PubComp(0))]
  {
    hide Runs, After;
    var received := OutboundReceived(message);
    Onward(received, WriterStep);
    Onward(received + [WriterStep], WriterStep);
    var released := received + [WriterStep] + [WriterStep];
    Answered(released, PubComp(0), Writer);
    var completed := released + [ClientReads] + [ClientAnswers(PubComp(0))] + [ReaderStep(Writer)];
    Onward(completed, WriterStep);
    assert After(completed + [WriterStep]).trace ==
           [Wrote(Publish(2, 0, message)), Read(PubRec(0)), Wrote(PubRel(0)), Read(PubComp(0))];
  }

  /** Its first half, to where PUBREC came and its condition is gone. */
  lemma OutboundReceived(message: bytes) returns (actions: seq<Action>)
    ensures Runs(actions) && After(actions) ==
            START.(usedIds := {0}, writer := Received(0), trace := [Wrote(Publish(2, 0, message)), Read(PubRec(0))])
  {
    hide Runs, After;
    StartRun();
    var queued := [Queue(Outgoing(2, message))];
    Onward([], queued[0]);
    assert [] + [queued[0]] == queued;
    assert LeastFrom({}, 0) == 0;
    Onward(queued, WriterStep);
    Onward(queued + [WriterStep], WriterStep);
    var written := queued + [WriterStep] + [WriterStep];
    Answered(written, PubRec(0), Writer);
    actions := written + [ClientReads] + [ClientAnswers(PubRec(0))] + [ReaderStep(Writer)];
    Onward(actions, WriterStep);
    actions := actions + [WriterStep];
  }

  lemma StartRun()
    ensures Runs([]) && After([]) == START
  {
  }

  /** The client reads the one packet on its way, answers it, and the reader passes the answer on to the thread that waits. */
  lemma Answered(actions: seq<Action>, answer: Packet, owner: Owner)
    requires Runs(actions)
    requires var s := After(actions);
             && |s.toClient| == 1 && Reply(s.toClient[0]) == Some(answer) && !s.toClient[0].PubComp? && !answer.Publish?
             && s.fromClient == [] && s.owed == multiset{} && !s.unexpected && Matching(s, owner, answer)
    ensures var all, s := actions + [ClientReads] + [ClientAnswers(answer)] + [ReaderStep(owner)], After(actions);
            Runs(all) && After(all) == s.(toClient := [], conditions := s.conditions[owner := Condition(answer, true)],
                                          trace := s.trace + [Read(answer)])
  {
    hide Runs, After;
    Onward(actions, ClientReads);
    Onward(actions + [ClientReads], ClientAnswers(answer));
    Onward(actions + [ClientReads] + [ClientAnswers(answer)], ReaderStep(owner));
  }

  /** A qos 2 message comes in: PUBLISH, PUBREC, PUBREL, handed over, PUBCOMP. */
  lemma InboundExchange(id: nat, message: bytes)
    ensures exists actions :: Runs(actions) && After(actions).threads == [Thread(2, id, message, Finished)] &&
              After(actions).trace ==
              [Read(Publish(2, id, message)), Wrote(PubRec(id)), Read(PubRel(id)), Handed(Publish(2, id, message)), Wrote(PubComp(id))]
  {
    hide Runs, After;
    var recorded := InboundRecorded(id, message);
    Answered(recorded, PubRel(id), Worker(0));
    var cleared := recorded + [ClientReads] + [ClientAnswers(PubRel(id))] + [ReaderStep(Worker(0))];
    Onward(cleared, ThreadStep(0));
    Onward(cleared + [ThreadStep(0)], ThreadStep(0));
    Onward(cleared + [ThreadStep(0)] + [ThreadStep(0)], ThreadStep(0));
    assert After(cleared + [ThreadStep(0)] + [ThreadStep(0)] + [ThreadStep(0)]).trace ==
           [Read(Publish(2, id, message)), Wrote(PubRec(id)), Read(PubRel(id)), Handed(Publish(2, id, message)), Wrote(PubComp(id))];
  }

  /** Its first half, to where PUBREC is written. */
  lemma InboundRecorded(id: nat, message: bytes) returns (actions: seq<Action>)
    ensures Runs(actions) && After(actions) ==
            START.(threads := [Thread(2, id, message, Awaiting)], conditions := map[Worker(0) := Condition(PubRel(id), false)],
                   toClient := [PubRec(id)], busy := {id}, trace := [Read(Publish(2, id, message)), Wrote(PubRec(id))])
  {
    hide Runs, After;
    StartRun();
    var sent := [ClientPublishes(Publish(2, id, message))];
    Onward([], sent[0]);
    assert [] + [sent[0]] == sent;
    Onward(sent, ReaderStep(Writer));
    Onward(sent + [ReaderStep(Writer)], ThreadStep(0));
    Onward(sent + [ReaderStep(Writer)] + [ThreadStep(0)], ThreadStep(0));
    actions := sent + [ReaderStep(Writer)] + [ThreadStep(0)] + [ThreadStep(0)];
  }
}
