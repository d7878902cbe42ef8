/** What every run of the handshake keeps. */
module HandshakeSafety {
  import opened Wrappers
  import opened Bytes
  import opened Handshakes

  // ---------------------------------------------------------------- the outbound side of a trace

  /** Where the one outbound message is between its PUBLISH and its last acknowledgement. */
  datatype OutPhase = Clear | Sent(qos: nat, id: nat) | Acknowledged(id: nat) | Releasing(id: nat) | OutBroken

  /** Any PUBLISH, PUBREL or acknowledgement out of turn breaks it. */
  function OutNext(phase: OutPhase, e: Event): OutPhase {
    match e
    case Wrote(Publish(qos, id, _)) => if qos == 0 then phase else if phase == Clear then Sent(qos, id) else OutBroken
    case Wrote(PubRel(id)) => if phase == Acknowledged(id) then Releasing(id) else OutBroken
    case Read(PubAck(id)) => if phase == Sent(1, id) then Clear else OutBroken
    case Read(PubRec(id)) => if phase == Sent(2, id) then Acknowledged(id) else OutBroken
    case Read(PubComp(id)) => if phase == Releasing(id) then Clear else OutBroken
    case _ => phase
  }

  function OutRun(trace: seq<Event>): OutPhase {
    if trace == [] then Clear else OutNext(OutRun(trace[..|trace| - 1]), trace[|trace| - 1])
  }

  // ---------------------------------------------------------------- the inbound side, one id at a time

  datatype InPhase =
    | Idle
    | Got(message: bytes)       // PUBLISH read
    | Recorded(message: bytes)  // PUBREC written
    | Cleared(message: bytes)   // PUBREL read
    | Done(message: bytes)      // handed to the broker
    | InBroken

  function InNext(phase: InPhase, e: Event, id: nat): InPhase {
    match e
    case Read(Publish(2, i, message)) => if i != id then phase else if phase == Idle then Got(message) else InBroken
    case Wrote(PubRec(i)) => if i != id then phase else if phase.Got? then Recorded(phase.message) else InBroken
    case Read(PubRel(i)) => if i != id then phase else if phase.Recorded? then Cleared(phase.message) else InBroken
    case Handed(Publish(2, i, message)) =>
      if i != id then phase else if phase == Cleared(message) then Done(message) else InBroken
    case Wrote(PubComp(i)) => if i != id then phase else if phase.Done? then Idle else InBroken
    case _ => phase
  }

  function InRun(trace: seq<Event>, id: nat): InPhase {
    if trace == [] then Idle else InNext(InRun(trace[..|trace| - 1], id), trace[|trace| - 1], id)
  }

  // ---------------------------------------------------------------- the invariant

  function WriterAwaits(w: WriterAt): Option<Packet> {
    match w
    case Armed(qos, id, _) => Some(Acknowledgement(qos, id))
    case Waiting(qos, id, _) => Some(Acknowledgement(qos, id))
    case RelArmed(id) => Some(PubComp(id))
    case RelWaiting(id) => Some(PubComp(id))
    case _ => None
  }

  predicate WriterSent(w: WriterAt) {
    w.Waiting? || w.RelWaiting?
  }

  predicate Active(thread: Thread) {
    thread.qos == 2 && thread.at != Finished
  }

  predicate Shaped(s: State) {
    && ((s.writer.Armed? || s.writer.Waiting?) ==> 1 <= s.writer.qos <= 2)
    && (forall t :: 0 <= t < |s.threads| ==>
          && s.threads[t].qos <= 2
          && (s.threads[t].at in {Listening, Awaiting, Released} ==> s.threads[t].qos == 2))
    && (forall i :: 0 <= i < |s.queue| ==> s.queue[i].qos <= 2)
    && (forall i :: 0 <= i < |s.fromClient| && s.fromClient[i].Publish? ==> s.fromClient[i].qos <= 2)
    && (forall a :: a in s.owed ==> !a.Publish?)
    && s.usedIds == (if s.writer.Ready? then {} else {s.writer.id})
    && (!s.writer.Ready? ==> s.writer.id == 0)
  }

  ghost predicate WriterRegistered(s: State) {
    && (Writer in s.conditions <==> WriterAwaits(s.writer).Some?)
    && (Writer in s.conditions ==>
          && s.conditions[Writer].awaits == WriterAwaits(s.writer).value
          && (s.conditions[Writer].met ==> WriterSent(s.writer)))
  }

  ghost predicate WorkersRegistered(s: State) {
    && (forall t: nat :: Worker(t) in s.conditions <==> t < |s.threads| && s.threads[t].at in {Listening, Awaiting})
    && (forall t: nat :: Worker(t) in s.conditions ==>
          && s.conditions[Worker(t)].awaits == PubRel(s.threads[t].id)
          && (s.conditions[Worker(t)].met ==> s.threads[t].at == Awaiting))
  }

  /** Each condition belongs to a waiting thread, and is met only after the packet that asks for it was written. */
  ghost predicate Registered(s: State) {
    WriterRegistered(s) && WorkersRegistered(s)
  }

  /** The acknowledgement a thread has asked for and not got. */
  function WriterHopes(s: State): Option<Packet> {
    if Writer in s.conditions && !s.conditions[Writer].met && WriterSent(s.writer) then Some(s.conditions[Writer].awaits)
    else None
  }

  function Hopes(s: State, t: nat): Option<Packet>
    requires t < |s.threads|
  {
    if s.threads[t].at == Awaiting && !Met(s, Worker(t)) then Some(PubRel(s.threads[t].id)) else None
  }

  function AllHopes(s: State): (hopes: seq<Option<Packet>>)
    ensures |hopes| == |s.threads| && forall t :: 0 <= t < |hopes| ==> hopes[t] == Hopes(s, t)
  {
    seq(|s.threads|, t requires 0 <= t < |s.threads| => Hopes(s, t))
  }

  function Expected(s: State, a: Packet): nat {
    (if WriterHopes(s) == Some(a) then 1 else 0) + multiset(AllHopes(s))[Some(a)]
  }

  function Replies(packets: seq<Packet>): (replies: seq<Option<Packet>>)
    ensures |replies| == |packets| && forall i :: 0 <= i < |replies| ==> replies[i] == Reply(packets[i])
  {
    seq(|packets|, i requires 0 <= i < |packets| => Reply(packets[i]))
  }

  /** How many of an acknowledgement are on their way: to be provoked, to be sent, to be read. */
  function Pending(s: State, a: Packet): nat {
    multiset(Replies(s.toClient))[Some(a)] + s.owed[a] + multiset(s.fromClient)[a]
  }

  /** Every acknowledgement on its way has one thread waiting for it. */
  ghost predicate Balanced(s: State) {
    forall a: Packet :: !a.Publish? ==> Pending(s, a) == Expected(s, a)
  }

  function Opened(p: Packet): Option<nat> {
    if p.Publish? && p.qos == 2 then Some(p.id) else None
  }

  function AllOpened(packets: seq<Packet>): (ids: seq<Option<nat>>)
    ensures |ids| == |packets| && forall i :: 0 <= i < |ids| ==> ids[i] == Opened(packets[i])
  {
    seq(|packets|, i requires 0 <= i < |packets| => Opened(packets[i]))
  }

  function Handled(thread: Thread): Option<nat> {
    if Active(thread) then Some(thread.id) else None
  }

  function AllHandled(threads: seq<Thread>): (handled: seq<Option<nat>>)
    ensures |handled| == |threads| && forall t :: 0 <= t < |handled| ==> handled[t] == Handled(threads[t])
  {
    seq(|threads|, t requires 0 <= t < |threads| => Handled(threads[t]))
  }

  /** The lives of an inbound id: its PUBLISH on the way, its thread, its PUBCOMP on the way. */
  function Lives(s: State, id: nat): nat {
    multiset(AllOpened(s.fromClient))[Some(id)] + multiset(AllHandled(s.threads))[Some(id)] + multiset(s.toClient)[PubComp(id)]
  }

  ghost predicate OneLife(s: State) {
    forall id: nat :: Lives(s, id) == if id in s.busy then 1 else 0
  }

  function OutNow(s: State): OutPhase {
    match s.writer
    case Waiting(qos, id, _) => if !Met(s, Writer) then Sent(qos, id) else if qos == 1 then Clear else Acknowledged(id)
    case Received(id) => Acknowledged(id)
    case RelArmed(id) => Acknowledged(id)
    case RelWaiting(id) => if Met(s, Writer) then Clear else Releasing(id)
    case _ => Clear
  }

  function InNow(s: State, t: nat): InPhase
    requires t < |s.threads|
  {
    var message := s.threads[t].message;
    match s.threads[t].at
    case Started => Got(message)
    case Listening => Got(message)
    case Awaiting => if Met(s, Worker(t)) then Cleared(message) else Recorded(message)
    case Released => Cleared(message)
    case Published => Done(message)
    case Finished => Idle
  }

  predicate Unhandled(s: State, id: nat) {
    forall t :: 0 <= t < |s.threads| ==> !(Active(s.threads[t]) && s.threads[t].id == id)
  }

  ghost predicate Traced(s: State) {
    && OutRun(s.trace) == OutNow(s)
    && (forall t :: 0 <= t < |s.threads| && Active(s.threads[t]) ==> InRun(s.trace, s.threads[t].id) == InNow(s, t))
    && (forall id: nat :: Unhandled(s, id) ==> InRun(s.trace, id) == Idle)
  }

  ghost predicate Invariant(s: State) {
    Shaped(s) && Registered(s) && Balanced(s) && OneLife(s) && Traced(s) && !s.unexpected
  }

  // ---------------------------------------------------------------- counting

  lemma CountAppend<T>(xs: seq<T>, y: T)
    ensures forall x :: multiset(xs + [y])[x] == multiset(xs)[x] + if x == y then 1 else 0
  {
  }

  lemma CountTail<T>(xs: seq<T>)
    requires xs != []
    ensures forall x :: multiset(xs)[x] == multiset(xs[1..])[x] + if x == xs[0] then 1 else 0
  {
    assert xs == [xs[0]] + xs[1..];
  }

  lemma CountSet<T>(xs: seq<T>, i: nat, y: T)
    requires i < |xs|
    ensures forall x :: multiset(xs[i := y])[x] ==
                        multiset(xs)[x] - (if x == xs[i] then 1 else 0) + if x == y then 1 else 0
  {
  }

  lemma CountTwo<T>(xs: seq<T>, i: nat, j: nat)
    requires i < j < |xs| && xs[i] == xs[j]
    ensures multiset(xs)[xs[i]] >= 2
  {
    assert xs == xs[..j] + xs[j..];
    assert xs[..j][i] in multiset(xs[..j]) && xs[j..][0] in multiset(xs[j..]);
  }

  // ---------------------------------------------------------------- what the channels count

  lemma WriteCounts(packets: seq<Packet>, p: Packet)
    ensures forall a :: multiset(Replies(packets + [p]))[a] == multiset(Replies(packets))[a] + if a == Reply(p) then 1 else 0
    ensures forall q :: multiset(packets + [p])[q] == multiset(packets)[q] + if q == p then 1 else 0
    ensures forall id :: multiset(AllOpened(packets + [p]))[id] ==
                         multiset(AllOpened(packets))[id] + if id == Opened(p) then 1 else 0
  {
    hide Replies, AllOpened, Reply, Opened;
    WriteAppends(packets, p);
    CountAppend(packets, p);
    CountAppend(Replies(packets), Reply(p));
    CountAppend(AllOpened(packets), Opened(p));
  }

  lemma WriteAppends(packets: seq<Packet>, p: Packet)
    ensures Replies(packets + [p]) == Replies(packets) + [Reply(p)]
    ensures AllOpened(packets + [p]) == AllOpened(packets) + [Opened(p)]
  {
    hide Reply, Opened;
  }

  lemma ReadCounts(packets: seq<Packet>)
    requires packets != []
    ensures forall a :: multiset(Replies(packets))[a] ==
                        multiset(Replies(packets[1..]))[a] + if a == Reply(packets[0]) then 1 else 0
    ensures forall q :: multiset(packets)[q] == multiset(packets[1..])[q] + if q == packets[0] then 1 else 0
    ensures forall id :: multiset(AllOpened(packets))[id] ==
                         multiset(AllOpened(packets[1..]))[id] + if id == Opened(packets[0]) then 1 else 0
  {
    assert Replies(packets[1..]) == Replies(packets)[1..] && AllOpened(packets[1..]) == AllOpened(packets)[1..];
    CountTail(packets);
    CountTail(Replies(packets));
    CountTail(AllOpened(packets));
  }

  lemma SetCounts(threads: seq<Thread>, t: nat, thread: Thread)
    requires t < |threads|
    ensures forall id :: multiset(AllHandled(threads[t := thread]))[id] ==
                         multiset(AllHandled(threads))[id]
                         - (if id == Handled(threads[t]) then 1 else 0) + if id == Handled(thread) then 1 else 0
  {
    assert AllHandled(threads[t := thread]) == AllHandled(threads)[t := Handled(thread)];
    CountSet(AllHandled(threads), t, Handled(thread));
  }

  lemma OneThread(s: State, t: nat, u: nat)
    requires OneLife(s) && t < |s.threads| && u < |s.threads| && t != u
    requires Active(s.threads[t]) && Active(s.threads[u])
    ensures s.threads[t].id != s.threads[u].id
  {
    if s.threads[t].id == s.threads[u].id {
      var id := s.threads[t].id;
      var lives := Lives(s, id);
      CountTwo(AllHandled(s.threads), if t < u then t else u, if t < u then u else t);
      assert false;
    }
  }

  lemma TraceAppend(trace: seq<Event>, e: Event)
    ensures OutRun(trace + [e]) == OutNext(OutRun(trace), e)
    ensures forall id :: InRun(trace + [e], id) == InNext(InRun(trace, id), e, id)
  {
    assert (trace + [e])[..|trace|] == trace;
  }

  lemma SameHopes(s: State, next: State)
    requires next.threads == s.threads && forall t: nat :: Met(next, Worker(t)) == Met(s, Worker(t))
    ensures AllHopes(next) == AllHopes(s)
  {
  }

  /** A packet was written exactly when its writer began to hope for the reply. */
  predicate Asked(before: State, after: State, hoped: Option<Packet>, hopes: Option<Packet>) {
    || (after.toClient == before.toClient && hopes == hoped)
    || (|after.toClient| == |before.toClient| + 1
        && var p := after.toClient[|before.toClient|];
           && after.toClient == before.toClient + [p]
           && if Reply(p) == None then hopes == hoped else hoped == None && hopes == Reply(p))
  }

  /** No packet has been read, or sent by the client. */
  predicate Unread(before: State, after: State) {
    && after.fromClient == before.fromClient && after.owed == before.owed && after.busy == before.busy
    && after.unexpected == before.unexpected
  }

  /** The event a step added to the trace, if it added one. */
  function Added(before: State, after: State): Option<Event> {
    if |after.trace| > |before.trace| then Some(after.trace[|before.trace|]) else None
  }

  predicate Noted(before: State, after: State) {
    after.trace == before.trace + if Added(before, after).Some? then [Added(before, after).value] else []
  }

  function OutThen(phase: OutPhase, e: Option<Event>): OutPhase {
    if e.Some? then OutNext(phase, e.value) else phase
  }

  function InThen(phase: InPhase, e: Option<Event>, id: nat): InPhase {
    if e.Some? then InNext(phase, e.value, id) else phase
  }

  lemma TraceNoted(before: State, after: State)
    requires Noted(before, after)
    ensures OutRun(after.trace) == OutThen(OutRun(before.trace), Added(before, after))
    ensures forall id :: InRun(after.trace, id) == InThen(InRun(before.trace, id), Added(before, after), id)
  {
    hide OutRun, InRun, OutNext, InNext;
    if Added(before, after).Some? {
      TraceAppend(before.trace, Added(before, after).value);
    } else {
      assert before.trace + [] == before.trace;
    }
  }

  // ---------------------------------------------------------------- the writer's steps

  lemma WriterShape(s: State)
    requires Shaped(s) && WriterEnabled(s)
    ensures Shaped(WriterSteps(s))
  {
  }

  lemma WriterConditions(s: State)
    requires Shaped(s) && Registered(s) && WriterEnabled(s)
    ensures Registered(WriterSteps(s))
  {
    hide Shaped, WriterEnabled, WriterSteps, WriterRegistered, WorkersRegistered;
    WriterCondition(s);
    WorkersUntouched(s);
  }

  lemma WriterCondition(s: State)
    requires Shaped(s) && WriterRegistered(s) && WriterEnabled(s)
    ensures WriterRegistered(WriterSteps(s))
  {
  }

  lemma WorkersUntouched(s: State)
    requires WorkersRegistered(s) && WriterEnabled(s)
    ensures WorkersRegistered(WriterSteps(s))
  {
    assert WriterSteps(s).threads == s.threads;
    assert forall t: nat :: Worker(t) in WriterSteps(s).conditions <==> Worker(t) in s.conditions;
  }

  lemma WriterEffect(s: State)
    requires Shaped(s) && Registered(s) && WriterEnabled(s)
    ensures var next := WriterSteps(s);
            && next.threads == s.threads && Unread(s, next) && (forall t: nat :: Met(next, Worker(t)) == Met(s, Worker(t)))
            && Asked(s, next, WriterHopes(s), WriterHopes(next))
            && (next.toClient != s.toClient ==> !next.toClient[|s.toClient|].PubComp?)
  {
  }

  lemma WriterBalance(s: State)
    requires Invariant(s) && WriterEnabled(s)
    ensures Balanced(WriterSteps(s)) && OneLife(WriterSteps(s))
  {
    hide Shaped, Registered, Traced, WriterEnabled, WriterSteps, WriterHopes, AllHopes, Replies, AllOpened, AllHandled, Reply;
    var next := WriterSteps(s);
    WriterEffect(s);
    SameHopes(s, next);
    if next.toClient != s.toClient {
      WriteCounts(s.toClient, next.toClient[|s.toClient|]);
    }
  }

  lemma WriterEvent(s: State)
    requires Shaped(s) && Registered(s) && WriterEnabled(s)
    ensures var next := WriterSteps(s);
            && Noted(s, next) && OutThen(OutNow(s), Added(s, next)) == OutNow(next)
            && forall phase, id :: InThen(phase, Added(s, next), id) == phase
  {
  }

  lemma WriterTrace(s: State)
    requires Invariant(s) && WriterEnabled(s)
    ensures Traced(WriterSteps(s))
  {
    hide Balanced, OneLife, OutRun, InRun, WriterSteps, WriterEnabled, OutNow, OutThen, InThen, Added, Noted, Shaped, Registered;
    var next := WriterSteps(s);
    WriterEffect(s);
    WriterEvent(s);
    TraceNoted(s, next);
  }

  // ---------------------------------------------------------------- the threads' steps

  function NextAt(thread: Thread): At {
    match thread.at
    case Started => if thread.qos == 2 then Listening else if thread.qos == 1 then Published else Finished
    case Listening => Awaiting
    case Awaiting => At.Released
    case Released => Published
    case _ => Finished
  }

  /** What a thread's step does to everything but the trace and the packets written. */
  lemma ThreadMoves(s: State, t: nat)
    requires ThreadEnabled(s, t)
    ensures var next, thread := ThreadSteps(s, t), s.threads[t];
            && next.threads == s.threads[t := thread.(at := NextAt(thread))]
            && next.conditions == (if NextAt(thread) == Listening then s.conditions[Worker(t) := Condition(PubRel(thread.id), false)]
                                   else if thread.at == Awaiting then s.conditions - {Worker(t)} else s.conditions)
            && Unread(s, next) && next.writer == s.writer && next.usedIds == s.usedIds && next.queue == s.queue
  {
  }

  lemma ThreadShape(s: State, t: nat)
    requires Shaped(s) && t < |s.threads| && ThreadEnabled(s, t)
    ensures Shaped(ThreadSteps(s, t))
  {
    hide ThreadSteps, ThreadEnabled;
    ThreadMoves(s, t);
  }

  lemma ThreadConditions(s: State, t: nat)
    requires Shaped(s) && Registered(s) && t < |s.threads| && ThreadEnabled(s, t)
    ensures Registered(ThreadSteps(s, t))
  {
    hide ThreadSteps;
    ThreadMoves(s, t);
  }

  lemma ThreadEffect(s: State, t: nat)
    requires Shaped(s) && Registered(s) && t < |s.threads| && ThreadEnabled(s, t)
    ensures var next := ThreadSteps(s, t);
            && |next.threads| == |s.threads| && next.threads == s.threads[t := next.threads[t]] && Unread(s, next)
            && next.writer == s.writer && Met(next, Writer) == Met(s, Writer) && WriterHopes(next) == WriterHopes(s)
            && (forall u: nat :: u != t ==> Met(next, Worker(u)) == Met(s, Worker(u)))
  {
    hide ThreadSteps, Shaped, Registered, ThreadEnabled;
    ThreadMoves(s, t);
  }

  lemma ThreadAsks(s: State, t: nat)
    requires Shaped(s) && Registered(s) && ThreadEnabled(s, t)
    ensures Asked(s, ThreadSteps(s, t), Hopes(s, t), Hopes(ThreadSteps(s, t), t))
  {
  }

  lemma ThreadLife(s: State, t: nat)
    requires Shaped(s) && ThreadEnabled(s, t)
    ensures var next := ThreadSteps(s, t);
            var before, after := Handled(s.threads[t]), Handled(next.threads[t]);
            if next.toClient == s.toClient then after == before
            else match next.toClient[|s.toClient|]
                 case PubComp(id) => before == Some(id) && after == None
                 case _ => after == before
  {
  }

  lemma ThreadBalance(s: State, t: nat)
    requires Invariant(s) && t < |s.threads| && ThreadEnabled(s, t)
    ensures Balanced(ThreadSteps(s, t))
  {
    hide Shaped, Registered, Traced, OneLife, ThreadEnabled, ThreadSteps, WriterHopes, Hopes, Replies, Reply;
    var next := ThreadSteps(s, t);
    ThreadEffect(s, t);
    ThreadAsks(s, t);
    OtherHopes(s, next, t);
    CountSet(AllHopes(s), t, Hopes(next, t));
    if next.toClient != s.toClient {
      WriteCounts(s.toClient, next.toClient[|s.toClient|]);
    }
  }

  lemma OtherHopes(s: State, next: State, t: nat)
    requires t < |s.threads| == |next.threads| && next.threads == s.threads[t := next.threads[t]]
    requires forall u: nat :: u != t ==> Met(next, Worker(u)) == Met(s, Worker(u))
    ensures AllHopes(next) == AllHopes(s)[t := Hopes(next, t)]
  {
  }

  lemma ThreadLives(s: State, t: nat)
    requires Invariant(s) && t < |s.threads| && ThreadEnabled(s, t)
    ensures OneLife(ThreadSteps(s, t))
  {
    hide Shaped, Registered, Traced, Balanced, ThreadEnabled, ThreadSteps, Handled, Reply, Replies, AllOpened;
    var next := ThreadSteps(s, t);
    ThreadEffect(s, t);
    ThreadAsks(s, t);
    ThreadLife(s, t);
    SetCounts(s.threads, t, next.threads[t]);
    if next.toClient != s.toClient {
      WriteCounts(s.toClient, next.toClient[|s.toClient|]);
    }
  }

  lemma ThreadEvent(s: State, t: nat)
    requires Shaped(s) && Registered(s) && ThreadEnabled(s, t)
    ensures var next := ThreadSteps(s, t);
            var e := Added(s, next);
            && Noted(s, next) && (forall phase :: OutThen(phase, e) == phase)
            && (forall phase, id :: id != s.threads[t].id || !Active(s.threads[t]) ==> InThen(phase, e, id) == phase)
            && (Active(s.threads[t]) ==> InThen(InNow(s, t), e, s.threads[t].id) == InNow(next, t))
            && (Active(next.threads[t]) ==> Active(s.threads[t]))
            && (!Active(next.threads[t]) && Active(s.threads[t]) ==> InNow(next, t) == Idle)
            && next.threads[t].id == s.threads[t].id
  {
    hide Shaped, Registered, ThreadSteps, Noted, Added, OutThen, InThen, InNow, ThreadEnabled, Active;
    ThreadNotes(s, t);
    ThreadPhase(s, t);
    ThreadEnds(s, t);
  }

  lemma ThreadNotes(s: State, t: nat)
    requires Shaped(s) && ThreadEnabled(s, t)
    ensures var e := Added(s, ThreadSteps(s, t));
            && Noted(s, ThreadSteps(s, t)) && (forall phase :: OutThen(phase, e) == phase)
            && (forall phase, id :: id != s.threads[t].id || !Active(s.threads[t]) ==> InThen(phase, e, id) == phase)
  {
  }

  lemma ThreadPhase(s: State, t: nat)
    requires Shaped(s) && Registered(s) && ThreadEnabled(s, t)
    ensures var next := ThreadSteps(s, t);
            && t < |next.threads|
            && (Active(s.threads[t]) ==> InThen(InNow(s, t), Added(s, next), s.threads[t].id) == InNow(next, t))
  {
  }

  lemma ThreadEnds(s: State, t: nat)
    requires ThreadEnabled(s, t)
    ensures var next := ThreadSteps(s, t);
            && t < |next.threads| && next.threads[t].id == s.threads[t].id
            && (Active(next.threads[t]) ==> Active(s.threads[t]))
            && (!Active(next.threads[t]) && Active(s.threads[t]) ==> InNow(next, t) == Idle)
  {
    hide ThreadSteps;
    ThreadMoves(s, t);
  }

  lemma ThreadTrace(s: State, t: nat)
    requires Invariant(s) && t < |s.threads| && ThreadEnabled(s, t)
    ensures Traced(ThreadSteps(s, t))
  {
    hide Balanced, OneLife, OutRun, InRun, ThreadSteps, ThreadEnabled, OutThen, InThen, Added, Noted, Shaped, Registered, Active;
    var next := ThreadSteps(s, t);
    ThreadEffect(s, t);
    ThreadEvent(s, t);
    TraceNoted(s, next);
    forall u: nat | u < |s.threads| && u != t && Active(s.threads[t]) && Active(s.threads[u])
      ensures s.threads[u].id != s.threads[t].id
    {
      OneThread(s, t, u);
    }
    forall id: nat | Unhandled(next, id)
      ensures InRun(next.trace, id) == Idle
    {
      if Active(s.threads[t]) && id == s.threads[t].id {
        assert InRun(s.trace, id) == InNow(s, t);
      } else {
        forall u | 0 <= u < |s.threads|
          ensures !(Active(s.threads[u]) && s.threads[u].id == id)
        {
          assert u != t ==> next.threads[u] == s.threads[u];
        }
      }
    }
  }

  // ---------------------------------------------------------------- the reader's steps

  /**
   An acknowledgement that arrives finds the condition of the one thread that asked for it: packet_notify can
   meet no other, and UnexpectedPacketType is not raised.
   */
  lemma Awaited(s: State, owner: Owner)
    requires Invariant(s) && s.fromClient != [] && ReaderEnabled(s, owner) && !s.fromClient[0].Publish?
    ensures Matching(s, owner, s.fromClient[0])
    ensures match owner
            case Writer => WriterHopes(s) == Some(s.fromClient[0])
            case Worker(t) => t < |s.threads| && Hopes(s, t) == Some(s.fromClient[0])
  {
    hide Traced, OneLife, ReaderEnabled, Shaped;
    var p := s.fromClient[0];
    var pending := Pending(s, p);
    ReadCounts(s.fromClient);
    assert Expected(s, p) >= 1;
    if WriterHopes(s) == Some(p) {
      assert Matching(s, Writer, p);
      OnlyWriter(s, owner, p);
    } else {
      assert Some(p) in multiset(AllHopes(s));
      var u: nat :| u < |s.threads| && AllHopes(s)[u] == Some(p);
      assert Matching(s, Worker(u), p);
      OnlyThread(s, owner, u, p);
    }
  }

  lemma OnlyWriter(s: State, owner: Owner, p: Packet)
    requires Registered(s) && ReaderEnabled(s, owner) && p == s.fromClient[0]
    requires WriterHopes(s) == Some(p) && Matching(s, Writer, p)
    ensures owner == Writer
  {
  }

  lemma OnlyThread(s: State, owner: Owner, u: nat, p: Packet)
    requires Shaped(s) && Registered(s) && OneLife(s) && ReaderEnabled(s, owner) && p == s.fromClient[0]
    requires u < |s.threads| && Hopes(s, u) == Some(p) && Matching(s, Worker(u), p)
    ensures owner == Worker(u)
  {
    hide OneLife;
    assert Matching(s, owner, p);
    if owner.Worker? && owner.t != u {
      OneThread(s, u, owner.t);
    }
  }

  lemma ReaderStarts(s: State, owner: Owner)
    requires Shaped(s) && Registered(s) && !s.unexpected && ReaderEnabled(s, owner) && s.fromClient[0].Publish?
    ensures var next := ReaderSteps(s, owner);
            Shaped(next) && Registered(next) && !next.unexpected && AllHopes(next) == AllHopes(s) + [None]
  {
    assert AllHopes(ReaderSteps(s, owner)) == AllHopes(s) + [None];
  }

  lemma ReaderStartsCounts(s: State, owner: Owner)
    requires Invariant(s) && ReaderEnabled(s, owner) && s.fromClient[0].Publish?
    ensures Balanced(ReaderSteps(s, owner)) && OneLife(ReaderSteps(s, owner))
  {
    hide Shaped, Registered, Traced, Balanced, OneLife, AllHopes;
    ReaderStarts(s, owner);
    ReaderStartsBalance(s, owner);
    ReaderStartsLives(s, owner);
  }

  lemma ReaderStartsBalance(s: State, owner: Owner)
    requires Balanced(s) && ReaderEnabled(s, owner) && s.fromClient[0].Publish?
    requires AllHopes(ReaderSteps(s, owner)) == AllHopes(s) + [None]
    ensures Balanced(ReaderSteps(s, owner))
  {
    hide AllHopes, Replies, AllOpened;
    ReadCounts(s.fromClient);
    CountAppend(AllHopes(s), None);
  }

  lemma ReaderStartsLives(s: State, owner: Owner)
    requires OneLife(s) && ReaderEnabled(s, owner) && s.fromClient[0].Publish?
    ensures OneLife(ReaderSteps(s, owner))
  {
    hide Replies, AllOpened, Opened, Handled, Active;
    var next := ReaderSteps(s, owner);
    ReadCounts(s.fromClient);
    var thread := next.threads[|s.threads|];
    assert AllHandled(next.threads) == AllHandled(s.threads) + [Handled(thread)];
    CountAppend(AllHandled(s.threads), Handled(thread));
    Follows(s.fromClient[0]);
  }

  lemma Follows(p: Packet)
    requires p.Publish?
    ensures Handled(Thread(p.qos, p.id, p.message, Started)) == Opened(p)
  {
  }

  /** The id of a PUBLISH that arrives is not being handled. */
  lemma Fresh(s: State)
    requires OneLife(s) && s.fromClient != [] && Opened(s.fromClient[0]).Some?
    ensures Unhandled(s, s.fromClient[0].id)
  {
    var id := s.fromClient[0].id;
    var lives := Lives(s, id);
    assert AllOpened(s.fromClient)[0] in multiset(AllOpened(s.fromClient));
    forall t | 0 <= t < |s.threads|
      ensures !(Active(s.threads[t]) && s.threads[t].id == id)
    {
      assert AllHandled(s.threads)[t] in multiset(AllHandled(s.threads));
    }
  }

  lemma ReaderStartsTrace(s: State, owner: Owner)
    requires Invariant(s) && ReaderEnabled(s, owner) && s.fromClient[0].Publish?
    ensures Traced(ReaderSteps(s, owner))
  {
    hide Balanced, OneLife, OutRun, InRun, Registered;
    var next := ReaderSteps(s, owner);
    TraceAppend(s.trace, Read(s.fromClient[0]));
    if s.fromClient[0].qos == 2 {
      Fresh(s);
    }
    forall id: nat | Unhandled(next, id)
      ensures InRun(next.trace, id) == Idle
    {
      assert next.threads[|s.threads|] == Thread(s.fromClient[0].qos, s.fromClient[0].id, s.fromClient[0].message, Started);
      forall t | 0 <= t < |s.threads|
        ensures !(Active(s.threads[t]) && s.threads[t].id == id)
      {
        assert next.threads[t] == s.threads[t];
      }
    }
  }

  lemma ReaderMeets(s: State, owner: Owner)
    requires Invariant(s) && ReaderEnabled(s, owner) && !s.fromClient[0].Publish?
    ensures var next := ReaderSteps(s, owner);
            && Shaped(next) && Registered(next) && !next.unexpected
            && (match owner
                case Writer => AllHopes(next) == AllHopes(s) && WriterHopes(next) == None
                case Worker(t) => AllHopes(next) == AllHopes(s)[t := None] && WriterHopes(next) == WriterHopes(s))
  {
    hide Traced, Balanced, OneLife;
    Awaited(s, owner);
    var next := ReaderSteps(s, owner);
    match owner
    case Writer =>
      SameHopes(s, next);
    case Worker(t) =>
      assert AllHopes(next) == AllHopes(s)[t := None];
  }

  lemma ReaderMeetsCounts(s: State, owner: Owner)
    requires Invariant(s) && ReaderEnabled(s, owner) && !s.fromClient[0].Publish?
    ensures Balanced(ReaderSteps(s, owner)) && OneLife(ReaderSteps(s, owner))
  {
    hide Invariant, ReaderSteps, ReaderEnabled;
    ReaderMeetsBalance(s, owner);
    ReaderMeetsLives(s, owner);
  }

  lemma ReaderMeetsBalance(s: State, owner: Owner)
    requires Invariant(s) && ReaderEnabled(s, owner) && !s.fromClient[0].Publish?
    ensures Balanced(ReaderSteps(s, owner))
  {
    hide Shaped, Registered, Traced, OneLife, AllHopes, Replies, AllOpened, AllHandled, WriterHopes, Hopes;
    Awaited(s, owner);
    ReaderMeets(s, owner);
    ReadCounts(s.fromClient);
    if owner.Worker? {
      CountSet(AllHopes(s), owner.t, None);
    }
  }

  lemma ReaderMeetsLives(s: State, owner: Owner)
    requires Invariant(s) && ReaderEnabled(s, owner) && !s.fromClient[0].Publish?
    ensures OneLife(ReaderSteps(s, owner))
  {
    hide Shaped, Registered, Traced, Balanced, AllHopes, Replies, AllOpened, AllHandled, WriterHopes, Hopes;
    ReadCounts(s.fromClient);
  }

  lemma ReaderMeetsTrace(s: State, owner: Owner)
    requires Invariant(s) && ReaderEnabled(s, owner) && !s.fromClient[0].Publish?
    ensures Traced(ReaderSteps(s, owner))
  {
    hide Balanced, OneLife, OutRun, InRun;
    Awaited(s, owner);
    var next := ReaderSteps(s, owner);
    TraceAppend(s.trace, Read(s.fromClient[0]));
    if owner.Worker? {
      forall u: nat | u < |s.threads| && u != owner.t && Active(s.threads[u])
        ensures s.threads[u].id != s.threads[owner.t].id
      {
        OneThread(s, u, owner.t);
      }
    }
  }

  // ---------------------------------------------------------------- the client's steps

  lemma SameThreads(s: State, next: State)
    requires Invariant(s)
    requires next.(toClient := s.toClient, fromClient := s.fromClient, owed := s.owed, busy := s.busy, queue := s.queue) == s
    ensures Registered(next) && Traced(next) && !next.unexpected && next.threads == s.threads
    ensures forall a :: Expected(next, a) == Expected(s, a)
  {
    hide Shaped, Balanced, OneLife;
    SameHopes(s, next);
  }

  lemma ClientReadsKeeps(s: State)
    requires Invariant(s) && s.toClient != []
    ensures Invariant(ClientSteps(s))
  {
    hide Registered, Traced, Expected, Replies, AllOpened, AllHandled, Balanced, OneLife;
    SameThreads(s, ClientSteps(s));
    ClientReadsCounts(s);
  }

  lemma ClientReadsCounts(s: State)
    requires Balanced(s) && OneLife(s) && s.toClient != []
    requires forall a :: Expected(ClientSteps(s), a) == Expected(s, a)
    ensures Balanced(ClientSteps(s)) && OneLife(ClientSteps(s))
  {
    ClientReadsBalance(s);
    ClientReadsLives(s);
  }

  lemma ClientReadsBalance(s: State)
    requires Balanced(s) && s.toClient != []
    requires forall a :: Expected(ClientSteps(s), a) == Expected(s, a)
    ensures Balanced(ClientSteps(s))
  {
    hide Expected, Replies, Reply;
    ReadCounts(s.toClient);
    NoReply();
  }

  lemma NoReply()
    ensures forall id :: Reply(PubComp(id)) == None
  {
  }

  lemma ClientReadsLives(s: State)
    requires OneLife(s) && s.toClient != []
    ensures OneLife(ClientSteps(s))
  {
    hide Replies, AllOpened, AllHandled, Opened;
    ReadCounts(s.toClient);
    forall id: nat
      ensures Lives(ClientSteps(s), id) == if id in ClientSteps(s).busy then 1 else 0
    {
      assert Lives(s, id) == if id in s.busy then 1 else 0;
    }
  }

  lemma ClientAnswersKeeps(s: State, answer: Packet)
    requires Invariant(s) && Enabled(s, ClientAnswers(answer))
    ensures Invariant(Next(s, ClientAnswers(answer)))
  {
    hide Registered, Traced, Expected, Lives, Pending;
    var next := Next(s, ClientAnswers(answer));
    SameThreads(s, next);
    ClientAnswersCounts(s, answer);
  }

  lemma ClientAnswersCounts(s: State, answer: Packet)
    requires answer in s.owed && !answer.Publish?
    ensures forall a :: Pending(Next(s, ClientAnswers(answer)), a) == Pending(s, a)
    ensures forall id :: Lives(Next(s, ClientAnswers(answer)), id) == Lives(s, id)
  {
    hide Replies, AllOpened, AllHandled;
    WriteCounts(s.fromClient, answer);
  }

  lemma ClientPublishesKeeps(s: State, p: Packet)
    requires Invariant(s) && Enabled(s, ClientPublishes(p))
    ensures Invariant(Next(s, ClientPublishes(p)))
  {
    hide Registered, Traced, Expected, Replies, AllOpened, AllHandled;
    SameThreads(s, Next(s, ClientPublishes(p)));
    WriteCounts(s.fromClient, p);
  }

  lemma QueueKeeps(s: State, outgoing: Outgoing)
    requires Invariant(s) && outgoing.qos <= 2
    ensures Invariant(Next(s, Queue(outgoing)))
  {
    hide Registered, Traced, Expected;
    SameThreads(s, Next(s, Queue(outgoing)));
  }

  // ---------------------------------------------------------------- runs

  lemma StepKeeps(s: State, a: Action)
    requires Invariant(s) && Enabled(s, a)
    ensures Invariant(Next(s, a))
  {
    hide Shaped, Registered, Balanced, OneLife, Traced, WriterSteps, ThreadSteps, ReaderSteps, ClientSteps;
    match a
    case Queue(outgoing) => QueueKeeps(s, outgoing);
    case WriterStep =>
      WriterShape(s);
      WriterConditions(s);
      WriterEffect(s);
      WriterBalance(s);
      WriterTrace(s);
    case ReaderStep(owner) =>
      if s.fromClient[0].Publish? {
        ReaderStarts(s, owner);
        ReaderStartsCounts(s, owner);
        ReaderStartsTrace(s, owner);
      } else {
        ReaderMeets(s, owner);
        ReaderMeetsCounts(s, owner);
        ReaderMeetsTrace(s, owner);
      }
    case ThreadStep(t) =>
      ThreadShape(s, t);
      ThreadConditions(s, t);
      ThreadEffect(s, t);
      ThreadBalance(s, t);
      ThreadLives(s, t);
      ThreadTrace(s, t);
    case ClientReads => ClientReadsKeeps(s);
    case ClientAnswers(answer) => ClientAnswersKeeps(s, answer);
    case ClientPublishes(p) => ClientPublishesKeeps(s, p);
  }

  lemma {:induction false} RunKeeps(actions: seq<Action>)
    requires Runs(actions)
    ensures Invariant(After(actions))
    decreases |actions|
  {
    hide Invariant, Next, Enabled;
    if actions == [] {
      StartKeeps();
    } else {
      RunKeeps(actions[..|actions| - 1]);
      StepKeeps(After(actions[..|actions| - 1]), actions[|actions| - 1]);
    }
  }

  lemma StartKeeps()
    ensures Invariant(START)
  {
  }

  /** A condition waits for this acknowledgement, and has not been met. */
  predicate Registers(s: State, owner: Owner, a: Packet) {
    owner in s.conditions && s.conditions[owner] == Condition(a, false)
  }

  lemma Pended(s: State, a: Packet)
    requires Invariant(s) && !a.Publish? && Pending(s, a) > 0
    ensures exists owner :: Registers(s, owner, a)
  {
    hide Shaped, Traced, OneLife, Pending;
    assert Expected(s, a) > 0;
    if WriterHopes(s) == Some(a) {
      assert Registers(s, Writer, a);
    } else {
      assert Some(a) in multiset(AllHopes(s));
      var u: nat :| u < |s.threads| && AllHopes(s)[u] == Some(a);
      assert Registers(s, Worker(u), a);
    }
  }

  /**
   In every reachable state, whatever acknowledgement is on its way, provoked by a packet the client has not
   read, owed by the client, or not read yet, has an unmet condition registered; so none is ever unexpected.
   */
  lemma EveryAcknowledgementAwaited(actions: seq<Action>)
    requires Runs(actions)
    ensures var s := After(actions);
            && !s.unexpected
            && (forall p :: p in s.toClient && Reply(p).Some? ==> exists owner :: Registers(s, owner, Reply(p).value))
            && (forall a :: a in s.owed ==> exists owner :: Registers(s, owner, a))
            && (forall a :: a in s.fromClient && !a.Publish? ==> exists owner :: Registers(s, owner, a))
  {
    hide Runs, After, Shaped, Registered, Balanced, OneLife, Traced;
    RunKeeps(actions);
    var s := After(actions);
    forall p | p in s.toClient && Reply(p).Some?
      ensures exists owner :: Registers(s, owner, Reply(p).value)
    {
      var i :| 0 <= i < |s.toClient| && s.toClient[i] == p;
      assert Replies(s.toClient)[i] in multiset(Replies(s.toClient));
      Pended(s, Reply(p).value);
    }
    forall a | a in s.owed
      ensures exists owner :: Registers(s, owner, a)
    {
      OwedAcknowledgement(s, a);
      Pended(s, a);
    }
    forall a | a in s.fromClient && !a.Publish?
      ensures exists owner :: Registers(s, owner, a)
    {
      assert a in multiset(s.fromClient);
      Pended(s, a);
    }
  }

  lemma OwedAcknowledgement(s: State, a: Packet)
    requires Shaped(s) && a in s.owed
    ensures !a.Publish?
  {
  }

  /** No run leaves the order of either handshake: every trace passes both automata, at every id. */
  lemma HandshakesInOrder(actions: seq<Action>)
    requires Runs(actions)
    ensures var trace := After(actions).trace;
            OutRun(trace) != OutBroken && forall id: nat :: InRun(trace, id) != InBroken
  {
    hide Runs, After, Shaped, Registered, Balanced, OneLife, OutRun, InRun;
    RunKeeps(actions);
  }

  // ---------------------------------------------------------------- what the order means

  /** The qos 2 messages read under an id, oldest first. */
  function Arrived(trace: seq<Event>, id: nat): seq<bytes> {
    if trace == [] then []
    else
      Arrived(trace[..|trace| - 1], id) +
      match trace[|trace| - 1]
      case Read(Publish(2, i, message)) => if i == id then [message] else []
      case _ => []
  }

  /** Those handed to the broker. */
  function HandedOver(trace: seq<Event>, id: nat): seq<bytes> {
    if trace == [] then []
    else
      HandedOver(trace[..|trace| - 1], id) +
      match trace[|trace| - 1]
      case Handed(Publish(2, i, message)) => if i == id then [message] else []
      case _ => []
  }

  /** The PUBCOMPs written for the id. */
  function Completed(trace: seq<Event>, id: nat): nat {
    if trace == [] then 0 else Completed(trace[..|trace| - 1], id) + if trace[|trace| - 1] == Wrote(PubComp(id)) then 1 else 0
  }

  function InHand(phase: InPhase): seq<bytes> {
    match phase
    case Got(message) => [message]
    case Recorded(message) => [message]
    case Cleared(message) => [message]
    case _ => []
  }

  lemma {:induction false} InOrder(trace: seq<Event>, id: nat)
    requires InRun(trace, id) != InBroken
    ensures Arrived(trace, id) == HandedOver(trace, id) + InHand(InRun(trace, id))
    ensures |HandedOver(trace, id)| == Completed(trace, id) + if InRun(trace, id).Done? then 1 else 0
    decreases |trace|
  {
    if trace != [] {
      var before := trace[..|trace| - 1];
      InOrder(before, id);
      assert HandedOver(before, id) + [] == HandedOver(before, id) && Arrived(before, id) + [] == Arrived(before, id);
      match InRun(before, id)
      case Cleared(message) => assert HandedOver(before, id) + [message] + [] == HandedOver(before, id) + [message];
      case _ =>
    }
  }

  /**
   Exactly once: in every run and for every id, the messages handed to the broker are those that arrived, in
   order, but for the one still in hand; each PUBCOMP follows one of them, and at most one still lacks it.
   */
  lemma ExactlyOnce(actions: seq<Action>, id: nat)
    requires Runs(actions)
    ensures var trace := After(actions).trace;
            && HandedOver(trace, id) <= Arrived(trace, id)
            && |Arrived(trace, id)| <= |HandedOver(trace, id)| + 1
            && Completed(trace, id) <= |HandedOver(trace, id)| <= Completed(trace, id) + 1
            && (|Arrived(trace, id)| > |HandedOver(trace, id)| ==> |HandedOver(trace, id)| == Completed(trace, id))
  {
    hide Runs, After, OutRun, InRun, Arrived, HandedOver, Completed;
    HandshakesInOrder(actions);
    InOrder(After(actions).trace, id);
  }

  /** Outbound messages of qos above 0 written, and those whose last acknowledgement was read. */
  function Requested(trace: seq<Event>): nat {
    if trace == [] then 0
    else
      Requested(trace[..|trace| - 1]) +
      match trace[|trace| - 1]
      case Wrote(Publish(qos, _, _)) => if qos > 0 then 1 else 0
      case _ => 0
  }

  function Settled(trace: seq<Event>): nat {
    if trace == [] then 0
    else
      Settled(trace[..|trace| - 1]) +
      match trace[|trace| - 1]
      case Read(PubAck(_)) => 1
      case Read(PubComp(_)) => 1
      case _ => 0
  }

  lemma {:induction false} OutInOrder(trace: seq<Event>)
    requires OutRun(trace) != OutBroken
    ensures Requested(trace) == Settled(trace) + if OutRun(trace) == Clear then 0 else 1
    decreases |trace|
  {
    if trace != [] {
      OutInOrder(trace[..|trace| - 1]);
    }
  }

  /** At most one: in every run, at most one outbound message of qos above 0 is unacknowledged. */
  lemma AtMostOneUnacknowledged(actions: seq<Action>)
    requires Runs(actions)
    ensures var trace := After(actions).trace; Settled(trace) <= Requested(trace) <= Settled(trace) + 1
  {
    hide Runs, After, OutRun, InRun, Requested, Settled;
    HandshakesInOrder(actions);
    OutInOrder(After(actions).trace);
  }

  /** An outbound event: a PUBLISH above qos 0, a PUBREL, or an acknowledgement of either. */
  predicate Outbound(e: Event) {
    match e
    case Wrote(p) => p.PubRel? || (p.Publish? && p.qos > 0)
    case Read(p) => p.PubAck? || p.PubRec? || p.PubComp?
    case _ => false
  }

  lemma {:induction false} Acknowledges(trace: seq<Event>, id: nat) returns (j: nat)
    requires OutRun(trace) == OutPhase.Acknowledged(id)
    ensures j < |trace| && trace[j] == Read(PubRec(id))
    ensures forall k :: j < k < |trace| ==> !Outbound(trace[k])
    decreases |trace|
  {
    var last := |trace| - 1;
    if Outbound(trace[last]) {
      j := last;
    } else {
      j := Acknowledges(trace[..last], id);
    }
  }

  /** PUBREL follows the PUBREC of its id, with nothing outbound between them. */
  lemma PubRelFollowsPubRec(actions: seq<Action>, i: nat) returns (j: nat)
    requires Runs(actions) && i < |After(actions).trace| && After(actions).trace[i].Wrote?
    requires After(actions).trace[i].packet.PubRel?
    ensures var trace := After(actions).trace;
            && j < i && trace[j] == Read(PubRec(trace[i].packet.id))
            && forall k :: j < k < i ==> !Outbound(trace[k])
  {
    hide Runs, After, InRun;
    var trace := After(actions).trace;
    HandshakesInOrder(actions);
    Unbroken(trace, i + 1);
    assert trace[..i + 1][..i] == trace[..i];
    j := Acknowledges(trace[..i], trace[i].packet.id);
  }

  lemma {:induction false} Unbroken(trace: seq<Event>, i: nat)
    requires OutRun(trace) != OutBroken && i <= |trace|
    ensures OutRun(trace[..i]) != OutBroken
    decreases |trace|
  {
    if i < |trace| {
      Unbroken(trace[..|trace| - 1], i);
      assert trace[..|trace| - 1][..i] == trace[..i];
    } else {
      assert trace[..i] == trace;
    }
  }

  /** A packet of an outbound handshake, and its id. */
  function OutboundId(e: Event): Option<nat> {
    match e
    case Wrote(Publish(qos, id, _)) => if qos > 0 then Some(id) else None
    case Wrote(PubRel(id)) => Some(id)
    case _ => None
  }

  lemma NextTrace(s: State, a: Action)
    requires Shaped(s) && Enabled(s, a)
    ensures var next := Next(s, a);
            next.trace == s.trace || (next.trace == s.trace + [next.trace[|s.trace|]] && OutboundId(next.trace[|s.trace|]).GetOr(0) == 0)
  {
    hide Shaped, ReaderSteps, ThreadSteps, WriterSteps;
    match a
    case WriterStep => WriterIds(s);
    case ThreadStep(t) => ThreadIds(s, t);
    case ReaderStep(owner) => ReaderIds(s, owner);
    case _ =>
  }

  lemma WriterIds(s: State)
    requires Shaped(s) && WriterEnabled(s)
    ensures var next := WriterSteps(s);
            next.trace == s.trace || (next.trace == s.trace + [next.trace[|s.trace|]] && OutboundId(next.trace[|s.trace|]).GetOr(0) == 0)
  {
  }

  lemma ThreadIds(s: State, t: nat)
    requires ThreadEnabled(s, t)
    ensures var next := ThreadSteps(s, t);
            next.trace == s.trace || (next.trace == s.trace + [next.trace[|s.trace|]] && OutboundId(next.trace[|s.trace|]).GetOr(0) == 0)
  {
  }

  lemma ReaderIds(s: State, owner: Owner)
    requires ReaderEnabled(s, owner)
    ensures var next := ReaderSteps(s, owner);
            next.trace == s.trace || (next.trace == s.trace + [next.trace[|s.trace|]] && OutboundId(next.trace[|s.trace|]).GetOr(0) == 0)
  {
  }

  lemma ShapedRun(actions: seq<Action>)
    requires Runs(actions)
    ensures Shaped(After(actions))
  {
    RunKeeps(actions);
  }

  /**
   next_packet_id gives every outbound message the id 0, which section 2.3.1 of MQTT 3.1.1 does not allow: so says every
   PUBLISH of qos above 0 and every PUBREL that any run writes.
   */
  lemma {:induction false} IdsAreZero(actions: seq<Action>)
    requires Runs(actions)
    ensures forall e :: e in After(actions).trace && OutboundId(e).Some? ==> OutboundId(e) == Some(0)
    decreases |actions|
  {
    hide Shaped, Enabled, Next;
    if actions != [] {
      var init, last := actions[..|actions| - 1], actions[|actions| - 1];
      IdsAreZero(init);
      ShapedRun(init);
      NextTrace(After(init), last);
    }
  }

  /** The shortest run that writes such a PUBLISH. */
  lemma ZeroIdWritten(message: bytes)
    ensures var actions := [Queue(Outgoing(1, message)), WriterStep, WriterStep];
            Runs(actions) && After(actions).trace == [Wrote(Publish(1, 0, message))]
  {
    var actions := [Queue(Outgoing(1, message)), WriterStep, WriterStep];
    assert actions[..2][..1][..0] == [] && actions[..2][..1] == [actions[0]] && actions[..2] == [actions[0], actions[1]];
    assert Runs([]) && After([]) == START;
    assert Runs(actions[..2][..1]) && After(actions[..2][..1]) == Next(START, actions[0]);
    assert Runs(actions[..2]);
    assert After(actions[..2]) == Next(Next(START, actions[0]), WriterStep);
    assert LeastFrom({}, 0) == 0;
    assert After(actions[..2]).writer == Armed(1, 0, message);
  }

  /** A condition is made by a thread that has none, so the guard against waiting twice never raises. */
  lemma NobodyWaitsTwice(actions: seq<Action>)
    requires Runs(actions)
    ensures var s := After(actions);
            && (s.writer.Ready? || s.writer.Received? ==> Writer !in s.conditions)
            && forall t :: 0 <= t < |s.threads| && s.threads[t].at == Started ==> Worker(t) !in s.conditions
  {
    RunKeeps(actions);
  }
}
