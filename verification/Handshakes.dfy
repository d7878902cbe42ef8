/**
 servers/handler.py: the acknowledgements of qos 1 and 2 (section 4.3 of MQTT 3.1.1), as the interleaved steps
 of one client's writer thread, reader thread and packet handler threads, and of the client itself.
 */
module Handshakes {
  import opened Wrappers
  import opened Bytes

  // ---------------------------------------------------------------- the state

  datatype Packet =
    | Publish(qos: nat, id: nat, message: bytes)
    | PubAck(id: nat)
    | PubRec(id: nat)
    | PubRel(id: nat)
    | PubComp(id: nat)

  /** A PacketCondition: the type and id of the packet it waits for, and whether that packet came. */
  datatype Condition = Condition(awaits: Packet, met: bool)

  /** The thread that made a condition, which stands for the object's identity. */
  datatype Owner = Writer | Worker(t: nat)

  datatype Outgoing = Outgoing(qos: nat, message: bytes)

  /** Where send_message is. */
  datatype WriterAt =
    | Ready
    | Armed(qos: nat, id: nat, message: bytes)    // condition made, PUBLISH not written
    | Waiting(qos: nat, id: nat, message: bytes)  // PUBLISH written
    | Received(id: nat)                           // PUBREC came, its condition is gone
    | RelArmed(id: nat)                           // condition for PUBCOMP made, PUBREL not written
    | RelWaiting(id: nat)                         // PUBREL written

  /** Where handle_publish is. */
  datatype At = Started | Listening | Awaiting | Released | Published | Finished

  datatype Thread = Thread(qos: nat, id: nat, message: bytes, at: At)

  datatype Event = Read(packet: Packet) | Wrote(packet: Packet) | Handed(packet: Packet)

  datatype State = State(
    queue: seq<Outgoing>,
    usedIds: set<nat>,
    writer: WriterAt,
    threads: seq<Thread>,
    conditions: map<Owner, Condition>,
    toClient: seq<Packet>,
    fromClient: seq<Packet>,
    owed: multiset<Packet>,  // answers the client has not sent yet
    busy: set<nat>,          // ids of the client's qos 2 messages it has no PUBCOMP for
    unexpected: bool,        // UnexpectedPacketType was raised
    trace: seq<Event>)

  datatype Action =
    | Queue(outgoing: Outgoing)
    | WriterStep
    | ReaderStep(owner: Owner)
    | ThreadStep(t: nat)
    | ClientReads
    | ClientAnswers(answer: Packet)
    | ClientPublishes(packet: Packet)

  const START := State([], {}, Ready, [], map[], [], [], multiset{}, {}, false, [])

  // ---------------------------------------------------------------- the steps

  function Write(s: State, p: Packet): State {
    s.(toClient := s.toClient + [p], trace := s.trace + [Wrote(p)])
  }

  function Arm(s: State, owner: Owner, awaits: Packet): State {
    s.(conditions := s.conditions[owner := Condition(awaits, false)])
  }

  function Disarm(s: State, owner: Owner): State {
    s.(conditions := s.conditions - {owner})
  }

  predicate Met(s: State, owner: Owner) {
    owner in s.conditions && s.conditions[owner].met
  }

  /** The acknowledgement of a PUBLISH of qos above 0. */
  function Acknowledgement(qos: nat, id: nat): Packet {
    if qos == 1 then PubAck(id) else PubRec(id)
  }

  /** next_packet_id: the least id from i on that is not in use, or 65535 when there is none below it. */
  function LeastFrom(used: set<nat>, i: nat): (id: nat)
    requires i <= 65535
    ensures i <= id <= 65535 && (id < 65535 ==> id !in used) && forall j :: i <= j < id ==> j in used
    decreases 65535 - i
  {
    if i == 65535 || i !in used then i else LeastFrom(used, i + 1)
  }

  predicate WriterEnabled(s: State) {
    match s.writer
    case Ready => s.queue != [] && (s.queue[0].qos > 0 ==> LeastFrom(s.usedIds, 0) < 65535)
    case Waiting(_, _, _) => Met(s, Writer)
    case RelWaiting(_) => Met(s, Writer)
    case _ => true
  }

  /** One step of send_message. */
  function WriterSteps(s: State): State
    requires WriterEnabled(s)
  {
    match s.writer
    case Ready =>
      var outgoing, rest := s.queue[0], s.(queue := s.queue[1..]);
      if outgoing.qos == 0 then Write(rest, Publish(0, 0, outgoing.message))
      else
        var id := LeastFrom(s.usedIds, 0);
        Arm(rest.(usedIds := s.usedIds + {id}, writer := Armed(outgoing.qos, id, outgoing.message)),
            Writer, Acknowledgement(outgoing.qos, id))
    case Armed(qos, id, message) =>
      Write(s.(writer := Waiting(qos, id, message)), Publish(qos, id, message))
    case Waiting(qos, id, _) =>
      if qos == 2 then Disarm(s.(writer := Received(id)), Writer)
      else Disarm(s.(writer := Ready, usedIds := s.usedIds - {id}), Writer)
    case Received(id) =>
      Arm(s.(writer := RelArmed(id)), Writer, PubComp(id))
    case RelArmed(id) =>
      Write(s.(writer := RelWaiting(id)), PubRel(id))
    case RelWaiting(id) =>
      Disarm(s.(writer := Ready, usedIds := s.usedIds - {id}), Writer)
  }

  predicate ThreadEnabled(s: State, t: nat) {
    && t < |s.threads|
    && s.threads[t].at != Finished
    && (s.threads[t].at == Awaiting ==> Met(s, Worker(t)))
  }

  function Move(s: State, t: nat, at: At): State
    requires t < |s.threads|
  {
    s.(threads := s.threads[t := s.threads[t].(at := at)])
  }

  function Hand(s: State, p: Packet): State {
    s.(trace := s.trace + [Handed(p)])
  }

  /** One step of publish, handle_publish_qos_1 or handle_publish_qos_2. */
  function ThreadSteps(s: State, t: nat): State
    requires ThreadEnabled(s, t)
  {
    var thread := s.threads[t];
    var packet := Publish(thread.qos, thread.id, thread.message);
    match thread.at
    case Started =>
      if thread.qos == 2 then Arm(Move(s, t, Listening), Worker(t), PubRel(thread.id))
      else if thread.qos == 1 then Hand(Move(s, t, Published), packet)
      else Hand(Move(s, t, Finished), packet)
    case Listening => Write(Move(s, t, Awaiting), PubRec(thread.id))
    case Awaiting => Disarm(Move(s, t, Released), Worker(t))
    case Released => Hand(Move(s, t, Published), packet)
    case Published => Write(Move(s, t, Finished), if thread.qos == 2 then PubComp(thread.id) else PubAck(thread.id))
    case Finished => s
  }

  predicate Matches(conditions: map<Owner, Condition>, owner: Owner, p: Packet) {
    owner in conditions && conditions[owner].awaits == p
  }

  predicate Matching(s: State, owner: Owner, p: Packet) {
    Matches(s.conditions, owner, p)
  }

  predicate ReaderEnabled(s: State, owner: Owner) {
    && s.fromClient != [] && !s.unexpected
    && (s.fromClient[0].Publish? || Matching(s, owner, s.fromClient[0])
        || forall o :: o in s.conditions ==> !Matching(s, o, s.fromClient[0]))
  }

  /** handle_packet: a PUBLISH starts a thread; an acknowledgement meets a condition that waits for it, or raises. */
  function ReaderSteps(s: State, owner: Owner): State
    requires ReaderEnabled(s, owner)
  {
    var p := s.fromClient[0];
    var next := s.(fromClient := s.fromClient[1..], trace := s.trace + [Read(p)]);
    if p.Publish? then next.(threads := s.threads + [Thread(p.qos, p.id, p.message, Started)])
    else if Matching(s, owner, p) then next.(conditions := s.conditions[owner := Condition(p, true)])
    else next.(unexpected := true)
  }

  /** An acknowledgement nobody waits for raises; one that is awaited meets a condition of its own packet, and no other. */
  lemma UnexpectedExactly(s: State, owner: Owner)
    requires ReaderEnabled(s, owner)
    ensures var p, next := s.fromClient[0], ReaderSteps(s, owner);
            && (next.unexpected <==> !p.Publish? && forall o :: o in s.conditions ==> s.conditions[o].awaits != p)
            && (!p.Publish? && !next.unexpected ==>
                  owner in s.conditions && s.conditions[owner].awaits == p &&
                  next.conditions == s.conditions[owner := Condition(p, true)])
            && (p.Publish? || next.unexpected ==> next.conditions == s.conditions)
  {
    var p := s.fromClient[0];
    assert forall o :: Matching(s, o, p) <==> o in s.conditions && s.conditions[o].awaits == p;
  }

  /** What a client owes for a packet. */
  function Reply(p: Packet): Option<Packet> {
    match p
    case Publish(qos, id, _) => if qos == 0 then None else Some(Acknowledgement(qos, id))
    case PubRec(id) => Some(PubRel(id))
    case PubRel(id) => Some(PubComp(id))
    case _ => None
  }

  /**
   The client reads what it was sent, owes one answer for it, sends answers whenever it likes, and does not
   use the id of a qos 2 message again before it has the PUBCOMP.
   */
  function ClientSteps(s: State): State
    requires s.toClient != []
  {
    var p := s.toClient[0];
    var next := s.(toClient := s.toClient[1..]);
    if p.PubComp? then next.(busy := s.busy - {p.id})
    else if Reply(p).Some? then next.(owed := s.owed + multiset{Reply(p).value})
    else next
  }

  predicate Enabled(s: State, a: Action) {
    match a
    case Queue(outgoing) => outgoing.qos <= 2
    case WriterStep => WriterEnabled(s)
    case ReaderStep(owner) => ReaderEnabled(s, owner)
    case ThreadStep(t) => ThreadEnabled(s, t)
    case ClientReads => s.toClient != []
    case ClientAnswers(answer) => answer in s.owed
    case ClientPublishes(p) => p.Publish? && p.qos <= 2 && (p.qos == 2 ==> p.id !in s.busy)
  }

  function Next(s: State, a: Action): State
    requires Enabled(s, a)
  {
    match a
    case Queue(outgoing) => s.(queue := s.queue + [outgoing])
    case WriterStep => WriterSteps(s)
    case ReaderStep(owner) => ReaderSteps(s, owner)
    case ThreadStep(t) => ThreadSteps(s, t)
    case ClientReads => ClientSteps(s)
    case ClientAnswers(answer) =>
      s.(owed := s.owed - multiset{answer}, fromClient := s.fromClient + [answer])
    case ClientPublishes(p) =>
      s.(fromClient := s.fromClient + [p], busy := if p.qos == 2 then s.busy + {p.id} else s.busy)
  }

  /** The runs: each action enabled where it happens. */
  predicate Runs(actions: seq<Action>)
    decreases |actions|, 0
  {
    actions == [] || (Runs(actions[..|actions| - 1]) && Enabled(After(actions[..|actions| - 1]), actions[|actions| - 1]))
  }

  function After(actions: seq<Action>): State
    requires Runs(actions)
    decreases |actions|, 1
  {
    if actions == [] then START else Next(After(actions[..|actions| - 1]), actions[|actions| - 1])
  }

  // ---------------------------------------------------------------- the code behind the steps

  /** What a handler's threads share. */
  class Handler {
    var usedIds: set<nat>
    var conditions: map<Owner, Condition>
    var threads: seq<Thread>

    constructor ()
      ensures usedIds == START.usedIds && conditions == START.conditions && threads == START.threads
    {
      usedIds, conditions, threads := {}, map[], [];
    }

    /** A state of the machine in which this handler is. */
    ghost predicate In(s: State)
      reads this
    {
      s.usedIds == usedIds && s.conditions == conditions && s.threads == threads
    }

    /** next_packet_id. */
    method NextPacketId() returns (r: Result<nat>)
      ensures r == if LeastFrom(usedIds, 0) < 65535 then Ok(LeastFrom(usedIds, 0)) else Err(TooManyPacketIds)
    {
      var i: nat := 0;
      while i in usedIds
        invariant i < 65535 && LeastFrom(usedIds, 0) == LeastFrom(usedIds, i)
        decreases 65535 - i
      {
        i := i + 1;
        if i == 65535 {
          return Err(TooManyPacketIds);
        }
      }
      r := Ok(i);
    }

    /**
     create_packet_condition, for a condition made by its owner. Conditions are equal only when they are the same
     object, so the guard asks for the owner's own; the machine's Arm is what happens past it.
     */
    method CreatePacketCondition(owner: Owner, awaits: Packet) returns (r: Result<Owner>)
      modifies this`conditions
      ensures r == if owner in old(conditions) && old(conditions)[owner] == Condition(awaits, false) then Err(AlreadyWaiting) else Ok(owner)
      ensures r.Err? ==> conditions == old(conditions)
      ensures r.Ok? ==> forall s: State :: old(In(s)) ==> In(Arm(s, owner, awaits))
    {
      if owner in conditions && conditions[owner] == Condition(awaits, false) {
        return Err(AlreadyWaiting);
      }
      conditions := conditions[owner := Condition(awaits, false)];
      r := Ok(owner);
    }

    /** The end of wait_for_packet. */
    method RemoveCondition(owner: Owner)
      modifies this`conditions
      ensures forall s: State :: old(In(s)) ==> In(Disarm(s, owner))
    {
      conditions := conditions - {owner};
    }

    /** packet_notify: some condition that waits for the packet is met, if there is one, and nothing else changes. */
    method PacketNotify(p: Packet) returns (found: bool, ghost owner: Owner)
      modifies this`conditions
      ensures found <==> exists o :: Matches(old(conditions), o, p)
      ensures found ==> Matches(old(conditions), owner, p) && conditions == old(conditions)[owner := Condition(p, true)]
      ensures !found ==> conditions == old(conditions)
    {
      owner := Writer;
      var left := conditions.Keys;
      while left != {}
        invariant left <= conditions.Keys && conditions == old(conditions)
        invariant forall o :: Matches(conditions, o, p) ==> o in left
        decreases |left|
      {
        var o :| o in left;
        if conditions[o].awaits == p {
          owner := o;
          assert Matches(old(conditions), o, p);
          conditions := conditions[o := conditions[o].(met := true)];
          return true, owner;
        }
        left := left - {o};
      }
      found := false;
    }

    /** handle_packet: the machine's reader step, wherever the packet is the next one. */
    method HandlePacket(p: Packet) returns (unexpected: bool, ghost owner: Owner)
      modifies this
      ensures forall s: State :: old(In(s)) && !s.unexpected && s.fromClient != [] && s.fromClient[0] == p ==>
        ReaderEnabled(s, owner) && In(ReaderSteps(s, owner)) && ReaderSteps(s, owner).unexpected == unexpected
    {
      unexpected, owner := false, Writer;
      if p.Publish? {
        threads := threads + [Thread(p.qos, p.id, p.message, Started)];
      } else {
        ghost var before := conditions;
        var found, met := PacketNotify(p);
        owner := met;
        unexpected := !found;
        assert !found ==> forall o :: o in before ==> !Matches(before, o, p);
      }
    }
  }
}
