/**
 The hub as one state machine: every invocation or disconnect notification is
 a request from one connection, and Step dispatches it to the matching
 RadioHub operation. The lemmas here state what holds of every step: the room
 lifecycle Created(pc) -> Paired(pc, phone) -> removed, the shape of the
 registry keys, who gets addressed, and which invariants survive which steps.
 */
module Machine {
  import opened Decimal
  import opened Rooms
  import opened RadioHub

  /**
   A request arriving from one connection, with the oracle its operation
   consults: the random draws for CreateRoom, and the dictionary's
   enumeration order for the two lookups.
   */
  datatype Request =
    | Create(draws: seq<nat>)
    | Join(code: Code)
    | Send(message: string, order: seq<Code>)
    | Closed(order: seq<Code>)

  /** The oracle is one the runtime could supply: draws in range with a free one, a true enumeration. */
  ghost predicate Admissible(s: State, req: Request) {
    match req
    case Create(draws) => ValidDraws(draws) && HasFreshDraw(s.rooms, draws)
    case Join(_) => true
    case Send(_, order) => Enumerates(order, s.rooms)
    case Closed(order) => Enumerates(order, s.rooms)
  }

  /**
   The per-room lifecycle: a surviving room keeps its PC and never loses or
   changes a phone; a new room holds the caller as PC and no phone; a phone
   slot that gets filled is filled with the caller.
   */
  ghost predicate Evolves(before: Registry, after: Registry, caller: ConnId) {
    && (forall k :: k in before && k in after ==>
          after[k].pc == before[k].pc && (before[k].phone.Some? ==> after[k].phone == before[k].phone))
    && (forall k :: k in after && k !in before ==> after[k] == Room(caller, None))
    && (forall k :: k in before && k in after && before[k].phone.None? && after[k].phone.Some? ==>
          after[k].phone == Some(caller))
  }

  /** The entry for k was added, removed or changed. */
  ghost predicate Touched(before: Registry, after: Registry, k: Code) {
    (k in before) != (k in after) || (k in before && k in after && before[k] != after[k])
  }

  ghost predicate AtMostOneTouched(before: Registry, after: Registry) {
    forall k1, k2 :: Touched(before, after, k1) && Touched(before, after, k2) ==> k1 == k2
  }

  function Step(s: State, caller: ConnId, req: Request): (t: Transition)
    requires Admissible(s, req)
    ensures Evolves(s.rooms, t.state.rooms, caller)
    ensures AtMostOneTouched(s.rooms, t.state.rooms)
  {
    match req
    case Create(draws) => CreateRoom(s, caller, draws)
    case Join(code) => JoinRoom(s, caller, code)
    case Send(message, order) => SendMessageToPartner(s, caller, message, order)
    case Closed(order) => OnDisconnected(s, caller, order)
  }

  /** Only the caller ever hears RoomCreated or Error; a relayed message or disconnect notice never goes back to the caller. */
  lemma StepAddressing(s: State, caller: ConnId, req: Request)
    requires Admissible(s, req)
    ensures var out := Step(s, caller, req).out;
      forall i :: 0 <= i < |out| ==>
        && (out[i].message.RoomCreated? || out[i].message.Error? ==> out[i].to == {caller})
        && (out[i].message.ReceiveMessage? || out[i].message.PartnerDisconnected? ==> caller !in out[i].to)
  {
  }

  /** A relayed payload arrives unchanged: the only message a Send step emits is ReceiveMessage of that payload. */
  lemma RelayIsTransparent(s: State, caller: ConnId, message: string, order: seq<Code>)
    requires Enumerates(order, s.rooms)
    ensures var out := Step(s, caller, Send(message, order)).out;
      |out| <= 1 && forall i :: 0 <= i < |out| ==> out[i].message == ReceiveMessage(message)
  {
  }

  /** Every key of the registry is a code CreateRoom can issue. */
  ghost predicate AllRoomCodes(rooms: Registry) {
    forall k :: k in rooms ==> IsRoomCode(k)
  }

  lemma StepKeepsRoomCodes(s: State, caller: ConnId, req: Request)
    requires Admissible(s, req) && AllRoomCodes(s.rooms)
    ensures AllRoomCodes(Step(s, caller, req).state.rooms)
  {
  }

  /** Hence no room code is ever 999999 or shorter or longer than six characters. */
  lemma RoomCodesAreSixDigits(rooms: Registry, k: Code)
    requires AllRoomCodes(rooms) && k in rooms
    ensures |k| == CodeLength && AllDigits(k) && k[0] != '0'
    ensures MinCode <= Parse(k) <= CodeBound - 1
  {
    RoomCodeShape(k);
  }

  /** A caller that is in no room yet: the client behaviour under which membership stays unique. */
  ghost predicate FreshCaller(s: State, caller: ConnId, req: Request) {
    (req.Create? || req.Join?) ==> !InSomeRoom(s.rooms, caller)
  }

  lemma StepKeepsUniqueMembership(s: State, caller: ConnId, req: Request)
    requires Admissible(s, req) && UniqueMembership(s.rooms) && FreshCaller(s, caller, req)
    ensures UniqueMembership(Step(s, caller, req).state.rooms)
  {
    var after := Step(s, caller, req).state.rooms;
    match req {
      case Create(draws) =>
        var code := NewCode(s.rooms, draws);
        assert forall k, c :: Belongs(after, k, c) ==> (k == code && c == caller) || Belongs(s.rooms, k, c);
      case Join(code) =>
        if CanJoin(s.rooms, code) {
          assert forall k, c :: Belongs(after, k, c) ==> (k == code && c == caller) || Belongs(s.rooms, k, c);
        }
      case Send(_, _) =>
      case Closed(_) =>
        assert forall k, c :: Belongs(after, k, c) ==> Belongs(s.rooms, k, c);
    }
  }

  /**
   The side condition is needed: a connection that already belongs to a room
   and creates another one ends up in two rooms.
   */
  lemma CreateByMemberBreaksUniqueMembership(s: State, caller: ConnId, draws: seq<nat>)
    requires Admissible(s, Create(draws)) && InSomeRoom(s.rooms, caller)
    ensures !UniqueMembership(Step(s, caller, Create(draws)).state.rooms)
  {
    var k :| Belongs(s.rooms, k, caller);
    var code := NewCode(s.rooms, draws);
    var after := Step(s, caller, Create(draws)).state.rooms;
    assert Belongs(after, k, caller) && Belongs(after, code, caller) && k != code;
  }

  /**
   Without unique membership a disconnect removes only the first room found:
   a connection in two rooms is still in one after it closes, and that room
   keeps the closed connection as a member.
   */
  lemma DisconnectOfDoubleMemberLeavesRoom(s: State, caller: ConnId, k1: Code, k2: Code, order: seq<Code>)
    requires Enumerates(order, s.rooms)
    requires Belongs(s.rooms, k1, caller) && Belongs(s.rooms, k2, caller) && k1 != k2
    ensures var after := Step(s, caller, Closed(order)).state.rooms;
      && (Belongs(after, k1, caller) || Belongs(after, k2, caller))
      && InSomeRoom(after, caller)
      && |after.Keys| == |s.rooms.Keys| - 1
  {
  }

  /** Likewise a member of one room that joins another is then in two rooms. */
  lemma JoinByMemberBreaksUniqueMembership(s: State, caller: ConnId, code: Code)
    requires CanJoin(s.rooms, code) && InSomeRoom(s.rooms, caller) && !Belongs(s.rooms, code, caller)
    ensures !UniqueMembership(Step(s, caller, Join(code)).state.rooms)
  {
    var k :| Belongs(s.rooms, k, caller);
    var after := Step(s, caller, Join(code)).state.rooms;
    assert Belongs(after, k, caller) && Belongs(after, code, caller) && k != code;
  }

  /** A PC may join its own room and then occupies both slots: JoinRoom does not compare the caller with the PC. */
  lemma PcCanJoinOwnRoom(s: State, pc: ConnId, code: Code)
    requires code in s.rooms && s.rooms[code] == Room(pc, None)
    ensures var t := Step(s, pc, Join(code));
      t.out[0].message == ConnectionEstablished && t.state.rooms[code] == Room(pc, Some(pc))
  {
  }

  /** Every member of a live room is in that room's group. */
  ghost predicate GroupsCoverRooms(s: State) {
    forall k, c :: Belongs(s.rooms, k, c) ==> c in GroupOf(s.groups, k)
  }

  lemma StepKeepsGroupsCover(s: State, caller: ConnId, req: Request)
    requires Admissible(s, req) && GroupsCoverRooms(s) && UniqueMembership(s.rooms)
    ensures GroupsCoverRooms(Step(s, caller, req).state)
  {
  }

  /**
   Of two joins to the same empty room, the first wins and the second, by any
   connection including the winner, is answered with Error and changes nothing.
   */
  lemma SecondJoinRejected(s: State, code: Code, first: ConnId, second: ConnId)
    requires CanJoin(s.rooms, code)
    ensures var t1 := Step(s, first, Join(code));
      var t2 := Step(t1.state, second, Join(code));
      && t1.out[0].message == ConnectionEstablished
      && t2 == Transition(t1.state, [Outbound({second}, Error)])
  {
  }

  /** A successful join notifies both the PC and the new phone. */
  lemma JoinNotifiesBothMembers(s: State, caller: ConnId, code: Code)
    requires GroupsCoverRooms(s) && CanJoin(s.rooms, code)
    ensures var out := Step(s, caller, Join(code)).out;
      |out| == 1 && out[0].message == ConnectionEstablished
      && s.rooms[code].pc in out[0].to && caller in out[0].to
  {
  }

  /**
   In a paired room, a message from either member reaches the other one
   and is not echoed to the sender.
   */
  lemma RelayReachesPartner(s: State, k: Code, sender: ConnId, partner: ConnId, message: string, order: seq<Code>)
    requires Enumerates(order, s.rooms) && UniqueMembership(s.rooms) && GroupsCoverRooms(s)
    requires Belongs(s.rooms, k, sender) && Belongs(s.rooms, k, partner) && sender != partner
    ensures var out := Step(s, sender, Send(message, order)).out;
      |out| == 1 && partner in out[0].to && sender !in out[0].to && out[0].message == ReceiveMessage(message)
  {
  }

  /** A connection in no room sends nothing and changes nothing. */
  lemma RelayWithoutRoomIsDropped(s: State, sender: ConnId, message: string, order: seq<Code>)
    requires Enumerates(order, s.rooms) && !InSomeRoom(s.rooms, sender)
    ensures Step(s, sender, Send(message, order)) == Transition(s, [])
  {
  }

  /**
   When a member of a paired room disconnects, the partner hears exactly one
   PartnerDisconnected, the room is gone, and neither side is in any room.
   */
  lemma DisconnectTearsDown(s: State, k: Code, leaver: ConnId, partner: ConnId, order: seq<Code>)
    requires Enumerates(order, s.rooms) && UniqueMembership(s.rooms) && GroupsCoverRooms(s)
    requires Belongs(s.rooms, k, leaver) && Belongs(s.rooms, k, partner) && leaver != partner
    ensures var t := Step(s, leaver, Closed(order));
      && t.out == [Outbound(GroupOf(s.groups, k) - {leaver}, PartnerDisconnected)]
      && partner in t.out[0].to
      && k !in t.state.rooms
      && !InSomeRoom(t.state.rooms, leaver) && !InSomeRoom(t.state.rooms, partner)
  {
    assert FindRoom(s.rooms, order, leaver) == Some(k);
    var t := Step(s, leaver, Closed(order));
    assert t.state.rooms == s.rooms - {k};
    assert forall k' :: Belongs(t.state.rooms, k', partner) ==> Belongs(s.rooms, k', partner) && k' != k;
  }

  /**
   A room is removed when its creator disconnects, even before any phone
   joined, and its code can then be issued again by a later CreateRoom.
   */
  lemma ClosedCodeCanBeReissued(s: State, k: Code, pc: ConnId, n: nat, order: seq<Code>, newcomer: ConnId)
    requires Enumerates(order, s.rooms) && UniqueMembership(s.rooms)
    requires k in s.rooms && s.rooms[k] == Room(pc, None)
    requires MinCode <= n < CodeBound && k == Digits(n)
    ensures var s1 := Step(s, pc, Closed(order)).state;
      && k !in s1.rooms
      && Admissible(s1, Create([n]))
      && Step(s1, newcomer, Create([n])).out == [Outbound({newcomer}, RoomCreated(k))]
      && Step(s1, newcomer, Create([n])).state.rooms[k] == Room(newcomer, None)
  {
    assert FindRoom(s.rooms, order, pc) == Some(k);
    var s1 := Step(s, pc, Closed(order)).state;
    assert s1.rooms == s.rooms - {k};
    assert Digits([n][0]) !in s1.rooms;
    assert NewCode(s1.rooms, [n]) == k;
  }
}
