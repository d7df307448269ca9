/**
 Group membership after a room is removed.

 The hub adds connections to the SignalR group named after the room code
 (RadioHub.cs:31 and :45) and never removes anyone from it. When a room is
 torn down only the closing connection leaves the group, through the
 transport, and the surviving partner stays. If a later CreateRoom draws the
 same code, that stale connection belongs to the new room's group: it hears
 the new room's ConnectionEstablished and every message relayed in it.
 This module exhibits that with the hub as written, and proves that a
 teardown which also dissolves the group keeps groups and rooms in step.
 */
module Teardown {
  import opened Decimal
  import opened Rooms
  import opened RadioHub
  import opened Machine

  /** Whoever is in group n is a member of the live room n. */
  ghost predicate NoStaleMembers(s: State) {
    forall n, c :: c in GroupOf(s.groups, n) ==> Belongs(s.rooms, n, c)
  }

  /** As written, tearing down a paired room leaves the partner in its group. */
  lemma DisconnectLeavesPartnerInGroup(s: State, k: Code, leaver: ConnId, partner: ConnId, order: seq<Code>)
    requires Enumerates(order, s.rooms) && UniqueMembership(s.rooms) && GroupsCoverRooms(s)
    requires Belongs(s.rooms, k, leaver) && Belongs(s.rooms, k, partner) && leaver != partner
    ensures var s1 := Step(s, leaver, Closed(order)).state;
      k !in s1.rooms && partner in GroupOf(s1.groups, k) && !NoStaleMembers(s1)
  {
  }

  /** A group member of a code with no live room is in the group of the room next created under it. */
  lemma ReissueKeepsStaleMember(s: State, k: Code, n: nat, stale: ConnId, pc: ConnId)
    requires MinCode <= n < CodeBound && k == Digits(n) && k !in s.rooms
    requires stale in GroupOf(s.groups, k)
    ensures Admissible(s, Create([n]))
    ensures var t := Step(s, pc, Create([n]));
      && t.out == [Outbound({pc}, RoomCreated(k))]
      && t.state.rooms == s.rooms[k := Room(pc, None)]
      && stale in GroupOf(t.state.groups, k)
  {
    assert Digits([n][0]) !in s.rooms;
    assert NewCode(s.rooms, [n]) == k;
  }

  /** Whoever is in a room's group hears its ConnectionEstablished, member or not. */
  lemma JoinReachesGroup(s: State, k: Code, listener: ConnId, phone: ConnId)
    requires CanJoin(s.rooms, k) && listener in GroupOf(s.groups, k)
    ensures var t := Step(s, phone, Join(k));
      && t.out[0].message == ConnectionEstablished && listener in t.out[0].to
      && t.state.rooms == s.rooms[k := Room(s.rooms[k].pc, Some(phone))]
      && listener in GroupOf(t.state.groups, k)
  {
  }

  /** Whoever is in a room's group, other than the sender, hears what a member of that room relays. */
  lemma RelayReachesGroup(s: State, k: Code, listener: ConnId, sender: ConnId, message: string, order: seq<Code>)
    requires Enumerates(order, s.rooms) && UniqueMembership(s.rooms)
    requires Belongs(s.rooms, k, sender) && listener in GroupOf(s.groups, k) && listener != sender
    ensures var out := Step(s, sender, Send(message, order)).out;
      out == [Outbound(GroupOf(s.groups, k) - {sender}, ReceiveMessage(message))] && listener in out[0].to
  {
  }

  /**
   As written, a stale group member of a removed code hears the next room
   issued under that code: its ConnectionEstablished and the PC's messages,
   without being a member of it.
   */
  lemma ReissuedCodeReachesStaleMember(s: State, k: Code, n: nat, stale: ConnId, pc: ConnId, phone: ConnId,
                                       message: string, order: seq<Code>)
    requires UniqueMembership(s.rooms) && !InSomeRoom(s.rooms, pc) && !InSomeRoom(s.rooms, phone)
    requires MinCode <= n < CodeBound && k == Digits(n) && k !in s.rooms
    requires stale in GroupOf(s.groups, k) && stale != pc && stale != phone && pc != phone
    requires Enumerates(order, s.rooms[k := Room(pc, Some(phone))])
    ensures Admissible(s, Create([n]))
    ensures var s2 := Step(s, pc, Create([n]));
      var s3 := Step(s2.state, phone, Join(k));
      var s4 := Step(s3.state, pc, Send(message, order));
      && s2.out == [Outbound({pc}, RoomCreated(k))]
      && s3.out[0].message == ConnectionEstablished && stale in s3.out[0].to
      && s4.out[0].message == ReceiveMessage(message) && stale in s4.out[0].to
      && !Belongs(s3.state.rooms, k, stale)
  {
    ReissueKeepsStaleMember(s, k, n, stale, pc);
    var s2 := Step(s, pc, Create([n])).state;
    StepKeepsUniqueMembership(s, pc, Create([n]));
    JoinReachesGroup(s2, k, stale, phone);
    var s3 := Step(s2, phone, Join(k)).state;
    assert UniqueMembership(s3.rooms) by {
      assert !InSomeRoom(s2.rooms, phone) by {
        assert forall k', c :: Belongs(s2.rooms, k', c) ==> (k' == k && c == pc) || Belongs(s.rooms, k', c);
      }
      StepKeepsUniqueMembership(s2, phone, Join(k));
    }
    RelayReachesGroup(s3, k, stale, pc, message, order);
  }

  /** The teardown with the group of the removed room dissolved together with the room. */
  function CloseRoom(s: State, caller: ConnId, order: seq<Code>): (t: Transition)
    requires Enumerates(order, s.rooms)
    ensures t.out == OnDisconnected(s, caller, order).out
    ensures t.state.rooms == OnDisconnected(s, caller, order).state.rooms
    ensures forall n :: n in s.rooms && n !in t.state.rooms ==> GroupOf(t.state.groups, n) == {}
    ensures forall n :: !(n in s.rooms && n !in t.state.rooms) ==>
      GroupOf(t.state.groups, n) == GroupOf(s.groups, n) - {caller}
  {
    var t := OnDisconnected(s, caller, order);
    match FindRoom(s.rooms, order, caller)
    case None => t
    case Some(k) => Transition(State(t.state.rooms, t.state.groups - {k}), t.out)
  }

  /** The hub with the corrected teardown; every other request is handled as written. */
  function CorrectedStep(s: State, caller: ConnId, req: Request): (t: Transition)
    requires Admissible(s, req)
    ensures t.out == Step(s, caller, req).out
    ensures t.state.rooms == Step(s, caller, req).state.rooms
  {
    match req
    case Closed(order) => CloseRoom(s, caller, order)
    case _ => Step(s, caller, req)
  }

  /** With the corrected teardown no connection outlives its room in the room's group. */
  lemma CorrectedStepKeepsNoStaleMembers(s: State, caller: ConnId, req: Request)
    requires Admissible(s, req) && NoStaleMembers(s)
    ensures NoStaleMembers(CorrectedStep(s, caller, req).state)
  {
  }

  lemma CorrectedStepKeepsGroupsCover(s: State, caller: ConnId, req: Request)
    requires Admissible(s, req) && GroupsCoverRooms(s) && UniqueMembership(s.rooms)
    ensures GroupsCoverRooms(CorrectedStep(s, caller, req).state)
  {
  }

  /**
   With no stale members, a relayed message reaches only members of the
   sender's room, never the sender itself.
   */
  lemma CorrectedRelayConfined(s: State, sender: ConnId, message: string, order: seq<Code>)
    requires Enumerates(order, s.rooms) && NoStaleMembers(s)
    ensures var out := CorrectedStep(s, sender, Send(message, order)).out;
      forall i, c :: 0 <= i < |out| && c in out[i].to ==>
        c != sender && exists k :: Belongs(s.rooms, k, sender) && Belongs(s.rooms, k, c)
  {
  }

  /** Rooms and groups in step, for the corrected hub. */
  ghost predicate Consistent(s: State) {
    AllRoomCodes(s.rooms) && UniqueMembership(s.rooms) && GroupsCoverRooms(s) && NoStaleMembers(s)
  }

  /** Every group is exactly its room's members. */
  lemma ConsistentGroupsAreRooms(s: State, n: Code)
    requires Consistent(s)
    ensures GroupOf(s.groups, n) == if n in s.rooms then s.rooms[n].Members() else {}
  {
  }

  /** The corrected hub stays consistent for clients that create or join only while in no room. */
  lemma CorrectedStepKeepsConsistent(s: State, caller: ConnId, req: Request)
    requires Admissible(s, req) && Consistent(s) && FreshCaller(s, caller, req)
    ensures Consistent(CorrectedStep(s, caller, req).state)
  {
    StepKeepsRoomCodes(s, caller, req);
    StepKeepsUniqueMembership(s, caller, req);
    CorrectedStepKeepsGroupsCover(s, caller, req);
    CorrectedStepKeepsNoStaleMembers(s, caller, req);
  }

  /** In a consistent hub a successful join notifies exactly the PC and the new phone. */
  lemma CorrectedJoinNotifiesExactlyTheRoom(s: State, caller: ConnId, code: Code)
    requires Consistent(s) && CanJoin(s.rooms, code)
    ensures var out := CorrectedStep(s, caller, Join(code)).out;
      out == [Outbound({s.rooms[code].pc, caller}, ConnectionEstablished)]
  {
    ConsistentGroupsAreRooms(s, code);
    assert s.rooms[code].Members() == {s.rooms[code].pc};
    var t := JoinRoom(s, caller, code);
    assert CorrectedStep(s, caller, Join(code)).out == t.out;
    assert GroupOf(t.state.groups, code) == {s.rooms[code].pc, caller};
  }

  lemma InitialStateConsistent()
    ensures Consistent(Empty())
  {
  }
}
