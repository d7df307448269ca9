/**
 The four entry points of RadioHub as pure transitions.

 Each operation takes the hub state and the calling connection and returns
 the new state together with the outbound sends it issues, in order. A send
 is a record of its recipients and its message: `Clients.Caller` is the
 caller alone, `Clients.Group(g)` every connection in group g, and
 `Clients.OthersInGroup(g)` every connection in group g except the caller.
 SignalR groups are kept beside the registry because the hub adds
 connections to them but never removes anyone.
 */
module RadioHub {
  import opened Decimal
  import opened Rooms

  /** The client methods the hub invokes, with their arguments. */
  datatype Message =
    | RoomCreated(code: Code)
    | ConnectionEstablished
    | Error
    | ReceiveMessage(payload: string)
    | PartnerDisconnected

  /** One `SendAsync` call: the message and the connections it is addressed to. */
  datatype Outbound = Outbound(to: set<ConnId>, message: Message)

  /** SignalR group membership, by group name. A missing name is an empty group. */
  type Groups = map<Code, set<ConnId>>

  datatype State = State(rooms: Registry, groups: Groups)

  datatype Transition = Transition(state: State, out: seq<Outbound>)

  /** The hub at process start: the static dictionary is empty and there are no groups. */
  function Empty(): State {
    State(map[], map[])
  }

  function GroupOf(groups: Groups, name: Code): set<ConnId> {
    if name in groups then groups[name] else {}
  }

  /** `Groups.AddToGroupAsync(c, name)`. */
  function AddToGroup(groups: Groups, name: Code, c: ConnId): (g: Groups)
    ensures GroupOf(g, name) == GroupOf(groups, name) + {c}
    ensures forall n :: n != name ==> GroupOf(g, n) == GroupOf(groups, n)
  {
    groups[name := GroupOf(groups, name) + {c}]
  }

  /** What SignalR does after OnDisconnectedAsync returns: the closed connection c leaves every group. */
  function LeaveAllGroups(groups: Groups, c: ConnId): (g: Groups)
    ensures forall n :: GroupOf(g, n) == GroupOf(groups, n) - {c}
  {
    map n | n in groups :: groups[n] - {c}
  }

  /**
   CreateRoom: retry random codes until `TryAdd` accepts one, put the caller
   in that group, and tell the caller alone the code.
   */
  function CreateRoom(s: State, caller: ConnId, draws: seq<nat>): (t: Transition)
    requires ValidDraws(draws) && HasFreshDraw(s.rooms, draws)
    ensures var code := NewCode(s.rooms, draws);
      && code !in s.rooms
      && t.state.rooms.Keys == s.rooms.Keys + {code}
      && t.state.rooms[code] == Room(caller, None)
      && (forall k :: k in s.rooms ==> t.state.rooms[k] == s.rooms[k])
      && GroupOf(t.state.groups, code) == GroupOf(s.groups, code) + {caller}
      && (forall n :: n != code ==> GroupOf(t.state.groups, n) == GroupOf(s.groups, n))
      && t.out == [Outbound({caller}, RoomCreated(code))]
  {
    var code := NewCode(s.rooms, draws);
    Transition(
      State(s.rooms[code := Room(caller, None)], AddToGroup(s.groups, code, caller)),
      [Outbound({caller}, RoomCreated(code))])
  }

  /** The join test: the code is a key and its phone slot is still null. */
  predicate CanJoin(rooms: Registry, code: Code) {
    code in rooms && rooms[code].phone.None?
  }

  /**
   JoinRoom: on success the caller takes the phone slot, joins the group, and
   the whole group hears ConnectionEstablished; otherwise only the caller hears
   Error and nothing changes.
   */
  function JoinRoom(s: State, caller: ConnId, code: Code): (t: Transition)
    ensures |t.out| == 1
    ensures t.out[0].message == ConnectionEstablished <==> code in s.rooms && s.rooms[code].phone == None
    ensures t.out[0].message != ConnectionEstablished ==>
      t.state == s && t.out[0] == Outbound({caller}, Error)
    ensures t.out[0].message == ConnectionEstablished ==>
      && t.state.rooms.Keys == s.rooms.Keys
      && t.state.rooms[code] == Room(s.rooms[code].pc, Some(caller))
      && (forall k :: k in s.rooms && k != code ==> t.state.rooms[k] == s.rooms[k])
      && GroupOf(t.state.groups, code) == GroupOf(s.groups, code) + {caller}
      && (forall n :: n != code ==> GroupOf(t.state.groups, n) == GroupOf(s.groups, n))
      && t.out[0].to == GroupOf(t.state.groups, code)
  {
    if CanJoin(s.rooms, code) then
      var room := s.rooms[code].(phone := Some(caller));
      var groups := AddToGroup(s.groups, code, caller);
      Transition(State(s.rooms[code := room], groups),
                 [Outbound(GroupOf(groups, code), ConnectionEstablished)])
    else
      Transition(s, [Outbound({caller}, Error)])
  }

  /**
   SendMessageToPartner: find a room the caller belongs to and forward the
   payload, unchanged, to the rest of that room's group; with no room, do
   nothing.
   */
  function SendMessageToPartner(s: State, caller: ConnId, message: string, order: seq<Code>): (t: Transition)
    requires Enumerates(order, s.rooms)
    ensures t.state == s
    ensures !InSomeRoom(s.rooms, caller) ==> t.out == []
    ensures InSomeRoom(s.rooms, caller) ==>
      exists k :: Belongs(s.rooms, k, caller)
        && t.out == [Outbound(GroupOf(s.groups, k) - {caller}, ReceiveMessage(message))]
  {
    match FindRoom(s.rooms, order, caller)
    case None => Transition(s, [])
    case Some(k) => Transition(s, [Outbound(GroupOf(s.groups, k) - {caller}, ReceiveMessage(message))])
  }

  /**
   OnDisconnectedAsync: find a room the caller belongs to, tell the rest of
   its group PartnerDisconnected and remove that room, paired or not. After
   the handler returns, SignalR drops the caller from every group; nobody
   else leaves one.
   */
  function OnDisconnected(s: State, caller: ConnId, order: seq<Code>): (t: Transition)
    requires Enumerates(order, s.rooms)
    ensures forall n :: GroupOf(t.state.groups, n) == GroupOf(s.groups, n) - {caller}
    ensures !InSomeRoom(s.rooms, caller) ==> t.state.rooms == s.rooms && t.out == []
    ensures InSomeRoom(s.rooms, caller) ==>
      exists k :: Belongs(s.rooms, k, caller)
        && t.state.rooms.Keys == s.rooms.Keys - {k}
        && (forall k' :: k' in t.state.rooms ==> t.state.rooms[k'] == s.rooms[k'])
        && t.out == [Outbound(GroupOf(s.groups, k) - {caller}, PartnerDisconnected)]
    ensures UniqueMembership(s.rooms) ==> !InSomeRoom(t.state.rooms, caller)
  {
    var groups := LeaveAllGroups(s.groups, caller);
    match FindRoom(s.rooms, order, caller)
    case None => Transition(State(s.rooms, groups), [])
    case Some(k) =>
      assert UniqueMembership(s.rooms) ==>
        forall k' :: Belongs(s.rooms - {k}, k', caller) ==> Belongs(s.rooms, k', caller) && k' != k;
      Transition(State(s.rooms - {k}, groups),
                 [Outbound(GroupOf(s.groups, k) - {caller}, PartnerDisconnected)])
  }
}
