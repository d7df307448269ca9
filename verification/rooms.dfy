/**
 The room registry of the radio hub: a map from room code to ConnectionRoom,
 and the two searches the hub performs over it.
 */
module Rooms {
  import opened Decimal

  /** A SignalR connection identifier (`Context.ConnectionId`). */
  type ConnId = string

  /** A room code, which doubles as the SignalR group name of the room. */
  type Code = string

  datatype Option<+T> = None | Some(value: T)

  /**
   A ConnectionRoom. The PC slot is filled when the room is created and is
   never null afterwards. The phone slot stays empty until a join succeeds.
   */
  datatype Room = Room(pc: ConnId, phone: Option<ConnId>) {

    /** The lookup test used by SendMessageToPartner and OnDisconnectedAsync: c is the PC or the phone. */
    predicate Has(c: ConnId) {
      pc == c || phone == Some(c)
    }

    function Members(): (m: set<ConnId>)
      ensures forall c :: c in m <==> Has(c)
    {
      {pc} + (if phone.Some? then {phone.value} else {})
    }
  }

  /** The process-wide `_rooms` dictionary. */
  type Registry = map<Code, Room>

  /** The room under code k exists and has c as a member. */
  predicate Belongs(rooms: Registry, k: Code, c: ConnId) {
    k in rooms && rooms[k].Has(c)
  }

  ghost predicate InSomeRoom(rooms: Registry, c: ConnId) {
    exists k :: Belongs(rooms, k, c)
  }

  /** No connection is a member of two different rooms. */
  ghost predicate UniqueMembership(rooms: Registry) {
    forall k1, k2, c :: Belongs(rooms, k1, c) && Belongs(rooms, k2, c) ==> k1 == k2
  }

  /**
   `order` is an order in which the dictionary enumerates its entries: it lists
   every key, and only keys. The order itself is the dictionary's business.
   */
  predicate Enumerates(order: seq<Code>, rooms: Registry) {
    && (forall k :: k in rooms ==> k in order)
    && (forall i :: 0 <= i < |order| ==> order[i] in rooms)
  }

  /** Index of the first entry of order[from..] whose room has c as a member, or |order|. */
  function FirstMatch(rooms: Registry, order: seq<Code>, c: ConnId, from: nat): (i: nat)
    requires from <= |order|
    ensures from <= i <= |order|
    ensures i < |order| ==> Belongs(rooms, order[i], c)
    ensures forall j :: from <= j < i ==> !Belongs(rooms, order[j], c)
    decreases |order| - from
  {
    if from == |order| then from
    else if Belongs(rooms, order[from], c) then from
    else FirstMatch(rooms, order, c, from + 1)
  }

  /**
   The room lookup of SendMessageToPartner and OnDisconnectedAsync: the key of
   the first enumerated room whose PC or phone is c, or null.
   */
  function FindRoom(rooms: Registry, order: seq<Code>, c: ConnId): (r: Option<Code>)
    requires Enumerates(order, rooms)
    ensures r.Some? ==> Belongs(rooms, r.value, c)
    ensures r.None? <==> !InSomeRoom(rooms, c)
    ensures UniqueMembership(rooms) ==> forall k :: Belongs(rooms, k, c) ==> r == Some(k)
  {
    var i := FirstMatch(rooms, order, c, 0);
    if i < |order| then Some(order[i])
    else
      assert forall k :: Belongs(rooms, k, c) ==> k in order;
      None
  }

  /** The draws fit the range `Random.Next(MinCode, CodeBound)` returns. */
  predicate ValidDraws(draws: seq<nat>) {
    forall i :: 0 <= i < |draws| ==> MinCode <= draws[i] < CodeBound
  }

  /** Some draw renders as a code that is not yet a key, so the retry loop stops. */
  ghost predicate HasFreshDraw(rooms: Registry, draws: seq<nat>) {
    exists i :: 0 <= i < |draws| && Digits(draws[i]) !in rooms
  }

  /** Index of the first draw in draws[from..] whose code `TryAdd` would accept, or |draws|. */
  function FirstFree(rooms: Registry, draws: seq<nat>, from: nat): (i: nat)
    requires from <= |draws|
    ensures from <= i <= |draws|
    ensures i < |draws| ==> Digits(draws[i]) !in rooms
    ensures forall j :: from <= j < i ==> Digits(draws[j]) in rooms
    decreases |draws| - from
  {
    if from == |draws| then from
    else if Digits(draws[from]) !in rooms then from
    else FirstFree(rooms, draws, from + 1)
  }

  /**
   The code the do/while loop of CreateRoom settles on: the first draw whose
   rendering is not yet a key. Earlier draws all collided with live rooms.
   */
  function NewCode(rooms: Registry, draws: seq<nat>): (code: Code)
    requires ValidDraws(draws) && HasFreshDraw(rooms, draws)
    ensures code !in rooms
    ensures IsRoomCode(code) && |code| == CodeLength
    ensures exists i :: 0 <= i < |draws| && code == Digits(draws[i])
                        && forall j :: 0 <= j < i ==> Digits(draws[j]) in rooms
  {
    var i := FirstFree(rooms, draws, 0);
    DrawIsRoomCode(draws[i]);
    Digits(draws[i])
  }
}
