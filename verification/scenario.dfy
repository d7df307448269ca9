/**
 Whole runs of the hub from an empty registry: the pairing walk-through of a
 controller and a peer, and a join with an unknown code.
 */
module Scenario {
  import opened Decimal
  import opened Rooms
  import opened RadioHub
  import opened Machine

  /** Joining with a code no room has leaves the hub empty and answers the caller alone with Error. */
  lemma UnknownCodeRejected(code: Code, caller: ConnId)
    ensures var s0 := Empty();
      Step(s0, caller, Join(code)) == Transition(s0, [Outbound({caller}, Error)])
  {
  }

  /** The code the walk-through draws. */
  const Drawn: nat := 482913

  function Created(controller: ConnId): State {
    State(map[Digits(Drawn) := Room(controller, None)], map[Digits(Drawn) := {controller}])
  }

  function Paired(controller: ConnId, peer: ConnId): State {
    State(map[Digits(Drawn) := Room(controller, Some(peer))], map[Digits(Drawn) := {controller, peer}])
  }

  /** Create with draw 482913: the room holds the controller alone, and only the controller learns the code. */
  lemma WalkthroughCreate(controller: ConnId)
    ensures Admissible(Empty(), Create([Drawn]))
    ensures Step(Empty(), controller, Create([Drawn])) ==
      Transition(Created(controller), [Outbound({controller}, RoomCreated(Digits(Drawn)))])
  {
    assert Digits([Drawn][0]) !in Empty().rooms;
    var code := NewCode(Empty().rooms, [Drawn]);
    assert code == Digits(Drawn);
    var t := CreateRoom(Empty(), controller, [Drawn]);
    assert t.state.rooms == map[code := Room(controller, None)];
    assert GroupOf(t.state.groups, code) == {controller};
    assert t.state.groups == map[code := {controller}];
  }

  /** The peer joins with that code: both sides hear ConnectionEstablished. */
  lemma WalkthroughJoin(controller: ConnId, peer: ConnId)
    ensures Step(Created(controller), peer, Join(Digits(Drawn))) ==
      Transition(Paired(controller, peer), [Outbound({controller, peer}, ConnectionEstablished)])
  {
    var code := Digits(Drawn);
    var t := JoinRoom(Created(controller), peer, code);
    assert t.state.rooms == map[code := Room(controller, Some(peer))];
    assert GroupOf(t.state.groups, code) == {controller, peer};
    assert t.state.groups == map[code := {controller, peer}];
  }

  /** The controller relays "hello": the peer alone receives it, and nothing changes. */
  lemma WalkthroughRelay(controller: ConnId, peer: ConnId)
    requires controller != peer
    ensures Enumerates([Digits(Drawn)], Paired(controller, peer).rooms)
    ensures Step(Paired(controller, peer), controller, Send("hello", [Digits(Drawn)])) ==
      Transition(Paired(controller, peer), [Outbound({peer}, ReceiveMessage("hello"))])
  {
    var s := Paired(controller, peer);
    assert FindRoom(s.rooms, [Digits(Drawn)], controller) == Some(Digits(Drawn));
    assert {controller, peer} - {controller} == {peer};
  }

  /**
   The peer disconnects: the controller alone hears PartnerDisconnected and
   the registry is empty, while the controller is still in the code's group.
   */
  lemma WalkthroughDisconnect(controller: ConnId, peer: ConnId)
    requires controller != peer
    ensures Enumerates([Digits(Drawn)], Paired(controller, peer).rooms)
    ensures Step(Paired(controller, peer), peer, Closed([Digits(Drawn)])) ==
      Transition(State(map[], map[Digits(Drawn) := {controller}]), [Outbound({controller}, PartnerDisconnected)])
  {
    var s := Paired(controller, peer);
    var code := Digits(Drawn);
    assert FindRoom(s.rooms, [code], peer) == Some(code);
    assert {controller, peer} - {peer} == {controller};
    assert s.rooms - {code} == map[];
  }
}
