# Radio relay hub: a Dafny model

This project models the SignalR hub `RadioHub` of the Tatehama train-radio relay server. A PC calls
`CreateRoom` and receives a six-digit room code. A phone calls `JoinRoom(code)` to take the room's
second slot. After that, `SendMessageToPartner` relays opaque strings between the two, and a disconnect
from either side tears the room down.

The hub's process-wide `ConcurrentDictionary<string, ConnectionRoom>` is an immutable
`map<Code, Room>` (`Rooms.Registry`). `Room(pc, phone)` holds the PC connection, which is always set,
and an optional phone connection. SignalR group membership is a second map from group name (the room
code) to a set of connections. The group map matters because the hub adds connections to groups and
never removes them. Every hub entry point is a pure function `(state, caller, arguments) -> (state',
outbound sends)`. An outbound send records its message (`RoomCreated(code)`, `ConnectionEstablished`,
`Error`, `ReceiveMessage(payload)`, `PartnerDisconnected`) and the set of connections it is addressed
to. `Clients.Caller` is `{caller}`. `Clients.Group(g)` is group g. `Clients.OthersInGroup(g)` is group
g without the caller.

The two sources of nondeterminism are parameters:

- **Draws.** The draws of `new Random().Next(100000, 999999)` are a sequence of integers in
  [100000, 999999). The retry loop takes the first draw whose decimal rendering is not a key yet.
- **Enumeration order.** The order in which `FirstOrDefault` enumerates the dictionary is a sequence
  that lists exactly the registry's keys.

Modules:

- `Decimal` (decimal.dfy): `int.ToString()` for non-negative values, its inverse, and the set of
  strings CreateRoom can issue.
- `Rooms` (rooms.dfy): rooms, the registry, the "which room is this connection in" scan, and code
  selection.
- `RadioHub` (hub.dfy): the four entry points.
- `Machine` (machine.dfy): one `Step` function over requests, plus the lifecycle and the invariants
  every step keeps or breaks.
- `Teardown` (teardown.dfy): what happens to group membership when a room is removed, as written and
  corrected.
- `Scenario` (scenario.dfy): the create, join, relay and disconnect walk-through, and a join with an
  unknown code.

Behaviour of the code worth stating:

- **Code range.** The codes run from 100000 to 999998. The upper bound of `Random.Next` is exclusive,
  so 999999 is never issued.
- **Join errors.** A rejected join sends a single `Error` to the caller. It does not say whether the
  code was unknown or the room was full.
- **Membership.** Nothing in the code keeps a connection in at most one room. A PC may create several
  rooms, may join another room as its phone, and may join its own room. A disconnect then removes
  only the first room found, and the connection's other rooms live on with the closed connection as
  a member.

## Model

| member | source | states |
|---|---|---|
| Decimal.Digits | Hubs/RadioHub.cs:27 | The rendering of a drawn number is a non-empty string of decimal digits, with a leading '0' exactly when the number is 0 |
| Decimal.Parse | Hubs/RadioHub.cs:27 | The value of a numeral of length n is below 10^n |
| Decimal.ParseDigits | Hubs/RadioHub.cs:27 | Reading back the rendering of n gives n |
| Decimal.DigitsParse | Hubs/RadioHub.cs:27 | Rendering the value of a numeral without a leading zero gives the numeral back |
| Decimal.DigitsInjective | Hubs/RadioHub.cs:27 | Distinct draws render as distinct room codes |
| Decimal.ParseLeadingDigit | Hubs/RadioHub.cs:27 | A numeral whose first digit is not zero is worth at least 10^(length-1) |
| Decimal.DigitsLength | Hubs/RadioHub.cs:27 | A k-digit number renders as exactly k characters |
| Decimal.DrawIsRoomCode | Hubs/RadioHub.cs:27 | Every value Random.Next(100000, 999999) can return renders as a six-character room code that reads back as that value |
| Decimal.RoomCodeShape | Hubs/RadioHub.cs:27 | The issuable codes are exactly the six-digit numerals with a non-zero first digit and a value below 999999 (both directions) |
| Rooms.FirstMatch | Hubs/RadioHub.cs:63 | The index of the first enumerated entry whose room has the connection as PC or phone; no earlier entry has it |
| Rooms.FindRoom | Hubs/RadioHub.cs:63 | The FirstOrDefault lookup returns a room the connection belongs to, returns null exactly when no room has it, and returns the only such room when membership is unique |
| Rooms.FirstFree | Hubs/RadioHub.cs:24-28 | The retry loop stops at the first draw whose code is not a key; every earlier draw collided |
| Rooms.NewCode | Hubs/RadioHub.cs:24-28 | The chosen code was absent from the registry, is a six-character room code, and is the first free draw |
| RadioHub.AddToGroup | Hubs/RadioHub.cs:31 | AddToGroupAsync adds the connection to the named group and leaves every other group alone |
| RadioHub.LeaveAllGroups | Hubs/RadioHub.cs:84 | After OnDisconnectedAsync returns, SignalR removes the closed connection from every group, and nobody else leaves one |
| RadioHub.CreateRoom | Hubs/RadioHub.cs:21-36 | A previously absent code is inserted with the caller as PC and no phone. Every existing room is unchanged. The caller joins that group, and exactly one RoomCreated(code) goes to the caller alone |
| RadioHub.JoinRoom | Hubs/RadioHub.cs:39-56 | The join succeeds iff the code is present with an empty phone slot. On success only that room's phone changes, to the caller, and ConnectionEstablished goes to the whole group including the caller. On failure the state is untouched and one Error goes to the caller alone |
| RadioHub.SendMessageToPartner | Hubs/RadioHub.cs:59-70 | The registry and groups never change. With no room, nothing is sent. Otherwise ReceiveMessage with the payload unchanged goes to the caller's room group minus the caller |
| RadioHub.OnDisconnected | Hubs/RadioHub.cs:73-85 | With no room, the registry is unchanged and nothing is sent. Otherwise PartnerDisconnected goes to the rest of one of the caller's rooms' group, and exactly that room is removed, paired or not. Under unique membership the caller is then in no room |
| Machine.Step | Hubs/RadioHub.cs:21-85 | Every request keeps the room lifecycle (PC fixed, a phone filled at most once and only with the caller, new rooms hold the caller alone) and touches at most one registry entry |
| Machine.StepAddressing | Hubs/RadioHub.cs:34-79 | RoomCreated and Error only ever go to the caller; ReceiveMessage and PartnerDisconnected never go back to the caller |
| Machine.RelayIsTransparent | Hubs/RadioHub.cs:68 | A relay emits at most one send, and it carries ReceiveMessage of the unchanged payload |
| Machine.StepKeepsRoomCodes | Hubs/RadioHub.cs:24-28 | Every registry key stays a code CreateRoom can issue |
| Machine.RoomCodesAreSixDigits | Hubs/RadioHub.cs:27 | Every live code is six digits with a non-zero first digit, and its value is in [100000, 999998] |
| Machine.StepKeepsUniqueMembership | Hubs/RadioHub.cs:24-81 | Membership in at most one room survives relays and disconnects always, and survives creates and joins by connections that are in no room |
| Machine.CreateByMemberBreaksUniqueMembership | Hubs/RadioHub.cs:24-28 | A connection that already has a room and calls CreateRoom ends up in two rooms |
| Machine.DisconnectOfDoubleMemberLeavesRoom | Hubs/RadioHub.cs:75-81 | A connection in two rooms that disconnects loses exactly one room; at least one of the two stays, with the closed connection still a member |
| Machine.JoinByMemberBreaksUniqueMembership | Hubs/RadioHub.cs:41-44 | A member of one room that joins another room ends up in two rooms |
| Machine.PcCanJoinOwnRoom | Hubs/RadioHub.cs:41-44 | A PC joining its own empty room succeeds and occupies both slots |
| Machine.SecondJoinRejected | Hubs/RadioHub.cs:41-55 | Of two joins to one empty room the first succeeds, and the second, by anyone including the winner, gets Error and changes nothing |
| Machine.JoinNotifiesBothMembers | Hubs/RadioHub.cs:45-48 | When every room member is in its group, a successful join notifies both the PC and the new phone |
| Machine.StepKeepsGroupsCover | Hubs/RadioHub.cs:28-81 | Under unique membership, every member of a live room stays in that room's group |
| Machine.RelayReachesPartner | Hubs/RadioHub.cs:63-68 | In a paired room, a message from either member reaches the other and is not echoed to the sender |
| Machine.RelayWithoutRoomIsDropped | Hubs/RadioHub.cs:63-69 | A relay from a connection in no room changes nothing and sends nothing |
| Machine.DisconnectTearsDown | Hubs/RadioHub.cs:75-81 | When a paired member disconnects, its partner hears one PartnerDisconnected, the room is gone, and neither side is in any room |
| Machine.ClosedCodeCanBeReissued | Hubs/RadioHub.cs:24-81 | A room whose PC disconnects before any phone joined is removed, and a later CreateRoom can issue its code again |
| Teardown.DisconnectLeavesPartnerInGroup | Hubs/RadioHub.cs:76-81 | As written, tearing down a paired room leaves the partner in the removed code's group |
| Teardown.ReissueKeepsStaleMember | Hubs/RadioHub.cs:24-31 | A stale group member of a free code is in the group of the room next created under that code |
| Teardown.JoinReachesGroup | Hubs/RadioHub.cs:45-48 | ConnectionEstablished reaches every connection in the group, member of the room or not |
| Teardown.RelayReachesGroup | Hubs/RadioHub.cs:63-68 | A relay reaches every connection in the sender's room group except the sender |
| Teardown.ReissuedCodeReachesStaleMember | Hubs/RadioHub.cs:76-81 | As written, a stale member hears the reissued room's ConnectionEstablished and the new PC's messages without being in that room |
| Teardown.CloseRoom | Hubs/RadioHub.cs:73-85 | The corrected teardown sends and removes what OnDisconnected does, and also empties the removed room's group |
| Teardown.CorrectedStep | Hubs/RadioHub.cs:21-85 | The corrected hub emits the same sends and keeps the same registry as the hub as written |
| Teardown.CorrectedStepKeepsNoStaleMembers | Hubs/RadioHub.cs:31-81 | With the corrected teardown, every connection in a group is a member of that code's live room |
| Teardown.CorrectedStepKeepsGroupsCover | Hubs/RadioHub.cs:31-81 | With the corrected teardown, under unique membership, every room member stays in its group |
| Teardown.CorrectedRelayConfined | Hubs/RadioHub.cs:63-68 | Without stale members, a relay reaches only members of a room the sender is in, never the sender |
| Teardown.ConsistentGroupsAreRooms | Hubs/RadioHub.cs:31-45 | In a consistent hub, each group is exactly the members of the room with that code |
| Teardown.CorrectedStepKeepsConsistent | Hubs/RadioHub.cs:21-85 | The corrected hub keeps valid codes, unique membership, and groups equal to rooms, for clients that create or join only while in no room |
| Teardown.CorrectedJoinNotifiesExactlyTheRoom | Hubs/RadioHub.cs:45-48 | In a consistent corrected hub, a successful join notifies exactly the PC and the new phone |
| Teardown.InitialStateConsistent | Hubs/RadioHub.cs:18 | The empty registry with no groups is consistent |
| Scenario.UnknownCodeRejected | Hubs/RadioHub.cs:51-55 | Joining an empty hub with any code changes nothing and sends one Error to the caller alone |
| Scenario.WalkthroughCreate | Hubs/RadioHub.cs:21-36 | Draw 482913 creates a room holding only the controller, and only the controller learns the code |
| Scenario.WalkthroughJoin | Hubs/RadioHub.cs:39-50 | The peer's join pairs the room and notifies exactly the controller and the peer |
| Scenario.WalkthroughRelay | Hubs/RadioHub.cs:59-70 | The controller's "hello" reaches only the peer, and nothing changes |
| Scenario.WalkthroughDisconnect | Hubs/RadioHub.cs:73-85 | The peer's disconnect notifies only the controller and empties the registry, but the controller stays in the code's group |

## Left out

- Program.cs (host bootstrap, CORS, HTTPS redirection, endpoint mapping, the health-check route) is framework configuration and is not part of this model.
- Concurrency: each operation is one atomic transition. The `ConcurrentDictionary` and the non-atomic check-then-set at Hubs/RadioHub.cs:41-44 are not modelled. With that race, two simultaneous joins could both succeed.
- The SignalR transport: a `SendAsync` is an outbound record, and delivery is not modelled. SignalR removes a closed connection from all its groups after OnDisconnectedAsync returns. That cleanup is modelled as `LeaveAllGroups`, applied after the PartnerDisconnected send. It is an assumption about SignalR rather than code of this repository.
- `System.Random`: its distribution is not modelled. Draws are a parameter, constrained only to the range `Random.Next` returns.
- RadioHub.CreateRoom: requires that some supplied draw is free. The source's loop retries forever when no free code ever comes up, and that non-termination is not modelled.
- The `FirstOrDefault` enumeration order of the dictionary is a parameter. Which room is found for a connection in several rooms depends on it.
- Console logging (Hubs/RadioHub.cs:35, :49, :82) and the text of the error message are left out. Only the fact that an `Error` is sent is kept.
- Null arguments are not modelled, because strings are never null here. A null room code makes `TryGetValue` throw, and a null message would be relayed as null.
- The `exception` argument of `OnDisconnectedAsync` is ignored by the source, and so by the model.

## Findings

| source | as written | input that shows it | evidently intended | confidence | as-written member | corrected member |
|---|---|---|---|---|---|---|
| Hubs/RadioHub.cs:76-81 | The room entry is removed, but the room's SignalR group keeps the surviving partner | PC and phone pair under code k. The PC disconnects, so the phone stays in group k. A later CreateRoom draws k again and another phone joins. The old phone then hears the new ConnectionEstablished and every message the new PC relays | Removing a room also empties its group, so a relay reaches only the members of the sender's room | not executed; medium (needs a code collision, and the old phone must stay connected) | Teardown.ReissuedCodeReachesStaleMember | Teardown.CloseRoom |
