/** The room directory (the `rooms` dict of main.py) and the request handlers built on it.
    Every handler looks the room up first and fails with NotFound when it is unknown. */
module Directory {

  import opened Wrappers
  import opened Roles
  import opened Rooms
  import Membership
  import Rounds
  import Scoring
  import Views

  /** All rooms by id, and the next unused id (standing for uuid4). */
  datatype Server = Server(rooms: map<RoomId, Room>, nextId: nat)

  function EmptyServer(): (s: Server)
    ensures s.rooms == map[]
  {
    Server(map[], 0)
  }

  /** Rooms have their own id as key, every id in use is below `nextId`, each room keeps
      the room invariant, and no player id is shared between two rooms. */
  ghost predicate Valid(s: Server)
  {
    && (forall rid | rid in s.rooms ::
          && s.rooms[rid].id == rid && rid < s.nextId
          && RoomInv(s.rooms[rid])
          && Membership.IdsBelow(s.rooms[rid], s.nextId))
    && (forall a, b | a in s.rooms && b in s.rooms && a != b :: Ids(s.rooms[a]) !! Ids(s.rooms[b]))
  }

  function Lookup(s: Server, rid: RoomId): (r: Result<Room, Error>)
    ensures r.Ok? <==> rid in s.rooms
    ensures r.Ok? ==> r.value == s.rooms[rid]
    ensures r.Err? ==> r.error == NotFound
  {
    if rid in s.rooms then Ok(s.rooms[rid]) else Err(NotFound)
  }

  datatype Created = Created(server: Server, roomId: RoomId, playerId: PlayerId)

  /** `create_room`: the host is made first, then the room around them; both get fresh ids. */
  function CreateRoom(s: Server, roomName: string, hostName: string): (c: Created)
    ensures c.roomId in c.server.rooms
    ensures c.server.rooms == s.rooms[c.roomId := c.server.rooms[c.roomId]]
    ensures c.server.nextId > c.roomId && c.server.nextId > c.playerId
    ensures c.server.rooms.Keys == s.rooms.Keys + {c.roomId}
    ensures c.server.rooms[c.roomId] == NewRoom(c.roomId, roomName, NewPlayer(c.playerId, hostName))
    ensures c.server.rooms[c.roomId].players == [NewPlayer(c.playerId, hostName)]
    ensures c.server.rooms[c.roomId].waitlist == []
    ensures c.roomId != c.playerId && c.roomId >= s.nextId && c.playerId >= s.nextId
  {
    var hostId := s.nextId;
    var rid := s.nextId + 1;
    var room := NewRoom(rid, roomName, NewPlayer(hostId, hostName));
    Created(Server(s.rooms[rid := room], s.nextId + 2), rid, hostId)
  }

  /** A new room gets an id no other room has, and a host id no other player has. */
  lemma CreateRoomFresh(s: Server, roomName: string, hostName: string)
    requires Valid(s)
    ensures var c := CreateRoom(s, roomName, hostName);
      && c.roomId !in s.rooms
      && forall rid | rid in s.rooms :: c.playerId !in Ids(s.rooms[rid])
  {
  }

  datatype JoinReport = JoinReport(added: seq<Views.Seat>, waitlisted: seq<Views.Seat>)

  function Listing(ps: seq<Player>): (r: seq<Views.Seat>)
    ensures |r| == |ps|
    ensures forall i :: 0 <= i < |ps| ==> r[i] == Views.Seat(ps[i].id, ps[i].name)
  {
    seq(|ps|, i requires 0 <= i < |ps| => Views.Seat(ps[i].id, ps[i].name))
  }

  /** `join_multiple_players`. */
  function JoinMultiple(s: Server, rid: RoomId, names: seq<string>): (r: Result<(Server, JoinReport), Error>)
    ensures r.Err? <==> rid !in s.rooms
    ensures r.Err? ==> r.error == NotFound
    ensures r.Ok? ==> r.value.0.nextId == s.nextId + |names| && r.value.0.rooms.Keys == s.rooms.Keys
    ensures r.Ok? ==> |r.value.1.added| + |r.value.1.waitlisted| == |names|
    ensures r.Ok? ==>
      var j := Membership.JoinAll(s.rooms[rid], names, s.nextId);
      && r.value.0.rooms == s.rooms[rid := j.room]
      && r.value.1 == JoinReport(Listing(j.added), Listing(j.waitlisted))
  {
    var room :- Lookup(s, rid);
    var j := Membership.JoinAll(room, names, s.nextId);
    Ok((Server(s.rooms[rid := j.room], s.nextId + |names|), JoinReport(Listing(j.added), Listing(j.waitlisted))))
  }

  /** `get_players`. */
  function GetPlayers(s: Server, rid: RoomId): (r: Result<Views.Roster, Error>)
    ensures r.Err? <==> rid !in s.rooms
    ensures r.Ok? ==> r.value == Views.GetPlayers(s.rooms[rid])
  {
    var room :- Lookup(s, rid);
    Ok(Views.GetPlayers(room))
  }

  /** `assign_roles`; on success, reports the number of the round just started. */
  function AssignRoles(s: Server, rid: RoomId, deal: Deal): (r: Result<(Server, nat), Error>)
    ensures rid !in s.rooms ==> r == Err(NotFound)
    ensures rid in s.rooms && |s.rooms[rid].players| != Rooms.Seats ==> r == Err(InvalidState)
    ensures r.Ok? <==> rid in s.rooms && |s.rooms[rid].players| == Rooms.Seats
    ensures r.Ok? ==> r.value.1 == s.rooms[rid].roundNumber + 1 && r.value.0.rooms.Keys == s.rooms.Keys
    ensures r.Ok? ==>
      && r.value.0.rooms == s.rooms[rid := Rounds.AssignRoles(s.rooms[rid], deal).value]
      && r.value.0.nextId == s.nextId
  {
    var room :- Lookup(s, rid);
    var room' :- Rounds.AssignRoles(room, deal);
    Ok((s.(rooms := s.rooms[rid := room']), room'.roundNumber))
  }

  /** `view_role`. */
  function ViewRole(s: Server, rid: RoomId, pid: PlayerId): (r: Result<Option<Role>, Error>)
    ensures r.Err? ==> r.error == NotFound
    ensures rid !in s.rooms ==> r.Err?
    ensures rid in s.rooms ==> r == Views.ViewRole(s.rooms[rid], pid)
    ensures r.Ok? <==> rid in s.rooms && exists i :: 0 <= i < |s.rooms[rid].players| && s.rooms[rid].players[i].id == pid
  {
    var room :- Lookup(s, rid);
    Views.ViewRole(room, pid)
  }

  /** `submit_guess`. */
  function SubmitGuess(s: Server, rid: RoomId, caller: PlayerId, guessed: PlayerId): (r: Result<(Server, Scoring.Verdict), Error>)
    ensures rid !in s.rooms ==> r == Err(NotFound)
    ensures rid in s.rooms && s.rooms[rid].mantriId != Some(caller) ==> r == Err(Forbidden)
    ensures r.Ok? <==> rid in s.rooms && s.rooms[rid].mantriId == Some(caller)
    ensures r.Ok? ==> r.value.0.rooms.Keys == s.rooms.Keys && r.value.0.nextId == s.nextId
    ensures r.Ok? ==>
      var g := Scoring.SubmitGuess(s.rooms[rid], caller, guessed).value;
      && r.value.0.rooms == s.rooms[rid := g.room]
      && r.value.1 == g.verdict
  {
    var room :- Lookup(s, rid);
    var g :- Scoring.SubmitGuess(room, caller, guessed);
    Ok((s.(rooms := s.rooms[rid := g.room]), g.verdict))
  }

  /** `result`. */
  function GetResult(s: Server, rid: RoomId): (r: Result<Views.Outcome, Error>)
    ensures rid !in s.rooms ==> r == Err(NotFound)
    ensures rid in s.rooms ==> r == Views.GetResult(s.rooms[rid])
  {
    var room :- Lookup(s, rid);
    Views.GetResult(room)
  }

  /** `leaderboard`. */
  function Leaderboard(s: Server, rid: RoomId): (r: Result<seq<Views.Standing>, Error>)
    ensures r.Err? <==> rid !in s.rooms
    ensures r.Ok? ==> |r.value| == |s.rooms[rid].players|
    ensures r.Ok? ==> r.value == Views.Leaderboard(s.rooms[rid])
    ensures r.Ok? ==> forall p | p in s.rooms[rid].players :: Views.StandingOf(p) in r.value
  {
    var room :- Lookup(s, rid);
    Views.LeaderboardLists(room);
    Ok(Views.Leaderboard(room))
  }

  /** The requests that change the directory. */
  datatype Request =
    | Create(roomName: string, hostName: string)
    | Join(roomId: RoomId, names: seq<string>)
    | Assign(roomId: RoomId, deal: Deal)
    | Guess(roomId: RoomId, caller: PlayerId, guessed: PlayerId)

  /** The directory after serving one request; a failed request changes nothing. */
  function Apply(s: Server, req: Request): Server
  {
    match req
    case Create(n, h) => CreateRoom(s, n, h).server
    case Join(rid, names) =>
      (match JoinMultiple(s, rid, names) case Ok(v) => v.0 case Err(_) => s)
    case Assign(rid, deal) =>
      (match AssignRoles(s, rid, deal) case Ok(v) => v.0 case Err(_) => s)
    case Guess(rid, caller, guessed) =>
      (match SubmitGuess(s, rid, caller, guessed) case Ok(v) => v.0 case Err(_) => s)
  }

  function Run(s: Server, reqs: seq<Request>): Server
    decreases |reqs|
  {
    if |reqs| == 0 then s else Run(Apply(s, reqs[0]), reqs[1..])
  }

  /** Every id of a room with the same ids as one below `bound` is below `bound`. */
  lemma SameIdsBelow(r: Room, r0: Room, bound: nat)
    requires Ids(r) == Ids(r0) && Membership.IdsBelow(r0, bound)
    ensures Membership.IdsBelow(r, bound)
  {
    forall p | p in r.players + r.waitlist ensures p.id < bound {
      assert p.id in Ids(r0);
      var q :| q in r0.players + r0.waitlist && q.id == p.id;
    }
  }

  /** Replacing a room by one with the same id and player ids that keeps the room
      invariant keeps the directory valid. */
  lemma ReplaceRoomValid(s: Server, rid: RoomId, r: Room)
    requires Valid(s) && rid in s.rooms
    requires r.id == rid && RoomInv(r) && Ids(r) == Ids(s.rooms[rid])
    ensures Valid(s.(rooms := s.rooms[rid := r]))
  {
    SameIdsBelow(r, s.rooms[rid], s.nextId);
  }

  lemma CreateRoomValid(s: Server, roomName: string, hostName: string)
    requires Valid(s)
    ensures Valid(CreateRoom(s, roomName, hostName).server)
  {
    var c := CreateRoom(s, roomName, hostName);
    var room := c.server.rooms[c.roomId];
    assert Ids(room) == {c.playerId};
    forall rid | rid in s.rooms ensures c.playerId !in Ids(s.rooms[rid]) {
      CreateRoomFresh(s, roomName, hostName);
    }
  }

  /** Growing one room by ids not in use before keeps the directory valid. */
  lemma GrowRoomValid(s: Server, rid: RoomId, r: Room, added: set<PlayerId>, n: nat)
    requires Valid(s) && rid in s.rooms
    requires r.id == rid && RoomInv(r) && Membership.IdsBelow(r, s.nextId + n)
    requires Ids(r) == Ids(s.rooms[rid]) + added
    requires forall x | x in added :: x >= s.nextId
    ensures Valid(Server(s.rooms[rid := r], s.nextId + n))
  {
  }

  lemma JoinMultipleValid(s: Server, rid: RoomId, names: seq<string>)
    requires Valid(s)
    requires JoinMultiple(s, rid, names).Ok?
    ensures Valid(JoinMultiple(s, rid, names).value.0)
  {
    var room := s.rooms[rid];
    var j := Membership.JoinAll(room, names, s.nextId);
    Membership.JoinAllInv(room, names, s.nextId);
    Membership.JoinAllRoom(room, names, s.nextId);
    assert j.room.id == rid;
    var newcomers := Membership.Fresh(names, s.nextId);
    Membership.FreshIds(names, s.nextId);
    forall x | x in IdsOf(newcomers) ensures x >= s.nextId {
      var p :| p in newcomers && p.id == x;
    }
    GrowRoomValid(s, rid, j.room, IdsOf(newcomers), |names|);
  }

  lemma AssignRolesValid(s: Server, rid: RoomId, deal: Deal)
    requires Valid(s)
    requires AssignRoles(s, rid, deal).Ok?
    ensures Valid(AssignRoles(s, rid, deal).value.0)
  {
    var room := s.rooms[rid];
    Rounds.AssignRolesInv(room, deal);
    ReplaceRoomValid(s, rid, Rounds.AssignRoles(room, deal).value);
  }

  lemma SubmitGuessValid(s: Server, rid: RoomId, caller: PlayerId, guessed: PlayerId)
    requires Valid(s)
    requires SubmitGuess(s, rid, caller, guessed).Ok?
    ensures Valid(SubmitGuess(s, rid, caller, guessed).value.0)
  {
    var room := s.rooms[rid];
    Scoring.GuessInv(room, caller, guessed);
    ReplaceRoomValid(s, rid, Scoring.SubmitGuess(room, caller, guessed).value.room);
  }

  /** Serving any request keeps the directory valid. */
  lemma ApplyValid(s: Server, req: Request)
    requires Valid(s)
    ensures Valid(Apply(s, req))
  {
    match req
    case Create(n, h) => CreateRoomValid(s, n, h);
    case Join(rid, names) =>
      if JoinMultiple(s, rid, names).Ok? { JoinMultipleValid(s, rid, names); }
    case Assign(rid, deal) =>
      if AssignRoles(s, rid, deal).Ok? { AssignRolesValid(s, rid, deal); }
    case Guess(rid, caller, guessed) =>
      if SubmitGuess(s, rid, caller, guessed).Ok? { SubmitGuessValid(s, rid, caller, guessed); }
  }

  /** Every directory reachable from the empty one by any sequence of requests is valid:
      at most four seated players per room, unique ids, roles dealt once each, and so on. */
  lemma {:induction false} RunValid(s: Server, reqs: seq<Request>)
    requires Valid(s)
    ensures Valid(Run(s, reqs))
    decreases |reqs|
  {
    if |reqs| > 0 {
      ApplyValid(s, reqs[0]);
      RunValid(Apply(s, reqs[0]), reqs[1..]);
    }
  }

  lemma ReachableValid(reqs: seq<Request>)
    ensures Valid(Run(EmptyServer(), reqs))
    ensures forall rid | rid in Run(EmptyServer(), reqs).rooms :: |Run(EmptyServer(), reqs).rooms[rid].players| <= Rooms.Seats
  {
    RunValid(EmptyServer(), reqs);
  }

  /** What serving a request never takes back, for a room that existed before it. */
  ghost predicate Grows(r: Room, r': Room)
  {
    && r'.id == r.id
    && r'.roundNumber >= r.roundNumber
    && |r'.players| >= |r.players|
    && |r'.waitlist| >= |r.waitlist|
    && forall i :: 0 <= i < |r.players| ==>
         r'.players[i].id == r.players[i].id && r'.players[i].score >= r.players[i].score
  }

  /** Replacing one room by a grown copy keeps every room grown. */
  lemma ReplaceGrows(s: Server, rid: RoomId, r: Room, next: nat)
    requires rid in s.rooms && Grows(s.rooms[rid], r)
    ensures forall a | a in s.rooms ::
      a in Server(s.rooms[rid := r], next).rooms && Grows(s.rooms[a], Server(s.rooms[rid := r], next).rooms[a])
  {
  }

  /** No request removes a room, unseats a player, lowers a score or turns back a round. */
  lemma ApplyGrows(s: Server, req: Request)
    requires Valid(s)
    ensures Apply(s, req).nextId >= s.nextId
    ensures forall rid | rid in s.rooms :: rid in Apply(s, req).rooms && Grows(s.rooms[rid], Apply(s, req).rooms[rid])
  {
    match req
    case Create(n, h) =>
      assert CreateRoom(s, n, h).roomId !in s.rooms;
    case Join(rid, names) =>
      if rid in s.rooms {
        var j := Membership.JoinAll(s.rooms[rid], names, s.nextId);
        Membership.JoinAllRoom(s.rooms[rid], names, s.nextId);
        assert Grows(s.rooms[rid], j.room);
        ReplaceGrows(s, rid, j.room, s.nextId + |names|);
      }
    case Assign(rid, deal) =>
      if AssignRoles(s, rid, deal).Ok? {
        var r := Rounds.AssignRoles(s.rooms[rid], deal).value;
        Rounds.AssignRolesDeals(s.rooms[rid], deal);
        assert Grows(s.rooms[rid], r);
        ReplaceGrows(s, rid, r, s.nextId);
      }
    case Guess(rid, caller, guessed) =>
      if SubmitGuess(s, rid, caller, guessed).Ok? {
        var r := Scoring.SubmitGuess(s.rooms[rid], caller, guessed).value.room;
        Scoring.GuessPays(s.rooms[rid], caller, guessed);
        assert Grows(s.rooms[rid], r);
        ReplaceGrows(s, rid, r, s.nextId);
      }
  }

  /** A request that fails leaves the whole directory as it was: in particular a deal
      attempted without exactly four seated players changes nothing. */
  lemma RefusedDealUnchanged(s: Server, rid: RoomId, deal: Deal)
    requires rid !in s.rooms || |s.rooms[rid].players| != Rooms.Seats
    ensures Apply(s, Assign(rid, deal)) == s
    ensures AssignRoles(s, rid, deal).Err?
  {
  }

  /** A guess by anyone but the recorded Mantri changes nothing. */
  lemma RefusedGuessUnchanged(s: Server, rid: RoomId, caller: PlayerId, guessed: PlayerId)
    requires rid in s.rooms && s.rooms[rid].mantriId != Some(caller)
    ensures Apply(s, Guess(rid, caller, guessed)) == s
    ensures SubmitGuess(s, rid, caller, guessed) == Err(Forbidden)
  {
  }
}
