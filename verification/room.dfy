/** Players and rooms (`Player`, `Room` in main.py) and the invariant every room keeps. */
module Rooms {

  import opened Wrappers
  import opened Roles

  /** Opaque identifiers; the source draws them from uuid4, the model from a fresh-id counter. */
  type PlayerId = nat
  type RoomId = nat

  /** The ways a request can fail. */
  datatype Error = NotFound | InvalidState | Forbidden

  datatype Player = Player(id: PlayerId, name: string, role: Option<Role>, score: int)

  datatype Room = Room(
    id: RoomId,
    name: string,
    players: seq<Player>,
    waitlist: seq<Player>,
    rolesAssigned: bool,
    mantriId: Option<PlayerId>,
    chorId: Option<PlayerId>,
    guessSubmitted: bool,
    guessedPlayerId: Option<PlayerId>,
    roundNumber: nat)

  /** The most players a room seats; everyone after them waits. */
  const Seats := 4

  /** A freshly joined player: no role yet and a score of zero. */
  function NewPlayer(id: PlayerId, name: string): Player
  {
    Player(id, name, None, 0)
  }

  /** A new room seats only its host, has an empty waitlist and no round yet. */
  function NewRoom(id: RoomId, name: string, host: Player): Room
  {
    Room(id, name, [host], [], false, None, None, false, None, 0)
  }

  predicate UniqueIds(ps: seq<Player>)
  {
    forall i, j :: 0 <= i < j < |ps| ==> ps[i].id != ps[j].id
  }

  /** Concatenation keeps ids unique exactly when both parts do and no id is shared. */
  lemma UniqueIdsAppend(s: seq<Player>, t: seq<Player>)
    ensures UniqueIds(s + t) <==>
      && UniqueIds(s) && UniqueIds(t)
      && forall a, b :: 0 <= a < |s| && 0 <= b < |t| ==> s[a].id != t[b].id
  {
    var st := s + t;
    if UniqueIds(s) && UniqueIds(t) && forall a, b :: 0 <= a < |s| && 0 <= b < |t| ==> s[a].id != t[b].id {
      forall i, j | 0 <= i < j < |st| ensures st[i].id != st[j].id {
        if j < |s| {
          assert st[i] == s[i] && st[j] == s[j];
        } else if i >= |s| {
          assert st[i] == t[i - |s|] && st[j] == t[j - |s|];
        } else {
          assert st[i] == s[i] && st[j] == t[j - |s|];
        }
      }
    }
    if UniqueIds(st) {
      forall a, b | 0 <= a < |s| && 0 <= b < |t| ensures s[a].id != t[b].id {
        assert st[a] == s[a] && st[|s| + b] == t[b];
      }
      forall a, b | 0 <= a < b < |s| ensures s[a].id != s[b].id {
        assert st[a] == s[a] && st[b] == s[b];
      }
      forall a, b | 0 <= a < b < |t| ensures t[a].id != t[b].id {
        assert st[|s| + a] == t[a] && st[|s| + b] == t[b];
      }
    }
  }

  /** The ids of everyone in the room, seated or waiting. */
  function Ids(r: Room): set<PlayerId>
  {
    IdsOf(r.players + r.waitlist)
  }

  function IdsOf(ps: seq<Player>): set<PlayerId>
  {
    set p | p in ps :: p.id
  }

  /** Seat `i` holds `role`. */
  predicate IsHolder(ps: seq<Player>, i: int, role: Role)
  {
    0 <= i < |ps| && ps[i].role == Some(role)
  }

  /** Exactly one seat holds `role`. */
  ghost predicate HeldOnce(ps: seq<Player>, role: Role)
  {
    exists i :: IsHolder(ps, i, role) && forall j :: IsHolder(ps, j, role) ==> j == i
  }

  /** Four seats, and each of the four roles held by exactly one of them. */
  ghost predicate EachRoleOnce(ps: seq<Player>)
  {
    && |ps| == Seats
    && forall role :: HeldOnce(ps, role)
  }

  /** The recorded ids are those of the seats holding `role`. */
  ghost predicate Records(ps: seq<Player>, role: Role, id: Option<PlayerId>)
  {
    forall i :: IsHolder(ps, i, role) ==> id == Some(ps[i].id)
  }

  /** What every room satisfies from creation on, whatever requests it served. */
  ghost predicate RoomInv(r: Room)
  {
    && 1 <= |r.players| <= Seats
    && UniqueIds(r.players + r.waitlist)
    && (forall p | p in r.waitlist :: p.role == None && p.score == 0)
    && (forall p | p in r.players :: p.score >= 0)
    && (r.rolesAssigned <==> r.roundNumber > 0)
    && (r.rolesAssigned ==>
          && EachRoleOnce(r.players)
          && Records(r.players, Mantri, r.mantriId)
          && Records(r.players, Chor, r.chorId))
    && (!r.rolesAssigned ==>
          && r.mantriId == None && r.chorId == None
          && !r.guessSubmitted && r.guessedPlayerId == None
          && forall p | p in r.players :: p.role == None)
    && (r.guessSubmitted ==> r.guessedPlayerId.Some?)
  }

  /** A new room keeps the invariant. */
  lemma NewRoomInv(id: RoomId, name: string, hostId: PlayerId, hostName: string)
    ensures RoomInv(NewRoom(id, name, NewPlayer(hostId, hostName)))
    ensures Ids(NewRoom(id, name, NewPlayer(hostId, hostName))) == {hostId}
  {
  }

  /** Under the invariant the Mantri and the Chor are recorded exactly when a round is
      dealt, and each recorded id is that of a seated player holding the role. */
  lemma RecordedHolders(r: Room)
    requires RoomInv(r)
    ensures r.mantriId.Some? <==> r.rolesAssigned
    ensures r.chorId.Some? <==> r.rolesAssigned
    ensures r.rolesAssigned ==>
      exists i :: IsHolder(r.players, i, Mantri) && r.mantriId == Some(r.players[i].id)
    ensures r.rolesAssigned ==>
      exists i :: IsHolder(r.players, i, Chor) && r.chorId == Some(r.players[i].id)
  {
    if r.rolesAssigned {
      assert HeldOnce(r.players, Mantri);
      assert HeldOnce(r.players, Chor);
    }
  }
}
