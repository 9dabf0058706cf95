/** Starting a round (`assign_roles`, main.py:149-172): deal the four roles to the four
    seated players and record who is Mantri and who is Chor. */
module Rounds {

  import opened Wrappers
  import opened Roles
  import opened Rooms

  /** The seats after dealing, with the recorded Mantri and Chor ids. */
  datatype Dealt = Dealt(players: seq<Player>, mantriId: Option<PlayerId>, chorId: Option<PlayerId>)

  /** Walks the seats and the deal side by side: each seat takes its role, and the
      seat taking Mantri (Chor) overwrites the recorded Mantri (Chor) id. */
  function DealRoles(ps: seq<Player>, deal: seq<Role>, mantri: Option<PlayerId>, chor: Option<PlayerId>): (d: Dealt)
    requires |ps| == |deal|
    ensures |d.players| == |ps|
    decreases |ps|
  {
    if |ps| == 0 then Dealt([], mantri, chor)
    else
      var p := ps[0].(role := Some(deal[0]));
      var m := if deal[0] == Mantri then Some(p.id) else mantri;
      var c := if deal[0] == Chor then Some(p.id) else chor;
      var rest := DealRoles(ps[1..], deal[1..], m, c);
      Dealt([p] + rest.players, rest.mantriId, rest.chorId)
  }

  /** Seat `i` keeps its player and gets the `i`-th role of the deal. */
  lemma {:induction false} DealRolesSeats(ps: seq<Player>, deal: seq<Role>, mantri: Option<PlayerId>, chor: Option<PlayerId>)
    requires |ps| == |deal|
    ensures forall i :: 0 <= i < |ps| ==>
      DealRoles(ps, deal, mantri, chor).players[i] == ps[i].(role := Some(deal[i]))
    decreases |ps|
  {
    if |ps| > 0 {
      var p := ps[0].(role := Some(deal[0]));
      var m := if deal[0] == Mantri then Some(p.id) else mantri;
      var c := if deal[0] == Chor then Some(p.id) else chor;
      DealRolesSeats(ps[1..], deal[1..], m, c);
    }
  }

  /** No later seat of the deal takes `role`. */
  predicate LastWith(deal: seq<Role>, i: int, role: Role)
  {
    0 <= i < |deal| && deal[i] == role && forall j :: i < j < |deal| ==> deal[j] != role
  }

  /** The recorded Mantri is the last seat dealt Mantri, or the previous value if none is. */
  lemma {:induction false} DealRolesMantri(ps: seq<Player>, deal: seq<Role>, mantri: Option<PlayerId>, chor: Option<PlayerId>)
    requires |ps| == |deal|
    ensures Mantri !in deal ==> DealRoles(ps, deal, mantri, chor).mantriId == mantri
    ensures forall i :: LastWith(deal, i, Mantri) ==> DealRoles(ps, deal, mantri, chor).mantriId == Some(ps[i].id)
    decreases |ps|
  {
    if |ps| > 0 {
      var p := ps[0].(role := Some(deal[0]));
      var m := if deal[0] == Mantri then Some(p.id) else mantri;
      var c := if deal[0] == Chor then Some(p.id) else chor;
      DealRolesMantri(ps[1..], deal[1..], m, c);
      forall i | LastWith(deal, i, Mantri) ensures DealRoles(ps, deal, mantri, chor).mantriId == Some(ps[i].id) {
        if i == 0 {
          assert Mantri !in deal[1..];
        } else {
          assert LastWith(deal[1..], i - 1, Mantri);
        }
      }
    }
  }

  /** The recorded Chor is the last seat dealt Chor, or the previous value if none is. */
  lemma {:induction false} DealRolesChor(ps: seq<Player>, deal: seq<Role>, mantri: Option<PlayerId>, chor: Option<PlayerId>)
    requires |ps| == |deal|
    ensures Chor !in deal ==> DealRoles(ps, deal, mantri, chor).chorId == chor
    ensures forall i :: LastWith(deal, i, Chor) ==> DealRoles(ps, deal, mantri, chor).chorId == Some(ps[i].id)
    decreases |ps|
  {
    if |ps| > 0 {
      var p := ps[0].(role := Some(deal[0]));
      var m := if deal[0] == Mantri then Some(p.id) else mantri;
      var c := if deal[0] == Chor then Some(p.id) else chor;
      DealRolesChor(ps[1..], deal[1..], m, c);
      forall i | LastWith(deal, i, Chor) ensures DealRoles(ps, deal, mantri, chor).chorId == Some(ps[i].id) {
        if i == 0 {
          assert Chor !in deal[1..];
        } else {
          assert LastWith(deal[1..], i - 1, Chor);
        }
      }
    }
  }

  /** `assign_roles`: exactly four seated players are required; then every seat is dealt
      its role, the Mantri and Chor are recorded, the round is marked dealt and unguessed,
      and the round counter advances. The previous guess is not cleared. */
  function AssignRoles(room: Room, deal: Deal): (r: Result<Room, Error>)
    ensures |room.players| != Seats <==> r == Err(InvalidState)
    ensures r.Ok? ==>
      && r.value.rolesAssigned && !r.value.guessSubmitted
      && r.value.roundNumber == room.roundNumber + 1
      && r.value.guessedPlayerId == room.guessedPlayerId
  {
    if |room.players| != Seats then Err(InvalidState)
    else
      var d := DealRoles(room.players, deal, room.mantriId, room.chorId);
      Ok(room.(
        players := d.players,
        mantriId := d.mantriId,
        chorId := d.chorId,
        rolesAssigned := true,
        guessSubmitted := false,
        roundNumber := room.roundNumber + 1))
  }

  /** A successful deal gives each role to exactly one of the four seated players, records
      the ids of the Mantri and the Chor, and keeps everyone's id, name and score: the
      room's membership and scores are untouched, only roles and round state change. */
  lemma AssignRolesDeals(room: Room, deal: Deal)
    requires |room.players| == Seats
    ensures AssignRoles(room, deal).Ok?
    ensures var r := AssignRoles(room, deal).value;
      && EachRoleOnce(r.players)
      && Records(r.players, Mantri, r.mantriId)
      && Records(r.players, Chor, r.chorId)
      && r.mantriId.Some? && r.chorId.Some?
      && (forall i :: 0 <= i < Seats ==> r.players[i].role == Some(deal[i]))
      && (forall i :: 0 <= i < Seats ==>
            r.players[i].(role := room.players[i].role) == room.players[i])
      && r.waitlist == room.waitlist && r.id == room.id && r.name == room.name
  {
    var r := AssignRoles(room, deal).value;
    DealRolesSeats(room.players, deal, room.mantriId, room.chorId);
    DealRolesMantri(room.players, deal, room.mantriId, room.chorId);
    DealRolesChor(room.players, deal, room.mantriId, room.chorId);
    DealCoversEveryRole(deal);
    forall role ensures HeldOnce(r.players, role) {
      assert role in deal;
      var i :| 0 <= i < |deal| && deal[i] == role;
      assert IsHolder(r.players, i, role);
      forall j | IsHolder(r.players, j, role) ensures j == i {
        assert deal[j] == role;
      }
    }
    forall i | IsHolder(r.players, i, Mantri) ensures r.mantriId == Some(r.players[i].id) {
      assert LastWith(deal, i, Mantri);
    }
    forall i | IsHolder(r.players, i, Chor) ensures r.chorId == Some(r.players[i].id) {
      assert LastWith(deal, i, Chor);
    }
    assert Mantri in deal && Chor in deal;
    var im :| 0 <= im < |deal| && deal[im] == Mantri;
    var ic :| 0 <= ic < |deal| && deal[ic] == Chor;
    assert IsHolder(r.players, im, Mantri) && IsHolder(r.players, ic, Chor);
  }

  /** A successful deal keeps the room invariant and the set of ids in the room. */
  lemma AssignRolesInv(room: Room, deal: Deal)
    requires RoomInv(room)
    ensures AssignRoles(room, deal).Ok? ==>
      RoomInv(AssignRoles(room, deal).value) && Ids(AssignRoles(room, deal).value) == Ids(room)
  {
    if |room.players| == Seats {
      var r := AssignRoles(room, deal).value;
      AssignRolesDeals(room, deal);
      assert forall i :: 0 <= i < |r.players + r.waitlist| ==>
        (r.players + r.waitlist)[i].id == (room.players + room.waitlist)[i].id;
      assert forall p | p in r.players :: p.score >= 0 by {
        forall p | p in r.players ensures p.score >= 0 {
          var i :| 0 <= i < |r.players| && r.players[i] == p;
          assert room.players[i] in room.players;
        }
      }
      forall x | x in Ids(r) ensures x in Ids(room) {
        var p :| p in r.players + r.waitlist && p.id == x;
        var i :| 0 <= i < |r.players + r.waitlist| && (r.players + r.waitlist)[i] == p;
      }
      forall x | x in Ids(room) ensures x in Ids(r) {
        var p :| p in room.players + room.waitlist && p.id == x;
        var i :| 0 <= i < |room.players + room.waitlist| && (room.players + room.waitlist)[i] == p;
        assert (r.players + r.waitlist)[i] in r.players + r.waitlist;
      }
    }
  }
}
