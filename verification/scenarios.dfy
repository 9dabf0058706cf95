/** Concrete games, played through the directory and room by room, end to end. */
module Scenarios {

  import opened Wrappers
  import opened Roles
  import opened Rooms
  import opened Directory
  import Views

  /** A room created by "Alice" seats only Alice; joining five more seats three of them and
      waitlists the other two. */
  lemma FillThenOverflow()
    ensures var c := CreateRoom(EmptyServer(), "Den", "Alice");
      && c.server.rooms[c.roomId].players == [NewPlayer(c.playerId, "Alice")]
      && c.server.rooms[c.roomId].waitlist == []
      && var j := JoinMultiple(c.server, c.roomId, ["B", "C", "D", "E", "F"]);
      && j.Ok?
      && |j.value.0.rooms[c.roomId].players| == 4
      && |j.value.0.rooms[c.roomId].waitlist| == 2
      && j.value.1.added == [Views.Seat(2, "B"), Views.Seat(3, "C"), Views.Seat(4, "D")]
      && j.value.1.waitlisted == [Views.Seat(5, "E"), Views.Seat(6, "F")]
  {
  }

  /** Four seated players P1..P4 with the given roles and scores, in round `round`. */
  function Table(roles: seq<Option<Role>>, scores: seq<int>, round: nat, guess: Option<PlayerId>, guessed: bool): Room
    requires |roles| == 4 && |scores| == 4
  {
    var dealt := roles[0].Some?;
    Room(1, "Den",
      [Player(0, "P1", roles[0], scores[0]), Player(2, "P2", roles[1], scores[1]),
       Player(3, "P3", roles[2], scores[2]), Player(4, "P4", roles[3], scores[3])],
      [], dealt, if dealt then Some(2) else None, if dealt then Some(3) else None,
      guessed, guess, round)
  }

  const DealtRoles: seq<Option<Role>> := [Some(Raja), Some(Mantri), Some(Chor), Some(Sipahi)]
  const Undealt: seq<Option<Role>> := [None, None, None, None]

  /** Dealing Raja, Mantri, Chor, Sipahi to P1..P4 records P2 as Mantri and P3 as Chor. */
  lemma DealScenario()
    ensures Rounds.AssignRoles(Table(Undealt, [0, 0, 0, 0], 0, None, false), [Raja, Mantri, Chor, Sipahi])
      == Ok(Table(DealtRoles, [0, 0, 0, 0], 1, None, false))
  {
    var room := Table(Undealt, [0, 0, 0, 0], 0, None, false);
    var deal: Deal := [Raja, Mantri, Chor, Sipahi];
    Rounds.AssignRolesDeals(room, deal);
    var r := Rounds.AssignRoles(room, deal).value;
    var want := Table(DealtRoles, [0, 0, 0, 0], 1, None, false);
    assert r.players[0] == want.players[0] && r.players[1] == want.players[1];
    assert r.players[2] == want.players[2] && r.players[3] == want.players[3];
    assert r.players == want.players;
    assert IsHolder(r.players, 1, Mantri) && IsHolder(r.players, 2, Chor);
  }

  /** The Mantri naming the Chor: correct, and the scores become 1000, 800, 0, 500. */
  lemma CorrectGuessScenario()
    ensures Scoring.SubmitGuess(Table(DealtRoles, [0, 0, 0, 0], 1, None, false), 2, 3)
      == Ok(Scoring.Guessed(Table(DealtRoles, [1000, 800, 0, 500], 1, Some(3), true), Scoring.Verdict(true, Some(3))))
  {
    var room := Table(DealtRoles, [0, 0, 0, 0], 1, None, false);
    assert Scoring.Award(room.players, true) == Table(DealtRoles, [1000, 800, 0, 500], 1, Some(3), true).players;
  }

  /** Only the Mantri may guess: P1, P3 and P4 are refused. */
  lemma OnlyMantriScenario()
    ensures Scoring.SubmitGuess(Table(DealtRoles, [0, 0, 0, 0], 1, None, false), 0, 3) == Err(Forbidden)
    ensures Scoring.SubmitGuess(Table(DealtRoles, [0, 0, 0, 0], 1, None, false), 3, 3) == Err(Forbidden)
    ensures Scoring.SubmitGuess(Table(DealtRoles, [0, 0, 0, 0], 1, None, false), 4, 3) == Err(Forbidden)
  {
  }

  /** A second round with the same deal keeps the scores and the previous guess; the Mantri
      then naming the Raja is wrong, and the scores grow by 1000, 0, 800, 500. */
  lemma SecondRoundScenario()
    ensures Rounds.AssignRoles(Table(DealtRoles, [1000, 800, 0, 500], 1, Some(3), true), [Raja, Mantri, Chor, Sipahi])
      == Ok(Table(DealtRoles, [1000, 800, 0, 500], 2, Some(3), false))
    ensures Scoring.SubmitGuess(Table(DealtRoles, [1000, 800, 0, 500], 2, Some(3), false), 2, 0)
      == Ok(Scoring.Guessed(Table(DealtRoles, [2000, 800, 800, 1000], 2, Some(0), true), Scoring.Verdict(false, Some(3))))
  {
    var room := Table(DealtRoles, [1000, 800, 0, 500], 1, Some(3), true);
    var deal: Deal := [Raja, Mantri, Chor, Sipahi];
    Rounds.AssignRolesDeals(room, deal);
    var r := Rounds.AssignRoles(room, deal).value;
    var want := Table(DealtRoles, [1000, 800, 0, 500], 2, Some(3), false);
    assert r.players[0] == want.players[0] && r.players[1] == want.players[1];
    assert r.players[2] == want.players[2] && r.players[3] == want.players[3];
    assert r.players == want.players;
    assert IsHolder(r.players, 1, Mantri) && IsHolder(r.players, 2, Chor);
    var room2 := Table(DealtRoles, [1000, 800, 0, 500], 2, Some(3), false);
    assert Scoring.Award(room2.players, false) == Table(DealtRoles, [2000, 800, 800, 1000], 2, Some(0), true).players;
  }

  /** The result view is refused before the first deal and between a deal and the guess. */
  lemma ResultGated()
    ensures var c := CreateRoom(EmptyServer(), "Den", "P1");
      var s1 := JoinMultiple(c.server, c.roomId, ["P2", "P3", "P4"]).value.0;
      var s2 := AssignRoles(s1, c.roomId, [Raja, Mantri, Chor, Sipahi]).value.0;
      && GetResult(s1, c.roomId) == Err(InvalidState)
      && GetResult(s2, c.roomId) == Err(InvalidState)
  {
  }
}
