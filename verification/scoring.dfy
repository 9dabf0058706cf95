/** Resolving the Mantri's guess (`submit_guess`, main.py:189-222): only the recorded Mantri
    may guess; every seated player then gains the points of the table for the outcome. */
module Scoring {

  import opened Wrappers
  import opened Roles
  import opened Rooms

  /** What the guesser is told: whether the guess named the Chor, and the Chor's id. */
  datatype Verdict = Verdict(correct: bool, actualChorId: Option<PlayerId>)

  datatype Guessed = Guessed(room: Room, verdict: Verdict)

  /** Adds each seated player's points for the outcome to their running score. */
  function Award(ps: seq<Player>, correct: bool): (qs: seq<Player>)
    ensures |qs| == |ps|
    ensures forall i :: 0 <= i < |ps| ==>
      qs[i] == ps[i].(score := ps[i].score + Delta(ps[i].role, correct))
  {
    seq(|ps|, i requires 0 <= i < |ps| => ps[i].(score := ps[i].score + Delta(ps[i].role, correct)))
  }

  /** `submit_guess`: a caller other than the recorded Mantri is refused; otherwise the guess
      is stored, judged against the recorded Chor and scored. Nothing stops a second guess in
      the same round, which scores again. */
  function SubmitGuess(room: Room, caller: PlayerId, guessed: PlayerId): (r: Result<Guessed, Error>)
    ensures r.Err? <==> room.mantriId != Some(caller)
    ensures r.Err? ==> r.error == Forbidden
    ensures r.Ok? ==>
      && r.value.room.guessSubmitted
      && r.value.room.guessedPlayerId == Some(guessed)
      && (r.value.verdict.correct <==> room.chorId == Some(guessed))
      && r.value.verdict.actualChorId == room.chorId
  {
    if room.mantriId != Some(caller) then Err(Forbidden)
    else
      var correct := room.chorId == Some(guessed);
      Ok(Guessed(
        room.(guessSubmitted := true, guessedPlayerId := Some(guessed), players := Award(room.players, correct)),
        Verdict(correct, room.chorId)))
  }

  function SumScores(ps: seq<Player>): int
  {
    if |ps| == 0 then 0 else ps[0].score + SumScores(ps[1..])
  }

  function SumDeltas(ps: seq<Player>, correct: bool): nat
  {
    if |ps| == 0 then 0 else Delta(ps[0].role, correct) + SumDeltas(ps[1..], correct)
  }

  /** Scoring adds each player's delta, so the total grows by the sum of the deltas. */
  lemma {:induction false} AwardSum(ps: seq<Player>, correct: bool)
    ensures SumScores(Award(ps, correct)) == SumScores(ps) + SumDeltas(ps, correct)
    decreases |ps|
  {
    if |ps| > 0 {
      AwardSum(ps[1..], correct);
      assert Award(ps, correct)[1..] == Award(ps[1..], correct);
    }
  }

  /** With the four roles held once each, a round pays out 2300 points whatever the outcome. */
  lemma DealtSumDeltas(ps: seq<Player>, correct: bool)
    requires EachRoleOnce(ps)
    ensures SumDeltas(ps, correct) == 2300
  {
    forall i | 0 <= i < Seats ensures ps[i].role.Some? {
      assert HeldOnce(ps, Raja) && HeldOnce(ps, Mantri) && HeldOnce(ps, Chor) && HeldOnce(ps, Sipahi);
      var a :| IsHolder(ps, a, Raja);
      var b :| IsHolder(ps, b, Mantri);
      var c :| IsHolder(ps, c, Chor);
      var d :| IsHolder(ps, d, Sipahi);
      assert a != b && a != c && a != d && b != c && b != d && c != d;
      assert i == a || i == b || i == c || i == d;
    }
    var deal := seq(Seats, i requires 0 <= i < Seats => ps[i].role.value);
    forall i, j | 0 <= i < j < 4 ensures deal[i] != deal[j] {
      assert HeldOnce(ps, deal[i]);
      var k :| IsHolder(ps, k, deal[i]) && forall m :: IsHolder(ps, m, deal[i]) ==> m == k;
      assert IsHolder(ps, i, deal[i]);
      if deal[i] == deal[j] {
        assert IsHolder(ps, j, deal[i]);
        assert false;
      }
    }
    DealSum(deal, correct);
    var t1, t2, t3 := ps[1..], ps[2..], ps[3..];
    assert t1[1..] == t2 && t2[1..] == t3 && t3[1..] == [];
    assert SumDeltas(t3, correct) == Delta(ps[3].role, correct);
    assert SumDeltas(t2, correct) == Delta(ps[2].role, correct) + SumDeltas(t3, correct);
    assert SumDeltas(t1, correct) == Delta(ps[1].role, correct) + SumDeltas(t2, correct);
  }

  /** The four deltas of any permutation of the roles add up to 2300. */
  lemma DealSum(deal: seq<Role>, correct: bool)
    requires IsDeal(deal)
    ensures Delta(Some(deal[0]), correct) + Delta(Some(deal[1]), correct)
          + Delta(Some(deal[2]), correct) + Delta(Some(deal[3]), correct) == 2300
  {
  }

  /** An accepted guess changes only scores among the seated players: each gains the table's
      points for their role and the outcome, so no score ever goes down. */
  lemma GuessPays(room: Room, caller: PlayerId, guessed: PlayerId)
    requires SubmitGuess(room, caller, guessed).Ok?
    ensures var g := SubmitGuess(room, caller, guessed).value;
      && |g.room.players| == |room.players|
      && (forall i :: 0 <= i < |room.players| ==>
            && g.room.players[i].(score := room.players[i].score) == room.players[i]
            && g.room.players[i].score == room.players[i].score + Delta(room.players[i].role, g.verdict.correct)
            && g.room.players[i].score >= room.players[i].score)
      && g.room.(players := room.players, guessSubmitted := room.guessSubmitted,
                 guessedPlayerId := room.guessedPlayerId) == room
  {
  }

  /** Before any deal there is no Mantri, so every guess is refused. */
  lemma NoGuessBeforeDeal(room: Room, caller: PlayerId, guessed: PlayerId)
    requires RoomInv(room) && !room.rolesAssigned
    ensures SubmitGuess(room, caller, guessed) == Err(Forbidden)
  {
  }

  /** Under the invariant an accepted guess pays out exactly 2300 points in total. */
  lemma GuessTotal(room: Room, caller: PlayerId, guessed: PlayerId)
    requires RoomInv(room)
    requires SubmitGuess(room, caller, guessed).Ok?
    ensures SumScores(SubmitGuess(room, caller, guessed).value.room.players) == SumScores(room.players) + 2300
  {
    var g := SubmitGuess(room, caller, guessed).value;
    AwardSum(room.players, g.verdict.correct);
    DealtSumDeltas(room.players, g.verdict.correct);
  }

  /** An accepted guess keeps the room invariant and the room's ids. */
  lemma GuessInv(room: Room, caller: PlayerId, guessed: PlayerId)
    requires RoomInv(room)
    requires SubmitGuess(room, caller, guessed).Ok?
    ensures RoomInv(SubmitGuess(room, caller, guessed).value.room)
    ensures Ids(SubmitGuess(room, caller, guessed).value.room) == Ids(room)
  {
    var r := SubmitGuess(room, caller, guessed).value.room;
    GuessPays(room, caller, guessed);
    assert forall i :: 0 <= i < |r.players + r.waitlist| ==>
      (r.players + r.waitlist)[i].id == (room.players + room.waitlist)[i].id;
    forall p | p in r.players ensures p.score >= 0 {
      var i :| 0 <= i < |r.players| && r.players[i] == p;
      assert room.players[i] in room.players;
    }
    forall role ensures HeldOnce(r.players, role) {
      assert HeldOnce(room.players, role);
      var i :| IsHolder(room.players, i, role) && forall j :: IsHolder(room.players, j, role) ==> j == i;
      assert IsHolder(r.players, i, role);
      forall j | IsHolder(r.players, j, role) ensures j == i {
        assert IsHolder(room.players, j, role);
      }
    }
    forall x | x in Ids(r) ensures x in Ids(room) {
      var p :| p in r.players + r.waitlist && p.id == x;
      var i :| 0 <= i < |r.players + r.waitlist| && (r.players + r.waitlist)[i] == p;
    }
    forall x | x in Ids(room) ensures x in Ids(r) {
      var p :| p in room.players + room.waitlist && p.id == x;
      var i :| 0 <= i < |room.players + room.waitlist| && (room.players + room.waitlist)[i] == p;
      assert (r.players + r.waitlist)[i] in r.players + r.waitlist;
    }
  }

  /** Guessing is not idempotent: the same guess submitted again is accepted again and
      pays out a second time. */
  lemma RepeatGuessPaysTwice(room: Room, caller: PlayerId, guessed: PlayerId)
    requires RoomInv(room)
    requires SubmitGuess(room, caller, guessed).Ok?
    ensures var once := SubmitGuess(room, caller, guessed).value.room;
      && SubmitGuess(once, caller, guessed).Ok?
      && SumScores(SubmitGuess(once, caller, guessed).value.room.players) == SumScores(room.players) + 4600
      && SubmitGuess(once, caller, guessed).value.room != once
  {
    var once := SubmitGuess(room, caller, guessed).value.room;
    GuessTotal(room, caller, guessed);
    GuessInv(room, caller, guessed);
    GuessTotal(once, caller, guessed);
  }
}
