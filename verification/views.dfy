/** Read-only views of a room: the roster (`get_players`), one player's role (`view_role`),
    the round result (`result`) and the leaderboard (`leaderboard`). */
module Views {

  import opened Wrappers
  import opened Roles
  import opened Rooms

  /** A seated player as listed by the roster: id and name only. */
  datatype Seat = Seat(id: PlayerId, name: string)

  datatype Roster = Roster(players: seq<Seat>, waitlistCount: nat)

  /** `get_players`: the seated players in seating order and the length of the waitlist. */
  function GetPlayers(room: Room): (r: Roster)
    ensures |r.players| == |room.players|
    ensures forall i :: 0 <= i < |room.players| ==>
      r.players[i].id == room.players[i].id && r.players[i].name == room.players[i].name
    ensures r.waitlistCount == |room.waitlist|
  {
    Roster(seq(|room.players|, i requires 0 <= i < |room.players| => Seat(room.players[i].id, room.players[i].name)),
           |room.waitlist|)
  }

  /** The roster of a room in a valid state lists at most four distinct players. */
  lemma RosterBounded(room: Room)
    requires RoomInv(room)
    ensures |GetPlayers(room).players| <= Seats
    ensures forall i, j :: 0 <= i < j < |GetPlayers(room).players| ==>
      GetPlayers(room).players[i].id != GetPlayers(room).players[j].id
  {
    UniqueIdsAppend(room.players, room.waitlist);
  }

  /** The first seat holding player `id`, if any. */
  function FindSeat(ps: seq<Player>, id: PlayerId): (k: Option<nat>)
    ensures k.Some? ==> k.value < |ps| && ps[k.value].id == id
    ensures k.Some? ==> forall j :: 0 <= j < k.value ==> ps[j].id != id
    ensures k.None? ==> forall j :: 0 <= j < |ps| ==> ps[j].id != id
  {
    if |ps| == 0 then None
    else if ps[0].id == id then Some(0)
    else match FindSeat(ps[1..], id)
      case None => None
      case Some(k) => Some(k + 1)
  }

  /** `view_role`: the role of a seated player, which is `None` before the first deal; a
      player who is not seated, waitlisted ones included, is not found. */
  function ViewRole(room: Room, id: PlayerId): (r: Result<Option<Role>, Error>)
    ensures r.Err? ==> r.error == NotFound
  {
    match FindSeat(room.players, id)
    case None => Err(NotFound)
    case Some(k) => Ok(room.players[k].role)
  }

  /** A role is shown exactly to seated players, and it is the one that player holds;
      waitlisted players are never found. */
  lemma ViewRoleSpec(room: Room, id: PlayerId)
    requires RoomInv(room)
    ensures ViewRole(room, id).Ok? <==> exists i :: 0 <= i < |room.players| && room.players[i].id == id
    ensures forall i :: 0 <= i < |room.players| && room.players[i].id == id ==>
      ViewRole(room, id) == Ok(room.players[i].role)
    ensures (exists i :: 0 <= i < |room.waitlist| && room.waitlist[i].id == id) ==>
      ViewRole(room, id) == Err(NotFound)
  {
    UniqueIdsAppend(room.players, room.waitlist);
  }

  /** One line of the round result; an unassigned role reads "Unknown". */
  datatype Line = Line(id: PlayerId, name: string, role: string, score: int)

  datatype Outcome = Outcome(round: nat, players: seq<Line>)

  function RoleLabel(role: Option<Role>): string
  {
    match role
    case None => "Unknown"
    case Some(r) => RoleName(r)
  }

  /** `result`: refused until roles are dealt, and again until the Mantri has guessed. */
  function GetResult(room: Room): (r: Result<Outcome, Error>)
    ensures !room.rolesAssigned ==> r == Err(InvalidState)
    ensures room.rolesAssigned && !room.guessSubmitted ==> r == Err(InvalidState)
    ensures r.Ok? <==> room.rolesAssigned && room.guessSubmitted
    ensures r.Ok? ==> r.value.round == room.roundNumber && |r.value.players| == |room.players|
  {
    if !room.rolesAssigned then Err(InvalidState)
    else if !room.guessSubmitted then Err(InvalidState)
    else
      Ok(Outcome(room.roundNumber,
        seq(|room.players|, i requires 0 <= i < |room.players| =>
          var p := room.players[i];
          Line(p.id, p.name, RoleLabel(p.role), p.score))))
  }

  /** In a valid room a result names every seated player in seating order with their real
      role and a score that is never negative: the "Unknown" fallback never shows. */
  lemma ResultLines(room: Room)
    requires RoomInv(room)
    requires GetResult(room).Ok?
    ensures var lines := GetResult(room).value.players;
      forall i :: 0 <= i < |lines| ==>
        && room.players[i].role.Some?
        && lines[i] == Line(room.players[i].id, room.players[i].name,
                            RoleName(room.players[i].role.value), room.players[i].score)
        && lines[i].role != "Unknown"
        && lines[i].score >= 0
  {
    var lines := GetResult(room).value.players;
    forall i | 0 <= i < |lines| ensures room.players[i].role.Some? && room.players[i].score >= 0 {
      assert room.players[i] in room.players;
      SeatedHoldRoles(room.players, i);
    }
  }

  /** With each role held once, every one of the four seats holds some role. */
  lemma SeatedHoldRoles(ps: seq<Player>, i: int)
    requires EachRoleOnce(ps)
    requires 0 <= i < |ps|
    ensures ps[i].role.Some?
  {
    assert HeldOnce(ps, Raja) && HeldOnce(ps, Mantri) && HeldOnce(ps, Chor) && HeldOnce(ps, Sipahi);
    var a :| IsHolder(ps, a, Raja);
    var b :| IsHolder(ps, b, Mantri);
    var c :| IsHolder(ps, c, Chor);
    var d :| IsHolder(ps, d, Sipahi);
    assert i == a || i == b || i == c || i == d;
  }

  /** Inserts `p` in front of the first player whose score is not above it. */
  function InsertByScore(p: Player, l: seq<Player>): (r: seq<Player>)
    ensures |r| == |l| + 1
  {
    if |l| == 0 || p.score >= l[0].score then [p] + l
    else [l[0]] + InsertByScore(p, l[1..])
  }

  /** Python's `sorted(players, key=score, reverse=True)`, as an insertion sort. */
  function SortByScore(ps: seq<Player>): (r: seq<Player>)
    ensures |r| == |ps|
  {
    if |ps| == 0 then [] else InsertByScore(ps[0], SortByScore(ps[1..]))
  }

  predicate Descending(ps: seq<Player>)
  {
    forall i, j :: 0 <= i < j < |ps| ==> ps[i].score >= ps[j].score
  }

  /** The players with score `k`, in their order. */
  function WithScore(ps: seq<Player>, k: int): seq<Player>
  {
    if |ps| == 0 then []
    else (if ps[0].score == k then [ps[0]] else []) + WithScore(ps[1..], k)
  }

  lemma {:induction false} InsertPermutes(p: Player, l: seq<Player>)
    ensures multiset(InsertByScore(p, l)) == multiset([p] + l)
    decreases |l|
  {
    if |l| > 0 && p.score < l[0].score {
      InsertPermutes(p, l[1..]);
      assert l == [l[0]] + l[1..];
    }
  }

  lemma {:induction false} InsertDescending(p: Player, l: seq<Player>)
    requires Descending(l)
    ensures Descending(InsertByScore(p, l))
    decreases |l|
  {
    if |l| > 0 && p.score < l[0].score {
      var rest := InsertByScore(p, l[1..]);
      InsertDescending(p, l[1..]);
      InsertPermutes(p, l[1..]);
      forall j | 0 <= j < |rest| ensures l[0].score >= rest[j].score {
        assert rest[j] in multiset([p] + l[1..]);
        if rest[j] != p {
          assert rest[j] in l[1..];
        }
      }
    }
  }

  /** Insertion puts `p` ahead of every player with the same score that follows it. */
  lemma {:induction false} InsertKeepsTies(p: Player, l: seq<Player>, k: int)
    ensures WithScore(InsertByScore(p, l), k) == WithScore([p] + l, k)
    decreases |l|
  {
    if |l| > 0 && p.score < l[0].score {
      InsertKeepsTies(p, l[1..], k);
      var rest := InsertByScore(p, l[1..]);
      assert ([l[0]] + rest)[1..] == rest;
      assert ([p] + l)[1..] == l;
      assert l[1..] == ([p] + l[1..])[1..];
      assert ([l[0]] + l[1..]) == l;
    }
  }

  /** The sort keeps exactly the players it is given. */
  lemma {:induction false} SortPermutes(ps: seq<Player>)
    ensures multiset(SortByScore(ps)) == multiset(ps)
    decreases |ps|
  {
    if |ps| > 0 {
      SortPermutes(ps[1..]);
      InsertPermutes(ps[0], SortByScore(ps[1..]));
      assert ps == [ps[0]] + ps[1..];
    }
  }

  /** The sort orders scores from highest to lowest. */
  lemma {:induction false} SortDescending(ps: seq<Player>)
    ensures Descending(SortByScore(ps))
    decreases |ps|
  {
    if |ps| > 0 {
      SortDescending(ps[1..]);
      InsertDescending(ps[0], SortByScore(ps[1..]));
    }
  }

  /** The sort is stable: players with equal scores keep their seating order. */
  lemma {:induction false} SortStable(ps: seq<Player>, k: int)
    ensures WithScore(SortByScore(ps), k) == WithScore(ps, k)
    decreases |ps|
  {
    if |ps| > 0 {
      SortStable(ps[1..], k);
      InsertKeepsTies(ps[0], SortByScore(ps[1..]), k);
      assert ([ps[0]] + SortByScore(ps[1..]))[1..] == SortByScore(ps[1..]);
    }
  }

  /** A leaderboard entry. */
  datatype Standing = Standing(id: PlayerId, name: string, score: int)

  function StandingOf(p: Player): Standing
  {
    Standing(p.id, p.name, p.score)
  }

  /** `leaderboard`: the seated players, highest score first, ties in seating order. */
  function Leaderboard(room: Room): (r: seq<Standing>)
    ensures |r| == |room.players|
  {
    var sorted := SortByScore(room.players);
    seq(|sorted|, i requires 0 <= i < |sorted| => StandingOf(sorted[i]))
  }

  /** Every seated player has a line on the leaderboard. */
  lemma LeaderboardLists(room: Room)
    ensures forall p | p in room.players :: StandingOf(p) in Leaderboard(room)
  {
    var sorted := SortByScore(room.players);
    SortPermutes(room.players);
    forall p | p in room.players ensures StandingOf(p) in Leaderboard(room) {
      assert p in multiset(sorted);
      var i :| 0 <= i < |sorted| && sorted[i] == p;
      assert Leaderboard(room)[i] == StandingOf(p);
    }
  }

  /** The leaderboard lists the standings of a rearrangement of the seated players that
      orders scores from highest to lowest and keeps the seating order among equal scores. */
  lemma LeaderboardSpec(room: Room)
    ensures exists sorted: seq<Player> ::
      && multiset(sorted) == multiset(room.players)
      && Descending(sorted)
      && (forall k :: WithScore(sorted, k) == WithScore(room.players, k))
      && |sorted| == |Leaderboard(room)|
      && forall i :: 0 <= i < |sorted| ==> Leaderboard(room)[i] == StandingOf(sorted[i])
  {
    var sorted := SortByScore(room.players);
    SortPermutes(room.players);
    SortDescending(room.players);
    forall k ensures WithScore(sorted, k) == WithScore(room.players, k) {
      SortStable(room.players, k);
    }
  }
}
