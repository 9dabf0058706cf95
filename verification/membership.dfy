/** Joining a room (`join_multiple_players`, main.py:107-130): fill the seats up to four,
    then send everyone else to the waitlist, in the order the names arrive. */
module Membership {

  import opened Wrappers
  import opened Rooms

  /** The room after a join, with the players seated and the players waitlisted by it. */
  datatype Joined = Joined(room: Room, added: seq<Player>, waitlisted: seq<Player>)

  /** Processes `names` one by one; the k-th name becomes a player with id `next + k`. */
  function JoinAll(room: Room, names: seq<string>, next: PlayerId): (j: Joined)
    ensures |j.added| + |j.waitlisted| == |names|
    ensures |room.players| <= Seats ==> |j.room.players| <= Seats
    decreases |names|
  {
    if |names| == 0 then Joined(room, [], [])
    else
      var p := NewPlayer(next, names[0]);
      if |room.players| < Seats then
        var rest := JoinAll(room.(players := room.players + [p]), names[1..], next + 1);
        Joined(rest.room, [p] + rest.added, rest.waitlisted)
      else
        var rest := JoinAll(room.(waitlist := room.waitlist + [p]), names[1..], next + 1);
        Joined(rest.room, rest.added, [p] + rest.waitlisted)
  }

  /** The players made from `names`, numbered from `start`. */
  function Fresh(names: seq<string>, start: PlayerId): (ps: seq<Player>)
    ensures |ps| == |names|
  {
    seq(|names|, i requires 0 <= i < |names| => NewPlayer(start + i, names[i]))
  }

  /** How many of `count` newcomers a room seating `seated` players can still seat:
      as many as fit, and none once the room is full. */
  function Admitted(seated: nat, count: nat): (k: nat)
    ensures k <= count
    ensures k == 0 || seated + k <= Seats
    ensures k < count ==> seated + k >= Seats
  {
    if seated >= Seats then 0
    else if count <= Seats - seated then count
    else Seats - seated
  }

  lemma FreshCons(names: seq<string>, start: PlayerId)
    requires |names| > 0
    ensures Fresh(names, start) == [NewPlayer(start, names[0])] + Fresh(names[1..], start + 1)
  {
  }

  /** Fill-then-overflow: the first `Admitted` newcomers are seated in order, the rest are
      waitlisted in order, and fresh ids are handed out consecutively. */
  lemma JoinAllSplit(room: Room, names: seq<string>, next: PlayerId)
    ensures JoinAll(room, names, next).added ==
      Fresh(names[..Admitted(|room.players|, |names|)], next)
    ensures JoinAll(room, names, next).waitlisted ==
      Fresh(names[Admitted(|room.players|, |names|)..], next + Admitted(|room.players|, |names|))
  {
    JoinAllAdded(room, names, next);
    JoinAllWaitlisted(room, names, next);
  }

  lemma {:induction false} JoinAllAdded(room: Room, names: seq<string>, next: PlayerId)
    ensures JoinAll(room, names, next).added ==
      Fresh(names[..Admitted(|room.players|, |names|)], next)
    decreases |names|
  {
    var k := Admitted(|room.players|, |names|);
    if |names| > 0 {
      var p := NewPlayer(next, names[0]);
      if |room.players| < Seats {
        var room1 := room.(players := room.players + [p]);
        JoinAllAdded(room1, names[1..], next + 1);
        assert Admitted(|room1.players|, |names| - 1) == k - 1;
        assert names[1..][..k - 1] == names[..k][1..];
        FreshCons(names[..k], next);
      } else {
        var room1 := room.(waitlist := room.waitlist + [p]);
        JoinAllAdded(room1, names[1..], next + 1);
        assert names[..k] == [] && names[1..][..0] == [];
      }
    } else {
      assert names[..k] == [];
    }
  }

  lemma {:induction false} JoinAllWaitlisted(room: Room, names: seq<string>, next: PlayerId)
    ensures JoinAll(room, names, next).waitlisted ==
      Fresh(names[Admitted(|room.players|, |names|)..], next + Admitted(|room.players|, |names|))
    decreases |names|
  {
    var k := Admitted(|room.players|, |names|);
    if |names| > 0 {
      var p := NewPlayer(next, names[0]);
      if |room.players| < Seats {
        var room1 := room.(players := room.players + [p]);
        JoinAllWaitlisted(room1, names[1..], next + 1);
        assert Admitted(|room1.players|, |names| - 1) == k - 1;
        assert names[1..][k - 1..] == names[k..];
      } else {
        var room1 := room.(waitlist := room.waitlist + [p]);
        JoinAllWaitlisted(room1, names[1..], next + 1);
        assert k == 0;
        FreshCons(names, next);
        assert names[k..] == names;
        assert names[1..][0..] == names[1..];
      }
    } else {
      assert names[k..] == [];
    }
  }

  /** The seated players gain exactly the added ones and the waitlist exactly the waitlisted
      ones, at the end; roles, scores, flags, recorded ids and the round are left as they were. */
  lemma {:induction false} JoinAllRoom(room: Room, names: seq<string>, next: PlayerId)
    ensures JoinAll(room, names, next).room.players == room.players + JoinAll(room, names, next).added
    ensures JoinAll(room, names, next).room.waitlist == room.waitlist + JoinAll(room, names, next).waitlisted
    ensures JoinAll(room, names, next).room.(players := room.players, waitlist := room.waitlist) == room
    decreases |names|
  {
    if |names| > 0 {
      var p := NewPlayer(next, names[0]);
      if |room.players| < Seats {
        var room1 := room.(players := room.players + [p]);
        JoinAllRoom(room1, names[1..], next + 1);
        assert room1.players + JoinAll(room1, names[1..], next + 1).added
          == room.players + ([p] + JoinAll(room1, names[1..], next + 1).added);
      } else {
        var room1 := room.(waitlist := room.waitlist + [p]);
        JoinAllRoom(room1, names[1..], next + 1);
        assert room1.waitlist + JoinAll(room1, names[1..], next + 1).waitlisted
          == room.waitlist + ([p] + JoinAll(room1, names[1..], next + 1).waitlisted);
      }
    }
  }

  lemma FreshAppend(a: seq<string>, b: seq<string>, start: PlayerId)
    ensures Fresh(a + b, start) == Fresh(a, start) + Fresh(b, start + |a|)
  {
  }

  /** Together, the added and the waitlisted players are the newcomers in input order. */
  lemma JoinAllFresh(room: Room, names: seq<string>, next: PlayerId)
    ensures JoinAll(room, names, next).added + JoinAll(room, names, next).waitlisted == Fresh(names, next)
  {
    var k := Admitted(|room.players|, |names|);
    JoinAllSplit(room, names, next);
    var pre, post := names[..k], names[k..];
    assert pre + post == names;
    FreshAppend(pre, post, next);
  }

  /** Fresh players carry the consecutive ids `start`, `start + 1`, ..., so they are
      distinct, and none of them holds a role or a point yet. */
  lemma FreshIds(names: seq<string>, start: PlayerId)
    ensures UniqueIds(Fresh(names, start))
    ensures forall p | p in Fresh(names, start) :: start <= p.id < start + |names|
    ensures forall p | p in Fresh(names, start) :: p.role == None && p.score == 0
  {
  }

  /** Every player seated or waiting has an id below `bound`. */
  predicate IdsBelow(room: Room, bound: nat)
  {
    forall p | p in room.players + room.waitlist :: p.id < bound
  }

  /** Appending ids newer than every old one, in two consecutive blocks, keeps ids unique. */
  lemma UniqueAfterJoin(P: seq<Player>, W: seq<Player>, A: seq<Player>, X: seq<Player>, next: nat, k: nat)
    requires UniqueIds(P + W) && UniqueIds(A) && UniqueIds(X)
    requires forall p | p in P + W :: p.id < next
    requires forall p | p in A :: next <= p.id < next + k
    requires forall p | p in X :: next + k <= p.id
    ensures UniqueIds((P + A) + (W + X))
  {
    UniqueIdsAppend(P, W);
    UniqueIdsAppend(P, A);
    UniqueIdsAppend(W, X);
    assert forall a :: 0 <= a < |P| ==> P[a] in P + W;
    assert forall a :: 0 <= a < |W| ==> W[a] in P + W;
    assert forall a :: 0 <= a < |A| ==> A[a] in A;
    assert forall a :: 0 <= a < |X| ==> X[a] in X;
    forall a, b | 0 <= a < |P + A| && 0 <= b < |W + X| ensures (P + A)[a].id != (W + X)[b].id {
      if a < |P| && b < |W| {
        assert (P + A)[a] == P[a] && (W + X)[b] == W[b];
      } else if a < |P| {
        assert (P + A)[a] == P[a] && (W + X)[b] == X[b - |W|];
      } else if b < |W| {
        assert (P + A)[a] == A[a - |P|] && (W + X)[b] == W[b];
      } else {
        assert (P + A)[a] == A[a - |P|] && (W + X)[b] == X[b - |W|];
      }
    }
    UniqueIdsAppend(P + A, W + X);
  }

  /** The ids after a join are the old ones and the newcomers'. */
  lemma IdsAfterJoin(P: seq<Player>, W: seq<Player>, A: seq<Player>, X: seq<Player>)
    ensures IdsOf((P + A) + (W + X)) == IdsOf(P + W) + IdsOf(A + X)
  {
  }

  /** Seating `A` and waitlisting `X` keeps the room invariant when they are new players
      with ids above every old one, the seats do not overflow, and nobody is seated once a
      round has been dealt. */
  lemma AppendInv(room: Room, A: seq<Player>, X: seq<Player>, next: nat, k: nat)
    requires RoomInv(room) && IdsBelow(room, next)
    requires |room.players| + |A| <= Seats
    requires room.rolesAssigned ==> A == []
    requires UniqueIds(A) && UniqueIds(X)
    requires forall p | p in A :: next <= p.id < next + k && p.role == None && p.score == 0
    requires forall p | p in X :: next + k <= p.id && p.role == None && p.score == 0
    ensures RoomInv(room.(players := room.players + A, waitlist := room.waitlist + X))
  {
    var P, W := room.players, room.waitlist;
    var r := room.(players := P + A, waitlist := W + X);
    UniqueAfterJoin(P, W, A, X, next, k);
    assert r.players + r.waitlist == (P + A) + (W + X);
    assert forall p | p in W + X :: p in W || p in X;
    assert forall p | p in P + A :: p in P || p in A;
    if r.rolesAssigned {
      assert r.players == P;
      assert r == room.(waitlist := W + X);
    }
  }

  /** A join keeps the room invariant when every id in the room is older than the fresh ones,
      and the room's ids grow by exactly the fresh ids. */
  lemma JoinAllInv(room: Room, names: seq<string>, next: PlayerId)
    requires RoomInv(room)
    requires IdsBelow(room, next)
    ensures var j := JoinAll(room, names, next);
      && RoomInv(j.room)
      && IdsBelow(j.room, next + |names|)
      && Ids(j.room) == Ids(room) + IdsOf(Fresh(names, next))
  {
    var j := JoinAll(room, names, next);
    var k := Admitted(|room.players|, |names|);
    JoinAllSplit(room, names, next);
    JoinAllRoom(room, names, next);
    var P, W, A, X := room.players, room.waitlist, j.added, j.waitlisted;
    FreshIds(names[..k], next);
    FreshIds(names[k..], next + k);
    assert j.room == room.(players := P + A, waitlist := W + X);
    AppendInv(room, A, X, next, k);
    assert j.room.players + j.room.waitlist == (P + A) + (W + X);
    IdsAfterJoin(P, W, A, X);
    JoinAllFresh(room, names, next);
    assert IdsBelow(j.room, next + |names|) by {
      assert forall p | p in (P + A) + (W + X) :: p in P + W || p in A + X;
    }
  }
}
