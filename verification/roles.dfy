/** The four roles of a round and the fixed point table (`POINTS` in main.py). */
module Roles {

  import opened Wrappers

  datatype Role = Raja | Mantri | Chor | Sipahi

  /** The name the source uses for a role (its role strings). */
  function RoleName(role: Role): (name: string)
    ensures |name| > 0
  {
    match role
    case Raja => "Raja"
    case Mantri => "Mantri"
    case Chor => "Chor"
    case Sipahi => "Sipahi"
  }

  /** Base points of each role: the `POINTS` table. */
  function Points(role: Role): nat
  {
    match role
    case Raja => 1000
    case Mantri => 800
    case Sipahi => 500
    case Chor => 0
  }

  /** The points a player holding `role` gains when the Mantri's guess is resolved,
      following the branches of the scoring loop: a correct guess pays every role its
      base points; a wrong one pays the Chor the Mantri's points and the Mantri nothing.
      A player without a role gains nothing (the source would fail on the table lookup;
      the room invariant makes that case unreachable). */
  function Delta(role: Option<Role>, correct: bool): nat
  {
    match role
    case None => 0
    case Some(r) =>
      if correct then Points(r)
      else if r == Chor then Points(Mantri)
      else if r == Mantri then 0
      else Points(r)
  }

  /** Both rows of the scoring table, written out role by role. */
  lemma DeltaTable()
    ensures Delta(Some(Raja), true) == 1000 && Delta(Some(Mantri), true) == 800
    ensures Delta(Some(Chor), true) == 0 && Delta(Some(Sipahi), true) == 500
    ensures Delta(Some(Raja), false) == 1000 && Delta(Some(Mantri), false) == 0
    ensures Delta(Some(Chor), false) == 800 && Delta(Some(Sipahi), false) == 500
  {
  }

  /** A deal hands out four pairwise-distinct roles, one per seat; it stands for the
      shuffled `ROLES` list. */
  predicate IsDeal(deal: seq<Role>)
  {
    && |deal| == 4
    && forall i, j :: 0 <= i < j < |deal| ==> deal[i] != deal[j]
  }

  type Deal = deal: seq<Role> | IsDeal(deal) witness [Raja, Mantri, Chor, Sipahi]

  /** A deal is exactly a permutation of the four roles. */
  lemma DealIsPermutation(deal: seq<Role>)
    ensures IsDeal(deal) <==> multiset(deal) == multiset{Raja, Mantri, Chor, Sipahi}
  {
    var all := multiset{Raja, Mantri, Chor, Sipahi};
    if IsDeal(deal) {
      forall r ensures multiset(deal)[r] == all[r] {
        DealCountsOne(deal, r);
        match r
        case Raja => assert all[Raja] == 1;
        case Mantri => assert all[Mantri] == 1;
        case Chor => assert all[Chor] == 1;
        case Sipahi => assert all[Sipahi] == 1;
      }
      assert multiset(deal) == all;
    }
    if multiset(deal) == all {
      assert |deal| == |multiset(deal)| == 4;
      forall i, j | 0 <= i < j < |deal| ensures deal[i] != deal[j] {
        if deal[i] == deal[j] {
          MultisetCountTwo(deal, i, j);
          assert false;
        }
      }
    }
  }

  /** Every role occurs exactly once in a deal. */
  lemma DealCountsOne(deal: seq<Role>, r: Role)
    requires IsDeal(deal)
    ensures multiset(deal)[r] == 1
  {
    DealCoversEveryRole(deal);
    assert r in deal;
    var k :| 0 <= k < |deal| && deal[k] == r;
    assert deal == deal[..k] + [r] + deal[k+1..];
    assert r !in deal[..k];
    assert r !in deal[k+1..];
  }

  /** Two equal entries at distinct positions make their value occur at least twice. */
  lemma MultisetCountTwo(s: seq<Role>, i: int, j: int)
    requires 0 <= i < j < |s| && s[i] == s[j]
    ensures multiset(s)[s[i]] >= 2
  {
    assert s == s[..i] + [s[i]] + s[i+1..j] + [s[j]] + s[j+1..];
  }

  /** Every role occurs in a deal (four distinct values of a four-valued type). */
  lemma DealCoversEveryRole(deal: seq<Role>)
    requires IsDeal(deal)
    ensures forall r :: r in deal
  {
    var a, b, c, d := deal[0], deal[1], deal[2], deal[3];
    assert a != b && a != c && a != d && b != c && b != d && c != d;
    assert deal == [a, b, c, d];
    forall r ensures r in deal {
      if r != a && r != b && r != c {
        match r
        case Raja =>
        case Mantri =>
        case Chor =>
        case Sipahi =>
      }
      assert r == a || r == b || r == c || r == d;
    }
  }
}
