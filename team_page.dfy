/** The squad page: players grouped by position in a fixed order, empty groups left out. */
module TeamPage {
  import opened Http
  import opened Listing
  import opened Js
  import opened PlayerModel

  /** `positions`, in display order. */
  const POSITIONS: seq<Position> := [Goalkeeper, Defender, Midfielder, Forward]

  function Rank(p: Position): (r: nat)
    ensures r < |POSITIONS| && POSITIONS[r] == p
  {
    match p
    case Goalkeeper => 0
    case Defender => 1
    case Midfielder => 2
    case Forward => 3
  }

  /** `POSITIONS` lists each position once: the rank of its `k`-th entry is `k`. */
  lemma RankAt(k: nat)
    requires k < |POSITIONS|
    ensures Rank(POSITIONS[k]) == k
  {
  }

  datatype Group = Group(position: Position, players: seq<Doc<Player>>)

  /** `players.filter(p => p.position === position)`. */
  function Members(players: seq<Doc<Player>>, p: Position): seq<Doc<Player>> {
    Filter(players, (d: Doc<Player>) => d.rec.position == p)
  }

  /** The map over `POSITIONS[k..]`, each position with its `members`, dropping the empty ones. */
  function GroupsFrom(members: Position -> seq<Doc<Player>>, k: nat): seq<Group>
    requires k <= |POSITIONS|
    decreases |POSITIONS| - k
  {
    if k == |POSITIONS| then []
    else
      var here := members(POSITIONS[k]);
      (if here == [] then [] else [Group(POSITIONS[k], here)]) + GroupsFrom(members, k + 1)
  }

  /** Every group is non-empty, holds its position's members, and comes from `POSITIONS[k..]`. */
  lemma {:induction false} GroupsExact(members: Position -> seq<Doc<Player>>, k: nat)
    requires k <= |POSITIONS|
    ensures forall g :: g in GroupsFrom(members, k) ==>
              g.players != [] && g.players == members(g.position) && Rank(g.position) >= k
    decreases |POSITIONS| - k
  {
    if k < |POSITIONS| {
      GroupsExact(members, k + 1);
      assert Rank(POSITIONS[k]) == k;
    }
  }

  /** Groups listed in the order of `POSITIONS`. */
  predicate Ordered(r: seq<Group>) {
    forall i, j :: 0 <= i < j < |r| ==> Rank(r[i].position) < Rank(r[j].position)
  }

  /** A group ranked before every group of an ordered list keeps it ordered. */
  lemma OrderedCons(g: Group, rest: seq<Group>)
    requires Ordered(rest)
    requires forall h :: h in rest ==> Rank(g.position) < Rank(h.position)
    ensures Ordered([g] + rest)
  {
    var r := [g] + rest;
    forall i, j | 0 <= i < j < |r|
      ensures Rank(r[i].position) < Rank(r[j].position)
    {
      assert r[j] == rest[j - 1];
      if i > 0 {
        assert r[i] == rest[i - 1];
      }
    }
  }

  /** The groups built from `POSITIONS[k..]` are all ranked at least `k`. */
  lemma {:induction false} GroupsRanked(members: Position -> seq<Doc<Player>>, k: nat)
    requires k <= |POSITIONS|
    ensures forall g :: g in GroupsFrom(members, k) ==> Rank(g.position) >= k
    decreases |POSITIONS| - k
  {
    if k < |POSITIONS| {
      GroupsRanked(members, k + 1);
      assert Rank(POSITIONS[k]) == k;
    }
  }

  /** One step of the map: the group of `POSITIONS[k]`, if any, goes in front of the later ones. */
  lemma GroupsStep(members: Position -> seq<Doc<Player>>, k: nat)
    requires k < |POSITIONS|
    ensures var rest := GroupsFrom(members, k + 1);
            var here := members(POSITIONS[k]);
            GroupsFrom(members, k) == if here == [] then rest else [Group(POSITIONS[k], here)] + rest
  {
  }

  /** Putting the group of `POSITIONS[k]`, if any, in front of the later groups keeps them ordered. */
  lemma OrderedStep(members: Position -> seq<Doc<Player>>, k: nat)
    requires k < |POSITIONS|
    requires Ordered(GroupsFrom(members, k + 1))
    ensures Ordered(GroupsFrom(members, k))
  {
    GroupsStep(members, k);
    var here := members(POSITIONS[k]);
    if here != [] {
      GroupsRanked(members, k + 1);
      RankAt(k);
      OrderedCons(Group(POSITIONS[k], here), GroupsFrom(members, k + 1));
    }
  }

  /** The groups follow the order of `POSITIONS`. */
  lemma {:induction false} GroupsOrdered(members: Position -> seq<Doc<Player>>, k: nat)
    requires k <= |POSITIONS|
    ensures Ordered(GroupsFrom(members, k))
    decreases |POSITIONS| - k
  {
    if k < |POSITIONS| {
      GroupsOrdered(members, k + 1);
      OrderedStep(members, k);
    }
  }

  /** No position with members is left out. */
  lemma {:induction false} GroupsComplete(members: Position -> seq<Doc<Player>>, k: nat)
    requires k <= |POSITIONS|
    ensures forall p :: Rank(p) >= k && members(p) != [] ==> Group(p, members(p)) in GroupsFrom(members, k)
    decreases |POSITIONS| - k
  {
    if k < |POSITIONS| {
      GroupsComplete(members, k + 1);
      forall q | Rank(q) >= k && members(q) != []
        ensures Group(q, members(q)) in GroupsFrom(members, k)
      {
        if Rank(q) == k {
          assert q == POSITIONS[k];
        }
      }
    }
  }

  /** There are groups exactly when there are players. */
  lemma GroupsEmptyIff(players: seq<Doc<Player>>)
    ensures GroupsFrom(p => Members(players, p), 0) == [] <==> players == []
  {
    var members := p => Members(players, p);
    var r := GroupsFrom(members, 0);
    GroupsExact(members, 0);
    GroupsComplete(members, 0);
    if players != [] {
      var p := players[0].rec.position;
      assert players[0] in Members(players, p);
      assert Group(p, members(p)) in r;
    }
    if r != [] {
      assert r[0] in r;
      assert r[0].players[0] in players;
    }
  }

  /** The rendered groups: each holds exactly its position's players, in the order received. */
  function Groups(players: seq<Doc<Player>>): (r: seq<Group>)
    ensures forall g :: g in r ==> g.players != [] && g.players == Members(players, g.position)
    ensures Ordered(r)
    ensures forall p :: Members(players, p) != [] ==> Group(p, Members(players, p)) in r
    ensures r == [] <==> players == []
  {
    var members := p => Members(players, p);
    GroupsExact(members, 0);
    GroupsOrdered(members, 0);
    GroupsComplete(members, 0);
    GroupsEmptyIff(players);
    GroupsFrom(members, 0)
  }

  /** A present position's group holds exactly its players, in the order received. */
  lemma GroupKeepsOrder(players: seq<Doc<Player>>, p: Position, i: nat, j: nat)
    requires i < j < |players| && players[i].rec.position == p && players[j].rec.position == p
    ensures exists g :: g in Groups(players) && g.position == p
    ensures var r := Members(players, p);
            var a := |Members(players[..i], p)|;
            var b := |Members(players[..j], p)|;
            a < b < |r| && r[a] == players[i] && r[b] == players[j]
  {
    FilterKeepsOrder(players, (d: Doc<Player>) => d.rec.position == p, i, j);
    assert players[i] in Members(players, p);
    assert Group(p, Members(players, p)) in Groups(players);
  }

  /** `{player.goals || 0}`: a falsy count is shown as 0, any other value as it is. */
  function OrZero(v: Value): (r: Value)
    ensures Truthy(v) ==> r == v
    ensures !Truthy(v) ==> r == Num(0)
    ensures r != Null && r != Str("")
  {
    if Truthy(v) then v else Num(0)
  }

  /** Stored counts are numbers, so `|| 0` never changes what a stored player shows. */
  lemma StoredCountsShownAsIs(p: Player)
    ensures OrZero(Num(p.goals)) == Num(p.goals)
    ensures OrZero(Num(p.assists)) == Num(p.assists)
  {
  }

  /** The "No players added yet" message: exactly when there are no groups either. */
  function ShowsEmptyRoster(players: seq<Doc<Player>>): (r: bool)
    ensures r <==> Groups(players) == []
  {
    players == []
  }
}
