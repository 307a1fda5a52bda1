/** The draw-without-replacement cycle of the in-memory team picker, on values.
    Two ordered pools of team names are kept: `teams`, the teams not yet drawn in
    the current cycle, and `selected`, the teams already drawn. A draw first
    refills an exhausted pool from the drawn teams, then removes the team at the
    chosen index and appends it to the drawn teams. */
module PickRound {

  datatype Option<+T> = None | Some(value: T)

  /** The picker's whole state. */
  datatype Pools = Pools(teams: seq<string>, selected: seq<string>)

  /** What one draw answers (the drawn team, if any) and the state it leaves. */
  datatype Outcome = Outcome(drawn: Option<string>, pools: Pools)

  /** A sequence of draws: the teams drawn, in order, and the final state. */
  datatype Trace = Trace(drawn: seq<string>, last: Pools)

  /** The static roster the service starts with. */
  const Roster: seq<string> := ["Team A", "Team B", "Team C", "Team D"]

  /** The state at startup: every team is still to be drawn. */
  function Initial(): (p: Pools)
    ensures p.teams == Roster && p.selected == []
  {
    Pools(Roster, [])
  }

  /** Every element occurs at most once. */
  ghost predicate Distinct(s: seq<string>)
  {
    forall x :: multiset(s)[x] <= 1
  }

  ghost predicate Disjoint(a: seq<string>, b: seq<string>)
  {
    forall x :: x in a ==> x !in b
  }

  /** The two pools together hold exactly the roster, each team once. */
  ghost predicate Partition(p: Pools)
  {
    multiset(p.teams + p.selected) == multiset(Roster)
  }

  /** The cycle reset done before a draw when no team is left to draw. */
  function Refill(p: Pools): (r: Pools)
    ensures r.teams == [] <==> p.teams + p.selected == []
    ensures p.teams != [] ==> r == p
    ensures p.teams == [] ==> r.teams == p.selected && r.selected == []
  {
    if p.teams == [] then Pools(p.selected, []) else p
  }

  /** The indices a draw may use: one in range of the refilled pool, or 0 when
      there is nothing at all to draw (the random index is then always 0). */
  predicate IndexOk(p: Pools, i: nat)
  {
    i < |Refill(p).teams| || (Refill(p).teams == [] && i == 0)
  }

  /** The indices that draw a team. */
  predicate DrawsTeam(p: Pools, i: nat)
  {
    i < |Refill(p).teams|
  }

  /** Removing the element at index i keeps the multiset of the rest. */
  lemma RemoveAt(s: seq<string>, i: nat)
    requires i < |s|
    ensures multiset(s[..i] + s[i+1..]) + multiset{s[i]} == multiset(s)
  {
    assert s == s[..i] + [s[i]] + s[i+1..];
  }

  /** One draw with the random index i. */
  function Step(p: Pools, i: nat): (r: Outcome)
    requires IndexOk(p, i)
    ensures r.drawn.None? <==> p.teams + p.selected == []
    ensures r.drawn.None? ==> r.pools == p
  {
    var q := Refill(p);
    if q.teams == [] then Outcome(None, p)
    else
      Outcome(Some(q.teams[i]), Pools(q.teams[..i] + q.teams[i+1..], q.selected + [q.teams[i]]))
  }

  /** A draw moves one team between the pools: together they keep the same teams. */
  lemma StepConserves(p: Pools, i: nat)
    requires IndexOk(p, i)
    ensures var r := Step(p, i);
      multiset(r.pools.teams + r.pools.selected) == multiset(p.teams + p.selected)
      && (r.drawn.Some? ==> r.drawn.value in p.teams + p.selected)
  {
    var q := Refill(p);
    assert q.teams + q.selected == p.teams + p.selected;
    if q.teams != [] {
      var t, sel := q.teams, q.selected;
      var rest := t[..i] + t[i+1..];
      RemoveAt(t, i);
      assert Step(p, i).pools == Pools(rest, sel + [t[i]]);
      assert multiset(rest + (sel + [t[i]])) == multiset(rest) + multiset(sel) + multiset{t[i]};
      assert multiset(t + sel) == multiset(t) + multiset(sel);
    }
  }

  /** A draw from a non-empty pool takes the element at the index, keeps the
      others in their order and appends the drawn team to the drawn teams. */
  lemma StepWithinCycle(p: Pools, i: nat)
    requires p.teams != [] && i < |p.teams|
    ensures IndexOk(p, i)
    ensures Step(p, i).drawn == Some(p.teams[i])
    ensures Step(p, i).pools.teams == p.teams[..i] + p.teams[i+1..]
    ensures Step(p, i).pools.selected == p.selected + [p.teams[i]]
    ensures |Step(p, i).pools.teams| == |p.teams| - 1
    ensures |Step(p, i).pools.selected| == |p.selected| + 1
  {
  }

  /** A draw from an exhausted pool first moves the drawn teams back, so the
      draw is made from them and leaves exactly one drawn team. */
  lemma StepRefills(p: Pools, i: nat)
    requires p.teams == [] && i < |p.selected|
    ensures IndexOk(p, i)
    ensures Step(p, i).drawn == Some(p.selected[i])
    ensures Step(p, i).pools.teams == p.selected[..i] + p.selected[i+1..]
    ensures Step(p, i).pools.selected == [p.selected[i]]
    ensures |Step(p, i).pools.teams| == |p.selected| - 1
  {
  }

  lemma DistinctSplit(a: seq<string>, b: seq<string>)
    ensures Distinct(a + b) <==> Distinct(a) && Distinct(b) && Disjoint(a, b)
  {
    assert forall x :: multiset(a + b)[x] == multiset(a)[x] + multiset(b)[x];
    if Distinct(a + b) {
      forall x | x in a ensures x !in b {
        assert multiset(a)[x] >= 1;
      }
    }
    if Distinct(a) && Distinct(b) && Disjoint(a, b) {
      forall x ensures multiset(a + b)[x] <= 1 {
        if x in a {
          assert x !in b;
        }
      }
    }
  }

  /** Duplicate-free, disjoint pools stay duplicate-free and disjoint. */
  lemma StepKeepsDistinct(p: Pools, i: nat)
    requires IndexOk(p, i)
    requires Distinct(p.teams) && Distinct(p.selected) && Disjoint(p.teams, p.selected)
    ensures var q := Step(p, i).pools;
      Distinct(q.teams) && Distinct(q.selected) && Disjoint(q.teams, q.selected)
  {
    var q := Step(p, i).pools;
    StepConserves(p, i);
    DistinctSplit(p.teams, p.selected);
    DistinctSplit(q.teams, q.selected);
  }

  /** The four startup names are pairwise different. */
  lemma RosterDistinct()
    ensures Distinct(Roster)
  {
  }

  /** In a state that partitions the roster, the pools are duplicate-free and
      disjoint, and a draw always has a team to draw. */
  lemma PartitionProperties(p: Pools)
    requires Partition(p)
    ensures Distinct(p.teams) && Distinct(p.selected) && Disjoint(p.teams, p.selected)
    ensures Refill(p).teams != []
    ensures IndexOk(p, 0) && Step(p, 0).drawn.Some?
  {
    RosterDistinct();
    DistinctSplit(p.teams, p.selected);
    PartitionNeverEmpty(p);
  }

  /** A state that partitions the roster always has a team to draw. */
  lemma PartitionNeverEmpty(p: Pools)
    requires Partition(p)
    ensures p.teams + p.selected != []
  {
    assert "Team A" in multiset(p.teams + p.selected);
  }

  /** Draws that each draw a team, one index per draw, in order. */
  predicate RunOk(p: Pools, idxs: seq<nat>)
    decreases |idxs|, 0
  {
    idxs == [] ||
    (RunOk(p, idxs[..|idxs| - 1]) && DrawsTeam(Run(p, idxs[..|idxs| - 1]).last, idxs[|idxs| - 1]))
  }

  /** The teams drawn by a sequence of draws and the state they leave. */
  function Run(p: Pools, idxs: seq<nat>): (t: Trace)
    requires RunOk(p, idxs)
    ensures |t.drawn| == |idxs|
    decreases |idxs|, 1
  {
    if idxs == [] then Trace([], p)
    else
      var t := Run(p, idxs[..|idxs| - 1]);
      var o := Step(t.last, idxs[|idxs| - 1]);
      Trace(t.drawn + [o.drawn.value], o.pools)
  }

  /** Within one cycle, k draws move k teams from the pool to the end of the
      drawn teams, in the order they were drawn. */
  lemma {:induction false} RunWithinCycle(p: Pools, idxs: seq<nat>)
    requires RunOk(p, idxs) && |idxs| <= |p.teams|
    ensures |Run(p, idxs).last.teams| == |p.teams| - |idxs|
    ensures Run(p, idxs).last.selected == p.selected + Run(p, idxs).drawn
    ensures multiset(Run(p, idxs).last.teams) + multiset(Run(p, idxs).drawn) == multiset(p.teams)
    decreases |idxs|
  {
    if idxs != [] {
      var pre := idxs[..|idxs| - 1];
      var i := idxs[|idxs| - 1];
      var t := Run(p, pre);
      var u := Run(p, idxs);
      RunWithinCycle(p, pre);
      assert u == Trace(t.drawn + [Step(t.last, i).drawn.value], Step(t.last, i).pools);
      StepWithinCycle(t.last, i);
      var d := t.last.teams[i];
      RemoveAt(t.last.teams, i);
      assert multiset(u.drawn) == multiset(t.drawn) + multiset{d};
    }
  }

  /** Every state a sequence of draws reaches from startup partitions the roster. */
  lemma {:induction false} RunKeepsPartition(idxs: seq<nat>)
    requires RunOk(Initial(), idxs)
    ensures Partition(Run(Initial(), idxs).last)
    decreases |idxs|
  {
    if idxs != [] {
      var pre := idxs[..|idxs| - 1];
      RunKeepsPartition(pre);
      StepConserves(Run(Initial(), pre).last, idxs[|idxs| - 1]);
    }
  }

  /** From startup, four draws return each of the four teams exactly once and
      exhaust the pool. */
  lemma FourDraws(idxs: seq<nat>)
    requires |idxs| == 4 && RunOk(Initial(), idxs)
    ensures multiset(Run(Initial(), idxs).drawn) == multiset(Roster)
    ensures Distinct(Run(Initial(), idxs).drawn)
    ensures Run(Initial(), idxs).last.teams == []
    ensures Run(Initial(), idxs).last.selected == Run(Initial(), idxs).drawn
  {
    RunWithinCycle(Initial(), idxs);
    RosterDistinct();
  }

  /** A refill draw from duplicate-free drawn teams returns one of them and
      leaves exactly the others to draw. */
  lemma RefillDraw(p: Pools, i: nat)
    requires p.teams == [] && i < |p.selected| && Distinct(p.selected)
    ensures Step(p, i).drawn == Some(p.selected[i])
    ensures Step(p, i).pools.selected == [p.selected[i]]
    ensures multiset(Step(p, i).pools.teams) + multiset{p.selected[i]} == multiset(p.selected)
    ensures p.selected[i] !in Step(p, i).pools.teams
  {
    StepRefills(p, i);
    RemoveAt(p.selected, i);
    var r := p.selected[..i] + p.selected[i+1..];
    assert multiset(r)[p.selected[i]] + 1 == multiset(p.selected)[p.selected[i]];
  }

  /** One draw more than a full cycle, from a fresh cycle over duplicate-free
      teams, starts a new cycle: the last draw returns one of the teams and
      leaves exactly the others in the pool. */
  lemma NewCycleDraw(p: Pools, idxs: seq<nat>)
    requires p.selected == [] && Distinct(p.teams)
    requires |idxs| == |p.teams| + 1 && RunOk(p, idxs)
    ensures var u := Run(p, idxs); var d := u.drawn[|p.teams|];
      d in p.teams && u.last.selected == [d] && |u.last.teams| == |p.teams| - 1
      && multiset(u.last.teams) + multiset{d} == multiset(p.teams) && d !in u.last.teams
  {
    var n := |p.teams|;
    var pre := idxs[..n];
    var i := idxs[n];
    assert idxs[..|idxs| - 1] == pre;
    var t := Run(p, pre);
    assert DrawsTeam(t.last, i);
    RunWithinCycle(p, pre);
    assert t.last.selected == t.drawn;
    assert multiset(t.last.selected) == multiset(p.teams);
    assert Distinct(t.last.selected);
    RefillDraw(t.last, i);
    var u := Run(p, idxs);
    assert u == Trace(t.drawn + [Step(t.last, i).drawn.value], Step(t.last, i).pools);
    assert t.last.selected[i] in multiset(p.teams);
  }

  /** From startup, a fifth draw starts a new cycle: it returns one of the four
      teams and leaves the other three in the pool. */
  lemma FifthDraw(idxs: seq<nat>)
    requires |idxs| == 5 && RunOk(Initial(), idxs)
    ensures Run(Initial(), idxs).drawn[4] in Roster
    ensures Run(Initial(), idxs).last.selected == [Run(Initial(), idxs).drawn[4]]
    ensures |Run(Initial(), idxs).last.teams| == 3
    ensures multiset(Run(Initial(), idxs).last.teams) + multiset{Run(Initial(), idxs).drawn[4]} == multiset(Roster)
    ensures Run(Initial(), idxs).drawn[4] !in Run(Initial(), idxs).last.teams
  {
    RosterDistinct();
    NewCycleDraw(Initial(), idxs);
  }
}
