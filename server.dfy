/** The service's process-wide picker state and its two request handlers. */
module Server {
  import opened PickRound

  /** The two module-level pools of the service, updated in place by each draw. */
  class TeamPicker {
    var teams: seq<string>
    var selectedTeams: seq<string>

    ghost function State(): Pools
      reads this
    {
      Pools(teams, selectedTeams)
    }

    /** The pools partition the roster (true of every state the service reaches). */
    ghost predicate Valid()
      reads this
    {
      Partition(State())
    }

    /** Startup: all four teams are to be drawn and none has been drawn. */
    constructor ()
      ensures State() == Initial() && Valid()
    {
      teams := Roster;
      selectedTeams := [];
    }

    /** The draw handler, with the random index given as i. It answers the drawn
        team (None when there is no team at all) and the teams left to draw. */
    method Draw(i: nat) returns (selectedTeam: Option<string>, remainingTeams: seq<string>)
      requires IndexOk(State(), i)
      modifies this
      ensures Outcome(selectedTeam, State()) == Step(old(State()), i)
      ensures remainingTeams == teams
      ensures old(teams) != [] ==>
                selectedTeam == Some(old(teams)[i])
                && teams == old(teams)[..i] + old(teams)[i+1..]
                && selectedTeams == old(selectedTeams) + [old(teams)[i]]
      ensures old(teams) == [] && old(selectedTeams) != [] ==>
                selectedTeam == Some(old(selectedTeams)[i])
                && teams == old(selectedTeams)[..i] + old(selectedTeams)[i+1..]
                && selectedTeams == [old(selectedTeams)[i]]
      ensures old(teams) == [] && old(selectedTeams) == [] ==> selectedTeam == None && unchanged(this)
      ensures multiset(teams + selectedTeams) == old(multiset(teams + selectedTeams))
      ensures old(Valid()) ==> Valid() && selectedTeam.Some?
    {
      ghost var before := State();
      if teams == [] {
        teams := selectedTeams;
        selectedTeams := [];
      }
      assert State() == Refill(before);
      if teams == [] {
        selectedTeam := None;
      } else {
        var team := teams[i];
        teams := teams[..i] + teams[i+1..];
        selectedTeams := selectedTeams + [team];
        selectedTeam := Some(team);
      }
      assert Outcome(selectedTeam, State()) == Step(before, i);
      StepConserves(before, i);
      if old(Valid()) {
        PartitionNeverEmpty(before);
      }
      remainingTeams := teams;
    }

    /** The read-only view: the teams still to draw and the teams drawn. */
    method Snapshot() returns (activeTeams: seq<string>, selected: seq<string>)
      ensures activeTeams == teams && selected == selectedTeams
    {
      activeTeams := teams;
      selected := selectedTeams;
    }
  }
}
