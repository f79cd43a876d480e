/**
 A game in which the cost of a stolen flag drifts from its damage, and comes back to it
 (controlserver/scoring/algorithms/saarctf.py:44-52).

 Team 5 loses a flag of tick 1 to one team in tick 1, to another one in tick 2 and to two more
 in tick 3.  In the ticks 1 to 4, there are 2, 1, 4 and 2 active teams.
 */
module DamageExample {
  import opened Prelude
  import opened SubmittedFlags
  import opened Scoring
  import opened ScoringHistory
  import opened DefenceHistory
  import opened DamageHistory

  function One(): real -> real {
    x => 1.0
  }

  function GameSetup(): (setup: Setup)
    ensures SetupOk(setup)
  {
    Setup(Rules(1.0, 1.0, 1.0, One(), Plain(), None), [1, 2, 3, 4, 5], map[1 := 1.0])
  }

  const KEY := FlagKey(1, 5, 1, 0)

  /** The submission of the flag by a team. */
  function By(team: int, tick: int): Row {
    Row(team, team, 5, 1, 1, 0, tick)
  }

  const TABLE: set<Row> := {By(1, 1), By(2, 2), By(3, 3), By(4, 3)}

  /** The service works for these teams. */
  function Working(teams: set<int>): Results {
    map t | t in teams :: (t, 1) := SUCCESS
  }

  const RESULTS: seq<Results> := [Working({1, 5}), Working({1}), Working({1, 2, 3, 4}), Working({1, 2})]

  ghost function Game(): (c: Contest)
    ensures c.setup == GameSetup() && c.db == TABLE && c.results == RESULTS && |c.flags| == 4
    ensures ContestOk(c)
  {
    TableIsOk();
    GameIsOk(GameSetup(), 10, TABLE, map[], RESULTS);
    GameOf(GameSetup(), 10, TABLE, map[], RESULTS)
  }

  lemma TableIsOk()
    ensures ValidTable(TABLE)
    ensures forall r :: r in TABLE ==> Recent(r, 10) && Known(GameSetup(), r) && r.tick >= 1
  {
    GamePairs(GameSetup());
  }

  lemma GamePairs(setup: Setup)
    requires setup == GameSetup()
    ensures forall t, s :: (t, s) in PairsOf(setup) <==> 1 <= t <= 5 && s == 1
  {
    forall t, s ensures (t, s) in PairsOf(setup) <==> 1 <= t <= 5 && s == 1 {
      assert t in setup.teams <==> 1 <= t <= 5;
    }
  }

  // ----- Counts -----

  lemma ActiveIs(teams: set<int>)
    requires forall t :: t in teams ==> 1 <= t <= 5
    ensures ActiveTeams(Working(teams), PairsOf(GameSetup())) == teams
  {
    hide PairsOf;
    var pairs, results := PairsOf(GameSetup()), Working(teams);
    GamePairs(GameSetup());
    forall t | t in teams ensures t in ActiveTeams(results, pairs) {
      assert (t, 1) in pairs && results[(t, 1)] == SUCCESS;
      assert IsActive(results, (t, 1));
    }
    forall p | p in pairs && IsActive(results, p) ensures p.0 in teams {
      assert p in results;
    }
  }

  lemma ActiveCounts()
    ensures ActiveAt(Game(), 1) == 2 && ActiveAt(Game(), 2) == 1 && ActiveAt(Game(), 3) == 4 && ActiveAt(Game(), 4) == 2
  {
    hide ActiveTeams, PairsOf, Working, ContestOk, Game;
    ActiveIs({1, 5});
    ActiveIs({1});
    ActiveIs({1, 2, 3, 4});
    ActiveIs({1, 2});
  }

  lemma SubmissionCounts(c: Contest)
    requires c.db == TABLE
    ensures Count(c, KEY, 1) == 1 && Count(c, KEY, 2) == 2 && Count(c, KEY, 3) == 4
  {
    assert Submissions(TABLE, KEY, 1) == {By(1, 1)};
    assert Submissions(TABLE, KEY, 2) == {By(1, 1), By(2, 2)};
    assert Submissions(TABLE, KEY, 3) == TABLE;
    assert |{By(1, 1), By(2, 2)}| == 2;
  }

  // ----- Drift -----

  lemma SetupIsOrdinary()
    ensures Ordinary(GameSetup())
  {}

  lemma VictimHasSla()
    ensures SlaAt(Game(), KEY.service, KEY.issued, KEY.team) == 1.0
  {
    hide ActiveCount, ContestOk, Game, PairsOf;
    GamePairs(GameSetup());
    var results := Working({1, 5});
    assert RESULTS[0] == results && results[(5, 1)] == SUCCESS;
  }

  lemma GameIsStrict()
    ensures Strict(Game(), KEY)
  {
    hide Game, ContestOk, SlaAt, Ordinary, Increasing;
    SetupIsOrdinary();
    PlainIncreases();
    VictimHasSla();
  }

  /** After tick 2, in which fewer teams are active, the flag has cost less than its damage. */
  lemma CostDrifts()
    ensures var c := Game();
      && Strict(c, KEY) && OneWay(c, KEY, 2, true)
      && KeyLoss(c, KEY, 2) < Damage(c, KEY, Count(c, KEY, 2), ActiveAt(c, 2))
  {
    hide Game, ContestOk, Strict, KeyLoss, Damage, ActiveAt, Count;
    var c := Game();
    GameIsStrict();
    ActiveCounts();
    SubmissionCounts(c);
    assert OneWay(c, KEY, 2, true);
    GapHasSign(c, KEY, 2, true);
    assert !StillActive(c, KEY, 2) by { assert ActiveAt(c, 1) != ActiveAt(c, 2); }
  }

  // ----- And back -----

  lemma SharesOfGame()
    ensures Charged(Game(), KEY, 4) == [Share(1, 2), Share(2, 1), Share(4, 4)]
    ensures Become(Game(), KEY, 4) == [Share(1, 1), Share(2, 4), Share(4, 2)]
  {
    hide Game, ContestOk, Share, ActiveAt, Count;
    var c := Game();
    ActiveCounts();
    SubmissionCounts(c);
    assert Charged(c, KEY, 1) == [] && Become(c, KEY, 1) == [];
    assert Charged(c, KEY, 2) == [Share(1, 2)] && Become(c, KEY, 2) == [Share(1, 1)];
    assert Charged(c, KEY, 3) == [Share(1, 2), Share(2, 1)] && Become(c, KEY, 3) == [Share(1, 1), Share(2, 4)];
  }

  lemma SharesAreSame()
    ensures multiset([Share(1, 2), Share(2, 1), Share(4, 4)]) == multiset([Share(1, 1), Share(2, 4), Share(4, 2)])
  {
    assert Share(1, 2) == Share(2, 4) && Share(2, 1) == Share(4, 2) && Share(4, 4) == Share(1, 1);
  }

  /** After tick 4, the flag has cost exactly its damage, for every increasing power, although the number of active
      teams has gone down and up. */
  lemma ManyChangesCancel()
    ensures var c := Game();
      && ActiveAt(c, 1) == 2 && ActiveAt(c, 2) == 1 && ActiveAt(c, 3) == 4 && ActiveAt(c, 4) == 2
      && !StillActive(c, KEY, 4) && multiset(Charged(c, KEY, 4)) == multiset(Become(c, KEY, 4))
    ensures forall damage :: Increasing(damage) ==>
      ContestOk(WithDamage(Game(), damage)) && CostsItsDamage(WithDamage(Game(), damage), KEY, 4)
  {
    hide Game, ContestOk, Charged, Become, ActiveAt, Count, SlaAt, Increasing, CostsItsDamage, Share;
    var c := Game();
    ActiveCounts();
    SubmissionCounts(c);
    SharesOfGame();
    SharesAreSame();
    VictimHasSla();
    assert !StillActive(c, KEY, 4) by { assert Count(c, KEY, 2) > 0 && ActiveAt(c, 2) != ActiveAt(c, 4); }
    AlwaysCostsItsDamageIff(c, KEY, 4);
  }
}
