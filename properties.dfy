/** Properties of sequences of handler calls, proved from the handlers' contracts alone. */
module GameProperties {
  import opened Wrappers
  import opened JsonValues
  import opened Questions
  import opened Teams
  import opened Scoring
  import opened Scoreboard
  import opened Game

  /**
   * Enable question `i` (a negative index counting from the end), let
   * `team` answer `x`, lock: the team gains the question's points exactly
   * when `x` is the correct label.
   */
  method EnableSubmitLock(g: GameState, i: int, team: int, x: Json) returns (a: Status, b: Status, c: Status)
    requires g.Valid() && InBounds(i, |g.questions|) && team in g.teams
    modifies g
    ensures g.Valid() && a == Ok && b == Ok && team in g.teams
    ensures var q := old(g.questions[PyIndex(i, |g.questions|)]);
            var amount := Credit(PointsOf(q));
            amount.Some? ==>
              && c == Ok
              && g.teams[team].score
                 == old(g.teams[team].score) + (if x == JString(CorrectLabel(q)) then amount.value else 0)
  {
    a := g.Enable(Some(i));
    b := g.Submit(team, x);
    c := g.Lock();
  }

  /** Locking the same question twice credits its points twice. */
  method LockTwice(g: GameState) returns (a: Status, b: Status)
    requires g.Valid() && g.current.Some? && InBounds(g.current.value, |g.questions|)
    requires Credit(PointsOf(g.questions[PyIndex(g.current.value, |g.questions|)])).Some?
    modifies g
    ensures g.Valid() && a == Ok && b == Ok && g.locked
    ensures g.current == old(g.current) && g.questions == old(g.questions) && g.correct == old(g.correct)
    ensures var amount := Credit(PointsOf(g.questions[PyIndex(g.current.value, |g.questions|)])).value;
            g.teams == Credited(old(g.teams), g.current.value, g.correct, 2 * amount)
  {
    a := g.Lock();
    b := g.Lock();
    var amount := Credit(PointsOf(g.questions[PyIndex(g.current.value, |g.questions|)])).value;
    CreditedTwice(old(g.teams), g.current.value, g.correct, amount);
  }

  /** The question of the scenario: "2+2?", options 3, 4, 5, 6, correct B, 100 points. */
  function ScenarioQuestion(): (q: Json)
    ensures Usable(q) && CorrectLabel(q) == "B" && PointsOf(q) == JNumber(100)
  {
    var answers := JObject(map["A" := JString("3"), "B" := JString("4"), "C" := JString("5"), "D" := JString("6")]);
    JObject(map["question" := JString("2+2?"), "answers" := answers, "correct" := JString("B"), "points" := JNumber(100)])
  }

  /** Two teams join and the scenario's question is enabled. */
  method ScenarioOpen() returns (g: GameState)
    ensures fresh(g) && g.Valid()
    ensures g.questions == [ScenarioQuestion()] && g.order == [1, 2]
    ensures g.current == Some(0) && g.enabled && !g.locked && g.correct == Some("B")
    ensures g.teams == map[1 := NewTeam(1), 2 := NewTeam(2)]
  {
    g := new GameState([ScenarioQuestion()]);
    var s := g.TeamView(1, 10);
    s := g.TeamView(2, 10);
    s := g.Enable(Some(0));
    var pub := g.PublicState();
    assert pub.Some? && pub.value.correctAnswer == None;
    var red := g.RedactedPublicState();
    assert red.Some? && red.value.correctAnswer == None && "correct" !in red.value.questionData.value.fields;
  }

  /** Team 1 answers B, team 2 answers C, an unknown team is refused, and the question is locked. */
  method ScenarioPlay(g: GameState)
    requires g.Valid()
    requires g.questions == [ScenarioQuestion()] && g.order == [1, 2]
    requires g.current == Some(0) && g.enabled && !g.locked && g.correct == Some("B")
    requires g.teams == map[1 := NewTeam(1), 2 := NewTeam(2)]
    modifies g
    ensures g.Valid() && g.order == [1, 2] && g.locked
    ensures g.teams.Keys == {1, 2} && g.teams[1].score == 100 && g.teams[2].score == 0
  {
    var s := g.Submit(1, JString("B"));
    s := g.Submit(2, JString("C"));
    s := g.Submit(3, JString("A"));
    assert s == Err("Invalid team");
    s := g.Lock();
    assert s == Ok;
    s := g.Submit(1, JString("C"));
    assert s == Err("Question not available");
  }

  /**
   * The two-team game: team 1 answers B, team 2 answers C, B is correct; after
   * the lock the scoreboard is team 1 with 100 then team 2 with 0, and a
   * reset brings every score back to 0.
   */
  method TwoTeamScenario()
  {
    var g := ScenarioOpen();
    ScenarioPlay(g);
    var board := g.GetScoreboard();
    ScenarioRanking(g.order, g.teams);
    assert board == [Entry(1, g.teams[1].name, 100), Entry(2, g.teams[2].name, 0)];
    g.Reset();
    board := g.GetScoreboard();
    assert board == [];
  }

  lemma ScenarioRanking(order: seq<int>, teams: map<int, Team>)
    requires order == [1, 2] && 1 in teams && 2 in teams
    requires teams[1].score == 100 && teams[2].score == 0
    ensures Ranking(Entries(order, teams))
         == [Entry(1, teams[1].name, 100), Entry(2, teams[2].name, 0)]
  {
    var first, second := Entry(1, teams[1].name, 100), Entry(2, teams[2].name, 0);
    assert Entries(order, teams) == [first, second];
    assert Ranking([second]) == [second];
  }
}
