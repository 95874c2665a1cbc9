/** Team records and the registry that `team_view` fills lazily. */
module Teams {
  import opened JsonValues
  import Decimal

  /** `{'name': ..., 'score': ..., 'answers': {question index: answer}}`. */
  datatype Team = Team(name: string, score: int, answers: map<int, Json>)

  /** `f'Team {team_number}'` for a positive team number. */
  function TeamName(n: int): string
    requires n >= 1
  {
    "Team " + Decimal.NatToString(n)
  }

  /** Different team numbers get different display names. */
  lemma TeamNamesDistinct(a: int, b: int)
    requires a >= 1 && b >= 1 && a != b
    ensures TeamName(a) != TeamName(b)
  {
    var sa, sb := Decimal.NatToString(a), Decimal.NatToString(b);
    if TeamName(a) == TeamName(b) {
      assert sa == TeamName(a)[5..] == TeamName(b)[5..] == sb;
      Decimal.ParseNatToString(a);
      Decimal.ParseNatToString(b);
    }
  }

  /** The record `team_view` creates for a new team. */
  function NewTeam(n: int): (t: Team)
    requires n >= 1
    ensures t.score == 0 && t.answers == map[] && t.name == TeamName(n)
  {
    Team(TeamName(n), 0, map[])
  }

  /** `answers[question] = answer`: last write wins, nothing else changes. */
  function RecordAnswer(t: Team, question: int, answer: Json): (r: Team)
    ensures r.name == t.name && r.score == t.score
    ensures r.answers.Keys == t.answers.Keys + {question} && r.answers[question] == answer
    ensures forall q :: q in t.answers && q != question ==> r.answers[q] == t.answers[q]
  {
    t.(answers := t.answers[question := answer])
  }

  /** A second submission for the same question replaces the first. */
  lemma LastAnswerWins(t: Team, question: int, first: Json, second: Json)
    ensures RecordAnswer(RecordAnswer(t, question, first), question, second)
         == RecordAnswer(t, question, second)
  {
  }

  predicate Distinct(s: seq<int>)
  {
    forall i, j :: 0 <= i < j < |s| ==> s[i] != s[j]
  }

  /**
   * A Python dict of teams: `order` lists its keys once each, in insertion
   * order, which is the order `teams.items()` visits them.
   */
  ghost predicate Registry(order: seq<int>, teams: map<int, Team>)
  {
    Distinct(order) && forall k :: k in teams <==> k in order
  }

  lemma RegistryKeys(order: seq<int>, teams: map<int, Team>)
    requires Registry(order, teams)
    ensures forall i :: 0 <= i < |order| ==> order[i] in teams
  {
    forall i | 0 <= i < |order|
      ensures order[i] in teams
    {
      assert order[i] in order;
    }
  }

  /** A new team's name is "Team " followed by its number, which reads back from the text. */
  lemma TeamNameReadsBack(n: int)
    requires n >= 1
    ensures TeamName(n)[..5] == "Team " && Decimal.ParseDecimal(TeamName(n)[5..]) == n
  {
    assert TeamName(n)[5..] == Decimal.NatToString(n);
    Decimal.ParseNatToString(n);
  }
}
