/** The credit `lock_question` gives each team for the current question. */
module Scoring {
  import opened Wrappers
  import opened JsonValues
  import opened Teams

  /** Python's `answer == correct_answer`, `None` being the absent correct answer. */
  predicate SameAnswer(answer: Json, correct: Option<string>)
  {
    match correct
    case None => answer == JNull
    case Some(text) => answer == JString(text)
  }

  /** The team has an answer recorded for `question` and it equals `correct`. */
  predicate Matches(t: Team, question: int, correct: Option<string>)
  {
    question in t.answers && SameAnswer(t.answers[question], correct)
  }

  /**
   * The amount `score += points` adds: an integer as it is, a boolean as 1
   * or 0 (Python's `bool` is an `int`); anything else raises `TypeError`.
   */
  function Credit(points: Json): (r: Option<int>)
    ensures points.JNumber? ==> r == Some(points.n)
    ensures points.JBool? ==> r == Some(if points.b then 1 else 0)
    ensures r.None? <==> !(points.JNumber? || points.JBool?)
  {
    match points
    case JNumber(n) => Some(n)
    case JBool(b) => Some(if b then 1 else 0)
    case _ => None
  }

  function CreditTeam(t: Team, question: int, correct: Option<string>, amount: int): Team
  {
    if Matches(t, question, correct) then t.(score := t.score + amount) else t
  }

  /** Every team after one scoring pass over `teams`. */
  function Credited(teams: map<int, Team>, question: int, correct: Option<string>, amount: int): (r: map<int, Team>)
    ensures r.Keys == teams.Keys
    ensures forall k :: k in teams ==>
              && r[k].name == teams[k].name
              && r[k].answers == teams[k].answers
              && r[k].score == teams[k].score + (if Matches(teams[k], question, correct) then amount else 0)
  {
    map k | k in teams :: CreditTeam(teams[k], question, correct, amount)
  }

  /** With non-negative points no score goes down, and only matching teams gain. */
  lemma CreditedMonotone(teams: map<int, Team>, question: int, correct: Option<string>, amount: int)
    requires amount >= 0
    ensures forall k :: k in teams ==> Credited(teams, question, correct, amount)[k].score >= teams[k].score
    ensures forall k :: k in teams && !Matches(teams[k], question, correct) ==>
              Credited(teams, question, correct, amount)[k] == teams[k]
  {
  }

  /** Nothing guards against locking twice: the second pass credits the same teams again. */
  lemma CreditedTwice(teams: map<int, Team>, question: int, correct: Option<string>, amount: int)
    ensures Credited(Credited(teams, question, correct, amount), question, correct, amount)
         == Credited(teams, question, correct, 2 * amount)
  {
    var once := Credited(teams, question, correct, amount);
    var twice := Credited(once, question, correct, amount);
    var double := Credited(teams, question, correct, 2 * amount);
    forall k | k in teams
      ensures twice[k] == double[k]
    {
      assert Matches(once[k], question, correct) == Matches(teams[k], question, correct);
    }
  }

  /** Some registered team answered `question` with `correct`. */
  predicate AnyMatch(teams: map<int, Team>, question: int, correct: Option<string>)
  {
    exists k :: k in teams && Matches(teams[k], question, correct)
  }

  /** After a team submits `answer` for `question`, whether it scores depends only on that answer. */
  lemma MatchesAfterSubmit(t: Team, question: int, answer: Json, correct: Option<string>)
    ensures Matches(RecordAnswer(t, question, answer), question, correct) <==> SameAnswer(answer, correct)
  {
  }

  /**
   * At most one answer value equals the cached correct answer; a label never
   * equals an absent one.
   */
  lemma SameAnswerUnique(a: Json, b: Json, correct: Option<string>, text: string)
    ensures SameAnswer(a, correct) && SameAnswer(b, correct) ==> a == b
    ensures !SameAnswer(JString(text), None)
  {
  }
}
