/**
 * The quiz controller: the `game_state` record and the loaded question list,
 * with the handlers of the Flask application stripped of their HTTP layer.
 */
module Game {
  import opened Wrappers
  import opened JsonValues
  import opened Questions
  import opened Teams
  import opened Scoring
  import opened Scoreboard

  /** A handler's answer: success, a 400 error with its text, or an uncaught exception (500). */
  datatype Status = Ok | Err(message: string) | Fault

  /** Python's `xs[i]` succeeds for `-len(xs) <= i < len(xs)`. */
  predicate InBounds(i: int, len: nat)
  {
    -(len as int) <= i < len
  }

  /** The position `xs[i]` reads; negative indices count from the end. */
  function PyIndex(i: int, len: nat): (r: nat)
    requires InBounds(i, len)
    ensures r < len && (r == i || r == i + len)
  {
    if i < 0 then i + len else i
  }

  /** `get_game_state`: what teams see. */
  datatype PublicView = PublicView(
    currentQuestion: Option<int>,
    questionEnabled: bool,
    questionLocked: bool,
    questionData: Option<Json>,
    showCorrect: bool,
    correctAnswer: Option<string>)

  /** `get_admin_game_state`: everything, the answer included. */
  datatype AdminView = AdminView(
    currentQuestion: Option<int>,
    questionEnabled: bool,
    questionLocked: bool,
    teams: map<int, Team>,
    correctAnswer: Option<string>)

  /**
   * The loop of `lock_question` over `teams.items()`: adds `amount` to each
   * team whose answer for `question` matches; `raised` when `score += points`
   * raises, which happens at the first matching team if there is no amount.
   */
  method ScoringPass(keys: seq<int>, teams: map<int, Team>, question: int,
                     correct: Option<string>, amount: Option<int>)
    returns (scored: map<int, Team>, raised: bool)
    requires Registry(keys, teams)
    ensures amount.Some? ==> !raised && scored == Credited(teams, question, correct, amount.value)
    ensures amount.None? ==> scored == teams && raised == AnyMatch(teams, question, correct)
  {
    RegistryKeys(keys, teams);
    scored := teams;
    var i := 0;
    while i < |keys|
      invariant 0 <= i <= |keys|
      invariant scored.Keys == teams.Keys
      invariant forall k :: k in scored ==>
                  scored[k] == if k in keys[..i] && amount.Some?
                               then CreditTeam(teams[k], question, correct, amount.value) else teams[k]
      invariant amount.None? ==> forall j :: 0 <= j < i ==> !Matches(teams[keys[j]], question, correct)
    {
      var k := keys[i];
      assert k !in keys[..i];
      var t := scored[k];
      if Matches(t, question, correct) {
        if amount.None? {
          // no team has been credited before the TypeError
          assert forall k :: k in scored ==> scored[k] == teams[k];
          assert scored == teams;
          return scored, true;
        }
        scored := scored[k := t.(score := t.score + amount.value)];
      }
      assert keys[..i + 1] == keys[..i] + [k];
      i := i + 1;
    }
    assert keys[..i] == keys;
    if amount.None? {
      assert forall k :: k in scored ==> scored[k] == teams[k];
      assert scored == teams;
      assert !AnyMatch(teams, question, correct) by {
        forall k | k in teams
          ensures !Matches(teams[k], question, correct)
        {
          var j :| 0 <= j < |keys| && keys[j] == k;
        }
      }
    } else {
      forall k | k in scored
        ensures scored[k] == CreditTeam(teams[k], question, correct, amount.value)
      {
        assert k in keys[..i];
      }
      assert scored == Credited(teams, question, correct, amount.value);
    }
    raised := false;
  }

  class GameState {
    /** `game_state['current_question']`, as the index the admin sent. */
    var current: Option<int>
    /** `game_state['question_enabled']`. */
    var enabled: bool
    /** `game_state['question_locked']`. */
    var locked: bool
    /** `game_state['correct_answer']`, cached when a question is enabled. */
    var correct: Option<string>
    /** `game_state['teams']`. */
    var teams: map<int, Team>
    /** The keys of `teams` in insertion order. */
    var order: seq<int>
    /** `questions_data['questions']`. */
    var questions: seq<Json>

    ghost predicate Valid()
      reads this
    {
      && (current.Some? <==> enabled)
      && (locked ==> enabled)
      && (current.None? ==> correct.None?)
      && BankUsable(questions)
      && (current.Some? && InBounds(current.value, |questions|) ==>
            correct == Some(CorrectLabel(questions[PyIndex(current.value, |questions|)])))
      && Registry(order, teams)
    }

    /** The state at start-up, over the question file read then. */
    constructor (bank: seq<Json>)
      requires BankUsable(bank)
      ensures Valid()
      ensures current == None && !enabled && !locked && correct == None
      ensures teams == map[] && order == [] && questions == bank
    {
      current, enabled, locked, correct := None, false, false, None;
      teams, order := map[], [];
      questions := bank;
    }

    /** `team_view`: registers team `n` on its first visit. */
    method TeamView(n: int, maxTeams: int) returns (st: Status)
      requires Valid()
      modifies this
      ensures Valid()
      ensures current == old(current) && enabled == old(enabled) && locked == old(locked)
      ensures correct == old(correct) && questions == old(questions)
      ensures !(1 <= n <= maxTeams) ==>
                st == Err("Invalid team number") && teams == old(teams) && order == old(order)
      ensures 1 <= n <= maxTeams && n in old(teams) ==>
                st == Ok && teams == old(teams) && order == old(order)
      ensures 1 <= n <= maxTeams && n !in old(teams) ==>
                st == Ok && teams == old(teams)[n := NewTeam(n)] && order == old(order) + [n]
    {
      if n < 1 || n > maxTeams {
        return Err("Invalid team number");
      }
      if n !in teams {
        teams := teams[n := NewTeam(n)];
        order := order + [n];
      }
      return Ok;
    }

    /** `enable_question`: opens question `index` for answers. */
    method Enable(index: Option<int>) returns (st: Status)
      requires Valid()
      modifies this
      ensures Valid()
      ensures teams == old(teams) && order == old(order) && questions == old(questions)
      ensures index.None? || index.value >= |questions| ==>
                && st == Err("Invalid question index")
                && current == old(current) && enabled == old(enabled)
                && locked == old(locked) && correct == old(correct)
      ensures index.Some? && InBounds(index.value, |questions|) ==>
                && st == Ok && current == index && enabled && !locked
                && correct == Some(CorrectLabel(questions[PyIndex(index.value, |questions|)]))
      ensures index.Some? && index.value < -|questions| ==>
                st == Fault && current == index && enabled && !locked && correct == old(correct)
    {
      if index.None? || index.value >= |questions| {
        return Err("Invalid question index");
      }
      current := index;
      enabled := true;
      locked := false;
      if index.value < -|questions| {
        // questions_data['questions'][index] raises IndexError
        return Fault;
      }
      correct := Some(CorrectLabel(questions[PyIndex(index.value, |questions|)]));
      return Ok;
    }

    /**
     * `lock_question`: closes the current question and credits every team
     * whose recorded answer for it equals the cached correct answer.
     */
    method Lock() returns (st: Status)
      requires Valid()
      modifies this
      ensures Valid()
      ensures current == old(current) && enabled == old(enabled) && correct == old(correct)
      ensures order == old(order) && questions == old(questions)
      ensures current.None? ==>
                st == Err("No active question") && locked == old(locked) && teams == old(teams)
      ensures current.Some? ==> locked
      ensures current.Some? && !InBounds(current.value, |questions|) ==>
                st == Fault && teams == old(teams)
      ensures current.Some? && InBounds(current.value, |questions|) ==>
                var q := questions[PyIndex(current.value, |questions|)];
                var amount := Credit(PointsOf(q));
                && (amount.Some? ==>
                      st == Ok && teams == Credited(old(teams), current.value, correct, amount.value))
                && (amount.None? ==>
                      && teams == old(teams)
                      && st == if AnyMatch(old(teams), current.value, correct) then Fault else Ok)
    {
      if current.None? {
        return Err("No active question");
      }
      locked := true;
      var cq := current.value;
      if !InBounds(cq, |questions|) {
        // questions_data['questions'][current] raises IndexError
        return Fault;
      }
      var amount := Credit(PointsOf(questions[PyIndex(cq, |questions|)]));
      var scored, raised := ScoringPass(order, teams, cq, correct, amount);
      if raised {
        return Fault;
      }
      teams := scored;
      return Ok;
    }

    /** `reset_game`: back to idle with no teams. */
    method Reset()
      requires Valid()
      modifies this
      ensures Valid()
      ensures current == None && !enabled && !locked && correct == None
      ensures teams == map[] && order == [] && questions == old(questions)
    {
      current, enabled, locked, correct := None, false, false, None;
      teams, order := map[], [];
    }

    /** `submit_answer`: records `answer` as `team`'s answer to the open question. */
    method Submit(team: int, answer: Json) returns (st: Status)
      requires Valid()
      modifies this
      ensures Valid()
      ensures current == old(current) && enabled == old(enabled) && locked == old(locked)
      ensures correct == old(correct) && order == old(order) && questions == old(questions)
      ensures !enabled || locked ==> st == Err("Question not available") && teams == old(teams)
      ensures enabled && !locked && team !in old(teams) ==> st == Err("Invalid team") && teams == old(teams)
      ensures enabled && !locked && team in old(teams) ==>
                && st == Ok
                && teams == old(teams)[team := RecordAnswer(old(teams)[team], current.value, answer)]
    {
      if !enabled || locked {
        return Err("Question not available");
      }
      if team !in teams {
        return Err("Invalid team");
      }
      teams := teams[team := RecordAnswer(teams[team], current.value, answer)];
      return Ok;
    }

    /**
     * `upload_questions` after decoding: validates `doc` and, when it passes,
     * replaces the questions and returns to idle; teams and scores are kept.
     */
    method Upload(doc: Json) returns (st: Status)
      requires Valid()
      modifies this
      ensures Valid()
      ensures teams == old(teams) && order == old(order)
      ensures WellFormedUpload(doc) ==>
                && st == Ok && questions == doc.fields["questions"].items
                && current == None && !enabled && !locked && correct == None
      ensures !WellFormedUpload(doc) ==>
                && st != Ok && questions == old(questions)
                && current == old(current) && enabled == old(enabled)
                && locked == old(locked) && correct == old(correct)
      ensures UploadVerdict(doc).Rejected? ==> st == Err(Message(UploadVerdict(doc).error))
      ensures UploadVerdict(doc).Faulted? ==> st == Fault
    {
      UploadAcceptedIff(doc);
      var verdict := ValidateUpload(doc);
      match verdict
      case Accepted(qs) =>
        AcceptedBankUsable(doc);
        questions := qs;
        current, enabled, locked, correct := None, false, false, None;
        st := Ok;
      case Rejected(e) =>
        st := Err(Message(e));
      case Faulted =>
        st := Fault;
    }

    /** `get_game_state`; `None` when reading the current question raises IndexError. */
    function PublicState(): (r: Option<PublicView>)
      reads this
      requires Valid()
      ensures r.None? <==> current.Some? && !InBounds(current.value, |questions|)
      ensures r.Some? ==>
                && r.value.currentQuestion == current
                && r.value.questionEnabled == enabled
                && r.value.questionLocked == locked
                && r.value.showCorrect == locked
      ensures r.Some? ==> (r.value.questionData.Some? <==> enabled)
      ensures r.Some? && current.Some? ==>
                r.value.questionData == Some(questions[PyIndex(current.value, |questions|)])
      ensures r.Some? ==> (r.value.correctAnswer.Some? <==> locked)
      ensures r.Some? && locked ==>
                r.value.correctAnswer == Some(CorrectLabel(questions[PyIndex(current.value, |questions|)]))
    {
      if current.Some? && !InBounds(current.value, |questions|) then None
      else
        var data := if current.Some? then Some(questions[PyIndex(current.value, |questions|)]) else None;
        Some(PublicView(current, enabled, locked, data, locked, if locked then correct else None))
    }

    /**
     * The team view with the question's `correct` key withheld until the
     * question is locked, which is what `show_correct` and `correct_answer`
     * are there for.
     */
    function RedactedPublicState(): (r: Option<PublicView>)
      reads this
      requires Valid()
      ensures r.None? <==> PublicState().None?
      ensures locked ==> r == PublicState()
      ensures r.Some? ==>
                && r.value.currentQuestion == current
                && r.value.questionEnabled == enabled
                && r.value.questionLocked == locked
                && r.value.showCorrect == locked
                && r.value.correctAnswer == PublicState().value.correctAnswer
                && (r.value.questionData.Some? <==> enabled)
      ensures r.Some? && !locked && r.value.questionData.Some? ==>
                var q := questions[PyIndex(current.value, |questions|)];
                && r.value.questionData.value.JObject?
                && "correct" !in r.value.questionData.value.fields
                && r.value.questionData.value.fields.Keys == q.fields.Keys - {"correct"}
                && (forall k :: k in q.fields && k != "correct" ==>
                      k in r.value.questionData.value.fields && r.value.questionData.value.fields[k] == q.fields[k])
    {
      var p := PublicState();
      if p.None? || locked || p.value.questionData.None? then p
      else
        var q := p.value.questionData.value;
        Some(p.value.(questionData := Some(JObject(q.fields - {"correct"}))))
    }

    /** `get_admin_game_state`. */
    function AdminState(): (r: AdminView)
      reads this
      requires Valid()
      ensures r.currentQuestion == current && r.questionEnabled == enabled && r.questionLocked == locked
      ensures r.teams == teams && r.correctAnswer == correct
      ensures current.Some? && InBounds(current.value, |questions|) ==>
                r.correctAnswer == Some(CorrectLabel(questions[PyIndex(current.value, |questions|)]))
    {
      AdminView(current, enabled, locked, teams, correct)
    }

    /** `get_scoreboard`: every team once, highest score first, ties in registration order. */
    function GetScoreboard(): (r: seq<Entry>)
      reads this
      requires Valid()
      ensures forall i :: 0 <= i < |order| ==> order[i] in teams
      ensures multiset(r) == multiset(Entries(order, teams))
      ensures SortedByScore(r)
      ensures forall v :: WithScore(r, v) == WithScore(Entries(order, teams), v)
    {
      RegistryKeys(order, teams);
      var entries := Entries(order, teams);
      RankingSorted(entries);
      RankingStableAll(entries);
      Ranking(entries)
    }
  }

  /**
   * While a question is open, the `correct_answer` field of the team view is
   * empty and the admin view has the answer.
   */
  lemma OpenQuestionHidden(g: GameState)
    requires g.Valid() && g.enabled && !g.locked && InBounds(g.current.value, |g.questions|)
    ensures g.PublicState().Some? && g.PublicState().value.correctAnswer == None
    ensures g.AdminState().correctAnswer.Some?
  {
  }

  /**
   * The team view's `question_data` is the whole question, `correct` key
   * included, so every poll carries the answer while the question is open.
   */
  lemma QuestionDataLeaksAnswer(g: GameState)
    requires g.Valid() && g.enabled && !g.locked && InBounds(g.current.value, |g.questions|)
    ensures var p := g.PublicState();
            && p.Some? && p.value.questionData.Some? && p.value.questionData.value.JObject?
            && "correct" in p.value.questionData.value.fields
            && p.value.questionData.value.fields["correct"] == JString(g.correct.value)
            && p.value.correctAnswer == None
  {
    var q := g.questions[PyIndex(g.current.value, |g.questions|)];
    assert Usable(q);
  }

  /**
   * In the redacted team view nothing carries the answer while the question
   * is open, and the admin view still has it.
   */
  lemma RedactedHidesAnswer(g: GameState)
    requires g.Valid() && g.enabled && !g.locked && InBounds(g.current.value, |g.questions|)
    ensures var r := g.RedactedPublicState();
            && r.Some? && r.value.correctAnswer == None
            && r.value.questionData.Some? && r.value.questionData.value.JObject?
            && "correct" !in r.value.questionData.value.fields
    ensures g.AdminState().correctAnswer == g.correct && g.correct.Some?
  {
  }
}
