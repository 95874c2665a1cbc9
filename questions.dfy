/**
 * The question bank and the validation `upload_questions` performs on an
 * uploaded, already-decoded JSON document before it replaces the bank.
 */
module Questions {
  import opened Wrappers
  import opened JsonValues
  import Decimal

  /** The keys every question must have, in the order they are checked. */
  const REQUIRED_KEYS: seq<string> := ["question", "answers", "correct", "points"]

  /** The answer labels every question must offer. */
  const OPTION_LABELS: seq<string> := ["A", "B", "C", "D"]

  /** Points credited when a question carries no `points` key. */
  const DEFAULT_POINTS := 100

  /**
   * What the handlers need of every question in the bank: a dict whose
   * `correct` entry is a string (read by `enable_question`).
   */
  predicate Usable(q: Json)
  {
    q.JObject? && "correct" in q.fields && q.fields["correct"].JString?
  }

  predicate BankUsable(bank: seq<Json>)
  {
    forall j :: 0 <= j < |bank| ==> Usable(bank[j])
  }

  /** `q['correct']`. */
  function CorrectLabel(q: Json): string
    requires Usable(q)
  {
    q.fields["correct"].s
  }

  /** `q.get('points', 100)`. */
  function PointsOf(q: Json): (p: Json)
    requires q.JObject?
    ensures "points" !in q.fields ==> p == JNumber(DEFAULT_POINTS)
    ensures "points" in q.fields ==> p == q.fields["points"]
  {
    if "points" in q.fields then q.fields["points"] else JNumber(DEFAULT_POINTS)
  }

  /** Outcome of scanning a value for a list of keys with Python's `in`. */
  datatype KeyScan = AllPresent | Missing(key: string) | ScanFault

  /**
   * `for key in keys: if key not in q: ...` : the first key `q` lacks, or a
   * fault when `in` raises on `q`.
   */
  function ScanKeys(q: Json, keys: seq<string>): (r: KeyScan)
    ensures r == ScanFault <==> |keys| > 0 && PyIn(keys[0], q).None?
    ensures r == AllPresent <==> forall m :: 0 <= m < |keys| ==> PyIn(keys[m], q) == Some(true)
    ensures r.Missing? ==> exists m :: 0 <= m < |keys| && keys[m] == r.key && PyIn(keys[m], q) == Some(false)
                                       && forall m' :: 0 <= m' < m ==> PyIn(keys[m'], q) == Some(true)
  {
    if keys == [] then AllPresent
    else match PyIn(keys[0], q)
      case None => ScanFault
      case Some(false) => Missing(keys[0])
      case Some(true) =>
        var rest := ScanKeys(q, keys[1..]);
        assert forall m :: 1 <= m < |keys| ==> keys[m] == keys[1..][m - 1];
        if rest.Missing? then
          var m :| 0 <= m < |keys[1..]| && keys[1..][m] == rest.key && PyIn(keys[1..][m], q) == Some(false)
                   && forall m' :: 0 <= m' < m ==> PyIn(keys[1..][m'], q) == Some(true);
          assert keys[m + 1] == rest.key && PyIn(keys[m + 1], q) == Some(false);
          rest
        else
          rest
  }

  /** A verdict on one uploaded question. */
  datatype EntryVerdict =
    | EntryOk
    | EntryMissingKey(key: string)
    | EntryMissingOptions
    | EntryBadCorrect
    | EntryFault

  /** All of A, B, C, D are `in` the answers, or a fault when `in` raises. */
  function OptionsPresent(answers: Json): (r: Option<bool>)
    ensures r.None? <==> PyIn("A", answers).None?
    ensures r == Some(true) <==> forall m :: 0 <= m < 4 ==> PyIn(OPTION_LABELS[m], answers) == Some(true)
  {
    match ScanKeys(answers, OPTION_LABELS)
    case AllPresent => Some(true)
    case Missing(_) => Some(false)
    case ScanFault => None
  }

  /** A dict that passed the key scan has each of the four keys. */
  lemma RequiredKeysPresent(q: Json)
    requires q.JObject? && ScanKeys(q, REQUIRED_KEYS) == AllPresent
    ensures "question" in q.fields && "answers" in q.fields
    ensures "correct" in q.fields && "points" in q.fields
  {
    assert PyIn(REQUIRED_KEYS[0], q) == Some(true);
    assert PyIn(REQUIRED_KEYS[1], q) == Some(true);
    assert PyIn(REQUIRED_KEYS[2], q) == Some(true);
    assert PyIn(REQUIRED_KEYS[3], q) == Some(true);
  }

  /** The checks of one question, in the order the source makes them. */
  function CheckEntry(q: Json): EntryVerdict
  {
    match ScanKeys(q, REQUIRED_KEYS)
    case ScanFault => EntryFault
    case Missing(k) => EntryMissingKey(k)
    case AllPresent =>
      if !q.JObject? then EntryFault
      else
        RequiredKeysPresent(q);
        match OptionsPresent(q.fields["answers"])
        case None => EntryFault
        case Some(false) => EntryMissingOptions
        case Some(true) =>
          if q.fields["correct"] in [JString("A"), JString("B"), JString("C"), JString("D")]
          then EntryOk else EntryBadCorrect
  }

  /** A question passes exactly when it is a dict with all four keys, answers A to D and a correct label. */
  lemma EntryOkIff(q: Json)
    ensures CheckEntry(q) == EntryOk <==>
              && q.JObject?
              && "question" in q.fields && "answers" in q.fields
              && "correct" in q.fields && "points" in q.fields
              && OptionsPresent(q.fields["answers"]) == Some(true)
              && q.fields["correct"].JString?
              && q.fields["correct"].s in OPTION_LABELS
  {
    if q.JObject? && "question" in q.fields && "answers" in q.fields && "correct" in q.fields && "points" in q.fields {
      forall m | 0 <= m < 4
        ensures PyIn(REQUIRED_KEYS[m], q) == Some(true)
      {
        assert m == 0 || m == 1 || m == 2 || m == 3;
      }
    }
    if CheckEntry(q) == EntryOk {
      RequiredKeysPresent(q);
    }
  }

  lemma EntryOkUsable(q: Json)
    requires CheckEntry(q) == EntryOk
    ensures Usable(q) && CorrectLabel(q) in OPTION_LABELS && "points" in q.fields
  {
    EntryOkIff(q);
  }

  /** The first index at or after `from` whose question does not pass. */
  function FirstFailure(qs: seq<Json>, from: nat): (r: Option<nat>)
    requires from <= |qs|
    decreases |qs| - from
    ensures r.None? ==> forall j :: from <= j < |qs| ==> CheckEntry(qs[j]) == EntryOk
    ensures r.Some? ==> from <= r.value < |qs| && CheckEntry(qs[r.value]) != EntryOk
                        && forall j :: from <= j < r.value ==> CheckEntry(qs[j]) == EntryOk
  {
    if from == |qs| then None
    else if CheckEntry(qs[from]) != EntryOk then Some(from)
    else FirstFailure(qs, from + 1)
  }

  /** The errors `upload_questions` reports with status 400. */
  datatype UploadError =
    | MissingQuestions
    | QuestionsNotArray
    | MissingRequiredKey(number: nat, key: string)
    | MissingOptions(number: nat)
    | InvalidCorrect(number: nat)

  /** Outcome of validation; `Faulted` is an exception caught as status 500. */
  datatype Verdict = Accepted(questions: seq<Json>) | Rejected(error: UploadError) | Faulted

  /** The error for question number `number` (1-based) given its verdict. */
  function EntryError(v: EntryVerdict, number: nat): Verdict
    requires v != EntryOk
  {
    match v
    case EntryFault => Faulted
    case EntryMissingKey(k) => Rejected(MissingRequiredKey(number, k))
    case EntryMissingOptions => Rejected(MissingOptions(number))
    case EntryBadCorrect => Rejected(InvalidCorrect(number))
  }

  /** The verdict the validation part of `upload_questions` reaches on `doc`. */
  function UploadVerdict(doc: Json): Verdict
  {
    match PyIn("questions", doc)
    case None => Faulted
    case Some(false) => Rejected(MissingQuestions)
    case Some(true) =>
      if !doc.JObject? then Faulted
      else if !doc.fields["questions"].JArray? then Rejected(QuestionsNotArray)
      else
        var qs := doc.fields["questions"].items;
        match FirstFailure(qs, 0)
        case None => Accepted(qs)
        case Some(j) => EntryError(CheckEntry(qs[j]), j + 1)
  }

  /** A missing key is reported only when every key before it in REQUIRED_KEYS is present. */
  lemma MissingKeyIsFirst(q: Json)
    requires CheckEntry(q).EntryMissingKey?
    ensures exists m :: 0 <= m < 4 && REQUIRED_KEYS[m] == CheckEntry(q).key
                        && PyIn(REQUIRED_KEYS[m], q) == Some(false)
                        && forall m' :: 0 <= m' < m ==> PyIn(REQUIRED_KEYS[m'], q) == Some(true)
  {
  }

  /** The document has a `questions` list and every entry of it passes. */
  predicate WellFormedUpload(doc: Json)
  {
    && doc.JObject? && "questions" in doc.fields && doc.fields["questions"].JArray?
    && forall j :: 0 <= j < |doc.fields["questions"].items| ==> CheckEntry(doc.fields["questions"].items[j]) == EntryOk
  }

  /** All or nothing: an upload is accepted exactly when every check passes, and then it is the uploaded list. */
  lemma UploadAcceptedIff(doc: Json)
    ensures UploadVerdict(doc).Accepted? <==> WellFormedUpload(doc)
    ensures UploadVerdict(doc).Accepted? ==> UploadVerdict(doc).questions == doc.fields["questions"].items
  {
  }

  /** Every question of an accepted upload is usable by the handlers. */
  lemma AcceptedBankUsable(doc: Json)
    requires UploadVerdict(doc).Accepted?
    ensures BankUsable(UploadVerdict(doc).questions)
  {
    var qs := UploadVerdict(doc).questions;
    forall j | 0 <= j < |qs|
      ensures Usable(qs[j])
    {
      EntryOkUsable(qs[j]);
    }
  }

  predicate PerQuestion(e: UploadError)
  {
    e.MissingRequiredKey? || e.MissingOptions? || e.InvalidCorrect?
  }

  /**
   * A per-question error names the first failing question, counted from 1,
   * and says what its own checks found.
   */
  lemma UploadNamesFirstFailure(doc: Json)
    requires UploadVerdict(doc).Rejected? && PerQuestion(UploadVerdict(doc).error)
    ensures doc.JObject? && "questions" in doc.fields && doc.fields["questions"].JArray?
    ensures var qs := doc.fields["questions"].items;
            var n := UploadVerdict(doc).error.number;
            && 1 <= n <= |qs|
            && (forall j :: 0 <= j < n - 1 ==> CheckEntry(qs[j]) == EntryOk)
            && CheckEntry(qs[n - 1]) != EntryOk
            && EntryError(CheckEntry(qs[n - 1]), n) == UploadVerdict(doc)
  {
  }

  /**
   * The early-return loop of `upload_questions`: the top-level checks, then
   * for each question its required keys, its options and its correct label.
   */
  method ValidateUpload(doc: Json) returns (v: Verdict)
    ensures v == UploadVerdict(doc)
  {
    var hasQuestions := PyIn("questions", doc);
    if hasQuestions.None? {
      return Faulted;
    }
    if !hasQuestions.value {
      return Rejected(MissingQuestions);
    }
    if !doc.JObject? {
      return Faulted;
    }
    var list := doc.fields["questions"];
    if !list.JArray? {
      return Rejected(QuestionsNotArray);
    }
    var qs := list.items;
    var i := 0;
    while i < |qs|
      invariant 0 <= i <= |qs|
      invariant forall j :: 0 <= j < i ==> CheckEntry(qs[j]) == EntryOk
    {
      var verdict := ValidateQuestion(qs[i]);
      if verdict != EntryOk {
        FirstFailureAt(qs, i);
        return EntryError(verdict, i + 1);
      }
      i := i + 1;
    }
    return Accepted(qs);
  }

  /** The body of the loop over questions: required keys, then options, then the correct label. */
  method ValidateQuestion(q: Json) returns (v: EntryVerdict)
    ensures v == CheckEntry(q)
  {
    var k := 0;
    while k < |REQUIRED_KEYS|
      invariant 0 <= k <= |REQUIRED_KEYS|
      invariant forall m :: 0 <= m < k ==> PyIn(REQUIRED_KEYS[m], q) == Some(true)
    {
      var present := PyIn(REQUIRED_KEYS[k], q);
      if present.None? {
        return EntryFault;
      }
      if !present.value {
        return EntryMissingKey(REQUIRED_KEYS[k]);
      }
      k := k + 1;
    }
    if !q.JObject? {
      return EntryFault;
    }
    RequiredKeysPresent(q);
    var options := OptionsPresent(q.fields["answers"]);
    if options.None? {
      return EntryFault;
    }
    if !options.value {
      return EntryMissingOptions;
    }
    if q.fields["correct"] !in [JString("A"), JString("B"), JString("C"), JString("D")] {
      return EntryBadCorrect;
    }
    return EntryOk;
  }

  /** When the questions before `i` pass and question `i` does not, `i` is the first failure. */
  lemma FirstFailureAt(qs: seq<Json>, i: nat)
    requires i < |qs| && CheckEntry(qs[i]) != EntryOk
    requires forall j :: 0 <= j < i ==> CheckEntry(qs[j]) == EntryOk
    ensures FirstFailure(qs, 0) == Some(i)
  {
  }

  /** The text of each 400 error. */
  function Message(e: UploadError): string
  {
    match e
    case MissingQuestions => "Invalid format: missing \"questions\" key"
    case QuestionsNotArray => "Invalid format: \"questions\" must be an array"
    case MissingRequiredKey(n, k) => "Question " + Decimal.NatToString(n) + " missing required key: " + k
    case MissingOptions(n) => "Question " + Decimal.NatToString(n) + " must have answers A, B, C, D"
    case InvalidCorrect(n) => "Question " + Decimal.NatToString(n) + " has invalid correct answer"
  }

  /**
   * Every question of an accepted upload carries its own `points`, so the
   * default of 100 only applies to questions read at start-up.
   */
  lemma AcceptedPointsExplicit(doc: Json)
    requires UploadVerdict(doc).Accepted?
    ensures var qs := UploadVerdict(doc).questions;
            forall j :: 0 <= j < |qs| ==>
              qs[j].JObject? && "points" in qs[j].fields && PointsOf(qs[j]) == qs[j].fields["points"]
  {
    var qs := UploadVerdict(doc).questions;
    forall j | 0 <= j < |qs|
      ensures qs[j].JObject? && "points" in qs[j].fields
    {
      EntryOkUsable(qs[j]);
    }
  }

  /**
   * A question makes the handler raise exactly when `in` raises on it, when
   * it is a list or string that passes the key checks (indexing it by a key
   * raises), or when `in` raises on its `answers`.
   */
  lemma CheckEntryFault(q: Json)
    ensures CheckEntry(q) == EntryFault <==>
              || !(q.JObject? || q.JArray? || q.JString?)
              || (!q.JObject? && ScanKeys(q, REQUIRED_KEYS) == AllPresent)
              || (&& q.JObject? && ScanKeys(q, REQUIRED_KEYS) == AllPresent && "answers" in q.fields
                  && PyIn("A", q.fields["answers"]).None?)
  {
    if q.JObject? && ScanKeys(q, REQUIRED_KEYS) == AllPresent {
      RequiredKeysPresent(q);
    }
  }

  /** The checks on the whole document, before any question is looked at. */
  lemma UploadTopLevelErrors(doc: Json)
    ensures UploadVerdict(doc) == Rejected(MissingQuestions) <==> PyIn("questions", doc) == Some(false)
    ensures UploadVerdict(doc) == Rejected(QuestionsNotArray) <==>
              doc.JObject? && "questions" in doc.fields && !doc.fields["questions"].JArray?
    ensures !(doc.JObject? || doc.JArray? || doc.JString?) ==> UploadVerdict(doc) == Faulted
    ensures !doc.JObject? && PyIn("questions", doc) == Some(true) ==> UploadVerdict(doc) == Faulted
  {
  }

  /**
   * A per-question message starts with "Question ", then the question's
   * number, which reads back from the text, then a space; a missing-key
   * message ends with the key.
   */
  lemma MessageNumber(e: UploadError)
    requires PerQuestion(e)
    ensures var d := Decimal.NatToString(e.number);
            var m := Message(e);
            && |m| > 9 + |d|
            && m[..9 + |d|] == "Question " + d
            && Decimal.ParseDecimal(m[9..9 + |d|]) == e.number
            && m[9 + |d|] == ' '
    ensures e.MissingRequiredKey? ==> Message(e)[|Message(e)| - |e.key|..] == e.key
  {
    var d := Decimal.NatToString(e.number);
    Decimal.ParseNatToString(e.number);
    var m := Message(e);
    assert m[9..9 + |d|] == d;
  }

  /**
   * Python's `in` on a string is a substring test, so an `answers` value that
   * is a string holding the letters A to D passes the options check.
   */
  lemma AnswersAsString()
    ensures OptionsPresent(JString("ABCD")) == Some(true)
    ensures OptionsPresent(JString("ABC")) == Some(false)
    ensures OptionsPresent(JNumber(4)) == None
  {
    var s := "ABCD";
    assert IsSubstring("A", s);
    assert IsSubstring("B", s[1..]);
    assert IsSubstring("C", s[1..][1..]);
    assert IsSubstring("D", s[1..][1..][1..]);
    var t := "ABC";
    assert t[1..] == "BC" && t[1..][1..] == "C" && t[1..][1..][1..] == "";
    assert !IsSubstring("D", "");
    assert !("D" <= "C") && !IsSubstring("D", "C");
    assert !("D" <= "BC") && !IsSubstring("D", "BC");
    assert !("D" <= t) && !IsSubstring("D", t);
    assert PyIn(OPTION_LABELS[3], JString(t)) == Some(false);
  }
}
