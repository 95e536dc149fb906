/**
 * The scoring pass of submitTest (neetMockTest/script.js, lines 190-224):
 * each recorded response is compared with the answer key, classified as
 * unattempted, correct or wrong, wrong answers are logged, and the score is
 * 4 * correct - wrong.
 */
module Scoring {
  import opened Wrappers
  import opened Config
  import TimeFormat
  import Find

  /** One record of the global ANSWER_KEY table: question number (1-based) and option. */
  datatype KeyEntry = KeyEntry(q: int, ans: string)

  /** One wrongLog record: question number, the user's option, the key's option or "N/A". */
  datatype WrongEntry = WrongEntry(q: nat, user: string, correct: string)

  /** The four counters the loop accumulates. */
  datatype Tally = Tally(correct: nat, wrong: nat, unattempted: nat, wrongLog: seq<WrongEntry>)

  /** window.testResultData. */
  datatype Summary = Summary(score: int, correct: nat, wrong: nat, unattempted: nat, time: string, wrongLog: seq<WrongEntry>)

  datatype Verdict = Unattempted | Correct | Wrong

  /**
   * correctAns: the option of the first key entry for question q
   * (ANSWER_KEY.find(k => k.q === q)), or none when ANSWER_KEY is undefined or
   * has no entry for q.
   */
  function CorrectAnswer(answerKey: Option<seq<KeyEntry>>, q: int): (r: Option<string>)
    ensures r.None? <==> answerKey.None? || forall k :: 0 <= k < |answerKey.value| ==> answerKey.value[k].q != q
    ensures r.Some? ==> (exists j :: 0 <= j < |answerKey.value| && answerKey.value[j] == KeyEntry(q, r.value)
                                     && forall k :: 0 <= k < j ==> answerKey.value[k].q != q)
  {
    match answerKey
    case None => None
    case Some(key) =>
      var keyItem := Find.FindFirst(key, (e: KeyEntry) => e.q == q);
      if keyItem.Some? then Some(keyItem.value.ans) else None
  }

  /** `correctAns || 'N/A'`: a missing answer and an empty string are both falsy in JavaScript. */
  function Shown(correctAns: Option<string>): (s: string)
    ensures s == "N/A" <==> correctAns.None? || correctAns.value == "" || correctAns.value == "N/A"
    ensures correctAns.Some? && correctAns.value != "" ==> s == correctAns.value
  {
    match correctAns
    case Some(a) => if a == "" then "N/A" else a
    case None => "N/A"
  }

  function Classify(userAns: Option<string>, correctAns: Option<string>): (v: Verdict)
    ensures v == Unattempted <==> userAns.None?
    ensures v == Correct <==> userAns.Some? && userAns == correctAns
    ensures v == Wrong <==> userAns.Some? && userAns != correctAns
  {
    if userAns.None? then Unattempted
    else if userAns == correctAns then Correct
    else Wrong
  }

  /** One iteration of the loop, for slot i holding userAns. */
  function Step(t: Tally, i: nat, userAns: Option<string>, answerKey: Option<seq<KeyEntry>>): (r: Tally)
    ensures r.correct + r.wrong + r.unattempted == t.correct + t.wrong + t.unattempted + 1
    ensures t.wrongLog <= r.wrongLog && |r.wrongLog| - |t.wrongLog| == r.wrong - t.wrong
  {
    var correctAns := CorrectAnswer(answerKey, i + 1);
    match Classify(userAns, correctAns)
    case Unattempted => t.(unattempted := t.unattempted + 1)
    case Correct => t.(correct := t.correct + 1)
    case Wrong => t.(wrong := t.wrong + 1, wrongLog := t.wrongLog + [WrongEntry(i + 1, userAns.value, Shown(correctAns))])
  }

  /** The counters after the loop has visited every slot of rs, in index order. */
  function TallyOf(rs: seq<Option<string>>, answerKey: Option<seq<KeyEntry>>): (t: Tally)
    ensures t.correct + t.wrong + t.unattempted == |rs|
    ensures |t.wrongLog| == t.wrong
    decreases |rs|
  {
    if rs == [] then Tally(0, 0, 0, [])
    else Step(TallyOf(rs[..|rs| - 1], answerKey), |rs| - 1, rs[|rs| - 1], answerKey)
  }

  /** 4 * correct - wrong, which lies between minus the number of slots and 4 times it. */
  function TotalScore(t: Tally): (score: int)
    ensures -(t.correct + t.wrong + t.unattempted) <= score <= MARKS_CORRECT * (t.correct + t.wrong + t.unattempted)
    ensures score == MARKS_CORRECT * (t.correct + t.wrong + t.unattempted) <==> t.wrong == 0 && t.unattempted == 0
  {
    MARKS_CORRECT * t.correct - PENALTY_WRONG * t.wrong
  }

  /** The result record built from the responses, the key and the elapsed time. */
  function Summarize(rs: seq<Option<string>>, answerKey: Option<seq<KeyEntry>>, elapsedSeconds: nat): (data: Summary)
    ensures data.correct + data.wrong + data.unattempted == |rs|
    ensures data.score == 4 * data.correct - data.wrong && -|rs| <= data.score <= MARKS_CORRECT * |rs|
    ensures |data.wrongLog| == data.wrong
    ensures data.time == TimeFormat.FormatTime(elapsedSeconds)
  {
    var t := TallyOf(rs, answerKey);
    Summary(TotalScore(t), t.correct, t.wrong, t.unattempted, TimeFormat.FormatTime(elapsedSeconds), t.wrongLog)
  }

  /** The wrong log the loop builds over rs. */
  function WrongLog(rs: seq<Option<string>>, answerKey: Option<seq<KeyEntry>>): seq<WrongEntry> {
    TallyOf(rs, answerKey).wrongLog
  }

  /** Slot i holds a wrong answer. */
  predicate IsWrong(rs: seq<Option<string>>, answerKey: Option<seq<KeyEntry>>, i: nat)
    requires i < |rs|
  {
    rs[i].Some? && rs[i] != CorrectAnswer(answerKey, i + 1)
  }

  /** The slots of rs whose verdict is v. */
  function ClassSlots(rs: seq<Option<string>>, answerKey: Option<seq<KeyEntry>>, v: Verdict): set<nat> {
    set i: nat | i < |rs| && Classify(rs[i], CorrectAnswer(answerKey, i + 1)) == v
  }

  /** Adding the last slot adds it to its own class only. */
  lemma ClassSlotsSnoc(rs: seq<Option<string>>, answerKey: Option<seq<KeyEntry>>, v: Verdict)
    requires rs != []
    ensures var n := |rs| - 1;
      n !in ClassSlots(rs[..n], answerKey, v)
      && ClassSlots(rs, answerKey, v)
         == ClassSlots(rs[..n], answerKey, v) + if Classify(rs[n], CorrectAnswer(answerKey, n + 1)) == v then {n} else {}
  {
  }

  /** The counter of t that verdict v increments. */
  function Count(t: Tally, v: Verdict): nat {
    match v
    case Correct => t.correct
    case Wrong => t.wrong
    case Unattempted => t.unattempted
  }

  /** One step increments exactly the counter of the slot's verdict. */
  lemma StepCount(t: Tally, i: nat, userAns: Option<string>, answerKey: Option<seq<KeyEntry>>, v: Verdict)
    ensures Count(Step(t, i, userAns, answerKey), v)
         == Count(t, v) + if Classify(userAns, CorrectAnswer(answerKey, i + 1)) == v then 1 else 0
  {
  }

  /** The counter for verdict v is the number of slots whose verdict is v. */
  lemma {:induction false} CountIsClassSize(rs: seq<Option<string>>, answerKey: Option<seq<KeyEntry>>, v: Verdict)
    ensures Count(TallyOf(rs, answerKey), v) == |ClassSlots(rs, answerKey, v)|
    decreases |rs|
  {
    if rs == [] {
      assert ClassSlots(rs, answerKey, v) == {};
    } else {
      var n := |rs| - 1;
      CountIsClassSize(rs[..n], answerKey, v);
      ClassSlotsSnoc(rs, answerKey, v);
      StepCount(TallyOf(rs[..n], answerKey), n, rs[n], answerKey, v);
    }
  }

  /**
   * Each counter counts its own class: correct is the number of slots whose
   * answer equals the key, unattempted the number of null slots, wrong the rest.
   */
  lemma TallyCountsClasses(rs: seq<Option<string>>, answerKey: Option<seq<KeyEntry>>)
    ensures TallyOf(rs, answerKey).correct == |ClassSlots(rs, answerKey, Correct)|
    ensures TallyOf(rs, answerKey).unattempted == |ClassSlots(rs, answerKey, Unattempted)|
    ensures TallyOf(rs, answerKey).wrong == |ClassSlots(rs, answerKey, Wrong)|
  {
    CountIsClassSize(rs, answerKey, Correct);
    CountIsClassSize(rs, answerKey, Unattempted);
    CountIsClassSize(rs, answerKey, Wrong);
  }

  /** The score lies between -|rs| (all wrong) and 4 * |rs| (all correct). */
  lemma ScoreBounds(rs: seq<Option<string>>, answerKey: Option<seq<KeyEntry>>)
    ensures -|rs| <= TotalScore(TallyOf(rs, answerKey)) <= MARKS_CORRECT * |rs|
  {
  }

  /** Entry e of the log describes a wrong slot of rs, with the user's answer and the shown key answer. */
  predicate DescribesWrongSlot(rs: seq<Option<string>>, answerKey: Option<seq<KeyEntry>>, e: WrongEntry) {
    1 <= e.q <= |rs| && IsWrong(rs, answerKey, e.q - 1)
    && rs[e.q - 1] == Some(e.user)
    && e.correct == Shown(CorrectAnswer(answerKey, e.q))
  }

  /** Every line of the wrong log describes a wrong slot. */
  lemma {:induction false} WrongLogSound(rs: seq<Option<string>>, answerKey: Option<seq<KeyEntry>>)
    ensures forall k :: 0 <= k < |WrongLog(rs, answerKey)| ==> DescribesWrongSlot(rs, answerKey, WrongLog(rs, answerKey)[k])
    decreases |rs|
  {
    if rs != [] {
      var n := |rs| - 1;
      var pre := rs[..n];
      WrongLogSound(pre, answerKey);
      var old_log := WrongLog(pre, answerKey);
      forall k | 0 <= k < |old_log|
        ensures DescribesWrongSlot(rs, answerKey, old_log[k])
      {
        assert DescribesWrongSlot(pre, answerKey, old_log[k]);
        assert rs[old_log[k].q - 1] == pre[old_log[k].q - 1];
      }
    }
  }

  /** The wrong log is in strictly increasing question order. */
  lemma {:induction false} WrongLogSorted(rs: seq<Option<string>>, answerKey: Option<seq<KeyEntry>>)
    ensures forall k :: 0 <= k < |WrongLog(rs, answerKey)| ==> 1 <= WrongLog(rs, answerKey)[k].q <= |rs|
    ensures forall k1, k2 :: 0 <= k1 < k2 < |WrongLog(rs, answerKey)| ==> WrongLog(rs, answerKey)[k1].q < WrongLog(rs, answerKey)[k2].q
    decreases |rs|
  {
    if rs != [] {
      var pre := rs[..|rs| - 1];
      WrongLogSorted(pre, answerKey);
      var old_log, log := WrongLog(pre, answerKey), WrongLog(rs, answerKey);
      assert log == old_log || (|log| == |old_log| + 1 && log[..|old_log|] == old_log && log[|old_log|].q == |rs|);
    }
  }

  /** Every wrong slot appears in the wrong log. */
  lemma {:induction false} WrongLogComplete(rs: seq<Option<string>>, answerKey: Option<seq<KeyEntry>>)
    ensures forall i :: 0 <= i < |rs| && IsWrong(rs, answerKey, i) ==>
      exists k :: 0 <= k < |WrongLog(rs, answerKey)| && WrongLog(rs, answerKey)[k].q == i + 1
    decreases |rs|
  {
    if rs != [] {
      var n := |rs| - 1;
      var pre := rs[..n];
      WrongLogComplete(pre, answerKey);
      var old_log := WrongLog(pre, answerKey);
      var log := WrongLog(rs, answerKey);
      assert old_log <= log;
      forall i | 0 <= i < |rs| && IsWrong(rs, answerKey, i)
        ensures exists k :: 0 <= k < |log| && log[k].q == i + 1
      {
        if i < n {
          assert IsWrong(pre, answerKey, i);
          var k :| 0 <= k < |old_log| && old_log[k].q == i + 1;
          assert log[k] == old_log[k];
        } else {
          assert log[|log| - 1].q == i + 1;
        }
      }
    }
  }

  /**
   * The wrong log lists exactly the wrong slots: a slot is wrong if and only if
   * its question number appears in the log.
   */
  lemma WrongLogExact(rs: seq<Option<string>>, answerKey: Option<seq<KeyEntry>>, i: nat)
    requires i < |rs|
    ensures IsWrong(rs, answerKey, i) <==> exists k :: 0 <= k < |WrongLog(rs, answerKey)| && WrongLog(rs, answerKey)[k].q == i + 1
  {
    WrongLogSound(rs, answerKey);
    WrongLogComplete(rs, answerKey);
    var log := WrongLog(rs, answerKey);
    forall k | 0 <= k < |log| && log[k].q == i + 1
      ensures IsWrong(rs, answerKey, i)
    {
      assert DescribesWrongSlot(rs, answerKey, log[k]);
    }
  }

  /** A non-null answer to a question with no key entry is logged as wrong, against "N/A". */
  lemma UnkeyedAnswerIsWrong(rs: seq<Option<string>>, answerKey: Option<seq<KeyEntry>>, i: nat)
    requires i < |rs| && rs[i].Some? && CorrectAnswer(answerKey, i + 1).None?
    ensures exists k :: 0 <= k < |WrongLog(rs, answerKey)| && WrongLog(rs, answerKey)[k] == WrongEntry(i + 1, rs[i].value, "N/A")
  {
    WrongLogSound(rs, answerKey);
    WrongLogComplete(rs, answerKey);
    var log := WrongLog(rs, answerKey);
    assert IsWrong(rs, answerKey, i);
    var k :| 0 <= k < |log| && log[k].q == i + 1;
    assert DescribesWrongSlot(rs, answerKey, log[k]);
  }

  /** Without an ANSWER_KEY, nothing is correct: every answer is logged as wrong. */
  lemma {:induction false} NoKeyNothingCorrect(rs: seq<Option<string>>)
    ensures TallyOf(rs, None).correct == 0
    decreases |rs|
  {
    if rs != [] {
      NoKeyNothingCorrect(rs[..|rs| - 1]);
    }
  }

  /** Three questions keyed A, B, C answered A, C and blank: one of each class, score 3. */
  lemma ScoringExample()
    ensures var t := TallyOf([Some("A"), Some("C"), None], Some([KeyEntry(1, "A"), KeyEntry(2, "B"), KeyEntry(3, "C")]));
      t == Tally(1, 1, 1, [WrongEntry(2, "C", "B")]) && TotalScore(t) == 3
  {
    var key := Some([KeyEntry(1, "A"), KeyEntry(2, "B"), KeyEntry(3, "C")]);
    var rs: seq<Option<string>> := [Some("A"), Some("C"), None];
    assert CorrectAnswer(key, 1) == Some("A");
    assert CorrectAnswer(key, 2) == Some("B");
    assert rs[..2][..1] == rs[..1] && rs[..1][..0] == [];
    assert TallyOf(rs[..1], key) == Tally(1, 0, 0, []);
    assert TallyOf(rs[..2], key) == Tally(1, 1, 0, [WrongEntry(2, "C", "B")]);
  }

  /** Extending the visited prefix by one slot is one Step. */
  lemma TallyOfPrefix(rs: seq<Option<string>>, answerKey: Option<seq<KeyEntry>>, i: nat)
    requires i < |rs|
    ensures TallyOf(rs[..i + 1], answerKey) == Step(TallyOf(rs[..i], answerKey), i, rs[i], answerKey)
  {
    assert rs[..i + 1][..i] == rs[..i];
  }

  /**
   * The scoring loop of submitTest over the 180-slot response array.
   * timeTakenSeconds is supplied by the caller.
   */
  method ScoreResponses(userResponses: array<Option<string>>, answerKey: Option<seq<KeyEntry>>, timeTakenSeconds: nat)
    returns (data: Summary)
    requires userResponses.Length == TOTAL_QUESTIONS
    ensures data == Summarize(userResponses[..], answerKey, timeTakenSeconds)
    ensures data.correct + data.wrong + data.unattempted == TOTAL_QUESTIONS
    ensures data.score == 4 * data.correct - data.wrong
    ensures -(TOTAL_QUESTIONS as int) <= data.score <= MAX_SCORE
    ensures |data.wrongLog| == data.wrong
    ensures data.time == TimeFormat.FormatTime(timeTakenSeconds)
  {
    var correct, wrong, unattempted := 0, 0, 0;
    var wrongLog: seq<WrongEntry> := [];
    for i := 0 to TOTAL_QUESTIONS
      invariant Tally(correct, wrong, unattempted, wrongLog) == TallyOf(userResponses[..i], answerKey)
    {
      var userAns := userResponses[i];
      var correctAns := CorrectAnswer(answerKey, i + 1);
      TallyOfPrefix(userResponses[..], answerKey, i);
      assert userResponses[..][..i] == userResponses[..i] && userResponses[..][..i + 1] == userResponses[..i + 1];
      if userAns.None? {
        unattempted := unattempted + 1;
      } else if userAns == correctAns {
        correct := correct + 1;
      } else {
        wrong := wrong + 1;
        wrongLog := wrongLog + [WrongEntry(i + 1, userAns.value, Shown(correctAns))];
      }
    }
    assert userResponses[..TOTAL_QUESTIONS] == userResponses[..];
    var totalScore := correct * 4 - wrong * 1;
    ScoreBounds(userResponses[..], answerKey);
    data := Summary(totalScore, correct, wrong, unattempted, TimeFormat.FormatTime(timeTakenSeconds), wrongLog);
  }
}
