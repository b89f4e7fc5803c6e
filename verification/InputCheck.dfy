/** InputState.Validate as it is written: three loops that fill maps and one shared set of sequence numbers,
    proved to accept exactly the valid logs (internal/autonomous/state.go:1032-1163). */
module InputCheck {
  import opened Base
  import opened InputLog
  import InputMeaning

  // --------------------------------------------------------- sequence numbers

  /** Adding `ns` one by one to the numbers already `used` meets no refusal. */
  predicate Admits(used: set<int>, ns: seq<int>, total: int)
  {
    |ns| == 0
    || (&& Admits(used, ns[..|ns| - 1], total)
        && 1 <= ns[|ns| - 1] <= total && ns[|ns| - 1] !in used && ns[|ns| - 1] !in ns[..|ns| - 1])
  }

  lemma AdmitsSnoc(used: set<int>, ns: seq<int>, n: int, total: int)
    ensures Admits(used, ns + [n], total) <==> Admits(used, ns, total) && 1 <= n <= total && n !in used && n !in ns
  {
    assert (ns + [n])[..|ns|] == ns;
  }

  lemma {:induction false} AdmitsPrefix(used: set<int>, ns: seq<int>, k: nat, total: int)
    requires Admits(used, ns, total) && k <= |ns|
    ensures Admits(used, ns[..k], total)
    decreases |ns|
  {
    if k == |ns| {
      assert ns[..k] == ns;
    } else {
      AdmitsPrefix(used, ns[..|ns| - 1], k, total);
      assert ns[..|ns| - 1][..k] == ns[..k];
    }
  }

  function Elements(ns: seq<int>): set<int>
  {
    set n | n in ns
  }

  lemma {:induction false} AdmitsConcat(used: set<int>, a: seq<int>, b: seq<int>, total: int)
    ensures Admits(used, a + b, total) <==> Admits(used, a, total) && Admits(used + Elements(a), b, total)
    decreases |b|
  {
    if |b| == 0 {
      assert a + b == a;
    } else {
      var init, n := b[..|b| - 1], b[|b| - 1];
      assert a + b == (a + init) + [n];
      AdmitsSnoc(used, a + init, n, total);
      AdmitsConcat(used, a, init, total);
    }
  }

  lemma {:induction false} AdmitsIsDistinct(ns: seq<int>, total: int)
    ensures Admits({}, ns, total) <==> Within(ns, total) && Distinct(ns)
    decreases |ns|
  {
    if |ns| > 0 {
      var init, n := ns[..|ns| - 1], ns[|ns| - 1];
      assert ns == init + [n];
      AdmitsIsDistinct(init, total);
    }
  }

  // ---------------------------------------------------------------- questions

  predicate Indexes(m: map<QuestionId, Question>, qs: seq<Question>)
  {
    && (forall i :: 0 <= i < |qs| ==> qs[i].identity in m && m[qs[i].identity] == qs[i])
    && (forall id :: id in m ==> m[id] in qs && m[id].identity == id)
  }

  ghost predicate Tracks(latest: map<string, int>, qs: seq<Question>)
  {
    forall id :: (if id in latest then latest[id] else 0) == LatestRevision(qs, id)
  }

  predicate Decides(decisions: set<string>, qs: seq<Question>)
  {
    decisions == set q | q in qs :: q.decisionId
  }

  lemma QuestionsSnoc(qs: seq<Question>, q: Question)
    ensures QuestionsValid(qs + [q]) <==> QuestionsValid(qs) && QuestionFollows(qs, q)
  {
    assert (qs + [q])[..|qs|] == qs;
  }

  lemma LatestSnoc(qs: seq<Question>, q: Question, id: string)
    ensures LatestRevision(qs + [q], id) == if q.identity.id == id then q.identity.revision else LatestRevision(qs, id)
  {
    assert (qs + [q])[..|qs|] == qs;
  }

  lemma {:induction false} QuestionsPrefix(qs: seq<Question>, k: nat)
    requires QuestionsValid(qs) && k <= |qs|
    ensures QuestionsValid(qs[..k])
    decreases |qs|
  {
    if k == |qs| {
      assert qs[..k] == qs;
    } else {
      QuestionsPrefix(qs[..|qs| - 1], k);
      assert qs[..|qs| - 1][..k] == qs[..k];
    }
  }

  lemma {:induction false} LatestAtLeast(qs: seq<Question>, i: nat)
    requires QuestionsValid(qs) && i < |qs|
    ensures LatestRevision(qs, qs[i].identity.id) >= qs[i].identity.revision >= 1
    decreases |qs|
  {
    if i < |qs| - 1 {
      LatestAtLeast(qs[..|qs| - 1], i);
    }
  }

  /** The duplicate-identity and reused-revision checks never fire on their own: consecutive revisions already
      make every question identity new. */
  lemma AskableIsNew(qs: seq<Question>, q: Question, i: nat)
    requires QuestionsValid(qs) && Askable(qs, q) && i < |qs|
    ensures qs[i].identity.id == q.identity.id ==> qs[i].identity.revision < q.identity.revision
  {
    LatestAtLeast(qs, i);
  }

  /** The loop's state after the questions `done`. */
  ghost predicate QuestionLoop(done: seq<Question>, total: int, sequences: set<int>, questions: map<QuestionId,
      Question>,
                               latest: map<string, int>, decisions: set<string>)
  {
    && QuestionsValid(done) && Admits({}, QuestionNumbers(done), total) && sequences == Elements(QuestionNumbers(done))
    && Indexes(questions, done) && Tracks(latest, done) && Decides(decisions, done)
  }

  lemma NumbersGrow(done: seq<Question>, q: Question)
    ensures QuestionNumbers(done + [q]) == QuestionNumbers(done) + [q.sequence]
    ensures Elements(QuestionNumbers(done + [q])) == Elements(QuestionNumbers(done)) + {q.sequence}
  {
  }

  lemma IndexesGrow(m: map<QuestionId, Question>, done: seq<Question>, q: Question)
    requires Indexes(m, done) && QuestionsValid(done) && Askable(done, q)
    ensures q.identity !in m && Indexes(m[q.identity := q], done + [q])
  {
    if q.identity in m {
      var i :| 0 <= i < |done| && done[i] == m[q.identity];
      AskableIsNew(done, q, i);
    }
  }

  lemma TracksGrow(latest: map<string, int>, done: seq<Question>, q: Question)
    requires Tracks(latest, done)
    ensures Tracks(latest[q.identity.id := q.identity.revision], done + [q])
  {
    forall id
      ensures LatestRevision(done + [q], id) == if q.identity.id == id then q.identity.revision
              else LatestRevision(done, id)
    {
      LatestSnoc(done, q, id);
    }
  }

  lemma QuestionStep(done: seq<Question>, total: int, sequences: set<int>, questions: map<QuestionId, Question>,
                     latest: map<string, int>, decisions: set<string>, q: Question)
    requires QuestionLoop(done, total, sequences, questions, latest, decisions)
    requires QuestionFollows(done, q) && 1 <= q.sequence <= total && q.sequence !in sequences
    ensures QuestionLoop(done + [q], total, sequences + {q.sequence}, questions[q.identity := q],
                         latest[q.identity.id := q.identity.revision], decisions + {q.decisionId})
  {
    QuestionsSnoc(done, q);
    NumbersGrow(done, q);
    AdmitsSnoc({}, QuestionNumbers(done), q.sequence, total);
    IndexesGrow(questions, done, q);
    TracksGrow(latest, done, q);
  }

  /** In an acceptable list every question passes where it stands. */
  lemma QuestionAccepted(qs: seq<Question>, done: seq<Question>, total: int)
    requires |done| < |qs| && done == qs[..|done|] && QuestionsValid(qs) && Admits({}, QuestionNumbers(qs), total)
    ensures var q := qs[|done|];
            QuestionFollows(done, q) && 1 <= q.sequence <= total && q.sequence !in QuestionNumbers(done)
  {
    var k, q := |done| + 1, qs[|done|];
    assert qs[..k] == done + [q];
    QuestionsPrefix(qs, k);
    QuestionsSnoc(done, q);
    AdmitsPrefix({}, QuestionNumbers(qs), k, total);
    assert QuestionNumbers(qs)[..k] == QuestionNumbers(done + [q]);
    NumbersGrow(done, q);
    AdmitsSnoc({}, QuestionNumbers(done), q.sequence, total);
  }

  /** The checks the loop makes on one question, against the previous one and the maps. */
  predicate Passes(previous: Option<Question>, questions: map<QuestionId, Question>, prior: int,
      decisions: set<string>, q: Question)
  {
    && q.identity.revision >= 1 && q.identity !in questions
    && (if previous.None? then q.supersedes == None
        else previous.value.sequence < q.sequence && q.supersedes == Some(previous.value.identity))
    && (prior != 0 ==> q.identity.revision == prior + 1)
    && q.decisionId !in decisions
  }

  lemma PassesExactly(done: seq<Question>, total: int, sequences: set<int>, questions: map<QuestionId, Question>,
                      latest: map<string, int>, decisions: set<string>, q: Question)
    requires QuestionLoop(done, total, sequences, questions, latest, decisions)
    ensures var previous := if |done| == 0 then None else Some(done[|done| - 1]);
            var prior := if q.identity.id in latest then latest[q.identity.id] else 0;
            Passes(previous, questions, prior, decisions, q) <==> QuestionFollows(done, q)
  {
    assert LatestRevision(done, q.identity.id) == if q.identity.id in latest then latest[q.identity.id] else 0;
    if Askable(done, q) {
      IndexesGrow(questions, done, q);
    }
    assert q.decisionId in decisions <==> exists i :: 0 <= i < |done| && done[i].decisionId == q.decisionId;
  }

  /** All the checks on one question, its number first. */
  predicate QuestionTest(previous: Option<Question>, questions: map<QuestionId, Question>, prior: int, total: int,
                         sequences: set<int>, decisions: set<string>, q: Question)
  {
    1 <= q.sequence <= total && q.sequence !in sequences && Passes(previous, questions, prior, decisions, q)
  }

  predicate QuestionsAccepted(qs: seq<Question>, total: int)
  {
    QuestionsValid(qs) && Admits({}, QuestionNumbers(qs), total)
  }

  lemma QuestionVerdict(qs: seq<Question>, done: seq<Question>, total: int, sequences: set<int>,
                        questions: map<QuestionId, Question>, latest: map<string, int>, decisions: set<string>)
    requires |done| < |qs| && done == qs[..|done|] && QuestionLoop(done, total, sequences, questions, latest, decisions)
    ensures var q := qs[|done|];
            var previous := if |done| == 0 then None else Some(done[|done| - 1]);
            var prior := if q.identity.id in latest then latest[q.identity.id] else 0;
            if QuestionTest(previous, questions, prior, total, sequences, decisions, q) then
              QuestionLoop(done + [q], total, sequences + {q.sequence}, questions[q.identity := q],
                           latest[q.identity.id := q.identity.revision], decisions + {q.decisionId})
            else !QuestionsAccepted(qs, total)
  {
    var q := qs[|done|];
    PassesExactly(done, total, sequences, questions, latest, decisions, q);
    if 1 <= q.sequence <= total && q.sequence !in sequences && QuestionFollows(done, q) {
      QuestionStep(done, total, sequences, questions, latest, decisions, q);
    } else if QuestionsValid(qs) && Admits({}, QuestionNumbers(qs), total) {
      QuestionAccepted(qs, done, total);
    }
  }

  lemma QuestionsBegin(total: int)
    ensures QuestionLoop([], total, {}, map[], map[], {})
  {
  }

  /** The loop's state after all questions says what is returned. */
  lemma QuestionsEnd(qs: seq<Question>, done: seq<Question>, total: int, sequences: set<int>,
                     questions: map<QuestionId, Question>, latest: map<string, int>, decisions: set<string>)
    requires QuestionLoop(done, total, sequences, questions, latest, decisions) && done == qs[..|qs|]
    ensures QuestionsAccepted(qs, total) && sequences == Elements(QuestionNumbers(qs)) && Indexes(questions, qs)
  {
    assert done == qs;
  }

  method CheckQuestions(qs: seq<Question>, total: int)
      returns (ok: bool, sequences: set<int>, questions: map<QuestionId, Question>)
    ensures ok <==> QuestionsAccepted(qs, total)
    ensures ok ==> sequences == Elements(QuestionNumbers(qs)) && Indexes(questions, qs)
  {
    sequences, questions := {}, map[];
    var latest: map<string, int> := map[];
    var decisions: set<string> := {};
    ghost var done: seq<Question> := [];
    QuestionsBegin(total);
    for i := 0 to |qs|
      invariant done == qs[..i]
      invariant QuestionLoop(done, total, sequences, questions, latest, decisions)
    {
      var q := qs[i];
      var prior := if q.identity.id in latest then latest[q.identity.id] else 0;
      var previous := if i == 0 then None else Some(qs[i - 1]);
      QuestionVerdict(qs, done, total, sequences, questions, latest, decisions);
      if !QuestionTest(previous, questions, prior, total, sequences, decisions, q) {
        return false, sequences, questions;
      }
      sequences := sequences + {q.sequence};
      questions := questions[q.identity := q];
      latest := latest[q.identity.id := q.identity.revision];
      decisions := decisions + {q.decisionId};
      done := done + [q];
    }
    QuestionsEnd(qs, done, total, sequences, questions, latest, decisions);
    return true, sequences, questions;
  }

  // ------------------------------------------------------------------ answers

  predicate AnswersIndexed(m: map<QuestionId, Answer>, as_: seq<Answer>)
  {
    && (forall i :: 0 <= i < |as_| ==> as_[i].question in m && m[as_[i].question] == as_[i])
    && (forall id :: id in m ==> m[id] in as_ && m[id].question == id)
  }

  predicate AnswerNamed(ids: set<string>, as_: seq<Answer>)
  {
    ids == set a | a in as_ :: a.answerId
  }

  ghost predicate AnswerLoop(qs: seq<Question>, done: seq<Answer>, used: set<int>, total: int, sequences: set<int>,
                             answers: map<QuestionId, Answer>, ids: set<string>)
  {
    && AnswersValid(qs, done) && Admits(used, AnswerNumbers(done), total)
        && sequences == used + Elements(AnswerNumbers(done))
    && AnswersIndexed(answers, done) && AnswerNamed(ids, done)
  }

  lemma AnswersSnoc(qs: seq<Question>, as_: seq<Answer>, a: Answer)
    ensures AnswersValid(qs, as_ + [a]) <==> AnswersValid(qs, as_) && AnswerFollows(qs, as_, a)
    ensures AnswerNumbers(as_ + [a]) == AnswerNumbers(as_) + [a.sequence]
    ensures Elements(AnswerNumbers(as_ + [a])) == Elements(AnswerNumbers(as_)) + {a.sequence}
  {
    assert (as_ + [a])[..|as_|] == as_;
    assert AnswerNumbers(as_ + [a]) == AnswerNumbers(as_) + [a.sequence];
  }

  lemma {:induction false} AnswersPrefix(qs: seq<Question>, as_: seq<Answer>, k: nat)
    requires AnswersValid(qs, as_) && k <= |as_|
    ensures AnswersValid(qs, as_[..k])
    decreases |as_|
  {
    if k == |as_| {
      assert as_[..k] == as_;
    } else {
      AnswersPrefix(qs, as_[..|as_| - 1], k);
      assert as_[..|as_| - 1][..k] == as_[..k];
    }
  }

  /** The checks the loop makes on one answer. */
  predicate AnswerPasses(qs: seq<Question>, questions: map<QuestionId, Question>, previous: Option<Answer>,
                         answers: map<QuestionId, Answer>, ids: set<string>, a: Answer)
  {
    && (previous.Some? ==> previous.value.sequence < a.sequence)
    && a.question in questions && a.question !in answers && a.answerId !in ids
    && Timely(qs, questions[a.question], a.sequence)
    && a.optionId in questions[a.question].options
  }

  lemma MatchesByMap(qs: seq<Question>, questions: map<QuestionId, Question>, a: Answer)
    requires Indexes(questions, qs)
    ensures AnswerMatches(qs, a) <==>
              a.question in questions && Timely(qs, questions[a.question], a.sequence)
                  && a.optionId in questions[a.question].options
  {
    if a.question in questions {
      var i :| 0 <= i < |qs| && qs[i] == questions[a.question];
    }
  }

  lemma AnswerPassesExactly(qs: seq<Question>, questions: map<QuestionId, Question>, done: seq<Answer>,
                            answers: map<QuestionId, Answer>, ids: set<string>, a: Answer)
    requires Indexes(questions, qs) && AnswersIndexed(answers, done) && AnswerNamed(ids, done)
    ensures var previous := if |done| == 0 then None else Some(done[|done| - 1]);
            AnswerPasses(qs, questions, previous, answers, ids, a) <==> AnswerFollows(qs, done, a)
  {
    MatchesByMap(qs, questions, a);
    assert a.answerId in ids <==> exists i :: 0 <= i < |done| && done[i].answerId == a.answerId;
    assert a.question in answers <==> exists i :: 0 <= i < |done| && done[i].question == a.question;
  }

  lemma AnswerAccepted(qs: seq<Question>, as_: seq<Answer>, done: seq<Answer>, used: set<int>, total: int)
    requires |done| < |as_| && done == as_[..|done|] && AnswersValid(qs, as_) && Admits(used, AnswerNumbers(as_), total)
    ensures var a := as_[|done|];
            AnswerFollows(qs, done, a) && 1 <= a.sequence <= total && a.sequence !in used
                && a.sequence !in AnswerNumbers(done)
  {
    var k, a := |done| + 1, as_[|done|];
    assert as_[..k] == done + [a];
    AnswersSnoc(qs, done, a);
    AnswersPrefix(qs, as_, k);
    AdmitsPrefix(used, AnswerNumbers(as_), k, total);
    assert AnswerNumbers(as_)[..k] == AnswerNumbers(done + [a]);
    AdmitsSnoc(used, AnswerNumbers(done), a.sequence, total);
  }

  lemma AnswerStep(qs: seq<Question>, done: seq<Answer>, used: set<int>, total: int, sequences: set<int>,
                   answers: map<QuestionId, Answer>, ids: set<string>, a: Answer)
    requires AnswerLoop(qs, done, used, total, sequences, answers, ids)
    requires AnswerFollows(qs, done, a) && 1 <= a.sequence <= total && a.sequence !in sequences
             && a.question !in answers
    ensures AnswerLoop(qs, done + [a], used, total, sequences + {a.sequence}, answers[a.question := a],
            ids + {a.answerId})
  {
    AnswersSnoc(qs, done, a);
    AdmitsSnoc(used, AnswerNumbers(done), a.sequence, total);
    AnswerIndexGrows(answers, ids, done, a);
  }

  lemma AnswerIndexGrows(answers: map<QuestionId, Answer>, ids: set<string>, done: seq<Answer>, a: Answer)
    requires AnswersIndexed(answers, done) && AnswerNamed(ids, done) && a.question !in answers
    ensures AnswersIndexed(answers[a.question := a], done + [a]) && AnswerNamed(ids + {a.answerId}, done + [a])
  {
  }

  /** All the checks on one answer, its number first. */
  predicate AnswerTest(qs: seq<Question>, questions: map<QuestionId, Question>, previous: Option<Answer>, total: int,
                       sequences: set<int>, answers: map<QuestionId, Answer>, ids: set<string>, a: Answer)
  {
    1 <= a.sequence <= total && a.sequence !in sequences && AnswerPasses(qs, questions, previous, answers, ids, a)
  }

  predicate AnswersAccepted(qs: seq<Question>, as_: seq<Answer>, used: set<int>, total: int)
  {
    AnswersValid(qs, as_) && Admits(used, AnswerNumbers(as_), total)
  }

  lemma AnswerVerdict(qs: seq<Question>, questions: map<QuestionId, Question>, as_: seq<Answer>, done: seq<Answer>,
      used: set<int>,
                      total: int, sequences: set<int>, answers: map<QuestionId, Answer>, ids: set<string>)
    requires |done| < |as_| && done == as_[..|done|] && Indexes(questions, qs)
    requires AnswerLoop(qs, done, used, total, sequences, answers, ids)
    ensures var a := as_[|done|];
            var previous := if |done| == 0 then None else Some(done[|done| - 1]);
            if AnswerTest(qs, questions, previous, total, sequences, answers, ids, a) then
              AnswerLoop(qs, done + [a], used, total, sequences + {a.sequence}, answers[a.question := a],
                  ids + {a.answerId})
            else !AnswersAccepted(qs, as_, used, total)
  {
    var a := as_[|done|];
    AnswerPassesExactly(qs, questions, done, answers, ids, a);
    if 1 <= a.sequence <= total && a.sequence !in sequences && AnswerFollows(qs, done, a) {
      AnswerStep(qs, done, used, total, sequences, answers, ids, a);
    } else if AnswersValid(qs, as_) && Admits(used, AnswerNumbers(as_), total) {
      AnswerAccepted(qs, as_, done, used, total);
    }
  }

  lemma AnswersBegin(qs: seq<Question>, used: set<int>, total: int)
    ensures AnswerLoop(qs, [], used, total, used, map[], {})
  {
  }

  /** The loop's state after all answers says what is returned. */
  lemma AnswersEnd(qs: seq<Question>, as_: seq<Answer>, done: seq<Answer>, used: set<int>, total: int,
                   sequences: set<int>, answers: map<QuestionId, Answer>, ids: set<string>)
    requires AnswerLoop(qs, done, used, total, sequences, answers, ids) && done == as_[..|as_|]
    ensures AnswersAccepted(qs, as_, used, total)
    ensures sequences == used + Elements(AnswerNumbers(as_)) && AnswersIndexed(answers, as_)
  {
    assert done == as_;
  }

  method CheckAnswers(qs: seq<Question>, questions: map<QuestionId, Question>, as_: seq<Answer>, total: int,
      used: set<int>)
    returns (ok: bool, sequences: set<int>, answers: map<QuestionId, Answer>)
    requires Indexes(questions, qs)
    ensures ok <==> AnswersAccepted(qs, as_, used, total)
    ensures ok ==> sequences == used + Elements(AnswerNumbers(as_)) && AnswersIndexed(answers, as_)
  {
    sequences, answers := used, map[];
    var ids: set<string> := {};
    ghost var done: seq<Answer> := [];
    AnswersBegin(qs, used, total);
    for i := 0 to |as_|
      invariant done == as_[..i]
      invariant AnswerLoop(qs, done, used, total, sequences, answers, ids)
    {
      var a := as_[i];
      var previous := if i == 0 then None else Some(as_[i - 1]);
      AnswerVerdict(qs, questions, as_, done, used, total, sequences, answers, ids);
      if !AnswerTest(qs, questions, previous, total, sequences, answers, ids, a) {
        return false, sequences, answers;
      }
      sequences := sequences + {a.sequence};
      answers := answers[a.question := a];
      ids := ids + {a.answerId};
      done := done + [a];
    }
    AnswersEnd(qs, as_, done, used, total, sequences, answers, ids);
    return true, sequences, answers;
  }

  // ------------------------------------------------------------------ resumes

  ghost predicate ResumeLoop(as_: seq<Answer>, done: seq<Resume>, used: set<int>, total: int, sequences: set<int>,
      resumed: set<QuestionId>)
  {
    && ResumesValid(as_, done) && Admits(used, ResumeNumbers(done), total)
        && sequences == used + Elements(ResumeNumbers(done))
    && resumed == set r | r in done :: r.question
  }

  lemma ResumesSnoc(as_: seq<Answer>, rs: seq<Resume>, r: Resume)
    ensures ResumesValid(as_, rs + [r]) <==> ResumesValid(as_, rs) && ResumeFollows(as_, rs, r)
    ensures ResumeNumbers(rs + [r]) == ResumeNumbers(rs) + [r.sequence]
    ensures Elements(ResumeNumbers(rs + [r])) == Elements(ResumeNumbers(rs)) + {r.sequence}
  {
    assert (rs + [r])[..|rs|] == rs;
    assert ResumeNumbers(rs + [r]) == ResumeNumbers(rs) + [r.sequence];
  }

  lemma {:induction false} ResumesPrefix(as_: seq<Answer>, rs: seq<Resume>, k: nat)
    requires ResumesValid(as_, rs) && k <= |rs|
    ensures ResumesValid(as_, rs[..k])
    decreases |rs|
  {
    if k == |rs| {
      assert rs[..k] == rs;
    } else {
      ResumesPrefix(as_, rs[..|rs| - 1], k);
      assert rs[..|rs| - 1][..k] == rs[..k];
    }
  }

  /** The checks the loop makes on one resume. */
  predicate ResumePasses(answers: map<QuestionId, Answer>, previous: Option<Resume>, resumed: set<QuestionId>,
      r: Resume)
  {
    && (previous.Some? ==> previous.value.sequence < r.sequence)
    && r.question in answers && answers[r.question].answerId == r.answerId && answers[r.question].sequence < r.sequence
    && r.question !in resumed
  }

  lemma ResumePassesExactly(as_: seq<Answer>, answers: map<QuestionId, Answer>, done: seq<Resume>,
      resumed: set<QuestionId>, r: Resume)
    requires AnswersIndexed(answers, as_) && resumed == set x | x in done :: x.question
    ensures var previous := if |done| == 0 then None else Some(done[|done| - 1]);
            ResumePasses(answers, previous, resumed, r) <==> ResumeFollows(as_, done, r)
  {
    if r.question in answers {
      var i :| 0 <= i < |as_| && as_[i] == answers[r.question];
    }
    assert r.question in resumed <==> exists i :: 0 <= i < |done| && done[i].question == r.question;
  }

  lemma ResumeAccepted(as_: seq<Answer>, rs: seq<Resume>, done: seq<Resume>, used: set<int>, total: int)
    requires |done| < |rs| && done == rs[..|done|] && ResumesValid(as_, rs) && Admits(used, ResumeNumbers(rs), total)
    ensures var r := rs[|done|];
            ResumeFollows(as_, done, r) && 1 <= r.sequence <= total && r.sequence !in used
                && r.sequence !in ResumeNumbers(done)
  {
    var k, r := |done| + 1, rs[|done|];
    assert rs[..k] == done + [r];
    ResumesSnoc(as_, done, r);
    ResumesPrefix(as_, rs, k);
    AdmitsPrefix(used, ResumeNumbers(rs), k, total);
    assert ResumeNumbers(rs)[..k] == ResumeNumbers(done + [r]);
    AdmitsSnoc(used, ResumeNumbers(done), r.sequence, total);
  }

  /** All the checks on one resume, its number first. */
  predicate ResumeTest(answers: map<QuestionId, Answer>, previous: Option<Resume>, total: int, sequences: set<int>,
                       resumed: set<QuestionId>, r: Resume)
  {
    1 <= r.sequence <= total && r.sequence !in sequences && ResumePasses(answers, previous, resumed, r)
  }

  predicate ResumesAccepted(as_: seq<Answer>, rs: seq<Resume>, used: set<int>, total: int)
  {
    ResumesValid(as_, rs) && Admits(used, ResumeNumbers(rs), total)
  }

  lemma ResumeStep(as_: seq<Answer>, done: seq<Resume>, used: set<int>, total: int, sequences: set<int>,
                   resumed: set<QuestionId>, r: Resume)
    requires ResumeLoop(as_, done, used, total, sequences, resumed)
    requires ResumeFollows(as_, done, r) && 1 <= r.sequence <= total && r.sequence !in sequences
    ensures ResumeLoop(as_, done + [r], used, total, sequences + {r.sequence}, resumed + {r.question})
  {
    ResumesSnoc(as_, done, r);
    AdmitsSnoc(used, ResumeNumbers(done), r.sequence, total);
  }

  lemma ResumeVerdict(as_: seq<Answer>, answers: map<QuestionId, Answer>, rs: seq<Resume>, done: seq<Resume>,
      used: set<int>,
                      total: int, sequences: set<int>, resumed: set<QuestionId>)
    requires |done| < |rs| && done == rs[..|done|] && AnswersIndexed(answers, as_)
    requires ResumeLoop(as_, done, used, total, sequences, resumed)
    ensures var r := rs[|done|];
            var previous := if |done| == 0 then None else Some(done[|done| - 1]);
            if ResumeTest(answers, previous, total, sequences, resumed, r) then
              ResumeLoop(as_, done + [r], used, total, sequences + {r.sequence}, resumed + {r.question})
            else !ResumesAccepted(as_, rs, used, total)
  {
    var r := rs[|done|];
    ResumePassesExactly(as_, answers, done, resumed, r);
    if 1 <= r.sequence <= total && r.sequence !in sequences && ResumeFollows(as_, done, r) {
      ResumeStep(as_, done, used, total, sequences, resumed, r);
    } else if ResumesValid(as_, rs) && Admits(used, ResumeNumbers(rs), total) {
      ResumeAccepted(as_, rs, done, used, total);
    }
  }

  lemma ResumesBegin(as_: seq<Answer>, used: set<int>, total: int)
    ensures ResumeLoop(as_, [], used, total, used, {})
  {
  }

  lemma ResumesEnd(as_: seq<Answer>, rs: seq<Resume>, done: seq<Resume>, used: set<int>, total: int,
                   sequences: set<int>, resumed: set<QuestionId>)
    requires ResumeLoop(as_, done, used, total, sequences, resumed) && done == rs[..|rs|]
    ensures ResumesAccepted(as_, rs, used, total) && sequences == used + Elements(ResumeNumbers(rs))
  {
    assert done == rs;
  }

  method CheckResumes(as_: seq<Answer>, answers: map<QuestionId, Answer>, rs: seq<Resume>, total: int, used: set<int>)
    returns (ok: bool, sequences: set<int>)
    requires AnswersIndexed(answers, as_)
    ensures ok <==> ResumesAccepted(as_, rs, used, total)
    ensures ok ==> sequences == used + Elements(ResumeNumbers(rs))
  {
    sequences := used;
    var resumed: set<QuestionId> := {};
    ghost var done: seq<Resume> := [];
    ResumesBegin(as_, used, total);
    for i := 0 to |rs|
      invariant done == rs[..i]
      invariant ResumeLoop(as_, done, used, total, sequences, resumed)
    {
      var r := rs[i];
      var previous := if i == 0 then None else Some(rs[i - 1]);
      ResumeVerdict(as_, answers, rs, done, used, total, sequences, resumed);
      if !ResumeTest(answers, previous, total, sequences, resumed, r) {
        return false, sequences;
      }
      sequences := sequences + {r.sequence};
      resumed := resumed + {r.question};
      done := done + [r];
    }
    ResumesEnd(as_, rs, done, used, total, sequences, resumed);
    return true, sequences;
  }

  // -------------------------------------------------------------- the whole log

  lemma NumbersByLoops(s: InputState)
    ensures var q, a, r := QuestionNumbers(s.questions), AnswerNumbers(s.answers), ResumeNumbers(s.resumes);
            && (Admits({}, q, s.total) && Admits({} + Elements(q), a, s.total)
                && Admits({} + Elements(q) + Elements(a), r, s.total)
                <==> Within(SequencesOf(s), s.total) && Distinct(SequencesOf(s)))
            && Elements(SequencesOf(s)) == {} + Elements(q) + Elements(a) + Elements(r)
            && (Distinct(SequencesOf(s)) ==> |Elements(SequencesOf(s))| == |SequencesOf(s)|)
  {
    var q, a, r := QuestionNumbers(s.questions), AnswerNumbers(s.answers), ResumeNumbers(s.resumes);
    AdmitsConcat({}, q, a, s.total);
    AdmitsConcat({}, q + a, r, s.total);
    assert {} + Elements(q + a) == {} + Elements(q) + Elements(a);
    AdmitsIsDistinct(q + a + r, s.total);
    if Distinct(SequencesOf(s)) {
      DistinctCount(SequencesOf(s));
    }
  }

  /** InputState.Validate accepts exactly the valid logs, hence exactly the records of legal runs. */
  method ValidateInput(s: InputState) returns (ok: bool)
    ensures ok <==> InputValid(s)
    ensures ok <==> exists t :: LegalRun(t) && Record(t) == s
    ensures ok <==> InputMeaning.InputReads(s)
  {
    ok := CheckLists(s);
    ValidIffRun(s);
    InputMeaning.InputExactly(s);
  }

  /** The three loops one after the other over one set of numbers, which must then be all of them. */
  method CheckLists(s: InputState) returns (ok: bool)
    ensures ok <==> InputValid(s)
  {
    NumbersByLoops(s);
    if s.total < 0 {
      return false;
    }
    var sequences, questions, answers;
    ok, sequences, questions := CheckQuestions(s.questions, s.total);
    if !ok {
      return;
    }
    ok, sequences, answers := CheckAnswers(s.questions, questions, s.answers, s.total, sequences);
    if !ok {
      return;
    }
    ok, sequences := CheckResumes(s.answers, answers, s.resumes, s.total, sequences);
    ok := ok && s.total == |sequences|;
  }
}
