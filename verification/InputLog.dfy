/** The operator-input log of an execution state: three append-only lists that share one sequence counter
    (internal/autonomous/state.go:1032-1163, 1611-1631), and the ask/answer/resume machine whose runs they are. */
module InputLog {
  import opened Base

  datatype QuestionId = QuestionId(id: string, revision: int, content: string)

  datatype Question = Question(
    sequence: int,
    identity: QuestionId,
    options: seq<string>,
    decisionId: string,
    supersedes: Option<QuestionId>)

  datatype Answer = Answer(sequence: int, answerId: string, question: QuestionId, optionId: string)

  datatype Resume = Resume(sequence: int, resumeId: string, question: QuestionId, answerId: string)

  datatype InputState = InputState(total: int, questions: seq<Question>, answers: seq<Answer>, resumes: seq<Resume>)

  // ------------------------------------------------------------- validity

  /** The highest revision so far of the question named `id`; zero if there is none. */
  function LatestRevision(qs: seq<Question>, id: string): int
  {
    if |qs| == 0 then 0
    else if qs[|qs| - 1].identity.id == id then qs[|qs| - 1].identity.revision
    else LatestRevision(qs[..|qs| - 1], id)
  }

  function NewestId(qs: seq<Question>): Option<QuestionId>
  {
    if |qs| == 0 then None else Some(qs[|qs| - 1].identity)
  }

  /** `q` may be asked after `qs`: it supersedes exactly the newest question, continues its own revision
      numbering, and stems from a decision no earlier question used. */
  predicate Askable(qs: seq<Question>, q: Question)
  {
    && q.identity.revision >= 1 && q.supersedes == NewestId(qs)
    && (LatestRevision(qs, q.identity.id) != 0 ==> q.identity.revision == LatestRevision(qs, q.identity.id) + 1)
    && (forall i :: 0 <= i < |qs| ==> qs[i].decisionId != q.decisionId)
  }

  predicate QuestionFollows(qs: seq<Question>, q: Question)
  {
    Askable(qs, q) && (|qs| > 0 ==> qs[|qs| - 1].sequence < q.sequence)
  }

  predicate QuestionsValid(qs: seq<Question>)
  {
    |qs| == 0 || (QuestionsValid(qs[..|qs| - 1]) && QuestionFollows(qs[..|qs| - 1], qs[|qs| - 1]))
  }

  /** The answer comes after its question and before any newer one. */
  predicate Timely(qs: seq<Question>, q: Question, sequence: int)
  {
    q.sequence < sequence && forall i :: 0 <= i < |qs| && q.sequence < qs[i].sequence ==> sequence <= qs[i].sequence
  }

  predicate AnswerMatches(qs: seq<Question>, a: Answer)
  {
    exists i :: 0 <= i < |qs| && qs[i].identity == a.question && a.optionId in qs[i].options
        && Timely(qs, qs[i], a.sequence)
  }

  predicate FreshAnswer(as_: seq<Answer>, a: Answer)
  {
    forall i :: 0 <= i < |as_| ==> as_[i].question != a.question && as_[i].answerId != a.answerId
  }

  predicate AnswerFollows(qs: seq<Question>, as_: seq<Answer>, a: Answer)
  {
    && AnswerMatches(qs, a) && FreshAnswer(as_, a)
    && (|as_| > 0 ==> as_[|as_| - 1].sequence < a.sequence)
  }

  predicate AnswersValid(qs: seq<Question>, as_: seq<Answer>)
  {
    |as_| == 0 || (AnswersValid(qs, as_[..|as_| - 1]) && AnswerFollows(qs, as_[..|as_| - 1], as_[|as_| - 1]))
  }

  predicate ResumeMatches(as_: seq<Answer>, r: Resume)
  {
    exists i :: 0 <= i < |as_| && as_[i].question == r.question && as_[i].answerId == r.answerId
        && as_[i].sequence < r.sequence
  }

  predicate FreshResume(rs: seq<Resume>, r: Resume)
  {
    forall i :: 0 <= i < |rs| ==> rs[i].question != r.question
  }

  predicate ResumeFollows(as_: seq<Answer>, rs: seq<Resume>, r: Resume)
  {
    && ResumeMatches(as_, r) && FreshResume(rs, r)
    && (|rs| > 0 ==> rs[|rs| - 1].sequence < r.sequence)
  }

  predicate ResumesValid(as_: seq<Answer>, rs: seq<Resume>)
  {
    |rs| == 0 || (ResumesValid(as_, rs[..|rs| - 1]) && ResumeFollows(as_, rs[..|rs| - 1], rs[|rs| - 1]))
  }

  function SequencesOf(s: InputState): (r: seq<int>)
    ensures |r| == |s.questions| + |s.answers| + |s.resumes|
  {
    QuestionNumbers(s.questions) + AnswerNumbers(s.answers) + ResumeNumbers(s.resumes)
  }

  predicate Distinct(ns: seq<int>)
  {
    forall i, j :: 0 <= i < j < |ns| ==> ns[i] != ns[j]
  }

  predicate Within(ns: seq<int>, total: int)
  {
    forall i :: 0 <= i < |ns| ==> 1 <= ns[i] <= total
  }

  /** What InputState.Validate demands of sequence numbers: in range, never repeated, as many as counted. */
  predicate NumbersValid(s: InputState)
  {
    Exact(SequencesOf(s), s.total)
  }

  predicate InputValid(s: InputState)
  {
    QuestionsValid(s.questions) && AnswersValid(s.questions, s.answers) && ResumesValid(s.answers, s.resumes)
        && NumbersValid(s)
  }

  // --------------------------------------------------- exactly 1..TransitionSequence

  function Upto(n: nat): (r: set<int>)
    ensures |r| == n
    ensures forall k :: k in r <==> 1 <= k <= n
  {
    if n == 0 then {} else Upto(n - 1) + {n}
  }

  lemma {:induction false} DistinctCount(ns: seq<int>)
    requires Distinct(ns)
    ensures |set n | n in ns| == |ns|
    decreases |ns|
  {
    if |ns| > 0 {
      var init, last := ns[..|ns| - 1], ns[|ns| - 1];
      DistinctCount(init);
      assert (set n | n in ns) == (set n | n in init) + {last};
      assert last !in init;
    }
  }

  lemma SubsetFull(a: set<int>, b: set<int>)
    requires a <= b && |a| == |b|
    ensures a == b
  {
    assert |b - a| == |b| - |a|;
    assert b - a == {};
    assert forall x :: x in b && x !in a ==> x in b - a;
  }

  /** A valid log uses every number from 1 to its transition sequence exactly once. */
  lemma NumbersExact(s: InputState)
    requires NumbersValid(s)
    ensures forall n :: n in SequencesOf(s) <==> 1 <= n <= s.total
  {
    var ns := SequencesOf(s);
    var used := set n | n in ns;
    DistinctCount(ns);
    assert used <= Upto(s.total);
    SubsetFull(used, Upto(s.total));
    assert forall n :: n in ns <==> n in used;
  }

  lemma {:induction false} ResumedAnswerAt(as_: seq<Answer>, rs: seq<Resume>, k: nat) returns (i: nat)
    requires ResumesValid(as_, rs) && k < |rs|
    ensures i < |as_| && as_[i].question == rs[k].question && as_[i].answerId == rs[k].answerId
    decreases |rs|
  {
    if k < |rs| - 1 {
      i := ResumedAnswerAt(as_, rs[..|rs| - 1], k);
    } else {
      i :| 0 <= i < |as_| && as_[i].question == rs[k].question && as_[i].answerId == rs[k].answerId
          && as_[i].sequence < rs[k].sequence;
    }
  }

  /** Every resume names an answer of the log. */
  lemma ResumedAnswer(s: InputState, k: nat) returns (i: nat)
    requires InputValid(s) && k < |s.resumes|
    ensures i < |s.answers| && s.answers[i].question == s.resumes[k].question
  {
    i := ResumedAnswerAt(s.answers, s.resumes, k);
  }

  // ------------------------------------------------------------- the machine

  datatype Event = Ask(q: Question) | Reply(a: Answer) | Continue(r: Resume)

  function SequenceOf(e: Event): int
  {
    match e
    case Ask(q) => q.sequence
    case Reply(a) => a.sequence
    case Continue(r) => r.sequence
  }

  /** What a run of the machine leaves in the log. */
  function Record(t: seq<Event>): (s: InputState)
    ensures s.total == |t|
  {
    if |t| == 0 then InputState(0, [], [], [])
    else
      Append(Record(t[..|t| - 1]), t[|t| - 1])
  }

  function Append(s: InputState, e: Event): InputState
  {
    match e
    case Ask(q) => s.(total := s.total + 1, questions := s.questions + [q])
    case Reply(a) => s.(total := s.total + 1, answers := s.answers + [a])
    case Continue(r) => s.(total := s.total + 1, resumes := s.resumes + [r])
  }

  /** One legal move: ask a question superseding the newest; answer the newest question, once, with an offered
      option under a fresh answer name; or resume an answered question, once, by its exact answer. */
  predicate Move(s: InputState, e: Event)
  {
    match e
    case Ask(q) => Askable(s.questions, q)
    case Reply(a) =>
      && |s.questions| > 0
      && var q := s.questions[|s.questions| - 1];
      && a.question == q.identity && a.optionId in q.options && FreshAnswer(s.answers, a)
    case Continue(r) =>
      && (exists i ::
          0 <= i < |s.answers| && s.answers[i].question == r.question && s.answers[i].answerId == r.answerId)
      && FreshResume(s.resumes, r)
  }

  predicate LegalRun(t: seq<Event>)
  {
    |t| == 0
    || (&& LegalRun(t[..|t| - 1])
        && SequenceOf(t[|t| - 1]) == |t| && Move(Record(t[..|t| - 1]), t[|t| - 1]))
  }

  predicate Holds(s: InputState, e: Event)
  {
    match e
    case Ask(q) => q in s.questions
    case Reply(a) => a in s.answers
    case Continue(r) => r in s.resumes
  }

  lemma {:induction false} RecordHolds(t: seq<Event>, e: Event)
    ensures Holds(Record(t), e) <==> e in t
    decreases |t|
  {
    if |t| > 0 {
      RecordHolds(t[..|t| - 1], e);
      assert t == t[..|t| - 1] + [t[|t| - 1]];
    }
  }

  lemma {:induction false} RunNumbered(t: seq<Event>, k: nat)
    requires LegalRun(t) && k < |t|
    ensures SequenceOf(t[k]) == k + 1
    decreases |t|
  {
    if k < |t| - 1 {
      RunNumbered(t[..|t| - 1], k);
    }
  }

  // ------------------------------------- one more event, in both directions

  predicate Exact(ns: seq<int>, total: int)
  {
    Within(ns, total) && Distinct(ns) && |ns| == total
  }

  lemma InsertKeeps(a: seq<int>, b: seq<int>, total: int)
    requires Exact(a + b, total)
    ensures Exact(a + [total + 1] + b, total + 1)
  {
    var ns, ns' := a + b, a + [total + 1] + b;
    forall i | 0 <= i < |ns'|
      ensures 1 <= ns'[i] <= total + 1
    {
      assert i == |a| || ns'[i] == ns[if i < |a| then i else i - 1];
    }
    forall i, j | 0 <= i < j < |ns'|
      ensures ns'[i] != ns'[j]
    {
      assert i == |a| || ns'[i] == ns[if i < |a| then i else i - 1];
      assert j == |a| || ns'[j] == ns[if j < |a| then j else j - 1];
    }
  }

  lemma RemoveKeeps(a: seq<int>, b: seq<int>, total: int)
    requires Exact(a + [total + 1] + b, total + 1)
    ensures Exact(a + b, total)
  {
    var ns, ns' := a + b, a + [total + 1] + b;
    forall i | 0 <= i < |ns|
      ensures ns[i] == ns'[if i < |a| then i else i + 1] && ns[i] != total + 1
    {
      assert ns'[|a|] == total + 1;
    }
  }

  lemma InsertNumber(a: seq<int>, b: seq<int>, total: int)
    ensures Exact(a + b, total) <==> Exact(a + [total + 1] + b, total + 1)
  {
    if Exact(a + b, total) {
      InsertKeeps(a, b, total);
    }
    if Exact(a + [total + 1] + b, total + 1) {
      RemoveKeeps(a, b, total);
    }
  }

  function QuestionNumbers(qs: seq<Question>): seq<int>
  {
    seq(|qs|, i requires 0 <= i < |qs| => qs[i].sequence)
  }

  function AnswerNumbers(as_: seq<Answer>): seq<int>
  {
    seq(|as_|, i requires 0 <= i < |as_| => as_[i].sequence)
  }

  function ResumeNumbers(rs: seq<Resume>): seq<int>
  {
    seq(|rs|, i requires 0 <= i < |rs| => rs[i].sequence)
  }

  lemma NumbersSnoc(s: InputState, e: Event)
    requires SequenceOf(e) == s.total + 1
    ensures NumbersValid(Append(s, e)) <==> NumbersValid(s)
  {
    var q, a, r := QuestionNumbers(s.questions), AnswerNumbers(s.answers), ResumeNumbers(s.resumes);
    var n := s.total + 1;
    match e
    case Ask(x) =>
      assert QuestionNumbers(s.questions + [x]) == q + [n];
      assert SequencesOf(Append(s, e)) == q + [n] + (a + r);
      assert SequencesOf(s) == q + (a + r);
      InsertNumber(q, a + r, s.total);
    case Reply(x) =>
      assert AnswerNumbers(s.answers + [x]) == a + [n];
      assert SequencesOf(Append(s, e)) == (q + a) + [n] + r;
      InsertNumber(q + a, r, s.total);
    case Continue(x) =>
      assert ResumeNumbers(s.resumes + [x]) == r + [n];
      assert SequencesOf(Append(s, e)) == (q + a + r) + [n] + [];
      assert q + a + r + [] == SequencesOf(s);
      InsertNumber(q + a + r, [], s.total);
  }

  lemma Numbered(s: InputState)
    requires NumbersValid(s)
    ensures forall i :: 0 <= i < |s.questions| ==> s.questions[i].sequence <= s.total
    ensures forall i :: 0 <= i < |s.answers| ==> s.answers[i].sequence <= s.total
    ensures forall i :: 0 <= i < |s.resumes| ==> s.resumes[i].sequence <= s.total
  {
    var ns := SequencesOf(s);
    assert forall i :: 0 <= i < |s.questions| ==> ns[i] == s.questions[i].sequence;
    assert forall i :: 0 <= i < |s.answers| ==> ns[|s.questions| + i] == s.answers[i].sequence;
    assert forall i :: 0 <= i < |s.resumes| ==> ns[|s.questions| + |s.answers| + i] == s.resumes[i].sequence;
  }

  lemma {:induction false} QuestionsIncrease(qs: seq<Question>, i: nat, j: nat)
    requires QuestionsValid(qs) && i < j < |qs|
    ensures qs[i].sequence < qs[j].sequence
    decreases |qs|
  {
    var n := |qs| - 1;
    if j < n {
      QuestionsIncrease(qs[..n], i, j);
    } else if i < n - 1 {
      QuestionsIncrease(qs[..n], i, n - 1);
    }
  }

  lemma MatchesFrame(qs: seq<Question>, q: Question, a: Answer)
    requires a.sequence < q.sequence
    ensures AnswerMatches(qs + [q], a) <==> AnswerMatches(qs, a)
  {
    var qs' := qs + [q];
    if AnswerMatches(qs', a) {
      var i :| 0 <= i < |qs'| && qs'[i].identity == a.question && a.optionId in qs'[i].options
          && Timely(qs', qs'[i], a.sequence);
      assert qs'[i] == qs[i];
      assert forall k :: 0 <= k < |qs| ==> qs[k] == qs'[k];
      assert Timely(qs, qs[i], a.sequence);
    }
    if AnswerMatches(qs, a) {
      var i :| 0 <= i < |qs| && qs[i].identity == a.question && a.optionId in qs[i].options
          && Timely(qs, qs[i], a.sequence);
      assert qs'[i] == qs[i];
      assert Timely(qs', qs'[i], a.sequence);
    }
  }

  lemma {:induction false} AnswersFrame(qs: seq<Question>, q: Question, as_: seq<Answer>)
    requires forall i :: 0 <= i < |as_| ==> as_[i].sequence < q.sequence
    ensures AnswersValid(qs + [q], as_) <==> AnswersValid(qs, as_)
    decreases |as_|
  {
    if |as_| > 0 {
      AnswersFrame(qs, q, as_[..|as_| - 1]);
      MatchesFrame(qs, q, as_[|as_| - 1]);
    }
  }

  lemma {:induction false} ResumesFrame(as_: seq<Answer>, a: Answer, rs: seq<Resume>)
    requires forall i :: 0 <= i < |rs| ==> rs[i].sequence < a.sequence
    ensures ResumesValid(as_ + [a], rs) <==> ResumesValid(as_, rs)
    decreases |rs|
  {
    if |rs| > 0 {
      var r := rs[|rs| - 1];
      ResumesFrame(as_, a, rs[..|rs| - 1]);
      if ResumeMatches(as_, r) {
        var i :| 0 <= i < |as_| && as_[i].question == r.question && as_[i].answerId == r.answerId
            && as_[i].sequence < r.sequence;
        assert (as_ + [a])[i] == as_[i];
      }
    }
  }

  lemma ReplyExactly(qs: seq<Question>, as_: seq<Answer>, a: Answer)
    requires QuestionsValid(qs)
    requires forall i :: 0 <= i < |qs| ==> qs[i].sequence < a.sequence
    ensures AnswerMatches(qs, a) <==>
              |qs| > 0 && a.question == qs[|qs| - 1].identity && a.optionId in qs[|qs| - 1].options
  {
    if AnswerMatches(qs, a) {
      var i :| 0 <= i < |qs| && qs[i].identity == a.question && a.optionId in qs[i].options
          && Timely(qs, qs[i], a.sequence);
      if i < |qs| - 1 {
        QuestionsIncrease(qs, i, |qs| - 1);
      }
    }
    if |qs| > 0 && a.question == qs[|qs| - 1].identity && a.optionId in qs[|qs| - 1].options {
      forall k | 0 <= k < |qs|
        ensures qs[k].sequence <= qs[|qs| - 1].sequence
      {
        if k < |qs| - 1 {
          QuestionsIncrease(qs, k, |qs| - 1);
        }
      }
      assert Timely(qs, qs[|qs| - 1], a.sequence);
    }
  }

  lemma AskSnoc(s: InputState, q: Question)
    requires NumbersValid(s) && q.sequence == s.total + 1
    ensures QuestionsValid(s.questions + [q]) <==> QuestionsValid(s.questions) && Askable(s.questions, q)
    ensures AnswersValid(s.questions + [q], s.answers) <==> AnswersValid(s.questions, s.answers)
  {
    Numbered(s);
    assert (s.questions + [q])[..|s.questions|] == s.questions;
    AnswersFrame(s.questions, q, s.answers);
  }

  lemma ReplySnoc(s: InputState, a: Answer)
    requires NumbersValid(s) && a.sequence == s.total + 1 && QuestionsValid(s.questions)
    ensures AnswersValid(s.questions, s.answers + [a]) <==> AnswersValid(s.questions, s.answers) && Move(s, Reply(a))
    ensures ResumesValid(s.answers + [a], s.resumes) <==> ResumesValid(s.answers, s.resumes)
  {
    ReplyAnswers(s, a);
    ReplyResumes(s, a);
  }

  lemma ReplyAnswers(s: InputState, a: Answer)
    requires NumbersValid(s) && a.sequence == s.total + 1 && QuestionsValid(s.questions)
    ensures AnswersValid(s.questions, s.answers + [a]) <==> AnswersValid(s.questions, s.answers) && Move(s, Reply(a))
  {
    Numbered(s);
    AnswersValidSnoc(s.questions, s.answers, a);
    ReplyMove(s, a);
  }

  lemma ReplyResumes(s: InputState, a: Answer)
    requires NumbersValid(s) && a.sequence == s.total + 1
    ensures ResumesValid(s.answers + [a], s.resumes) <==> ResumesValid(s.answers, s.resumes)
  {
    Numbered(s);
    ResumesFrame(s.answers, a, s.resumes);
  }

  lemma ReplyMove(s: InputState, a: Answer)
    requires QuestionsValid(s.questions) && forall i :: 0 <= i < |s.questions| ==> s.questions[i].sequence < a.sequence
    ensures Move(s, Reply(a)) <==> AnswerMatches(s.questions, a) && FreshAnswer(s.answers, a)
  {
    ReplyExactly(s.questions, s.answers, a);
  }

  lemma AnswersValidSnoc(qs: seq<Question>, as_: seq<Answer>, a: Answer)
    requires |as_| > 0 ==> as_[|as_| - 1].sequence < a.sequence
    ensures AnswersValid(qs, as_ + [a]) <==> AnswersValid(qs, as_) && AnswerMatches(qs, a) && FreshAnswer(as_, a)
  {
    assert (as_ + [a])[..|as_|] == as_;
  }

  lemma ContinueSnoc(s: InputState, r: Resume)
    requires NumbersValid(s) && r.sequence == s.total + 1
    ensures ResumesValid(s.answers, s.resumes + [r]) <==> ResumesValid(s.answers, s.resumes) && Move(s, Continue(r))
  {
    Numbered(s);
    ResumesValidSnoc(s.answers, s.resumes, r);
    ResumeExactly(s.answers, r);
  }

  lemma ResumesValidSnoc(as_: seq<Answer>, rs: seq<Resume>, r: Resume)
    requires |rs| > 0 ==> rs[|rs| - 1].sequence < r.sequence
    ensures ResumesValid(as_, rs + [r]) <==> ResumesValid(as_, rs) && ResumeMatches(as_, r) && FreshResume(rs, r)
  {
    assert (rs + [r])[..|rs|] == rs;
  }

  lemma ResumeExactly(as_: seq<Answer>, r: Resume)
    requires forall i :: 0 <= i < |as_| ==> as_[i].sequence < r.sequence
    ensures ResumeMatches(as_, r) <==> exists i ::
            0 <= i < |as_| && as_[i].question == r.question && as_[i].answerId == r.answerId
  {
  }

  /** Adding the next event keeps a log valid if and only if it is a legal move. */
  lemma SnocExactly(s: InputState, e: Event)
    requires SequenceOf(e) == s.total + 1
    ensures InputValid(Append(s, e)) <==> InputValid(s) && Move(s, e)
  {
    NumbersSnoc(s, e);
    if NumbersValid(s) {
      match e
      case Ask(q) => AskSnoc(s, q);
      case Reply(a) =>
        if QuestionsValid(s.questions) {
          ReplySnoc(s, a);
        }
      case Continue(r) => ContinueSnoc(s, r);
    }
  }

  lemma {:induction false} RunsAreValid(t: seq<Event>)
    requires LegalRun(t)
    ensures InputValid(Record(t))
    decreases |t|
  {
    if |t| > 0 {
      RunsAreValid(t[..|t| - 1]);
      SnocExactly(Record(t[..|t| - 1]), t[|t| - 1]);
    }
  }

  predicate EndsWithQuestion(s: InputState)
  {
    |s.questions| > 0 && s.questions[|s.questions| - 1].sequence == s.total
  }

  predicate EndsWithAnswer(s: InputState)
  {
    |s.answers| > 0 && s.answers[|s.answers| - 1].sequence == s.total
  }

  predicate EndsWithResume(s: InputState)
  {
    |s.resumes| > 0 && s.resumes[|s.resumes| - 1].sequence == s.total
  }

  /** The event a log ends with: the one numbered by its transition sequence, which is the last of its list. */
  lemma LastEvent(s: InputState) returns (s': InputState, e: Event)
    requires InputValid(s) && s.total > 0
    ensures s == Append(s', e) && SequenceOf(e) == s.total
  {
    SomeListEnds(s);
    var q, a, r := s.questions, s.answers, s.resumes;
    if EndsWithQuestion(s) {
      e := Ask(q[|q| - 1]);
      s' := s.(total := s.total - 1, questions := q[..|q| - 1]);
    } else if EndsWithAnswer(s) {
      e := Reply(a[|a| - 1]);
      s' := s.(total := s.total - 1, answers := a[..|a| - 1]);
    } else {
      e := Continue(r[|r| - 1]);
      s' := s.(total := s.total - 1, resumes := r[..|r| - 1]);
    }
  }

  lemma SomeListEnds(s: InputState)
    requires InputValid(s) && s.total > 0
    ensures EndsWithQuestion(s) || EndsWithAnswer(s) || EndsWithResume(s)
  {
    NumbersExact(s);
    Numbered(s);
    assert s.total in SequencesOf(s);
    var k :| 0 <= k < |SequencesOf(s)| && SequencesOf(s)[k] == s.total;
    var q, a, r := |s.questions|, |s.answers|, |s.resumes|;
    if k < q - 1 {
      QuestionsIncrease(s.questions, k, q - 1);
    } else if q <= k < q + a - 1 {
      AnswersIncrease(s.questions, s.answers, k - q, a - 1);
    } else if q + a <= k < q + a + r - 1 {
      ResumesIncrease(s.answers, s.resumes, k - q - a, r - 1);
    }
  }

  lemma {:induction false} AnswersIncrease(qs: seq<Question>, as_: seq<Answer>, i: nat, j: nat)
    requires AnswersValid(qs, as_) && i < j < |as_|
    ensures as_[i].sequence < as_[j].sequence
    decreases |as_|
  {
    var n := |as_| - 1;
    if j < n {
      AnswersIncrease(qs, as_[..n], i, j);
    } else if i < n - 1 {
      AnswersIncrease(qs, as_[..n], i, n - 1);
    }
  }

  lemma {:induction false} ResumesIncrease(as_: seq<Answer>, rs: seq<Resume>, i: nat, j: nat)
    requires ResumesValid(as_, rs) && i < j < |rs|
    ensures rs[i].sequence < rs[j].sequence
    decreases |rs|
  {
    var n := |rs| - 1;
    if j < n {
      ResumesIncrease(as_, rs[..n], i, j);
    } else if i < n - 1 {
      ResumesIncrease(as_, rs[..n], i, n - 1);
    }
  }

  /** Every valid log replays: merging its lists by sequence number is a legal run that records it. */
  lemma {:induction false} Replay(s: InputState) returns (t: seq<Event>)
    requires InputValid(s)
    ensures LegalRun(t) && Record(t) == s
    decreases s.total
  {
    if s.total == 0 {
      t := [];
    } else {
      var s', e := LastEvent(s);
      SnocExactly(s', e);
      var init := Replay(s');
      t := init + [e];
      assert t[..|t| - 1] == init;
    }
  }

  /** The logs the validator accepts are exactly the records of legal runs. */
  lemma ValidIffRun(s: InputState)
    ensures InputValid(s) <==> exists t :: LegalRun(t) && Record(t) == s
  {
    if InputValid(s) {
      var t := Replay(s);
    }
    if t :| LegalRun(t) && Record(t) == s {
      RunsAreValid(t);
    }
  }

  // -------------------------------------------------------------- transitions

  /** validateInputTransition: nothing recorded may change or disappear. */
  predicate TransitionValid(p: InputState, n: InputState)
  {
    && p.total <= n.total
    && p.questions <= n.questions && p.answers <= n.answers && p.resumes <= n.resumes
  }

  lemma {:induction false} PrefixRecorded(t: seq<Event>, k: nat)
    requires k <= |t|
    ensures TransitionValid(Record(t[..k]), Record(t))
    decreases |t|
  {
    if k == |t| {
      assert t[..k] == t;
    } else {
      var init := t[..|t| - 1];
      assert init[..k] == t[..k];
      PrefixRecorded(init, k);
    }
  }

  lemma RecordedAt(t: seq<Event>, t': seq<Event>, k: nat)
    requires LegalRun(t) && LegalRun(t') && TransitionValid(Record(t), Record(t')) && k < |t|
    ensures k < |t'| && t[k] == t'[k]
  {
    var e := t[k];
    RunNumbered(t, k);
    RecordHolds(t, e);
    HoldsLater(Record(t), Record(t'), e);
    RecordHolds(t', e);
    var i :| 0 <= i < |t'| && t'[i] == e;
    RunNumbered(t', i);
  }

  /** Between valid logs, a transition is legal exactly when it appends events to the run; in particular every
      new event carries a number above the old transition sequence, and a log has only one run. */
  lemma TransitionAppends(t: seq<Event>, t': seq<Event>)
    requires LegalRun(t) && LegalRun(t')
    ensures TransitionValid(Record(t), Record(t')) <==> t <= t'
    ensures forall k :: |t| <= k < |t'| ==> SequenceOf(t'[k]) > Record(t).total
  {
    forall k | |t| <= k < |t'|
      ensures SequenceOf(t'[k]) > Record(t).total
    {
      RunNumbered(t', k);
    }
    if t <= t' {
      AppendedIsLegal(t, t');
    }
    var legal := TransitionValid(Record(t), Record(t'));
    forall k | legal && 0 <= k < |t|
      ensures k < |t'| && t[k] == t'[k]
    {
      RecordedAt(t, t', k);
    }
  }

  lemma AppendedIsLegal(t: seq<Event>, t': seq<Event>)
    requires t <= t'
    ensures TransitionValid(Record(t), Record(t'))
  {
    PrefixRecorded(t', |t|);
    assert t'[..|t|] == t;
  }

  lemma HoldsLater(p: InputState, n: InputState, e: Event)
    requires TransitionValid(p, n) && Holds(p, e)
    ensures Holds(n, e)
  {
  }

  /** Successive logs, each a legal transition from the one before. */
  ghost predicate Growing(logs: seq<InputState>)
  {
    forall i, j {:trigger TransitionValid(logs[i], logs[j])} :: 0 <= i < j < |logs| && j == i + 1 ==>
        TransitionValid(logs[i], logs[j])
  }

  lemma {:induction false} GrowingKeeps(logs: seq<InputState>, i: nat, j: nat)
    requires Growing(logs) && i < j < |logs|
    ensures TransitionValid(logs[i], logs[j])
    decreases j
  {
    assert TransitionValid(logs[j - 1], logs[j]);
    if i < j - 1 {
      GrowingKeeps(logs, i, j - 1);
    }
  }
}
