/** The operator-input log read as a whole, position by position, instead of event by event
    (internal/autonomous/state.go:1032-1163). */
module InputMeaning {
  import opened Base
  import opened InputLog

  // ---------------------------------------------------------------- questions

  /** The questions at `i` and `j` have the same name, and none between them has it. */
  predicate NextOf(qs: seq<Question>, i: nat, j: nat)
    requires i < j < |qs|
  {
    && qs[i].identity.id == qs[j].identity.id
    && forall k :: i < k < j ==> qs[k].identity.id != qs[j].identity.id
  }

  /** Each question is numbered above the one before and supersedes it, the revisions of one name are consecutive, and
      no two questions stem from one decision. */
  ghost predicate QuestionsRead(qs: seq<Question>)
  {
    && (forall k :: 0 <= k < |qs| ==> qs[k].identity.revision >= 1)
    && (|qs| > 0 ==> qs[0].supersedes == None)
    && (forall i, j :: 0 <= i < j < |qs| && j == i + 1 ==> qs[j].supersedes == Some(qs[i].identity))
    && (forall i, j :: 0 <= i < j < |qs| ==> qs[i].sequence < qs[j].sequence)
    && (forall i, j :: 0 <= i < j < |qs| && NextOf(qs, i, j) ==> qs[j].identity.revision == qs[i].identity.revision + 1)
    && (forall i, j :: 0 <= i < j < |qs| ==> qs[i].decisionId != qs[j].decisionId)
  }

  lemma {:induction false} QuestionAt(qs: seq<Question>, k: nat)
    requires QuestionsValid(qs) && k < |qs|
    ensures QuestionFollows(qs[..k], qs[k])
    decreases |qs|
  {
    if k < |qs| - 1 {
      QuestionAt(qs[..|qs| - 1], k);
      assert qs[..|qs| - 1][..k] == qs[..k];
    }
  }

  lemma {:induction false} LatestAt(qs: seq<Question>, i: nat)
    requires i < |qs| && forall k :: i < k < |qs| ==> qs[k].identity.id != qs[i].identity.id
    ensures LatestRevision(qs, qs[i].identity.id) == qs[i].identity.revision
    decreases |qs|
  {
    if i < |qs| - 1 {
      LatestAt(qs[..|qs| - 1], i);
    }
  }

  lemma {:induction false} LatestIndex(qs: seq<Question>, id: string) returns (i: nat)
    requires LatestRevision(qs, id) != 0
    ensures i < |qs| && qs[i].identity.id == id && qs[i].identity.revision == LatestRevision(qs, id)
    ensures forall k :: i < k < |qs| ==> qs[k].identity.id != id
    decreases |qs|
  {
    if qs[|qs| - 1].identity.id == id {
      i := |qs| - 1;
    } else {
      i := LatestIndex(qs[..|qs| - 1], id);
    }
  }

  lemma RevisionsConsecutive(qs: seq<Question>, i: nat, j: nat)
    requires i < j < |qs| && Askable(qs[..j], qs[j]) && NextOf(qs, i, j) && qs[i].identity.revision >= 1
    ensures qs[j].identity.revision == qs[i].identity.revision + 1
  {
    LatestAt(qs[..j], i);
  }

  lemma QuestionsValidRead(qs: seq<Question>)
    requires QuestionsValid(qs)
    ensures QuestionsRead(qs)
  {
    forall k | 0 <= k < |qs|
      ensures qs[k].identity.revision >= 1
      ensures k == 0 ==> qs[k].supersedes == None
    {
      QuestionAt(qs, k);
    }
    forall i, j | 0 <= i < j < |qs|
      ensures qs[i].sequence < qs[j].sequence && qs[i].decisionId != qs[j].decisionId
      ensures j == i + 1 ==> qs[j].supersedes == Some(qs[i].identity)
      ensures NextOf(qs, i, j) ==> qs[j].identity.revision == qs[i].identity.revision + 1
    {
      QuestionsIncrease(qs, i, j);
      QuestionAt(qs, j);
      assert qs[..j][i] == qs[i];
      if NextOf(qs, i, j) {
        RevisionsConsecutive(qs, i, j);
      }
    }
  }

  lemma QuestionsReadInit(qs: seq<Question>)
    requires |qs| > 0 && QuestionsRead(qs)
    ensures QuestionsRead(qs[..|qs| - 1])
  {
    var init := qs[..|qs| - 1];
    forall i, j | 0 <= i < j < |init| && NextOf(init, i, j)
      ensures init[j].identity.revision == init[i].identity.revision + 1
    {
      assert NextOf(qs, i, j);
    }
  }

  lemma QuestionsReadFollow(qs: seq<Question>)
    requires |qs| > 0 && QuestionsRead(qs)
    ensures QuestionFollows(qs[..|qs| - 1], qs[|qs| - 1])
  {
    var init, z := qs[..|qs| - 1], |qs| - 1;
    if LatestRevision(init, qs[z].identity.id) != 0 {
      var i := LatestIndex(init, qs[z].identity.id);
      assert NextOf(qs, i, z);
    }
  }

  lemma {:induction false} QuestionsExactly(qs: seq<Question>)
    ensures QuestionsValid(qs) <==> QuestionsRead(qs)
    decreases |qs|
  {
    if QuestionsValid(qs) {
      QuestionsValidRead(qs);
    } else if QuestionsRead(qs) {
      QuestionsReadInit(qs);
      QuestionsReadFollow(qs);
      QuestionsExactly(qs[..|qs| - 1]);
    }
  }

  // ------------------------------------------------------------------ answers

  /** The question at `i` is the one the answer names, offers its option, and was the newest when it was given. */
  predicate AnsweredAt(qs: seq<Question>, i: nat, a: Answer)
    requires i < |qs|
  {
    && a.question.id == qs[i].identity.id && a.question.revision == qs[i].identity.revision
    && a.question.content == qs[i].identity.content
    && (exists m :: 0 <= m < |qs[i].options| && qs[i].options[m] == a.optionId)
    && qs[i].sequence < a.sequence && (i + 1 < |qs| ==> a.sequence <= qs[i + 1].sequence)
  }

  predicate Answered(qs: seq<Question>, a: Answer)
  {
    exists i :: 0 <= i < |qs| && AnsweredAt(qs, i, a)
  }

  /** Each answer is numbered above the one before and answers the newest question; no question is answered twice and no
      answer name used twice. */
  predicate AnswersRead(qs: seq<Question>, as_: seq<Answer>)
  {
    && (forall k :: 0 <= k < |as_| ==> Answered(qs, as_[k]))
    && (forall i, j :: 0 <= i < j < |as_| ==> as_[i].sequence < as_[j].sequence)
    && (forall i, j :: 0 <= i < j < |as_| ==> as_[i].question != as_[j].question)
    && (forall i, j :: 0 <= i < j < |as_| ==> as_[i].answerId != as_[j].answerId)
  }

  lemma TimelyExactly(qs: seq<Question>, i: nat, sequence: int)
    requires i < |qs| && forall x, y :: 0 <= x < y < |qs| ==> qs[x].sequence < qs[y].sequence
    ensures Timely(qs, qs[i], sequence) <==>
            qs[i].sequence < sequence && (i + 1 < |qs| ==> sequence <= qs[i + 1].sequence)
  {
    if qs[i].sequence < sequence && (i + 1 < |qs| ==> sequence <= qs[i + 1].sequence) {
      forall m | 0 <= m < |qs| && qs[i].sequence < qs[m].sequence
        ensures sequence <= qs[m].sequence
      {
        assert m > i + 1 ==> qs[i + 1].sequence < qs[m].sequence;
      }
    }
  }

  lemma AnsweredExactly(qs: seq<Question>, a: Answer)
    requires QuestionsRead(qs)
    ensures AnswerMatches(qs, a) <==> Answered(qs, a)
  {
    forall i | 0 <= i < |qs|
      ensures (qs[i].identity == a.question && a.optionId in qs[i].options && Timely(qs, qs[i], a.sequence))
         <==> AnsweredAt(qs, i, a)
    {
      TimelyExactly(qs, i, a.sequence);
    }
  }

  lemma {:induction false} AnswerAt(qs: seq<Question>, as_: seq<Answer>, k: nat)
    requires AnswersValid(qs, as_) && k < |as_|
    ensures AnswerFollows(qs, as_[..k], as_[k])
    decreases |as_|
  {
    if k < |as_| - 1 {
      AnswerAt(qs, as_[..|as_| - 1], k);
      assert as_[..|as_| - 1][..k] == as_[..k];
    }
  }

  lemma AnswersValidRead(qs: seq<Question>, as_: seq<Answer>)
    requires QuestionsRead(qs) && AnswersValid(qs, as_)
    ensures AnswersRead(qs, as_)
  {
    forall k | 0 <= k < |as_|
      ensures Answered(qs, as_[k])
    {
      AnswerAt(qs, as_, k);
      AnsweredExactly(qs, as_[k]);
    }
    forall i, j | 0 <= i < j < |as_|
      ensures as_[i].sequence < as_[j].sequence
      ensures as_[i].question != as_[j].question && as_[i].answerId != as_[j].answerId
    {
      AnswersIncrease(qs, as_, i, j);
      AnswerAt(qs, as_, j);
      assert as_[..j][i] == as_[i];
    }
  }

  lemma AnswersReadFollow(qs: seq<Question>, as_: seq<Answer>)
    requires QuestionsRead(qs) && |as_| > 0 && AnswersRead(qs, as_)
    ensures AnswersRead(qs, as_[..|as_| - 1]) && AnswerFollows(qs, as_[..|as_| - 1], as_[|as_| - 1])
  {
    AnsweredExactly(qs, as_[|as_| - 1]);
  }

  lemma {:induction false} AnswersExactly(qs: seq<Question>, as_: seq<Answer>)
    requires QuestionsRead(qs)
    ensures AnswersValid(qs, as_) <==> AnswersRead(qs, as_)
    decreases |as_|
  {
    if AnswersValid(qs, as_) {
      AnswersValidRead(qs, as_);
    } else if AnswersRead(qs, as_) {
      AnswersReadFollow(qs, as_);
      AnswersExactly(qs, as_[..|as_| - 1]);
    }
  }

  // ------------------------------------------------------------------ resumes

  /** The log has the very answer the resume names, given before. */
  predicate Resumes(as_: seq<Answer>, r: Resume)
  {
    exists i :: 0 <= i < |as_| && as_[i].sequence < r.sequence && as_[i].answerId == r.answerId
      && as_[i].question == r.question
  }

  predicate ResumesRead(as_: seq<Answer>, rs: seq<Resume>)
  {
    && (forall k :: 0 <= k < |rs| ==> Resumes(as_, rs[k]))
    && (forall i, j :: 0 <= i < j < |rs| ==> rs[i].sequence < rs[j].sequence)
    && (forall i, j :: 0 <= i < j < |rs| ==> rs[i].question != rs[j].question)
  }

  lemma {:induction false} ResumeAt(as_: seq<Answer>, rs: seq<Resume>, k: nat)
    requires ResumesValid(as_, rs) && k < |rs|
    ensures ResumeFollows(as_, rs[..k], rs[k])
    decreases |rs|
  {
    if k < |rs| - 1 {
      ResumeAt(as_, rs[..|rs| - 1], k);
      assert rs[..|rs| - 1][..k] == rs[..k];
    }
  }

  lemma ResumedExactly(as_: seq<Answer>, r: Resume)
    ensures ResumeMatches(as_, r) <==> Resumes(as_, r)
  {
  }

  lemma ResumesValidRead(as_: seq<Answer>, rs: seq<Resume>)
    requires ResumesValid(as_, rs)
    ensures ResumesRead(as_, rs)
  {
    forall k | 0 <= k < |rs|
      ensures Resumes(as_, rs[k])
    {
      ResumeAt(as_, rs, k);
      ResumedExactly(as_, rs[k]);
    }
    forall i, j | 0 <= i < j < |rs|
      ensures rs[i].sequence < rs[j].sequence && rs[i].question != rs[j].question
    {
      ResumesIncrease(as_, rs, i, j);
      ResumeAt(as_, rs, j);
      assert rs[..j][i] == rs[i];
    }
  }

  lemma {:induction false} ResumesExactly(as_: seq<Answer>, rs: seq<Resume>)
    ensures ResumesValid(as_, rs) <==> ResumesRead(as_, rs)
    decreases |rs|
  {
    if ResumesValid(as_, rs) {
      ResumesValidRead(as_, rs);
    } else if ResumesRead(as_, rs) {
      ResumedExactly(as_, rs[|rs| - 1]);
      ResumesExactly(as_, rs[..|rs| - 1]);
    }
  }

  // ------------------------------------------------------------ the whole log

  /** As many entries as the transition sequence counts, all numbered within it, no number shared between the lists. */
  predicate NumbersRead(s: InputState)
  {
    && |s.questions| + |s.answers| + |s.resumes| == s.total
    && (forall k :: 0 <= k < |s.questions| ==> 1 <= s.questions[k].sequence <= s.total)
    && (forall k :: 0 <= k < |s.answers| ==> 1 <= s.answers[k].sequence <= s.total)
    && (forall k :: 0 <= k < |s.resumes| ==> 1 <= s.resumes[k].sequence <= s.total)
    && (forall i, j :: 0 <= i < |s.questions| && 0 <= j < |s.answers| ==>
        s.questions[i].sequence != s.answers[j].sequence)
    && (forall i, j :: 0 <= i < |s.questions| && 0 <= j < |s.resumes| ==>
        s.questions[i].sequence != s.resumes[j].sequence)
    && (forall i, j :: 0 <= i < |s.answers| && 0 <= j < |s.resumes| ==> s.answers[i].sequence != s.resumes[j].sequence)
  }

  ghost predicate InputReads(s: InputState)
  {
    QuestionsRead(s.questions) && AnswersRead(s.questions, s.answers) && ResumesRead(s.answers, s.resumes)
    && NumbersRead(s)
  }

  lemma SequenceAt(s: InputState, k: nat)
    requires k < |SequencesOf(s)|
    ensures var q, a := |s.questions|, |s.answers|;
            SequencesOf(s)[k] == if k < q then s.questions[k].sequence
                                 else if k < q + a then s.answers[k - q].sequence
                                 else s.resumes[k - q - a].sequence
  {
  }

  lemma NumbersValidRead(s: InputState)
    requires NumbersValid(s)
    ensures NumbersRead(s)
  {
    var ns, q, a := SequencesOf(s), |s.questions|, |s.answers|;
    assert forall i :: 0 <= i < q ==> ns[i] == s.questions[i].sequence;
    assert forall i :: 0 <= i < a ==> ns[q + i] == s.answers[i].sequence;
    assert forall i :: 0 <= i < |s.resumes| ==> ns[q + a + i] == s.resumes[i].sequence;
  }

  lemma NumbersReadValid(s: InputState)
    requires NumbersRead(s)
    requires forall i, j :: 0 <= i < j < |s.questions| ==> s.questions[i].sequence < s.questions[j].sequence
    requires forall i, j :: 0 <= i < j < |s.answers| ==> s.answers[i].sequence < s.answers[j].sequence
    requires forall i, j :: 0 <= i < j < |s.resumes| ==> s.resumes[i].sequence < s.resumes[j].sequence
    ensures NumbersValid(s)
  {
    var ns := SequencesOf(s);
    forall k | 0 <= k < |ns|
      ensures 1 <= ns[k] <= s.total
    {
      SequenceAt(s, k);
    }
    forall i, j | 0 <= i < j < |ns|
      ensures ns[i] != ns[j]
    {
      SequenceAt(s, i);
      SequenceAt(s, j);
    }
  }

  /** A log is accepted exactly if it reads right as a whole. */
  lemma InputExactly(s: InputState)
    ensures InputValid(s) <==> InputReads(s)
  {
    QuestionsExactly(s.questions);
    if QuestionsRead(s.questions) {
      AnswersExactly(s.questions, s.answers);
    }
    ResumesExactly(s.answers, s.resumes);
    if NumbersValid(s) {
      NumbersValidRead(s);
    } else if InputReads(s) {
      NumbersReadValid(s);
    }
  }
}
