/** What a grade means: over every run, objective grades are right about the answer and human ones about the rubric. */
module AssessmentGrades {
  import opened Assessments
  import opened Numerals
  import opened Text

  // An attempt holds the question's rubric; on a question with an exact answer it is graded at once, by comparing
  // the normalized texts, and on any other it has no grade or a human one within the rubric.
  ghost predicate MeantBy(s: Store, a: Id, normalize: Normalizer)
    requires a in s.attempts && s.attempts[a].question in s.questions
  {
    var attempt := s.attempts[a];
    var question := s.questions[attempt.question];
    && attempt.maximum == question.maximum
    && (question.exact ==>
          && question.key.Some? && question.key.value != "" && a in s.grades
          && var right := normalize(attempt.response) == normalize(question.key.value);
             s.grades[a] == Grade(false, if right then 1 else 0, 1, right))
    && (!question.exact && a in s.grades ==>
          && s.grades[a].human && question.maximum == Some(s.grades[a].maximum)
          && 0 <= s.grades[a].score <= s.grades[a].maximum && s.grades[a].score <= 100
          && (s.grades[a].correct <==> s.grades[a].score == s.grades[a].maximum))
  }

  ghost predicate Meaningful(s: Store, normalize: Normalizer) {
    && (forall a :: a in s.attempts ==> s.attempts[a].question in s.questions && MeantBy(s, a, normalize))
    && (forall a :: a in s.grades ==> a in s.attempts)
  }

  // Questions that are asked are never asked differently.
  lemma MoreQuestions(s: Store, s': Store, normalize: Normalizer)
    requires Meaningful(s, normalize) && s'.attempts == s.attempts && s'.grades == s.grades
    requires forall q :: q in s.questions ==> q in s'.questions && s'.questions[q] == s.questions[q]
    ensures Meaningful(s', normalize)
  {
    forall a | a in s'.attempts ensures s'.attempts[a].question in s'.questions && MeantBy(s', a, normalize) {
      assert MeantBy(s, a, normalize);
    }
  }

  lemma AnswerMeans(s: Store, question: Id, id: Id, response: string, normalize: Normalizer)
    requires Meaningful(s, normalize) && question in s.questions
    ensures Meaningful(AnswerStep(s, question, id, response, normalize).0, normalize)
  {
    hide Trim;
    var s' := AnswerStep(s, question, id, response, normalize).0;
    forall a | a in s'.attempts ensures s'.attempts[a].question in s'.questions && MeantBy(s', a, normalize) {
      if a in s.attempts {
        assert MeantBy(s, a, normalize);
      }
    }
  }

  lemma ReviewMeans(s: Store, attempt: Id, score: int, normalize: Normalizer)
    requires Meaningful(s, normalize)
    ensures Meaningful(ReviewStep(s, attempt, score).0, normalize)
  {
    var s' := ReviewStep(s, attempt, score).0;
    forall a | a in s'.attempts ensures s'.attempts[a].question in s'.questions && MeantBy(s', a, normalize) {
      assert MeantBy(s, a, normalize);
    }
  }

  lemma StepMeans(sys: System, a: Action, normalize: Normalizer)
    requires Meaningful(sys.store, normalize)
    ensures Meaningful(Step(sys, a, normalize).store, normalize)
  {
    hide Meaningful, CreateStep, AnswerStep, ReviewStep, QuestionsOf, AttemptsOf;
    match a
    case Create(practiceSet, user, id, copied) =>
      CreateCopies(sys.store, practiceSet, user, id, copied);
      MoreQuestions(sys.store, CreateStep(sys.store, practiceSet, user, id, copied).0, normalize);
    case Start(id, user) => MoreQuestions(sys.store, StartStep(sys.store, id, user).0, normalize);
    case ReadForAnswer(_, _, _, _) =>
    case Answer(actor, attempt, response) =>
      if actor in sys.answering && sys.answering[actor] in sys.store.questions {
        AnswerMeans(sys.store, sys.answering[actor], attempt, response, normalize);
      }
    case CountForSubmit(_, _) =>
    case Submit(id) =>
      if id in sys.store.assessments {
        MoreQuestions(sys.store, SubmitStep(sys.store, id).0, normalize);
      }
    case Review(attempt, score) => ReviewMeans(sys.store, attempt, score, normalize);
  }

  // So it is in every reachable state.
  lemma {:induction false} GradesMean(sys: System, run: seq<Action>, normalize: Normalizer)
    requires Meaningful(sys.store, normalize)
    ensures Meaningful(After(sys, run, normalize).store, normalize)
    decreases |run|
  {
    if run != [] {
      hide Meaningful, Step;
      StepMeans(sys, run[0], normalize);
      GradesMean(Step(sys, run[0], normalize), run[1..], normalize);
    }
  }

  // An assessment is created as a draft of its user, once per practice set, with the questions as they were given.
  lemma CreatedExactly(s: Store, practiceSet: Id, user: Id, id: Id, questions: map<Id, Question>)
    requires id !in s.assessments && forall q :: q in questions ==> q !in s.questions
    ensures var (s', r) := CreateStep(s, practiceSet, user, id, questions);
            if questions == map[] then s' == s && r == Rejected("ASSESSMENT_QUESTION_MISSING")
            else if exists a :: a in s.assessments && s.assessments[a].practiceSet == practiceSet then
              s' == s && r == Done
            else && r == Done && s'.assessments == s.assessments[id := Assessment(practiceSet, user, Draft)]
                 && s'.attempts == s.attempts && s'.grades == s.grades
                 && (forall q :: q in s'.questions <==> q in s.questions || q in questions)
                 && (forall q :: q in s.questions ==> s'.questions[q] == s.questions[q])
                 && (forall q :: q in questions ==> s'.questions[q] == questions[q].(assessment := id))
  {
    assert questions.Keys * s.questions.Keys == {};
  }

  // --- Who may do what --------------------------------------------------------------------------------

  // An assessment is started, answered and submitted by its user only, in the status for it.
  lemma OnlyItsUser(s: Store, id: Id, user: Id, question: Id)
    ensures var mine := id in s.assessments && s.assessments[id].user == user;
            && (StartStep(s, id, user).1.Done? <==> mine && s.assessments[id].status != Submitted)
            && (MayAnswer(s, id, user, question).None? <==>
                mine && s.assessments[id].status == Active
                && question in s.questions && s.questions[question].assessment == id)
            && (MaySubmit(s, id, user).None? <==>
                mine && s.assessments[id].status == Active && AsManyAttempts(s, id))
            && (StartStep(s, id, user).1.Done? ==>
                StartStep(s, id, user).0
                == s.(assessments := s.assessments[id := s.assessments[id].(status := Active)]))
  {
  }

  // Counting and then submitting submits exactly the user's own active assessment with as many attempts as questions;
  // one that has been submitted in between is left as it is.
  lemma SubmittedExactly(sys: System, id: Id, user: Id, normalize: Normalizer)
    requires id !in sys.counted
    ensures var s := sys.store;
            Step(Step(sys, CountForSubmit(id, user), normalize), Submit(id), normalize).store ==
            if id in s.assessments && s.assessments[id].user == user && s.assessments[id].status == Active
               && AsManyAttempts(s, id)
            then s.(assessments := s.assessments[id := s.assessments[id].(status := Submitted)])
            else s
    ensures id in sys.store.assessments && sys.store.assessments[id].status == Submitted ==>
              SubmitStep(sys.store, id) == (sys.store, Rejected("ASSESSMENT_SUBMIT_CONFLICT"))
  {
    hide AsManyAttempts, QuestionsOf, AttemptsOf;
    CountedIfMany(sys.store, id, user);
  }

  lemma CountedIfMany(s: Store, id: Id, user: Id)
    ensures MaySubmit(s, id, user).None? <==>
            id in s.assessments && s.assessments[id].user == user && s.assessments[id].status == Active
            && AsManyAttempts(s, id)
  {
  }

  // An attempt is stored, trimmed, exactly if its question has none yet and can be graded.
  lemma AnsweredOnce(s: Store, question: Id, id: Id, response: string, normalize: Normalizer)
    requires question in s.questions && id !in s.attempts && id !in s.grades
    ensures var (s', r) := AnswerStep(s, question, id, response, normalize);
            && (r.Done? <==> && (forall a :: a in s.attempts ==> s.attempts[a].question != question)
                             && (s.questions[question].exact ==>
                                   s.questions[question].key.Some? && s.questions[question].key.value != ""))
            && (r.Done? ==> id in s'.attempts && s'.attempts[id].response == Trim(response)
                            && s'.attempts[id].question == question
                            && s'.attempts[id].assessment == s.questions[question].assessment)
            && (!r.Done? ==> s' == s)
            && (forall a :: a in s.attempts ==> a in s'.attempts && s'.attempts[a] == s.attempts[a])
            && (forall a :: a in s.grades ==> a in s'.grades && s'.grades[a] == s.grades[a])
  {
    hide Trim;
  }

  // A human grade is given exactly to an ungraded attempt with a rubric, within the rubric and at most 100.
  lemma ReviewedExactly(s: Store, attempt: Id, score: int)
    ensures var (s', r) := ReviewStep(s, attempt, score);
            && (r.Done? <==> && attempt in s.attempts && attempt !in s.grades && s.attempts[attempt].maximum.Some?
                             && 0 <= score <= 100 && score <= s.attempts[attempt].maximum.value != 0)
            && (if r.Done? then
                  s' == s.(grades := s.grades[attempt := s'.grades[attempt]])
                  && s'.grades[attempt].human && s'.grades[attempt].score == score
                else s' == s)
  {
  }
}
