/** Assessments: questions, one attempt each, submission and grading. */
module Assessments {
  import opened FiniteSets
  import opened Numerals
  import opened Text

  type Id = nat

  datatype Status = Draft | Active | Submitted

  datatype Assessment = Assessment(practiceSet: Id, user: Id, status: Status)

  // `key`: the answer key of an exact-response question, None for a free response.
  // `maximum`: the maximum score of a free-response rubric, None if the rubric is of another kind or malformed.
  datatype Question = Question(assessment: Id, exact: bool, key: Option<string>, maximum: Option<int>)

  datatype Attempt = Attempt(question: Id, assessment: Id, response: string, maximum: Option<int>)

  datatype Grade = Grade(human: bool, score: int, maximum: int, correct: bool)

  // Attempts are unique per question and grades unique per attempt by their indexes.
  datatype Store = Store(
    assessments: map<Id, Assessment>, questions: map<Id, Question>,
    attempts: map<Id, Attempt>, grades: map<Id, Grade>
  )

  datatype Reply = Rejected(code: string) | Done

  // Unicode normalisation, trimming, white space and case in the program; nothing is assumed about it here.
  type Normalizer = string -> string

  function QuestionsOf(s: Store, assessment: Id): set<Id> {
    set q | q in s.questions && s.questions[q].assessment == assessment
  }

  function AttemptsOf(s: Store, assessment: Id): set<Id> {
    set a | a in s.attempts && s.attempts[a].assessment == assessment
  }

  predicate Answered(s: Store, question: Id) {
    exists a :: a in s.attempts && s.attempts[a].question == question
  }

  predicate Owned(s: Store, assessment: Id, user: Id) {
    assessment in s.assessments && s.assessments[assessment].user == user
  }

  // --- The steps ---------------------------------------------------------------------------------------

  // Questions are copied once, in the transaction that creates the assessment; an assessment of the same
  // practice set is returned as it is.
  function CreateStep(s: Store, practiceSet: Id, user: Id, id: Id, questions: map<Id, Question>): (Store, Reply) {
    if questions == map[] then (s, Rejected("ASSESSMENT_QUESTION_MISSING"))
    else if exists a :: a in s.assessments && s.assessments[a].practiceSet == practiceSet then (s, Done)
    else if id in s.assessments || questions.Keys * s.questions.Keys != {} then (s, Rejected("23505"))
    else
      var copied := map q | q in questions :: questions[q].(assessment := id);
      (s.(assessments := s.assessments[id := Assessment(practiceSet, user, Draft)],
          questions := s.questions + copied), Done)
  }

  function StartStep(s: Store, id: Id, user: Id): (Store, Reply) {
    if !Owned(s, id, user) then (s, Rejected("ASSESSMENT_NOT_FOUND"))
    else if s.assessments[id].status == Submitted then (s, Rejected("ASSESSMENT_ALREADY_SUBMITTED"))
    else if s.assessments[id].status == Draft then
      (s.(assessments := s.assessments[id := s.assessments[id].(status := Active)]), Done)
    else (s, Done)
  }

  // The reads before the transaction of an attempt.
  function MayAnswer(s: Store, assessment: Id, user: Id, question: Id): Option<string> {
    if !Owned(s, assessment, user) then Some("ASSESSMENT_NOT_FOUND")
    else if s.assessments[assessment].status != Active then Some("ASSESSMENT_NOT_ACTIVE")
    else if question !in s.questions || s.questions[question].assessment != assessment then
      Some("ASSESSMENT_QUESTION_NOT_FOUND")
    else None
  }

  function Objective(response: string, key: string, normalize: Normalizer): Grade {
    var right := normalize(response) == normalize(key);
    Grade(false, if right then 1 else 0, 1, right)
  }

  // The transaction of an attempt, for a question that was read before.
  function AnswerStep(s: Store, question: Id, id: Id, response: string, normalize: Normalizer): (Store, Reply)
    requires question in s.questions
  {
    var q := s.questions[question];
    if Answered(s, question) then (s, Rejected("ASSESSMENT_QUESTION_ALREADY_ANSWERED"))
    else if q.exact && (q.key.None? || q.key.value == "") then (s, Rejected("ASSESSMENT_QUESTION_ANSWER_KEY_MISSING"))
    else if id in s.attempts || id in s.grades then (s, Rejected("23505"))
    else
      var answer := Trim(response);
      var filed := s.(attempts := s.attempts[id := Attempt(question, q.assessment, answer, q.maximum)]);
      if q.exact then (filed.(grades := s.grades[id := Objective(answer, q.key.value, normalize)]), Done)
      else (filed, Done)
  }

  // The counts read before the update of a submission.
  function MaySubmit(s: Store, id: Id, user: Id): Option<string> {
    if !Owned(s, id, user) then Some("ASSESSMENT_NOT_FOUND")
    else if s.assessments[id].status != Active then Some("ASSESSMENT_NOT_ACTIVE")
    else if |QuestionsOf(s, id)| != |AttemptsOf(s, id)| then Some("ASSESSMENT_ATTEMPTS_INCOMPLETE")
    else None
  }

  function SubmitStep(s: Store, id: Id): (Store, Reply)
    requires id in s.assessments
  {
    if s.assessments[id].status != Active then (s, Rejected("ASSESSMENT_SUBMIT_CONFLICT"))
    else (s.(assessments := s.assessments[id := s.assessments[id].(status := Submitted)]), Done)
  }

  // A human score, which the request schema bounds by 0 and 100.
  function ReviewStep(s: Store, attempt: Id, score: int): (Store, Reply) {
    if score < 0 || score > 100 then (s, Rejected("INPUT_INVALID"))
    else if attempt !in s.attempts then (s, Rejected("MANUAL_REVIEW_ATTEMPT_NOT_FOUND"))
    else if attempt in s.grades then (s, Rejected("MANUAL_REVIEW_ALREADY_GRADED"))
    else
      var maximum := s.attempts[attempt].maximum;
      if maximum.None? || maximum.value == 0 then (s, Rejected("MANUAL_REVIEW_ATTEMPT_NOT_ELIGIBLE"))
      else if score > maximum.value then (s, Rejected("MANUAL_REVIEW_SCORE_INVALID"))
      else (s.(grades := s.grades[attempt := Grade(true, score, maximum.value, score == maximum.value)]), Done)
  }

  class AssessmentStore {
    var assessments: map<Id, Assessment>
    var questions: map<Id, Question>
    var attempts: map<Id, Attempt>
    var grades: map<Id, Grade>
    const normalize: Normalizer

    ghost function Model(): Store
      reads this
    {
      Store(assessments, questions, attempts, grades)
    }

    constructor (normalize: Normalizer)
      ensures Model() == Store(map[], map[], map[], map[]) && this.normalize == normalize
    {
      assessments, questions, attempts, grades := map[], map[], map[], map[];
      this.normalize := normalize;
    }

    method CreateAssessment(practiceSet: Id, user: Id, id: Id, copied: map<Id, Question>) returns (r: Reply)
      modifies this`assessments, this`questions
      ensures Model() == CreateStep(old(Model()), practiceSet, user, id, copied).0
      ensures r == CreateStep(old(Model()), practiceSet, user, id, copied).1
    {
      if copied == map[] {
        return Rejected("ASSESSMENT_QUESTION_MISSING");
      }
      if exists a :: a in assessments && assessments[a].practiceSet == practiceSet {
        return Done;
      }
      if id in assessments || copied.Keys * questions.Keys != {} {
        return Rejected("23505");
      }
      assessments := assessments[id := Assessment(practiceSet, user, Draft)];
      questions := questions + map q | q in copied :: copied[q].(assessment := id);
      r := Done;
    }

    method StartAssessment(id: Id, user: Id) returns (r: Reply)
      modifies this`assessments
      ensures Model() == StartStep(old(Model()), id, user).0
      ensures r == StartStep(old(Model()), id, user).1
    {
      if id !in assessments || assessments[id].user != user {
        return Rejected("ASSESSMENT_NOT_FOUND");
      }
      if assessments[id].status == Submitted {
        return Rejected("ASSESSMENT_ALREADY_SUBMITTED");
      }
      if assessments[id].status == Draft {
        assessments := assessments[id := assessments[id].(status := Active)];
      }
      r := Done;
    }

    method SubmitAttempt(assessment: Id, user: Id, question: Id, id: Id, response: string) returns (r: Reply)
      modifies this`attempts, this`grades
      ensures MayAnswer(old(Model()), assessment, user, question).Some? ==>
                Model() == old(Model()) && r == Rejected(MayAnswer(old(Model()), assessment, user, question).value)
      ensures MayAnswer(old(Model()), assessment, user, question).None? ==>
                && Model() == AnswerStep(old(Model()), question, id, response, normalize).0
                && r == AnswerStep(old(Model()), question, id, response, normalize).1
    {
      if assessment !in assessments || assessments[assessment].user != user {
        return Rejected("ASSESSMENT_NOT_FOUND");
      }
      if assessments[assessment].status != Active {
        return Rejected("ASSESSMENT_NOT_ACTIVE");
      }
      if question !in questions || questions[question].assessment != assessment {
        return Rejected("ASSESSMENT_QUESTION_NOT_FOUND");
      }
      var q := questions[question];
      if exists a :: a in attempts && attempts[a].question == question {
        return Rejected("ASSESSMENT_QUESTION_ALREADY_ANSWERED");
      }
      if q.exact && (q.key.None? || q.key.value == "") {
        return Rejected("ASSESSMENT_QUESTION_ANSWER_KEY_MISSING");
      }
      if id in attempts || id in grades {
        return Rejected("23505");
      }
      var answer := Trim(response);
      attempts := attempts[id := Attempt(question, assessment, answer, q.maximum)];
      if q.exact {
        grades := grades[id := Objective(answer, q.key.value, normalize)];
      }
      r := Done;
    }

    method SubmitAssessment(id: Id, user: Id) returns (r: Reply)
      modifies this`assessments
      ensures MaySubmit(old(Model()), id, user).Some? ==>
                Model() == old(Model()) && r == Rejected(MaySubmit(old(Model()), id, user).value)
      ensures MaySubmit(old(Model()), id, user).None? ==>
                Model() == SubmitStep(old(Model()), id).0 && r == Done
    {
      if id !in assessments || assessments[id].user != user {
        return Rejected("ASSESSMENT_NOT_FOUND");
      }
      if assessments[id].status != Active {
        return Rejected("ASSESSMENT_NOT_ACTIVE");
      }
      var asked := set q | q in questions && questions[q].assessment == id;
      var answered := set a | a in attempts && attempts[a].assessment == id;
      assert asked == QuestionsOf(Model(), id) && answered == AttemptsOf(Model(), id);
      if |asked| != |answered| {
        return Rejected("ASSESSMENT_ATTEMPTS_INCOMPLETE");
      }
      assessments := assessments[id := assessments[id].(status := Submitted)];
      r := Done;
    }

    method SubmitReview(attempt: Id, score: int) returns (r: Reply)
      modifies this`grades
      ensures Model() == ReviewStep(old(Model()), attempt, score).0
      ensures r == ReviewStep(old(Model()), attempt, score).1
    {
      if score < 0 || score > 100 {
        return Rejected("INPUT_INVALID");
      }
      if attempt !in attempts {
        return Rejected("MANUAL_REVIEW_ATTEMPT_NOT_FOUND");
      }
      if attempt in grades {
        return Rejected("MANUAL_REVIEW_ALREADY_GRADED");
      }
      var maximum := attempts[attempt].maximum;
      if maximum.None? || maximum.value == 0 {
        return Rejected("MANUAL_REVIEW_ATTEMPT_NOT_ELIGIBLE");
      }
      if score > maximum.value {
        return Rejected("MANUAL_REVIEW_SCORE_INVALID");
      }
      grades := grades[attempt := Grade(true, score, maximum.value, score == maximum.value)];
      r := Done;
    }
  }

  // --- Every interleaving ------------------------------------------------------------------------------

  // `answering` are the attempts that passed their reads; `counted` the submissions that found the counts equal.
  datatype System = System(store: Store, answering: map<Id, Id>, counted: set<Id>)

  datatype Action =
    | Create(practiceSet: Id, user: Id, id: Id, copied: map<Id, Question>)
    | Start(id: Id, user: Id)
    | ReadForAnswer(actor: Id, assessment: Id, user: Id, question: Id)
    | Answer(actor: Id, attempt: Id, response: string)
    | CountForSubmit(id: Id, user: Id)
    | Submit(id: Id)
    | Review(attempt: Id, score: int)

  function Step(sys: System, a: Action, normalize: Normalizer): System {
    var s := sys.store;
    match a
    case Create(practiceSet, user, id, copied) => sys.(store := CreateStep(s, practiceSet, user, id, copied).0)
    case Start(id, user) => sys.(store := StartStep(s, id, user).0)
    case ReadForAnswer(actor, assessment, user, question) =>
      if MayAnswer(s, assessment, user, question).Some? then sys
      else sys.(answering := sys.answering[actor := question])
    case Answer(actor, attempt, response) =>
      if actor !in sys.answering || sys.answering[actor] !in s.questions then sys
      else sys.(store := AnswerStep(s, sys.answering[actor], attempt, response, normalize).0,
                answering := sys.answering - {actor})
    case CountForSubmit(id, user) =>
      if MaySubmit(s, id, user).Some? then sys else sys.(counted := sys.counted + {id})
    case Submit(id) =>
      if id !in sys.counted || id !in s.assessments then sys else sys.(store := SubmitStep(s, id).0)
    case Review(attempt, score) => sys.(store := ReviewStep(s, attempt, score).0)
  }

  function After(sys: System, run: seq<Action>, normalize: Normalizer): System
    decreases |run|
  {
    if run == [] then sys else After(Step(sys, run[0], normalize), run[1..], normalize)
  }

  predicate FairGrade(g: Grade) {
    0 <= g.score <= g.maximum && 0 < g.maximum && (g.correct <==> g.score == g.maximum)
  }

  ghost predicate Consistent(s: Store) {
    && (forall q :: q in s.questions ==> s.questions[q].assessment in s.assessments)
    && (forall a :: a in s.attempts ==>
          s.attempts[a].question in s.questions
            && s.attempts[a].assessment == s.questions[s.attempts[a].question].assessment)
    && (forall a, b :: a in s.attempts && b in s.attempts && a != b ==>
        s.attempts[a].question != s.attempts[b].question)
    && (forall a :: a in s.grades ==> a in s.attempts && FairGrade(s.grades[a]))
  }

  predicate AsManyAttempts(s: Store, id: Id) {
    |QuestionsOf(s, id)| == |AttemptsOf(s, id)|
  }

  ghost predicate Sound(sys: System) {
    var s := sys.store;
    && Consistent(s)
    && (forall actor :: actor in sys.answering ==> sys.answering[actor] in s.questions)
    && (forall id :: id in sys.counted ==> id in s.assessments && AsManyAttempts(s, id))
    && (forall id :: id in s.assessments && s.assessments[id].status == Submitted ==> AsManyAttempts(s, id))
  }

  // --- Pigeonhole --------------------------------------------------------------------------------------

  lemma {:induction false} ImageSize(s: Store, attempts: set<Id>)
    requires Consistent(s) && forall a :: a in attempts ==> a in s.attempts
    ensures |set a | a in attempts :: s.attempts[a].question| == |attempts|
  {
    if attempts != {} {
      var x :| x in attempts;
      ImageSize(s, attempts - {x});
      var smaller := set a | a in attempts - {x} :: s.attempts[a].question;
      assert (set a | a in attempts :: s.attempts[a].question) == smaller + {s.attempts[x].question};
      assert s.attempts[x].question !in smaller;
    }
  }

  // As many attempts as questions, and no question attempted twice: every question has been answered.
  lemma EveryQuestionAnswered(s: Store, id: Id, question: Id)
    requires Consistent(s) && AsManyAttempts(s, id) && question in QuestionsOf(s, id)
    ensures Answered(s, question)
  {
    var attempts := AttemptsOf(s, id);
    ImageSize(s, attempts);
    var answered := set a | a in attempts :: s.attempts[a].question;
    SubsetSize(answered, QuestionsOf(s, id));
    assert question in answered;
  }

  // --- Every step keeps it ---------------------------------------------------------------------------------

  // The counts depend on the questions and the attempts alone.
  lemma SameCounts(s: Store, s': Store)
    requires s'.questions == s.questions && s'.attempts == s.attempts
    ensures forall id :: AsManyAttempts(s', id) == AsManyAttempts(s, id)
  {
    forall id ensures AsManyAttempts(s', id) == AsManyAttempts(s, id) {
      assert QuestionsOf(s', id) == QuestionsOf(s, id) && AttemptsOf(s', id) == AttemptsOf(s, id);
    }
  }

  lemma CreateCopies(s: Store, practiceSet: Id, user: Id, id: Id, copied: map<Id, Question>)
    ensures var s' := CreateStep(s, practiceSet, user, id, copied).0;
            && s'.attempts == s.attempts && s'.grades == s.grades
            && (forall a :: a in s.assessments ==> a in s'.assessments && s'.assessments[a] == s.assessments[a])
            && (forall a :: a in s'.assessments && a !in s.assessments ==> s'.assessments[a].status == Draft)
            && (forall q :: q in s.questions ==> q in s'.questions && s'.questions[q] == s.questions[q])
            && (forall q :: q in s'.questions && q !in s.questions ==>
                id !in s.assessments && id in s'.assessments && s'.questions[q].assessment == id)
  {
    forall q | q in s.questions && q in copied ensures q in copied.Keys * s.questions.Keys {
    }
  }

  lemma CreateSound(sys: System, practiceSet: Id, user: Id, id: Id, copied: map<Id, Question>, normalize: Normalizer)
    requires Sound(sys)
    ensures Sound(Step(sys, Create(practiceSet, user, id, copied), normalize))
  {
    var s, s' := sys.store, CreateStep(sys.store, practiceSet, user, id, copied).0;
    CreateCopies(s, practiceSet, user, id, copied);
    hide CreateStep, FairGrade;
    assert Consistent(s');
    forall a | a in s.assessments ensures AsManyAttempts(s', a) == AsManyAttempts(s, a) {
      assert QuestionsOf(s', a) == QuestionsOf(s, a) && AttemptsOf(s', a) == AttemptsOf(s, a);
    }
  }

  lemma AnswerConsistent(s: Store, question: Id, id: Id, response: string, normalize: Normalizer)
    requires Consistent(s) && question in s.questions
    ensures Consistent(AnswerStep(s, question, id, response, normalize).0)
  {
    hide Trim;
  }

  // An attempt is filed only for an assessment that still lacks one.
  lemma AnswerCounts(s: Store, question: Id, attempt: Id, response: string, normalize: Normalizer, id: Id)
    requires Consistent(s) && question in s.questions && AsManyAttempts(s, id)
    ensures AsManyAttempts(AnswerStep(s, question, attempt, response, normalize).0, id)
  {
    hide Trim, Objective, FairGrade;
    var s' := AnswerStep(s, question, attempt, response, normalize).0;
    if question in QuestionsOf(s, id) {
      EveryQuestionAnswered(s, id, question);
      assert s' == s;
    } else {
      assert QuestionsOf(s', id) == QuestionsOf(s, id) && AttemptsOf(s', id) == AttemptsOf(s, id);
    }
  }

  lemma AnswerSound(sys: System, actor: Id, attempt: Id, response: string, normalize: Normalizer)
    requires Sound(sys) && actor in sys.answering
    ensures Sound(Step(sys, Answer(actor, attempt, response), normalize))
  {
    var s, question := sys.store, sys.answering[actor];
    var s' := AnswerStep(s, question, attempt, response, normalize).0;
    AnswerConsistent(s, question, attempt, response, normalize);
    AnswerKeeps(s, question, attempt, response, normalize);
    hide Consistent, AsManyAttempts, AnswerStep;
    forall id | AsManyAttempts(s, id) ensures AsManyAttempts(s', id) {
      AnswerCounts(s, question, attempt, response, normalize, id);
    }
  }

  lemma AnswerKeeps(s: Store, question: Id, attempt: Id, response: string, normalize: Normalizer)
    requires question in s.questions
    ensures var s' := AnswerStep(s, question, attempt, response, normalize).0;
            s'.assessments == s.assessments && s'.questions == s.questions
  {
  }

  lemma StatusSound(sys: System, id: Id, status: Status)
    requires Sound(sys) && id in sys.store.assessments && (status == Submitted ==> AsManyAttempts(sys.store, id))
    ensures var moved := sys.store.assessments[id].(status := status);
            Sound(sys.(store := sys.store.(assessments := sys.store.assessments[id := moved])))
  {
    hide AsManyAttempts, FairGrade;
    var s := sys.store;
    SameCounts(s, s.(assessments := s.assessments[id := s.assessments[id].(status := status)]));
  }

  lemma ReviewSound(sys: System, attempt: Id, score: int, normalize: Normalizer)
    requires Sound(sys)
    ensures Sound(Step(sys, Review(attempt, score), normalize))
  {
    hide AsManyAttempts, Consistent, QuestionsOf, AttemptsOf;
    SameCounts(sys.store, ReviewStep(sys.store, attempt, score).0);
    ReviewConsistent(sys.store, attempt, score);
  }

  lemma ReviewConsistent(s: Store, attempt: Id, score: int)
    requires Consistent(s)
    ensures Consistent(ReviewStep(s, attempt, score).0)
  {
  }

  lemma StepSound(sys: System, a: Action, normalize: Normalizer)
    requires Sound(sys)
    ensures Sound(Step(sys, a, normalize))
  {
    hide Consistent, AnswerStep, ReviewStep, CreateStep, AsManyAttempts;
    match a
    case Create(practiceSet, user, id, copied) => CreateSound(sys, practiceSet, user, id, copied, normalize);
    case Start(id, user) =>
      if Owned(sys.store, id, user) {
        StatusSound(sys, id, Active);
      }
    case ReadForAnswer(_, _, _, _) =>
    case Answer(actor, attempt, response) =>
      if actor in sys.answering {
        AnswerSound(sys, actor, attempt, response, normalize);
      }
    case CountForSubmit(id, user) => CountSound(sys, id, user, normalize);
    case Submit(id) =>
      if id in sys.counted {
        StatusSound(sys, id, Submitted);
      }
    case Review(attempt, score) => ReviewSound(sys, attempt, score, normalize);
  }

  lemma CountSound(sys: System, id: Id, user: Id, normalize: Normalizer)
    requires Sound(sys)
    ensures Sound(Step(sys, CountForSubmit(id, user), normalize))
  {
    hide Consistent;
  }

  lemma {:induction false} RunSound(sys: System, run: seq<Action>, normalize: Normalizer)
    requires Sound(sys)
    ensures Sound(After(sys, run, normalize))
    decreases |run|
  {
    hide Sound, Step;
    if run != [] {
      StepSound(sys, run[0], normalize);
      RunSound(Step(sys, run[0], normalize), run[1..], normalize);
    }
  }

  function Fresh(): System {
    System(Store(map[], map[], map[], map[]), map[], {})
  }

  // In every reachable state a submitted assessment has exactly one attempt for each of its questions, every
  // attempt has at most one grade, and every grade is fair, however stale the reads of its writers were.
  lemma SubmittedIsComplete(run: seq<Action>, normalize: Normalizer, id: Id, question: Id)
    requires var s := After(Fresh(), run, normalize).store;
             id in s.assessments && s.assessments[id].status == Submitted && question in QuestionsOf(s, id)
    ensures var s := After(Fresh(), run, normalize).store;
            exists a :: a in s.attempts && s.attempts[a].question == question
                        && forall b :: b in s.attempts && s.attempts[b].question == question ==> b == a
  {
    RunSound(Fresh(), run, normalize);
    var s := After(Fresh(), run, normalize).store;
    EveryQuestionAnswered(s, id, question);
    var a :| a in s.attempts && s.attempts[a].question == question;
  }

  lemma GradesAreFair(run: seq<Action>, normalize: Normalizer, attempt: Id)
    requires attempt in After(Fresh(), run, normalize).store.grades
    ensures FairGrade(After(Fresh(), run, normalize).store.grades[attempt])
  {
    RunSound(Fresh(), run, normalize);
  }

  // A grade, once given, is never replaced.
  lemma {:induction false} GradedOnce(sys: System, run: seq<Action>, normalize: Normalizer, attempt: Id)
    requires attempt in sys.store.grades
    ensures attempt in After(sys, run, normalize).store.grades
    ensures After(sys, run, normalize).store.grades[attempt] == sys.store.grades[attempt]
    decreases |run|
  {
    if run != [] {
      StepKeepsGrades(sys, run[0], normalize, attempt);
      hide Step;
      GradedOnce(Step(sys, run[0], normalize), run[1..], normalize, attempt);
    }
  }

  lemma StepKeepsGrades(sys: System, a: Action, normalize: Normalizer, attempt: Id)
    requires attempt in sys.store.grades
    ensures attempt in Step(sys, a, normalize).store.grades
    ensures Step(sys, a, normalize).store.grades[attempt] == sys.store.grades[attempt]
  {
    hide Trim, Objective;
  }
}
