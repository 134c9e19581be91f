/** The request handlers of the curriculum in course/views.py: the nested
    lesson create with its videos, learning materials, questions and
    answers, the material and question creates, the "update only the
    supplied fields" edits of every table, and the check of a learner's
    answer. Each handler checks its inputs in a fixed order and answers
    with the status of the first failure. */
module CourseViews {
  import opened Common
  import opened CourseModels

  // ---------------------------------------------------------------------
  // The nested lesson create: request entries and the rows its loops make

  /** One entry of a lesson's `videos` list. */
  datatype VideoInput = VideoInput(name: Option<string>, url: Option<string>)

  /** One entry of a lesson's `learning_materials` list; `description`
      is None when the key is absent. */
  datatype MaterialInput = MaterialInput(
    title: Option<string>,
    materialType: Option<string>,
    description: Option<string>,
    gameUrl: Option<string>)

  /** One entry of a question's `answers` list. */
  datatype AnswerInput = AnswerInput(text: Option<string>, isCorrect: Option<bool>)

  /** One entry of a lesson's `questions` list. */
  datatype QuestionInput = QuestionInput(text: Option<string>, explanation: Option<string>, answers: seq<AnswerInput>)

  /** The video rows the videos loop makes from the first `n` entries: one
      per entry with a truthy name, all sharing the request's one
      `video_file`. */
  function VideoRows(lesson: Id, file: Option<string>, vids: seq<VideoInput>, n: nat): (r: seq<Video>)
    requires n <= |vids|
    ensures |r| <= n
  {
    if n == 0 then []
    else VideoRows(lesson, file, vids, n - 1)
           + (if Present(vids[n - 1].name) then [Video(Some(lesson), vids[n - 1].name.value, vids[n - 1].url, file)] else [])
  }

  /** A video entry the loop keeps: it has a truthy name. */
  predicate NamedVideo(v: VideoInput) {
    Present(v.name)
  }

  /** The videos loop creates exactly one row per named entry, every one
      of them named and attached to the lesson. */
  lemma {:induction false} VideoRowsCount(lesson: Id, file: Option<string>, vids: seq<VideoInput>, n: nat)
    requires n <= |vids|
    ensures |VideoRows(lesson, file, vids, n)| == |KeptIndices(vids, NamedVideo, n)|
    ensures forall j | 0 <= j < |VideoRows(lesson, file, vids, n)| ::
              VideoRows(lesson, file, vids, n)[j].lesson == Some(lesson) && VideoRows(lesson, file, vids, n)[j].name != ""
  {
    if n > 0 {
      VideoRowsCount(lesson, file, vids, n - 1);
      KeptIndicesStep(vids, NamedVideo, n);
    }
  }

  /** A material entry the loop checks: both title and type are truthy. */
  predicate Checked(m: MaterialInput) {
    Present(m.title) && Present(m.materialType)
  }

  /** A checked entry whose type is not one of `LearningMaterial.CHOICES`:
      the loop answers 400 when it reaches it. */
  predicate Rejected(m: MaterialInput) {
    Checked(m) && m.materialType.value !in MaterialTypes
  }

  /** The row made for a checked entry: `description` defaults to the empty
      string, and every row shares the request's one `file`. */
  function MaterialRow(lesson: Id, file: Option<string>, m: MaterialInput): Material {
    Material(Some(lesson), m.title, file, m.materialType, Some(OrElse(m.description, "")), m.gameUrl)
  }

  /** The material rows made from the first `n` entries: one per checked
      entry. */
  function MaterialRows(lesson: Id, file: Option<string>, mats: seq<MaterialInput>, n: nat): (r: seq<Material>)
    requires n <= |mats|
    ensures |r| <= n
  {
    if n == 0 then []
    else MaterialRows(lesson, file, mats, n - 1)
           + (if Checked(mats[n - 1]) then [MaterialRow(lesson, file, mats[n - 1])] else [])
  }

  /** How many entries the materials loop gets through: those before the
      first rejected one, or all of them. */
  function Accepted(mats: seq<MaterialInput>): (r: nat)
    ensures r <= |mats|
    ensures forall j | 0 <= j < r :: !Rejected(mats[j])
    ensures r < |mats| ==> Rejected(mats[r])
  {
    if mats == [] then 0
    else if Rejected(mats[0]) then 0
    else 1 + Accepted(mats[1..])
  }

  /** The first rejected entry is the only place the loop can stop. */
  lemma {:induction false} AcceptedIs(mats: seq<MaterialInput>, i: nat)
    requires i <= |mats|
    requires forall j | 0 <= j < i :: !Rejected(mats[j])
    requires i == |mats| || Rejected(mats[i])
    ensures Accepted(mats) == i
  {
    if i > 0 {
      assert !Rejected(mats[0]);
      assert forall j | 0 <= j < i - 1 :: mats[1..][j] == mats[j + 1];
      AcceptedIs(mats[1..], i - 1);
    }
  }

  /** Every material the loop creates before it stops is attached to the
      lesson, titled, and typed with one of `LearningMaterial.CHOICES`. */
  lemma {:induction false} MaterialRowsTyped(lesson: Id, file: Option<string>, mats: seq<MaterialInput>, n: nat)
    requires n <= Accepted(mats)
    ensures forall j | 0 <= j < |MaterialRows(lesson, file, mats, n)| ::
              && MaterialRows(lesson, file, mats, n)[j].lesson == Some(lesson)
              && Present(MaterialRows(lesson, file, mats, n)[j].title)
              && MaterialRows(lesson, file, mats, n)[j].materialType.Some?
              && MaterialRows(lesson, file, mats, n)[j].materialType.value in MaterialTypes
  {
    if n > 0 {
      MaterialRowsTyped(lesson, file, mats, n - 1);
      assert !Rejected(mats[n - 1]);
    }
  }

  /** The materials loop creates exactly one row per checked entry it gets
      through. */
  lemma {:induction false} MaterialRowsCount(lesson: Id, file: Option<string>, mats: seq<MaterialInput>, n: nat)
    requires n <= |mats|
    ensures |MaterialRows(lesson, file, mats, n)| == |KeptIndices(mats, Checked, n)|
  {
    if n > 0 {
      MaterialRowsCount(lesson, file, mats, n - 1);
      KeptIndicesStep(mats, Checked, n);
    }
  }

  /** The row made for an answer entry: `is_correct` defaults to False. */
  function AnswerRow(a: AnswerInput): Answer {
    Answer(OrElse(a.text, ""), OrElse(a.isCorrect, false))
  }

  /** The answer rows made for one question from its first `n` entries: one
      per entry with a truthy text. */
  function AnswerRows(answers: seq<AnswerInput>, n: nat): (r: seq<Answer>)
    requires n <= |answers|
    ensures |r| <= n
  {
    if n == 0 then []
    else AnswerRows(answers, n - 1) + (if Present(answers[n - 1].text) then [AnswerRow(answers[n - 1])] else [])
  }

  /** An answer or question entry the loops keep: it has a truthy text. */
  predicate TextedAnswer(a: AnswerInput) {
    Present(a.text)
  }

  predicate TextedQuestion(q: QuestionInput) {
    Present(q.text)
  }

  /** The answers loop creates exactly one row per entry with a text. */
  lemma {:induction false} AnswerRowsCount(answers: seq<AnswerInput>, n: nat)
    requires n <= |answers|
    ensures |AnswerRows(answers, n)| == |KeptIndices(answers, TextedAnswer, n)|
  {
    if n > 0 {
      AnswerRowsCount(answers, n - 1);
      KeptIndicesStep(answers, TextedAnswer, n);
    }
  }

  /** The answer rows the questions loop makes for the first `n` entries,
      question by question; a question without a text is skipped with its
      answers. */
  function QuestionAnswerRows(qs: seq<QuestionInput>, n: nat): (r: seq<Answer>)
    requires n <= |qs|
  {
    if n == 0 then []
    else QuestionAnswerRows(qs, n - 1)
           + (if Present(qs[n - 1].text) then AnswerRows(qs[n - 1].answers, |qs[n - 1].answers|) else [])
  }

  /** The question row made for entry `n - 1` when the answers are numbered
      from `firstAnswer`: `explanation` defaults to the empty string, and
      the answer set holds the ids of the answers made for it. */
  function QuestionRow(lesson: Id, firstAnswer: nat, qs: seq<QuestionInput>, n: nat): Question
    requires 0 < n <= |qs|
  {
    var q := qs[n - 1];
    var from := firstAnswer + |QuestionAnswerRows(qs, n - 1)|;
    Question(Some(lesson), OrElse(q.text, ""), Some(OrElse(q.explanation, "")),
             Range(from, from + |AnswerRows(q.answers, |q.answers|)|))
  }

  /** The question rows the questions loop makes from the first `n`
      entries: one per entry with a truthy text. */
  function QuestionRows(lesson: Id, firstAnswer: nat, qs: seq<QuestionInput>, n: nat): (r: seq<Question>)
    requires n <= |qs|
    ensures |r| <= n
  {
    if n == 0 then []
    else QuestionRows(lesson, firstAnswer, qs, n - 1)
           + (if Present(qs[n - 1].text) then [QuestionRow(lesson, firstAnswer, qs, n)] else [])
  }

  /** The questions loop creates exactly one row per entry with a text. */
  lemma {:induction false} QuestionRowsCount(lesson: Id, firstAnswer: nat, qs: seq<QuestionInput>, n: nat)
    requires n <= |qs|
    ensures |QuestionRows(lesson, firstAnswer, qs, n)| == |KeptIndices(qs, TextedQuestion, n)|
  {
    if n > 0 {
      QuestionRowsCount(lesson, firstAnswer, qs, n - 1);
      KeptIndicesStep(qs, TextedQuestion, n);
    }
  }

  /** Each question the loop creates holds exactly one answer per answer
      entry with a text. */
  lemma QuestionRowAnswers(lesson: Id, firstAnswer: nat, qs: seq<QuestionInput>, n: nat)
    requires 0 < n <= |qs|
    ensures |QuestionRow(lesson, firstAnswer, qs, n).answers|
              == |KeptIndices(qs[n - 1].answers, TextedAnswer, |qs[n - 1].answers|)|
  {
    var q := qs[n - 1];
    var from := firstAnswer + |QuestionAnswerRows(qs, n - 1)|;
    RangeSize(from, from + |AnswerRows(q.answers, |q.answers|)|);
    AnswerRowsCount(q.answers, |q.answers|);
  }

  /** Every question the loop creates is attached to the lesson, has a
      text, and holds only answers the same request created. */
  lemma {:induction false} QuestionRowsBelong(lesson: Id, firstAnswer: nat, qs: seq<QuestionInput>, n: nat)
    requires n <= |qs|
    ensures forall j | 0 <= j < |QuestionRows(lesson, firstAnswer, qs, n)| ::
              && QuestionRows(lesson, firstAnswer, qs, n)[j].lesson == Some(lesson)
              && QuestionRows(lesson, firstAnswer, qs, n)[j].text != ""
              && QuestionRows(lesson, firstAnswer, qs, n)[j].answers
                   <= Range(firstAnswer, firstAnswer + |QuestionAnswerRows(qs, n)|)
  {
    if n > 0 {
      QuestionRowsBelong(lesson, firstAnswer, qs, n - 1);
      var prev := QuestionRows(lesson, firstAnswer, qs, n - 1);
      var hi := firstAnswer + |QuestionAnswerRows(qs, n)|;
      assert |QuestionAnswerRows(qs, n - 1)| <= |QuestionAnswerRows(qs, n)|;
      if Present(qs[n - 1].text) {
        var r := prev + [QuestionRow(lesson, firstAnswer, qs, n)];
        forall j | 0 <= j < |r| ensures r[j].lesson == Some(lesson) && r[j].text != "" && r[j].answers <= Range(firstAnswer, hi) {
          if j < |prev| {
            assert r[j] == prev[j];
          }
        }
        assert QuestionRows(lesson, firstAnswer, qs, n) == r;
      } else {
        assert QuestionRows(lesson, firstAnswer, qs, n) == prev + [] == prev;
        assert QuestionAnswerRows(qs, n) == QuestionAnswerRows(qs, n - 1) + [] == QuestionAnswerRows(qs, n - 1);
      }
    }
  }

  // ---------------------------------------------------------------------
  // The loops of the nested create

  /** The videos loop: one Video row per named entry, numbered from `next`. */
  method AddVideos(videos: map<Id, Video>, next: nat, lesson: Id, file: Option<string>, vids: seq<VideoInput>)
    returns (videos': map<Id, Video>, next': nat)
    ensures next' == next + |VideoRows(lesson, file, vids, |vids|)|
    ensures videos' == videos + Numbered(next, VideoRows(lesson, file, vids, |vids|))
  {
    videos', next' := videos, next;
    for i := 0 to |vids|
      invariant next' == next + |VideoRows(lesson, file, vids, i)|
      invariant videos' == videos + Numbered(next, VideoRows(lesson, file, vids, i))
    {
      if Present(vids[i].name) {
        var row := Video(Some(lesson), vids[i].name.value, vids[i].url, file);
        NumberedSnoc(videos, next, VideoRows(lesson, file, vids, i), row);
        videos' := videos'[next' := row];
        next' := next' + 1;
      } else {
        assert VideoRows(lesson, file, vids, i + 1) == VideoRows(lesson, file, vids, i);
      }
    }
  }

  /** The materials loop: one LearningMaterial row per checked entry,
      numbered from `next`, until an entry is rejected. `stop` is the index
      of the rejected entry, or the length of the list when there is none. */
  method AddMaterials(materials: map<Id, Material>, next: nat, lesson: Id, file: Option<string>, mats: seq<MaterialInput>)
    returns (materials': map<Id, Material>, next': nat, stop: nat)
    ensures stop == Accepted(mats)
    ensures next' == next + |MaterialRows(lesson, file, mats, stop)|
    ensures materials' == materials + Numbered(next, MaterialRows(lesson, file, mats, stop))
  {
    materials', next' := materials, next;
    stop := 0;
    while stop < |mats| && !Rejected(mats[stop])
      invariant stop <= |mats|
      invariant forall j | 0 <= j < stop :: !Rejected(mats[j])
      invariant next' == next + |MaterialRows(lesson, file, mats, stop)|
      invariant materials' == materials + Numbered(next, MaterialRows(lesson, file, mats, stop))
    {
      if Checked(mats[stop]) {
        var row := MaterialRow(lesson, file, mats[stop]);
        NumberedSnoc(materials, next, MaterialRows(lesson, file, mats, stop), row);
        materials' := materials'[next' := row];
        next' := next' + 1;
      } else {
        assert MaterialRows(lesson, file, mats, stop + 1) == MaterialRows(lesson, file, mats, stop);
      }
      stop := stop + 1;
    }
    AcceptedIs(mats, stop);
  }

  /** The answers loop of one question: one Answer row per entry with a
      text. */
  method AddAnswers(answers: map<Id, Answer>, next: nat, entries: seq<AnswerInput>)
    returns (answers': map<Id, Answer>, next': nat)
    ensures next' == next + |AnswerRows(entries, |entries|)|
    ensures answers' == answers + Numbered(next, AnswerRows(entries, |entries|))
  {
    answers', next' := answers, next;
    for i := 0 to |entries|
      invariant next' == next + |AnswerRows(entries, i)|
      invariant answers' == answers + Numbered(next, AnswerRows(entries, i))
    {
      if Present(entries[i].text) {
        NumberedSnoc(answers, next, AnswerRows(entries, i), AnswerRow(entries[i]));
        answers' := answers'[next' := AnswerRow(entries[i])];
        next' := next' + 1;
      } else {
        assert AnswerRows(entries, i + 1) == AnswerRows(entries, i);
      }
    }
  }

  /** A question entry `i` with a text adds one question, numbered right
      after those of the earlier entries. */
  lemma QuestionRowsStep(questions: map<Id, Question>, nextQuestion: nat, lesson: Id, nextAnswer: nat,
                         qs: seq<QuestionInput>, i: nat, cur: map<Id, Question>, curNext: nat)
    requires i < |qs| && Present(qs[i].text)
    requires curNext == nextQuestion + |QuestionRows(lesson, nextAnswer, qs, i)|
    requires cur == questions + Numbered(nextQuestion, QuestionRows(lesson, nextAnswer, qs, i))
    ensures curNext + 1 == nextQuestion + |QuestionRows(lesson, nextAnswer, qs, i + 1)|
    ensures cur[curNext := QuestionRow(lesson, nextAnswer, qs, i + 1)]
              == questions + Numbered(nextQuestion, QuestionRows(lesson, nextAnswer, qs, i + 1))
  {
    NumberedSnoc(questions, nextQuestion, QuestionRows(lesson, nextAnswer, qs, i), QuestionRow(lesson, nextAnswer, qs, i + 1));
  }

  /** The answers of a question entry `i` follow those of the earlier
      entries. */
  lemma AnswerRowsStep(answers: map<Id, Answer>, nextAnswer: nat, qs: seq<QuestionInput>, i: nat,
                       cur: map<Id, Answer>, curNext: nat)
    requires i < |qs| && Present(qs[i].text)
    requires curNext == nextAnswer + |QuestionAnswerRows(qs, i)|
    requires cur == answers + Numbered(nextAnswer, QuestionAnswerRows(qs, i))
    ensures var batch := AnswerRows(qs[i].answers, |qs[i].answers|);
            && curNext + |batch| == nextAnswer + |QuestionAnswerRows(qs, i + 1)|
            && cur + Numbered(curNext, batch) == answers + Numbered(nextAnswer, QuestionAnswerRows(qs, i + 1))
  {
    var done := QuestionAnswerRows(qs, i);
    var batch := AnswerRows(qs[i].answers, |qs[i].answers|);
    assert QuestionAnswerRows(qs, i + 1) == done + batch;
    NumberedExtend(answers, nextAnswer, done, batch);
  }

  /** One pass of the questions loop over an entry `i` with a text: the
      question takes the next question id, its answers the next answer ids,
      and it is linked to exactly those answers. */
  method AddQuestionEntry(questions: map<Id, Question>, nextQuestion: nat, answers: map<Id, Answer>, nextAnswer: nat,
                          lesson: Id, qs: seq<QuestionInput>, i: nat,
                          curQuestions: map<Id, Question>, curNextQuestion: nat,
                          curAnswers: map<Id, Answer>, curNextAnswer: nat)
    returns (questions': map<Id, Question>, nextQuestion': nat, answers': map<Id, Answer>, nextAnswer': nat)
    requires i < |qs| && Present(qs[i].text)
    requires curNextQuestion == nextQuestion + |QuestionRows(lesson, nextAnswer, qs, i)|
    requires curQuestions == questions + Numbered(nextQuestion, QuestionRows(lesson, nextAnswer, qs, i))
    requires curNextAnswer == nextAnswer + |QuestionAnswerRows(qs, i)|
    requires curAnswers == answers + Numbered(nextAnswer, QuestionAnswerRows(qs, i))
    ensures nextQuestion' == nextQuestion + |QuestionRows(lesson, nextAnswer, qs, i + 1)|
    ensures questions' == questions + Numbered(nextQuestion, QuestionRows(lesson, nextAnswer, qs, i + 1))
    ensures nextAnswer' == nextAnswer + |QuestionAnswerRows(qs, i + 1)|
    ensures answers' == answers + Numbered(nextAnswer, QuestionAnswerRows(qs, i + 1))
  {
    QuestionRowsStep(questions, nextQuestion, lesson, nextAnswer, qs, i, curQuestions, curNextQuestion);
    AnswerRowsStep(answers, nextAnswer, qs, i, curAnswers, curNextAnswer);
    var q := qs[i];
    var question := Question(Some(lesson), q.text.value, Some(OrElse(q.explanation, "")), {});
    answers', nextAnswer' := AddAnswers(curAnswers, curNextAnswer, q.answers);
    question := question.(answers := Range(curNextAnswer, nextAnswer'));
    questions' := curQuestions[curNextQuestion := question];
    nextQuestion' := curNextQuestion + 1;
  }

  /** The questions loop of the nested create: a Question row per entry
      with a text, each followed by its answers. */
  method AddQuestions(questions: map<Id, Question>, nextQuestion: nat, answers: map<Id, Answer>, nextAnswer: nat,
                      lesson: Id, qs: seq<QuestionInput>)
    returns (questions': map<Id, Question>, nextQuestion': nat, answers': map<Id, Answer>, nextAnswer': nat)
    ensures nextQuestion' == nextQuestion + |QuestionRows(lesson, nextAnswer, qs, |qs|)|
    ensures questions' == questions + Numbered(nextQuestion, QuestionRows(lesson, nextAnswer, qs, |qs|))
    ensures nextAnswer' == nextAnswer + |QuestionAnswerRows(qs, |qs|)|
    ensures answers' == answers + Numbered(nextAnswer, QuestionAnswerRows(qs, |qs|))
  {
    questions', nextQuestion', answers', nextAnswer' := questions, nextQuestion, answers, nextAnswer;
    for i := 0 to |qs|
      invariant nextQuestion' == nextQuestion + |QuestionRows(lesson, nextAnswer, qs, i)|
      invariant questions' == questions + Numbered(nextQuestion, QuestionRows(lesson, nextAnswer, qs, i))
      invariant nextAnswer' == nextAnswer + |QuestionAnswerRows(qs, i)|
      invariant answers' == answers + Numbered(nextAnswer, QuestionAnswerRows(qs, i))
    {
      if Present(qs[i].text) {
        questions', nextQuestion', answers', nextAnswer' :=
          AddQuestionEntry(questions, nextQuestion, answers, nextAnswer, lesson, qs, i,
                           questions', nextQuestion', answers', nextAnswer');
      } else {
        assert QuestionRows(lesson, nextAnswer, qs, i + 1) == QuestionRows(lesson, nextAnswer, qs, i);
        assert QuestionAnswerRows(qs, i + 1) == QuestionAnswerRows(qs, i);
      }
    }
  }

  // ---------------------------------------------------------------------
  // Answer validation

  /** What the validation endpoint reports: the answer's flag and the
      question's explanation. */
  datatype Validation = Validation(isCorrect: bool, explanation: Option<string>)

  /** The checks of `ValidateAnswerView.post`, in order: question_id
      required (400), answer_id required (400), question must exist (404),
      answer must exist (404), answer must be attached to the question
      (400). On success: the answer's flag and the question's explanation. */
  function AnswerCheck(db: CourseDb, questionId: Option<Id>, answerId: Option<Id>): (r: Reply<Validation>)
    ensures r.Ok? <==> IdGiven(questionId) && IdGiven(answerId) && questionId.value in db.questions
                       && answerId.value in db.answers && answerId.value in db.questions[questionId.value].answers
    ensures r.Ok? ==> r == Ok(StatusOk, Validation(db.answers[answerId.value].isCorrect,
                                                   db.questions[questionId.value].explanation))
    ensures r.Err? ==> r.status == (if !IdGiven(questionId) || !IdGiven(answerId) then StatusBadRequest
                                    else if questionId.value !in db.questions || answerId.value !in db.answers then StatusNotFound
                                    else StatusBadRequest)
  {
    if !IdGiven(questionId) then Err(StatusBadRequest)
    else if !IdGiven(answerId) then Err(StatusBadRequest)
    else if questionId.value !in db.questions then Err(StatusNotFound)
    else if answerId.value !in db.answers then Err(StatusNotFound)
    else if answerId.value !in db.questions[questionId.value].answers then Err(StatusBadRequest)
    else Ok(StatusOk, Validation(db.answers[answerId.value].isCorrect, db.questions[questionId.value].explanation))
  }

  /** The explanation belongs to the question: every accepted answer of one
      question reports the same explanation, whichever answer it is and
      whether it is correct. */
  lemma AnswerCheckSameExplanation(db: CourseDb, q: Id, a: Id, b: Id)
    requires AnswerCheck(db, Some(q), Some(a)).Ok? && AnswerCheck(db, Some(q), Some(b)).Ok?
    ensures AnswerCheck(db, Some(q), Some(a)).value.explanation == AnswerCheck(db, Some(q), Some(b)).value.explanation
    ensures AnswerCheck(db, Some(q), Some(a)).value.isCorrect == db.answers[a].isCorrect
  {
  }

  // ---------------------------------------------------------------------
  // Material and question creates

  /** The checks of `LearningMaterialListCreateView.create`, in order:
      lesson required (400), material_type required (400), a game needs a
      game_url (400), any other type needs a file (400), the lesson must
      exist (404). The type is not checked against the choices. */
  function MaterialCreateError(lessons: set<Id>, lessonId: Option<Id>, materialType: Option<string>,
                               file: Option<string>, gameUrl: Option<string>): (e: Option<int>)
    ensures e.None? <==>
              && IdGiven(lessonId) && Present(materialType)
              && (materialType.value == GameMaterial ==> Present(gameUrl))
              && (materialType.value != GameMaterial ==> Present(file))
              && lessonId.value in lessons
    ensures e == Some(StatusNotFound) <==>
              && IdGiven(lessonId) && Present(materialType)
              && (materialType.value == GameMaterial ==> Present(gameUrl))
              && (materialType.value != GameMaterial ==> Present(file))
              && lessonId.value !in lessons
    ensures e.None? || e == Some(StatusBadRequest) || e == Some(StatusNotFound)
  {
    if !IdGiven(lessonId) then Some(StatusBadRequest)
    else if !Present(materialType) then Some(StatusBadRequest)
    else if materialType.value == GameMaterial && !Present(gameUrl) then Some(StatusBadRequest)
    else if materialType.value != GameMaterial && !Present(file) then Some(StatusBadRequest)
    else if lessonId.value !in lessons then Some(StatusNotFound)
    else None
  }

  /** Unlike the nested create, the material create accepts a type outside
      `LearningMaterial.CHOICES`. */
  lemma MaterialCreateIgnoresChoices(lessons: set<Id>, l: Id, file: string)
    requires l in lessons && l != 0 && file != ""
    ensures "Video" !in MaterialTypes
    ensures MaterialCreateError(lessons, Some(l), Some("Video"), Some(file), None).None?
  {
  }

  /** The row a material create makes: `description` defaults to the empty
      string, `game_url` to None. */
  function NewMaterial(lessonId: Id, title: Option<string>, materialType: string, description: Option<string>,
                       file: Option<string>, gameUrl: Option<string>): (r: Material)
    ensures r.lesson == Some(lessonId) && r.materialType == Some(materialType)
    ensures description.Some? ==> r.description == description
    ensures description.None? ==> r.description == Some("")
    ensures r.title == title && r.file == file && r.gameUrl == gameUrl
  {
    Material(Some(lessonId), title, file, Some(materialType), Some(OrElse(description, "")), gameUrl)
  }

  /** The checks of `QuestionListCreateView.create`, in order: the text is
      required (400); a truthy lesson must exist (404). */
  function QuestionCreateError(lessons: set<Id>, lessonId: Option<Id>, text: Option<string>): (e: Option<int>)
    ensures e.None? <==> Present(text) && (IdGiven(lessonId) ==> lessonId.value in lessons)
    ensures e == Some(StatusNotFound) <==> Present(text) && IdGiven(lessonId) && lessonId.value !in lessons
    ensures e.None? || e == Some(StatusBadRequest) || e == Some(StatusNotFound)
  {
    if !Present(text) then Some(StatusBadRequest)
    else if IdGiven(lessonId) && lessonId.value !in lessons then Some(StatusNotFound)
    else None
  }

  /** The row a question create makes: a falsy lesson id leaves it without
      a lesson, `explanation` defaults to the empty string, and the answers
      are attached only for a non-empty id list; with an empty one the
      answer set is empty either way. Ids of missing answers are dropped. */
  function NewQuestion(answers: map<Id, Answer>, lessonId: Option<Id>, text: string, explanation: Option<string>,
                       answerIds: seq<Id>): (r: Question)
    ensures r.lesson.Some? <==> IdGiven(lessonId)
    ensures IdGiven(lessonId) ==> r.lesson == lessonId
    ensures r.text == text
    ensures explanation.Some? ==> r.explanation == explanation
    ensures explanation.None? ==> r.explanation == Some("")
    ensures r.answers == Existing(answers, answerIds)
  {
    Question(if IdGiven(lessonId) then lessonId else None, text, Some(OrElse(explanation, "")),
             // the branch mirrors the handler's `if answer_ids:` guard
             if |answerIds| > 0 then Existing(answers, answerIds) else {})
  }

  // ---------------------------------------------------------------------
  // Updates of the supplied fields

  /** A Class, Subject, Chapter or Lesson row after the field edits of an
      update and before `save()`: the parent, name and description change
      when given (not None), the icon as UpdatedFile says. */
  function UpdatedNamed(row: Named, parentId: Option<Id>, name: Option<string>, description: Option<string>,
                        icon: Option<string>, iconKey: bool): (r: Named)
    ensures r.slug == row.slug
    ensures parentId.Some? ==> r.parent == parentId
    ensures parentId.None? ==> r.parent == row.parent
    ensures name.Some? ==> r.name == name.value
    ensures name.None? ==> r.name == row.name
    ensures description.Some? ==> r.description == description
    ensures description.None? ==> r.description == row.description
    ensures r.icon == UpdatedFile(row.icon, icon, iconKey)
    ensures parentId.None? && name.None? && description.None? && icon.None? && !iconKey ==> r == row
  {
    Named(if parentId.Some? then parentId else row.parent,
          OrElse(name, row.name),
          row.slug,
          UpdatedFile(row.icon, icon, iconKey),
          if description.Some? then description else row.description)
  }

  /** The edits are idempotent: making them on an edited row changes
      nothing more. */
  lemma {:induction false} UpdatedNamedIdempotent(row: Named, parentId: Option<Id>, name: Option<string>,
                                                  description: Option<string>, icon: Option<string>, iconKey: bool)
    ensures var once := UpdatedNamed(row, parentId, name, description, icon, iconKey);
            UpdatedNamed(once, parentId, name, description, icon, iconKey) == once
  {
  }

  /** A LearningMaterial row after an update: every given (not None)
      field replaces the old value, every field not given is kept, and the
      file changes as UpdatedFile says. */
  function UpdatedMaterial(row: Material, lessonId: Option<Id>, title: Option<string>, materialType: Option<string>,
                           description: Option<string>, file: Option<string>, fileKey: bool,
                           gameUrl: Option<string>): (r: Material)
    ensures (lessonId.None? && title.None? && materialType.None? && description.None? && file.None? && !fileKey
             && gameUrl.None?) ==> r == row
    ensures lessonId.Some? ==> r.lesson == lessonId
    ensures lessonId.None? ==> r.lesson == row.lesson
    ensures title.Some? ==> r.title == title
    ensures title.None? ==> r.title == row.title
    ensures materialType.Some? ==> r.materialType == materialType
    ensures materialType.None? ==> r.materialType == row.materialType
    ensures description.Some? ==> r.description == description
    ensures description.None? ==> r.description == row.description
    ensures gameUrl.Some? ==> r.gameUrl == gameUrl
    ensures gameUrl.None? ==> r.gameUrl == row.gameUrl
    ensures r.file == UpdatedFile(row.file, file, fileKey)
  {
    Material(if lessonId.Some? then lessonId else row.lesson,
             if title.Some? then title else row.title,
             UpdatedFile(row.file, file, fileKey),
             if materialType.Some? then materialType else row.materialType,
             if description.Some? then description else row.description,
             if gameUrl.Some? then gameUrl else row.gameUrl)
  }

  /** An Answer row after an update: a given text or flag replaces the
      old one, one not given is kept. */
  function UpdatedAnswer(row: Answer, text: Option<string>, isCorrect: Option<bool>): (r: Answer)
    ensures text.Some? ==> r.text == text.value
    ensures text.None? ==> r.text == row.text
    ensures isCorrect.Some? ==> r.isCorrect == isCorrect.value
    ensures isCorrect.None? ==> r.isCorrect == row.isCorrect
    ensures text.None? && isCorrect.None? ==> r == row
  {
    Answer(OrElse(text, row.text), OrElse(isCorrect, row.isCorrect))
  }

  /** A Question row after an update: lesson, text and explanation change
      when given; a given answer list replaces the answer set with the ids
      in it that exist, so `[]` empties it. */
  function UpdatedQuestion(answers: map<Id, Answer>, row: Question, lessonId: Option<Id>, text: Option<string>,
                           explanation: Option<string>, answerIds: Option<seq<Id>>): (r: Question)
    ensures answerIds.Some? ==> r.answers == Existing(answers, answerIds.value)
    ensures answerIds.None? ==> r.answers == row.answers
    ensures answerIds == Some([]) ==> r.answers == {}
    ensures lessonId.Some? ==> r.lesson == lessonId
    ensures lessonId.None? ==> r.lesson == row.lesson
    ensures text.Some? ==> r.text == text.value
    ensures text.None? ==> r.text == row.text
    ensures explanation.Some? ==> r.explanation == explanation
    ensures explanation.None? ==> r.explanation == row.explanation
    ensures lessonId.None? && text.None? && explanation.None? && answerIds.None? ==> r == row
  {
    Question(if lessonId.Some? then lessonId else row.lesson,
             OrElse(text, row.text),
             if explanation.Some? then explanation else row.explanation,
             if answerIds.Some? then Existing(answers, answerIds.value) else row.answers)
  }

  // ---------------------------------------------------------------------
  // The nested lesson create, step by step

  /** A `LessonListCreateView.create` request: the lesson's own fields, the
      icon as an upload or as a form value, the one `video_file` and one
      `file` upload every nested video and material shares, and the nested
      lists (each `[]` when absent). */
  datatype LessonInput = LessonInput(
    chapter: Option<Id>,
    name: Option<string>,
    description: Option<string>,
    iconFile: Option<string>,
    iconData: Option<string>,
    videoFile: Option<string>,
    materialFile: Option<string>,
    videos: seq<VideoInput>,
    materials: seq<MaterialInput>,
    questions: seq<QuestionInput>)

  /** The checks of the nested create before any row is written, in order:
      a nested list that is not valid JSON (400), chapter_name required
      (400), name required (400), the chapter must exist (404). */
  function LessonCreateError(chapters: map<Id, Named>, malformed: bool, chapterId: Option<Id>, name: Option<string>)
    : (e: Option<int>)
    ensures e.None? <==> !malformed && IdGiven(chapterId) && Present(name) && chapterId.value in chapters
    ensures e == Some(StatusNotFound) <==> !malformed && IdGiven(chapterId) && Present(name) && chapterId.value !in chapters
    ensures e.None? || e == Some(StatusBadRequest) || e == Some(StatusNotFound)
  {
    if malformed then Some(StatusBadRequest)
    else if !IdGiven(chapterId) then Some(StatusBadRequest)
    else if !Present(name) then Some(StatusBadRequest)
    else if chapterId.value !in chapters then Some(StatusNotFound)
    else None
  }

  /** The lesson row of a nested create before `save()` sets its slug: the
      icon is the uploaded file, else a truthy form value, else none. */
  function NewLesson(chapter: Id, name: string, description: Option<string>, iconFile: Option<string>,
                     iconData: Option<string>): (r: Named)
    ensures r.parent == Some(chapter) && r.name == name && r.description == description
    ensures r.slug.None?
    ensures iconFile.Some? ==> r.icon == iconFile
    ensures iconFile.None? && Present(iconData) ==> r.icon == iconData
    ensures iconFile.None? && !Present(iconData) ==> r.icon.None?
  {
    Named(Some(chapter), name, None,
          if iconFile.Some? then iconFile else if Present(iconData) then iconData else None,
          description)
  }

  /** Every row of the tables the handlers add to has an id its sequence
      handed out. */
  datatype Sequences = Sequences(lesson: nat, video: nat, material: nat, answer: nat, question: nat)

  ghost predicate Fresh(db: CourseDb, next: Sequences) {
    && Below(db.lessons.Keys, next.lesson) && Below(db.videos.Keys, next.video)
    && Below(db.materials.Keys, next.material) && Below(db.answers.Keys, next.answer)
    && Below(db.questions.Keys, next.question)
  }

  /** The schema invariant with fresh ids. */
  ghost predicate Consistent(db: CourseDb, next: Sequences) {
    CourseModels.Valid(db) && Fresh(db, next)
  }

  /** New videos of an existing lesson keep every video's lesson existing. */
  lemma VideosAttached(videos: map<Id, Video>, next: nat, rows: seq<Video>, lessons: set<Id>, k: Id)
    requires Below(videos.Keys, next) && VideoRefs(lessons, videos) && k in lessons
    requires forall j | 0 <= j < |rows| :: rows[j].lesson == Some(k)
    ensures Below((videos + Numbered(next, rows)).Keys, next + |rows|)
    ensures VideoRefs(lessons, videos + Numbered(next, rows))
  {
    NumberedFresh(videos, next, rows);
    var m := videos + Numbered(next, rows);
    forall x | x in m ensures m[x].lesson.Some? ==> m[x].lesson.value in lessons {
      if x !in videos {
        assert next <= x < next + |rows|;
        assert m[x] == rows[x - next];
      }
    }
  }

  /** New materials of an existing lesson keep every material's lesson
      existing. */
  lemma MaterialsAttached(materials: map<Id, Material>, next: nat, rows: seq<Material>, lessons: set<Id>, k: Id)
    requires Below(materials.Keys, next) && MaterialRefs(lessons, materials) && k in lessons
    requires forall j | 0 <= j < |rows| :: rows[j].lesson == Some(k)
    ensures Below((materials + Numbered(next, rows)).Keys, next + |rows|)
    ensures MaterialRefs(lessons, materials + Numbered(next, rows))
  {
    NumberedFresh(materials, next, rows);
    var m := materials + Numbered(next, rows);
    forall x | x in m ensures m[x].lesson.Some? ==> m[x].lesson.value in lessons {
      if x !in materials {
        assert next <= x < next + |rows|;
        assert m[x] == rows[x - next];
      }
    }
  }

  /** New questions of an existing lesson, holding only the answers created
      with them, keep every question's lesson and answers existing. */
  lemma QuestionsAttached(questions: map<Id, Question>, next: nat, rows: seq<Question>, lessons: set<Id>, k: Id,
                          answers: map<Id, Answer>, nextAnswer: nat, answerRows: seq<Answer>)
    requires Below(questions.Keys, next) && Below(answers.Keys, nextAnswer) && k in lessons
    requires QuestionRefs(lessons, answers.Keys, questions)
    requires forall j | 0 <= j < |rows| ::
               rows[j].lesson == Some(k) && rows[j].answers <= Range(nextAnswer, nextAnswer + |answerRows|)
    ensures Below((questions + Numbered(next, rows)).Keys, next + |rows|)
    ensures Below((answers + Numbered(nextAnswer, answerRows)).Keys, nextAnswer + |answerRows|)
    ensures QuestionRefs(lessons, (answers + Numbered(nextAnswer, answerRows)).Keys, questions + Numbered(next, rows))
  {
    NumberedFresh(questions, next, rows);
    NumberedFresh(answers, nextAnswer, answerRows);
    var m := questions + Numbered(next, rows);
    var a := answers + Numbered(nextAnswer, answerRows);
    forall x | x in m ensures (m[x].lesson.Some? ==> m[x].lesson.value in lessons) && m[x].answers <= a.Keys {
      if x !in questions {
        assert next <= x < next + |rows|;
        assert m[x] == rows[x - next];
      }
    }
  }

  /** The videos loop of lesson `k` on the tables. */
  method SaveVideos(db: CourseDb, next: Sequences, k: Id, file: Option<string>, vids: seq<VideoInput>)
    returns (db': CourseDb, next': Sequences)
    requires Consistent(db, next) && k in db.lessons
    ensures Consistent(db', next')
    ensures var rows := VideoRows(k, file, vids, |vids|);
            && db' == db.(videos := db.videos + Numbered(next.video, rows))
            && next' == next.(video := next.video + |rows|)
  {
    var videos, n := AddVideos(db.videos, next.video, k, file, vids);
    VideoRowsCount(k, file, vids, |vids|);
    VideosAttached(db.videos, next.video, VideoRows(k, file, vids, |vids|), db.lessons.Keys, k);
    db', next' := db.(videos := videos), next.(video := n);
  }

  /** The materials loop of lesson `k` on the tables, up to the first
      rejected entry. */
  method SaveMaterials(db: CourseDb, next: Sequences, k: Id, file: Option<string>, mats: seq<MaterialInput>)
    returns (db': CourseDb, next': Sequences, stop: nat)
    requires Consistent(db, next) && k in db.lessons
    ensures Consistent(db', next')
    ensures stop == Accepted(mats)
    ensures var rows := MaterialRows(k, file, mats, stop);
            && db' == db.(materials := db.materials + Numbered(next.material, rows))
            && next' == next.(material := next.material + |rows|)
  {
    var materials, n;
    materials, n, stop := AddMaterials(db.materials, next.material, k, file, mats);
    MaterialRowsTyped(k, file, mats, stop);
    MaterialsAttached(db.materials, next.material, MaterialRows(k, file, mats, stop), db.lessons.Keys, k);
    db', next' := db.(materials := materials), next.(material := n);
  }

  /** The questions loop of lesson `k` on the tables. */
  method SaveQuestions(db: CourseDb, next: Sequences, k: Id, qs: seq<QuestionInput>)
    returns (db': CourseDb, next': Sequences)
    requires Consistent(db, next) && k in db.lessons
    ensures Consistent(db', next')
    ensures var questions := QuestionRows(k, next.answer, qs, |qs|);
            var answers := QuestionAnswerRows(qs, |qs|);
            && db' == db.(questions := db.questions + Numbered(next.question, questions),
                          answers := db.answers + Numbered(next.answer, answers))
            && next' == next.(question := next.question + |questions|, answer := next.answer + |answers|)
  {
    var questions, nq, answers, na := AddQuestions(db.questions, next.question, db.answers, next.answer, k, qs);
    QuestionRowsBelong(k, next.answer, qs, |qs|);
    QuestionsAttached(db.questions, next.question, QuestionRows(k, next.answer, qs, |qs|), db.lessons.Keys, k,
                      db.answers, next.answer, QuestionAnswerRows(qs, |qs|));
    db', next' := db.(questions := questions, answers := answers), next.(question := nq, answer := na);
  }

  /** Adding a lesson of an existing chapter with a free slug keeps the
      schema invariant: every reference to a lesson still names one. */
  lemma LessonAdded(db: CourseDb, k: Id, row: Named)
    requires CourseModels.Valid(db) && row.parent.Some? && row.parent.value in db.chapters
    requires SlugsUnique(db.lessons[k := row])
    ensures CourseModels.Valid(db.(lessons := db.lessons[k := row]))
  {
    var lessons := db.lessons[k := row];
    assert db.lessons.Keys <= lessons.Keys;
    assert ParentsIn(lessons, db.chapters.Keys);
    assert VideoRefs(lessons.Keys, db.videos);
    assert MaterialRefs(lessons.Keys, db.materials);
    assert QuestionRefs(lessons.Keys, db.answers.Keys, db.questions);
  }

  /** A lesson row of an existing chapter under the next lesson id, when
      its slug is free. */
  method SaveLesson(db: CourseDb, next: Sequences, slugify: string -> string, row: Named)
    returns (db': CourseDb, next': Sequences)
    requires Consistent(db, next) && row.parent.Some? && row.parent.value in db.chapters
    requires !SlugTaken(db.lessons, next.lesson, slugify(row.name))
    ensures Consistent(db', next')
    ensures db' == db.(lessons := db.lessons[next.lesson := row.(slug := Some(slugify(row.name)))])
    ensures next' == next.(lesson := next.lesson + 1)
    ensures SlugsFollowNames(db.lessons, slugify) ==> SlugsFollowNames(db'.lessons, slugify)
  {
    var lessons, saved := SaveNamed(db.lessons, next.lesson, row, slugify);
    LessonAdded(db, next.lesson, saved);
    db', next' := db.(lessons := lessons.value), next.(lesson := next.lesson + 1);
  }

  /** What a handler leaves behind: its reply and the new tables and
      sequences. */
  datatype Outcome = Outcome(reply: Reply<Id>, db: CourseDb, next: Sequences)

  /** The nested lists of lesson `k`: its videos, then its materials up to
      the first rejected one, which answers 400, then, when none was
      rejected, its questions with their answers. */
  ghost function ItemsSaved(db: CourseDb, next: Sequences, k: Id, inp: LessonInput): Outcome {
    var stop := Accepted(inp.materials);
    var accepted := stop == |inp.materials|;
    var videos := VideoRows(k, inp.videoFile, inp.videos, |inp.videos|);
    var materials := MaterialRows(k, inp.materialFile, inp.materials, stop);
    var questions := QuestionRows(k, next.answer, inp.questions, |inp.questions|);
    var answers := QuestionAnswerRows(inp.questions, |inp.questions|);
    Outcome(
      if accepted then Ok(StatusCreated, k) else Err(StatusBadRequest),
      db.(videos := db.videos + Numbered(next.video, videos),
          materials := db.materials + Numbered(next.material, materials),
          questions := if accepted then db.questions + Numbered(next.question, questions) else db.questions,
          answers := if accepted then db.answers + Numbered(next.answer, answers) else db.answers),
      next.(video := next.video + |videos|,
            material := next.material + |materials|,
            question := if accepted then next.question + |questions| else next.question,
            answer := if accepted then next.answer + |answers| else next.answer))
  }

  /** The loops over the nested lists, proved against ItemsSaved. */
  method SaveLessonItems(db: CourseDb, next: Sequences, k: Id, inp: LessonInput)
    returns (r: Reply<Id>, db': CourseDb, next': Sequences)
    requires Consistent(db, next) && k in db.lessons
    ensures Consistent(db', next')
    ensures Outcome(r, db', next') == ItemsSaved(db, next, k, inp)
  {
    var stop;
    db', next' := SaveVideos(db, next, k, inp.videoFile, inp.videos);
    db', next', stop := SaveMaterials(db', next', k, inp.materialFile, inp.materials);
    if stop < |inp.materials| {
      return Err(StatusBadRequest), db', next';
    }
    db', next' := SaveQuestions(db', next', k, inp.questions);
    r := Ok(StatusCreated, k);
  }

  /** `LessonListCreateView.create`: the checks of LessonCreateError, then
      the lesson (a slug another lesson holds answers 400 and writes
      nothing), then its nested lists as ItemsSaved says. A material with a
      type outside `LearningMaterial.CHOICES` answers 400 but keeps the
      lesson and every row written before it, as no transaction wraps the
      handler. */
  ghost function LessonCreate(db: CourseDb, next: Sequences, slugify: string -> string, malformed: bool,
                              inp: LessonInput): Outcome
  {
    var e := LessonCreateError(db.chapters, malformed, inp.chapter, inp.name);
    if e.Some? then Outcome(Err(e.value), db, next)
    else
      var row := NewLesson(inp.chapter.value, inp.name.value, inp.description, inp.iconFile, inp.iconData);
      var k := next.lesson;
      if SlugTaken(db.lessons, k, slugify(row.name)) then Outcome(Err(StatusBadRequest), db, next)
      else ItemsSaved(db.(lessons := db.lessons[k := row.(slug := Some(slugify(row.name)))]), next.(lesson := k + 1), k, inp)
  }

  /** The nested create as the handler performs it, proved against
      LessonCreate. */
  method CreateLessonRows(db: CourseDb, next: Sequences, slugify: string -> string, malformed: bool, inp: LessonInput)
    returns (r: Reply<Id>, db': CourseDb, next': Sequences)
    requires Consistent(db, next)
    ensures Outcome(r, db', next') == LessonCreate(db, next, slugify, malformed, inp)
    ensures Consistent(db', next')
    ensures db'.classes == db.classes && db'.subjects == db.subjects && db'.chapters == db.chapters
    ensures SlugsFollowNames(db.lessons, slugify) ==> SlugsFollowNames(db'.lessons, slugify)
  {
    var e := LessonCreateError(db.chapters, malformed, inp.chapter, inp.name);
    if e.Some? {
      return Err(e.value), db, next;
    }
    var k := next.lesson;
    var row := NewLesson(inp.chapter.value, inp.name.value, inp.description, inp.iconFile, inp.iconData);
    if SlugTaken(db.lessons, k, slugify(row.name)) {
      return Err(StatusBadRequest), db, next;
    }
    var d, n := SaveLesson(db, next, slugify, row);
    r, db', next' := SaveLessonItems(d, n, k, inp);
  }

  /** What the nested create leaves once the lesson is saved: the lesson
      under the next lesson id in the chosen chapter; one video per named
      entry and one material per checked entry before the first rejected
      one, each material typed with one of `LearningMaterial.CHOICES`; 201
      exactly when no entry is rejected, and then one question per entry
      with a text. On a rejection nothing of the questions list is
      written. */
  lemma LessonCreateItems(db: CourseDb, next: Sequences, slugify: string -> string, malformed: bool, inp: LessonInput)
    requires LessonCreateError(db.chapters, malformed, inp.chapter, inp.name).None?
    requires !SlugTaken(db.lessons, next.lesson,
                        slugify(NewLesson(inp.chapter.value, inp.name.value, inp.description, inp.iconFile, inp.iconData).name))
    ensures var o := LessonCreate(db, next, slugify, malformed, inp);
            && next.lesson in o.db.lessons && o.db.lessons[next.lesson].parent == inp.chapter
            && o.next.video == next.video + |KeptIndices(inp.videos, NamedVideo, |inp.videos|)|
            && o.next.material == next.material + |KeptIndices(inp.materials, Checked, Accepted(inp.materials))|
            && (o.reply.Ok? <==> forall i | 0 <= i < |inp.materials| :: !Rejected(inp.materials[i]))
            && (o.reply.Ok? ==> o.reply == Ok(StatusCreated, next.lesson)
                                && o.next.question == next.question + |KeptIndices(inp.questions, TextedQuestion, |inp.questions|)|)
            && (o.reply.Err? ==> o.reply == Err(StatusBadRequest) && o.db.questions == db.questions && o.db.answers == db.answers)
  {
    var k := next.lesson;
    VideoRowsCount(k, inp.videoFile, inp.videos, |inp.videos|);
    MaterialRowsCount(k, inp.materialFile, inp.materials, Accepted(inp.materials));
    QuestionRowsCount(k, next.answer, inp.questions, |inp.questions|);
  }

  /** The materials the loop writes are typed with one of
      `LearningMaterial.CHOICES` and belong to lesson `k`. */
  lemma MaterialsAddedTyped(ms: map<Id, Material>, next: nat, k: Id, file: Option<string>, mats: seq<MaterialInput>)
    requires Below(ms.Keys, next)
    ensures var materials := ms + Numbered(next, MaterialRows(k, file, mats, Accepted(mats)));
            forall m | m in materials && m !in ms ::
              && materials[m].lesson == Some(k)
              && materials[m].materialType.Some? && materials[m].materialType.value in MaterialTypes
  {
    var rows := MaterialRows(k, file, mats, Accepted(mats));
    var materials := ms + Numbered(next, rows);
    NumberedFresh(ms, next, rows);
    MaterialRowsTyped(k, file, mats, Accepted(mats));
    forall m | m in materials && m !in ms
      ensures materials[m].lesson == Some(k) && materials[m].materialType.Some? && materials[m].materialType.value in MaterialTypes
    {
      assert next <= m < next + |rows|;
      assert materials[m] == rows[m - next];
    }
  }

  /** The materials a nested create writes are typed with one of
      `LearningMaterial.CHOICES` and belong to the new lesson. */
  lemma LessonCreateTypes(db: CourseDb, next: Sequences, slugify: string -> string, malformed: bool, inp: LessonInput)
    requires Below(db.materials.Keys, next.material)
    ensures var o := LessonCreate(db, next, slugify, malformed, inp);
            forall m | m in o.db.materials && m !in db.materials ::
              && o.db.materials[m].lesson == Some(next.lesson)
              && o.db.materials[m].materialType.Some? && o.db.materials[m].materialType.value in MaterialTypes
  {
    if LessonCreateError(db.chapters, malformed, inp.chapter, inp.name).None? {
      var row := NewLesson(inp.chapter.value, inp.name.value, inp.description, inp.iconFile, inp.iconData);
      if !SlugTaken(db.lessons, next.lesson, slugify(row.name)) {
        var d := db.(lessons := db.lessons[next.lesson := row.(slug := Some(slugify(row.name)))]);
        MaterialsAddedTyped(db.materials, next.material, next.lesson, inp.materialFile, inp.materials);
        assert LessonCreate(db, next, slugify, malformed, inp) == ItemsSaved(d, next.(lesson := next.lesson + 1), next.lesson, inp);
      }
    }
  }

  // ---------------------------------------------------------------------
  // Updates of the supplied fields, step by step

  /** The field-by-field edit of a Class, Subject, Chapter or Lesson row in
      an update: a given parent id is looked up first (404 when the level
      above has no such row), then the fields change as UpdatedNamed
      says. */
  method EditNamed(row: Named, parents: set<Id>, parentId: Option<Id>, name: Option<string>,
                   description: Option<string>, icon: Option<string>, iconKey: bool)
    returns (e: Option<int>, row': Named)
    ensures e.Some? <==> parentId.Some? && parentId.value !in parents
    ensures e.Some? ==> e == Some(StatusNotFound)
    ensures e.None? ==> row' == UpdatedNamed(row, parentId, name, description, icon, iconKey)
    ensures e.None? ==> row'.parent == row.parent || (row'.parent.Some? && row'.parent.value in parents)
  {
    row' := row;
    if parentId.Some? {
      if parentId.value !in parents {
        return Some(StatusNotFound), row';
      }
      row' := row'.(parent := parentId);
    }
    if name.Some? {
      row' := row'.(name := name.value);
    }
    if description.Some? {
      row' := row'.(description := description);
    }
    if icon.Some? {
      row' := row'.(icon := icon);
    } else if iconKey {
      row' := row'.(icon := None);
    }
    e := None;
  }

  /** The outcome of an update of the row with slug `s` in one tree level,
      whose parents are the rows `parents` of the level above: no row with
      that slug (500: `get_object` raises inside the handler's try), a given
      parent that does not exist (404), a new slug that another row holds
      (500: the unique index), else the edited row saved with the slug of
      its name. */
  function NamedUpdate(rows: map<Id, Named>, parents: set<Id>, slugify: string -> string, s: string,
                       parentId: Option<Id>, name: Option<string>, description: Option<string>,
                       icon: Option<string>, iconKey: bool): (r: Reply<Named>)
    requires SlugsUnique(rows)
    ensures BySlug(rows, s).None? ==> r == Err(StatusServerError)
    ensures BySlug(rows, s).Some? ==>
              (r == Err(StatusNotFound) <==> parentId.Some? && parentId.value !in parents)
    ensures BySlug(rows, s).Some? && !(parentId.Some? && parentId.value !in parents) ==>
              var k := BySlug(rows, s).value;
              (r == Err(StatusServerError) <==> SlugTaken(rows, k, slugify(OrElse(name, rows[k].name))))
    ensures r.Err?==> r.status == StatusNotFound || r.status == StatusServerError
    ensures r.Ok? ==>
              var k := BySlug(rows, s).value;
              && r.status == StatusOk
              && r.value.name == OrElse(name, rows[k].name)
              && r.value.parent == (if parentId.Some? then parentId else rows[k].parent)
              && r.value.description == (if description.Some? then description else rows[k].description)
              && r.value.icon == UpdatedFile(rows[k].icon, icon, iconKey)
              && r.value.slug == Some(slugify(r.value.name))
              && !SlugTaken(rows, k, slugify(r.value.name))
  {
    var k := BySlug(rows, s);
    if k.None? then Err(StatusServerError)
    else if parentId.Some? && parentId.value !in parents then Err(StatusNotFound)
    else
      var row := UpdatedNamed(rows[k.value], parentId, name, description, icon, iconKey);
      if SlugTaken(rows, k.value, slugify(row.name)) then Err(StatusServerError)
      else Ok(StatusOk, row.(slug := Some(slugify(row.name))))
  }

  /** The table after an update of the row with slug `s` that replied `r`. */
  function AfterUpdate(rows: map<Id, Named>, s: string, r: Reply<Named>): map<Id, Named>
    requires SlugsUnique(rows)
  {
    if r.Ok? && BySlug(rows, s).Some? then rows[BySlug(rows, s).value := r.value] else rows
  }

  /** An update that leaves the name alone keeps the slug the row was found
      by, in a table whose slugs follow the names. */
  lemma NamedUpdateKeepsSlug(rows: map<Id, Named>, parents: set<Id>, slugify: string -> string, s: string,
                             parentId: Option<Id>, description: Option<string>, icon: Option<string>, iconKey: bool)
    requires SlugsUnique(rows) && SlugsFollowNames(rows, slugify)
    requires NamedUpdate(rows, parents, slugify, s, parentId, None, description, icon, iconKey).Ok?
    ensures NamedUpdate(rows, parents, slugify, s, parentId, None, description, icon, iconKey).value.slug == Some(s)
  {
    var k := BySlug(rows, s).value;
    assert rows[k].slug == Some(slugify(rows[k].name));
  }

  /** A rename moves the row to the slug of its new name: afterwards that
      slug finds it, and the old slug finds nothing unless the new name
      gives the same slug. */
  lemma NamedUpdateRenames(rows: map<Id, Named>, parents: set<Id>, slugify: string -> string, s: string,
                           parentId: Option<Id>, name: string, description: Option<string>,
                           icon: Option<string>, iconKey: bool)
    requires SlugsUnique(rows)
    requires NamedUpdate(rows, parents, slugify, s, parentId, Some(name), description, icon, iconKey).Ok?
    ensures var r := NamedUpdate(rows, parents, slugify, s, parentId, Some(name), description, icon, iconKey);
            var rows' := AfterUpdate(rows, s, r);
            && SlugsUnique(rows')
            && BySlug(rows', slugify(name)) == BySlug(rows, s)
            && (slugify(name) != s ==> BySlug(rows', s).None?)
  {
    var r := NamedUpdate(rows, parents, slugify, s, parentId, Some(name), description, icon, iconKey);
    var k := BySlug(rows, s).value;
    RenameMovesSlug(rows, k, r.value, name, slugify);
    assert r.value == r.value.(name := name, slug := Some(slugify(name)));
    var rows' := AfterUpdate(rows, s, r);
    BySlugIs(rows', slugify(name), k);
    if slugify(name) != s {
      forall j | j in rows' ensures rows'[j].slug != Some(s) {
        if j != k {
          assert rows'[j] == rows[j];
          assert rows[k].slug == Some(s);
        }
      }
    }
  }

  /** An update of the row with slug `s`, proved against NamedUpdate: the
      lookup, the edit, then `save()`. */
  method UpdateNamedRows(rows: map<Id, Named>, parents: set<Id>, slugify: string -> string, s: string,
                         parentId: Option<Id>, name: Option<string>, description: Option<string>,
                         icon: Option<string>, iconKey: bool)
    returns (r: Reply<Named>, rows': map<Id, Named>)
    requires SlugsUnique(rows)
    ensures r == NamedUpdate(rows, parents, slugify, s, parentId, name, description, icon, iconKey)
    ensures rows' == AfterUpdate(rows, s, r)
    ensures rows'.Keys == rows.Keys && SlugsUnique(rows')
    ensures SlugsFollowNames(rows, slugify) ==> SlugsFollowNames(rows', slugify)
    ensures ParentsIn(rows, parents) ==> ParentsIn(rows', parents)
  {
    var k := BySlug(rows, s);
    if k.None? {
      return Err(StatusServerError), rows;
    }
    var e, row := EditNamed(rows[k.value], parents, parentId, name, description, icon, iconKey);
    if e.Some? {
      return Err(e.value), rows;
    }
    var saved, written := SaveNamed(rows, k.value, row, slugify);
    if saved.None? {
      return Err(StatusServerError), rows;
    }
    r, rows' := Ok(StatusOk, written), saved.value;
  }

  /** The field-by-field edit of a material row: a given lesson id is looked
      up first (404), then the fields change as UpdatedMaterial says. */
  method EditMaterial(row: Material, lessons: set<Id>, lessonId: Option<Id>, title: Option<string>,
                      materialType: Option<string>, description: Option<string>, file: Option<string>,
                      fileKey: bool, gameUrl: Option<string>)
    returns (e: Option<int>, row': Material)
    ensures e.Some? <==> lessonId.Some? && lessonId.value !in lessons
    ensures e.Some? ==> e == Some(StatusNotFound)
    ensures e.None? ==> row' == UpdatedMaterial(row, lessonId, title, materialType, description, file, fileKey, gameUrl)
    ensures e.None? ==> row'.lesson == row.lesson || (row'.lesson.Some? && row'.lesson.value in lessons)
  {
    row' := row;
    if lessonId.Some? {
      if lessonId.value !in lessons {
        return Some(StatusNotFound), row';
      }
      row' := row'.(lesson := lessonId);
    }
    if title.Some? {
      row' := row'.(title := title);
    }
    if materialType.Some? {
      row' := row'.(materialType := materialType);
    }
    if description.Some? {
      row' := row'.(description := description);
    }
    if file.Some? {
      row' := row'.(file := file);
    } else if fileKey {
      row' := row'.(file := None);
    }
    if gameUrl.Some? {
      row' := row'.(gameUrl := gameUrl);
    }
    e := None;
  }

  /** The field-by-field edit of an answer row. */
  method EditAnswer(row: Answer, text: Option<string>, isCorrect: Option<bool>) returns (row': Answer)
    ensures row' == UpdatedAnswer(row, text, isCorrect)
  {
    row' := row;
    if text.Some? {
      row' := row'.(text := text.value);
    }
    if isCorrect.Some? {
      row' := row'.(isCorrect := isCorrect.value);
    }
  }

  /** The field-by-field edit of a question row: a given lesson id is
      looked up first (404); after the save a given answer list replaces
      the answer set. */
  method EditQuestion(answers: map<Id, Answer>, row: Question, lessons: set<Id>, lessonId: Option<Id>,
                      text: Option<string>, explanation: Option<string>, answerIds: Option<seq<Id>>)
    returns (e: Option<int>, row': Question)
    ensures e.Some? <==> lessonId.Some? && lessonId.value !in lessons
    ensures e.Some? ==> e == Some(StatusNotFound)
    ensures e.None? ==> row' == UpdatedQuestion(answers, row, lessonId, text, explanation, answerIds)
    ensures e.None? ==> row'.lesson == row.lesson || (row'.lesson.Some? && row'.lesson.value in lessons)
    ensures e.None? ==> row'.answers <= row.answers + answers.Keys
  {
    row' := row;
    if lessonId.Some? {
      if lessonId.value !in lessons {
        return Some(StatusNotFound), row';
      }
      row' := row'.(lesson := lessonId);
    }
    if text.Some? {
      row' := row'.(text := text.value);
    }
    if explanation.Some? {
      row' := row'.(explanation := explanation);
    }
    if answerIds.Some? {
      row' := row'.(answers := Existing(answers, answerIds.value));
    }
    e := None;
  }

  /** A material row added under a fresh id keeps the store consistent. */
  lemma MaterialAdded(db: CourseDb, next: Sequences, row: Material)
    requires Consistent(db, next) && row.lesson.Some? && row.lesson.value in db.lessons
    ensures next.material !in db.materials
    ensures Consistent(db.(materials := db.materials[next.material := row]), next.(material := next.material + 1))
  {
  }

  /** A question row added under a fresh id keeps the store consistent. */
  lemma QuestionAdded(db: CourseDb, next: Sequences, row: Question)
    requires Consistent(db, next) && row.answers <= db.answers.Keys
    requires row.lesson.Some? ==> row.lesson.value in db.lessons
    ensures next.question !in db.questions
    ensures Consistent(db.(questions := db.questions[next.question := row]), next.(question := next.question + 1))
  {
  }

  /** A material row edited in place, still pointing at its old lesson or
      at an existing one, keeps the store consistent. */
  lemma MaterialReplaced(db: CourseDb, next: Sequences, k: Id, row: Material)
    requires Consistent(db, next) && k in db.materials
    requires row.lesson == db.materials[k].lesson || (row.lesson.Some? && row.lesson.value in db.lessons)
    ensures Consistent(db.(materials := db.materials[k := row]), next)
  {
    assert db.materials[k := row].Keys == db.materials.Keys;
  }

  /** An answer row edited in place keeps the store consistent. */
  lemma AnswerReplaced(db: CourseDb, next: Sequences, k: Id, row: Answer)
    requires Consistent(db, next) && k in db.answers
    ensures Consistent(db.(answers := db.answers[k := row]), next)
  {
    assert db.answers[k := row].Keys == db.answers.Keys;
  }

  /** A question row edited in place, with existing answers and its old or
      an existing lesson, keeps the store consistent. */
  lemma QuestionReplaced(db: CourseDb, next: Sequences, k: Id, row: Question)
    requires Consistent(db, next) && k in db.questions
    requires row.lesson == db.questions[k].lesson || (row.lesson.Some? && row.lesson.value in db.lessons)
    requires row.answers <= db.questions[k].answers + db.answers.Keys
    ensures Consistent(db.(questions := db.questions[k := row]), next)
  {
    assert db.questions[k := row].Keys == db.questions.Keys;
  }

  // ---------------------------------------------------------------------
  // The store the handlers work on

  class CourseStore {
    const slugify: string -> string
    var db: CourseDb
    var next: Sequences

    /** The schema invariant, fresh ids for every table, and the slug of
        every tree row is the one `save()` gave it. */
    ghost predicate Valid()
      reads this
    {
      && Consistent(db, next)
      && SlugsFollowNames(db.classes, slugify) && SlugsFollowNames(db.subjects, slugify)
      && SlugsFollowNames(db.chapters, slugify) && SlugsFollowNames(db.lessons, slugify)
    }

    /** An empty curriculum. */
    constructor (slugify: string -> string)
      ensures Valid() && this.slugify == slugify
      ensures db == CourseDb(map[], map[], map[], map[], map[], map[], map[], map[])
      ensures next == Sequences(1, 1, 1, 1, 1)
    {
      this.slugify := slugify;
      db := CourseDb(map[], map[], map[], map[], map[], map[], map[], map[]);
      next := Sequences(1, 1, 1, 1, 1);
    }

    /** `ValidateAnswerView.post`: the checks in order, then the answer's
        flag and the question's explanation. Nothing is written. */
    method ValidateAnswer(questionId: Option<Id>, answerId: Option<Id>) returns (r: Reply<Validation>)
      ensures r == AnswerCheck(db, questionId, answerId)
    {
      if !IdGiven(questionId) || !IdGiven(answerId) {
        return Err(StatusBadRequest);
      }
      if questionId.value !in db.questions {
        return Err(StatusNotFound);
      }
      var question := db.questions[questionId.value];
      if answerId.value !in db.answers {
        return Err(StatusNotFound);
      }
      var answer := db.answers[answerId.value];
      if answerId.value !in question.answers {
        return Err(StatusBadRequest);
      }
      r := Ok(StatusOk, Validation(answer.isCorrect, question.explanation));
    }

    /** `LessonListCreateView.create`, as LessonCreate says. */
    method CreateLesson(malformed: bool, inp: LessonInput) returns (r: Reply<Id>)
      requires Valid()
      modifies this
      ensures Valid()
      ensures Outcome(r, db, next) == LessonCreate(old(db), old(next), slugify, malformed, inp)
    {
      var db', next';
      r, db', next' := CreateLessonRows(db, next, slugify, malformed, inp);
      db, next := db', next';
    }

    /** `LearningMaterialListCreateView.create`: the checks of
        MaterialCreateError, then one row under the next material id. */
    method CreateMaterial(lessonId: Option<Id>, title: Option<string>, materialType: Option<string>,
                          description: Option<string>, file: Option<string>, gameUrl: Option<string>)
      returns (r: Reply<Id>)
      requires Valid()
      modifies this
      ensures Valid()
      ensures var e := MaterialCreateError(old(db.lessons).Keys, lessonId, materialType, file, gameUrl);
              && (e.Some? ==> r == Err(e.value) && db == old(db) && next == old(next))
              && (e.None? ==>
                    var k := old(next.material);
                    && r == Ok(StatusCreated, k) && k !in old(db.materials)
                    && db == old(db).(materials := old(db.materials)[k := NewMaterial(lessonId.value, title, materialType.value,
                                                                                      description, file, gameUrl)])
                    && next == old(next).(material := k + 1))
    {
      var e := MaterialCreateError(db.lessons.Keys, lessonId, materialType, file, gameUrl);
      if e.Some? {
        return Err(e.value);
      }
      var k := next.material;
      var row := NewMaterial(lessonId.value, title, materialType.value, description, file, gameUrl);
      MaterialAdded(db, next, row);
      db, next := db.(materials := db.materials[k := row]), next.(material := k + 1);
      r := Ok(StatusCreated, k);
    }

    /** `QuestionListCreateView.create`: the checks of QuestionCreateError,
        then one row under the next question id with the answers among
        `answerIds` that exist. */
    method CreateQuestion(lessonId: Option<Id>, text: Option<string>, explanation: Option<string>, answerIds: seq<Id>)
      returns (r: Reply<Id>)
      requires Valid()
      modifies this
      ensures Valid()
      ensures var e := QuestionCreateError(old(db.lessons).Keys, lessonId, text);
              && (e.Some? ==> r == Err(e.value) && db == old(db) && next == old(next))
              && (e.None? ==>
                    var k := old(next.question);
                    && r == Ok(StatusCreated, k) && k !in old(db.questions)
                    && db == old(db).(questions := old(db.questions)[k := NewQuestion(old(db.answers), lessonId, text.value,
                                                                                      explanation, answerIds)])
                    && next == old(next).(question := k + 1))
    {
      var e := QuestionCreateError(db.lessons.Keys, lessonId, text);
      if e.Some? {
        return Err(e.value);
      }
      var k := next.question;
      var row := NewQuestion(db.answers, lessonId, text.value, explanation, answerIds);
      QuestionAdded(db, next, row);
      db, next := db.(questions := db.questions[k := row]), next.(question := k + 1);
      r := Ok(StatusCreated, k);
    }

    /** `ClassRetrieveUpdateDestroyView.update` of the class with slug `s`. */
    method UpdateClass(s: string, name: Option<string>, description: Option<string>, icon: Option<string>, iconKey: bool)
      returns (r: Reply<Named>)
      requires Valid()
      modifies this
      ensures Valid() && next == old(next)
      ensures r == NamedUpdate(old(db.classes), {}, slugify, s, None, name, description, icon, iconKey)
      ensures db == old(db).(classes := AfterUpdate(old(db.classes), s, r))
    {
      var rows;
      r, rows := UpdateNamedRows(db.classes, {}, slugify, s, None, name, description, icon, iconKey);
      db := db.(classes := rows);
    }

    /** `SubjectRetrieveUpdateDestroyView.update` of the subject with slug
        `s`; `classId` is `class_name`. */
    method UpdateSubject(s: string, classId: Option<Id>, name: Option<string>, description: Option<string>,
                         icon: Option<string>, iconKey: bool)
      returns (r: Reply<Named>)
      requires Valid()
      modifies this
      ensures Valid() && next == old(next)
      ensures r == NamedUpdate(old(db.subjects), old(db.classes).Keys, slugify, s, classId, name, description, icon, iconKey)
      ensures db == old(db).(subjects := AfterUpdate(old(db.subjects), s, r))
    {
      var rows;
      r, rows := UpdateNamedRows(db.subjects, db.classes.Keys, slugify, s, classId, name, description, icon, iconKey);
      db := db.(subjects := rows);
    }

    /** `ChapterRetrieveUpdateDestroyView.update` of the chapter with slug
        `s`; `subjectId` is `subject_name`. */
    method UpdateChapter(s: string, subjectId: Option<Id>, name: Option<string>, description: Option<string>,
                         icon: Option<string>, iconKey: bool)
      returns (r: Reply<Named>)
      requires Valid()
      modifies this
      ensures Valid() && next == old(next)
      ensures r == NamedUpdate(old(db.chapters), old(db.subjects).Keys, slugify, s, subjectId, name, description, icon,
                               iconKey)
      ensures db == old(db).(chapters := AfterUpdate(old(db.chapters), s, r))
    {
      var rows;
      r, rows := UpdateNamedRows(db.chapters, db.subjects.Keys, slugify, s, subjectId, name, description, icon, iconKey);
      db := db.(chapters := rows);
    }

    /** `LessonRetrieveUpdateDestroyView.update` of the lesson with slug
        `s`; `chapterId` is `chapter_name`. */
    method UpdateLesson(s: string, chapterId: Option<Id>, name: Option<string>, description: Option<string>,
                        icon: Option<string>, iconKey: bool)
      returns (r: Reply<Named>)
      requires Valid()
      modifies this
      ensures Valid() && next == old(next)
      ensures r == NamedUpdate(old(db.lessons), old(db.chapters).Keys, slugify, s, chapterId, name, description, icon,
                               iconKey)
      ensures db == old(db).(lessons := AfterUpdate(old(db.lessons), s, r))
    {
      var rows;
      r, rows := UpdateNamedRows(db.lessons, db.chapters.Keys, slugify, s, chapterId, name, description, icon, iconKey);
      db := db.(lessons := rows);
    }

    /** `LearningMaterialRetrieveUpdateDestroyView.update` of material `k`:
        a missing row ends in 500, an unknown lesson in 404, else the row
        becomes UpdatedMaterial. */
    method UpdateMaterial(k: Id, lessonId: Option<Id>, title: Option<string>, materialType: Option<string>,
                          description: Option<string>, file: Option<string>, fileKey: bool, gameUrl: Option<string>)
      returns (r: Reply<Material>)
      requires Valid()
      modifies this
      ensures Valid() && next == old(next)
      ensures k !in old(db.materials) ==> r == Err(StatusServerError) && db == old(db)
      ensures k in old(db.materials) && lessonId.Some? && lessonId.value !in old(db.lessons) ==>
                r == Err(StatusNotFound) && db == old(db)
      ensures k in old(db.materials) && (lessonId.Some? ==> lessonId.value in old(db.lessons)) ==>
                var m := UpdatedMaterial(old(db.materials)[k], lessonId, title, materialType, description, file, fileKey,
                                         gameUrl);
                r == Ok(StatusOk, m) && db == old(db).(materials := old(db.materials)[k := m])
    {
      if k !in db.materials {
        return Err(StatusServerError);
      }
      var e, row := EditMaterial(db.materials[k], db.lessons.Keys, lessonId, title, materialType, description,
                                 file, fileKey, gameUrl);
      if e.Some? {
        return Err(e.value);
      }
      MaterialReplaced(db, next, k, row);
      db := db.(materials := db.materials[k := row]);
      r := Ok(StatusOk, row);
    }

    /** `VideoRetrieveUpdateDestroyView.update` of the video with slug `s`:
        the view looks videos up by `slug`, a field Video does not declare
        (its `save()` only sets a plain attribute), so the lookup itself
        fails and every update ends in 500 with nothing written. */
    method UpdateVideo(s: string) returns (r: Reply<Video>)
      ensures r == Err(StatusServerError)
    {
      r := Err(StatusServerError);
    }

    /** `AnswerRetrieveUpdateDestroyView.update` of answer `k`: a missing row
        ends in 500, else the row becomes UpdatedAnswer. */
    method UpdateAnswer(k: Id, text: Option<string>, isCorrect: Option<bool>) returns (r: Reply<Answer>)
      requires Valid()
      modifies this
      ensures Valid() && next == old(next)
      ensures k !in old(db.answers) ==> r == Err(StatusServerError) && db == old(db)
      ensures k in old(db.answers) ==>
                var a := UpdatedAnswer(old(db.answers)[k], text, isCorrect);
                r == Ok(StatusOk, a) && db == old(db).(answers := old(db.answers)[k := a])
    {
      if k !in db.answers {
        return Err(StatusServerError);
      }
      var row := EditAnswer(db.answers[k], text, isCorrect);
      AnswerReplaced(db, next, k, row);
      db := db.(answers := db.answers[k := row]);
      r := Ok(StatusOk, row);
    }

    /** `QuestionRetrieveUpdateDestroyView.update` of question `k`: a missing
        row ends in 500, an unknown lesson in 404, else the row becomes
        UpdatedQuestion. */
    method UpdateQuestion(k: Id, lessonId: Option<Id>, text: Option<string>, explanation: Option<string>,
                          answerIds: Option<seq<Id>>)
      returns (r: Reply<Question>)
      requires Valid()
      modifies this
      ensures Valid() && next == old(next)
      ensures k !in old(db.questions) ==> r == Err(StatusServerError) && db == old(db)
      ensures k in old(db.questions) && lessonId.Some? && lessonId.value !in old(db.lessons) ==>
                r == Err(StatusNotFound) && db == old(db)
      ensures k in old(db.questions) && (lessonId.Some? ==> lessonId.value in old(db.lessons)) ==>
                var q := UpdatedQuestion(old(db.answers), old(db.questions)[k], lessonId, text, explanation, answerIds);
                r == Ok(StatusOk, q) && db == old(db).(questions := old(db.questions)[k := q])
    {
      if k !in db.questions {
        return Err(StatusServerError);
      }
      var e, row := EditQuestion(db.answers, db.questions[k], db.lessons.Keys, lessonId, text, explanation, answerIds);
      if e.Some? {
        return Err(e.value);
      }
      QuestionReplaced(db, next, k, row);
      db := db.(questions := db.questions[k := row]);
      r := Ok(StatusOk, row);
    }
  }
}
