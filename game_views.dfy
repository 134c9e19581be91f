/** The request handlers of the lesson player in game/views.py: authoring
    frames, quizzes and options, validating a learner's quiz answer, and
    recording their progress. Each handler checks its inputs in a fixed
    order and answers with the status of the first failure; only after all
    checks pass does it change the store. */
module GameViews {
  import opened Common
  import opened GameModels

  // ---------------------------------------------------------------------
  // Request payloads and the rows their loops create

  /** One entry of an `options` list; each field is None when absent. */
  datatype OptionInput = OptionInput(text: Option<string>, isCorrect: Option<bool>, explanation: Option<string>)

  /** One entry of a frame's `objects` list, with the texts it speaks. */
  datatype ObjectInput = ObjectInput(name: Option<string>, dialogues: seq<string>)

  /** A frame's `quiz` payload; None stands for an absent or empty dict. */
  datatype QuizInput = QuizInput(question: Option<string>, options: seq<OptionInput>)

  /** The option row created for an entry: `is_correct` defaults to False
      and `explanation` to the empty string. */
  function OptionRow(o: OptionInput): QuizOption {
    QuizOption(OrElse(o.text, ""), OrElse(o.isCorrect, false), OrElse(o.explanation, ""))
  }

  /** The option rows an options loop creates from the first `n` entries,
      in order: one per entry whose text is truthy. */
  function OptionRows(opts: seq<OptionInput>, n: nat): (r: seq<QuizOption>)
    requires n <= |opts|
    ensures |r| <= n
  {
    if n == 0 then []
    else OptionRows(opts, n - 1) + (if Present(opts[n - 1].text) then [OptionRow(opts[n - 1])] else [])
  }

  /** The options loop keeps exactly the entries with a text: every kept
      entry yields a row, every row comes from a kept entry and has a text,
      and when every entry has a text every entry yields a row. */
  lemma {:induction false} OptionRowsKeepTexted(opts: seq<OptionInput>, n: nat)
    requires n <= |opts|
    ensures forall i | 0 <= i < n && Present(opts[i].text) :: OptionRow(opts[i]) in OptionRows(opts, n)
    ensures forall x | x in OptionRows(opts, n) ::
              x.text != "" && exists i :: 0 <= i < n && Present(opts[i].text) && x == OptionRow(opts[i])
    ensures (forall i | 0 <= i < n :: Present(opts[i].text)) ==> |OptionRows(opts, n)| == n
  {
    if n > 0 {
      OptionRowsKeepTexted(opts, n - 1);
      forall x | x in OptionRows(opts, n)
        ensures x.text != "" && exists i :: 0 <= i < n && Present(opts[i].text) && x == OptionRow(opts[i])
      {
        if x !in OptionRows(opts, n - 1) {
          assert x == OptionRow(opts[n - 1]) && Present(opts[n - 1].text);
        }
      }
    }
  }

  /** The dialogue rows created for one object from its first `n` texts:
      one per truthy text. */
  function DialogueRows(frame: Id, obj: Id, texts: seq<string>, n: nat): (r: seq<Dialogue>)
    requires n <= |texts|
    ensures |r| <= n
  {
    if n == 0 then []
    else DialogueRows(frame, obj, texts, n - 1)
           + (if |texts[n - 1]| > 0 then [Dialogue(frame, obj, texts[n - 1])] else [])
  }

  /** A dialogue text the loop keeps: a non-empty one. */
  predicate Spoken(t: string) {
    |t| > 0
  }

  /** Every dialogue created for an object belongs to its frame and to it,
      and has a text. */
  lemma {:induction false} DialogueRowsBelong(frame: Id, obj: Id, texts: seq<string>, n: nat)
    requires n <= |texts|
    ensures forall x | x in DialogueRows(frame, obj, texts, n) :: x.frame == frame && x.gameObject == obj && x.text != ""
  {
    if n > 0 {
      DialogueRowsBelong(frame, obj, texts, n - 1);
    }
  }

  /** The dialogues loop creates exactly one row per non-empty text, and
      every non-empty text appears in a row. */
  lemma {:induction false} DialogueRowsCount(frame: Id, obj: Id, texts: seq<string>, n: nat)
    requires n <= |texts|
    ensures |DialogueRows(frame, obj, texts, n)| == |KeptIndices(texts, Spoken, n)|
    ensures forall i | 0 <= i < n && Spoken(texts[i]) :: Dialogue(frame, obj, texts[i]) in DialogueRows(frame, obj, texts, n)
  {
    if n > 0 {
      DialogueRowsCount(frame, obj, texts, n - 1);
      KeptIndicesStep(texts, Spoken, n);
    }
  }

  /** The game objects a frame create makes from the first `n` entries: one
      per entry with a truthy name. */
  function ObjectRows(frame: Id, objs: seq<ObjectInput>, n: nat): (r: seq<GameObject>)
    requires n <= |objs|
    ensures |r| <= n
  {
    if n == 0 then []
    else ObjectRows(frame, objs, n - 1)
           + (if Present(objs[n - 1].name) then [GameObject(frame, objs[n - 1].name.value)] else [])
  }

  /** An object entry the loop keeps: one with a truthy name. */
  predicate NamedObject(o: ObjectInput) {
    Present(o.name)
  }

  /** Every object a frame create makes belongs to the frame and has a name. */
  lemma {:induction false} ObjectRowsBelong(frame: Id, objs: seq<ObjectInput>, n: nat)
    requires n <= |objs|
    ensures forall x | x in ObjectRows(frame, objs, n) :: x.frame == frame && x.name != ""
  {
    if n > 0 {
      ObjectRowsBelong(frame, objs, n - 1);
    }
  }

  /** A frame create makes exactly one object per named entry, and every
      named entry yields an object of that name. */
  lemma {:induction false} ObjectRowsCount(frame: Id, objs: seq<ObjectInput>, n: nat)
    requires n <= |objs|
    ensures |ObjectRows(frame, objs, n)| == |KeptIndices(objs, NamedObject, n)|
    ensures forall i | 0 <= i < n && NamedObject(objs[i]) :: GameObject(frame, objs[i].name.value) in ObjectRows(frame, objs, n)
  {
    if n > 0 {
      ObjectRowsCount(frame, objs, n - 1);
      KeptIndicesStep(objs, NamedObject, n);
    }
  }

  /** The dialogues a frame create makes for the first `n` entries, object by
      object, when the objects are numbered from `firstObject`; an unnamed
      object's dialogues are skipped with it. */
  function ObjectDialogueRows(frame: Id, firstObject: nat, objs: seq<ObjectInput>, n: nat): (r: seq<Dialogue>)
    requires n <= |objs|
  {
    if n == 0 then []
    else
      var o := objs[n - 1];
      ObjectDialogueRows(frame, firstObject, objs, n - 1)
        + (if Present(o.name)
           then DialogueRows(frame, firstObject + |ObjectRows(frame, objs, n - 1)|, o.dialogues, |o.dialogues|)
           else [])
  }

  /** Every dialogue a frame create makes belongs to the frame and to one of
      the objects the same request created. */
  lemma {:induction false} ObjectDialogueRowsBelong(frame: Id, firstObject: nat, objs: seq<ObjectInput>, n: nat)
    requires n <= |objs|
    ensures forall j | 0 <= j < |ObjectDialogueRows(frame, firstObject, objs, n)| ::
              && ObjectDialogueRows(frame, firstObject, objs, n)[j].frame == frame
              && firstObject <= ObjectDialogueRows(frame, firstObject, objs, n)[j].gameObject
                             < firstObject + |ObjectRows(frame, objs, n)|
  {
    if n > 0 {
      var o := objs[n - 1];
      var prev := ObjectDialogueRows(frame, firstObject, objs, n - 1);
      var before := |ObjectRows(frame, objs, n - 1)|;
      assert |ObjectRows(frame, objs, n)| == before + (if Present(o.name) then 1 else 0);
      ObjectDialogueRowsBelong(frame, firstObject, objs, n - 1);
      if Present(o.name) {
        var batch := DialogueRows(frame, firstObject + before, o.dialogues, |o.dialogues|);
        DialogueRowsBelong(frame, firstObject + before, o.dialogues, |o.dialogues|);
        var r := prev + batch;
        forall j | 0 <= j < |r| ensures r[j].frame == frame && firstObject <= r[j].gameObject < firstObject + before + 1 {
          if j >= |prev| {
            assert r[j] == batch[j - |prev|] && batch[j - |prev|] in batch;
          } else {
            assert r[j] == prev[j];
          }
        }
        assert ObjectDialogueRows(frame, firstObject, objs, n) == r;
      } else {
        assert ObjectDialogueRows(frame, firstObject, objs, n) == prev + [] == prev;
      }
    }
  }

  /** The options loop: creates one QuizOption row per entry with a text,
      numbered from `next`. */
  method AddOptions(options: map<Id, QuizOption>, next: nat, opts: seq<OptionInput>)
    returns (options': map<Id, QuizOption>, next': nat)
    ensures next' == next + |OptionRows(opts, |opts|)|
    ensures options' == options + Numbered(next, OptionRows(opts, |opts|))
  {
    options', next' := options, next;
    for i := 0 to |opts|
      invariant next' == next + |OptionRows(opts, i)|
      invariant options' == options + Numbered(next, OptionRows(opts, i))
    {
      if Present(opts[i].text) {
        NumberedSnoc(options, next, OptionRows(opts, i), OptionRow(opts[i]));
        options' := options'[next' := OptionRow(opts[i])];
        next' := next' + 1;
      } else {
        assert OptionRows(opts, i + 1) == OptionRows(opts, i);
      }
    }
  }

  /** The dialogue loop of one object: one Dialogue row per truthy text. */
  method AddDialogues(dialogues: map<Id, Dialogue>, next: nat, frame: Id, obj: Id, texts: seq<string>)
    returns (dialogues': map<Id, Dialogue>, next': nat)
    ensures next' == next + |DialogueRows(frame, obj, texts, |texts|)|
    ensures dialogues' == dialogues + Numbered(next, DialogueRows(frame, obj, texts, |texts|))
  {
    dialogues', next' := dialogues, next;
    for i := 0 to |texts|
      invariant next' == next + |DialogueRows(frame, obj, texts, i)|
      invariant dialogues' == dialogues + Numbered(next, DialogueRows(frame, obj, texts, i))
    {
      if |texts[i]| > 0 {
        NumberedSnoc(dialogues, next, DialogueRows(frame, obj, texts, i), Dialogue(frame, obj, texts[i]));
        dialogues' := dialogues'[next' := Dialogue(frame, obj, texts[i])];
        next' := next' + 1;
      } else {
        assert DialogueRows(frame, obj, texts, i + 1) == DialogueRows(frame, obj, texts, i);
      }
    }
  }

  /** A named entry `i` adds one object, numbered right after those of the
      earlier entries. */
  lemma ObjectRowsStep(objects: map<Id, GameObject>, nextObject: nat, frame: Id, objs: seq<ObjectInput>, i: nat,
                       cur: map<Id, GameObject>, curNext: nat)
    requires i < |objs| && Present(objs[i].name)
    requires curNext == nextObject + |ObjectRows(frame, objs, i)|
    requires cur == objects + Numbered(nextObject, ObjectRows(frame, objs, i))
    ensures curNext + 1 == nextObject + |ObjectRows(frame, objs, i + 1)|
    ensures cur[curNext := GameObject(frame, objs[i].name.value)] == objects + Numbered(nextObject, ObjectRows(frame, objs, i + 1))
  {
    NumberedSnoc(objects, nextObject, ObjectRows(frame, objs, i), GameObject(frame, objs[i].name.value));
  }

  /** The dialogues of a named entry `i` follow those of the earlier entries. */
  lemma DialogueRowsStep(dialogues: map<Id, Dialogue>, nextDialogue: nat, frame: Id, nextObject: nat,
                         objs: seq<ObjectInput>, i: nat, cur: map<Id, Dialogue>, curNext: nat)
    requires i < |objs| && Present(objs[i].name)
    requires curNext == nextDialogue + |ObjectDialogueRows(frame, nextObject, objs, i)|
    requires cur == dialogues + Numbered(nextDialogue, ObjectDialogueRows(frame, nextObject, objs, i))
    ensures var batch := DialogueRows(frame, nextObject + |ObjectRows(frame, objs, i)|, objs[i].dialogues, |objs[i].dialogues|);
            && curNext + |batch| == nextDialogue + |ObjectDialogueRows(frame, nextObject, objs, i + 1)|
            && cur + Numbered(curNext, batch) == dialogues + Numbered(nextDialogue, ObjectDialogueRows(frame, nextObject, objs, i + 1))
  {
    var done := ObjectDialogueRows(frame, nextObject, objs, i);
    var batch := DialogueRows(frame, nextObject + |ObjectRows(frame, objs, i)|, objs[i].dialogues, |objs[i].dialogues|);
    assert ObjectDialogueRows(frame, nextObject, objs, i + 1) == done + batch;
    NumberedExtend(dialogues, nextDialogue, done, batch);
  }

  /** One pass of the objects loop over a named entry `i`: its object takes
      the next object id and its dialogues the next dialogue ids. The tables
      go from the rows of the first `i` entries to those of the first `i + 1`. */
  method AddObjectEntry(objects: map<Id, GameObject>, nextObject: nat, dialogues: map<Id, Dialogue>, nextDialogue: nat,
                        frame: Id, objs: seq<ObjectInput>, i: nat,
                        curObjects: map<Id, GameObject>, curNextObject: nat,
                        curDialogues: map<Id, Dialogue>, curNextDialogue: nat)
    returns (objects': map<Id, GameObject>, nextObject': nat, dialogues': map<Id, Dialogue>, nextDialogue': nat)
    requires i < |objs| && Present(objs[i].name)
    requires curNextObject == nextObject + |ObjectRows(frame, objs, i)|
    requires curObjects == objects + Numbered(nextObject, ObjectRows(frame, objs, i))
    requires curNextDialogue == nextDialogue + |ObjectDialogueRows(frame, nextObject, objs, i)|
    requires curDialogues == dialogues + Numbered(nextDialogue, ObjectDialogueRows(frame, nextObject, objs, i))
    ensures nextObject' == nextObject + |ObjectRows(frame, objs, i + 1)|
    ensures objects' == objects + Numbered(nextObject, ObjectRows(frame, objs, i + 1))
    ensures nextDialogue' == nextDialogue + |ObjectDialogueRows(frame, nextObject, objs, i + 1)|
    ensures dialogues' == dialogues + Numbered(nextDialogue, ObjectDialogueRows(frame, nextObject, objs, i + 1))
  {
    ObjectRowsStep(objects, nextObject, frame, objs, i, curObjects, curNextObject);
    DialogueRowsStep(dialogues, nextDialogue, frame, nextObject, objs, i, curDialogues, curNextDialogue);
    objects' := curObjects[curNextObject := GameObject(frame, objs[i].name.value)];
    nextObject' := curNextObject + 1;
    dialogues', nextDialogue' := AddDialogues(curDialogues, curNextDialogue, frame, curNextObject, objs[i].dialogues);
  }

  /** The objects loop of a frame create: a GameObject per named entry,
      each followed by its dialogues. */
  method AddObjects(objects: map<Id, GameObject>, nextObject: nat, dialogues: map<Id, Dialogue>, nextDialogue: nat,
                    frame: Id, objs: seq<ObjectInput>)
    returns (objects': map<Id, GameObject>, nextObject': nat, dialogues': map<Id, Dialogue>, nextDialogue': nat)
    ensures nextObject' == nextObject + |ObjectRows(frame, objs, |objs|)|
    ensures objects' == objects + Numbered(nextObject, ObjectRows(frame, objs, |objs|))
    ensures nextDialogue' == nextDialogue + |ObjectDialogueRows(frame, nextObject, objs, |objs|)|
    ensures dialogues' == dialogues + Numbered(nextDialogue, ObjectDialogueRows(frame, nextObject, objs, |objs|))
  {
    objects', nextObject', dialogues', nextDialogue' := objects, nextObject, dialogues, nextDialogue;
    for i := 0 to |objs|
      invariant nextObject' == nextObject + |ObjectRows(frame, objs, i)|
      invariant objects' == objects + Numbered(nextObject, ObjectRows(frame, objs, i))
      invariant nextDialogue' == nextDialogue + |ObjectDialogueRows(frame, nextObject, objs, i)|
      invariant dialogues' == dialogues + Numbered(nextDialogue, ObjectDialogueRows(frame, nextObject, objs, i))
    {
      if Present(objs[i].name) {
        objects', nextObject', dialogues', nextDialogue' :=
          AddObjectEntry(objects, nextObject, dialogues, nextDialogue, frame, objs, i,
                         objects', nextObject', dialogues', nextDialogue');
      } else {
        assert ObjectRows(frame, objs, i + 1) == ObjectRows(frame, objs, i);
        assert ObjectDialogueRows(frame, nextObject, objs, i + 1) == ObjectDialogueRows(frame, nextObject, objs, i);
      }
    }
  }

  // ---------------------------------------------------------------------
  // Progress rows

  /** A UserProgress row: one learner's progress through one lesson. */
  datatype Progress = Progress(
    user: Id,
    lesson: Id,
    currentFrame: Option<Id>,
    completed: set<Id>,
    score: int)

  /** The rows `UserProgress.objects.get_or_create(user=u, lesson=l)` finds. */
  function Matching(progress: map<Id, Progress>, u: Id, l: Id): set<Id> {
    set k | k in progress && progress[k].user == u && progress[k].lesson == l
  }

  /** The progress table after a get-or-create and its follow-up updates:
      the rows, the next id of the table's sequence, and whether a row was
      created. */
  datatype Upserted = Upserted(rows: map<Id, Progress>, next: nat, created: bool)

  /** A correct answer to the quiz of `frame`, which belongs to `lesson`:
      get-or-create the learner's row (a new one starts at `frame` with
      score 0), add `frame` to its completed frames and add 1 to its score.
      None when the lookup finds several rows (MultipleObjectsReturned). */
  ghost function ScoreCorrect(progress: map<Id, Progress>, next: nat, user: Id, lesson: Id, frame: Id): (r: Option<Upserted>)
    ensures r.None? <==> |Matching(progress, user, lesson)| > 1
  {
    var m := Matching(progress, user, lesson);
    if |m| == 0 then
      Some(Upserted(progress[next := Progress(user, lesson, Some(frame), {frame}, 1)], next + 1, true))
    else if |m| == 1 then
      var k :| k in m;
      var row := progress[k];
      Some(Upserted(progress[k := row.(completed := row.completed + {frame}, score := row.score + 1)], next, false))
    else
      None
  }

  /** After a correct answer exactly one row exists for (user, lesson); it
      has the frame among its completed frames and one point more than
      before (a new row: one point, current frame = the answered frame).
      No other row changes. */
  lemma ScoreCorrectSpec(progress: map<Id, Progress>, next: nat, user: Id, lesson: Id, frame: Id)
    requires forall k | k in progress :: k < next
    requires |Matching(progress, user, lesson)| <= 1
    ensures ScoreCorrect(progress, next, user, lesson, frame).Some?
    ensures var r := ScoreCorrect(progress, next, user, lesson, frame).value;
      && r.created == (Matching(progress, user, lesson) == {})
      && |Matching(r.rows, user, lesson)| == 1
      && (forall k | k in Matching(r.rows, user, lesson) ::
            && frame in r.rows[k].completed
            && (r.created ==> k == next && r.next == next + 1
                              && r.rows[k] == Progress(user, lesson, Some(frame), {frame}, 1))
            && (!r.created ==> k in progress && r.next == next
                               && r.rows[k] == progress[k].(completed := progress[k].completed + {frame},
                                                            score := progress[k].score + 1)))
      && (forall j | j in progress && j !in Matching(progress, user, lesson) :: j in r.rows && r.rows[j] == progress[j])
  {
    var m := Matching(progress, user, lesson);
    var r := ScoreCorrect(progress, next, user, lesson, frame).value;
    if |m| == 0 {
      assert m == {};
      assert Matching(r.rows, user, lesson) == {next};
    } else {
      var k :| k in m;
      SingleMatch(m, k);
      assert Matching(r.rows, user, lesson) == {k};
    }
  }

  /** There is no replay guard: answering the same quiz correctly again adds
      another point, while the completed frames stay as they were. */
  lemma NoReplayGuard(progress: map<Id, Progress>, next: nat, user: Id, lesson: Id, frame: Id, k: Id)
    requires k in progress && Matching(progress, user, lesson) == {k}
    ensures var r1 := ScoreCorrect(progress, next, user, lesson, frame).value;
            ScoreCorrect(r1.rows, r1.next, user, lesson, frame).Some?
    ensures var r1 := ScoreCorrect(progress, next, user, lesson, frame).value;
            var r2 := ScoreCorrect(r1.rows, r1.next, user, lesson, frame).value;
            && r2.rows[k].score == progress[k].score + 2
            && r2.rows[k].completed == r1.rows[k].completed == progress[k].completed + {frame}
  {
    var r1 := ScoreCorrect(progress, next, user, lesson, frame).value;
    assert r1.rows == progress[k := progress[k].(completed := progress[k].completed + {frame},
                                                 score := progress[k].score + 1)];
    assert Matching(r1.rows, user, lesson) == {k};
  }

  /** The checks of a progress create, in order: a lesson is required (400)
      and must exist (404); a truthy current frame must exist (404). On
      success: the current frame to record. */
  function ProgressCreateCheck(lessons: set<Id>, frames: map<Id, Frame>, lessonId: Option<Id>, currentFrameId: Option<Id>)
    : (r: Reply<Option<Id>>)
    ensures r.Ok? <==> IdGiven(lessonId) && lessonId.value in lessons
                       && (IdGiven(currentFrameId) ==> currentFrameId.value in frames)
    ensures r.Err? ==> r.status == (if IdGiven(lessonId) then StatusNotFound else StatusBadRequest)
    ensures r.Ok? ==> r.value.Some? == IdGiven(currentFrameId)
                      && (r.value.Some? ==> r.value.value == currentFrameId.value && r.value.value in frames)
  {
    if !IdGiven(lessonId) then Err(StatusBadRequest)
    else if lessonId.value !in lessons then Err(StatusNotFound)
    else if IdGiven(currentFrameId) && currentFrameId.value !in frames then Err(StatusNotFound)
    else Ok(StatusOk, if IdGiven(currentFrameId) then Some(currentFrameId.value) else None)
  }

  /** The upsert of a progress create: get-or-create the (user, lesson) row
      with defaults `current` and `score`; an existing row takes `current`
      only when one is given and always takes `score`; either way the
      `completed` frames are added. None when several rows match. */
  ghost function UpsertProgress(progress: map<Id, Progress>, next: nat, user: Id, lesson: Id,
                                current: Option<Id>, completed: set<Id>, score: int): (r: Option<Upserted>)
    ensures r.None? <==> |Matching(progress, user, lesson)| > 1
  {
    var m := Matching(progress, user, lesson);
    if |m| == 0 then
      Some(Upserted(progress[next := Progress(user, lesson, current, completed, score)], next + 1, true))
    else if |m| == 1 then
      var k :| k in m;
      var row := progress[k];
      var row' := row.(currentFrame := if current.Some? then current else row.currentFrame, score := score);
      Some(Upserted(progress[k := row'.(completed := row'.completed + completed)], next, false))
    else
      None
  }

  /** The progress create is an upsert on (user, lesson): afterwards exactly
      one row exists for the pair; it was created (status 201) exactly when
      none existed; its completed frames are the old ones united with the
      new; its score is the request's; its current frame is the request's
      when one is given, else the old one. No other row changes. */
  lemma UpsertProgressSpec(progress: map<Id, Progress>, next: nat, user: Id, lesson: Id,
                           current: Option<Id>, completed: set<Id>, score: int)
    requires forall k | k in progress :: k < next
    requires |Matching(progress, user, lesson)| <= 1
    ensures UpsertProgress(progress, next, user, lesson, current, completed, score).Some?
    ensures var r := UpsertProgress(progress, next, user, lesson, current, completed, score).value;
      && r.created == (Matching(progress, user, lesson) == {})
      && |Matching(r.rows, user, lesson)| == 1
      && (forall k | k in Matching(r.rows, user, lesson) ::
            && r.rows[k].score == score
            && (r.created ==> k == next && r.next == next + 1
                              && r.rows[k] == Progress(user, lesson, current, completed, score))
            && (!r.created ==> k in progress && r.next == next
                               && r.rows[k].completed == progress[k].completed + completed
                               && r.rows[k].currentFrame == (if current.Some? then current else progress[k].currentFrame)))
      && (forall j | j in progress && j !in Matching(progress, user, lesson) :: j in r.rows && r.rows[j] == progress[j])
  {
    var m := Matching(progress, user, lesson);
    var r := UpsertProgress(progress, next, user, lesson, current, completed, score).value;
    if |m| == 0 {
      assert m == {};
      assert Matching(r.rows, user, lesson) == {next};
    } else {
      var k :| k in m;
      SingleMatch(m, k);
      assert Matching(r.rows, user, lesson) == {k};
    }
  }

  /** Repeating a progress create changes nothing more: the second call
      finds the row the first one left and reports it as not created. */
  lemma UpsertProgressRepeat(progress: map<Id, Progress>, next: nat, user: Id, lesson: Id,
                             current: Option<Id>, completed: set<Id>, score: int)
    requires forall k | k in progress :: k < next
    requires |Matching(progress, user, lesson)| <= 1
    ensures var r1 := UpsertProgress(progress, next, user, lesson, current, completed, score).value;
            var r2 := UpsertProgress(r1.rows, r1.next, user, lesson, current, completed, score);
            r2 == Some(Upserted(r1.rows, r1.next, false))
  {
    UpsertProgressSpec(progress, next, user, lesson, current, completed, score);
    var r1 := UpsertProgress(progress, next, user, lesson, current, completed, score).value;
    var m1 := Matching(r1.rows, user, lesson);
    var k :| k in m1;
    SingleMatch(m1, k);
    var row := r1.rows[k];
    var row' := row.(currentFrame := if current.Some? then current else row.currentFrame, score := score);
    assert row'.(completed := row'.completed + completed) == row;
    assert r1.rows[k := row] == r1.rows;
  }

  /** The checks of a progress update once the row is found: a truthy lesson
      must exist, then a truthy current frame must exist (404 each). */
  function ProgressUpdateError(lessons: set<Id>, frames: map<Id, Frame>, lessonId: Option<Id>, currentFrameId: Option<Id>)
    : (e: Option<int>)
    ensures e.None? <==> (IdGiven(lessonId) ==> lessonId.value in lessons)
                         && (IdGiven(currentFrameId) ==> currentFrameId.value in frames)
    ensures e.Some? ==> e.value == StatusNotFound
  {
    if IdGiven(lessonId) && lessonId.value !in lessons then Some(StatusNotFound)
    else if IdGiven(currentFrameId) && currentFrameId.value !in frames then Some(StatusNotFound)
    else None
  }

  /** A progress row after an update: truthy lesson and current frame are
      taken, a non-None score overwrites the old one, and a non-None list of
      completed frames replaces the set wholesale (so `[]` empties it). */
  function UpdatedProgress(row: Progress, frames: map<Id, Frame>, lessonId: Option<Id>, currentFrameId: Option<Id>,
                           completedIds: Option<seq<Id>>, score: Option<int>): (r: Progress)
    ensures r.user == row.user
    ensures completedIds.Some? ==> r.completed == Existing(frames, completedIds.value)
    ensures completedIds == Some([]) ==> r.completed == {}
    ensures completedIds.None? ==> r.completed == row.completed
    ensures score.Some? ==> r.score == score.value
    ensures score.None? ==> r.score == row.score
    ensures IdGiven(lessonId) ==> r.lesson == lessonId.value
    ensures !IdGiven(lessonId) ==> r.lesson == row.lesson
    ensures IdGiven(currentFrameId) ==> r.currentFrame == currentFrameId
    ensures !IdGiven(currentFrameId) ==> r.currentFrame == row.currentFrame
    ensures !IdGiven(lessonId) && !IdGiven(currentFrameId) && completedIds.None? && score.None? ==> r == row
  {
    Progress(
      row.user,
      if IdGiven(lessonId) then lessonId.value else row.lesson,
      if IdGiven(currentFrameId) then Some(currentFrameId.value) else row.currentFrame,
      if completedIds.Some? then Existing(frames, completedIds.value) else row.completed,
      if score.Some? then score.value else row.score)
  }

  /** Replaying the same update is harmless: an update is idempotent, and
      the set it leaves does not depend on the set it found. */
  lemma {:induction false} UpdatedProgressIdempotent(row: Progress, other: Progress, frames: map<Id, Frame>,
                                                     lessonId: Option<Id>, currentFrameId: Option<Id>,
                                                     completedIds: seq<Id>, score: Option<int>)
    ensures var r := UpdatedProgress(row, frames, lessonId, currentFrameId, Some(completedIds), score);
            UpdatedProgress(r, frames, lessonId, currentFrameId, Some(completedIds), score) == r
    ensures UpdatedProgress(row, frames, lessonId, currentFrameId, Some(completedIds), score).completed
         == UpdatedProgress(other, frames, lessonId, currentFrameId, Some(completedIds), score).completed
  {
  }

  // ---------------------------------------------------------------------
  // Quiz answer validation

  /** The checks of an answer, in order: quiz_id required (400), option_id
      required (400), quiz must exist (404), option must exist (404),
      option must be one of the quiz's options (400). On success: the
      option. */
  function AnswerCheck(db: GameDb, quizId: Option<Id>, optionId: Option<Id>): (r: Reply<Id>)
    ensures r.Ok? <==> IdGiven(quizId) && IdGiven(optionId) && quizId.value in db.quizzes
                       && optionId.value in db.options && optionId.value in db.quizzes[quizId.value].options
    ensures r.Ok? ==> r == Ok(StatusOk, optionId.value)
    ensures r.Err? ==> r.status == (if !IdGiven(quizId) || !IdGiven(optionId) then StatusBadRequest
                                    else if quizId.value !in db.quizzes || optionId.value !in db.options then StatusNotFound
                                    else StatusBadRequest)
  {
    if !IdGiven(quizId) then Err(StatusBadRequest)
    else if !IdGiven(optionId) then Err(StatusBadRequest)
    else if quizId.value !in db.quizzes then Err(StatusNotFound)
    else if optionId.value !in db.options then Err(StatusNotFound)
    else if optionId.value !in db.quizzes[quizId.value].options then Err(StatusBadRequest)
    else Ok(StatusOk, optionId.value)
  }

  /** What the answer endpoint reports: the chosen option's flag and explanation. */
  datatype AnswerResult = AnswerResult(isCorrect: bool, explanation: string)

  // ---------------------------------------------------------------------
  // Frame and quiz authoring

  /** The checks of a frame create: a truthy lesson, background or previous
      frame must exist (404); a previous frame that already has a successor
      makes `frame.save()` fail the one-to-one constraint (500). */
  function FrameCreateError(db: GameDb, lessons: set<Id>, lessonId: Option<Id>, backgroundId: Option<Id>, previousId: Option<Id>)
    : (e: Option<int>)
    requires PreviousOneToOne(db.frames)
    ensures e == Some(StatusNotFound) <==>
              || (IdGiven(lessonId) && lessonId.value !in lessons)
              || (IdGiven(backgroundId) && backgroundId.value !in db.backgrounds)
              || (IdGiven(previousId) && previousId.value !in db.frames)
    ensures e == Some(StatusServerError) <==>
              && e != Some(StatusNotFound) && IdGiven(previousId)
              && exists g :: g in db.frames && db.frames[g].previousFrame == Some(previousId.value)
    ensures e.None? || e == Some(StatusNotFound) || e == Some(StatusServerError)
  {
    if IdGiven(lessonId) && lessonId.value !in lessons then Some(StatusNotFound)
    else if IdGiven(backgroundId) && backgroundId.value !in db.backgrounds then Some(StatusNotFound)
    else if IdGiven(previousId) && previousId.value !in db.frames then Some(StatusNotFound)
    else if IdGiven(previousId) && Successor(db, previousId.value).Some? then Some(StatusServerError)
    else None
  }

  /** The frame row a create builds: truthy ids become links, the name
      defaults to "" and the type to "background". */
  function NewFrame(lessonId: Option<Id>, name: Option<string>, frameType: Option<string>,
                    backgroundId: Option<Id>, previousId: Option<Id>): (r: Frame)
    ensures r.frameType == OrElse(frameType, DefaultFrameType)
    ensures r.previousFrame.Some? <==> IdGiven(previousId)
    ensures IdGiven(previousId) ==> r.previousFrame == previousId
    ensures IdGiven(lessonId) ==> r.lesson == lessonId
    ensures !IdGiven(lessonId) ==> r.lesson.None?
    ensures IdGiven(backgroundId) ==> r.background == backgroundId
    ensures !IdGiven(backgroundId) ==> r.background.None?
    ensures name.Some? ==> r.name == name.value
    ensures name.None? ==> r.name == ""
  {
    Frame(if IdGiven(lessonId) then Some(lessonId.value) else None,
          OrElse(name, ""),
          OrElse(frameType, DefaultFrameType),
          if IdGiven(backgroundId) then Some(backgroundId.value) else None,
          if IdGiven(previousId) then Some(previousId.value) else None)
  }

  /** A frame create builds a quiz only for a frame of type "quiz" with quiz
      data whose question is truthy. */
  predicate BuildsQuiz(frameType: string, quiz: Option<QuizInput>) {
    frameType == QuizFrameType && quiz.Some? && Present(quiz.value.question)
  }

  /** The checks of a frame update once the frame is found, for fields that
      are not None: lesson, background and previous frame must exist (404);
      a previous frame another frame already names fails the one-to-one
      constraint at save (500). The frame itself is an acceptable previous
      frame. */
  function FrameUpdateError(db: GameDb, f: Id, lessons: set<Id>, lessonId: Option<Id>, backgroundId: Option<Id>, previousId: Option<Id>)
    : (e: Option<int>)
    ensures e == Some(StatusNotFound) <==>
              || (lessonId.Some? && lessonId.value !in lessons)
              || (backgroundId.Some? && backgroundId.value !in db.backgrounds)
              || (previousId.Some? && previousId.value !in db.frames)
    ensures e == Some(StatusServerError) <==>
              e != Some(StatusNotFound) && previousId.Some?
              && exists g :: g in db.frames && g != f && db.frames[g].previousFrame == previousId
    ensures e.None? || e == Some(StatusNotFound) || e == Some(StatusServerError)
  {
    if lessonId.Some? && lessonId.value !in lessons then Some(StatusNotFound)
    else if backgroundId.Some? && backgroundId.value !in db.backgrounds then Some(StatusNotFound)
    else if previousId.Some? && previousId.value !in db.frames then Some(StatusNotFound)
    else if !CanLink(db.frames, f, previousId) then Some(StatusServerError)
    else None
  }

  /** A frame after an update: every field given (not None) is replaced,
      every other field is kept. The update cannot clear a link. */
  function UpdatedFrame(row: Frame, lessonId: Option<Id>, name: Option<string>, frameType: Option<string>,
                        backgroundId: Option<Id>, previousId: Option<Id>): (r: Frame)
    ensures previousId.Some? ==> r.previousFrame == previousId
    ensures previousId.None? ==> r.previousFrame == row.previousFrame
    ensures lessonId.Some? ==> r.lesson == lessonId
    ensures lessonId.None? ==> r.lesson == row.lesson
    ensures name.Some? ==> r.name == name.value
    ensures name.None? ==> r.name == row.name
    ensures frameType.Some? ==> r.frameType == frameType.value
    ensures frameType.None? ==> r.frameType == row.frameType
    ensures backgroundId.Some? ==> r.background == backgroundId
    ensures backgroundId.None? ==> r.background == row.background
    ensures row.previousFrame.Some? ==> r.previousFrame.Some?
    ensures row.background.Some? ==> r.background.Some?
    ensures lessonId.None? && name.None? && frameType.None? && backgroundId.None? && previousId.None? ==> r == row
  {
    Frame(if lessonId.Some? then lessonId else row.lesson,
          OrElse(name, row.name),
          OrElse(frameType, row.frameType),
          if backgroundId.Some? then backgroundId else row.background,
          if previousId.Some? then previousId else row.previousFrame)
  }

  /** The checks of a quiz create, in order: frame required (400), question
      required (400), frame must exist (404); a frame that already has a
      quiz fails the one-to-one constraint (500). */
  function QuizCreateError(db: GameDb, frameId: Option<Id>, question: Option<string>): (e: Option<int>)
    requires QuizOneToOne(db.quizzes)
    ensures e == Some(StatusBadRequest) <==> !IdGiven(frameId) || !Present(question)
    ensures e == Some(StatusNotFound) <==> IdGiven(frameId) && Present(question) && frameId.value !in db.frames
    ensures e == Some(StatusServerError) <==>
              IdGiven(frameId) && Present(question) && frameId.value in db.frames
              && exists q :: q in db.quizzes && db.quizzes[q].frame == frameId.value
    ensures e.None? || e == Some(StatusBadRequest) || e == Some(StatusNotFound) || e == Some(StatusServerError)
  {
    if !IdGiven(frameId) then Some(StatusBadRequest)
    else if !Present(question) then Some(StatusBadRequest)
    else if frameId.value !in db.frames then Some(StatusNotFound)
    else if QuizOf(db, frameId.value).Some? then Some(StatusServerError)
    else None
  }

  /** The checks of a quiz update once the quiz is found: a truthy frame must
      exist (404); moving the quiz onto a frame that carries another quiz
      fails the one-to-one constraint at save (500). */
  function QuizUpdateError(db: GameDb, q: Id, frameId: Option<Id>): (e: Option<int>)
    requires QuizOneToOne(db.quizzes)
    ensures e == Some(StatusNotFound) <==> IdGiven(frameId) && frameId.value !in db.frames
    ensures e == Some(StatusServerError) <==>
              IdGiven(frameId) && frameId.value in db.frames
              && exists p :: p in db.quizzes && p != q && db.quizzes[p].frame == frameId.value
    ensures e.None? || e == Some(StatusNotFound) || e == Some(StatusServerError)
  {
    if IdGiven(frameId) && frameId.value !in db.frames then Some(StatusNotFound)
    else if IdGiven(frameId) && QuizOf(db, frameId.value).Some? && QuizOf(db, frameId.value) != Some(q) then
      Some(StatusServerError)
    else None
  }

  /** A quiz option after an update. `text` is read without a default, so an
      absent or null text keeps the old one; `is_correct` and `explanation`
      are read with the defaults False and "", so omitting them resets them,
      and only an explicit null keeps them. */
  function UpdatedOption(o: QuizOption, text: Option<string>, isCorrect: Arg<bool>, explanation: Arg<string>)
    : (r: QuizOption)
    ensures text.Some? ==> r.text == text.value
    ensures text.None? ==> r.text == o.text
    ensures isCorrect.Null? ==> r.isCorrect == o.isCorrect
    ensures explanation.Null? ==> r.explanation == o.explanation
    ensures isCorrect.Missing? ==> !r.isCorrect
    ensures explanation.Missing? ==> r.explanation == ""
    ensures isCorrect.Null? && explanation.Null? && text.None? ==> r == o
    ensures isCorrect.Given? ==> r.isCorrect == isCorrect.value
    ensures explanation.Given? ==> r.explanation == explanation.value
  {
    QuizOption(OrElse(text, o.text),
               OrElse(GetOr(isCorrect, false), o.isCorrect),
               OrElse(GetOr(explanation, ""), o.explanation))
  }

  /** A quiz after an update: a truthy frame id moves it, a truthy question
      replaces the old one; its option set is handled separately. */
  function UpdatedQuiz(quiz: Quiz, frameId: Option<Id>, question: Option<string>): (r: Quiz)
    ensures r.options == quiz.options
    ensures r.frame == (if IdGiven(frameId) then frameId.value else quiz.frame)
    ensures Present(question) ==> r.question == question.value
    ensures !Present(question) ==> r.question == quiz.question
    ensures !IdGiven(frameId) && !Present(question) ==> r == quiz
  {
    Quiz(if IdGiven(frameId) then frameId.value else quiz.frame,
         if Present(question) then question.value else quiz.question,
         quiz.options)
  }

  // ---------------------------------------------------------------------
  // The handlers' step-by-step edits, proved against the rules above

  /** The get-or-create and scoring of a correct answer as the handler
      performs it: find or create the row, add the frame, add one point. */
  method ScoreCorrectRows(progress: map<Id, Progress>, next: nat, user: Id, lesson: Id, frame: Id)
    returns (u: Option<Upserted>)
    ensures u == ScoreCorrect(progress, next, user, lesson, frame)
  {
    var m := Matching(progress, user, lesson);
    if |m| > 1 {
      return None;
    }
    var rows, k, n := progress, next, next;
    if |m| == 0 {
      rows := rows[k := Progress(user, lesson, Some(frame), {}, 0)];
      n := next + 1;
    } else {
      k :| k in m;
      SingleMatch(m, k);
    }
    var row := rows[k];
    row := row.(completed := row.completed + {frame});
    row := row.(score := row.score + 1);
    rows := rows[k := row];
    u := Some(Upserted(rows, n, |m| == 0));
    if |m| == 0 {
      assert {} + {frame} == {frame};
      assert rows == progress[next := Progress(user, lesson, Some(frame), {frame}, 1)];
    }
  }

  /** The upsert of a progress create as the handler performs it: get or
      create the row, update an existing one, then add the completed frames.
      Also returns the id of the row. */
  method UpsertProgressRows(progress: map<Id, Progress>, next: nat, user: Id, lesson: Id,
                            current: Option<Id>, completed: set<Id>, score: int)
    returns (u: Option<Upserted>, k: Id)
    ensures u == UpsertProgress(progress, next, user, lesson, current, completed, score)
    ensures u.Some? ==> k in Matching(u.value.rows, user, lesson)
  {
    var m := Matching(progress, user, lesson);
    if |m| > 1 {
      return None, 0;
    }
    var rows, n := progress, next;
    if |m| == 0 {
      k := next;
      rows := rows[k := Progress(user, lesson, current, {}, score)];
      n := next + 1;
    } else {
      k :| k in m;
      SingleMatch(m, k);
      var row := rows[k];
      if current.Some? {
        row := row.(currentFrame := current);
      }
      row := row.(score := score);
      rows := rows[k := row];
    }
    var row := rows[k];
    rows := rows[k := row.(completed := row.completed + completed)];
    u := Some(Upserted(rows, n, |m| == 0));
    if |m| == 0 {
      assert {} + completed == completed;
      assert rows == progress[next := Progress(user, lesson, current, completed, score)];
    } else {
      var row := progress[k];
      var row' := row.(currentFrame := if current.Some? then current else row.currentFrame, score := score);
      assert rows == progress[k := row'.(completed := row'.completed + completed)];
    }
  }

  /** The field-by-field edit of a progress row in a progress update,
      stopping at the first lookup that fails. */
  method EditProgress(row: Progress, lessons: set<Id>, frames: map<Id, Frame>, lessonId: Option<Id>,
                      currentFrameId: Option<Id>, completedIds: Option<seq<Id>>, score: Option<int>)
    returns (e: Option<int>, row': Progress)
    ensures e == ProgressUpdateError(lessons, frames, lessonId, currentFrameId)
    ensures e.None? ==> row' == UpdatedProgress(row, frames, lessonId, currentFrameId, completedIds, score)
  {
    row' := row;
    if IdGiven(lessonId) {
      if lessonId.value !in lessons {
        return Some(StatusNotFound), row';
      }
      row' := row'.(lesson := lessonId.value);
    }
    if IdGiven(currentFrameId) {
      if currentFrameId.value !in frames {
        return Some(StatusNotFound), row';
      }
      row' := row'.(currentFrame := Some(currentFrameId.value));
    }
    if score.Some? {
      row' := row'.(score := score.value);
    }
    if completedIds.Some? {
      row' := row'.(completed := {});
      if |completedIds.value| > 0 {
        row' := row'.(completed := row'.completed + Existing(frames, completedIds.value));
      }
      assert row'.completed == Existing(frames, completedIds.value);
    }
    e := None;
  }

  /** The field-by-field edit of an option in an option update. */
  method EditOption(o: QuizOption, text: Option<string>, isCorrect: Arg<bool>, explanation: Arg<string>)
    returns (o': QuizOption)
    ensures o' == UpdatedOption(o, text, isCorrect, explanation)
  {
    o' := o;
    var isCorrect', explanation' := GetOr(isCorrect, false), GetOr(explanation, "");
    if text.Some? {
      o' := o'.(text := text.value);
    }
    if isCorrect'.Some? {
      o' := o'.(isCorrect := isCorrect'.value);
    }
    if explanation'.Some? {
      o' := o'.(explanation := explanation'.value);
    }
  }

  /** The field-by-field edit of frame `f` in a frame update, stopping at
      the first lookup that fails; the last check is the one-to-one check of
      `frame.save()`. */
  method EditFrame(db: GameDb, f: Id, lessons: set<Id>, lessonId: Option<Id>, name: Option<string>,
                   frameType: Option<string>, backgroundId: Option<Id>, previousId: Option<Id>)
    returns (e: Option<int>, frame: Frame)
    requires GameModels.Valid(db) && f in db.frames
    ensures e == FrameUpdateError(db, f, lessons, lessonId, backgroundId, previousId)
    ensures e.None? ==> frame == UpdatedFrame(db.frames[f], lessonId, name, frameType, backgroundId, previousId)
    ensures e.None? ==> && (frame.background.Some? ==> frame.background.value in db.backgrounds)
                        && (frame.previousFrame.Some? ==> frame.previousFrame.value in db.frames)
                        && CanLink(db.frames, f, frame.previousFrame)
  {
    frame := db.frames[f];
    if lessonId.Some? {
      if lessonId.value !in lessons {
        return Some(StatusNotFound), frame;
      }
      frame := frame.(lesson := lessonId);
    }
    if name.Some? {
      frame := frame.(name := name.value);
    }
    if frameType.Some? {
      frame := frame.(frameType := frameType.value);
    }
    if backgroundId.Some? {
      if backgroundId.value !in db.backgrounds {
        return Some(StatusNotFound), frame;
      }
      frame := frame.(background := backgroundId);
    }
    if previousId.Some? {
      if previousId.value !in db.frames {
        return Some(StatusNotFound), frame;
      }
      frame := frame.(previousFrame := previousId);
    }
    OwnLinkFree(db.frames, f);
    if !CanLink(db.frames, f, frame.previousFrame) {
      return Some(StatusServerError), frame;
    }
    e := None;
  }

  /** The field-by-field edit of quiz `q` in a quiz update; the last check is
      the one-to-one check of `quiz.save()`. */
  method EditQuiz(db: GameDb, q: Id, frameId: Option<Id>, question: Option<string>) returns (e: Option<int>, quiz: Quiz)
    requires GameModels.Valid(db) && q in db.quizzes
    ensures e == QuizUpdateError(db, q, frameId)
    ensures e.None? ==> quiz == UpdatedQuiz(db.quizzes[q], frameId, question)
    ensures e.None? ==> quiz.frame in db.frames && forall p | p in db.quizzes && p != q :: db.quizzes[p].frame != quiz.frame
  {
    quiz := db.quizzes[q];
    if IdGiven(frameId) {
      if frameId.value !in db.frames {
        return Some(StatusNotFound), quiz;
      }
      quiz := quiz.(frame := frameId.value);
    }
    if Present(question) {
      quiz := quiz.(question := question.value);
    }
    QuizOfIs(db, db.quizzes[q].frame, q);
    if QuizOf(db, quiz.frame).Some? && QuizOf(db, quiz.frame) != Some(q) {
      return Some(StatusServerError), quiz;
    }
    e := None;
  }

  // ---------------------------------------------------------------------
  // The store the handlers work on

  /** The next id of each game table's sequence. */
  datatype Sequences = Sequences(frame: nat, gameObject: nat, dialogue: nat, quiz: nat, option: nat)

  /** Every progress row points at existing frames. */
  ghost predicate ProgressRefs(progress: map<Id, Progress>, frameIds: set<Id>) {
    forall k | k in progress ::
      && (progress[k].currentFrame.Some? ==> progress[k].currentFrame.value in frameIds)
      && progress[k].completed <= frameIds
  }

  /** Scoring keeps fresh ids and frame references. */
  lemma ScoreCorrectRefs(progress: map<Id, Progress>, next: nat, user: Id, lesson: Id, frame: Id, frameIds: set<Id>)
    requires Below(progress.Keys, next) && ProgressRefs(progress, frameIds) && frame in frameIds
    requires ScoreCorrect(progress, next, user, lesson, frame).Some?
    ensures var u := ScoreCorrect(progress, next, user, lesson, frame).value;
            Below(u.rows.Keys, u.next) && ProgressRefs(u.rows, frameIds)
  {
    ScoreCorrectSpec(progress, next, user, lesson, frame);
  }

  /** A progress upsert keeps fresh ids and frame references. */
  lemma UpsertProgressRefs(progress: map<Id, Progress>, next: nat, user: Id, lesson: Id,
                           current: Option<Id>, completed: set<Id>, score: int, frameIds: set<Id>)
    requires Below(progress.Keys, next) && ProgressRefs(progress, frameIds)
    requires (current.Some? ==> current.value in frameIds) && completed <= frameIds
    requires UpsertProgress(progress, next, user, lesson, current, completed, score).Some?
    ensures var u := UpsertProgress(progress, next, user, lesson, current, completed, score).value;
            Below(u.rows.Keys, u.next) && ProgressRefs(u.rows, frameIds)
  {
    UpsertProgressSpec(progress, next, user, lesson, current, completed, score);
  }

  /** The objects a frame create adds name an existing frame and take fresh
      ids. */
  lemma CreatedObjectsFresh(objects: map<Id, GameObject>, frames: set<Id>, f: Id, objs: seq<ObjectInput>, nextObject: nat)
    requires f in frames && Below(objects.Keys, nextObject)
    requires forall o | o in objects :: objects[o].frame in frames
    ensures var objects' := objects + Numbered(nextObject, ObjectRows(f, objs, |objs|));
            && (forall o | o in objects' :: objects'[o].frame in frames)
            && Below(objects'.Keys, nextObject + |ObjectRows(f, objs, |objs|)|)
            && Range(nextObject, nextObject + |ObjectRows(f, objs, |objs|)|) <= objects'.Keys
            && objects.Keys <= objects'.Keys
  {
    var rows := ObjectRows(f, objs, |objs|);
    NumberedFacts(nextObject, rows);
    ObjectRowsBelong(f, objs, |objs|);
    var objects' := objects + Numbered(nextObject, rows);
    forall o | o in objects' ensures objects'[o].frame in frames {
      if o !in objects {
        assert objects'[o] == rows[o - nextObject] && rows[o - nextObject] in rows;
      }
    }
  }

  /** The dialogues a frame create adds name an existing frame and one of the
      objects created with them, and take fresh ids. */
  lemma CreatedDialoguesFresh(dialogues: map<Id, Dialogue>, frames: set<Id>, objectIds: set<Id>, f: Id,
                              objs: seq<ObjectInput>, nextObject: nat, nextDialogue: nat)
    requires f in frames && Below(dialogues.Keys, nextDialogue)
    requires Range(nextObject, nextObject + |ObjectRows(f, objs, |objs|)|) <= objectIds
    requires forall d | d in dialogues :: dialogues[d].frame in frames && dialogues[d].gameObject in objectIds
    ensures var batch := ObjectDialogueRows(f, nextObject, objs, |objs|);
            var dialogues' := dialogues + Numbered(nextDialogue, batch);
            && (forall d | d in dialogues' :: dialogues'[d].frame in frames && dialogues'[d].gameObject in objectIds)
            && Below(dialogues'.Keys, nextDialogue + |batch|)
  {
    var batch := ObjectDialogueRows(f, nextObject, objs, |objs|);
    NumberedFacts(nextDialogue, batch);
    ObjectDialogueRowsBelong(f, nextObject, objs, |objs|);
    var dialogues' := dialogues + Numbered(nextDialogue, batch);
    forall d | d in dialogues' ensures dialogues'[d].frame in frames && dialogues'[d].gameObject in objectIds {
      if d !in dialogues {
        assert dialogues'[d] == batch[d - nextDialogue];
      }
    }
  }

  /** The options a quiz create or update adds take fresh ids, and those ids
      are exactly the ones the table gains. */
  lemma CreatedOptionsFresh(options: map<Id, QuizOption>, next: nat, rows: seq<QuizOption>)
    requires Below(options.Keys, next)
    ensures Below((options + Numbered(next, rows)).Keys, next + |rows|)
    ensures Range(next, next + |rows|) == (options + Numbered(next, rows)).Keys - options.Keys
    ensures options.Keys <= (options + Numbered(next, rows)).Keys
    ensures Range(next, next + |rows|) <= (options + Numbered(next, rows)).Keys
  {
    NumberedFacts(next, rows);
  }

  /** The objects loop of a frame create, saved: AddObjects over the
      entries, numbered from the next object and dialogue ids. */
  method SaveObjectRows(db: GameDb, f: Id, objs: seq<ObjectInput>, nextObject: nat, nextDialogue: nat)
    returns (db': GameDb, nextObject': nat, nextDialogue': nat)
    requires GameModels.Valid(db) && f in db.frames
    requires Below(db.objects.Keys, nextObject) && Below(db.dialogues.Keys, nextDialogue)
    ensures GameModels.Valid(db') && Below(db'.objects.Keys, nextObject') && Below(db'.dialogues.Keys, nextDialogue')
    ensures nextObject' == nextObject + |ObjectRows(f, objs, |objs|)|
    ensures nextDialogue' == nextDialogue + |ObjectDialogueRows(f, nextObject, objs, |objs|)|
    ensures db' == db.(objects := db.objects + Numbered(nextObject, ObjectRows(f, objs, |objs|)),
                       dialogues := db.dialogues + Numbered(nextDialogue, ObjectDialogueRows(f, nextObject, objs, |objs|)))
  {
    CreatedObjectsFresh(db.objects, db.frames.Keys, f, objs, nextObject);
    CreatedDialoguesFresh(db.dialogues, db.frames.Keys, (db.objects + Numbered(nextObject, ObjectRows(f, objs, |objs|))).Keys,
                          f, objs, nextObject, nextDialogue);
    var objects, dialogues;
    objects, nextObject', dialogues, nextDialogue' := AddObjects(db.objects, nextObject, db.dialogues, nextDialogue, f, objs);
    db' := SaveObjects(db, objects, dialogues);
  }

  /** The save of quiz `q` on frame `f` with the options AddOptions creates
      from `opts`: its option set is exactly the options created. */
  method SaveQuizWithOptions(db: GameDb, nextOption: nat, q: Id, f: Id, question: string, opts: seq<OptionInput>)
    returns (db': GameDb, n: nat)
    requires GameModels.Valid(db) && Below(db.options.Keys, nextOption) && f in db.frames
    requires forall p | p in db.quizzes && p != q :: db.quizzes[p].frame != f
    ensures GameModels.Valid(db') && Below(db'.options.Keys, n)
    ensures db'.frames == db.frames && db'.quizzes.Keys == db.quizzes.Keys + {q}
    ensures db' == db.(quizzes := db.quizzes[q := Quiz(f, question, db'.options.Keys - db.options.Keys)],
                       options := db.options + Numbered(nextOption, OptionRows(opts, |opts|)))
    ensures n == nextOption + |OptionRows(opts, |opts|)|
    ensures QuizOf(db', f) == Some(q)
  {
    var options;
    options, n := AddOptions(db.options, nextOption, opts);
    CreatedOptionsFresh(db.options, nextOption, OptionRows(opts, |opts|));
    db' := SaveQuiz(db, q, Quiz(f, question, Range(nextOption, n)), options);
    assert db'.options == options;
  }

  /** The save of an updated quiz: a non-empty options list replaces its
      option set with exactly the options AddOptions creates from it. */
  method ReplaceQuiz(db: GameDb, nextOption: nat, q: Id, quiz: Quiz, opts: seq<OptionInput>)
    returns (db': GameDb, quiz': Quiz, n: nat)
    requires GameModels.Valid(db) && q in db.quizzes && Below(db.options.Keys, nextOption)
    requires quiz.frame in db.frames && quiz.options <= db.options.Keys
    requires forall p | p in db.quizzes && p != q :: db.quizzes[p].frame != quiz.frame
    ensures GameModels.Valid(db') && Below(db'.options.Keys, n)
    ensures db'.frames == db.frames && db'.quizzes.Keys == db.quizzes.Keys
    ensures |opts| == 0 ==> quiz' == quiz && db' == db.(quizzes := db.quizzes[q := quiz]) && n == nextOption
    ensures |opts| > 0 ==>
              && quiz' == quiz.(options := db'.options.Keys - db.options.Keys)
              && db' == db.(quizzes := db.quizzes[q := quiz'], options := db.options + Numbered(nextOption, OptionRows(opts, |opts|)))
              && n == nextOption + |OptionRows(opts, |opts|)|
  {
    if |opts| == 0 {
      db' := SaveQuiz(db, q, quiz, db.options);
      quiz', n := quiz, nextOption;
    } else {
      db', n := SaveQuizWithOptions(db, nextOption, q, quiz.frame, quiz.question, opts);
      quiz' := Quiz(quiz.frame, quiz.question, db'.options.Keys - db.options.Keys);
    }
  }

  /** A quiz update on the tables: a missing quiz ends in 500, then
      EditQuiz, then ReplaceQuiz. */
  method UpdateQuizRows(db: GameDb, nextOption: nat, q: Id, frameId: Option<Id>, question: Option<string>,
                        opts: seq<OptionInput>) returns (r: Reply<Quiz>, db': GameDb, n: nat)
    requires GameModels.Valid(db) && Below(db.options.Keys, nextOption)
    ensures GameModels.Valid(db') && Below(db'.options.Keys, n)
    ensures db'.frames == db.frames && db'.quizzes.Keys == db.quizzes.Keys
    ensures q !in db.quizzes ==> r == Err(StatusServerError) && db' == db && n == nextOption
    ensures q in db.quizzes ==>
              var e := QuizUpdateError(db, q, frameId);
              var quiz := UpdatedQuiz(db.quizzes[q], frameId, question);
              && (e.Some? ==> r == Err(e.value) && db' == db && n == nextOption)
              && (e.None? && |opts| == 0 ==>
                    db' == db.(quizzes := db.quizzes[q := quiz]) && n == nextOption && r == Ok(StatusOk, quiz))
              && (e.None? && |opts| > 0 ==>
                    var quiz' := quiz.(options := db'.options.Keys - db.options.Keys);
                    && db' == db.(quizzes := db.quizzes[q := quiz'],
                                  options := db.options + Numbered(nextOption, OptionRows(opts, |opts|)))
                    && n == nextOption + |OptionRows(opts, |opts|)|
                    && r == Ok(StatusOk, quiz'))
  {
    db', n := db, nextOption;
    if q !in db.quizzes {
      return Err(StatusServerError), db', n;
    }
    var e, quiz := EditQuiz(db, q, frameId, question);
    if e.Some? {
      return Err(e.value), db', n;
    }
    db', quiz, n := ReplaceQuiz(db, nextOption, q, quiz, opts);
    r := Ok(StatusOk, quiz);
  }

  /** The game tables and the progress table, with the next id of every
      sequence. Lessons belong to the course app; the handlers that look one
      up take the set of lesson ids as a parameter. */
  class GameStore {
    var db: GameDb
    var next: Sequences
    var progress: map<Id, Progress>
    var nextProgress: nat

    /** The schema invariant, fresh ids for every table, and progress rows
        that point at existing frames. */
    ghost predicate Valid()
      reads this
    {
      && GameModels.Valid(db)
      && Below(db.frames.Keys, next.frame) && Below(db.objects.Keys, next.gameObject)
      && Below(db.dialogues.Keys, next.dialogue) && Below(db.quizzes.Keys, next.quiz)
      && Below(db.options.Keys, next.option) && Below(progress.Keys, nextProgress)
      && ProgressRefs(progress, db.frames.Keys)
    }

    /** An empty game over the given backgrounds. */
    constructor (backgrounds: map<Id, Background>)
      ensures Valid()
      ensures db == GameDb(backgrounds, map[], map[], map[], map[], map[]) && progress == map[]
      ensures next == Sequences(1, 1, 1, 1, 1) && nextProgress == 1
    {
      db := GameDb(backgrounds, map[], map[], map[], map[], map[]);
      next := Sequences(1, 1, 1, 1, 1);
      progress := map[];
      nextProgress := 1;
    }

    /** `ValidateQuizAnswerView.post`: the checks of AnswerCheck, then the
        chosen option's flag and explanation; a correct answer on a frame
        with a lesson scores through ScoreCorrect. The game tables never
        change, and nothing changes on a failed check or a wrong answer. */
    method ValidateQuizAnswer(user: Id, quizId: Option<Id>, optionId: Option<Id>) returns (r: Reply<AnswerResult>)
      requires Valid()
      modifies this
      ensures Valid()
      ensures db == old(db) && next == old(next)
      ensures var check := AnswerCheck(db, quizId, optionId);
              check.Err? ==> r == Err(check.status) && progress == old(progress) && nextProgress == old(nextProgress)
      ensures var check := AnswerCheck(db, quizId, optionId);
              check.Ok? ==>
                var option := db.options[check.value];
                var frame := db.quizzes[quizId.value].frame;
                var lesson := db.frames[frame].lesson;
                var answer := Ok(StatusOk, AnswerResult(option.isCorrect, option.explanation));
                if option.isCorrect && lesson.Some? then
                  var u := ScoreCorrect(old(progress), old(nextProgress), user, lesson.value, frame);
                  && (u.None? ==> r == Err(StatusServerError) && progress == old(progress) && nextProgress == old(nextProgress))
                  && (u.Some? ==> r == answer && progress == u.value.rows && nextProgress == u.value.next)
                else
                  r == answer && progress == old(progress) && nextProgress == old(nextProgress)
    {
      var d := db;
      var check := AnswerCheck(d, quizId, optionId);
      if check.Err? {
        return Err(check.status);
      }
      var option := d.options[check.value];
      var frame := d.quizzes[quizId.value].frame;
      var lesson := d.frames[frame].lesson;
      if option.isCorrect && lesson.Some? {
        var u := ScoreCorrectRows(progress, nextProgress, user, lesson.value, frame);
        if u.None? {
          return Err(StatusServerError);
        }
        ScoreCorrectRefs(progress, nextProgress, user, lesson.value, frame, d.frames.Keys);
        progress, nextProgress := u.value.rows, u.value.next;
      }
      r := Ok(StatusOk, AnswerResult(option.isCorrect, option.explanation));
    }

    /** `UserProgressListCreateView.create`: the checks of
        ProgressCreateCheck, then the upsert of UpsertProgress with the
        completed ids that name existing frames; 201 when the row was
        created, 200 when it was found. `completed_frames` defaults to `[]`
        and `score` to 0. The reply carries the row's id. */
    method CreateProgress(user: Id, lessons: set<Id>, lessonId: Option<Id>, currentFrameId: Option<Id>,
                          completedIds: Option<seq<Id>>, score: Option<int>) returns (r: Reply<Id>)
      requires Valid()
      modifies this
      ensures Valid()
      ensures db == old(db) && next == old(next)
      ensures var check := ProgressCreateCheck(lessons, db.frames, lessonId, currentFrameId);
              check.Err? ==> r == Err(check.status) && progress == old(progress) && nextProgress == old(nextProgress)
      ensures var check := ProgressCreateCheck(lessons, db.frames, lessonId, currentFrameId);
              check.Ok? ==>
                var u := UpsertProgress(old(progress), old(nextProgress), user, lessonId.value, check.value,
                                        Existing(db.frames, OrElse(completedIds, [])), OrElse(score, 0));
                && (u.None? ==> r == Err(StatusServerError) && progress == old(progress) && nextProgress == old(nextProgress))
                && (u.Some? ==> && progress == u.value.rows && nextProgress == u.value.next
                                && r.Ok? && r.status == (if u.value.created then StatusCreated else StatusOk)
                                && r.value in Matching(progress, user, lessonId.value))
    {
      var frames := db.frames;
      var check := ProgressCreateCheck(lessons, frames, lessonId, currentFrameId);
      if check.Err? {
        return Err(check.status);
      }
      var completed := Existing(frames, OrElse(completedIds, []));
      var u, k := UpsertProgressRows(progress, nextProgress, user, lessonId.value, check.value, completed, OrElse(score, 0));
      if u.None? {
        return Err(StatusServerError);
      }
      UpsertProgressRefs(progress, nextProgress, user, lessonId.value, check.value, completed, OrElse(score, 0), frames.Keys);
      progress, nextProgress := u.value.rows, u.value.next;
      r := Ok(if u.value.created then StatusCreated else StatusOk, k);
    }

    /** `UserProgressRetrieveUpdateDestroyView.update` of row `k`: a row that
        is missing or belongs to another learner is not found by
        `get_object`, which ends in 500; then the checks of
        ProgressUpdateError; then the row becomes UpdatedProgress. */
    method UpdateProgress(user: Id, lessons: set<Id>, k: Id, lessonId: Option<Id>, currentFrameId: Option<Id>,
                          completedIds: Option<seq<Id>>, score: Option<int>) returns (r: Reply<Progress>)
      requires Valid()
      modifies this
      ensures Valid()
      ensures db == old(db) && next == old(next) && nextProgress == old(nextProgress)
      ensures k !in old(progress) || old(progress)[k].user != user ==>
                r == Err(StatusServerError) && progress == old(progress)
      ensures k in old(progress) && old(progress)[k].user == user ==>
                var e := ProgressUpdateError(lessons, db.frames, lessonId, currentFrameId);
                && (e.Some? ==> r == Err(e.value) && progress == old(progress))
                && (e.None? ==>
                      var row := UpdatedProgress(old(progress)[k], db.frames, lessonId, currentFrameId, completedIds, score);
                      progress == old(progress)[k := row] && r == Ok(StatusOk, row))
    {
      var p := progress;
      if k !in p || p[k].user != user {
        return Err(StatusServerError);
      }
      var e, row := EditProgress(p[k], lessons, db.frames, lessonId, currentFrameId, completedIds, score);
      if e.Some? {
        return Err(e.value);
      }
      assert p[k := row].Keys == p.Keys;
      progress := p[k := row];
      r := Ok(StatusOk, row);
    }

    /** `QuizOptionRetrieveUpdateDestroyView.update` of option `x`: a missing
        option ends in 500; else the option becomes UpdatedOption and nothing
        else changes. */
    method UpdateQuizOption(x: Id, text: Option<string>, isCorrect: Arg<bool>, explanation: Arg<string>)
      returns (r: Reply<QuizOption>)
      requires Valid()
      modifies this
      ensures Valid()
      ensures next == old(next) && progress == old(progress) && nextProgress == old(nextProgress)
      ensures x !in old(db.options) ==> r == Err(StatusServerError) && db == old(db)
      ensures x in old(db.options) ==>
                var o := UpdatedOption(old(db.options)[x], text, isCorrect, explanation);
                db == old(db).(options := old(db.options)[x := o]) && r == Ok(StatusOk, o)
    {
      var d := db;
      if x !in d.options {
        return Err(StatusServerError);
      }
      var option := EditOption(d.options[x], text, isCorrect, explanation);
      d := SaveOption(d, x, option);
      assert d.options.Keys == db.options.Keys;
      db := d;
      r := Ok(StatusOk, option);
    }

    /** `FrameRetrieveUpdateDestroyView.update` of frame `f`: a missing frame
        ends in 500; then the checks of FrameUpdateError; then the frame
        becomes UpdatedFrame. The reply echoes `next_frame`, which
        get_next_frame leaves null. */
    method UpdateFrame(lessons: set<Id>, f: Id, lessonId: Option<Id>, name: Option<string>, frameType: Option<string>,
                       backgroundId: Option<Id>, previousId: Option<Id>) returns (r: Reply<Option<Id>>)
      requires Valid()
      modifies this
      ensures Valid()
      ensures next == old(next) && progress == old(progress) && nextProgress == old(nextProgress)
      ensures f !in old(db.frames) ==> r == Err(StatusServerError) && db == old(db)
      ensures f in old(db.frames) ==>
                var e := FrameUpdateError(old(db), f, lessons, lessonId, backgroundId, previousId);
                && (e.Some? ==> r == Err(e.value) && db == old(db))
                && (e.None? ==>
                      && db == old(db).(frames := old(db.frames)[f := UpdatedFrame(old(db.frames)[f], lessonId, name,
                                                                                   frameType, backgroundId, previousId)])
                      && r == Ok(StatusOk, GetNextFrame(db, f)) && r.value == None)
    {
      var d := db;
      if f !in d.frames {
        return Err(StatusServerError);
      }
      var e, frame := EditFrame(d, f, lessons, lessonId, name, frameType, backgroundId, previousId);
      if e.Some? {
        return Err(e.value);
      }
      d := SaveFrame(d, f, frame);
      assert d.frames.Keys == db.frames.Keys;
      GetNextFrameIsNone(d, f);
      db := d;
      r := Ok(StatusOk, GetNextFrame(d, f));
    }

    /** One frame row saved under the next frame id. The caller has checked
        what `frame.save()` checks: the background exists, and the previous
        frame exists and has no successor yet. */
    method AddFrameRow(row: Frame) returns (f: Id)
      requires Valid()
      requires row.background.Some? ==> row.background.value in db.backgrounds
      requires row.previousFrame.Some? ==> row.previousFrame.value in db.frames && Successor(db, row.previousFrame.value).None?
      modifies this
      ensures Valid()
      ensures f == old(next.frame) && f !in old(db.frames)
      ensures next == old(next).(frame := f + 1)
      ensures db == old(db).(frames := old(db.frames)[f := row])
      ensures row.previousFrame.Some? ==> Successor(db, row.previousFrame.value) == Some(f)
      ensures progress == old(progress) && nextProgress == old(nextProgress)
    {
      var d := db;
      f := next.frame;
      d := SaveFrame(d, f, row);
      db, next := d, next.(frame := f + 1);
    }

    /** The objects loop of a frame create, saved: AddObjects over the
        entries, numbered from the next object and dialogue ids. */
    method AddObjectRows(f: Id, objs: seq<ObjectInput>)
      requires Valid() && f in db.frames
      modifies this
      ensures Valid()
      ensures next == old(next).(gameObject := old(next.gameObject) + |ObjectRows(f, objs, |objs|)|,
                                 dialogue := old(next.dialogue) + |ObjectDialogueRows(f, old(next.gameObject), objs, |objs|)|)
      ensures db == old(db).(objects := old(db.objects) + Numbered(old(next.gameObject), ObjectRows(f, objs, |objs|)),
                             dialogues := old(db.dialogues)
                                          + Numbered(old(next.dialogue), ObjectDialogueRows(f, old(next.gameObject), objs, |objs|)))
      ensures progress == old(progress) && nextProgress == old(nextProgress)
    {
      var d, nextObject, nextDialogue := SaveObjectRows(db, f, objs, next.gameObject, next.dialogue);
      db, next := d, next.(gameObject := nextObject, dialogue := nextDialogue);
    }

    /** A new quiz on frame `f` with the options AddOptions creates from
        `opts`; its option set is exactly the options created with it. */
    method AddQuiz(f: Id, question: string, opts: seq<OptionInput>) returns (q: Id)
      requires Valid() && f in db.frames
      requires forall p | p in db.quizzes :: db.quizzes[p].frame != f
      modifies this
      ensures Valid()
      ensures q == old(next.quiz) && q !in old(db.quizzes)
      ensures next == old(next).(quiz := q + 1, option := old(next.option) + |OptionRows(opts, |opts|)|)
      ensures db == old(db).(quizzes := old(db.quizzes)[q := Quiz(f, question, db.options.Keys - old(db.options.Keys))],
                             options := old(db.options) + Numbered(old(next.option), OptionRows(opts, |opts|)))
      ensures QuizOf(db, f) == Some(q)
      ensures progress == old(progress) && nextProgress == old(nextProgress)
    {
      q := next.quiz;
      var d, n := SaveQuizWithOptions(db, next.option, q, f, question, opts);
      db, next := d, next.(quiz := q + 1, option := n);
    }

    /** `FrameListCreateView.create`: a form field that is not JSON is a 400;
        then the checks of FrameCreateError; then the frame row NewFrame, its
        named objects with their non-empty dialogues, and, for a quiz frame
        with a question, its quiz with the options that have a text. */
    method CreateFrame(lessons: set<Id>, malformed: bool, lessonId: Option<Id>, name: Option<string>,
                       frameType: Option<string>, backgroundId: Option<Id>, previousId: Option<Id>,
                       objs: seq<ObjectInput>, quiz: Option<QuizInput>) returns (r: Reply<Id>)
      requires Valid()
      modifies this
      ensures Valid()
      ensures progress == old(progress) && nextProgress == old(nextProgress)
      ensures malformed ==> r == Err(StatusBadRequest) && db == old(db) && next == old(next)
      ensures !malformed ==>
                var e := FrameCreateError(old(db), lessons, lessonId, backgroundId, previousId);
                && (e.Some? ==> r == Err(e.value) && db == old(db) && next == old(next))
                && (e.None? ==>
                      var f := old(next.frame);
                      var row := NewFrame(lessonId, name, frameType, backgroundId, previousId);
                      && r == Ok(StatusCreated, f)
                      && f !in old(db.frames) && db.frames == old(db.frames)[f := row]
                      && (row.previousFrame.Some? ==> Successor(db, row.previousFrame.value) == Some(f))
                      && db.objects == old(db.objects) + Numbered(old(next.gameObject), ObjectRows(f, objs, |objs|))
                      && db.dialogues == old(db.dialogues)
                                         + Numbered(old(next.dialogue), ObjectDialogueRows(f, old(next.gameObject), objs, |objs|))
                      && db.backgrounds == old(db.backgrounds)
                      && (BuildsQuiz(row.frameType, quiz) ==>
                            && db.options == old(db.options)
                                             + Numbered(old(next.option), OptionRows(quiz.value.options, |quiz.value.options|))
                            && db.quizzes == old(db.quizzes)[old(next.quiz) := Quiz(f, quiz.value.question.value,
                                                                                    db.options.Keys - old(db.options.Keys))])
                      && (!BuildsQuiz(row.frameType, quiz) ==> db.quizzes == old(db.quizzes) && db.options == old(db.options)))
    {
      if malformed {
        return Err(StatusBadRequest);
      }
      var e := FrameCreateError(db, lessons, lessonId, backgroundId, previousId);
      if e.Some? {
        return Err(e.value);
      }
      ghost var d0 := db;
      var row := NewFrame(lessonId, name, frameType, backgroundId, previousId);
      var f := AddFrameRow(row);
      AddObjectRows(f, objs);
      assert db.quizzes == d0.quizzes;
      if BuildsQuiz(row.frameType, quiz) {
        var q := AddQuiz(f, quiz.value.question.value, quiz.value.options);
      }
      r := Ok(StatusCreated, f);
    }

    /** `QuizListCreateView.create`: the checks of QuizCreateError, then a
        new quiz with the options that have a text (`options` defaults to
        `[]`). */
    method CreateQuiz(frameId: Option<Id>, question: Option<string>, opts: seq<OptionInput>) returns (r: Reply<Id>)
      requires Valid()
      modifies this
      ensures Valid()
      ensures progress == old(progress) && nextProgress == old(nextProgress)
      ensures var e := QuizCreateError(old(db), frameId, question);
              && (e.Some? ==> r == Err(e.value) && db == old(db) && next == old(next))
              && (e.None? ==>
                    && r == Ok(StatusCreated, old(next.quiz))
                    && db == old(db).(quizzes := old(db.quizzes)[old(next.quiz) := Quiz(frameId.value, question.value,
                                                                                        db.options.Keys - old(db.options.Keys))],
                                      options := old(db.options) + Numbered(old(next.option), OptionRows(opts, |opts|))))
    {
      var e := QuizCreateError(db, frameId, question);
      if e.Some? {
        return Err(e.value);
      }
      var q := AddQuiz(frameId.value, question.value, opts);
      r := Ok(StatusCreated, q);
    }

    /** `QuizRetrieveUpdateDestroyView.update` of quiz `q`: a missing quiz
        ends in 500; then the checks of QuizUpdateError; then the quiz becomes
        UpdatedQuiz, and a non-empty options list replaces its option set
        with exactly the options created from the entries that have a text. */
    method UpdateQuiz(q: Id, frameId: Option<Id>, question: Option<string>, opts: seq<OptionInput>) returns (r: Reply<Quiz>)
      requires Valid()
      modifies this
      ensures Valid()
      ensures progress == old(progress) && nextProgress == old(nextProgress)
      ensures q !in old(db.quizzes) ==> r == Err(StatusServerError) && db == old(db) && next == old(next)
      ensures q in old(db.quizzes) ==>
                var e := QuizUpdateError(old(db), q, frameId);
                var quiz := UpdatedQuiz(old(db.quizzes)[q], frameId, question);
                && (e.Some? ==> r == Err(e.value) && db == old(db) && next == old(next))
                && (e.None? && |opts| == 0 ==>
                      db == old(db).(quizzes := old(db.quizzes)[q := quiz]) && next == old(next) && r == Ok(StatusOk, quiz))
                && (e.None? && |opts| > 0 ==>
                      var quiz' := quiz.(options := db.options.Keys - old(db.options.Keys));
                      && db == old(db).(quizzes := old(db.quizzes)[q := quiz'],
                                        options := old(db.options) + Numbered(old(next.option), OptionRows(opts, |opts|)))
                      && next == old(next).(option := old(next.option) + |OptionRows(opts, |opts|)|)
                      && r == Ok(StatusOk, quiz'))
    {
      var d, n := db, next.option;
      r, d, n := UpdateQuizRows(d, n, q, frameId, question, opts);
      db, next := d, next.(option := n);
    }
  }
}
