# Sikchhu lesson player and curriculum, modelled in Dafny

Sikchhu is an e-learning backend. Its data has three parts:

- **The curriculum:** a tree of Class > Subject > Chapter > Lesson. Each
  row carries a slug derived from its name. A lesson owns videos, learning
  materials, and questions with their answers.
- **The gamified lesson player:** frames chained by a one-to-one
  `previous_frame` link. Frames have backgrounds, game objects that speak
  dialogues, and at most one quiz, whose options form a many-to-many set.
  Each learner has a progress record per lesson.
- **The account handlers:** registration, login and profile update of
  users.

This project models the request handlers and the schema rules that
decide what these operations write and what they answer. The database is
a value: one map from id to row per table, with one id sequence per table
starting at 1. Each handler is modelled in the form the source takes:

- A Dafny class (`GameStore`, `CourseStore`, `UserStore`) holds the
  tables. Its methods perform a handler's checks in the source's order,
  then change the tables.
- Each method is proved equal to a specification function of the old
  state.
- The loops over nested request lists are `for`/`while` loops proved
  against recursive functions that say which rows the loop creates.
- The model definitions (`save()` slug recomputation, `__str__`, the
  delete rules of the foreign keys) are pure functions.

Modules:

- `Common`: ids, optional request fields, replies with HTTP status and
  Python truthiness.
- `Text`: `str(n)` and `email.split('@')[0]`.
- `GameModels` and `GameViews`: game/models.py and game/views.py.
- `CourseModels` and `CourseViews`: course/models.py and course/views.py.
- `AccountViews`: account/views.py.

Conventions of the model:

- **Truthiness.** A field read with `request.data.get(key)` is an
  `Option`. A handler's `if x:` test is `Present`, which needs a non-empty
  string, or `IdGiven`, which needs a non-zero id. A `... is not None`
  test is `.Some?`.
- **Errors.** Every handler body runs inside `try: ... except Exception`.
  So an exception becomes a 500 reply:
  - a row missing from `get_object()`;
  - a broken uniqueness constraint (`IntegrityError`);
  - `MultipleObjectsReturned` from a `get`/`get_or_create` that matches
    several rows.

  The nested lesson create is the exception: its `except` answers 400.
- **No transactions.** The handlers use none. Rows written before a later
  failure stay written.

The code departs from what its schema and comments suggest in these
ways, and the model follows the code:

- There is no replay guard on a correct quiz answer: every correct answer
  adds a point (`GameViews.NoReplayGuard`).
- Nothing checks that a quiz has exactly one correct option.
- Relinking `previous_frame` is checked only by the database's one-to-one
  constraint. A frame may name itself (`GameModels.SelfLinkAdmitted`).
- The option endpoints return `is_correct` to every caller.
- The plain material create and the material update do not check
  `LearningMaterial.CHOICES`; only the nested lesson create does
  (`CourseViews.MaterialCreateIgnoresChoices`).
- Email and phone number have no unique index in the user model. The
  handlers refuse duplicates themselves, so the model keeps them unique
  as an invariant of `UserStore`. A login whose email matches several
  users ends in 500.
- Game frames follow the views: each frame belongs to an optional
  `lesson`. The frame model in game/models.py names a `chapter` and has
  no `UserProgress`; the views use `lesson` and import `UserProgress`.

## Model

| member | source | states |
|---|---|---|
| Common.GetOr | game/views.py:886-887 | `request.data.get(key, default)`: an absent key gives the default, an explicit null gives None, a given value gives that value |
| Common.Existing | game/views.py:1199-1202 | `filter(id__in=ids)` keeps exactly the listed ids that name rows and drops the rest silently; no ids gives the empty set |
| Common.UpdatedFile | course/views.py:96-100 | an uploaded file replaces a file field; otherwise a key sent without a file clears it; otherwise it is kept |
| Text.NatToString | account/views.py:203 | `str(count)` is a non-empty string of decimal digits, one digit exactly for numbers below 10, with no leading zero |
| Text.NatToStringInjective | account/views.py:203 | different counts print differently |
| Text.BeforeAt | account/views.py:37 | `email.split('@')[0]` is a prefix of the email with no '@', followed in the email by '@' unless it is the whole email |
| Text.BeforeAtUnique | account/views.py:37 | that prefix is the only '@'-free prefix ending at an '@' or at the end of the email |
| GameModels.Successor | game/models.py:35-41 | the reverse one-to-one accessor: Some(g) only for a frame g whose previous frame is f; None only when no frame names f |
| GameModels.QuizOf | game/models.py:76-77 | the reverse accessor `quiz`: Some(q) only for a quiz on frame f; None only when no quiz names f |
| GameModels.SuccessorIs | game/models.py:35-41 | with the one-to-one link, the frame naming p is p's successor |
| GameModels.QuizOfIs | game/models.py:76-77 | with the one-to-one link, the quiz naming f is f's quiz |
| GameModels.GetNextFrameIsNone | game/models.py:46-47 | `get_next_frame` answers None for every frame, while the accessor that does exist is present exactly when the frame has a successor |
| GameModels.GetNextFrameMissesSuccessor | game/models.py:40-47 | a concrete chain F1 <- F2 on which F1 has successor F2 and `get_next_frame(F1)` is None |
| GameModels.Unlinked | game/models.py:35-41 | SET_NULL of `previous_frame` on one frame: a link to the deleted frame is cleared, every other field is kept |
| GameModels.FramesAfterDelete | game/models.py:35-41 | the frames left after a delete are all the others, each with SET_NULL applied |
| GameModels.FramesAfterDeleteLinks | game/models.py:35-41 | after SET_NULL the links stay one-to-one and no frame links to the deleted one |
| GameModels.ObjectsWhere | game/models.py:52-53 | the objects that survive the CASCADE are exactly those of other frames, unchanged |
| GameModels.DialoguesWhere | game/models.py:64-67 | the dialogues that survive are exactly those of other frames whose object survives, unchanged |
| GameModels.QuizzesWhere | game/models.py:76-77 | the quizzes that survive are exactly those on other frames, unchanged |
| GameModels.DeleteFrame | game/models.py:22-77 | deleting a frame keeps the schema invariant; it removes the frame, its objects, their dialogues and its quiz; it nulls its successor's link and keeps backgrounds, options and every other row |
| GameModels.CascadeRefs | game/models.py:35-77 | the rows left by a frame delete name only rows that are left |
| GameModels.DeleteGameObject | game/models.py:66-67 | deleting an object removes exactly that object and its dialogues; the surviving objects and dialogues are unchanged; frames, backgrounds, quizzes and options are untouched; the invariant is kept |
| GameModels.DialoguesOfRefs | game/models.py:66-67 | the dialogues left name only the objects left |
| GameModels.DialoguesOf | game/models.py:66-67 | exactly the dialogues not spoken by the deleted object, unchanged |
| GameModels.Unbacked | game/models.py:27-33 | SET_NULL of `background` on one frame: a reference to the deleted background is cleared, every other field is kept |
| GameModels.FramesUnbacked | game/models.py:27-33 | every frame with SET_NULL of the deleted background applied, none removed |
| GameModels.FramesUnbackedRefs | game/models.py:27-41 | nulling a background keeps the other background references and the one-to-one links |
| GameModels.DeleteBackground | game/models.py:27-33 | deleting a background removes only it, the others unchanged; every frame survives with that background nulled; objects, dialogues, quizzes and options are untouched; the invariant is kept |
| GameModels.DeleteQuiz | game/models.py:76-80 | deleting a quiz removes it and its option links, the other quizzes unchanged; options, frames, backgrounds, objects and dialogues are untouched; its frame then has no quiz |
| GameModels.QuizzesWithout | game/models.py:79-80 | every quiz with the deleted option removed from its option set, nothing else changed |
| GameModels.QuizzesWithoutRefs | game/models.py:76-80 | unlinking an option keeps every quiz reference valid and quizzes one per frame |
| GameModels.DeleteQuizOption | game/models.py:79-80 | deleting an option removes it, the others unchanged, and drops it from every quiz's set, nothing else in those quizzes changing; frames, backgrounds, objects and dialogues are untouched; the invariant is kept |
| GameModels.SaveFrame | game/models.py:35-41 | `frame.save()` that passes the one-to-one constraint writes exactly the row, keeps the invariant and makes the frame its previous frame's successor |
| GameModels.SaveObjects | game/models.py:50-67 | saving objects whose frames exist and dialogues whose frame and object exist keeps the invariant |
| GameModels.SaveQuiz | game/models.py:74-80 | `quiz.save()` on a frame no other quiz holds keeps the invariant and makes it that frame's quiz |
| GameModels.SaveOption | game/models.py:86-91 | `option.save()` of an existing option writes exactly that row and keeps the invariant |
| GameModels.SetPrevious | game/models.py:35-41 | relinking a frame that the constraint admits changes only its link; the new previous frame's successor is it, and the old one loses it |
| GameModels.SelfLinkAdmitted | game/models.py:35-41 | a frame no other frame follows may become its own previous frame, a one-frame cycle |
| GameModels.OwnLinkFree | game/models.py:35-41 | saving a frame with the link it already has never breaks the one-to-one constraint |
| GameViews.OptionRowsKeepTexted | game/views.py:266-277 | the options loop makes a row for every entry with a text and only for those, with defaults False and ""; all entries texted gives one row each |
| GameViews.DialogueRowsBelong | game/views.py:233-239 | each dialogue created belongs to the frame and the object and has a text |
| GameViews.DialogueRowsCount | game/views.py:233-239 | one dialogue per non-empty text, and every non-empty text yields a dialogue with that text on the frame and the object |
| GameViews.ObjectRowsBelong | game/views.py:214-225 | each object created belongs to the new frame and has a name |
| GameViews.ObjectRowsCount | game/views.py:214-225 | one object per entry with a truthy name, and every named entry yields an object of that name on the frame |
| GameViews.ObjectDialogueRowsBelong | game/views.py:214-239 | every dialogue of a frame create names the frame and one of the objects the same request created |
| GameViews.AddOptions | game/views.py:948-959 | the options loop adds exactly the OptionRows rows under consecutive fresh ids |
| GameViews.AddDialogues | game/views.py:233-239 | the dialogues loop of one object adds exactly its DialogueRows rows under consecutive ids |
| GameViews.AddObjects | game/views.py:214-250 | the objects loop adds exactly ObjectRows and ObjectDialogueRows, each table numbered by its own sequence |
| GameViews.ScoreCorrect | game/views.py:1123-1141 | scoring a correct answer fails (MultipleObjectsReturned) exactly when several rows match (user, lesson) |
| GameViews.ScoreCorrectSpec | game/views.py:1128-1141 | after a correct answer exactly one row exists for (user, lesson), holding the frame among its completed frames and one more point; a new row starts at that frame with score 1; no other row changes |
| GameViews.NoReplayGuard | game/views.py:1123-1141 | answering the same quiz correctly twice adds two points while the completed set grows once |
| GameViews.ProgressCreateCheck | game/views.py:1166-1182 | lesson required (400), lesson must exist (404), a truthy current frame must exist (404); success carries the current frame exactly when one was given |
| GameViews.UpsertProgress | game/views.py:1184-1202 | the upsert fails exactly when several rows match |
| GameViews.UpsertProgressSpec | game/views.py:1184-1217 | afterwards exactly one row exists for (user, lesson); it was created exactly when none existed; it takes the request's score; its completed frames are the old ones plus the new; a given current frame replaces the old; other rows are untouched |
| GameViews.UpsertProgressRepeat | game/views.py:1184-1202 | repeating a progress create changes nothing and reports "not created" |
| GameViews.ProgressUpdateError | game/views.py:1265-1278 | a truthy unknown lesson or current frame gives 404, and nothing else fails |
| GameViews.UpdatedProgress | game/views.py:1264-1291 | the user never changes; a truthy lesson or current frame is taken and a falsy one keeps the old; a list of completed frames replaces the set wholesale (`[]` empties it) and no list keeps it; a given score overwrites and no score keeps the old; an empty request keeps the row |
| GameViews.UpdatedProgressIdempotent | game/views.py:1280-1291 | repeating an update changes nothing and the completed set does not depend on the old one |
| GameViews.AnswerCheck | game/views.py:1082-1114 | success exactly when both ids are truthy, the quiz and option exist and the option is one of the quiz's; otherwise 400 for a missing id, then 404 for an unknown quiz or option, else 400 |
| GameViews.FrameCreateError | game/views.py:174-210 | 404 iff a truthy lesson, background or previous frame is unknown; 500 iff the previous frame already has a successor (one-to-one at save); no other error |
| GameViews.NewFrame | game/views.py:133-205 | a truthy lesson, background or previous frame id is stored as the link and a falsy one leaves it empty; a given name is stored, else ""; the type is the given one, else "background" |
| GameViews.FrameUpdateError | game/views.py:429-469 | 404 iff a given lesson, background or previous frame is unknown; 500 iff another frame already names the requested previous frame; the frame itself is allowed |
| GameViews.UpdatedFrame | game/views.py:429-455 | a given lesson, name, type, background or previous frame is taken, one not given is kept; an update never clears a link or a background; an empty request keeps the row |
| GameViews.QuizCreateError | game/views.py:929-944 | 400 iff the frame or question is missing; 404 iff the frame is unknown; 500 iff the frame already has a quiz |
| GameViews.QuizUpdateError | game/views.py:1028-1038 | 404 iff a truthy frame is unknown; 500 iff another quiz already holds that frame |
| GameViews.UpdatedOption | game/views.py:885-896 | a given text is taken and an absent one keeps the text; a given `is_correct` or explanation is taken, an absent one resets it to False or "", and an explicit null keeps the old value, each field on its own |
| GameViews.UpdatedQuiz | game/views.py:1028-1036 | a truthy frame moves the quiz and a truthy question replaces the old one, falsy ones keep the old; the option set is untouched here; an empty request keeps it |
| GameViews.ScoreCorrectRows | game/views.py:1128-1141 | the handler's get-or-create, add and increment computes ScoreCorrect |
| GameViews.UpsertProgressRows | game/views.py:1184-1202 | the handler's get-or-create and follow-up edits compute UpsertProgress, returning the row's id |
| GameViews.EditProgress | game/views.py:1264-1291 | the handler's step-by-step edit fails as ProgressUpdateError says and otherwise yields UpdatedProgress |
| GameViews.EditOption | game/views.py:885-896 | the handler's step-by-step edit yields UpdatedOption |
| GameViews.EditFrame | game/views.py:429-469 | the handler's step-by-step edit fails as FrameUpdateError says and otherwise yields UpdatedFrame with existing references |
| GameViews.EditQuiz | game/views.py:1028-1038 | the handler's step-by-step edit fails as QuizUpdateError says and otherwise yields UpdatedQuiz on a frame no other quiz holds |
| GameViews.ScoreCorrectRefs | game/views.py:1128-1141 | scoring keeps ids fresh and progress rows pointing at existing frames |
| GameViews.UpsertProgressRefs | game/views.py:1184-1202 | the upsert keeps ids fresh and progress rows pointing at existing frames |
| GameViews.CreatedObjectsFresh | game/views.py:214-225 | the new objects take fresh ids and name an existing frame |
| GameViews.CreatedDialoguesFresh | game/views.py:233-239 | the new dialogues take fresh ids and name the frame and one of the new objects |
| GameViews.CreatedOptionsFresh | game/views.py:948-959 | the new options take exactly the ids next .. next + n - 1 and the old ones stay |
| GameViews.SaveObjectRows | game/views.py:214-250 | the objects loop on the tables keeps the invariant and adds exactly the numbered rows |
| GameViews.SaveQuizWithOptions | game/views.py:941-959 | a new quiz holds exactly the options its loop created and is its frame's quiz |
| GameViews.ReplaceQuiz | game/views.py:1038-1056 | an empty options list keeps the quiz's options; a non-empty one replaces them by exactly the newly created ones |
| GameViews.UpdateQuizRows | game/views.py:1018-1062 | a quiz update on the tables: a missing quiz gives 500, then QuizUpdateError, then the saved UpdatedQuiz and its options |
| GameViews.GameStore.constructor | game/models.py:5-91 | an empty game over the given backgrounds, every sequence at 1 |
| GameViews.GameStore.ValidateQuizAnswer | game/views.py:1076-1146 | reply as AnswerCheck says with the option's flag and explanation; a correct option whose frame has a lesson scores as ScoreCorrect; otherwise no progress row changes |
| GameViews.GameStore.CreateProgress | game/views.py:1158-1220 | the checks of ProgressCreateCheck, then the upsert: 201 when created, 200 when found, 500 on several matches |
| GameViews.GameStore.UpdateProgress | game/views.py:1254-1297 | a row not the user's gives 500; otherwise ProgressUpdateError, then the row becomes UpdatedProgress |
| GameViews.GameStore.UpdateQuizOption | game/views.py:880-907 | a missing option gives 500, otherwise the option becomes UpdatedOption and nothing else changes |
| GameViews.GameStore.UpdateFrame | game/views.py:413-475 | a missing frame gives 500, then FrameUpdateError, else the frame becomes UpdatedFrame and nothing else changes |
| GameViews.GameStore.AddFrameRow | game/views.py:171-210 | one frame under the next frame id, which becomes its previous frame's successor |
| GameViews.GameStore.AddObjectRows | game/views.py:214-250 | the objects loop adds its numbered objects and dialogues |
| GameViews.GameStore.AddQuiz | game/views.py:252-290 | a new quiz holding exactly its new options becomes the frame's quiz |
| GameViews.GameStore.CreateFrame | game/views.py:129-307 | non-JSON nested data gives 400 with nothing written; then FrameCreateError; then the frame, its objects and dialogues, and a quiz exactly when BuildsQuiz holds |
| GameViews.GameStore.CreateQuiz | game/views.py:923-977 | QuizCreateError with nothing written, else a 201 quiz on the frame holding its new options |
| GameViews.GameStore.UpdateQuiz | game/views.py:1018-1062 | as UpdateQuizRows on the store |
| CourseModels.SaveNamed | course/models.py:17-19 | `save()` sets slug = slugify(name); a slug another row holds writes nothing; otherwise it keeps slugs unique and slugs following names |
| CourseModels.RenameMovesSlug | course/models.py:8-19 | after a rename the row's slug is that of the new name and slugs stay unique |
| CourseModels.BySlug | course/models.py:8 | the lookup by slug finds a row holding it, or None only when no row does |
| CourseModels.BySlugIs | course/models.py:8 | under unique slugs the lookup finds exactly the holder |
| CourseModels.Preview | course/models.py:119-120 | texts up to 50 characters are shown whole; longer ones as their first 50 characters plus "...", 53 in all |
| CourseModels.PreviewIdempotent | course/models.py:132-133 | previewing a preview changes nothing |
| CourseModels.AnswerStr | course/models.py:119-120 | an answer is shown as the preview of its text: whole up to 50 characters, never more than 53 |
| CourseModels.QuestionStr | course/models.py:132-133 | a question is shown as the preview of its text: whole up to 50 characters, never more than 53 |
| CourseModels.MaterialStr | course/models.py:109-110 | a truthy title is shown as is, else "Learning Material {id} - {material_type}" |
| CourseModels.MaterialStrDistinct | course/models.py:109-110 | two untitled materials with different ids are shown differently |
| CourseViews.VideoRowsCount | course/views.py:542-553 | the videos loop makes one row per named entry, each attached to the lesson |
| CourseViews.Accepted | course/views.py:579-586 | the materials loop gets through exactly the entries before the first with a title and a type outside CHOICES |
| CourseViews.AcceptedIs | course/views.py:579-586 | that stopping point is unique |
| CourseViews.MaterialRowsTyped | course/views.py:579-595 | every material the nested create writes belongs to the lesson and has a type from CHOICES |
| CourseViews.MaterialRowsCount | course/views.py:579-595 | one material per entry with both a title and a type |
| CourseViews.AnswerRowsCount | course/views.py:628-637 | one answer per entry with a text |
| CourseViews.QuestionRowsCount | course/views.py:615-625 | one question per entry with a text |
| CourseViews.QuestionRowAnswers | course/views.py:620-637 | each question created holds exactly as many answers as its entry has texted answers |
| CourseViews.QuestionRowsBelong | course/views.py:620-637 | each question created belongs to the lesson and holds only answers made for it |
| CourseViews.AddVideos | course/views.py:542-553 | the videos loop adds exactly the VideoRows rows under consecutive ids |
| CourseViews.AddMaterials | course/views.py:572-595 | the materials loop stops at the first rejected entry and adds exactly the rows before it |
| CourseViews.AddAnswers | course/views.py:628-637 | the answers loop adds exactly the AnswerRows rows |
| CourseViews.AddQuestions | course/views.py:615-637 | the questions loop adds exactly the QuestionRows rows and their answers |
| CourseViews.AnswerCheck | course/views.py:1494-1532 | success exactly when both ids are truthy, the question and answer exist and the answer is one of the question's, carrying the answer's flag and the question's explanation; the error statuses in the order of the checks |
| CourseViews.AnswerCheckSameExplanation | course/views.py:1529-1532 | every accepted answer of a question reports the question's explanation and its own flag |
| CourseViews.MaterialCreateError | course/views.py:1073-1090 | lesson and type required (400); a game type needs a URL and another type a file (400); the lesson must exist (404) |
| CourseViews.MaterialCreateIgnoresChoices | course/views.py:1073-1090 | a type outside CHOICES passes the checks of the plain material create |
| CourseViews.NewMaterial | course/views.py:1092-1102 | the material belongs to the lesson with the requested type; the given title, file and game URL are stored; a given description is stored, else "" |
| CourseViews.QuestionCreateError | course/views.py:1336-1345 | text required (400); a truthy lesson must exist (404) |
| CourseViews.NewQuestion | course/views.py:1340-1357 | a truthy lesson id is stored as the lesson and a falsy one leaves none; the text is stored; a given explanation is stored, else ""; the answers are exactly the listed ones that exist |
| CourseViews.UpdatedNamed | course/views.py:235-249 | a given (not None) parent, name or description is taken and one not given is kept; the icon is replaced by an upload, cleared by a key sent empty, else kept; the slug is kept until saved; an empty request keeps the row |
| CourseViews.UpdatedNamedIdempotent | course/views.py:235-249 | repeating the edits changes nothing |
| CourseViews.UpdatedMaterial | course/views.py:1179-1197 | a given lesson, title, type, description or game URL is taken and one not given is kept; the file is replaced by an upload, cleared by a key sent empty, else kept; an empty request keeps the row |
| CourseViews.UpdatedAnswer | course/views.py:1294-1297 | a given text or `is_correct` is taken and one not given is kept |
| CourseViews.UpdatedQuestion | course/views.py:1433-1449 | a given lesson, text or explanation is taken and one not given is kept; a given answer list sets the answers to the listed existing ones (`[]` empties them), no list keeps them; an empty request keeps the row |
| CourseViews.LessonCreateError | course/views.py:454-530 | non-JSON nested data, a missing chapter or a missing name give 400; an unknown chapter gives 404; nothing else fails before a row is written |
| CourseViews.NewLesson | course/views.py:533-538 | the lesson belongs to the chapter with the given name and description and no slug yet; the icon is the uploaded file, else a truthy form value, else none |
| CourseViews.VideosAttached | course/views.py:547-553 | new videos of an existing lesson keep fresh ids and valid references |
| CourseViews.MaterialsAttached | course/views.py:588-595 | new materials of an existing lesson keep fresh ids and valid references |
| CourseViews.QuestionsAttached | course/views.py:620-637 | new questions and their answers keep fresh ids and valid references |
| CourseViews.SaveVideos | course/views.py:542-553 | the videos loop on the tables keeps them consistent |
| CourseViews.SaveMaterials | course/views.py:572-595 | the materials loop on the tables stops where Accepted says and keeps them consistent |
| CourseViews.SaveQuestions | course/views.py:615-637 | the questions loop on the tables keeps them consistent |
| CourseViews.LessonAdded | course/views.py:533-538 | a lesson of an existing chapter with a free slug keeps the schema invariant |
| CourseViews.SaveLesson | course/views.py:533-538 | the lesson is saved under the next id with slug = slugify(name) |
| CourseViews.SaveLessonItems | course/views.py:540-674 | the three loops performed in order compute ItemsSaved |
| CourseViews.CreateLessonRows | course/views.py:443-680 | the nested create computes LessonCreate, keeps the tables consistent and leaves the classes, subjects and chapters alone |
| CourseViews.LessonCreateItems | course/views.py:533-680 | once the lesson is saved it belongs to the chapter and videos are counted one per named entry; the reply is 201 exactly when no material is rejected, with one question per texted entry; a rejected material gives 400 with the lesson, the videos and the earlier materials written and no question written |
| CourseViews.MaterialsAddedTyped | course/views.py:579-595 | the materials the loop writes belong to the lesson and have a type from CHOICES |
| CourseViews.LessonCreateTypes | course/views.py:579-595 | every material a nested create adds has a type from CHOICES |
| CourseViews.EditNamed | course/views.py:235-249 | the step-by-step edit gives 404 iff a given parent is unknown, else UpdatedNamed with an existing parent |
| CourseViews.NamedUpdate | course/views.py:224-270 | no row with the slug gives 500; an unknown parent gives 404; otherwise a slug another row holds gives 500; a success takes the given name, parent and description (keeping those not given), applies the icon rule, and saves slug = slugify(name) |
| CourseViews.NamedUpdateKeepsSlug | course/views.py:241-251 | an update that leaves the name alone keeps the slug it was found by |
| CourseViews.NamedUpdateRenames | course/views.py:241-251 | a rename moves the row to its new name's slug, frees the old slug and keeps slugs unique |
| CourseViews.UpdateNamedRows | course/views.py:224-270 | computes NamedUpdate and its table, keeping the keys, unique slugs, slugs following names and parents |
| CourseViews.EditMaterial | course/views.py:1179-1197 | the step-by-step edit gives 404 iff a given lesson is unknown, else UpdatedMaterial with an existing lesson |
| CourseViews.EditAnswer | course/views.py:1294-1297 | the step-by-step edit yields UpdatedAnswer |
| CourseViews.EditQuestion | course/views.py:1433-1449 | the step-by-step edit gives 404 iff a given lesson is unknown, else UpdatedQuestion holding only existing answers |
| CourseViews.MaterialAdded | course/views.py:1092-1102 | a material under the next id keeps the store consistent |
| CourseViews.QuestionAdded | course/views.py:1348-1357 | a question under the next id keeps the store consistent |
| CourseViews.MaterialReplaced | course/views.py:1199 | an edited material with an existing lesson keeps the store consistent |
| CourseViews.AnswerReplaced | course/views.py:1299 | an edited answer keeps the store consistent |
| CourseViews.QuestionReplaced | course/views.py:1444-1449 | an edited question with an existing lesson and answers keeps the store consistent |
| CourseViews.CourseStore.constructor | course/models.py:6-133 | an empty curriculum, each sequence at 1 |
| CourseViews.CourseStore.ValidateAnswer | course/views.py:1488-1540 | the reply is AnswerCheck of the current tables; nothing is written |
| CourseViews.CourseStore.CreateLesson | course/views.py:443-680 | the new state and reply are LessonCreate of the old state |
| CourseViews.CourseStore.CreateMaterial | course/views.py:1064-1122 | MaterialCreateError with nothing written, else 201 and NewMaterial under the next material id |
| CourseViews.CourseStore.CreateQuestion | course/views.py:1329-1380 | QuestionCreateError with nothing written, else 201 and NewQuestion under the next question id |
| CourseViews.CourseStore.UpdateClass | course/views.py:82-120 | NamedUpdate of the classes, with no parent field |
| CourseViews.CourseStore.UpdateSubject | course/views.py:224-270 | NamedUpdate of the subjects against the classes |
| CourseViews.CourseStore.UpdateChapter | course/views.py:375-421 | NamedUpdate of the chapters against the subjects |
| CourseViews.CourseStore.UpdateLesson | course/views.py:781-889 | NamedUpdate of the lessons against the chapters |
| CourseViews.CourseStore.UpdateVideo | course/views.py:967-1045 | the lookup by a slug field Video does not have fails, so every update gives 500 |
| CourseViews.CourseStore.UpdateMaterial | course/views.py:1166-1219 | a missing row gives 500, an unknown lesson 404, else the row becomes UpdatedMaterial |
| CourseViews.CourseStore.UpdateAnswer | course/views.py:1285-1310 | a missing row gives 500, else the row becomes UpdatedAnswer |
| CourseViews.CourseStore.UpdateQuestion | course/views.py:1422-1471 | a missing row gives 500, an unknown lesson 404, else the row becomes UpdatedQuestion |
| AccountViews.RegisterError | account/views.py:31-56 | email then password required (400), a taken email or a taken truthy phone gives 400, a taken username gives 500 at create; nothing else fails |
| AccountViews.NewUser | account/views.py:37-56 | the username is the email's text before '@', a prefix with no '@'; a given first name, last name or user type is stored, else "", "" or "Student"; the phone and picture are stored as given; the password is stored hashed |
| AccountViews.UserAdded | account/views.py:39-56 | a user that passed the checks keeps usernames, emails and phones unique |
| AccountViews.WithEmail | account/views.py:104 | the lookup matches exactly the users with that email |
| AccountViews.WithEmailUnique | account/views.py:104 | under unique emails it matches exactly the one holder |
| AccountViews.LoginResult | account/views.py:95-111 | a missing email or password gives 400; an unknown email gives 401; a success names a user holding the email |
| AccountViews.LoginOfUser | account/views.py:103-111 | with unique emails, login as the holder succeeds exactly when `authenticate` accepts the password, else 401 |
| AccountViews.Candidate | account/views.py:199-203 | try 0 is the base, try k is base + str(k) |
| AccountViews.CandidateInjective | account/views.py:199-203 | different tries give different usernames |
| AccountViews.TriedBound | account/views.py:202 | if the first n tries are all taken, at least n usernames are taken, so the loop ends |
| AccountViews.FreeIndexFrom | account/views.py:202-204 | the first free try from i is at most the number of taken names, and all before it are taken |
| AccountViews.FreeUsername | account/views.py:198-205 | the base when free; otherwise base + str(k) for the least k that is free; never a taken name |
| AccountViews.FindFreeUsername | account/views.py:198-205 | the `while` loop computes FreeUsername |
| AccountViews.OtherUsernames | account/views.py:202 | exactly the usernames of the other users |
| AccountViews.RequestedPhone | account/views.py:183-185 | an empty phone number in the request clears the phone |
| AccountViews.ProfileError | account/views.py:192-212 | 400 iff a new non-empty email is held by another user, or a new phone number is held by another user |
| AccountViews.ProfileEdited | account/views.py:183-221 | the password never changes; a given first name, last name or user type is taken and one not given is kept; a truthy email is taken, and a changed one renames the user to FreeUsername of its prefix among the other users, else the username is kept; the phone is cleared by "", taken when otherwise given, kept when absent; the picture follows the upload/clear/keep rule; an empty request keeps the user |
| AccountViews.OwnEmailKept | account/views.py:192-198 | sending one's own email is no conflict and keeps the username |
| AccountViews.ProfileKeepsUnique | account/views.py:192-222 | an update that passes its checks keeps usernames, emails and phones unique |
| AccountViews.UsernameKept | account/views.py:198-205 | keeping the username, or taking one no other user has, keeps usernames unique |
| AccountViews.EmailKept | account/views.py:192-207 | keeping the email, or taking one no other user has, keeps emails unique |
| AccountViews.PhoneKept | account/views.py:209-213 | keeping, clearing, or taking a free phone number keeps phones unique |
| AccountViews.EditEmail | account/views.py:192-207 | 400 iff the new email differs and another user holds it, else the email and a free username are taken |
| AccountViews.EditPhone | account/views.py:209-213 | 400 iff a different number is held by another user, else the number is taken |
| AccountViews.EditProfile | account/views.py:172-221 | the step-by-step edit fails as ProfileError says, else yields ProfileEdited |
| AccountViews.UserStore.constructor | account/models.py:6-18 | no users; the user sequence at 1 |
| AccountViews.UserStore.Register | account/views.py:19-82 | RegisterError with nothing written, else 201 and NewUser under the next id, keeping the uniqueness invariant |
| AccountViews.UserStore.Login | account/views.py:89-137 | the reply is LoginResult; nothing is written |
| AccountViews.UserStore.UpdateProfile | account/views.py:170-241 | ProfileError with nothing written, else the user becomes ProfileEdited and the invariant holds |

## Findings

| source | as written | input that shows it | evidently intended | confidence | as-written member | corrected member |
|---|---|---|---|---|---|---|
| game/models.py:40-47 | `get_next_frame` tests `hasattr(self, 'next_frame')`, but the reverse accessor of `previous_frame` is named `next_frame_relation` | frames F1 and F2 with F2.previous_frame = F1: `F1.get_next_frame()` is None | return the frame whose `previous_frame` is this one | high, not executed | GameModels.GetNextFrameMissesSuccessor | GameModels.Successor |

## Left out

- HTTP, Django REST framework and the ORM are not modelled; a reply is a status with its key value. Response bodies, URLs built with `build_absolute_uri` and timestamps are not modelled.
- Uploaded files and stored file names are opaque strings.
- Concurrency is left out: each handler runs alone, from its first check to its last write.
- Authentication, JWT tokens and password hashing (`authenticate`, `RefreshToken`, `make_password`) are function parameters of `UserStore`.
- `slugify` is a function parameter of `CourseStore`.
- The frame layout fields (`color`, `height`, `width`, `order`) carry no logic and are not modelled.
- The create and retrieve views of backgrounds, game objects, dialogues and quiz options are not modelled; their logic is simple serializer saves. The same goes for the answer and video list views, the user list and every `get_queryset` filter.
- The destroy views are modelled only by the schema's delete rules (`GameModels.Delete*`). The curriculum tree's cascades are not modelled.
- `CourseViews.CourseStore.UpdateVideo`: the field edits after the failing lookup are not modelled, since they are never reached.
- `USER_TYPE_CHOICES`, `Frame.FRAME_TYPES` and `CHOICES` outside the nested lesson create are not enforced by the handlers; the model stores the given strings.
- JSON null for a key read with a default (`request.data.get(key, default)`) is modelled only for the quiz option update, where null and absence differ; elsewhere None stands for an absent key.
- The serializers, `blog/` and `LessonReview` are not part of this model.
- `Video.save()` sets a `slug` attribute that is not stored; the model keeps no video slug.
