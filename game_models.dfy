/** The game schema: frames chained by a one-to-one `previous_frame`
    self-link, reusable backgrounds, game objects and their dialogues, and a
    quiz per frame whose options are a many-to-many set. The database is a
    value (`GameDb`, one map per table); the delete rules are functions from
    one value to the next, each proved to keep the schema's invariant. */
module GameModels {
  import opened Common

  /** `Frame.FRAME_TYPES`, in declaration order. */
  const FrameTypes: seq<string> := ["background", "scene", "quiz"]
  /** The default of `Frame.frame_type`. */
  const DefaultFrameType: string := FrameTypes[0]
  /** The frame type for which a nested quiz is built. */
  const QuizFrameType: string := FrameTypes[2]

  datatype Background = Background(name: string, description: Option<string>)

  /** A frame row. `lesson` names the owning lesson (the handlers' field);
      `previousFrame` is the one-to-one self-link. Layout fields (color,
      height, width, order) carry no logic and are not modelled. */
  datatype Frame = Frame(
    lesson: Option<Id>,
    name: string,
    frameType: string,
    background: Option<Id>,
    previousFrame: Option<Id>)

  datatype GameObject = GameObject(frame: Id, name: string)

  datatype Dialogue = Dialogue(frame: Id, gameObject: Id, text: string)

  /** A quiz row; `options` is the many-to-many link to QuizOption rows. */
  datatype Quiz = Quiz(frame: Id, question: string, options: set<Id>)

  datatype QuizOption = QuizOption(text: string, isCorrect: bool, explanation: string)

  datatype GameDb = GameDb(
    backgrounds: map<Id, Background>,
    frames: map<Id, Frame>,
    objects: map<Id, GameObject>,
    dialogues: map<Id, Dialogue>,
    quizzes: map<Id, Quiz>,
    options: map<Id, QuizOption>)

  /** Every frame's background and previous frame exist. */
  ghost predicate FrameRefs(backgroundIds: set<Id>, frames: map<Id, Frame>) {
    forall g | g in frames ::
      && (frames[g].background.Some? ==> frames[g].background.value in backgroundIds)
      && (frames[g].previousFrame.Some? ==> frames[g].previousFrame.value in frames)
  }

  /** Every game object's frame exists. */
  ghost predicate ObjectRefs(frameIds: set<Id>, objects: map<Id, GameObject>) {
    forall o | o in objects :: objects[o].frame in frameIds
  }

  /** Every dialogue's frame and game object exist. */
  ghost predicate DialogueRefs(frameIds: set<Id>, objectIds: set<Id>, dialogues: map<Id, Dialogue>) {
    forall d | d in dialogues :: dialogues[d].frame in frameIds && dialogues[d].gameObject in objectIds
  }

  /** Every quiz's frame and options exist. */
  ghost predicate QuizRefs(frameIds: set<Id>, optionIds: set<Id>, quizzes: map<Id, Quiz>) {
    forall q | q in quizzes :: quizzes[q].frame in frameIds && quizzes[q].options <= optionIds
  }

  /** Every foreign key names an existing row. */
  ghost predicate RefsValid(db: GameDb) {
    && FrameRefs(db.backgrounds.Keys, db.frames)
    && ObjectRefs(db.frames.Keys, db.objects)
    && DialogueRefs(db.frames.Keys, db.objects.Keys, db.dialogues)
    && QuizRefs(db.frames.Keys, db.options.Keys, db.quizzes)
  }

  /** `previous_frame` is a OneToOneField: no two frames name the same
      previous frame, so every frame has at most one successor. */
  ghost predicate PreviousOneToOne(frames: map<Id, Frame>) {
    forall g, h | g in frames && h in frames && g != h && frames[g].previousFrame.Some? ::
      frames[g].previousFrame != frames[h].previousFrame
  }

  /** `Quiz.frame` is a OneToOneField: a frame has at most one quiz. */
  ghost predicate QuizOneToOne(quizzes: map<Id, Quiz>) {
    forall p, q | p in quizzes && q in quizzes && p != q :: quizzes[p].frame != quizzes[q].frame
  }

  ghost predicate Valid(db: GameDb) {
    RefsValid(db) && PreviousOneToOne(db.frames) && QuizOneToOne(db.quizzes)
  }

  /** The reverse accessor `next_frame_relation`: the frame whose
      `previous_frame` is `f`, if any. */
  function Successor(db: GameDb, f: Id): (r: Option<Id>)
    requires PreviousOneToOne(db.frames)
    ensures r.Some? ==> r.value in db.frames && db.frames[r.value].previousFrame == Some(f)
    ensures r.None? ==> forall g | g in db.frames :: db.frames[g].previousFrame != Some(f)
  {
    if exists g :: g in db.frames && db.frames[g].previousFrame == Some(f) then
      var g :| g in db.frames && db.frames[g].previousFrame == Some(f);
      Some(g)
    else
      None
  }

  /** The reverse accessor `quiz`: the quiz attached to frame `f`, if any. */
  function QuizOf(db: GameDb, f: Id): (r: Option<Id>)
    requires QuizOneToOne(db.quizzes)
    ensures r.Some? ==> r.value in db.quizzes && db.quizzes[r.value].frame == f
    ensures r.None? ==> forall q | q in db.quizzes :: db.quizzes[q].frame != f
  {
    if exists q :: q in db.quizzes && db.quizzes[q].frame == f then
      var q :| q in db.quizzes && db.quizzes[q].frame == f;
      Some(q)
    else
      None
  }

  /** With the one-to-one invariant, the frame naming `p` is the successor of `p`. */
  lemma SuccessorIs(db: GameDb, p: Id, g: Id)
    requires PreviousOneToOne(db.frames)
    requires g in db.frames && db.frames[g].previousFrame == Some(p)
    ensures Successor(db, p) == Some(g)
  {
    var s := Successor(db, p);
    assert s.Some?;
    assert db.frames[s.value].previousFrame == db.frames[g].previousFrame;
  }

  /** With the one-to-one invariant, the quiz naming frame `f` is its quiz. */
  lemma QuizOfIs(db: GameDb, f: Id, q: Id)
    requires QuizOneToOne(db.quizzes)
    requires q in db.quizzes && db.quizzes[q].frame == f
    ensures QuizOf(db, f) == Some(q)
  {
    var s := QuizOf(db, f);
    assert s.Some?;
    assert db.quizzes[s.value].frame == db.quizzes[q].frame;
  }

  /** Attribute names every frame object has: its fields and its
      many-valued reverse managers. */
  const FrameFieldNames: set<string> :=
    {"id", "lesson", "name", "frame_type", "background", "previous_frame", "objects", "dialogues"}

  /** Python's `hasattr(frame, name)`: the one-to-one reverse accessors
      (`next_frame_relation`, `quiz`) exist only when a related row does. */
  predicate HasAttr(db: GameDb, f: Id, name: string)
    requires PreviousOneToOne(db.frames) && QuizOneToOne(db.quizzes)
  {
    || name in FrameFieldNames
    || (name == "next_frame_relation" && Successor(db, f).Some?)
    || (name == "quiz" && QuizOf(db, f).Some?)
  }

  /** `Frame.get_next_frame` as written: it tests for an attribute
      `next_frame`, which a frame never has. */
  function GetNextFrame(db: GameDb, f: Id): Option<Id>
    requires PreviousOneToOne(db.frames) && QuizOneToOne(db.quizzes)
  {
    if HasAttr(db, f, "next_frame") then Successor(db, f) else None
  }

  /** get_next_frame answers None for every frame, even one that has a
      successor through `next_frame_relation`. */
  lemma GetNextFrameIsNone(db: GameDb, f: Id)
    requires PreviousOneToOne(db.frames) && QuizOneToOne(db.quizzes)
    ensures GetNextFrame(db, f) == None
    ensures HasAttr(db, f, "next_frame_relation") <==> Successor(db, f).Some?
  {
    assert "next_frame" !in FrameFieldNames;
  }

  /** A concrete chain F1 <- F2 (F2.previous_frame = F1): F1 has a
      successor, yet get_next_frame(F1) is None. */
  lemma GetNextFrameMissesSuccessor()
    ensures var db := GameDb(map[], map[1 := Frame(None, "F1", "scene", None, None),
                                        2 := Frame(None, "F2", "scene", None, Some(1))],
                             map[], map[], map[], map[]);
            && PreviousOneToOne(db.frames) && QuizOneToOne(db.quizzes)
            && Successor(db, 1) == Some(2)
            && GetNextFrame(db, 1) == None
  {
    var db := GameDb(map[], map[1 := Frame(None, "F1", "scene", None, None),
                                2 := Frame(None, "F2", "scene", None, Some(1))],
                     map[], map[], map[], map[]);
    assert db.frames[2].previousFrame == Some(1);
    GetNextFrameIsNone(db, 1);
  }

  /** The SET_NULL rule of `previous_frame` applied to one frame when `f` is deleted. */
  function Unlinked(fr: Frame, f: Id): (r: Frame)
    ensures r.previousFrame == (if fr.previousFrame == Some(f) then None else fr.previousFrame)
    ensures r.(previousFrame := fr.previousFrame) == fr
  {
    if fr.previousFrame == Some(f) then fr.(previousFrame := None) else fr
  }

  /** The frames left when `f` is deleted, with SET_NULL applied. */
  function FramesAfterDelete(frames: map<Id, Frame>, f: Id): (r: map<Id, Frame>)
    ensures r.Keys == frames.Keys - {f}
    ensures forall g | g in r :: r[g] == Unlinked(frames[g], f)
  {
    map g | g in frames && g != f :: Unlinked(frames[g], f)
  }

  /** SET_NULL keeps links one-to-one and leaves no link to the deleted frame. */
  lemma FramesAfterDeleteLinks(frames: map<Id, Frame>, f: Id)
    requires PreviousOneToOne(frames)
    requires forall g | g in frames && frames[g].previousFrame.Some? :: frames[g].previousFrame.value in frames
    ensures PreviousOneToOne(FramesAfterDelete(frames, f))
    ensures var r := FramesAfterDelete(frames, f);
            forall g | g in r && r[g].previousFrame.Some? :: r[g].previousFrame.value in r
  {
    var r := FramesAfterDelete(frames, f);
    forall g, h | g in r && h in r && g != h && r[g].previousFrame.Some?
      ensures r[g].previousFrame != r[h].previousFrame
    {
      assert r[g].previousFrame == frames[g].previousFrame;
    }
  }

  /** The rows of a table that survive a cascade: those `keep` accepts. */
  function ObjectsWhere(objects: map<Id, GameObject>, f: Id): (r: map<Id, GameObject>)
    ensures forall o :: o in r <==> o in objects && objects[o].frame != f
    ensures forall o | o in r :: r[o] == objects[o]
  {
    map o | o in objects && objects[o].frame != f :: objects[o]
  }

  /** The dialogues that survive when frame `f` goes and only `objects` remain. */
  function DialoguesWhere(dialogues: map<Id, Dialogue>, objects: map<Id, GameObject>, f: Id): (r: map<Id, Dialogue>)
    ensures forall d :: d in r <==> d in dialogues && dialogues[d].frame != f && dialogues[d].gameObject in objects
    ensures forall d | d in r :: r[d] == dialogues[d]
  {
    map d | d in dialogues && dialogues[d].frame != f && dialogues[d].gameObject in objects :: dialogues[d]
  }

  /** The quizzes that survive when frame `f` goes. */
  function QuizzesWhere(quizzes: map<Id, Quiz>, f: Id): (r: map<Id, Quiz>)
    ensures forall q :: q in r <==> q in quizzes && quizzes[q].frame != f
    ensures forall q | q in r :: r[q] == quizzes[q]
  {
    map q | q in quizzes && quizzes[q].frame != f :: quizzes[q]
  }

  /** Deleting frame `f`: its successor's `previous_frame` is nulled
      (SET_NULL), its game objects, dialogues and quiz cascade, the dialogues
      of the deleted objects cascade with them, and nothing else is deleted. */
  function DeleteFrame(db: GameDb, f: Id): (r: GameDb)
    requires Valid(db) && f in db.frames
    ensures Valid(r)
    ensures r.frames.Keys == db.frames.Keys - {f}
    ensures forall g | g in r.frames :: r.frames[g] == Unlinked(db.frames[g], f)
    ensures Successor(db, f).Some? && Successor(db, f) != Some(f) ==>
              Successor(db, f).value in r.frames && r.frames[Successor(db, f).value].previousFrame == None
    ensures forall o :: o in r.objects <==> o in db.objects && db.objects[o].frame != f
    ensures forall o | o in r.objects :: r.objects[o] == db.objects[o]
    ensures forall d :: d in r.dialogues <==>
              && d in db.dialogues && db.dialogues[d].frame != f
              && db.objects[db.dialogues[d].gameObject].frame != f
    ensures forall d | d in r.dialogues :: r.dialogues[d] == db.dialogues[d]
    ensures forall q :: q in r.quizzes <==> q in db.quizzes && db.quizzes[q].frame != f
    ensures forall q | q in r.quizzes :: r.quizzes[q] == db.quizzes[q]
    ensures QuizOf(db, f).Some? ==> QuizOf(db, f).value !in r.quizzes
    ensures r.backgrounds == db.backgrounds && r.options == db.options
  {
    FramesAfterDeleteLinks(db.frames, f);
    var frames := FramesAfterDelete(db.frames, f);
    var objects := ObjectsWhere(db.objects, f);
    CascadeRefs(db, f);
    GameDb(db.backgrounds, frames, objects, DialoguesWhere(db.dialogues, objects, f),
           QuizzesWhere(db.quizzes, f), db.options)
  }

  /** The rows a frame delete leaves name only rows it leaves. */
  lemma CascadeRefs(db: GameDb, f: Id)
    requires Valid(db) && f in db.frames
    ensures var frames := FramesAfterDelete(db.frames, f);
            var objects := ObjectsWhere(db.objects, f);
            && FrameRefs(db.backgrounds.Keys, frames)
            && ObjectRefs(frames.Keys, objects)
            && DialogueRefs(frames.Keys, objects.Keys, DialoguesWhere(db.dialogues, objects, f))
            && QuizRefs(frames.Keys, db.options.Keys, QuizzesWhere(db.quizzes, f))
            && QuizOneToOne(QuizzesWhere(db.quizzes, f))
  {
    var frames := FramesAfterDelete(db.frames, f);
    FramesAfterDeleteLinks(db.frames, f);
    assert forall g | g in frames :: frames[g].background == db.frames[g].background;
  }

  /** Deleting a game object deletes its dialogues (CASCADE) and nothing else. */
  function DeleteGameObject(db: GameDb, o: Id): (r: GameDb)
    requires Valid(db) && o in db.objects
    ensures Valid(r)
    ensures r.objects.Keys == db.objects.Keys - {o}
    ensures forall p | p in r.objects :: r.objects[p] == db.objects[p]
    ensures forall d :: d in r.dialogues <==> d in db.dialogues && db.dialogues[d].gameObject != o
    ensures forall d | d in r.dialogues :: r.dialogues[d] == db.dialogues[d]
    ensures r.frames == db.frames && r.quizzes == db.quizzes && r.options == db.options
    ensures r.backgrounds == db.backgrounds
  {
    DialoguesOfRefs(db.frames.Keys, db.objects.Keys, db.dialogues, o);
    db.(objects := db.objects - {o}, dialogues := DialoguesOf(db.dialogues, o))
  }

  /** The dialogues left after object `o` goes name only the objects left. */
  lemma DialoguesOfRefs(frameIds: set<Id>, objectIds: set<Id>, dialogues: map<Id, Dialogue>, o: Id)
    requires DialogueRefs(frameIds, objectIds, dialogues)
    ensures DialogueRefs(frameIds, objectIds - {o}, DialoguesOf(dialogues, o))
  {
  }

  /** The dialogues not spoken by object `o`. */
  function DialoguesOf(dialogues: map<Id, Dialogue>, o: Id): (r: map<Id, Dialogue>)
    ensures forall d :: d in r <==> d in dialogues && dialogues[d].gameObject != o
    ensures forall d | d in r :: r[d] == dialogues[d]
  {
    map d | d in dialogues && dialogues[d].gameObject != o :: dialogues[d]
  }

  /** The SET_NULL rule of `background` applied to one frame when `b` is deleted. */
  function Unbacked(fr: Frame, b: Id): (r: Frame)
    ensures r.background == (if fr.background == Some(b) then None else fr.background)
    ensures r.(background := fr.background) == fr
  {
    if fr.background == Some(b) then fr.(background := None) else fr
  }

  /** The frames after background `b` is deleted. */
  function FramesUnbacked(frames: map<Id, Frame>, b: Id): (r: map<Id, Frame>)
    ensures r.Keys == frames.Keys
    ensures forall g | g in r :: r[g] == Unbacked(frames[g], b)
  {
    map g | g in frames :: Unbacked(frames[g], b)
  }

  /** Nulling a background keeps every previous-frame link and every other
      background reference. */
  lemma FramesUnbackedRefs(backgroundIds: set<Id>, frames: map<Id, Frame>, b: Id)
    requires FrameRefs(backgroundIds, frames) && PreviousOneToOne(frames)
    ensures FrameRefs(backgroundIds - {b}, FramesUnbacked(frames, b))
    ensures PreviousOneToOne(FramesUnbacked(frames, b))
  {
    var r := FramesUnbacked(frames, b);
    assert forall g | g in r :: r[g].previousFrame == frames[g].previousFrame;
  }

  /** Deleting a background nulls `background` on the frames that used it
      (SET_NULL); every frame survives. */
  function DeleteBackground(db: GameDb, b: Id): (r: GameDb)
    requires Valid(db) && b in db.backgrounds
    ensures Valid(r)
    ensures r.backgrounds.Keys == db.backgrounds.Keys - {b}
    ensures forall c | c in r.backgrounds :: r.backgrounds[c] == db.backgrounds[c]
    ensures r.frames.Keys == db.frames.Keys
    ensures forall g | g in r.frames :: r.frames[g] == Unbacked(db.frames[g], b)
    ensures r.objects == db.objects && r.dialogues == db.dialogues
    ensures r.quizzes == db.quizzes && r.options == db.options
  {
    FramesUnbackedRefs(db.backgrounds.Keys, db.frames, b);
    db.(backgrounds := db.backgrounds - {b}, frames := FramesUnbacked(db.frames, b))
  }

  /** Deleting a quiz removes its many-to-many links; the options survive. */
  function DeleteQuiz(db: GameDb, q: Id): (r: GameDb)
    requires Valid(db) && q in db.quizzes
    ensures Valid(r)
    ensures r.quizzes.Keys == db.quizzes.Keys - {q}
    ensures forall p | p in r.quizzes :: r.quizzes[p] == db.quizzes[p]
    ensures r.options == db.options && r.frames == db.frames
    ensures r.objects == db.objects && r.dialogues == db.dialogues && r.backgrounds == db.backgrounds
    ensures forall g | g in db.frames && db.quizzes[q].frame == g :: QuizOf(r, g) == None
  {
    db.(quizzes := db.quizzes - {q})
  }

  /** The quizzes with option `x` unlinked. */
  function QuizzesWithout(quizzes: map<Id, Quiz>, x: Id): (r: map<Id, Quiz>)
    ensures r.Keys == quizzes.Keys
    ensures forall q | q in r :: r[q] == quizzes[q].(options := quizzes[q].options - {x})
  {
    map q | q in quizzes :: quizzes[q].(options := quizzes[q].options - {x})
  }

  /** Unlinking an option keeps every quiz on its frame. */
  lemma QuizzesWithoutRefs(frameIds: set<Id>, optionIds: set<Id>, quizzes: map<Id, Quiz>, x: Id)
    requires QuizRefs(frameIds, optionIds, quizzes) && QuizOneToOne(quizzes)
    ensures QuizRefs(frameIds, optionIds - {x}, QuizzesWithout(quizzes, x))
    ensures QuizOneToOne(QuizzesWithout(quizzes, x))
  {
  }

  /** Deleting an option removes it from every quiz's option set. */
  function DeleteQuizOption(db: GameDb, x: Id): (r: GameDb)
    requires Valid(db) && x in db.options
    ensures Valid(r)
    ensures r.options.Keys == db.options.Keys - {x}
    ensures forall y | y in r.options :: r.options[y] == db.options[y]
    ensures r.quizzes.Keys == db.quizzes.Keys
    ensures forall q | q in r.quizzes ::
              r.quizzes[q] == db.quizzes[q].(options := db.quizzes[q].options - {x})
    ensures r.frames == db.frames
    ensures r.objects == db.objects && r.dialogues == db.dialogues && r.backgrounds == db.backgrounds
  {
    QuizzesWithoutRefs(db.frames.Keys, db.options.Keys, db.quizzes, x);
    db.(options := db.options - {x}, quizzes := QuizzesWithout(db.quizzes, x))
  }

  /** Setting `f.previous_frame = p` passes the database's one-to-one
      check exactly when no OTHER frame already names `p`. `f` itself may
      already name `p`, and `p` may be `f` (nothing prevents a self-link). */
  predicate CanLink(frames: map<Id, Frame>, f: Id, p: Option<Id>) {
    p.None? || forall g | g in frames && g != f :: frames[g].previousFrame != p
  }

  /** `frame.save()` of row `f`, new or existing: the database accepts the
      row when its background exists, its previous frame exists (or is `f`
      itself) and no other frame already names that previous frame; the
      invariant survives and `f` becomes the successor of its previous frame. */
  function SaveFrame(db: GameDb, f: Id, row: Frame): (r: GameDb)
    requires Valid(db)
    requires row.background.Some? ==> row.background.value in db.backgrounds
    requires row.previousFrame.Some? ==> row.previousFrame.value in db.frames || row.previousFrame.value == f
    requires CanLink(db.frames, f, row.previousFrame)
    ensures Valid(r)
    ensures r.frames == db.frames[f := row]
    ensures r.(frames := db.frames) == db
    ensures row.previousFrame.Some? ==> Successor(r, row.previousFrame.value) == Some(f)
  {
    var r := db.(frames := db.frames[f := row]);
    assert RefsValid(r);
    if row.previousFrame.Some? then SuccessorIs(r, row.previousFrame.value, f); r else r
  }

  /** Saving game objects and dialogues: the tables may grow, and the
      invariant survives as long as every object names an existing frame and
      every dialogue an existing frame and object. */
  function SaveObjects(db: GameDb, objects: map<Id, GameObject>, dialogues: map<Id, Dialogue>): (r: GameDb)
    requires Valid(db)
    requires forall o | o in objects :: objects[o].frame in db.frames
    requires forall d | d in dialogues :: dialogues[d].frame in db.frames && dialogues[d].gameObject in objects
    ensures Valid(r)
    ensures r == db.(objects := objects, dialogues := dialogues)
  {
    db.(objects := objects, dialogues := dialogues)
  }

  /** `quiz.save()` of quiz `q`, new or existing, together with an option table
      that keeps every old option: accepted when the quiz's frame exists and
      carries no other quiz and its options exist. */
  function SaveQuiz(db: GameDb, q: Id, quiz: Quiz, options: map<Id, QuizOption>): (r: GameDb)
    requires Valid(db)
    requires quiz.frame in db.frames && quiz.options <= options.Keys
    requires db.options.Keys <= options.Keys
    requires forall p | p in db.quizzes && p != q :: db.quizzes[p].frame != quiz.frame
    ensures Valid(r)
    ensures r == db.(quizzes := db.quizzes[q := quiz], options := options)
    ensures QuizOf(r, quiz.frame) == Some(q)
  {
    var r := db.(quizzes := db.quizzes[q := quiz], options := options);
    assert RefsValid(r);
    QuizOfIs(r, quiz.frame, q);
    r
  }

  /** `option.save()` of an existing option row: no other row changes. */
  function SaveOption(db: GameDb, x: Id, option: QuizOption): (r: GameDb)
    requires Valid(db) && x in db.options
    ensures Valid(r)
    ensures r == db.(options := db.options[x := option])
  {
    db.(options := db.options[x := option])
  }

  /** Relinking: `f.previous_frame := p` on a database where the
      uniqueness check passed keeps the invariant, makes `f` the successor
      of `p`, and changes no other row. */
  function SetPrevious(db: GameDb, f: Id, p: Option<Id>): (r: GameDb)
    requires Valid(db) && f in db.frames
    requires p.Some? ==> p.value in db.frames
    requires CanLink(db.frames, f, p)
    ensures Valid(r)
    ensures r.frames.Keys == db.frames.Keys
    ensures r.frames[f].previousFrame == p
    ensures r.frames[f].(previousFrame := db.frames[f].previousFrame) == db.frames[f]
    ensures forall g | g in r.frames && g != f :: r.frames[g] == db.frames[g]
    ensures p.Some? ==> Successor(r, p.value) == Some(f)
    ensures db.frames[f].previousFrame.Some? && db.frames[f].previousFrame != p ==>
              Successor(r, db.frames[f].previousFrame.value) == None
    ensures r.(frames := db.frames) == db
  {
    SaveFrame(db, f, db.frames[f].(previousFrame := p))
  }

  /** Nothing prevents a cycle: a frame that no other frame follows may
      be linked to itself. */
  lemma SelfLinkAdmitted(db: GameDb, f: Id)
    requires Valid(db) && f in db.frames
    requires forall g | g in db.frames && g != f :: db.frames[g].previousFrame != Some(f)
    ensures CanLink(db.frames, f, Some(f))
    ensures SetPrevious(db, f, Some(f)).frames[f].previousFrame == Some(f)
    ensures Successor(SetPrevious(db, f, Some(f)), f) == Some(f)
  {
  }

  /** Saving a frame with the link it already has never breaks the
      one-to-one check. */
  lemma OwnLinkFree(frames: map<Id, Frame>, f: Id)
    requires PreviousOneToOne(frames) && f in frames
    ensures CanLink(frames, f, frames[f].previousFrame)
  {
  }
}
