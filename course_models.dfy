/** The curriculum schema: the class > subject > chapter > lesson tree with
    slugs derived from names, the videos, learning materials and questions of
    a lesson, and the text shown for a row. */
module CourseModels {
  import opened Common
  import opened Text

  /** A row of Class, Subject, Chapter or Lesson. `parent` is the foreign key
      to the level above (`class_name`, `subject_name`, `chapter_name`); a
      Class has none. */
  datatype Named = Named(
    parent: Option<Id>,
    name: string,
    slug: Option<string>,
    icon: Option<string>,
    description: Option<string>)

  /** A Video row; the file is an opaque name. */
  datatype Video = Video(lesson: Option<Id>, name: string, url: Option<string>, file: Option<string>)

  /** A LearningMaterial row; every field but the lesson is nullable text. */
  datatype Material = Material(
    lesson: Option<Id>,
    title: Option<string>,
    file: Option<string>,
    materialType: Option<string>,
    description: Option<string>,
    gameUrl: Option<string>)

  /** An Answer row. */
  datatype Answer = Answer(text: string, isCorrect: bool)

  /** A Question row with its many-to-many `answer` set. */
  datatype Question = Question(lesson: Option<Id>, text: string, explanation: Option<string>, answers: set<Id>)

  /** The stored values of `LearningMaterial.CHOICES`. */
  const MaterialTypes: seq<string> := ["Syllabus", "Notes", "Old Question", "Gamefication"]

  /** The material type whose rows carry a game URL instead of a file. */
  const GameMaterial: string := "Gamefication"

  // ---------------------------------------------------------------------
  // Slugs

  /** `slug` is `unique=True`: no two rows of one table share a slug. */
  ghost predicate SlugsUnique(rows: map<Id, Named>) {
    forall a, b | a in rows && b in rows && a != b && rows[a].slug.Some? :: rows[a].slug != rows[b].slug
  }

  /** Every row's slug is the one its name gives: what `save()` leaves
      behind. */
  ghost predicate SlugsFollowNames(rows: map<Id, Named>, slugify: string -> string) {
    forall k | k in rows :: rows[k].slug == Some(slugify(rows[k].name))
  }

  /** A row other than `k` already holds slug `s`. */
  predicate SlugTaken(rows: map<Id, Named>, k: Id, s: string) {
    exists j | j in rows :: j != k && rows[j].slug == Some(s)
  }

  /** `save()` of row `k` of Class, Subject, Chapter or Lesson: the slug is
      recomputed from the name on every save, then the row is written; a slug
      another row holds violates the unique index and nothing is written. */
  method SaveNamed(rows: map<Id, Named>, k: Id, row: Named, slugify: string -> string)
    returns (rows': Option<map<Id, Named>>, saved: Named)
    ensures saved == row.(slug := Some(slugify(row.name)))
    ensures rows'.None? <==> SlugTaken(rows, k, slugify(row.name))
    ensures rows'.Some? ==> rows'.value == rows[k := saved]
    ensures rows'.Some? && SlugsUnique(rows) ==> SlugsUnique(rows'.value)
    ensures rows'.Some? && SlugsFollowNames(rows, slugify) ==> SlugsFollowNames(rows'.value, slugify)
  {
    saved := row;
    saved := saved.(slug := Some(slugify(saved.name)));
    if SlugTaken(rows, k, saved.slug.value) {
      return None, saved;
    }
    rows' := Some(rows[k := saved]);
  }

  /** Renaming a row moves its slug with it: after a save the slug is that of
      the new name, whatever the old one was. */
  lemma RenameMovesSlug(rows: map<Id, Named>, k: Id, row: Named, name: string, slugify: string -> string)
    requires k in rows && !SlugTaken(rows, k, slugify(name))
    ensures var r := rows[k := row.(name := name, slug := Some(slugify(name)))];
            r[k].slug == Some(slugify(name)) && (SlugsUnique(rows) ==> SlugsUnique(r))
  {
    var r := rows[k := row.(name := name, slug := Some(slugify(name)))];
    if SlugsUnique(rows) {
      forall a, b | a in r && b in r && a != b && r[a].slug.Some? ensures r[a].slug != r[b].slug {
        if a == k {
          assert !(b in rows && b != k && rows[b].slug == Some(slugify(name)));
        } else if b == k {
          assert !(a in rows && a != k && rows[a].slug == Some(slugify(name)));
        }
      }
    }
  }

  /** The row with slug `s`: at most one, since slugs are unique. */
  function BySlug(rows: map<Id, Named>, s: string): (r: Option<Id>)
    requires SlugsUnique(rows)
    ensures r.Some? ==> r.value in rows && rows[r.value].slug == Some(s)
    ensures r.None? ==> forall k | k in rows :: rows[k].slug != Some(s)
  {
    if exists k | k in rows :: rows[k].slug == Some(s) then
      var k :| k in rows && rows[k].slug == Some(s);
      Some(k)
    else
      None
  }

  /** The lookup by slug finds exactly the row holding it. */
  lemma BySlugIs(rows: map<Id, Named>, s: string, k: Id)
    requires SlugsUnique(rows) && k in rows && rows[k].slug == Some(s)
    ensures BySlug(rows, s) == Some(k)
  {
    var r := BySlug(rows, s);
    assert r.Some?;
    assert rows[r.value].slug == rows[k].slug;
  }

  // ---------------------------------------------------------------------
  // Text shown for a row

  /** `Answer.__str__` and `Question.__str__`: the text when it has at most 50
      characters, else its first 50 characters and "...". */
  function Preview(text: string): (r: string)
    ensures |r| <= 53
    ensures |text| <= 50 ==> r == text
    ensures |text| > 50 ==> |r| == 53 && r[..50] == text[..50] && r[50..] == "..."
  {
    if |text| > 50 then text[..50] + "..." else text
  }

  /** A preview of a preview is the preview: the 53-character result is cut
      back to the same 50 characters and "...". */
  lemma PreviewIdempotent(text: string)
    ensures Preview(Preview(text)) == Preview(text)
  {
    if |text| > 50 {
      var p := Preview(text);
      assert p[..50] == text[..50];
      assert Preview(p) == p[..50] + "..." == text[..50] + "...";
    }
  }

  /** The text shown for an Answer row. */
  function AnswerStr(a: Answer): (r: string)
    ensures r == Preview(a.text)
    ensures |a.text| <= 50 ==> r == a.text
    ensures |r| <= 53
  {
    Preview(a.text)
  }

  /** The text shown for a Question row. */
  function QuestionStr(q: Question): (r: string)
    ensures r == Preview(q.text)
    ensures |q.text| <= 50 ==> r == q.text
    ensures |r| <= 53
  {
    Preview(q.text)
  }

  /** Python's f-string rendering of a nullable text. */
  function ShowOption(s: Option<string>): string {
    if s.Some? then s.value else "None"
  }

  /** `LearningMaterial.__str__` of row `id`: its title when truthy, else
      "Learning Material {id} - {material_type}". */
  function MaterialStr(id: Id, m: Material): (r: string)
    ensures Present(m.title) ==> r == m.title.value
    ensures !Present(m.title) ==> r == "Learning Material " + (NatToString(id) + " - " + ShowOption(m.materialType))
  {
    if Present(m.title) then m.title.value
    else "Learning Material " + (NatToString(id) + " - " + ShowOption(m.materialType))
  }

  /** A string that starts with digits followed by a space: the digits
      come first and the space right after them. */
  lemma DigitsThenSpace(digits: string, rest: string, l: string)
    requires l == digits + rest && |rest| > 0 && rest[0] == ' '
    requires forall i | 0 <= i < |digits| :: digits[i] in Digits
    ensures forall i | 0 <= i < |digits| :: l[i] in Digits
    ensures |digits| < |l| && l[|digits|] == ' '
  {
  }

  /** Two runs of digits each followed by a space split one string at the
      same place. */
  lemma SameDigitRun(na: string, x: string, nb: string, y: string)
    requires na + x == nb + y
    requires |x| > 0 && x[0] == ' ' && |y| > 0 && y[0] == ' '
    requires forall i | 0 <= i < |na| :: na[i] in Digits
    requires forall i | 0 <= i < |nb| :: nb[i] in Digits
    ensures na == nb
  {
    var l := na + x;
    DigitsThenSpace(na, x, l);
    DigitsThenSpace(nb, y, l);
    assert ' ' !in Digits;
    if |na| < |nb| {
      assert false;
    } else if |nb| < |na| {
      assert false;
    }
    assert na == l[..|na|];
  }

  /** Digits followed by " - " mark where the number ends, so the number is
      recovered from the text. */
  lemma NumberThenDash(a: nat, b: nat, s: string, t: string)
    requires NatToString(a) + " - " + s == NatToString(b) + " - " + t
    ensures a == b
  {
    var na, nb := NatToString(a), NatToString(b);
    assert na + " - " + s == na + (" - " + s);
    assert nb + " - " + t == nb + (" - " + t);
    SameDigitRun(na, " - " + s, nb, " - " + t);
    NatToStringInjective(a, b);
  }

  /** Untitled materials with different ids are shown differently. */
  lemma MaterialStrDistinct(i: Id, j: Id, m: Material, n: Material)
    requires !Present(m.title) && !Present(n.title) && i != j
    ensures MaterialStr(i, m) != MaterialStr(j, n)
  {
    if MaterialStr(i, m) == MaterialStr(j, n) {
      var s, t := ShowOption(m.materialType), ShowOption(n.materialType);
      AppendCancel("Learning Material ", NatToString(i) + " - " + s, NatToString(j) + " - " + t);
      NumberThenDash(i, j, s, t);
    }
  }

  // ---------------------------------------------------------------------
  // The curriculum tables

  /** The curriculum tables. */
  datatype CourseDb = CourseDb(
    classes: map<Id, Named>,
    subjects: map<Id, Named>,
    chapters: map<Id, Named>,
    lessons: map<Id, Named>,
    videos: map<Id, Video>,
    materials: map<Id, Material>,
    answers: map<Id, Answer>,
    questions: map<Id, Question>)

  /** Every row of a tree level points at an existing row of the level above. */
  ghost predicate ParentsIn(rows: map<Id, Named>, parents: set<Id>) {
    forall k | k in rows :: rows[k].parent.Some? && rows[k].parent.value in parents
  }

  ghost predicate VideoRefs(lessons: set<Id>, videos: map<Id, Video>) {
    forall k | k in videos :: videos[k].lesson.Some? ==> videos[k].lesson.value in lessons
  }

  ghost predicate MaterialRefs(lessons: set<Id>, materials: map<Id, Material>) {
    forall k | k in materials :: materials[k].lesson.Some? ==> materials[k].lesson.value in lessons
  }

  ghost predicate QuestionRefs(lessons: set<Id>, answers: set<Id>, questions: map<Id, Question>) {
    forall k | k in questions ::
      && (questions[k].lesson.Some? ==> questions[k].lesson.value in lessons)
      && questions[k].answers <= answers
  }

  /** Foreign keys name existing rows and every tree level keeps unique
      slugs. */
  ghost predicate Valid(db: CourseDb) {
    && ParentsIn(db.subjects, db.classes.Keys)
    && ParentsIn(db.chapters, db.subjects.Keys)
    && ParentsIn(db.lessons, db.chapters.Keys)
    && VideoRefs(db.lessons.Keys, db.videos)
    && MaterialRefs(db.lessons.Keys, db.materials)
    && QuestionRefs(db.lessons.Keys, db.answers.Keys, db.questions)
    && SlugsUnique(db.classes) && SlugsUnique(db.subjects)
    && SlugsUnique(db.chapters) && SlugsUnique(db.lessons)
  }
}
