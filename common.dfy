/** Shared vocabulary of the request handlers: row ids, optional values,
    request fields, replies with HTTP status codes, and Python truthiness
    of the values the handlers test with `if not x:`. */
module Common {

  /** Primary key of a database row. */
  type Id = nat

  datatype Option<T> = None | Some(value: T)

  /** A request field that the handler reads with a default
      (`request.data.get(key, default)`): the key can be absent, present
      with JSON null, or present with a value. */
  datatype Arg<T> = Missing | Null | Given(value: T)

  /** `request.data.get(key, default)`: the default only when the key is absent. */
  function GetOr<T>(a: Arg<T>, default: T): (r: Option<T>)
    ensures a.Missing? ==> r == Some(default)
    ensures a.Null? ==> r == None
    ensures a.Given? ==> r == Some(a.value)
  {
    match a
    case Missing => Some(default)
    case Null => None
    case Given(v) => Some(v)
  }

  /** Every id in `ids` was handed out by a table's sequence now at `next`;
      ids start at 1. */
  ghost predicate Below(ids: set<Id>, next: nat) {
    0 < next && forall k | k in ids :: 0 < k < next
  }

  /** The ids among `ids` that name rows of a table
      (`Model.objects.filter(id__in=ids)`): the others are dropped silently. */
  function Existing<T>(rows: map<Id, T>, ids: seq<Id>): (r: set<Id>)
    ensures r <= rows.Keys
    ensures forall k | k in ids :: k in r <==> k in rows
    ensures ids == [] ==> r == {}
  {
    set k | k in ids && k in rows
  }

  /** Rows numbered from a sequence at `next` get fresh ids: the old rows
      stay as they were, the new ones take the ids next .. next + |rows| - 1,
      and the sequence moves past them. */
  lemma NumberedFresh<T>(m: map<Id, T>, next: nat, rows: seq<T>)
    requires Below(m.Keys, next)
    ensures Below((m + Numbered(next, rows)).Keys, next + |rows|)
    ensures (m + Numbered(next, rows)).Keys == m.Keys + Range(next, next + |rows|)
    ensures forall k | k in m :: (m + Numbered(next, rows))[k] == m[k]
    ensures forall k | next <= k < next + |rows| :: (m + Numbered(next, rows))[k] == rows[k - next]
  {
    NumberedFacts(next, rows);
  }

  /** A lookup that matched one row matched exactly the row it found. */
  lemma SingleMatch(m: set<Id>, a: Id)
    requires |m| == 1 && a in m
    ensures m == {a}
  {
    assert |m - {a}| == 0;
    assert m - {a} == {};
  }

  /** A file field after an update: an uploaded file replaces it, else the
      key given in the form data without a file clears it, else it is
      kept. */
  function UpdatedFile(current: Option<string>, upload: Option<string>, keyGiven: bool): (r: Option<string>)
    ensures upload.Some? ==> r == upload
    ensures upload.None? && keyGiven ==> r.None?
    ensures upload.None? && !keyGiven ==> r == current
  {
    if upload.Some? then upload else if keyGiven then None else current
  }

  /** A response: a success status with a payload, or an error status. */
  datatype Reply<T> = Ok(status: int, value: T) | Err(status: int)

  const StatusOk := 200
  const StatusCreated := 201
  const StatusBadRequest := 400
  const StatusUnauthorized := 401
  const StatusNotFound := 404
  const StatusServerError := 500

  /** Python truthiness of an optional string: present and not empty. */
  predicate Present(s: Option<string>) {
    s.Some? && |s.value| > 0
  }

  /** Python truthiness of an optional id: present and not 0. */
  predicate IdGiven(i: Option<Id>) {
    i.Some? && i.value != 0
  }

  /** The value of an optional field, or a fallback when it is None. */
  function OrElse<T>(o: Option<T>, fallback: T): T {
    if o.Some? then o.value else fallback
  }

  /** The ids lo, lo + 1, ..., hi - 1. */
  function Range(lo: nat, hi: nat): (r: set<Id>)
    ensures forall k: Id :: k in r <==> lo <= k < hi
    decreases hi
  {
    if hi <= lo then {} else Range(lo, hi - 1) + {hi - 1}
  }

  /** There are `hi - lo` ids from lo to hi - 1. */
  lemma {:induction false} RangeSize(lo: nat, hi: nat)
    requires lo <= hi
    ensures |Range(lo, hi)| == hi - lo
    decreases hi
  {
    if lo < hi {
      RangeSize(lo, hi - 1);
      var r := Range(lo, hi - 1);
      assert hi - 1 !in r;
      assert Range(lo, hi) == r + {hi - 1};
    }
  }

  /** The positions among the first `n` entries of a request list that a
      loop keeps. */
  function KeptIndices<T>(xs: seq<T>, keep: T -> bool, n: nat): (r: set<nat>)
    requires n <= |xs|
    ensures forall i | i in r :: i < n && keep(xs[i])
  {
    set i | 0 <= i < n && keep(xs[i])
  }

  /** One more entry adds its position exactly when it is kept. */
  lemma KeptIndicesStep<T>(xs: seq<T>, keep: T -> bool, n: nat)
    requires 0 < n <= |xs|
    ensures |KeptIndices(xs, keep, n)| == |KeptIndices(xs, keep, n - 1)| + (if keep(xs[n - 1]) then 1 else 0)
  {
    if keep(xs[n - 1]) {
      assert KeptIndices(xs, keep, n) == KeptIndices(xs, keep, n - 1) + {n - 1};
    } else {
      assert KeptIndices(xs, keep, n) == KeptIndices(xs, keep, n - 1);
    }
  }

  /** Rows created one after another by a loop, keyed by the ids a table's
      sequence hands out from `start` on: the last row takes the last id. */
  function Numbered<T>(start: nat, rows: seq<T>): map<Id, T>
    decreases |rows|
  {
    if rows == [] then map[]
    else Numbered(start, rows[..|rows| - 1])[start + |rows| - 1 := rows[|rows| - 1]]
  }

  /** The rows numbered from `start` take the ids start .. start + |rows| - 1, in order. */
  lemma {:induction false} NumberedFacts<T>(start: nat, rows: seq<T>)
    ensures Numbered(start, rows).Keys == Range(start, start + |rows|)
    ensures forall k | k in Numbered(start, rows) :: Numbered(start, rows)[k] == rows[k - start]
    decreases |rows|
  {
    if rows != [] {
      var init := rows[..|rows| - 1];
      NumberedFacts(start, init);
      forall k | k in Numbered(start, rows) ensures Numbered(start, rows)[k] == rows[k - start] {
        if k != start + |rows| - 1 {
          assert Numbered(start, rows)[k] == Numbered(start, init)[k] == init[k - start];
        }
      }
    }
  }

  /** Appending one more row to a table under id `start + |rows|`. */
  lemma NumberedSnoc<T>(m: map<Id, T>, start: nat, rows: seq<T>, x: T)
    ensures (m + Numbered(start, rows))[start + |rows| := x] == m + Numbered(start, rows + [x])
  {
    assert (rows + [x])[..|rows|] == rows;
    var l, r := (m + Numbered(start, rows))[start + |rows| := x], m + Numbered(start, rows + [x]);
    assert r == m + Numbered(start, rows)[start + |rows| := x];
    assert l.Keys == r.Keys;
  }

  /** Numbering two batches one after the other numbers their concatenation. */
  lemma {:induction false} NumberedAppend<T>(start: nat, a: seq<T>, b: seq<T>)
    ensures Numbered(start, a + b) == Numbered(start, a) + Numbered(start + |a|, b)
    decreases |b|
  {
    if b != [] {
      var init := b[..|b| - 1];
      assert (a + b)[..|a + b| - 1] == a + init;
      NumberedAppend(start, a, init);
    } else {
      assert a + b == a;
    }
  }

  /** Numbering a second batch right after a first one. */
  lemma NumberedExtend<T>(m: map<Id, T>, start: nat, a: seq<T>, b: seq<T>)
    ensures (m + Numbered(start, a)) + Numbered(start + |a|, b) == m + Numbered(start, a + b)
  {
    NumberedAppend(start, a, b);
    assert (m + Numbered(start, a)) + Numbered(start + |a|, b) == m + (Numbered(start, a) + Numbered(start + |a|, b));
  }
}
