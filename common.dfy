/** Vocabulary shared by the whole model: optional values, request fields as
    JavaScript sees them, HTTP outcomes, `String.prototype.split`, and the
    ascending-id order the store uses for listings and look-ups. */
module Common {

  datatype Option<T> = None | Some(value: T)

  /** A field of a JSON request body or of the route parameters: missing
      (`undefined`), `null`, or a value. */
  datatype Json<T> = Undefined | Null | Val(v: T)

  /** JavaScript truthiness of a string field: present, not null, not "". */
  predicate TruthyString(x: Json<string>) { x.Val? && x.v != "" }

  /** JavaScript truthiness of a numeric field: present, not null, not 0. */
  predicate TruthyNumber(x: Json<int>) { x.Val? && x.v != 0 }

  /** JavaScript truthiness of a boolean field: present and `true`. */
  predicate TruthyBool(x: Json<bool>) { x.Val? && x.v }

  /** The value written to a nullable column by `x !== undefined ? x : old`. */
  function DefinedOr<T>(x: Json<T>, old_: Option<T>): (r: Option<T>)
    ensures x.Undefined? ==> r == old_
    ensures x.Null? ==> r == None
    ensures x.Val? ==> r == Some(x.v)
  {
    match x
    case Undefined => old_
    case Null => None
    case Val(v) => Some(v)
  }

  /** The value a column takes on insert from a body field: `undefined` and
      `null` both store NULL. */
  function Stored<T>(x: Json<T>): Option<T> {
    if x.Val? then Some(x.v) else None
  }

  /** The HTTP status categories the handlers answer with. */
  datatype Status =
    | Ok             // 200
    | BadRequest     // 400
    | Unauthorized   // 401
    | Forbidden      // 403
    | NotFound       // 404
    | InternalError  // 500

  /** A handler's answer: a payload on success, or the status of the error. */
  datatype Result<T> = Success(value: T) | Failure(status: Status)

  /** A handler's answer together with the table it leaves behind. */
  datatype Step<R, T> = Step(result: Result<R>, rows: map<int, T>)

  // ---------------------------------------------------------------------
  // `s.split(sep)` with a one-character separator, and its inverse.

  /** `s.split(sep)`: the pieces between successive occurrences of `sep`;
      a string without `sep` is one piece and "" gives [""]. */
  function Split(s: string, sep: char): (parts: seq<string>)
    ensures |parts| >= 1
    ensures forall i :: 0 <= i < |parts| ==> sep !in parts[i]
    decreases |s|
  {
    if |s| == 0 then [""]
    else
      var rest := Split(s[1..], sep);
      if s[0] == sep then [""] + rest
      else [[s[0]] + rest[0]] + rest[1..]
  }

  /** `parts.join(sep)`. */
  function Join(parts: seq<string>, sep: char): string
    requires |parts| >= 1
    decreases |parts|
  {
    if |parts| == 1 then parts[0] else parts[0] + [sep] + Join(parts[1..], sep)
  }

  /** Joining the pieces gives back the string that was split. */
  lemma {:induction false} JoinSplit(s: string, sep: char)
    ensures Join(Split(s, sep), sep) == s
    decreases |s|
  {
    if |s| > 0 {
      var rest := Split(s[1..], sep);
      JoinSplit(s[1..], sep);
      if s[0] == sep {
        assert Split(s, sep) == [""] + rest;
        assert ([""] + rest)[1..] == rest;
        assert s == [sep] + s[1..];
      } else {
        var parts := [[s[0]] + rest[0]] + rest[1..];
        assert Split(s, sep) == parts;
        if |rest| == 1 {
          assert s == [s[0]] + rest[0];
        } else {
          assert parts[1..] == rest[1..];
          assert Join(rest, sep) == rest[0] + [sep] + Join(rest[1..], sep);
          assert s == [s[0]] + s[1..];
        }
      }
    }
  }

  /** Splitting a string that starts with a `sep`-free piece `p`. */
  lemma {:induction false} SplitPrefix(p: string, t: string, sep: char)
    requires sep !in p
    ensures Split(p + t, sep) == [p + Split(t, sep)[0]] + Split(t, sep)[1..]
    decreases |p|
  {
    if |p| > 0 {
      SplitPrefix(p[1..], t, sep);
      assert (p + t)[1..] == p[1..] + t;
      assert (p + t)[0] == p[0];
      assert [p[0]] + (p[1..] + Split(t, sep)[0]) == p + Split(t, sep)[0];
    } else {
      assert p + t == t;
      assert p + Split(t, sep)[0] == Split(t, sep)[0];
      assert Split(t, sep) == [Split(t, sep)[0]] + Split(t, sep)[1..];
    }
  }

  /** Splitting a join of `sep`-free pieces gives back the pieces. */
  lemma {:induction false} SplitJoin(parts: seq<string>, sep: char)
    requires |parts| >= 1
    requires forall i :: 0 <= i < |parts| ==> sep !in parts[i]
    ensures Split(Join(parts, sep), sep) == parts
    decreases |parts|
  {
    if |parts| == 1 {
      SplitPrefix(parts[0], "", sep);
      assert parts[0] + "" == parts[0];
    } else {
      var tail := parts[1..];
      SplitJoin(tail, sep);
      var t := [sep] + Join(tail, sep);
      assert Join(parts, sep) == parts[0] + t;
      SplitPrefix(parts[0], t, sep);
      assert t[1..] == Join(tail, sep);
      assert Split(t, sep) == [""] + tail;
      assert parts[0] + "" == parts[0];
      assert parts == [parts[0]] + tail;
    }
  }

  /** Splitting at a first `sep`: the piece before it, then the pieces of
      what follows. */
  lemma SplitField(p: string, rest: string, sep: char)
    requires sep !in p
    ensures |Split(p + [sep] + rest, sep)| >= 2
    ensures Split(p + [sep] + rest, sep)[0] == p
    ensures Split(p + [sep] + rest, sep)[1..] == Split(rest, sep)
  {
    var t := [sep] + rest;
    assert p + [sep] + rest == p + t;
    SplitPrefix(p, t, sep);
    assert t[1..] == rest;
    assert Split(t, sep) == [""] + Split(rest, sep);
    assert p + "" == p;
  }

  // ---------------------------------------------------------------------
  // Ascending order of primary keys (`order: [['id', 'ASC']]`).

  predicate Ascending(s: seq<int>) {
    forall i, j :: 0 <= i < j < |s| ==> s[i] < s[j]
  }

  lemma EmptyWithoutMembers(s: set<int>)
    requires forall y :: y !in s
    ensures s == {}
  {
    assert forall y :: y in s <==> y in {};
  }

  /** A non-empty key set has a member. */
  lemma HasMember(s: set<int>)
    requires s != {}
    ensures exists y :: y in s
  {
    if forall y :: y !in s {
      EmptyWithoutMembers(s);
      assert false;
    }
  }

  lemma {:induction false} MinimumExists(s: set<int>)
    requires s != {}
    ensures exists m :: m in s && forall x :: x in s ==> m <= x
    decreases |s|
  {
    HasMember(s);
    var y :| y in s;
    var rest := s - {y};
    if rest == {} {
      forall x | x in s ensures y <= x { assert x in rest || x == y; }
    } else {
      MinimumExists(rest);
      var m :| m in rest && forall x :: x in rest ==> m <= x;
      var least := if y < m then y else m;
      forall x | x in s ensures least <= x {
        if x != y { assert x in rest; }
      }
      assert least in s;
    }
  }

  /** The least key of a non-empty key set. */
  function Minimum(s: set<int>): (m: int)
    requires s != {}
    ensures m in s
    ensures forall x :: x in s ==> m <= x
  {
    MinimumExists(s);
    var m :| m in s && forall x :: x in s ==> m <= x; m
  }

  /** The keys of `s`, each once, in ascending order. */
  function AscendingIds(s: set<int>): (r: seq<int>)
    ensures Ascending(r)
    ensures forall x :: x in r <==> x in s
    ensures |r| == |s|
    decreases |s|
  {
    if s == {} then []
    else
      var m := Minimum(s);
      [m] + AscendingIds(s - {m})
  }

  function FindFirst<T>(ids: seq<int>, rows: map<int, T>, p: T -> bool): (r: Option<int>)
    ensures r.Some? ==> r.value in ids && r.value in rows && p(rows[r.value])
    ensures r.None? ==> forall i :: i in ids && i in rows ==> !p(rows[i])
  {
    if ids == [] then None
    else if ids[0] in rows && p(rows[ids[0]]) then Some(ids[0])
    else FindFirst(ids[1..], rows, p)
  }

  /** `Model.findOne({ where })`: a row satisfying `p` (the one with the
      lowest id), or none exactly when no row satisfies it. */
  function FindOne<T>(rows: map<int, T>, p: T -> bool): (r: Option<int>)
    ensures r.Some? ==> r.value in rows && p(rows[r.value])
    ensures r.None? <==> forall i :: i in rows ==> !p(rows[i])
  {
    FindFirst(AscendingIds(rows.Keys), rows, p)
  }

  /** A row as the ORM hands it back: its key and its columns. */
  datatype Row<T> = Row(id: int, value: T)

  /** The rows at the given keys, in the order of the keys. */
  function RowsAt<T>(ids: seq<int>, rows: map<int, T>): (r: seq<Row<T>>)
    requires forall k :: 0 <= k < |ids| ==> ids[k] in rows
    ensures |r| == |ids|
    ensures forall k :: 0 <= k < |r| ==> r[k] == Row(ids[k], rows[ids[k]])
  {
    seq(|ids|, k requires 0 <= k < |ids| => Row(ids[k], rows[ids[k]]))
  }

  /** Every key given has its row among the rows listed. */
  lemma RowsAtCovers<T>(ids: seq<int>, rows: map<int, T>)
    requires forall k :: 0 <= k < |ids| ==> ids[k] in rows
    ensures forall id :: id in ids ==> exists k :: 0 <= k < |RowsAt(ids, rows)| && RowsAt(ids, rows)[k].id == id
  {
    var r := RowsAt(ids, rows);
    forall id | id in ids
      ensures exists k :: 0 <= k < |r| && r[k].id == id
    {
      var k :| 0 <= k < |ids| && ids[k] == id;
      assert r[k].id == id;
    }
  }

  /** `Model.findAll({ order: [['id', 'ASC']] })`: every row once, in
      ascending key order. */
  function Listing<T>(rows: map<int, T>): (r: seq<Row<T>>)
    ensures |r| == |rows.Keys|
    ensures forall i, j :: 0 <= i < j < |r| ==> r[i].id < r[j].id
    ensures forall k :: 0 <= k < |r| ==> r[k].id in rows && r[k].value == rows[r[k].id]
    ensures forall id :: id in rows ==> exists k :: 0 <= k < |r| && r[k].id == id
  {
    var ids := AscendingIds(rows.Keys);
    RowsAtCovers(ids, rows);
    RowsAt(ids, rows)
  }
}
