/** The `user_responses` table of the Flask application and the two things it
    does with it: `save_response`, which turns the multi-select lists into
    comma-joined strings, inserts one row and swallows every error, and the
    lookup of `/result`, which takes the row with the greatest id among those
    whose nickname matches. The table is a sequence of rows in insertion order. */
module Store {
  import opened Text
  import opened Wrappers

  /** A keyword argument of `save_response`: a string or a list of strings. */
  datatype Value = Str(s: string) | Strs(items: seq<string>)

  /** The keyword arguments, by name. */
  type Fields = map<string, Value>

  /** The two multi-select fields, stored as comma-joined strings. */
  const Industries: string := "selected_industries"
  const Jobs: string := "selected_jobs"

  /** The data columns of `UserResponse`, every one but the primary key. */
  const Columns: set<string> := {
    "nickname", "work_preference", "creative_thinking", "detail_oriented",
    "enjoy_social_interaction", "prefer_routine", "hobby", "mbti",
    "selected_industries", "other_industry", "selected_jobs", "other_job",
    "social_issue", "dream", "job_success_definition", "career_plan",
    "self_evaluation", "job_experience", "ai_response"
  }

  /** The one-character strings of `s`: what `join` iterates over when it is
      handed a string instead of a list. */
  function Chars(s: string): (cs: seq<string>)
    ensures |cs| == |s| && forall i :: 0 <= i < |s| ==> cs[i] == [s[i]]
  {
    seq(|s|, i requires 0 <= i < |s| => [s[i]])
  }

  /** `",".join(kwargs.get(name, []))`: a missing field and an empty list
      both become the empty string. */
  function ListColumn(fields: Fields, name: string): (v: string)
    ensures name !in fields ==> v == ""
    ensures name in fields && fields[name] == Strs([]) ==> v == ""
  {
    if name !in fields then ""
    else match fields[name]
      case Strs(items) => Join(items, ',')
      case Str(s) => Join(Chars(s), ',')
  }

  /** The inverse reading of a stored list column: "" is the empty list,
      anything else is split on commas. Nothing in the application reads the
      column back; this states what the stored string determines. */
  function ParseList(stored: string): seq<string> {
    if stored == "" then [] else Split(stored, ',')
  }

  /** A stored list reads back as the list that was submitted, in order, when
      no label is empty or contains a comma. */
  lemma ListColumnRoundTrip(fields: Fields, name: string, items: seq<string>)
    requires name in fields && fields[name] == Strs(items)
    requires forall i :: 0 <= i < |items| ==> items[i] != "" && ',' !in items[i]
    ensures ParseList(ListColumn(fields, name)) == items
  {
    if items != [] {
      SplitJoin(items, ',');
      assert items[0] <= Join(items, ',');
    }
  }

  /** Without the restriction on labels the stored string loses information:
      the empty list and the list holding one empty label are stored alike,
      and so are a label with a comma and the two labels around it. */
  lemma ListColumnAmbiguous()
    ensures ListColumn(map[Industries := Strs([])], Industries)
         == ListColumn(map[Industries := Strs([""])], Industries)
    ensures ListColumn(map[Industries := Strs(["IT,금융"])], Industries)
         == ListColumn(map[Industries := Strs(["IT", "금융"])], Industries)
  {
    assert Join(["IT", "금융"], ',') == "IT" + [','] + Join(["금융"], ',');
  }

  /** An example: two industries are stored as "IT/소프트웨어,금융". */
  lemma ListColumnExample()
    ensures ListColumn(map[Industries := Strs(["IT/소프트웨어", "금융"])], Industries) == "IT/소프트웨어,금융"
    ensures ParseList("IT/소프트웨어,금융") == ["IT/소프트웨어", "금융"]
  {
    var items := ["IT/소프트웨어", "금융"];
    assert Join(items, ',') == "IT/소프트웨어" + [','] + Join(["금융"], ',');
    ListColumnRoundTrip(map[Industries := Strs(items)], Industries, items);
  }

  /** The keyword arguments after `save_response` has rewritten the two list
      fields: both are present and hold strings, everything else is untouched. */
  function PrepareRow(fields: Fields): (prepared: Fields)
    ensures prepared.Keys == fields.Keys + {Industries, Jobs}
    ensures prepared[Industries] == Str(ListColumn(fields, Industries))
    ensures prepared[Jobs] == Str(ListColumn(fields, Jobs))
    ensures forall k :: k in fields && k != Industries && k != Jobs ==> prepared[k] == fields[k]
  {
    fields[Industries := Str(ListColumn(fields, Industries))][Jobs := Str(ListColumn(fields, Jobs))]
  }

  /** Whether `UserResponse(**kwargs)` can be built and committed when the
      database itself does not fail: every keyword names a column, every value
      is a string, and the non-nullable nickname is given. */
  predicate Insertable(fields: Fields) {
    && fields.Keys <= Columns
    && "nickname" in fields
    && forall k :: k in fields ==> fields[k].Str?
  }

  /** Keyword arguments that name every column, with a string for every column
      but the two lists, are insertable once the lists are joined. */
  lemma CompleteFieldsInsertable(fields: Fields)
    requires fields.Keys == Columns
    requires forall k :: k in fields && k != Industries && k != Jobs ==> fields[k].Str?
    ensures Insertable(PrepareRow(fields)) && PrepareRow(fields).Keys == Columns
  {
    assert "nickname" in Columns && Industries in Columns && Jobs in Columns;
  }

  /** A stored row: its id and its non-NULL columns (a column holding NULL is absent). */
  datatype Row = Row(id: nat, columns: map<string, string>)

  /** The column values of insertable keyword arguments. */
  function ColumnValues(fields: Fields): (cols: map<string, string>)
    requires forall k :: k in fields ==> fields[k].Str?
    ensures cols.Keys == fields.Keys
    ensures forall k :: k in fields ==> fields[k] == Str(cols[k])
  {
    map k | k in fields :: fields[k].s
  }

  /** The table's invariant: ids strictly increase in insertion order, and no
      row has a NULL nickname. */
  predicate WellFormed(rows: seq<Row>) {
    && (forall i, j :: 0 <= i < j < |rows| ==> rows[i].id < rows[j].id)
    && (forall i :: 0 <= i < |rows| ==> "nickname" in rows[i].columns)
  }

  /** The id the database gives the next row: one more than the last. */
  function NextId(rows: seq<Row>): (id: nat)
    ensures WellFormed(rows) ==> forall i :: 0 <= i < |rows| ==> rows[i].id < id
  {
    if rows == [] then 1 else rows[|rows| - 1].id + 1
  }

  /** Inserting a row with a nickname under the next id keeps the table well formed. */
  lemma InsertKeepsWellFormed(rows: seq<Row>, cols: map<string, string>)
    requires WellFormed(rows) && "nickname" in cols
    ensures WellFormed(rows + [Row(NextId(rows), cols)])
  {
  }

  /** The table. */
  class Database {
    var rows: seq<Row>

    ghost predicate Valid()
      reads this
    {
      WellFormed(rows)
    }

    constructor ()
      ensures Valid() && rows == []
    {
      rows := [];
    }

    /** `save_response(**fields)`: `commitSucceeds` is whether the database
        accepts the write. Every failure (an unknown keyword, a value that is not
        a string, a missing nickname, a failed commit) is logged and dropped:
        the method always returns normally, with one new row or none. */
    method SaveResponse(fields: Fields, commitSucceeds: bool)
      requires Valid()
      modifies this
      ensures Valid()
      ensures var prepared := PrepareRow(fields);
        rows == old(rows) + (if Insertable(prepared) && commitSucceeds
                             then [Row(NextId(old(rows)), ColumnValues(prepared))]
                             else [])
    {
      var kwargs := fields;
      kwargs := kwargs[Industries := Str(ListColumn(kwargs, Industries))];
      kwargs := kwargs[Jobs := Str(ListColumn(kwargs, Jobs))];
      assert kwargs == PrepareRow(fields);
      if !(kwargs.Keys <= Columns) {
        // The model's constructor rejects the unknown keyword.
        return;
      }
      if !Insertable(kwargs) || !commitSucceeds {
        // The commit fails: a list value, a NULL nickname or the database itself.
        return;
      }
      var row := Row(NextId(rows), ColumnValues(kwargs));
      InsertKeepsWellFormed(rows, row.columns);
      rows := rows + [row];
    }
  }

  /** A row whose nickname column equals `nickname`. */
  predicate Matches(r: Row, nickname: string) {
    "nickname" in r.columns && r.columns["nickname"] == nickname
  }

  /** `UserResponse.query.filter_by(nickname=nickname).order_by(UserResponse.id.desc()).first()`:
      nothing exactly when no row matches; otherwise a matching row whose id is
      at least that of every matching row. */
  function MostRecent(rows: seq<Row>, nickname: string): (found: Option<Row>)
    ensures found.None? <==> forall i :: 0 <= i < |rows| ==> !Matches(rows[i], nickname)
    ensures found.Some? ==> found.value in rows && Matches(found.value, nickname)
    ensures found.Some? ==> forall i :: 0 <= i < |rows| && Matches(rows[i], nickname) ==> rows[i].id <= found.value.id
  {
    if rows == [] then None
    else
      var before := MostRecent(rows[..|rows| - 1], nickname);
      var last := rows[|rows| - 1];
      assert forall i :: 0 <= i < |rows| - 1 ==> rows[..|rows| - 1][i] == rows[i];
      if Matches(last, nickname) && (before.None? || before.value.id <= last.id) then Some(last)
      else before
  }

  /** In a well-formed table the row with the greatest id among the matching
      ones is the only answer the lookup can give. */
  lemma MostRecentIsUnique(rows: seq<Row>, nickname: string, k: nat)
    requires WellFormed(rows) && k < |rows| && Matches(rows[k], nickname)
    requires forall i :: 0 <= i < |rows| && Matches(rows[i], nickname) ==> rows[i].id <= rows[k].id
    ensures MostRecent(rows, nickname) == Some(rows[k])
  {
    var found := MostRecent(rows, nickname);
    var j :| 0 <= j < |rows| && rows[j] == found.value;
    assert rows[j].id == rows[k].id;
    assert j == k;
  }

  /** A row just inserted is what a lookup by its nickname finds. */
  lemma SavedRowIsFound(rows: seq<Row>, cols: map<string, string>)
    requires WellFormed(rows) && "nickname" in cols
    ensures MostRecent(rows + [Row(NextId(rows), cols)], cols["nickname"]) == Some(Row(NextId(rows), cols))
  {
    var after := rows + [Row(NextId(rows), cols)];
    InsertKeepsWellFormed(rows, cols);
    MostRecentIsUnique(after, cols["nickname"], |rows|);
  }

  /** Of two submissions under the same nickname, the later one is found. */
  lemma LaterSubmissionWins(rows: seq<Row>, first: map<string, string>, second: map<string, string>)
    requires WellFormed(rows) && "nickname" in first && "nickname" in second
    requires first["nickname"] == second["nickname"]
    ensures var r1 := Row(NextId(rows), first);
      var r2 := Row(NextId(rows + [r1]), second);
      MostRecent(rows + [r1] + [r2], first["nickname"]) == Some(r2)
  {
    var r1 := Row(NextId(rows), first);
    InsertKeepsWellFormed(rows, first);
    SavedRowIsFound(rows + [r1], second);
  }

  /** A row with another nickname does not change what a lookup finds. */
  lemma OtherRowsIgnored(rows: seq<Row>, nickname: string, r: Row)
    requires !Matches(r, nickname)
    ensures MostRecent(rows + [r], nickname) == MostRecent(rows, nickname)
  {
    assert (rows + [r])[..|rows|] == rows;
  }
}
