/** The partial update of a store row: which columns a request sets, the
    `UPDATE store SET … WHERE id = ?` statement and parameter list built for
    them, and the database's execution of such a statement. */
module UpdateQuery {
  import opened Schema

  /** One `column = ?` entry of the statement, with the value bound to it. */
  datatype Assignment = Assignment(column: string, value: string)

  /** A bound parameter: a text value, or the store id of the WHERE clause. */
  datatype SqlValue = Text(text: string) | Id(id: StoreId)

  /** The body fields the handler copies into the statement, in this order. */
  const ValidFields: seq<string> := ["name", "type", "description"]
  const LogoColumn: string := "logo_url"

  const SetHead: string := "UPDATE store SET "
  const WhereTail: string := " WHERE id = ?"
  const Placeholder: string := " = ?"
  const Separator: string := ", "

  /** What the builder produces when nothing is set: the trailing two
      characters it cuts are then the "T " of "SET ". */
  const EmptySetQuery: string := SetHead[..|SetHead| - 2] + WhereTail

  predicate Truthy(body: map<string, string>, field: string)
  {
    field in body && body[field] != ""
  }

  /** The assignments after the logo step and the first `n` whitelisted fields. */
  function Picked(logoUrl: Option<string>, body: map<string, string>, n: nat): seq<Assignment>
    requires n <= |ValidFields|
  {
    if n == 0 then
      (if logoUrl.Some? then [Assignment(LogoColumn, logoUrl.value)] else [])
    else
      var field := ValidFields[n - 1];
      Picked(logoUrl, body, n - 1) + (if Truthy(body, field) then [Assignment(field, body[field])] else [])
  }

  /** All assignments a request asks for. */
  function Assignments(logoUrl: Option<string>, body: map<string, string>): seq<Assignment>
  {
    Picked(logoUrl, body, |ValidFields|)
  }

  function Columns(asg: seq<Assignment>): (cols: seq<string>)
    ensures |cols| == |asg|
  {
    seq(|asg|, i requires 0 <= i < |asg| => asg[i].column)
  }

  function Values(asg: seq<Assignment>): (vals: seq<SqlValue>)
    ensures |vals| == |asg|
  {
    seq(|asg|, i requires 0 <= i < |asg| => Text(asg[i].value))
  }

  /** The text the builder has appended after the head: `c = ?, ` per column. */
  function Clauses(cols: seq<string>): string
  {
    if cols == [] then "" else Clauses(cols[..|cols| - 1]) + cols[|cols| - 1] + Placeholder + Separator
  }

  /** The comma-separated `c = ?` list of a well-formed statement. */
  function Join(cols: seq<string>): string
    requires cols != []
  {
    if |cols| == 1 then cols[0] + Placeholder else cols[0] + Placeholder + Separator + Join(cols[1..])
  }

  function Render(cols: seq<string>): string
    requires cols != []
  {
    SetHead + Join(cols) + WhereTail
  }

  /** The statement a request leads to. */
  function QueryText(logoUrl: Option<string>, body: map<string, string>): string
  {
    var cols := Columns(Assignments(logoUrl, body));
    if cols == [] then EmptySetQuery else Render(cols)
  }

  /** The parameter list a request leads to: the values, then the store id. */
  function QueryParams(logoUrl: Option<string>, body: map<string, string>, storeId: StoreId): seq<SqlValue>
  {
    Values(Assignments(logoUrl, body)) + [Id(storeId)]
  }

  /** The reference meaning of a request: the store row with the logo
      replaced when a file came, and each whitelisted field replaced when the
      body gives it a truthy value. */
  function Patch(row: Store, logoUrl: Option<string>, body: map<string, string>): Store
  {
    row.(logoUrl := if logoUrl.Some? then logoUrl.value else row.logoUrl,
         name := if Truthy(body, "name") then body["name"] else row.name,
         kind := if Truthy(body, "type") then body["type"] else row.kind,
         description := if Truthy(body, "description") then body["description"] else row.description)
  }

  /** Builds the statement and its parameters the way the handler does: a
      string and an array grown field by field, then the trailing ", " cut
      and the WHERE clause appended. */
  method BuildUpdate(logoUrl: Option<string>, body: map<string, string>, storeId: StoreId)
    returns (sql: string, params: seq<SqlValue>)
    ensures sql == QueryText(logoUrl, body)
    ensures params == QueryParams(logoUrl, body, storeId)
    ensures params[|params| - 1] == Id(storeId)
  {
    sql := SetHead;
    params := [];
    ghost var cols: seq<string> := [];
    if logoUrl.Some? {
      Appended(SetHead, [], LogoColumn);
      sql := sql + LogoColumn + Placeholder + Separator;
      params := params + [Text(logoUrl.value)];
      cols := cols + [LogoColumn];
    }
    for i := 0 to |ValidFields|
      invariant cols == Columns(Picked(logoUrl, body, i))
      invariant sql == SetHead + Clauses(cols)
      invariant params == Values(Picked(logoUrl, body, i))
    {
      var field := ValidFields[i];
      if Truthy(body, field) {
        ColumnsValuesSnoc(Picked(logoUrl, body, i), Assignment(field, body[field]));
        Appended(SetHead, cols, field);
        sql := sql + field + Placeholder + Separator;
        params := params + [Text(body[field])];
        cols := cols + [field];
      }
    }
    CutTrailingSeparator(cols);
    sql := sql[..|sql| - 2] + WhereTail;
    params := params + [Id(storeId)];
  }

  // ---------------------------------------------------------------------
  // The database side: counting placeholders, parsing and running the
  // statement.

  /** The number of `?` placeholders in a statement. */
  function Marks(s: string): nat
  {
    multiset(s)['?']
  }

  predicate IdentChar(ch: char)
  {
    ('a' <= ch <= 'z') || ch == '_'
  }

  predicate IdentChars(s: string)
  {
    forall i :: 0 <= i < |s| ==> IdentChar(s[i])
  }

  predicate IsIdent(s: string)
  {
    s != [] && IdentChars(s)
  }

  predicate StartsWith(s: string, prefix: string)
  {
    |prefix| <= |s| && s[..|prefix|] == prefix
  }

  /** The length of the longest identifier at the start of `s`. */
  function IdentLength(s: string): (n: nat)
    ensures n <= |s|
  {
    if s != [] && IdentChar(s[0]) then 1 + IdentLength(s[1..]) else 0
  }

  /** Reads a `c = ?, c = ?, …` list back into its column names. */
  function ParseClauses(s: string): Option<seq<string>>
    decreases |s|
  {
    var n := IdentLength(s);
    if n == 0 || !StartsWith(s[n..], Placeholder) then None
    else
      var rest := s[n + |Placeholder|..];
      if rest == [] then Some([s[..n]])
      else if !StartsWith(rest, Separator) then None
      else match ParseClauses(rest[|Separator|..])
        case None => None
        case Some(more) => Some([s[..n]] + more)
  }

  /** The columns of an `UPDATE store SET … WHERE id = ?` statement, or None
      when the database would refuse it as malformed. */
  function ParseUpdate(sql: string): Option<seq<string>>
  {
    if |SetHead| + |WhereTail| <= |sql| && StartsWith(sql, SetHead) && sql[|sql| - |WhereTail|..] == WhereTail
    then ParseClauses(sql[|SetHead|..|sql| - |WhereTail|])
    else None
  }

  /** Writes one text column of a store row; None for a column the statement
      may not set. */
  function SetColumn(row: Store, column: string, v: SqlValue): Option<Store>
  {
    if !v.Text? then None
    else if column == LogoColumn then Some(row.(logoUrl := v.text))
    else if column == "name" then Some(row.(name := v.text))
    else if column == "type" then Some(row.(kind := v.text))
    else if column == "description" then Some(row.(description := v.text))
    else None
  }

  /** Applies the assignments left to right. */
  function AssignAll(row: Store, cols: seq<string>, vals: seq<SqlValue>): Option<Store>
    requires |cols| == |vals|
  {
    if cols == [] then Some(row)
    else match AssignAll(row, cols[..|cols| - 1], vals[..|vals| - 1])
      case None => None
      case Some(r) => SetColumn(r, cols[|cols| - 1], vals[|vals| - 1])
  }

  /** The store table after the database executes `sql` with `params`; None
      when it raises an error (malformed statement, wrong number of
      parameters). An id that matches no row updates nothing. */
  function RunUpdate(stores: map<StoreId, Store>, sql: string, params: seq<SqlValue>): Option<map<StoreId, Store>>
  {
    match ParseUpdate(sql)
    case None => None
    case Some(cols) =>
      if |params| != |cols| + 1 || !params[|cols|].Id? then None
      else
        var id := params[|cols|].id;
        if id !in stores then Some(stores)
        else match AssignAll(stores[id], cols, params[..|cols|])
          case None => None
          case Some(row) => Some(stores[id := row])
  }

  // ---------------------------------------------------------------------
  // Lemmas.

  lemma ColumnsValuesSnoc(asg: seq<Assignment>, a: Assignment)
    ensures Columns(asg + [a]) == Columns(asg) + [a.column]
    ensures Values(asg + [a]) == Values(asg) + [Text(a.value)]
  {
    assert Columns(asg + [a]) == Columns(asg) + [a.column];
    assert Values(asg + [a]) == Values(asg) + [Text(a.value)];
  }

  /** Cutting the last two characters of what the builder accumulated and
      appending the WHERE clause gives the well-formed statement, or the
      degenerate one when nothing was set. */
  lemma CutTrailingSeparator(cols: seq<string>)
    ensures var acc := SetHead + Clauses(cols);
      acc[..|acc| - 2] + WhereTail == if cols == [] then EmptySetQuery else Render(cols)
  {
    if cols != [] {
      ClausesJoin(cols);
      var acc := SetHead + Clauses(cols);
      assert acc == SetHead + Join(cols) + Separator;
      assert acc[..|acc| - 2] == SetHead + Join(cols);
    }
  }

  /** One step of the builder: appending `c = ?, ` extends the clauses by `c`. */
  lemma Appended(head: string, cols: seq<string>, c: string)
    ensures head + Clauses(cols) + c + Placeholder + Separator == head + Clauses(cols + [c])
  {
    assert (cols + [c])[..|cols|] == cols;
  }

  lemma {:induction false} JoinSnoc(cols: seq<string>, c: string)
    requires cols != []
    ensures Join(cols + [c]) == Join(cols) + Separator + c + Placeholder
  {
    if |cols| == 1 {
      assert (cols + [c])[1..] == [c];
    } else {
      assert (cols + [c])[1..] == cols[1..] + [c];
      JoinSnoc(cols[1..], c);
    }
  }

  /** What the builder has accumulated is the well-formed list plus one
      trailing separator, which is what its final cut removes. */
  lemma {:induction false} ClausesJoin(cols: seq<string>)
    requires cols != []
    ensures Clauses(cols) == Join(cols) + Separator
  {
    var init, last := cols[..|cols| - 1], cols[|cols| - 1];
    if init == [] {
      assert cols == [last];
    } else {
      ClausesJoin(init);
      JoinSnoc(init, last);
      assert init + [last] == cols;
    }
  }

  lemma NoMarks(s: string)
    requires forall i :: 0 <= i < |s| ==> s[i] != '?'
    ensures Marks(s) == 0
  {
    assert '?' !in s;
  }

  lemma OneMark()
    ensures Marks("?") == 1
  {
  }

  lemma PlaceholderMarks()
    ensures Marks(Placeholder) == 1
  {
    assert Placeholder == " = " + "?";
    NoMarks(" = ");
    OneMark();
  }

  lemma SetHeadHasNoMark()
    ensures forall i :: 0 <= i < |SetHead| ==> SetHead[i] != '?'
  {
  }

  lemma SetHeadMarks()
    ensures Marks(SetHead) == 0
  {
    SetHeadHasNoMark();
    NoMarks(SetHead);
  }

  lemma CutHeadMarks()
    ensures Marks(SetHead[..|SetHead| - 2]) == 0
  {
    NoMarks(SetHead[..|SetHead| - 2]);
  }

  lemma SeparatorMarks()
    ensures Marks(Separator) == 0
  {
    NoMarks(Separator);
  }

  lemma WhereTailMarks()
    ensures Marks(WhereTail) == 1
  {
    assert WhereTail == " WHERE id = " + "?";
    NoMarks(" WHERE id = ");
    OneMark();
  }

  /** Each column of a well-formed list carries exactly one placeholder. */
  lemma {:induction false} MarksJoin(cols: seq<string>)
    requires cols != []
    requires forall i :: 0 <= i < |cols| ==> IsIdent(cols[i])
    ensures Marks(Join(cols)) == |cols|
  {
    assert IdentChars(cols[0]);
    NoMarks(cols[0]);
    PlaceholderMarks();
    if |cols| > 1 {
      MarksJoin(cols[1..]);
      SeparatorMarks();
    }
  }

  /** Every column a request can set is an identifier. */
  lemma {:induction false} PickedColumnsAreIdents(logoUrl: Option<string>, body: map<string, string>, n: nat)
    requires n <= |ValidFields|
    ensures forall i :: 0 <= i < |Picked(logoUrl, body, n)| ==> IsIdent(Picked(logoUrl, body, n)[i].column)
  {
    assert IsIdent(LogoColumn) && IsIdent("name") && IsIdent("type") && IsIdent("description") by {
      assert LogoColumn == "logo_url";
    }
    if n > 0 {
      PickedColumnsAreIdents(logoUrl, body, n - 1);
    }
  }

  lemma EmptySetQueryMarks()
    ensures Marks(EmptySetQuery) == 1
  {
    CutHeadMarks();
    WhereTailMarks();
  }

  lemma MarksAround(head: string, middle: string, tail: string)
    ensures Marks(head + middle + tail) == Marks(head) + Marks(middle) + Marks(tail)
  {
  }

  lemma RenderMarks(cols: seq<string>)
    requires cols != []
    requires forall i :: 0 <= i < |cols| ==> IsIdent(cols[i])
    ensures Marks(Render(cols)) == |cols| + 1
  {
    SetHeadMarks();
    WhereTailMarks();
    MarksJoin(cols);
    MarksAround(SetHead, Join(cols), WhereTail);
  }

  /** The number of `?` in the statement equals the number of parameters,
      including the degenerate statement built when nothing is set. */
  lemma QueryPlaceholders(logoUrl: Option<string>, body: map<string, string>, storeId: StoreId)
    ensures Marks(QueryText(logoUrl, body)) == |QueryParams(logoUrl, body, storeId)|
  {
    var cols := Columns(Assignments(logoUrl, body));
    if cols == [] {
      EmptySetQueryMarks();
    } else {
      PickedColumnsAreIdents(logoUrl, body, |ValidFields|);
      RenderMarks(cols);
    }
  }

  lemma {:induction false} IdentLengthOf(c: string, rest: string)
    requires IdentChars(c)
    requires rest != [] && !IdentChar(rest[0])
    ensures IdentLength(c + rest) == |c|
  {
    if c != [] {
      assert (c + rest)[1..] == c[1..] + rest;
      IdentLengthOf(c[1..], rest);
    }
  }

  /** The parser reads one clause and decides on what follows it. */
  lemma ParseHead(c: string, rest: string)
    requires IsIdent(c)
    ensures ParseClauses(c + Placeholder + rest) ==
      if rest == [] then Some([c])
      else if !StartsWith(rest, Separator) then None
      else match ParseClauses(rest[|Separator|..])
        case None => None
        case Some(more) => Some([c] + more)
  {
    var s := c + (Placeholder + rest);
    assert c + Placeholder + rest == s;
    assert (Placeholder + rest)[0] == ' ';
    IdentLengthOf(c, Placeholder + rest);
    var n := |c|;
    assert s[..n] == c;
    assert s[n..] == Placeholder + rest;
    assert StartsWith(s[n..], Placeholder);
    assert s[n + |Placeholder|..] == rest;
  }

  /** The parser reads a well-formed list back into its columns. */
  lemma {:induction false} ParseJoin(cols: seq<string>)
    requires cols != []
    requires forall i :: 0 <= i < |cols| ==> IsIdent(cols[i])
    ensures ParseClauses(Join(cols)) == Some(cols)
  {
    var c := cols[0];
    if |cols| == 1 {
      ParseHead(c, "");
      assert c + Placeholder + "" == Join(cols);
      assert cols == [c];
    } else {
      var rest := Separator + Join(cols[1..]);
      assert Join(cols) == c + Placeholder + rest;
      ParseHead(c, rest);
      assert rest[..|Separator|] == Separator;
      assert rest[|Separator|..] == Join(cols[1..]);
      ParseJoin(cols[1..]);
      assert [c] + cols[1..] == cols;
    }
  }

  lemma RenderParses(cols: seq<string>)
    requires cols != []
    requires forall i :: 0 <= i < |cols| ==> IsIdent(cols[i])
    ensures ParseUpdate(Render(cols)) == Some(cols)
  {
    var sql := Render(cols);
    assert sql[..|SetHead|] == SetHead;
    assert sql[|sql| - |WhereTail|..] == WhereTail;
    assert sql[|SetHead|..|sql| - |WhereTail|] == Join(cols);
    ParseJoin(cols);
  }

  /** The statement built when nothing is set is malformed. */
  lemma EmptySetRejected()
    ensures ParseUpdate(EmptySetQuery) == None
  {
    assert EmptySetQuery[15] == ' ' && SetHead[15] == 'T';
    assert !StartsWith(EmptySetQuery, SetHead);
  }

  /** The built statement is malformed exactly when the request sets
      nothing; otherwise the database reads back the columns it was built for. */
  lemma QueryParses(logoUrl: Option<string>, body: map<string, string>)
    ensures ParseUpdate(QueryText(logoUrl, body)) == if Assignments(logoUrl, body) == [] then None
                                                     else Some(Columns(Assignments(logoUrl, body)))
  {
    var asg := Assignments(logoUrl, body);
    if asg == [] {
      EmptySetRejected();
    } else {
      PickedColumnsAreIdents(logoUrl, body, |ValidFields|);
      RenderParses(Columns(asg));
    }
  }

  /** The row after the logo step and the first `n` whitelisted fields. */
  function PatchUpTo(row: Store, logoUrl: Option<string>, body: map<string, string>, n: nat): Store
  {
    row.(logoUrl := if logoUrl.Some? then logoUrl.value else row.logoUrl,
         name := if 1 <= n && Truthy(body, "name") then body["name"] else row.name,
         kind := if 2 <= n && Truthy(body, "type") then body["type"] else row.kind,
         description := if 3 <= n && Truthy(body, "description") then body["description"] else row.description)
  }

  /** Appending one assignment applies it after the others. */
  lemma AssignSnoc(row: Store, cols: seq<string>, vals: seq<SqlValue>, c: string, v: SqlValue)
    requires |cols| == |vals|
    ensures AssignAll(row, cols + [c], vals + [v]) ==
      match AssignAll(row, cols, vals)
      case None => None
      case Some(r) => SetColumn(r, c, v)
  {
    assert (cols + [c])[..|cols|] == cols;
    assert (vals + [v])[..|vals|] == vals;
  }

  /** Setting the `n`-th whitelisted field writes that field of the row. */
  lemma SetField(r: Store, n: nat, x: string)
    requires 1 <= n <= |ValidFields|
    ensures SetColumn(r, ValidFields[n - 1], Text(x)) ==
      Some(if n == 1 then r.(name := x) else if n == 2 then r.(kind := x) else r.(description := x))
  {
    assert LogoColumn[0] == 'l';
    if n == 1 {
      assert ValidFields[0] == "name" && ValidFields[0][0] == 'n';
    } else if n == 2 {
      assert ValidFields[1] == "type" && ValidFields[1][0] == 't';
      assert "name"[0] == 'n';
    } else {
      assert ValidFields[2] == "description" && ValidFields[2][0] == 'd';
      assert "name"[0] == 'n' && "type"[0] == 't';
    }
  }

  lemma {:induction false} AssignPicked(row: Store, logoUrl: Option<string>, body: map<string, string>, n: nat)
    requires n <= |ValidFields|
    ensures AssignAll(row, Columns(Picked(logoUrl, body, n)), Values(Picked(logoUrl, body, n)))
         == Some(PatchUpTo(row, logoUrl, body, n))
  {
    var asg := Picked(logoUrl, body, n);
    if n == 0 {
      if logoUrl.Some? {
        assert Columns(asg) == [LogoColumn];
        assert Values(asg) == [Text(logoUrl.value)];
        AssignSnoc(row, [], [], LogoColumn, Text(logoUrl.value));
      }
    } else {
      var prev := Picked(logoUrl, body, n - 1);
      var field := ValidFields[n - 1];
      AssignPicked(row, logoUrl, body, n - 1);
      if Truthy(body, field) {
        var a := Assignment(field, body[field]);
        assert asg == prev + [a];
        ColumnsValuesSnoc(prev, a);
        AssignSnoc(row, Columns(prev), Values(prev), field, Text(body[field]));
        SetField(PatchUpTo(row, logoUrl, body, n - 1), n, body[field]);
      } else {
        assert asg == prev;
      }
    }
  }

  /** Executing the built statement does what the reference Patch says on
      the addressed row, and fails when the request sets nothing. */
  lemma BuiltQueryRuns(stores: map<StoreId, Store>, logoUrl: Option<string>, body: map<string, string>, storeId: StoreId)
    ensures RunUpdate(stores, QueryText(logoUrl, body), QueryParams(logoUrl, body, storeId))
         == if Assignments(logoUrl, body) == [] then None
            else if storeId !in stores then Some(stores)
            else Some(stores[storeId := Patch(stores[storeId], logoUrl, body)])
  {
    var asg := Assignments(logoUrl, body);
    QueryParses(logoUrl, body);
    if asg != [] {
      var params := QueryParams(logoUrl, body, storeId);
      assert params[..|asg|] == Values(asg);
      if storeId in stores {
        AssignPicked(stores[storeId], logoUrl, body, |ValidFields|);
      }
    }
  }

  /** Body keys outside the whitelist never reach the statement. */
  lemma {:induction false} OnlyWhitelisted(logoUrl: Option<string>, body: map<string, string>, key: string, v: string, n: nat)
    requires n <= |ValidFields|
    requires key !in ValidFields
    ensures Picked(logoUrl, body[key := v], n) == Picked(logoUrl, body, n)
  {
    if n > 0 {
      OnlyWhitelisted(logoUrl, body, key, v, n - 1);
      assert ValidFields[n - 1] != key;
    }
  }

  /** The assignments spelled out: the logo first if a file came, then
      name, type and description in that order, each only if truthy. */
  lemma AssignmentsInOrder(logoUrl: Option<string>, body: map<string, string>)
    ensures Assignments(logoUrl, body)
         == (if logoUrl.Some? then [Assignment(LogoColumn, logoUrl.value)] else [])
          + (if Truthy(body, "name") then [Assignment("name", body["name"])] else [])
          + (if Truthy(body, "type") then [Assignment("type", body["type"])] else [])
          + (if Truthy(body, "description") then [Assignment("description", body["description"])] else [])
  {
    assert Picked(logoUrl, body, 1) == Picked(logoUrl, body, 0) + (if Truthy(body, "name") then [Assignment("name", body["name"])] else []);
    assert Picked(logoUrl, body, 2) == Picked(logoUrl, body, 1) + (if Truthy(body, "type") then [Assignment("type", body["type"])] else []);
    assert Picked(logoUrl, body, 3) == Picked(logoUrl, body, 2) + (if Truthy(body, "description") then [Assignment("description", body["description"])] else []);
  }
}
