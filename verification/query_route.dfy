/** `/api/supabase/query`: a generic read over an allow-list of tables,
    built from a JSON body of table, columns, equality filters and an
    optional order. */
module QueryRoute {
  import opened Common
  import opened Rows
  import opened Text

  /** A body field: missing, JSON `null`, or a value. */
  datatype Field<T> = Absent | Null | Given(value: T)

  /** `{ column, ascending }`; a missing `ascending` reads as false. */
  datatype OrderSpec = OrderSpec(column: string, ascending: bool)

  /** Filters are the entries of the `filters` object, in order. */
  datatype QueryBody = QueryBody(
    table: Option<string>, select: Option<string>,
    filters: Field<seq<(string, string)>>, order: Field<OrderSpec>)

  /** The query the handler builds. */
  datatype Plan = Plan(table: string, select: string, filters: seq<(string, string)>,
                       order: Option<OrderSpec>)

  predicate Allowed(table: string) {
    table == "blog_posts" || table == "daily_shares"
  }

  /** `body` is `None` when the request body is not JSON. A `null` filters
      or order object makes `Object.entries` or `order.column` throw, which
      the handler answers with 400. */
  function BuildQuery(body: Option<QueryBody>): (r: Outcome<Plan>)
    ensures body.None? ==> r == Rejected(BadRequest)
    ensures body.Some? && (body.value.table.None? || !Allowed(body.value.table.value)) ==>
              r == Rejected(Forbidden)
    ensures r.Rejected? ==> r.status == BadRequest || r.status == Forbidden
    ensures r.Done? ==>
              var b := body.value;
              && b.table == Some(r.value.table) && Allowed(r.value.table)
              && r.value.select == b.select.GetOr("*")
              && r.value.filters == (if b.filters.Given? then b.filters.value else [])
              && (r.value.order.Some? <==> b.order.Given? && b.order.value.column != "")
              && (r.value.order.Some? ==> r.value.order.value == b.order.value)
    ensures body.Some? && body.value.table.Some? && Allowed(body.value.table.value) ==>
              (r.Done? <==> !body.value.filters.Null? && !body.value.order.Null?)
  {
    match body
    case None => Rejected(BadRequest)
    case Some(b) =>
      if b.table.None? || !Allowed(b.table.value) then Rejected(Forbidden)
      else if b.filters.Null? || b.order.Null? then Rejected(BadRequest)
      else
        var order := if b.order.Given? && b.order.value.column != "" then Some(b.order.value) else None;
        Done(Plan(b.table.value, b.select.GetOr("*"),
                  if b.filters.Given? then b.filters.value else [], order))
  }

  /** A stored row: column name to value. */
  type Row = map<string, string>

  /** The chained `.eq(key, value)` calls: every filter must hold. */
  predicate MatchesAll(row: Row, filters: seq<(string, string)>) {
    forall i :: 0 <= i < |filters| ==> filters[i].0 in row && row[filters[i].0] == filters[i].1
  }

  function Matching(filters: seq<(string, string)>): Row -> bool {
    (row: Row) => MatchesAll(row, filters)
  }

  /** The column names of a `select` list such as `"id,title"`: the pieces
      between the commas. */
  function Columns(select: string): (r: seq<string>)
    ensures |r| >= 1
    ensures forall i :: 0 <= i < |r| ==> ',' !in r[i]
    decreases |select|
  {
    var head := Before(select, ',');
    if |head| == |select| then [select] else [head] + Columns(select[|head| + 1..])
  }

  /** The list written back with commas between the names. */
  function JoinColumns(cs: seq<string>): string
    requires |cs| >= 1
  {
    if |cs| == 1 then cs[0] else cs[0] + [','] + JoinColumns(cs[1..])
  }

  /** Splitting at the commas loses nothing. */
  lemma {:induction false} ColumnsJoinBack(select: string)
    ensures JoinColumns(Columns(select)) == select
    decreases |select|
  {
    var head := Before(select, ',');
    if |head| == |select| {
      assert select[..|head|] == head;
    } else {
      var rest := select[|head| + 1..];
      ColumnsJoinBack(rest);
      assert select == head + [','] + rest;
    }
  }

  /** Whether `.select(select)` returns column `k`: every column for `*`,
      otherwise the named ones. */
  predicate Keeps(select: string, k: string) {
    select == "*" || k in Columns(select)
  }

  /** One row as the projection returns it. */
  function Project(row: Row, select: string): (r: Row)
    ensures forall k :: k in r <==> k in row && Keeps(select, k)
    ensures forall k :: k in r ==> r[k] == row[k]
  {
    map k | k in row && Keeps(select, k) :: row[k]
  }

  /** `*` returns the row whole. */
  lemma ProjectAll(row: Row)
    ensures Project(row, "*") == row
  {
    var r := Project(row, "*");
    assert r.Keys == row.Keys;
  }

  /** The stored rows the filters let through, in table order, before
      the projection. */
  function Selected(plan: Plan, tables: map<string, seq<Row>>): (r: seq<Row>)
    ensures forall row :: row in r <==>
              plan.table in tables && row in tables[plan.table] && MatchesAll(row, plan.filters)
  {
    var rows := if plan.table in tables then tables[plan.table] else [];
    FilterMembers(rows, Matching(plan.filters));
    Filter(rows, Matching(plan.filters))
  }

  /** The built query run against the allowed tables; `storeFails` stands
      for an error from the store (500). Each selected row is cut down to
      the selected columns; ordering is not modelled, so the rows come back
      in table order. */
  function RunQuery(plan: Plan, tables: map<string, seq<Row>>, storeFails: bool): (r: Outcome<seq<Row>>)
    ensures storeFails <==> r == Rejected(ServerError)
    ensures r.Done? ==> |r.value| == |Selected(plan, tables)|
    ensures r.Done? ==>
              forall i :: 0 <= i < |r.value| ==>
                && (forall k :: k in r.value[i] ==> Keeps(plan.select, k) && k in Selected(plan, tables)[i])
                && (forall k :: k in Selected(plan, tables)[i] && Keeps(plan.select, k) ==>
                      k in r.value[i] && r.value[i][k] == Selected(plan, tables)[i][k])
    ensures r.Done? && plan.select == "*" ==>
              forall row :: row in r.value <==>
                plan.table in tables && row in tables[plan.table] && MatchesAll(row, plan.filters)
  {
    if storeFails then Rejected(ServerError)
    else
      var rows := Selected(plan, tables);
      var out := seq(|rows|, i requires 0 <= i < |rows| => Project(rows[i], plan.select));
      assert plan.select == "*" ==> out == rows by {
        forall i | 0 <= i < |rows|
          ensures Project(rows[i], "*") == rows[i]
        {
          ProjectAll(rows[i]);
        }
      }
      Done(out)
  }

  /** Filters combine by conjunction: adding one keeps exactly the rows of
      the old result that also satisfy it. */
  lemma AddedFilterNarrows(plan: Plan, tables: map<string, seq<Row>>, key: string, value: string)
    ensures var wider := Selected(plan, tables);
            var narrower := Selected(plan.(filters := plan.filters + [(key, value)]), tables);
            forall row :: row in narrower <==> row in wider && key in row && row[key] == value
  {
    var fs := plan.filters + [(key, value)];
    forall row: Row
      ensures MatchesAll(row, fs) <==> MatchesAll(row, plan.filters) && key in row && row[key] == value
    {
      if MatchesAll(row, plan.filters) && key in row && row[key] == value {
        forall i | 0 <= i < |fs|
          ensures fs[i].0 in row && row[fs[i].0] == fs[i].1
        {
          if i < |plan.filters| {
            assert fs[i] == plan.filters[i];
          }
        }
      }
      if MatchesAll(row, fs) {
        assert fs[|plan.filters|] == (key, value);
        forall i | 0 <= i < |plan.filters|
          ensures plan.filters[i].0 in row && row[plan.filters[i].0] == plan.filters[i].1
        {
          assert fs[i] == plan.filters[i];
        }
      }
    }
  }
}
