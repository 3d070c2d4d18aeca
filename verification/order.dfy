/** The `ORDER BY` scope of the list endpoints: the requested column is used only when it is on the
    endpoint's whitelist, and the direction is normalised to `asc` or `desc`. */
module Order {

  import opened Base
  import opened Strings
  import opened Request

  const UserOrderFields := ["id", "name", "email", "role_id", "created_at", "updated_at"]
  const RoleOrderFields := ["id", "name", "is_administrative", "created_at", "updated_at"]
  const ModuleOrderFields := ["id", "name", "created_at", "updated_at"]

  /** `order` as used: "desc" when asked for, "asc" for anything else, absent included. */
  function Direction(q: QueryParams): (d: string)
    ensures d == "asc" || d == "desc"
    ensures d == "desc" <==> "order" in q && q["order"] == "desc"
  {
    var order := DefaultQuery(q, "order", "asc");
    if order != "asc" && order != "desc" then "asc" else order
  }

  /** `Order(c, allowed)`: the clause added to the query, or None when `order_by` is absent or not
      whitelisted (the query is then left unchanged). */
  function OrderClause(q: QueryParams, allowed: seq<string>): (r: Option<string>)
    ensures r.Some? <==> DefaultQuery(q, "order_by", "") in allowed
    ensures r.Some? ==> r.value == DefaultQuery(q, "order_by", "") + " " + Direction(q)
  {
    var orderBy := DefaultQuery(q, "order_by", "");
    if orderBy in allowed then Some(orderBy + " " + Direction(q)) else None
  }

  /** The column of a clause: the text before its trailing " asc" or " desc". */
  function ClauseField(clause: string): (f: string)
  {
    if |clause| >= 5 && clause[|clause| - 5..] == " desc" then clause[..|clause| - 5]
    else if |clause| >= 4 && clause[|clause| - 4..] == " asc" then clause[..|clause| - 4]
    else clause
  }

  /** Only whitelisted columns reach the SQL: the column read back from any clause produced is on the
      whitelist, and is exactly the requested one. */
  lemma OrderClauseWhitelisted(q: QueryParams, allowed: seq<string>)
    requires OrderClause(q, allowed).Some?
    ensures ClauseField(OrderClause(q, allowed).value) in allowed
    ensures ClauseField(OrderClause(q, allowed).value) == DefaultQuery(q, "order_by", "")
  {
    var clause := OrderClause(q, allowed).value;
    var field := DefaultQuery(q, "order_by", "");
    var dir := Direction(q);
    assert clause == field + " " + dir;
    if dir == "desc" {
      assert clause[|clause| - 5..] == " desc";
      assert clause[..|clause| - 5] == field;
    } else {
      assert clause[|clause| - 4..] == " asc";
      assert clause[|clause| - 4] == ' ';
      assert !(|clause| >= 5 && clause[|clause| - 5..] == " desc") by {
        if |clause| >= 5 {
          assert clause[|clause| - 5..][1] == clause[|clause| - 4];
        }
      }
      assert clause[..|clause| - 4] == field;
    }
  }

  /** None of the whitelists contains a space, so no whitelisted column can smuggle in a second
      clause. */
  lemma WhitelistsHaveNoSpaces()
    ensures forall i :: 0 <= i < |UserOrderFields| ==> ' ' !in UserOrderFields[i]
    ensures forall i :: 0 <= i < |RoleOrderFields| ==> ' ' !in RoleOrderFields[i]
    ensures forall i :: 0 <= i < |ModuleOrderFields| ==> ' ' !in ModuleOrderFields[i]
  {
  }
}
