/**
 * The server's five request handlers. The ORM's Employee table is an id-to-row map with an
 * auto-incrementing id; every store call may fail, which each handler receives as a
 * parameter (`storeFails`) together with the message the store would report (`storeError`).
 */
module EmployeeController {
  import opened Wrappers
  import opened Text

  /** A row of the Employee table. */
  datatype Row = Row(id: int, name: string, email: string, position: string, phone: string, department: string)

  /** The five business fields of a request body; None is a key that is absent (undefined). */
  datatype Body = Body(
    name: Option<string>,
    email: Option<string>,
    position: Option<string>,
    phone: Option<string>,
    department: Option<string>)

  /** The create handler's guard: every field is truthy. */
  predicate AllTruthy(body: Body) {
    Truthy(body.name) && Truthy(body.email) && Truthy(body.position) && Truthy(body.phone) && Truthy(body.department)
  }

  /** The update handler's guard fails: no field is truthy. */
  predicate NoneTruthy(body: Body) {
    !Truthy(body.name) && !Truthy(body.email) && !Truthy(body.position) && !Truthy(body.phone) && !Truthy(body.department)
  }

  datatype Payload = NoPayload | One(employee: Row) | All(employees: seq<Row>)

  /** The status code and the JSON envelope `{success, message, employee | employees, error}`. */
  datatype Response = Response(status: int, success: bool, message: string, payload: Payload, error: Option<string>)

  function NewRow(id: int, body: Body): (r: Row)
    requires AllTruthy(body)
  {
    Row(id, body.name.value, body.email.value, body.position.value, body.phone.value, body.department.value)
  }

  /**
   * The row after an update with `body`: the store writes every supplied value, '' included,
   * and leaves a column whose key is undefined as it was.
   */
  function Merge(row: Row, body: Body): Row {
    Row(row.id,
        body.name.GetOr(row.name),
        body.email.GetOr(row.email),
        body.position.GetOr(row.position),
        body.phone.GetOr(row.phone),
        body.department.GetOr(row.department))
  }

  /** `rows` lists every row of `table` exactly once. */
  ghost predicate ListsTable(rows: seq<Row>, table: map<int, Row>) {
    && (forall i :: 0 <= i < |rows| ==> rows[i].id in table && table[rows[i].id] == rows[i])
    && (forall i, j :: 0 <= i < j < |rows| ==> rows[i].id != rows[j].id)
    && (forall k :: k in table ==> table[k] in rows)
  }

  /** An update writes exactly the supplied fields, '' included, and keeps the id. */
  lemma MergeWritesSuppliedFields(row: Row, body: Body)
    ensures var m := Merge(row, body);
            && m.id == row.id
            && (body.name.Some? ==> m.name == body.name.value) && (body.name.None? ==> m.name == row.name)
            && (body.email.Some? ==> m.email == body.email.value) && (body.email.None? ==> m.email == row.email)
            && (body.position.Some? ==> m.position == body.position.value) && (body.position.None? ==> m.position == row.position)
            && (body.phone.Some? ==> m.phone == body.phone.value) && (body.phone.None? ==> m.phone == row.phone)
            && (body.department.Some? ==> m.department == body.department.value)
            && (body.department.None? ==> m.department == row.department)
  {
  }

  /** Sending the same update twice leaves the row as sending it once does. */
  lemma MergeIdempotent(row: Row, body: Body)
    ensures Merge(Merge(row, body), body) == Merge(row, body)
  {
  }

  /** The route parameter `id` names a row of `table`: `Number(id)` is a key of the table. */
  predicate Names(id: string, table: map<int, Row>) {
    NumberOf(id).Some? && NumberOf(id).value in table
  }

  class Controller {
    /** The Employee table. */
    var rows: map<int, Row>
    /** The next value of the auto-increment id. */
    var nextId: int
    /** Every id ever assigned, deleted rows included. */
    ghost var issued: set<int>

    ghost predicate Valid()
      reads this
    {
      && nextId >= 1
      && rows.Keys <= issued
      && (forall k :: k in issued ==> 1 <= k < nextId)
      && (forall k :: k in rows ==> rows[k].id == k)
    }

    constructor ()
      ensures Valid() && rows == map[] && nextId == 1 && issued == {}
    {
      rows, nextId, issued := map[], 1, {};
    }

    /** POST /employees */
    method CreateEmployee(body: Body, storeFails: bool, storeError: string) returns (res: Response)
      requires Valid()
      modifies this
      ensures Valid()
      ensures !AllTruthy(body) ==>
                && res == Response(400, false, "All fields are required!", NoPayload, None)
                && rows == old(rows) && nextId == old(nextId) && issued == old(issued)
      ensures AllTruthy(body) && storeFails ==>
                && res == Response(500, false, "Failed to create employee", NoPayload, Some(storeError))
                && rows == old(rows) && nextId == old(nextId) && issued == old(issued)
      ensures AllTruthy(body) && !storeFails ==>
                var created := NewRow(old(nextId), body);
                && old(nextId) !in old(issued)
                && res == Response(200, true, "Employee created successfully", One(created), None)
                && rows == old(rows)[created.id := created]
                && issued == old(issued) + {created.id}
    {
      if !AllTruthy(body) {
        return Response(400, false, "All fields are required!", NoPayload, None);
      }
      if storeFails {
        return Response(500, false, "Failed to create employee", NoPayload, Some(storeError));
      }
      var created := NewRow(nextId, body);
      rows := rows[nextId := created];
      issued := issued + {nextId};
      nextId := nextId + 1;
      res := Response(200, true, "Employee created successfully", One(created), None);
    }

    /** GET /employees: every row, each once (this model yields them by ascending id). */
    method GetAllEmployees(storeFails: bool, storeError: string) returns (res: Response)
      requires Valid()
      ensures storeFails ==> res == Response(500, false, "Failed to fetch employees", NoPayload, Some(storeError))
      ensures !storeFails ==>
                && res.status == 200 && res.success && res.message == "Employees fetched successfully"
                && res.error == None && res.payload.All? && ListsTable(res.payload.employees, rows)
    {
      if storeFails {
        return Response(500, false, "Failed to fetch employees", NoPayload, Some(storeError));
      }
      var found: seq<Row> := [];
      for id := 1 to nextId
        invariant forall i :: 0 <= i < |found| ==>
                    found[i].id in rows && rows[found[i].id] == found[i] && found[i].id < id
        invariant forall i, j :: 0 <= i < j < |found| ==> found[i].id < found[j].id
        invariant forall k :: k in rows && k < id ==> rows[k] in found
      {
        if id in rows {
          found := found + [rows[id]];
        }
      }
      res := Response(200, true, "Employees fetched successfully", All(found), None);
    }

    /** GET /employees/:id */
    method GetEmployeeById(id: string, storeFails: bool, storeError: string) returns (res: Response)
      requires Valid()
      ensures id == "" ==> res == Response(400, false, "Employee ID is required", NoPayload, None)
      ensures id != "" && (storeFails || NumberOf(id).None?) ==>
                res == Response(500, false, "Failed to fetch employee", NoPayload, Some(storeError))
      ensures id != "" && !storeFails && NumberOf(id).Some? && !Names(id, rows) ==>
                res == Response(404, false, "Employee with ID " + id + " not found", NoPayload, None)
      ensures id != "" && !storeFails && Names(id, rows) ==>
                res == Response(200, true, "Employee fetched successfully", One(rows[NumberOf(id).value]), None)
    {
      if id == "" {
        return Response(400, false, "Employee ID is required", NoPayload, None);
      }
      var key := NumberOf(id);
      if storeFails || key.None? {
        return Response(500, false, "Failed to fetch employee", NoPayload, Some(storeError));
      }
      if key.value !in rows {
        return Response(404, false, "Employee with ID " + id + " not found", NoPayload, None);
      }
      res := Response(200, true, "Employee fetched successfully", One(rows[key.value]), None);
    }

    /** PUT /employees/:id: every store failure, an unknown id included, is answered 404. */
    method UpdateEmployee(id: string, body: Body, storeFails: bool, storeError: string) returns (res: Response)
      requires Valid()
      modifies this
      ensures Valid() && nextId == old(nextId) && issued == old(issued)
      ensures NoneTruthy(body) ==>
                res == Response(400, false, "At least one field is required to update!", NoPayload, None)
                && rows == old(rows)
      ensures !NoneTruthy(body) && (storeFails || !Names(id, old(rows))) ==>
                res == Response(404, false, "Employee not found or update failed", NoPayload, Some(storeError))
                && rows == old(rows)
      ensures !NoneTruthy(body) && !storeFails && Names(id, old(rows)) ==>
                var k := NumberOf(id).value;
                var updated := Merge(old(rows)[k], body);
                && res == Response(200, true, "Employee updated successfully", One(updated), None)
                && rows == old(rows)[k := updated]
    {
      if NoneTruthy(body) {
        return Response(400, false, "At least one field is required to update!", NoPayload, None);
      }
      var key := NumberOf(id);
      if storeFails || key.None? || key.value !in rows {
        return Response(404, false, "Employee not found or update failed", NoPayload, Some(storeError));
      }
      var updated := Merge(rows[key.value], body);
      rows := rows[key.value := updated];
      res := Response(200, true, "Employee updated successfully", One(updated), None);
    }

    /** DELETE /employees/:id: every store failure, an unknown id included, is answered 404. */
    method DeleteEmployee(id: string, storeFails: bool, storeError: string) returns (res: Response)
      requires Valid()
      modifies this
      ensures Valid() && nextId == old(nextId) && issued == old(issued)
      ensures (storeFails || !Names(id, old(rows))) ==>
                res == Response(404, false, "Employee not found or deletion failed", NoPayload, Some(storeError))
                && rows == old(rows)
      ensures !storeFails && Names(id, old(rows)) ==>
                var k := NumberOf(id).value;
                && res == Response(200, true, "Employee deleted successfully", One(old(rows)[k]), None)
                && rows == old(rows) - {k}
                && k !in rows
    {
      var key := NumberOf(id);
      if storeFails || key.None? || key.value !in rows {
        return Response(404, false, "Employee not found or deletion failed", NoPayload, Some(storeError));
      }
      var deleted := rows[key.value];
      rows := rows - {key.value};
      res := Response(200, true, "Employee deleted successfully", One(deleted), None);
    }
  }

  /**
   * The end-to-end round trip: a complete body is created with a fresh id, the listing then
   * contains it, and GET with the id written in decimal returns it.
   */
  method CreateThenRead(c: Controller, body: Body, e: string)
      returns (created: Response, listed: Response, fetched: Response)
    requires c.Valid() && AllTruthy(body)
    modifies c
    ensures c.Valid()
    ensures created.status == 200 && created.payload.One?
    ensures created.payload.employee.id !in old(c.issued)
    ensures listed.status == 200 && listed.payload.All? && created.payload.employee in listed.payload.employees
    ensures fetched.status == 200 && fetched.payload == created.payload
  {
    created := c.CreateEmployee(body, false, e);
    listed := c.GetAllEmployees(false, e);
    var id := created.payload.employee.id;
    NumberOfDecimal(id);
    fetched := c.GetEmployeeById(Decimal(id), false, e);
  }

  /**
   * Deletion is final: once a row is deleted, reading it answers 404 and deleting it again
   * answers 404 with the table unchanged.
   */
  method DeleteIsFinal(c: Controller, id: string, e: string)
      returns (deleted: Response, fetched: Response, again: Response)
    requires c.Valid() && Names(id, c.rows)
    modifies c
    ensures c.Valid()
    ensures deleted.status == 200 && deleted.payload == One(old(c.rows)[NumberOf(id).value])
    ensures fetched.status == 404 && again.status == 404
    ensures c.rows == old(c.rows) - {NumberOf(id).value}
  {
    deleted := c.DeleteEmployee(id, false, e);
    fetched := c.GetEmployeeById(id, false, e);
    again := c.DeleteEmployee(id, false, e);
  }
}
