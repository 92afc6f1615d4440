/**
 * The JSON envelopes the server writes, as the client hooks read them: a row becomes an
 * employee object with an `id` and no `_id`, a listing arrives under the `employees` key and a
 * single row under the `employee` key.
 */
module Envelope {
  import opened Wrappers
  import opened Records
  import opened EmployeeController
  import opened UseEmployees
  import Seqs

  /** A row as the client receives it. */
  function ToEmployee(row: Row): (e: Employee)
    ensures e.id == Some(row.id) && e.underscoreId == None
  {
    Employee(Some(row.id), None, Some(row.name), Some(row.email), Some(row.position), Some(row.phone), Some(row.department))
  }

  /** The body of a 200 answer to GET /employees: `{success, employees, message}`. */
  function ListBodyOf(rows: seq<Row>): ListBody {
    Object(ArraySlot(Seqs.Map(rows, ToEmployee)), NotArray)
  }

  /** The body of a 200 answer carrying one row: `{success, employee, message}`. */
  function RecordDocOf(row: Row): Doc {
    Obj(Employee(None, None, None, None, None, None, None), Obj(ToEmployee(row), Absent, Absent), Absent)
  }

  /** The list the client keeps is the server's listing, entry for entry. */
  lemma ListingReachesClient(rows: seq<Row>)
    ensures NormaliseList(ListBodyOf(rows)) == Seqs.Map(rows, ToEmployee)
  {
  }

  /** The record the edit form receives is the row the server sent, not the envelope around it. */
  lemma RecordReachesClient(row: Row)
    ensures NormaliseRecord(RecordDocOf(row)) == Obj(ToEmployee(row), Absent, Absent)
  {
  }

  /** The rows of a listing other than row `k`. */
  function Without(rows: seq<Row>, k: int): seq<Row> {
    Seqs.Select(rows, (r: Row) => r.id != k)
  }

  /** Dropping row `k` from a listing of `table` lists the table without `k`. */
  lemma {:induction false} WithoutLists(rows: seq<Row>, table: map<int, Row>, k: int)
    requires ListsTable(rows, table)
    requires forall j :: j in table ==> table[j].id == j
    ensures ListsTable(Without(rows, k), table - {k})
  {
    var p := (r: Row) => r.id != k;
    var w := Without(rows, k);
    Seqs.SelectKeepsDistinct(rows, p, (r: Row) => r.id);
    forall j | j in table - {k}
      ensures (table - {k})[j] in w
    {
      Seqs.SelectKeeps(rows, p, table[j]);
    }
  }

  /**
   * After a successful DELETE of row `k`, the client's local removal by id yields exactly the
   * listing the server would now send: the list stays in step with the table without a refetch.
   */
  lemma {:induction false} LocalRemovalMatchesServer(rows: seq<Row>, table: map<int, Row>, k: int)
    requires ListsTable(rows, table)
    requires forall j :: j in table ==> table[j].id == j
    ensures RemoveById(NormaliseList(ListBodyOf(rows)), Some(k)) == NormaliseList(ListBodyOf(Without(rows, k)))
    ensures ListsTable(Without(rows, k), table - {k})
  {
    Seqs.SelectMap(rows, ToEmployee, (e: Employee) => Survives(e, Some(k)), (r: Row) => r.id != k);
    WithoutLists(rows, table, k);
  }
}
