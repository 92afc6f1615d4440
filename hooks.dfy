/**
 * The two data hooks of the client: `useEmployees` (the directory list, its fetch and the
 * local removal after a delete) and `useEmployee` (one record for the edit form). Each API
 * call is a parameter carrying its outcome: the response body, or the failure's message.
 */
module UseEmployees {
  import opened Wrappers
  import opened Text
  import opened Records
  import Seqs

  /** A key of a response object: an array of employees, or any value that is not an array (absent included). */
  datatype Slot = ArraySlot(items: seq<Employee>) | NotArray

  /**
   * The body the list request resolves with: an array itself, an object whose `employees` and
   * `data` keys are read, or a value that is neither (null, a string, a number).
   */
  datatype ListBody = RawArray(items: seq<Employee>) | Object(employees: Slot, data: Slot) | Scalar

  /** The list `fetchEmployees` keeps: the first array among the body, `.employees` and `.data`. */
  function NormaliseList(body: ListBody): seq<Employee> {
    match body
    case RawArray(items) => items
    case Object(ArraySlot(items), _) => items
    case Object(NotArray, ArraySlot(items)) => items
    case _ => []
  }

  /** A body that is an array is kept as it is. */
  lemma RawArrayFirst(items: seq<Employee>)
    ensures NormaliseList(RawArray(items)) == items
  {
  }

  /** An `employees` array wins over whatever `data` holds. */
  lemma EmployeesKeyBeforeData(items: seq<Employee>, data: Slot)
    ensures NormaliseList(Object(ArraySlot(items), data)) == items
  {
  }

  /** `data` is read only when `employees` is not an array. */
  lemma DataKeyLast(employees: Slot, items: seq<Employee>)
    ensures NormaliseList(Object(employees, ArraySlot(items))) ==
            if employees.ArraySlot? then employees.items else items
  {
  }

  /** Normalisation never fails: with no array in any of the three places the list is empty. */
  lemma NoArrayGivesEmpty(body: ListBody)
    requires !body.RawArray?
    requires body.Object? ==> body.employees.NotArray? && body.data.NotArray?
    ensures NormaliseList(body) == []
  {
  }

  /**
   * A JSON value as `useEmployee` reads it: missing (null or undefined), or an object whose own
   * employee fields are `record` and whose `employee` and `data` keys hold further values.
   */
  datatype Doc = Absent | Obj(record: Employee, employee: Doc, data: Doc)

  /** `data?.employee ?? data?.data ?? data`. */
  function NormaliseRecord(d: Doc): (r: Doc)
    ensures r == d || (d.Obj? && (r == d.employee || r == d.data))
    ensures d.Absent? ==> r.Absent?
  {
    if d.Obj? && d.employee.Obj? then d.employee
    else if d.Obj? && d.data.Obj? then d.data
    else d
  }

  /** The fallbacks are taken in order: `employee` when present, else `data` when present, else the value itself. */
  lemma NormaliseRecordPriority(d: Doc)
    ensures d.Obj? && d.employee.Obj? ==> NormaliseRecord(d) == d.employee
    ensures d.Obj? && d.employee.Absent? && d.data.Obj? ==> NormaliseRecord(d) == d.data
    ensures (d.Absent? || (d.employee.Absent? && d.data.Absent?)) ==> NormaliseRecord(d) == d
  {
  }

  /** An employee that `deleteEmployee(id)` keeps: neither its `id` nor its `_id` is strictly equal to `id`. */
  predicate Survives(e: Employee, id: Option<int>) {
    e.id != id && e.underscoreId != id
  }

  /** The local removal after a successful delete: `prev.filter(emp => emp.id !== id && emp._id !== id)`. */
  function RemoveById(employees: seq<Employee>, id: Option<int>): (r: seq<Employee>)
    ensures forall i :: 0 <= i < |r| ==> Survives(r[i], id) && r[i] in employees
  {
    Seqs.Select(employees, e => Survives(e, id))
  }

  /**
   * Removal drops exactly the entries whose `id` or `_id` equals `id`: each other entry keeps
   * all its occurrences, in the original order.
   */
  lemma RemoveByIdExact(employees: seq<Employee>, id: Option<int>, e: Employee)
    ensures multiset(RemoveById(employees, id))[e] == if Survives(e, id) then multiset(employees)[e] else 0
    ensures Seqs.IsSubsequence(RemoveById(employees, id), employees)
  {
    Seqs.SelectCount(employees, e => Survives(e, id), e);
    Seqs.SelectIsSubsequence(employees, e => Survives(e, id));
  }

  /** Removing an id no entry carries leaves the list as it was. */
  lemma RemoveAbsentIdIsIdentity(employees: seq<Employee>, id: Option<int>)
    requires forall i :: 0 <= i < |employees| ==> Survives(employees[i], id)
    ensures RemoveById(employees, id) == employees
  {
    Seqs.SelectAll(employees, e => Survives(e, id));
  }

  /** What `deleteEmployee` resolves with: `{success: true}` or `{success: false, error}`. */
  datatype DeleteResult = DeleteResult(success: bool, error: Option<string>)

  /** The state of `useEmployees`. */
  class EmployeesHook {
    var employees: seq<Employee>
    var loading: bool
    var error: Option<string>

    constructor ()
      ensures employees == [] && loading && error == None
    {
      employees, loading, error := [], true, None;
    }

    /** `fetchEmployees`: `outcome` is the list request's body or its failure message. */
    method FetchEmployees(outcome: Result<ListBody>)
      modifies this
      ensures !loading
      ensures outcome.Success? ==> employees == NormaliseList(outcome.value) && error == None
      ensures outcome.Failure? ==> employees == old(employees) && error == Some(outcome.error)
    {
      loading := true;
      error := None;
      match outcome {
        case Success(body) =>
          employees := NormaliseList(body);
        case Failure(message) =>
          error := Some(message);
      }
      loading := false;
    }

    /** `deleteEmployee(id)`: `outcome` is the delete request's result. */
    method DeleteEmployee(id: Option<int>, outcome: Outcome) returns (r: DeleteResult)
      modifies this
      ensures loading == old(loading) && error == old(error)
      ensures outcome.Succeeded? ==> employees == RemoveById(old(employees), id) && r == DeleteResult(true, None)
      ensures outcome.Failed? ==>
                employees == old(employees) && r == DeleteResult(false, Some(outcome.message))
    {
      if outcome.Failed? {
        return DeleteResult(false, Some(outcome.message));
      }
      employees := RemoveById(employees, id);
      r := DeleteResult(true, None);
    }
  }

  /** The state of `useEmployee(id)`. */
  class EmployeeHook {
    var employee: Doc
    var loading: bool
    var error: Option<string>

    constructor ()
      ensures employee == Absent && loading && error == None
    {
      employee, loading, error := Absent, true, None;
    }

    /**
     * The effect run for route parameter `id`; `fetched` says whether the request was sent, and
     * `outcome` is its body or its failure message.
     */
    method Load(id: Option<string>, outcome: Result<Doc>) returns (fetched: bool)
      modifies this
      ensures !loading
      ensures fetched <==> Truthy(id)
      ensures !Truthy(id) ==> employee == old(employee) && error == old(error)
      ensures Truthy(id) && outcome.Success? ==> employee == NormaliseRecord(outcome.value) && error == None
      ensures Truthy(id) && outcome.Failure? ==> employee == old(employee) && error == Some(outcome.error)
    {
      if !Truthy(id) {
        loading := false;
        return false;
      }
      fetched := true;
      loading := true;
      error := None;
      match outcome {
        case Success(d) =>
          employee := NormaliseRecord(d);
        case Failure(message) =>
          error := Some(message);
      }
      loading := false;
    }
  }
}
