/**
 * The employee list page: which view it shows, the list it displays under the search bar, its
 * two counters, the search term it keeps, and the delete path from the table's confirmation
 * through the list hook.
 */
module EmployeeListPage {
  import opened Wrappers
  import opened Text
  import opened Records
  import opened Helpers
  import opened UseEmployees
  import opened EmployeeTable
  import Seqs

  /** What sits under the search bar: the table of matching employees, or the "No Results" panel for the term. */
  datatype Listing = Table(rows: seq<Employee>) | NoResults(term: string)

  /**
   * The page's view: the spinner, the error panel with its message, the empty state, or the
   * directory with its total, its distinct-position count, the result count given to the search
   * bar, and the listing.
   */
  datatype View =
    | Spinner
    | ErrorPanel(message: string)
    | EmptyState
    | Directory(total: nat, positions: nat, results: nat, listing: Listing)

  /** The values `new Set(employees.map(emp => emp.position))` holds; a missing position is a value too. */
  function Positions(employees: seq<Employee>): set<Option<string>> {
    set e | e in employees :: e.position
  }

  /** The "Departments" counter: the number of distinct positions. */
  function DistinctPositions(employees: seq<Employee>): nat {
    |Positions(employees)|
  }

  /** The view the page renders for the hook's state and the search term. */
  function ViewOf(loading: bool, error: Option<string>, employees: seq<Employee>, searchTerm: string): View {
    if loading then Spinner
    else if Truthy(error) then ErrorPanel(error.value)
    else if |employees| == 0 then EmptyState
    else
      var shown := FilterEmployees(employees, searchTerm);
      Directory(|employees|, DistinctPositions(employees), |shown|,
                if |shown| > 0 then Table(shown) else NoResults(searchTerm))
  }

  /**
   * View precedence: loading wins over an error, an error over an empty list, and the directory
   * is shown only when none of them applies.
   */
  lemma ViewPrecedence(loading: bool, error: Option<string>, employees: seq<Employee>, searchTerm: string)
    ensures ViewOf(loading, error, employees, searchTerm).Spinner? <==> loading
    ensures ViewOf(loading, error, employees, searchTerm).ErrorPanel? <==> !loading && Truthy(error)
    ensures ViewOf(loading, error, employees, searchTerm).EmptyState? <==>
              !loading && !Truthy(error) && employees == []
    ensures ViewOf(loading, error, employees, searchTerm).Directory? <==>
              !loading && !Truthy(error) && employees != []
  {
  }

  /**
   * The directory lists exactly the filtered employees: in their original order, nothing added,
   * and for a non-blank term each of them matches it and every matching employee is there.
   */
  lemma DirectoryShowsFilter(loading: bool, error: Option<string>, employees: seq<Employee>, searchTerm: string)
    requires ViewOf(loading, error, employees, searchTerm).Directory?
    requires ViewOf(loading, error, employees, searchTerm).listing.Table?
    ensures var rows := ViewOf(loading, error, employees, searchTerm).listing.rows;
            && Seqs.IsSubsequence(rows, employees)
            && rows == FilterEmployees(employees, searchTerm)
            && (!IsBlank(searchTerm) ==>
                  forall e :: e in employees ==> (e in rows <==> Matches(e, Lower(searchTerm))))
  {
    FilterIsSubsequence(employees, searchTerm);
    if !IsBlank(searchTerm) {
      FilterSound(employees, searchTerm);
      FilterComplete(employees, searchTerm);
    }
  }

  /**
   * With employees loaded but none matching the term, the page shows the "No Results" panel for
   * that term inside the directory, never the empty state.
   */
  lemma NoMatchesIsNotEmptyState(error: Option<string>, employees: seq<Employee>, searchTerm: string)
    requires !Truthy(error) && employees != []
    requires forall e :: e in employees ==> !Matches(e, Lower(searchTerm))
    requires !IsBlank(searchTerm)
    ensures ViewOf(false, error, employees, searchTerm).Directory?
    ensures ViewOf(false, error, employees, searchTerm).listing == NoResults(searchTerm)
    ensures ViewOf(false, error, employees, searchTerm).results == 0
  {
    Seqs.SelectNone(employees, e => Matches(e, Lower(searchTerm)));
  }

  /** The counters: the total is the list's length, and there are between one and that many distinct positions. */
  lemma CountersBounded(error: Option<string>, employees: seq<Employee>, searchTerm: string)
    requires !Truthy(error) && employees != []
    ensures ViewOf(false, error, employees, searchTerm).total == |employees|
    ensures 1 <= ViewOf(false, error, employees, searchTerm).positions <= |employees|
    ensures ViewOf(false, error, employees, searchTerm).results <= |employees|
  {
    PositionsBounded(employees);
    FilterIsSubsequence(employees, searchTerm);
  }

  /** A non-empty list has at least one and at most as many distinct positions as entries. */
  lemma {:induction false} PositionsBounded(employees: seq<Employee>)
    ensures |Positions(employees)| <= |employees|
    ensures employees != [] ==> 1 <= |Positions(employees)|
    decreases |employees|
  {
    if employees != [] {
      var init := employees[..|employees| - 1];
      var last := employees[|employees| - 1];
      PositionsBounded(init);
      assert employees == init + [last];
      assert Positions(employees) == Positions(init) + {last.position};
      assert last.position in Positions(employees);
    }
  }

  /** The counter counts positions, not departments: two engineers in different departments count once. */
  lemma PositionsNotDepartments()
    ensures var a := Employee(Some(1), None, Some("Ann"), Some("a@x.io"), Some("Engineer"), Some("555"), Some("R&D"));
            var b := Employee(Some(2), None, Some("Bo"), Some("b@x.io"), Some("Engineer"), Some("556"), Some("Sales"));
            DistinctPositions([a, b]) == 1
  {
    var a := Employee(Some(1), None, Some("Ann"), Some("a@x.io"), Some("Engineer"), Some("555"), Some("R&D"));
    var b := Employee(Some(2), None, Some("Bo"), Some("b@x.io"), Some("Engineer"), Some("556"), Some("Sales"));
    assert Positions([a, b]) == {Some("Engineer")};
  }

  /**
   * Filtering after the hook's local removal equals removing from the displayed list: a delete
   * takes exactly that employee out of what the page shows, whatever the term.
   */
  lemma FilterAfterRemoval(employees: seq<Employee>, searchTerm: string, id: Option<int>)
    ensures FilterEmployees(RemoveById(employees, id), searchTerm) ==
            RemoveById(FilterEmployees(employees, searchTerm), id)
  {
    if !IsBlank(searchTerm) {
      Seqs.SelectCommutes(employees, e => Survives(e, id), e => Matches(e, Lower(searchTerm)));
    }
  }

  /** The page's own state: the list hook it reads, the table it renders, and the search term. */
  class ListPage {
    const hook: EmployeesHook
    const table: DeleteConfirmation
    var searchTerm: string

    constructor (hook: EmployeesHook, table: DeleteConfirmation)
      ensures this.hook == hook && this.table == table && searchTerm == ""
    {
      this.hook := hook;
      this.table := table;
      searchTerm := "";
    }

    /** `filteredEmployees`, the memoised list under the search bar. */
    function Displayed(): seq<Employee>
      reads this, hook
    {
      FilterEmployees(hook.employees, searchTerm)
    }

    /** `handleSearch(term)`: the term becomes the search term; the list itself is untouched. */
    method HandleSearch(term: string)
      modifies this
      ensures searchTerm == term
      ensures Displayed() == FilterEmployees(hook.employees, term)
    {
      searchTerm := term;
    }

    /** The "Clear Search" button: the term becomes '' and the whole list is displayed again. */
    method ClearSearch()
      modifies this
      ensures searchTerm == ""
      ensures Displayed() == hook.employees
    {
      searchTerm := "";
      FilterBlankIsIdentity(hook.employees, searchTerm);
    }

    /**
     * `handleDeleteEmployee(id)`: awaits the hook's delete and returns its result unchanged; on
     * success the displayed list loses exactly the entries carrying `id`.
     */
    method HandleDeleteEmployee(id: Option<int>, outcome: Outcome) returns (r: DeleteResult)
      modifies hook
      ensures hook.loading == old(hook.loading) && hook.error == old(hook.error)
      ensures outcome.Succeeded? ==>
                && r == DeleteResult(true, None)
                && hook.employees == RemoveById(old(hook.employees), id)
                && Displayed() == RemoveById(old(Displayed()), id)
      ensures outcome.Failed? ==>
                r == DeleteResult(false, Some(outcome.message)) && hook.employees == old(hook.employees)
    {
      r := hook.DeleteEmployee(id, outcome);
      FilterAfterRemoval(old(hook.employees), searchTerm, id);
    }

    /**
     * The table's `confirmDelete` with this page's `handleDeleteEmployee` as `onDelete`: with no
     * selection nothing changes and nothing is called; otherwise the selected employee's id is
     * deleted while its button is disabled, and the modal ends closed with nothing in flight.
     */
    method ConfirmDelete(outcome: Outcome) returns (r: Option<DeleteResult>, ghost disabledDuringCall: bool)
      modifies hook, table
      ensures old(table.selectedEmployee).None? ==>
                && r == None
                && hook.employees == old(hook.employees)
                && table.deletingId == old(table.deletingId)
                && table.showDeleteModal == old(table.showDeleteModal)
                && table.selectedEmployee == None
      ensures old(table.selectedEmployee).Some? ==>
                var id := old(table.selectedEmployee).value.id;
                && disabledDuringCall
                && r.Some? && r.value.success == outcome.Succeeded?
                && (outcome.Succeeded? ==> hook.employees == RemoveById(old(hook.employees), id))
                && (outcome.Failed? ==> hook.employees == old(hook.employees))
                && table.deletingId == Idle && !table.showDeleteModal && table.selectedEmployee == None
      ensures hook.loading == old(hook.loading) && hook.error == old(hook.error)
    {
      var call := table.BeginConfirm();
      if call.None? {
        return None, false;
      }
      disabledDuringCall := table.DeleteDisabled(table.selectedEmployee.value);
      var result := HandleDeleteEmployee(call.value, outcome);
      table.FinishConfirm();
      r := Some(result);
    }
  }
}
