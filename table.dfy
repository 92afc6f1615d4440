/**
 * The delete-confirmation state of the employee table: the selected employee, whether the
 * modal is open, and the id whose deletion is in flight. `confirmDelete` awaits the parent's
 * `onDelete`; its two halves are `BeginConfirm` (up to the call) and `FinishConfirm` (after it).
 */
module EmployeeTable {
  import opened Wrappers
  import opened Records

  /** `deletingId`: null, or the id (possibly undefined) whose deletion is in flight. */
  datatype Pending = Idle | Deleting(id: Option<int>)

  class DeleteConfirmation {
    var deletingId: Pending
    var showDeleteModal: bool
    var selectedEmployee: Option<Employee>

    constructor ()
      ensures deletingId == Idle && !showDeleteModal && selectedEmployee == None
    {
      deletingId, showDeleteModal, selectedEmployee := Idle, false, None;
    }

    /** `deletingId === employee.id`: the rule that disables an employee's delete button. */
    predicate DeleteDisabled(e: Employee)
      reads this
    {
      deletingId == Deleting(e.id)
    }

    /** `handleDeleteClick(e)`: select `e` and open the modal. */
    method HandleDeleteClick(e: Employee)
      modifies this
      ensures selectedEmployee == Some(e) && showDeleteModal && deletingId == old(deletingId)
    {
      selectedEmployee := Some(e);
      showDeleteModal := true;
    }

    /**
     * `confirmDelete` up to the await: with no selection nothing happens and `call` is None;
     * otherwise `call` carries the id `onDelete` is called with, and that id is marked in flight.
     */
    method BeginConfirm() returns (call: Option<Option<int>>)
      modifies this
      ensures showDeleteModal == old(showDeleteModal) && selectedEmployee == old(selectedEmployee)
      ensures selectedEmployee.None? ==> call.None? && deletingId == old(deletingId)
      ensures selectedEmployee.Some? ==>
                call == Some(selectedEmployee.value.id) && deletingId == Deleting(selectedEmployee.value.id)
      ensures selectedEmployee.Some? ==> DeleteDisabled(selectedEmployee.value)
    {
      if selectedEmployee.None? {
        return None;
      }
      deletingId := Deleting(selectedEmployee.value.id);
      call := Some(selectedEmployee.value.id);
    }

    /** `confirmDelete` after `onDelete` resolves: clear the flight marker, close the modal, drop the selection. */
    method FinishConfirm()
      modifies this
      ensures deletingId == Idle && !showDeleteModal && selectedEmployee == None
      ensures forall e :: !DeleteDisabled(e)
    {
      deletingId := Idle;
      showDeleteModal := false;
      selectedEmployee := None;
    }

    /** `cancelDelete`: close the modal and drop the selection; no deletion starts. */
    method CancelDelete()
      modifies this
      ensures !showDeleteModal && selectedEmployee == None && deletingId == old(deletingId)
    {
      showDeleteModal := false;
      selectedEmployee := None;
    }
  }
}
