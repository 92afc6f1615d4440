/** The employee object as the client receives it from the server and keeps it in its lists. */
module Records {
  import opened Wrappers

  /**
   * Every key of the JSON object may be missing (None). `underscoreId` stands for the `_id`
   * key, which the client's delete path also compares against.
   */
  datatype Employee = Employee(
    id: Option<int>,
    underscoreId: Option<int>,
    name: Option<string>,
    email: Option<string>,
    position: Option<string>,
    phone: Option<string>,
    department: Option<string>)
}
