/** What an admin action answers (the controllers' `IActionResult`s). */
module Actions {
  import opened Entities

  datatype ActionResult =
    | RedirectToIndex(succeeded: bool)  // back to the list, with a success or an error message
    | ShowForm                          // the form again, with its validation messages
    | NotFound
    | Crash(error: DbError)             // an exception the action does not catch
}
