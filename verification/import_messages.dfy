/**
 * The outcomes an import records in its status ledger. Each constructor stands
 * for one localized message of MessagesUtils; the text itself is left out.
 */
module ImportMessages {
  import opened Wrappers

  datatype Message =
    /** `formatFailedDuplicateJobName`: a local item already has the name. */
    | FailedDuplicate
    /** `formatFailedException(e)`: the import threw; `message` is `e.getMessage()`. */
    | FailedException(message: Option<string>)
    /** `formatFailedNotAProject`: the fetched configuration is not a project. */
    | FailedNotAProject
    /** `formatSuccess`: the item was created. */
    | Succeeded
}
