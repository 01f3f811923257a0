/**
 * The result of a modal Qt dialog, as the dialogs of the application use it.
 */
module Dialog {
  /** Still open, closed by `accept()`, or closed by `reject()`. */
  datatype DialogResult = Open | Accepted | Rejected
}
