// The states of runs and approvals.

module RunStates {
  datatype RunStatus = Queued | Running | Suspended | Completed | Failed

  datatype ApprovalStatus = Pending | Approved | Rejected
}
