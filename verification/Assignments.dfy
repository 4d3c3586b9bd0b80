/** The states of an assignment, as the coordinator records them. */
module Assignments {

  datatype AssignmentState = Offered | Claimed | Unknown | Completed | Released
}
