/** The overall statuses of a session. */
module Status {

  datatype Status =
    | Idle | Starting | WaitingForDevice | Monitoring | InProgress | Cancelled | Stopping
    | Validating | Complete | Proceed | DoNotProceed

  /** `STATUSES_COMPLETE`: after publishing one of these, the session publishes nothing more. */
  predicate Terminal(s: Status) {
    s in {Cancelled, Complete, DoNotProceed, Proceed, Idle}
  }

  /** The statuses in which a run may not be started, and may be stopped. */
  predicate Running(s: Status) {
    s in {InProgress, WaitingForDevice, Monitoring, Validating, Starting}
  }

  /** The statuses in which the target device may be edited and deleted. */
  predicate Finished(s: Status) {
    s in {Cancelled, Complete, Proceed, DoNotProceed}
  }
}
