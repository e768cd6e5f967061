/** What the command line fixes before anything runs. */
module Settings {

  const TIMEOUT_MIN_SUPPORTED_VALUE := 1
  const TIMEOUT_MAX_SUPPORTED_VALUE := 100000000

  /** externalPid is true when an existing process is supervised instead of a command of our own. */
  datatype Settings = Settings(externalPid: bool, userIdleTimeoutMs: nat, startMonitorAfterMs: nat) {
    /** The timeouts the option parser accepts, in milliseconds. */
    predicate Accepted() {
      TIMEOUT_MIN_SUPPORTED_VALUE * 1000 <= userIdleTimeoutMs <= TIMEOUT_MAX_SUPPORTED_VALUE * 1000
    }
  }
}
