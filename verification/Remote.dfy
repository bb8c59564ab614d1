/** How a remote call that changes something ends. */
module Remote {
  /** `Lost` took effect, but is reported as a failure. */
  datatype Outcome = Confirmed | Failed | Lost {
    predicate Acts() {
      !Failed?
    }
  }
}
