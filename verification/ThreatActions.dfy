/** What the threat engine decides about an event, as counted by the metrics and stored with alerts. */
module ThreatActions {
  datatype ThreatAction = Allow | Monitor | Block | CriticalAlert
}
