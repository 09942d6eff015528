/** The duration labels accepted by the `duration` enum of both the reserved-slot
    schema and the embedded booking schema (the two lists are identical). */
module Durations {

  const DurationLabels: seq<string> := ["30 min", "1 hr", "2 hrs", "3 hrs", "4 hrs", "Full Day"]

  predicate IsDurationLabel(name: string)
  {
    name in DurationLabels
  }
}
