/** Times are in nanoseconds, as in Go's `time.Duration`. */
module Durations {
  const SECOND := 1_000_000_000
  const MINUTE := 60 * SECOND
  const HOUR := 60 * MINUTE
  const DAY := 24 * HOUR

  /** How long an access decision is cached (internal/acl/acl.go). */
  const DECISION_TTL := 5 * MINUTE
}
