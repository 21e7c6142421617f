/** The scanner's configuration constants (utils/contants.py). */
module Constants {

  /** Per-request timeout, in seconds, that the command line passes in. */
  const Timeout: int := 5
  /** Timeout used when the caller gives none. */
  const TimeoutDefault: int := 60
  /** Attempts allowed per URL before its record is an error. */
  const LimitOfAttemptsToRetry: int := 5
  /** Capacity of the semaphore that bounds the fetches in flight. */
  const SimultaneousConcurrentTasks: int := 51
  /** What one failed attempt takes from the budget and adds to the failure counter. */
  const RequestsRetriesNumToRemove: int := 1

  const StatusCodeDefault: int := 0
  const ContentLengthDefault: int := 0
  const StreamReaderDefault: int := 0
  const BodyLengthDefault: int := 0

  const UserAgent: string :=
    "Mozilla/5.0 (Windows NT 10.0; WOW64) AppleWebKit/537.36 (KHTML, like Gecko)"
    + " Chrome/85.0.4183.102 Safari/537.36"
}
