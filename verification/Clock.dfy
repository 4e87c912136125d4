/** The clock helpers of src/common/util.c: absolute deadlines from relative timeouts and back. */
module Clock {

  /** struct timeval. Nothing forces `usec` below one million; `Normal` says when it is. */
  datatype Timeval = Timeval(sec: int, usec: int)

  const MILLION := 1000000

  predicate Normal(t: Timeval) {
    0 <= t.usec < MILLION
  }

  /** The instant (or length of time) a timeval denotes, in microseconds. */
  function Micros(t: Timeval): int {
    t.sec * MILLION + t.usec
  }

  function FromTimeout(now: Timeval, timeout: Timeval): Timeval {
    Timeval(now.sec + timeout.sec, now.usec + timeout.usec)
  }

  /** What timeout_from_timestamp() returns, and what it leaves in *timeout. */
  datatype Left = Left(err: int, timeout: Timeval)

  function Remaining(now: Timeval, timestamp: Timeval): Left {
    if timestamp.sec >= now.sec && timestamp.usec >= now.usec then
      Left(0, Timeval(timestamp.sec - now.sec, timestamp.usec - now.usec))
    else if timestamp.sec > now.sec && timestamp.usec < now.usec then
      Left(0, Timeval(timestamp.sec - now.sec - 1, MILLION + timestamp.usec - now.usec))
    else
      Left(1, Timeval(0, 0))
  }

  predicate Past(now: Timeval, timestamp: Timeval) {
    Remaining(now, timestamp).err != 0
  }

  /** timestamp_from_timeout(): `now` is what gettimeofday() stores into *timestamp first. */
  method TimestampFromTimeout(now: Timeval, timeout: Timeval) returns (timestamp: Timeval)
    ensures timestamp == FromTimeout(now, timeout)
    ensures Micros(timestamp) == Micros(now) + Micros(timeout)
    ensures Normal(now) && Normal(timeout) ==> (Normal(timestamp) <==> now.usec + timeout.usec < MILLION)
  {
    timestamp := now;
    timestamp := timestamp.(sec := timestamp.sec + timeout.sec);
    timestamp := timestamp.(usec := timestamp.usec + timeout.usec);
  }

  /** timeout_from_timestamp(): *timeout starts out as the current time and is rewritten. */
  method TimeoutFromTimestamp(now: Timeval, timestamp: Timeval) returns (err: int, timeout: Timeval)
    ensures Left(err, timeout) == Remaining(now, timestamp)
    ensures err == 0 ==> Micros(now) + Micros(timeout) == Micros(timestamp)
    ensures Normal(now) && Normal(timestamp) ==> Normal(timeout) && (err == 0 <==> Micros(now) <= Micros(timestamp))
  {
    timeout := now;
    if timestamp.sec >= timeout.sec && timestamp.usec >= timeout.usec {
      timeout := Timeval(timestamp.sec - timeout.sec, timestamp.usec - timeout.usec);
    } else if timestamp.sec > timeout.sec && timestamp.usec < timeout.usec {
      timeout := Timeval(timestamp.sec - timeout.sec - 1, MILLION + timestamp.usec - timeout.usec);
    } else {
      timeout := Timeval(0, 0);
      return 1, timeout;
    }
    return 0, timeout;
  }

  /** For a normalised clock and whole-second timeouts the two helpers invert each other:
      the deadline counts as past exactly when it is, and otherwise the time left runs up to it. */
  lemma DeadlineRoundTrip(due: Timeval, timeout: Timeval, now: Timeval)
    requires Normal(due) && Normal(now) && timeout.usec == 0
    ensures
      var deadline := FromTimeout(due, timeout);
      var left := Remaining(now, deadline);
      && (left.err == 0 <==> Micros(now) <= Micros(due) + Micros(timeout))
      && (left.err == 0 ==>
            Normal(left.timeout) && Micros(now) + Micros(left.timeout) == Micros(due) + Micros(timeout))
      && (now == due && timeout.sec >= 0 ==> left.timeout == timeout)
  {
  }

  /** timestamp_from_timeout() never carries, so a deadline may have up to 1999999 microseconds.
      Against such a deadline the verdict is wrong exactly in the carried second. */
  lemma PastVerdict(now: Timeval, deadline: Timeval)
    requires Normal(now) && 0 <= deadline.usec < 2 * MILLION
    ensures (Past(now, deadline) <==> Micros(deadline) < Micros(now))
       <==> !(deadline.sec + 1 == now.sec && deadline.usec - MILLION >= now.usec)
  {
  }

  /** A concrete deadline half a second ahead that timeout_from_timestamp() calls past. */
  lemma PastVerdictCanBeWrong()
    ensures
      var deadline := FromTimeout(Timeval(10, 999999), Timeval(0, 500001));
      Past(Timeval(11, 0), deadline) && Micros(Timeval(11, 0)) < Micros(deadline)
  {
  }
}
