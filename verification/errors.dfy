/** Failure values of the sampling pipeline and a failure-compatible Result for `:-`.

    Each constructor of Error names one place where the agent returns an error with `?`
    or `bail!`; the monitoring loop only logs them. */
module Errors {

  datatype Error =
    | DockerPsSpawn      // `docker ps -q` could not be executed
    | DockerPsStatus     // `docker ps -q` exited with a non-success status
    | InspectSpawn       // `docker inspect ... {{json .Config.Cmd}}` could not be executed
    | InspectJsonParse   // the launch command printed by docker inspect is not JSON
    | PidSpawn           // `docker inspect -f {{.State.Pid}}` could not be executed
    | PidStatus          // that inspect exited with a non-success status
    | PidParse           // its output is not a u32
    | NsenterSpawn       // `sudo nsenter ... ss -lxnH` could not be executed
    | InvalidUtf8        // some command printed bytes that are not UTF-8

  /** Either a value or the error that aborted the computation. */
  datatype Result<+T> = Ok(value: T) | Err(error: Error) {

    predicate IsFailure() {
      Err?
    }

    function PropagateFailure<U>(): Result<U>
      requires Err?
    {
      Err(error)
    }

    function Extract(): T
      requires Ok?
    {
      value
    }
  }

  datatype Option<+T> = None | Some(value: T)
}
