/** Queue sampling: the listen-queue length of a PHP-FPM container's socket, read from
    `ss -lxnH` run inside its network namespace (`get_container_queue_length`,
    src/main.rs:154-204). */
module Sampler {
  import opened Errors
  import opened Text

  /** The Unix socket PHP-FPM listens on inside the container. */
  const PhpFpmSocket: string := "/var/run/php-fpm/www.socket"

  /** What `docker inspect -f {{.State.Pid}} <id>` produced. The PID itself only feeds
      the `nsenter` command line, so a found PID carries no payload here. */
  datatype PidReply =
    | PidSpawnFailed   // the command could not be executed
    | PidStatusFailed  // it exited with a non-success status
    | PidNotUtf8       // its standard output is not UTF-8
    | PidUnparsable    // its trimmed output is not a u32
    | PidFound         // a PID was read

  /** What `sudo nsenter -t <pid> -n ss -lxnH` produced. */
  datatype SsReply =
    | SsSpawnFailed             // the command could not be executed
    | SsStatusFailed            // it exited with a non-success status
    | SsNotUtf8                 // its standard output is not UTF-8
    | SsListing(stdout: string) // the socket listing, one socket per line

  /** The queue length a listing line reports: the line mentions the PHP-FPM socket and its
      third whitespace-separated field parses as an `i32`. */
  function LineQueue(line: string): Option<I32> {
    if !Contains(line, PhpFpmSocket) then None
    else
      var parts := SplitWhitespace(line);
      if |parts| >= 3 then ParseI32(parts[2]) else None
  }

  /** Line `k` is the first line of the listing that reports a queue length. */
  predicate FirstReporting(lines: seq<string>, k: int) {
    && 0 <= k < |lines|
    && LineQueue(lines[k]).Some?
    && forall j :: 0 <= j < k ==> LineQueue(lines[j]).None?
  }

  /** The scan over the listing: the value of the first reporting line, or 0 when no line
      reports one. Lines that mention the socket but are too short or carry a non-numeric
      third field are passed over. */
  function QueueFromLines(lines: seq<string>): (q: I32)
    ensures (exists k :: FirstReporting(lines, k) && q == LineQueue(lines[k]).value)
         || (q == 0 && forall i :: 0 <= i < |lines| ==> LineQueue(lines[i]).None?)
  {
    if lines == [] then 0
    else
      match LineQueue(lines[0])
      case Some(v) =>
        assert FirstReporting(lines, 0);
        v
      case None =>
        var q := QueueFromLines(lines[1..]);
        QueueAfterSilentLine(lines, q);
        q
  }

  /** A first line that reports nothing shifts the scan's witness by one. */
  lemma QueueAfterSilentLine(lines: seq<string>, q: I32)
    requires lines != [] && LineQueue(lines[0]).None?
    requires || (exists k :: FirstReporting(lines[1..], k) && q == LineQueue(lines[1..][k]).value)
             || (q == 0 && forall i :: 0 <= i < |lines[1..]| ==> LineQueue(lines[1..][i]).None?)
    ensures || (exists k :: FirstReporting(lines, k) && q == LineQueue(lines[k]).value)
            || (q == 0 && forall i :: 0 <= i < |lines| ==> LineQueue(lines[i]).None?)
  {
    var tail := lines[1..];
    if k :| FirstReporting(tail, k) && q == LineQueue(tail[k]).value {
      assert tail[k] == lines[k + 1];
      forall j | 0 <= j < k + 1
        ensures LineQueue(lines[j]).None?
      {
        if j > 0 {
          assert lines[j] == tail[j - 1];
        }
      }
      assert FirstReporting(lines, k + 1);
    } else {
      forall i | 0 <= i < |lines|
        ensures LineQueue(lines[i]).None?
      {
        if i > 0 {
          assert lines[i] == tail[i - 1];
        }
      }
    }
  }

  /** `get_container_queue_length`: PID lookup failures are errors; a failed `ss` run
      yields 0 rather than an error; otherwise the listing is scanned. */
  function SampleQueue(pid: PidReply, ss: SsReply): (r: Result<I32>)
    ensures !pid.PidFound? ==> r.Err?
    ensures pid.PidFound? && ss.SsStatusFailed? ==> r == Ok(0)
    ensures pid.PidFound? && ss.SsListing? ==> r == Ok(QueueFromLines(Lines(ss.stdout)))
    ensures r.Err? <==> !pid.PidFound? || ss.SsSpawnFailed? || ss.SsNotUtf8?
  {
    match pid
    case PidSpawnFailed => Err(PidSpawn)
    case PidStatusFailed => Err(PidStatus)
    case PidNotUtf8 => Err(InvalidUtf8)
    case PidUnparsable => Err(PidParse)
    case PidFound =>
      match ss
      case SsSpawnFailed => Err(NsenterSpawn)
      case SsStatusFailed => Ok(0)
      case SsNotUtf8 => Err(InvalidUtf8)
      case SsListing(stdout) => Ok(QueueFromLines(Lines(stdout)))
  }

  /** First-match semantics: once a block of lines reports a value, later lines are ignored;
      a block that reports nothing leaves the result to the lines after it. */
  lemma {:induction false} QueueFromLinesAppend(a: seq<string>, b: seq<string>)
    ensures (exists i :: 0 <= i < |a| && LineQueue(a[i]).Some?) ==> QueueFromLines(a + b) == QueueFromLines(a)
    ensures (forall i :: 0 <= i < |a| ==> LineQueue(a[i]).None?) ==> QueueFromLines(a + b) == QueueFromLines(b)
  {
    if a == [] {
      assert a + b == b;
    } else {
      assert (a + b)[0] == a[0];
      assert (a + b)[1..] == a[1..] + b;
      QueueFromLinesAppend(a[1..], b);
      if LineQueue(a[0]).None? {
        if i :| 0 <= i < |a| && LineQueue(a[i]).Some? {
          assert LineQueue(a[1..][i - 1]).Some?;
        }
        if forall i :: 0 <= i < |a| ==> LineQueue(a[i]).None? {
          assert forall i :: 0 <= i < |a[1..]| ==> a[1..][i] == a[i + 1];
        }
      }
    }
  }

  /** A listing row whose fields include the PHP-FPM socket path reports exactly what its
      third field parses to, however its columns are padded: a numeral gives its value
      (a leading '-' included), anything else makes the row one that is passed over. */
  lemma SocketRowQueue(fields: seq<string>, gaps: seq<string>, k: nat)
    requires forall i :: 0 <= i < |fields| ==> IsField(fields[i])
    requires IsGaps(gaps, |fields|)
    requires |fields| >= 3 && k < |fields| && fields[k] == PhpFpmSocket
    ensures LineQueue(Columns(fields, gaps)) == ParseI32(fields[2])
  {
    SplitColumns(fields, gaps);
    ColumnsHasField(fields, gaps, k);
  }

  /** Every field of a padded row occurs in it. */
  lemma {:induction false} ColumnsHasField(fields: seq<string>, gaps: seq<string>, k: nat)
    requires |gaps| == |fields| + 1 && k < |fields|
    ensures Contains(Columns(fields, gaps), fields[k])
  {
    var rest := Columns(fields[1..], gaps[1..]);
    assert Columns(fields, gaps) == gaps[0] + fields[0] + rest;
    if k == 0 {
      ContainsInfix(gaps[0], fields[0], rest);
    } else {
      ColumnsHasField(fields[1..], gaps[1..], k - 1);
      ContainsAfter(gaps[0] + fields[0], rest, fields[k]);
    }
  }

  /** A listing with no line that reports a queue length, the empty listing included,
      samples as 0. */
  lemma NoReportingLineGivesZero(stdout: string)
    requires forall i :: 0 <= i < |Lines(stdout)| ==> LineQueue(Lines(stdout)[i]).None?
    ensures SampleQueue(PidFound, SsListing(stdout)) == Ok(0)
  {
  }
}
