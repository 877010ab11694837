# php-fpm-queue-monitor — a verified model of the sampling pipeline

The agent runs on a Docker host. On every tick it does four things:

1. It lists the running containers (`docker ps -q`).
2. It keeps the containers whose launch command holds the exact token `php-fpm`.
3. For each of those, it reads the listen-queue length of the Unix socket
   `/var/run/php-fpm/www.socket` from `ss -lxnH`, run inside the container's network
   namespace.
4. It adds up the queue lengths. It sends the total to CloudWatch as the metric
   `ListenQueue`, but only when the total is positive and dry-run mode is off.

This project models the deterministic core of that pipeline in Dafny as pure functions.
Every subprocess the agent starts becomes an input datatype. Each alternative of that
datatype is one outcome the Rust code distinguishes: the command could not be spawned,
it exited with a failure status, its output was not UTF-8, or it produced output.

Modules, one per stage of `src/main.rs`:

- `Errors` (errors.dfy): the error kinds the pipeline propagates with `?`, plus
  `Result` and `Option`.
- `Text` (text.dfy): the `str` operations the agent relies on, over `seq<char>`. These
  are `lines`, `trim`, `contains`, `split_whitespace`, `split_once` and `parse::<i32>`.
  Whitespace means Unicode White_Space, as `char::is_whitespace` defines it.
- `Containers` (containers.dfy): `get_docker_container_ids`.
- `Classifier` (classifier.dfy): `is_php_fpm_container`, over an already-parsed JSON value.
- `Sampler` (sampler.dfy): `get_container_queue_length`.
- `Aggregator` (aggregator.dfy): `collect_php_fpm_queue_length`. A `Host` is a total
  function from a container ID to what the host answers about that container during the
  tick: its inspect reply, its PID lookup and its socket listing. The `i32` accumulator
  wraps around on overflow, as `+=` does in a release build.
- `Reporting` (reporting.dfy): the send/skip gate of `collect_and_send_metrics`, the
  dimension loop of `send_cloudwatch_metric`, and one whole tick (`Tick`). A tick ends in
  an `Action`: `Idle`, `LogOnly` (dry run) or `PutMetricData`.
- `Scenarios` (scenarios.dfy): one concrete three-container tick, worked out from the
  lemmas above.

In four places the code behaves in a way a reader might not expect. The model follows the
code in each:

- A failure to classify or sample one container is propagated with `?`. It aborts the
  whole tick (src/main.rs:101-102). It is not isolated to that container.
- Inspect output that is not valid JSON is an error (src/main.rs:141-142). It is not a
  "not PHP-FPM" answer.
- The queue field is parsed with `parse::<i32>`, which accepts a leading `+` or `-`
  (src/main.rs:196). A negative queue length is therefore possible.
- A socket line whose third field does not parse is passed over, and the scan goes on to
  later lines (src/main.rs:195-199). It does not make the sample 0 at once.

## Model

| member | source | states |
|---|---|---|
| Text.Trim | src/main.rs:122-123 | `trim` gives an infix of its input with only whitespace cut off either side, neither end of the result is whitespace, and the result is empty exactly when the input is all whitespace |
| Text.TrimPadding | src/main.rs:122-123 | trimming whitespace padding off an already trimmed string gives that string back |
| Text.Lines | src/main.rs:120-121 | no line `lines` yields holds a '\n', and only the empty text has no lines |
| Text.LinesUnlines | src/main.rs:120-121 | splitting text printed one item per line gives back exactly those items, in order |
| Text.Contains | src/main.rs:192 | `contains` holds exactly when the pattern occurs at some position of the line |
| Text.SplitWhitespace | src/main.rs:194 | every field `split_whitespace` yields is a non-empty run of non-whitespace characters |
| Text.SplitColumns | src/main.rs:194 | splitting a row whose fields are separated by non-empty runs of whitespace, with optional whitespace before the first and after the last, gives back exactly its fields, in order |
| Text.SplitWhitespaceColumns | src/main.rs:194 | conversely, every line is its `split_whitespace` fields with whitespace runs around and between them, so the fields are exactly the line's maximal non-whitespace runs |
| Text.SplitOnce | src/main.rs:215 | `split_once('=')` fails exactly when there is no '='; otherwise the argument is key, '=', value, with no '=' in the key |
| Text.ParseI32 | src/main.rs:196 | `parse::<i32>` accepts only an optional sign followed by digits, and a negative result needs a leading '-' |
| Text.ParseI32FormatNat | src/main.rs:196 | a printed numeral that fits in `i32`, with or without a leading '-', parses back to its value |
| Text.ParseI32RejectsOverflow | src/main.rs:196 | a numeral above `i32::MAX` is rejected, not wrapped |
| Containers.LineId | src/main.rs:122-123 | a line yields an ID exactly when it is not blank, and the ID is the trimmed line |
| Containers.NonBlankTrimmed | src/main.rs:120-124 | no more IDs than lines, and every ID is non-empty with no surrounding whitespace |
| Containers.ContainerIds | src/main.rs:110-127 | a spawn failure, a failure status or non-UTF-8 output is the matching error; otherwise every ID is non-empty and trimmed |
| Containers.NonBlankTrimmedMembers | src/main.rs:120-124 | a string is an ID exactly when it is non-empty and is the trimmed form of some line |
| Containers.NonBlankTrimmedAppend | src/main.rs:120-124 | the IDs of two blocks of output are those of the first followed by those of the second, so input order is kept and blank lines drop out |
| Containers.ContainerIdsRoundTrip | src/main.rs:110-127 | IDs printed one per line by `docker ps -q` are recovered exactly and in order |
| Classifier.AsStr | src/main.rs:147 | `as_str` succeeds exactly on JSON strings and returns their text |
| Classifier.AnyMarker | src/main.rs:146-148 | the scan finds a token exactly when the string "php-fpm" is an element of the array |
| Classifier.IsPhpFpmCommand | src/main.rs:144-151 | a command is PHP-FPM exactly when it is a JSON array with an element equal to the string "php-fpm"; anything that is not an array is not |
| Classifier.Classify | src/main.rs:129-152 | Ok(true) exactly for a parsed PHP-FPM command; a failure status gives Ok(false); a spawn failure, non-UTF-8 output or unparsable JSON is an error |
| Classifier.OnlyExactTokenMatches | src/main.rs:146-148 | adding or removing a token that is not exactly "php-fpm" never changes the verdict, so neither a superstring, a prefix nor a non-string token matches |
| Sampler.QueueFromLines | src/main.rs:190-203 | the value is that of the first line that mentions the socket and has a third field parsing as `i32`, or 0 when no line does |
| Sampler.SampleQueue | src/main.rs:154-204 | a PID lookup failure is an error; a failure status of `ss` gives 0; a listing is scanned; the result is an error exactly when the PID lookup fails or `ss` cannot be spawned or decoded |
| Sampler.QueueFromLinesAppend | src/main.rs:191-201 | first-match semantics: once a block of lines reports a value, later lines are ignored; a block that reports nothing leaves the value to later lines |
| Sampler.SocketRowQueue | src/main.rs:192-199 | a row that holds the socket path, with its columns padded by any runs of whitespace as `ss` prints them, reports exactly what its third field parses to, including negative values, and is passed over when that field does not parse |
| Sampler.NoReportingLineGivesZero | src/main.rs:191-203 | a listing with no reporting line, the empty listing included, samples as 0 |
| Aggregator.WrapI32 | src/main.rs:103 | the `i32` wrap-around is congruent to its argument modulo 2^32 and is the identity on values that fit |
| Aggregator.WrapAddWrap | src/main.rs:103 | wrapping after every addition ends where wrapping once at the end does |
| Aggregator.CollectQueueLength | src/main.rs:96-108 | the aggregate fails exactly when some container's classification or sampling fails, and then with the first such container's error and no partial total |
| Aggregator.OneFailureAborts | src/main.rs:100-105 | a single container whose classification or sampling fails makes the whole aggregate fail, whatever the other containers report |
| Aggregator.CollectFromErrors | src/main.rs:100-105 | the loop fails exactly when some contribution failed, and then with the first failure's error |
| Aggregator.CollectSumsPhpFpm | src/main.rs:96-108 | without errors the aggregate is the wrapped sum of the queue lengths of exactly the containers classified as PHP-FPM, and exactly that sum when it fits in `i32` |
| Aggregator.CollectAllZero | src/main.rs:96-108 | when every container contributes 0, the empty listing included, the aggregate is 0 |
| Aggregator.CollectPermutation | src/main.rs:100-105 | reordering the container IDs does not change whether the aggregate fails, nor its value when it succeeds |
| Reporting.ParseDimension | src/main.rs:215-224 | an argument without '=' gives no dimension; otherwise it splits at its first '=' and both halves are trimmed |
| Reporting.DimensionOf | src/main.rs:215-224 | an argument contributes at most one dimension, none exactly when it has no '=', and the one it contributes is its parsed `key=value` pair |
| Reporting.ParseDimensions | src/main.rs:214-225 | never more dimensions than arguments, and every dimension is the parsed pair of some argument |
| Reporting.WellFormedDimensions | src/main.rs:214-225 | when every argument holds '=', argument `i` gives dimension `i`: its key and value split at the first '=' and trimmed |
| Reporting.ParseDimensionsAppend | src/main.rs:214-225 | the dimensions of two argument lists are those of the first followed by those of the second, so argument order is kept |
| Reporting.MalformedDimensionDropped | src/main.rs:214-225 | an argument without '=' is dropped without changing the dimensions of the others |
| Reporting.ParseDimensionRoundTrip | src/main.rs:215-221 | `key=value` with whitespace around either half gives back exactly the trimmed key and value, even when the value holds '=' |
| Reporting.Decide | src/main.rs:83-91 | a metric is sent exactly when the total is positive and dry-run is off; it is only logged exactly when the total is positive in dry-run; nothing happens exactly when the total is at most 0; the metric carries the namespace, the name `ListenQueue`, the total and the parsed dimensions |
| Reporting.Tick | src/main.rs:75-94 | an enumeration or aggregation error ends the tick with that error and nothing is reported; otherwise the tick does what the gate decides for the total |
| Reporting.ZeroBacklogIsIdle | src/main.rs:83-91 | when every container contributes 0, the tick succeeds and sends and logs nothing |
| Reporting.NoContainersIsIdle | src/main.rs:96-108 | with no running containers a tick succeeds and reports nothing |
| Scenarios.ThreeContainerTick | src/main.rs:75-108 | three containers: one PHP-FPM with 5 queued connections, one other workload, and one PHP-FPM whose listing has no socket row; the tick sends a single metric of value 5 |

## Left out

- Running `docker ps`, `docker inspect`, `sudo nsenter … ss` and reading their exit
  statuses are foreign I/O. Each outcome the code tells apart is an alternative of the
  `PsReply`, `InspectReply`, `PidReply` and `SsReply` datatypes.
- UTF-8 decoding of command output (`String::from_utf8`) is a library call. Only its
  failure is modelled, as the `…NotUtf8` alternatives.
- The `serde_json` parsing of the inspect output is a library call. A reply carries
  either the parsed value (`Json`) or the parse failure.
- The PID itself and its `u32` parsing (src/main.rs:165-168) only feed the `nsenter`
  command line. A PID lookup is either found or failed in one of four ways.
- The CloudWatch client, the AWS configuration, and the `PutMetricData` call with its
  error are network I/O. A tick ends at the `Action` it would perform.
- `value as f64` (src/main.rs:230) is floating point. It is exact for every `i32`, so
  the datum keeps the `i32` value.
- The tokio interval loop, clap argument parsing, and the `tracing` log lines are
  scheduling, command-line and logging plumbing. This includes the warnings for an
  uninspectable container, a failed `ss` run and a malformed dimension.
- Aggregator.CollectQueueLength: `+=` on the `i32` total is modelled as the release-build
  wrap-around. A debug build panics on overflow instead, and that is not modelled.
