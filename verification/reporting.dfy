/** One tick of the monitoring loop: collect the total, then decide whether to send it to
    CloudWatch, only log it (dry run) or do nothing (`collect_and_send_metrics`,
    src/main.rs:75-94), and the metric that would be sent (`send_cloudwatch_metric`,
    src/main.rs:206-246). */
module Reporting {
  import opened Errors
  import opened Text
  import opened Containers
  import opened Aggregator

  /** The name of the one metric the agent publishes. */
  const MetricName: string := "ListenQueue"

  /** The settings the command line supplies that a tick reads. */
  datatype Config = Config(namespace: string, dimensions: seq<string>, dryRun: bool)

  datatype Dimension = Dimension(name: string, value: string)

  datatype StandardUnit = Count

  /** The one data point of a `PutMetricData` call; `storageResolution` 1 asks for a
      high-resolution metric. */
  datatype MetricDatum = MetricDatum(
    metricName: string,
    unit: StandardUnit,
    value: I32,
    storageResolution: nat,
    dimensions: seq<Dimension>)

  /** What a successful tick does once the total is known. */
  datatype Action =
    | Idle                                                   // nothing is sent or logged as sent
    | LogOnly(total: I32)                                    // dry run: "Would send metric"
    | PutMetricData(namespace: string, datum: MetricDatum)   // one CloudWatch call

  // ---------------------------------------------------------------------------
  // Dimensions
  // ---------------------------------------------------------------------------

  /** One `key=value` argument: split at the first '=', both halves trimmed; an argument
      without '=' gives no dimension. */
  function ParseDimension(arg: string): (d: Option<Dimension>)
    ensures d.None? <==> '=' !in arg
    ensures d.Some? ==> exists key, value :: && arg == key + "=" + value
                                            && '=' !in key
                                            && d.value == Dimension(Trim(key), Trim(value))
  {
    match SplitOnce(arg, '=')
    case None => None
    case Some((key, value)) => Some(Dimension(Trim(key), Trim(value)))
  }

  /** The dimension loop of `send_cloudwatch_metric`: the well-formed arguments' dimensions,
      in argument order; malformed arguments are skipped with a warning. */
  function ParseDimensions(args: seq<string>): (dims: seq<Dimension>)
    ensures |dims| <= |args|
    ensures forall d :: d in dims ==> exists a :: a in args && ParseDimension(a) == Some(d)
  {
    if args == [] then [] else DimensionOf(args[0]) + ParseDimensions(args[1..])
  }

  /** The dimensions one argument contributes: none or one. */
  function DimensionOf(arg: string): (ds: seq<Dimension>)
    ensures |ds| <= 1 && (ds == [] <==> '=' !in arg)
    ensures ds != [] ==> ParseDimension(arg) == Some(ds[0])
  {
    match ParseDimension(arg)
    case None => []
    case Some(d) => [d]
  }

  /** The dimensions of two argument lists are the first list's followed by the second's. */
  lemma {:induction false} ParseDimensionsAppend(a: seq<string>, b: seq<string>)
    ensures ParseDimensions(a + b) == ParseDimensions(a) + ParseDimensions(b)
  {
    if a == [] {
      assert a + b == b;
    } else {
      ParseDimensionsCons(a, b);
      ParseDimensionsAppend(a[1..], b);
      var head := DimensionOf(a[0]);
      var x := ParseDimensions(a[1..]);
      var y := ParseDimensions(b);
      assert ParseDimensions(a + b) == head + (x + y);
      assert ParseDimensions(a) == head + x;
      ConcatAssoc(head, x, y);
    }
  }

  lemma ParseDimensionsCons(a: seq<string>, b: seq<string>)
    requires a != []
    ensures ParseDimensions(a + b) == DimensionOf(a[0]) + ParseDimensions(a[1..] + b)
  {
    assert (a + b)[0] == a[0];
    assert (a + b)[1..] == a[1..] + b;
  }

  /** When every argument holds '=', each one contributes its own dimension at its own
      position. */
  lemma {:induction false} WellFormedDimensions(args: seq<string>)
    requires forall j :: 0 <= j < |args| ==> '=' in args[j]
    ensures |ParseDimensions(args)| == |args|
    ensures forall i :: 0 <= i < |args| ==> Some(ParseDimensions(args)[i]) == ParseDimension(args[i])
  {
    if args != [] {
      var tail := args[1..];
      assert forall j :: 0 <= j < |tail| ==> '=' in tail[j] by {
        forall j | 0 <= j < |tail|
          ensures '=' in tail[j]
        {
          assert tail[j] == args[j + 1];
        }
      }
      WellFormedDimensions(tail);
      var rest := ParseDimensions(tail);
      var d := ParseDimension(args[0]).value;
      var dims := ParseDimensions(args);
      assert dims == [d] + rest;
      forall i | 0 <= i < |args|
        ensures Some(dims[i]) == ParseDimension(args[i])
      {
        if i > 0 {
          assert dims[i] == rest[i - 1];
          assert args[i] == tail[i - 1];
        }
      }
    }
  }

  /** A malformed argument is dropped without changing the dimensions of the others. */
  lemma MalformedDimensionDropped(before: seq<string>, bad: string, after: seq<string>)
    requires '=' !in bad
    ensures ParseDimensions(before + [bad] + after) == ParseDimensions(before + after)
  {
    var x := ParseDimensions(before);
    var y := ParseDimensions(after);
    ParseDimensionsAppend(before + [bad], after);
    ParseDimensionsAppend(before, [bad]);
    ParseDimensionsAppend(before, after);
    assert ParseDimensions([bad]) == DimensionOf(bad) + ParseDimensions([]);
    assert ParseDimensions(before + [bad]) == x + [];
    assert x + [] == x;
  }

  /** `key=value`, with optional whitespace around either half, gives back exactly the
      trimmed key and value; the value may itself contain '='. */
  lemma ParseDimensionRoundTrip(key: string, value: string, p1: string, p2: string, p3: string, p4: string)
    requires IsTrimmed(key) && IsTrimmed(value) && '=' !in key
    requires AllWhitespace(p1) && AllWhitespace(p2) && AllWhitespace(p3) && AllWhitespace(p4)
    ensures ParseDimension(p1 + key + p2 + "=" + p3 + value + p4) == Some(Dimension(key, value))
  {
    var left := p1 + key + p2;
    var right := p3 + value + p4;
    var arg := p1 + key + p2 + "=" + p3 + value + p4;
    assert arg == left + "=" + right;
    assert IsWhitespace('=') == false;
    assert '=' !in left by {
      assert forall i :: 0 <= i < |left| ==> left[i] != '=' by {
        forall i | 0 <= i < |left|
          ensures left[i] != '='
        {
          if i < |p1| {
            assert left[i] == p1[i];
          } else if i < |p1| + |key| {
            assert left[i] == key[i - |p1|];
          } else {
            assert left[i] == p2[i - |p1| - |key|];
          }
        }
      }
    }
    SplitAtFirst(left, right);
    TrimPadding(p1, key, p2);
    TrimPadding(p3, value, p4);
  }

  /** Splitting `left=right` at the first '=' gives back `left` when it holds no '='. */
  lemma {:induction false} SplitAtFirst(left: string, right: string)
    requires '=' !in left
    ensures SplitOnce(left + "=" + right, '=') == Some((left, right))
  {
    var s := left + "=" + right;
    if left == [] {
      assert s == "=" + right;
      assert s[1..] == right;
    } else {
      assert s[0] == left[0];
      assert s[1..] == left[1..] + "=" + right;
      SplitAtFirst(left[1..], right);
      assert [left[0]] + left[1..] == left;
    }
  }

  // ---------------------------------------------------------------------------
  // The send / skip gate and one tick
  // ---------------------------------------------------------------------------

  /** The data point `send_cloudwatch_metric` builds for a total. */
  function Datum(total: I32, cfg: Config): MetricDatum {
    MetricDatum(MetricName, Count, total, 1, ParseDimensions(cfg.dimensions))
  }

  /** The gate of `collect_and_send_metrics`: only a strictly positive total is reported,
      and in dry-run mode it is only logged. */
  function Decide(total: I32, cfg: Config): (a: Action)
    ensures a.PutMetricData? <==> total > 0 && !cfg.dryRun
    ensures a.LogOnly? <==> total > 0 && cfg.dryRun
    ensures a.Idle? <==> total <= 0
    ensures a.LogOnly? ==> a.total == total
    ensures a.PutMetricData? ==> && a.namespace == cfg.namespace
                                 && a.datum.metricName == MetricName
                                 && a.datum.value == total
                                 && a.datum.dimensions == ParseDimensions(cfg.dimensions)
  {
    if total > 0 then
      if cfg.dryRun then LogOnly(total) else PutMetricData(cfg.namespace, Datum(total, cfg))
    else Idle
  }

  /** `collect_and_send_metrics` up to the CloudWatch call: enumerate, aggregate, decide.
      An enumeration or aggregation error ends the tick with that error and reports
      nothing; a metric goes out only for a positive total outside dry-run mode. */
  function Tick(ps: PsReply, host: Host, cfg: Config): (r: Result<Action>)
    ensures ContainerIds(ps).Err? ==> r == Err(ContainerIds(ps).error)
    ensures ContainerIds(ps).Ok? ==>
              var total := CollectQueueLength(ContainerIds(ps).value, host);
              && (total.Err? ==> r == Err(total.error))
              && (total.Ok? ==> r == Ok(Decide(total.value, cfg)))
  {
    var ids :- ContainerIds(ps);
    var total :- CollectQueueLength(ids, host);
    Ok(Decide(total, cfg))
  }

  /** Idempotence of the zero state: when every container contributes nothing, no metric is
      sent and nothing is logged as sent. */
  lemma ZeroBacklogIsIdle(ps: PsReply, host: Host, cfg: Config)
    requires ContainerIds(ps).Ok?
    requires forall i :: 0 <= i < |ContainerIds(ps).value| ==> Contribution(host(ContainerIds(ps).value[i])) == Ok(0)
    ensures Tick(ps, host, cfg) == Ok(Idle)
  {
    CollectAllZero(ContainerIds(ps).value, host);
  }

  /** With no running containers a tick succeeds and reports nothing. */
  lemma NoContainersIsIdle(ps: PsReply, host: Host, cfg: Config)
    requires ContainerIds(ps) == Ok([])
    ensures Tick(ps, host, cfg) == Ok(Idle)
  {
  }
}
