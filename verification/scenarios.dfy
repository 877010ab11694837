/** Whole ticks on concrete host answers, built from the pieces above. */
module Scenarios {
  import opened Errors
  import opened Text
  import opened Containers
  import opened Classifier
  import opened Sampler
  import opened Aggregator
  import opened Reporting

  /** The columns of one `ss -lxnH` row for the PHP-FPM socket with 5 pending connections. */
  const SocketRow: seq<string> := ["u_str", "LISTEN", "5", "511", PhpFpmSocket, "20495", "*", "0"]

  /** The padding `ss` puts around those columns. */
  const SocketRowGaps: seq<string> := ["", " ", " ", "      ", "    ", " ", "            ", " ", "  "]

  /** The row as `ss` prints it. */
  const SocketLine: string := Columns(SocketRow, SocketRowGaps)

  lemma SocketRowFields()
    ensures forall i :: 0 <= i < |SocketRow| ==> IsField(SocketRow[i])
  {
    assert IsField("u_str");
    assert IsField("LISTEN");
    assert IsField("5");
    assert IsField("511");
    assert IsField(PhpFpmSocket);
    assert IsField("20495");
    assert IsField("*");
    assert IsField("0");
  }

  lemma SocketRowPadding()
    ensures IsGaps(SocketRowGaps, |SocketRow|)
    ensures forall i :: 0 <= i < |SocketRowGaps| ==> NoBreak(SocketRowGaps[i])
  {
    assert AllWhitespace(" ") && NoBreak(" ");
    assert AllWhitespace("  ") && NoBreak("  ");
    assert AllWhitespace("    ") && NoBreak("    ");
    assert AllWhitespace("      ") && NoBreak("      ");
    assert AllWhitespace("            ") && NoBreak("            ");
  }

  lemma ParseFive()
    ensures ParseI32("5") == Some(5)
  {
    ParseI32FormatNat(5);
    assert FormatNat(5) == "5";
  }

  lemma SocketRowReportsFive()
    ensures QueueFromLines(Lines(Unlines([SocketLine]))) == 5
  {
    SocketRowFields();
    SocketRowPadding();
    SocketRowQueue(SocketRow, SocketRowGaps, 4);
    ParseFive();
    ColumnsIsPlainLine(SocketRow, SocketRowGaps);
    LinesUnlines([SocketLine]);
  }

  const C1: ContainerProbe :=
    ContainerProbe(InspectJson(JArray([JString("php-fpm"), JString("-F")])), PidFound, SsListing(Unlines([SocketLine])))
  const C2: ContainerProbe :=
    ContainerProbe(InspectJson(JArray([JString("nginx"), JString("-g")])), PidFound, SsListing(""))
  const C3: ContainerProbe :=
    ContainerProbe(InspectJson(JArray([JNumber("1"), JString("php-fpm")])), PidFound, SsListing(""))

  lemma ContributionOfC1()
    ensures Contribution(C1) == Ok(5)
  {
    SocketRowReportsFive();
    assert JString(PhpFpmMarker) == C1.inspect.cmd.items[0];
  }

  lemma ContributionOfC2()
    ensures Contribution(C2) == Ok(0)
  {
    assert JString(PhpFpmMarker) != C2.inspect.cmd.items[0];
    assert JString(PhpFpmMarker) != C2.inspect.cmd.items[1];
  }

  lemma ContributionOfC3()
    ensures Contribution(C3) == Ok(0)
  {
    assert JString(PhpFpmMarker) == C3.inspect.cmd.items[1];
    assert Lines("") == [];
  }

  lemma ScenarioIds()
    ensures ContainerIds(PsOutput(Unlines(["c1", "c2", "c3"]))) == Ok(["c1", "c2", "c3"])
  {
    var ids := ["c1", "c2", "c3"];
    assert IsContainerId("c1") && IsContainerId("c2") && IsContainerId("c3");
    assert forall i :: 0 <= i < |ids| ==> IsContainerId(ids[i]) && '\n' !in ids[i];
    ContainerIdsRoundTrip(ids);
  }

  lemma ScenarioTotal(host: Host)
    requires Contribution(host("c1")) == Ok(5)
    requires Contribution(host("c2")) == Ok(0)
    requires Contribution(host("c3")) == Ok(0)
    ensures CollectQueueLength(["c1", "c2", "c3"], host) == Ok(5)
  {
    var ids := ["c1", "c2", "c3"];
    var rs := ContributionsOf(ids, host);
    assert rs[0] == Ok(5) && rs[1] == Ok(0) && rs[2] == Ok(0);
    assert rs == [Ok(5), Ok(0), Ok(0)];
    SumOfScenario();
    assert AllOk(rs);
    CollectOfContributions(ids, host);
    assert WrapI32(Sum(rs)) == WrapI32(5) == 5;
  }

  lemma SumOfScenario()
    ensures Sum([Ok(5), Ok(0), Ok(0)]) == 5
  {
    var rs: seq<Result<I32>> := [Ok(5), Ok(0), Ok(0)];
    assert rs[1..] == [Ok(0), Ok(0)];
    assert rs[1..][1..] == [Ok(0)];
    assert rs[1..][1..][1..] == [];
  }

  /** Three running containers: c1 runs PHP-FPM with 5 queued connections, c2 runs
      something else, c3 runs PHP-FPM and its listing has no socket line. The tick sends
      one metric whose value is 5. */
  lemma ThreeContainerTick(host: Host, cfg: Config)
    requires !cfg.dryRun
    requires host("c1") == C1 && host("c2") == C2 && host("c3") == C3
    ensures Tick(PsOutput(Unlines(["c1", "c2", "c3"])), host, cfg) == Ok(PutMetricData(cfg.namespace, Datum(5, cfg)))
  {
    ScenarioIds();
    ContributionOfC1();
    ContributionOfC2();
    ContributionOfC3();
    ScenarioTotal(host);
  }
}
