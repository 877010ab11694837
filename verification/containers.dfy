/** Container enumeration: turning the output of `docker ps -q` into container IDs
    (`get_docker_container_ids`, src/main.rs:110-127). */
module Containers {
  import opened Errors
  import opened Text

  /** What running `docker ps -q` produced. */
  datatype PsReply =
    | PsSpawnFailed            // the command could not be executed
    | PsStatusFailed           // it exited with a non-success status
    | PsNotUtf8                // its standard output is not UTF-8
    | PsOutput(stdout: string) // its standard output, decoded

  /** A container ID as the enumerator hands it on: non-empty, no surrounding whitespace. */
  predicate IsContainerId(id: string) {
    id != [] && IsTrimmed(id)
  }

  /** The ID a single line contributes: its trimmed form, unless that is empty. */
  function LineId(line: string): (ids: seq<string>)
    ensures |ids| <= 1
    ensures ids == [] <==> AllWhitespace(line)
    ensures ids != [] ==> ids[0] == Trim(line)
  {
    var t := Trim(line);
    if t == [] then [] else [t]
  }

  /** The trimmed forms of the lines that are not blank, in input order. */
  function NonBlankTrimmed(lines: seq<string>): (ids: seq<string>)
    ensures |ids| <= |lines|
    ensures forall i :: 0 <= i < |ids| ==> IsContainerId(ids[i])
  {
    if lines == [] then [] else LineId(lines[0]) + NonBlankTrimmed(lines[1..])
  }

  /** `get_docker_container_ids`: the IDs printed by `docker ps -q`; failing to run the
      command, a non-success status and undecodable output are errors. */
  function ContainerIds(ps: PsReply): (r: Result<seq<string>>)
    ensures r.Err? <==> !ps.PsOutput?
    ensures ps.PsSpawnFailed? ==> r == Err(DockerPsSpawn)
    ensures ps.PsStatusFailed? ==> r == Err(DockerPsStatus)
    ensures ps.PsNotUtf8? ==> r == Err(InvalidUtf8)
    ensures r.Ok? ==> forall i :: 0 <= i < |r.value| ==> IsContainerId(r.value[i])
  {
    match ps
    case PsSpawnFailed => Err(DockerPsSpawn)
    case PsStatusFailed => Err(DockerPsStatus)
    case PsNotUtf8 => Err(InvalidUtf8)
    case PsOutput(stdout) => Ok(NonBlankTrimmed(Lines(stdout)))
  }

  /** Order preservation: the IDs of two blocks of lines are the IDs of the first block
      followed by those of the second, so a blank line drops out without disturbing others. */
  lemma {:induction false} NonBlankTrimmedAppend(a: seq<string>, b: seq<string>)
    ensures NonBlankTrimmed(a + b) == NonBlankTrimmed(a) + NonBlankTrimmed(b)
  {
    if a == [] {
      assert a + b == b;
    } else {
      NonBlankTrimmedCons(a, b);
      NonBlankTrimmedAppend(a[1..], b);
      var head := LineId(a[0]);
      var x := NonBlankTrimmed(a[1..]);
      var y := NonBlankTrimmed(b);
      assert NonBlankTrimmed(a + b) == head + (x + y);
      assert NonBlankTrimmed(a) == head + x;
      ConcatAssoc(head, x, y);
    }
  }

  lemma NonBlankTrimmedCons(a: seq<string>, b: seq<string>)
    requires a != []
    ensures NonBlankTrimmed(a + b) == LineId(a[0]) + NonBlankTrimmed(a[1..] + b)
  {
    assert (a + b)[0] == a[0];
    assert (a + b)[1..] == a[1..] + b;
  }

  /** Exactly the non-empty trimmed lines are IDs. */
  lemma {:induction false} NonBlankTrimmedMembers(lines: seq<string>, id: string)
    ensures id in NonBlankTrimmed(lines) <==> id != [] && exists i :: 0 <= i < |lines| && Trim(lines[i]) == id
  {
    if lines != [] {
      NonBlankTrimmedMembers(lines[1..], id);
      if id != [] && Trim(lines[0]) != id {
        if i :| 0 <= i < |lines| && Trim(lines[i]) == id {
          assert Trim(lines[1..][i - 1]) == id;
        }
      }
      if i :| 0 <= i < |lines[1..]| && Trim(lines[1..][i]) == id {
        assert Trim(lines[i + 1]) == id;
      }
    }
  }

  /** IDs printed one per line by `docker ps -q` are recovered exactly, in order. */
  lemma {:induction false} ContainerIdsRoundTrip(ids: seq<string>)
    requires forall i :: 0 <= i < |ids| ==> IsContainerId(ids[i]) && '\n' !in ids[i]
    ensures ContainerIds(PsOutput(Unlines(ids))) == Ok(ids)
  {
    forall i | 0 <= i < |ids|
      ensures IsPlainLine(ids[i])
    {
      assert IsWhitespace('\r');
    }
    LinesUnlines(ids);
    NonBlankTrimmedOfIds(ids);
  }

  lemma {:induction false} NonBlankTrimmedOfIds(ids: seq<string>)
    requires forall i :: 0 <= i < |ids| ==> IsContainerId(ids[i])
    ensures NonBlankTrimmed(ids) == ids
  {
    if ids != [] {
      var tail := ids[1..];
      TrimOfTrimmed(ids[0]);
      NonBlankTrimmedOfIds(tail);
      assert NonBlankTrimmed(ids) == LineId(ids[0]) + NonBlankTrimmed(tail);
      assert [ids[0]] + tail == ids;
    }
  }
}
