/** Aggregation over one tick: classify every running container, sample the PHP-FPM ones
    and add up their queue lengths (`collect_php_fpm_queue_length`, src/main.rs:96-108). */
module Aggregator {
  import opened Errors
  import opened Text
  import opened Classifier
  import opened Sampler

  /** Everything the host answers about one container during a tick: the inspected launch
      command, the PID lookup and the namespace's socket listing. */
  datatype ContainerProbe = ContainerProbe(inspect: InspectReply, pid: PidReply, ss: SsReply)

  /** The host's answers for every container ID. */
  type Host = string -> ContainerProbe

  const TwoTo32: int := 0x1_0000_0000

  /** Two's-complement wrap-around into `i32`, which is what `+=` on an `i32` does in a
      release build. */
  function WrapI32(x: int): (r: I32)
    ensures (r - x) % TwoTo32 == 0
    ensures I32Min <= x <= I32Max ==> r == x
  {
    var r := (x - I32Min) % TwoTo32 + I32Min;
    assert x - I32Min == TwoTo32 * ((x - I32Min) / TwoTo32) + (x - I32Min) % TwoTo32;
    r
  }

  lemma {:induction false} ModMinusMultiple(a: int, q: int)
    ensures (a - TwoTo32 * q) % TwoTo32 == a % TwoTo32
    decreases if q < 0 then -q else q
  {
    if q > 0 {
      ModMinusMultiple(a, q - 1);
      assert a - TwoTo32 * q == (a - TwoTo32 * (q - 1)) - TwoTo32;
    } else if q < 0 {
      ModMinusMultiple(a, q + 1);
      assert a - TwoTo32 * q == (a - TwoTo32 * (q + 1)) + TwoTo32;
    }
  }

  /** Wrapping after every addition ends where wrapping once at the end does. */
  lemma WrapAddWrap(x: int, y: int)
    ensures WrapI32(WrapI32(x) + y) == WrapI32(x + y)
  {
    var q := (x - I32Min) / TwoTo32;
    assert WrapI32(x) == x - TwoTo32 * q;
    ModMinusMultiple(x + y - I32Min, q);
    assert WrapI32(x) + y - I32Min == (x + y - I32Min) - TwoTo32 * q;
  }

  /** One container's contribution: classify, and sample only a PHP-FPM container; an error
      from either step is the container's result. */
  function Contribution(p: ContainerProbe): Result<I32> {
    var isPhpFpm :- Classify(p.inspect);
    if isPhpFpm then SampleQueue(p.pid, p.ss) else Ok(0)
  }

  /** Each listed container's contribution, in listing order. */
  function ContributionsOf(ids: seq<string>, host: Host): (rs: seq<Result<I32>>)
    ensures |rs| == |ids|
    ensures forall i :: 0 <= i < |ids| ==> rs[i] == Contribution(host(ids[i]))
  {
    if ids == [] then [] else [Contribution(host(ids[0]))] + ContributionsOf(ids[1..], host)
  }

  /** The loop of `collect_php_fpm_queue_length`, from the running total `acc` on: each
      contribution is added with `+=`, and the first error returns at once. */
  function CollectFrom(rs: seq<Result<I32>>, acc: I32): Result<I32> {
    if rs == [] then Ok(acc)
    else
      var c :- rs[0];
      CollectFrom(rs[1..], WrapI32(acc + c))
  }

  // ---------------------------------------------------------------------------
  // Reference definitions
  // ---------------------------------------------------------------------------

  /** Entry `k` is the first failed one. */
  predicate FirstFailure(rs: seq<Result<I32>>, k: int) {
    && 0 <= k < |rs|
    && rs[k].Err?
    && forall j :: 0 <= j < k ==> rs[j].Ok?
  }

  predicate AllOk(rs: seq<Result<I32>>) {
    forall i :: 0 <= i < |rs| ==> rs[i].Ok?
  }

  /** The mathematical sum of the successful entries. */
  function Sum(rs: seq<Result<I32>>): int {
    if rs == [] then 0 else (if rs[0].Ok? then rs[0].value else 0) + Sum(rs[1..])
  }

  /** The containers classified as PHP-FPM, in order. */
  function PhpFpmIds(ids: seq<string>, host: Host): seq<string> {
    if ids == [] then []
    else (if Classify(host(ids[0]).inspect) == Ok(true) then [ids[0]] else []) + PhpFpmIds(ids[1..], host)
  }

  /** A container's sampled queue length, 0 when sampling fails. */
  function QueueOf(p: ContainerProbe): int {
    match SampleQueue(p.pid, p.ss)
    case Ok(v) => v
    case Err(_) => 0
  }

  /** The mathematical sum of the sampled queue lengths. */
  function SampleSum(ids: seq<string>, host: Host): int {
    if ids == [] then 0 else QueueOf(host(ids[0])) + SampleSum(ids[1..], host)
  }

  // ---------------------------------------------------------------------------
  // The aggregate
  // ---------------------------------------------------------------------------

  /** `collect_php_fpm_queue_length` over the listed containers: it fails exactly when some
      container's classification or sampling fails, and then with the first failing
      container's error and no partial total. */
  function CollectQueueLength(ids: seq<string>, host: Host): (r: Result<I32>)
    ensures r.Err? <==> exists i :: 0 <= i < |ids| && Contribution(host(ids[i])).Err?
    ensures r.Err? ==> exists k :: FirstFailure(ContributionsOf(ids, host), k) && r.error == Contribution(host(ids[k])).error
  {
    var rs := ContributionsOf(ids, host);
    CollectFromErrors(rs, 0);
    CollectFrom(rs, 0)
  }

  /** No isolation: one container whose classification or sampling fails makes the whole
      aggregate fail, whatever the other containers report. */
  lemma OneFailureAborts(before: seq<string>, bad: string, after: seq<string>, host: Host)
    requires Contribution(host(bad)).Err?
    ensures CollectQueueLength(before + [bad] + after, host).Err?
  {
    var ids := before + [bad] + after;
    assert ids[|before|] == bad;
  }

  /** Without errors, the aggregate is the (i32-wrapped) sum of the queue lengths of exactly
      the containers classified as PHP-FPM, and exactly that sum when it fits in an `i32`;
      an empty listing gives 0. */
  lemma CollectSumsPhpFpm(ids: seq<string>, host: Host)
    requires forall i :: 0 <= i < |ids| ==> Contribution(host(ids[i])).Ok?
    ensures CollectQueueLength(ids, host) == Ok(WrapI32(SampleSum(PhpFpmIds(ids, host), host)))
    ensures I32Min <= SampleSum(PhpFpmIds(ids, host), host) <= I32Max ==>
              CollectQueueLength(ids, host) == Ok(SampleSum(PhpFpmIds(ids, host), host))
  {
    assert AllOk(ContributionsOf(ids, host));
    CollectIsFold(ids, host);
    CollectFromTotal(ids, host);
    var total := SampleSum(PhpFpmIds(ids, host), host);
    if I32Min <= total <= I32Max {
      assert WrapI32(total) == total;
    }
  }

  lemma CollectIsFold(ids: seq<string>, host: Host)
    ensures CollectQueueLength(ids, host) == CollectFrom(ContributionsOf(ids, host), 0)
  {
  }

  /** Without errors, the loop ends at the wrapped sum over the PHP-FPM containers. */
  lemma CollectFromTotal(ids: seq<string>, host: Host)
    requires AllOk(ContributionsOf(ids, host))
    ensures CollectFrom(ContributionsOf(ids, host), 0) == Ok(WrapI32(SampleSum(PhpFpmIds(ids, host), host)))
  {
    var rs := ContributionsOf(ids, host);
    CollectFromZero(rs);
    SumIsSampleSum(ids, host);
  }

  /** Without errors, the fold from 0 yields the wrapped sum of the entries. */
  lemma CollectFromZero(rs: seq<Result<I32>>)
    requires AllOk(rs)
    ensures CollectFrom(rs, 0) == Ok(WrapI32(Sum(rs)))
  {
    CollectFromSum(rs, 0);
    assert 0 + Sum(rs) == Sum(rs);
  }

  /** The fold fails exactly when some entry failed, and then with the first one's error. */
  lemma {:induction false} CollectFromErrors(rs: seq<Result<I32>>, acc: I32)
    ensures CollectFrom(rs, acc).Err? <==> !AllOk(rs)
    ensures CollectFrom(rs, acc).Err? ==> exists k :: FirstFailure(rs, k) && CollectFrom(rs, acc).error == rs[k].error
  {
    if rs != [] {
      if rs[0].Err? {
        assert FirstFailure(rs, 0);
      } else {
        var acc' := WrapI32(acc + rs[0].value);
        CollectFromErrors(rs[1..], acc');
        assert CollectFrom(rs, acc) == CollectFrom(rs[1..], acc');
        if CollectFrom(rs, acc).Err? {
          var k :| FirstFailure(rs[1..], k) && CollectFrom(rs[1..], acc').error == rs[1..][k].error;
          assert FirstFailure(rs, k + 1);
        }
        if !AllOk(rs) {
          var i :| 0 <= i < |rs| && rs[i].Err?;
          assert rs[1..][i - 1].Err?;
        }
      }
    }
  }

  /** Without errors, the fold yields the wrapped sum of the entries. */
  lemma {:induction false} CollectFromSum(rs: seq<Result<I32>>, acc: I32)
    requires AllOk(rs)
    ensures CollectFrom(rs, acc) == Ok(WrapI32(acc + Sum(rs)))
  {
    if rs != [] {
      var acc' := WrapI32(acc + rs[0].value);
      assert AllOk(rs[1..]) by {
        forall i | 0 <= i < |rs[1..]|
          ensures rs[1..][i].Ok?
        {
          assert rs[1..][i] == rs[i + 1];
        }
      }
      CollectFromSum(rs[1..], acc');
      WrapAddWrap(acc + rs[0].value, Sum(rs[1..]));
    }
  }

  /** Without errors, what the containers contribute is what the PHP-FPM ones sample:
      the others add nothing. */
  lemma {:induction false} SumIsSampleSum(ids: seq<string>, host: Host)
    requires AllOk(ContributionsOf(ids, host))
    ensures Sum(ContributionsOf(ids, host)) == SampleSum(PhpFpmIds(ids, host), host)
  {
    if ids != [] {
      var rs := ContributionsOf(ids, host);
      assert rs[1..] == ContributionsOf(ids[1..], host);
      assert AllOk(rs[1..]) by {
        forall i | 0 <= i < |rs[1..]|
          ensures rs[1..][i].Ok?
        {
          assert rs[1..][i] == rs[i + 1];
        }
      }
      SumIsSampleSum(ids[1..], host);
      var p := host(ids[0]);
      assert rs[0] == Contribution(p);
      var head := if Classify(p.inspect) == Ok(true) then [ids[0]] else [];
      SampleSumAppend(head, PhpFpmIds(ids[1..], host), host);
    }
  }

  /** Without errors, the aggregate is the wrapped sum of the contributions. */
  lemma CollectOfContributions(ids: seq<string>, host: Host)
    requires AllOk(ContributionsOf(ids, host))
    ensures CollectQueueLength(ids, host) == Ok(WrapI32(Sum(ContributionsOf(ids, host))))
  {
    CollectIsFold(ids, host);
    CollectFromZero(ContributionsOf(ids, host));
  }

  /** When every container contributes nothing, the aggregate is zero. */
  lemma CollectAllZero(ids: seq<string>, host: Host)
    requires forall i :: 0 <= i < |ids| ==> Contribution(host(ids[i])) == Ok(0)
    ensures CollectQueueLength(ids, host) == Ok(0)
  {
    var rs := ContributionsOf(ids, host);
    assert AllOk(rs);
    CollectOfContributions(ids, host);
    SumOfZeros(rs);
    assert WrapI32(Sum(rs)) == WrapI32(0) == 0;
  }

  lemma {:induction false} SumOfZeros(rs: seq<Result<I32>>)
    requires forall i :: 0 <= i < |rs| ==> rs[i] == Ok(0)
    ensures Sum(rs) == 0
  {
    if rs != [] {
      assert forall i :: 0 <= i < |rs[1..]| ==> rs[1..][i] == rs[i + 1];
      SumOfZeros(rs[1..]);
    }
  }

  lemma {:induction false} SampleSumAppend(a: seq<string>, b: seq<string>, host: Host)
    ensures SampleSum(a + b, host) == SampleSum(a, host) + SampleSum(b, host)
  {
    if a == [] {
      assert a + b == b;
    } else {
      assert (a + b)[0] == a[0];
      assert (a + b)[1..] == a[1..] + b;
      SampleSumAppend(a[1..], b, host);
    }
  }

  // ---------------------------------------------------------------------------
  // Order independence
  // ---------------------------------------------------------------------------

  lemma {:induction false} SumAppend(a: seq<Result<I32>>, b: seq<Result<I32>>)
    ensures Sum(a + b) == Sum(a) + Sum(b)
  {
    if a == [] {
      assert a + b == b;
    } else {
      assert (a + b)[0] == a[0];
      assert (a + b)[1..] == a[1..] + b;
      SumAppend(a[1..], b);
    }
  }

  lemma {:induction false} SumPermutation(a: seq<Result<I32>>, b: seq<Result<I32>>)
    requires multiset(a) == multiset(b)
    ensures Sum(a) == Sum(b)
    decreases |a|
  {
    if a == [] {
      assert |b| == |multiset(b)| == 0;
    } else {
      var x := a[0];
      assert x in multiset(b);
      var i :| 0 <= i < |b| && b[i] == x;
      MultisetDrop(a, b, i);
      SumPermutation(a[1..], b[..i] + b[i + 1..]);
      assert b == b[..i] + [x] + b[i + 1..];
      SumAppend(b[..i] + [x], b[i + 1..]);
      SumAppend(b[..i], [x]);
      SumAppend(b[..i], b[i + 1..]);
    }
  }

  /** Taking the first element of `a` out of both sides of a permutation leaves one. */
  lemma MultisetDrop<T>(a: seq<T>, b: seq<T>, i: nat)
    requires a != [] && i < |b| && b[i] == a[0] && multiset(a) == multiset(b)
    ensures multiset(a[1..]) == multiset(b[..i] + b[i + 1..])
  {
    MultisetRemove(a, 0);
    assert a[..0] + a[1..] == a[1..];
    MultisetRemove(b, i);
  }

  /** Removing the element at `i` takes one occurrence of it out of the multiset. */
  lemma MultisetRemove<T>(s: seq<T>, i: nat)
    requires i < |s|
    ensures multiset(s[..i] + s[i + 1..]) == multiset(s) - multiset{s[i]}
  {
    MultisetSplit(s, i);
    MultisetCancel(multiset(s), multiset(s[..i] + s[i + 1..]), s[i]);
  }

  lemma MultisetCancel<T>(m: multiset<T>, n: multiset<T>, x: T)
    requires m == multiset{x} + n
    ensures n == m - multiset{x}
  {
  }

  /** Listing the same containers in another order lists the same contributions. */
  lemma {:induction false} ContributionsPermutation(a: seq<string>, b: seq<string>, host: Host)
    requires multiset(a) == multiset(b)
    ensures multiset(ContributionsOf(a, host)) == multiset(ContributionsOf(b, host))
    decreases |a|
  {
    if a == [] {
      assert |b| == |multiset(b)| == 0;
    } else {
      var x := a[0];
      assert x in multiset(b);
      var i :| 0 <= i < |b| && b[i] == x;
      MultisetDrop(a, b, i);
      ContributionsPermutation(a[1..], b[..i] + b[i + 1..], host);
      ContributionsDrop(b, i, host);
      var c := Contribution(host(x));
      assert ContributionsOf(b, host)[i] == c;
      assert ContributionsOf(a, host) == [c] + ContributionsOf(a[1..], host);
      assert multiset([c] + ContributionsOf(a[1..], host)) == multiset{c} + multiset(ContributionsOf(a[1..], host));
    }
  }

  /** The contributions of a listing are those of one entry plus those of the others. */
  lemma ContributionsDrop(b: seq<string>, i: nat, host: Host)
    requires i < |b|
    ensures multiset(ContributionsOf(b, host)) ==
            multiset{ContributionsOf(b, host)[i]} + multiset(ContributionsOf(b[..i] + b[i + 1..], host))
  {
    ContributionsRemove(b, i, host);
    MultisetSplit(ContributionsOf(b, host), i);
  }

  lemma ContributionsRemove(b: seq<string>, i: nat, host: Host)
    requires i < |b|
    ensures ContributionsOf(b[..i] + b[i + 1..], host) == ContributionsOf(b, host)[..i] + ContributionsOf(b, host)[i + 1..]
  {
    var rest := b[..i] + b[i + 1..];
    var rs := ContributionsOf(b, host);
    var l := ContributionsOf(rest, host);
    var r := rs[..i] + rs[i + 1..];
    assert |l| == |r|;
    forall k | 0 <= k < |l|
      ensures l[k] == r[k]
    {
      if k < i {
        assert rest[k] == b[k];
      } else {
        assert rest[k] == b[k + 1];
      }
    }
  }

  lemma MultisetSplit<T>(s: seq<T>, i: nat)
    requires i < |s|
    ensures multiset(s) == multiset{s[i]} + multiset(s[..i] + s[i + 1..])
  {
    assert s == s[..i] + [s[i]] + s[i + 1..];
  }

  lemma {:induction false} ContributionsAppend(a: seq<string>, b: seq<string>, host: Host)
    ensures ContributionsOf(a + b, host) == ContributionsOf(a, host) + ContributionsOf(b, host)
  {
    var l := ContributionsOf(a + b, host);
    var r := ContributionsOf(a, host) + ContributionsOf(b, host);
    assert |l| == |r|;
    forall i | 0 <= i < |l|
      ensures l[i] == r[i]
    {
      if i < |a| {
        assert (a + b)[i] == a[i];
      } else {
        assert (a + b)[i] == b[i - |a|];
      }
    }
  }

  /** The aggregate does not depend on the order in which the containers are listed: a
      reordering fails exactly when the original does, and otherwise gives the same total. */
  lemma CollectPermutation(a: seq<string>, b: seq<string>, host: Host)
    requires multiset(a) == multiset(b)
    ensures CollectQueueLength(a, host).Ok? <==> CollectQueueLength(b, host).Ok?
    ensures CollectQueueLength(a, host).Ok? ==> CollectQueueLength(a, host) == CollectQueueLength(b, host)
  {
    ContributionsPermutation(a, b, host);
    CollectFromPermutation(ContributionsOf(a, host), ContributionsOf(b, host));
  }

  lemma CollectFromPermutation(ra: seq<Result<I32>>, rb: seq<Result<I32>>)
    requires multiset(ra) == multiset(rb)
    ensures CollectFrom(ra, 0).Ok? <==> CollectFrom(rb, 0).Ok?
    ensures CollectFrom(ra, 0).Ok? ==> CollectFrom(ra, 0) == CollectFrom(rb, 0)
  {
    SameFailures(ra, rb);
    SameFailures(rb, ra);
    CollectFromErrors(ra, 0);
    CollectFromErrors(rb, 0);
    if AllOk(ra) {
      CollectFromSum(ra, 0);
      CollectFromSum(rb, 0);
      SumPermutation(ra, rb);
    }
  }

  lemma SameFailures(a: seq<Result<I32>>, b: seq<Result<I32>>)
    requires multiset(a) == multiset(b)
    ensures AllOk(b) ==> AllOk(a)
  {
    if !AllOk(a) {
      var i :| 0 <= i < |a| && a[i].Err?;
      assert a[i] in multiset(b);
      var j :| 0 <= j < |b| && b[j] == a[i];
    }
  }
}
