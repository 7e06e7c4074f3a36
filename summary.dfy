/**
 * The end of a scan (src/main.rs): results are pushed as the spawned tasks
 * finish, in whatever order they finish, then counted per status into a
 * `ScanSummary`.
 */
module Summary {
  import opened Probe

  datatype ScanSummary = ScanSummary(
    target: string,
    scannedPorts: nat,
    openPorts: nat,
    closedPorts: nat,
    filteredPorts: nat,
    totalTimeMs: nat,
    results: seq<PortResult>)

  /** `results.iter().filter(|r| r.status == st).count()`. */
  function CountStatus(rs: seq<PortResult>, st: PortStatus): (n: nat)
    ensures n <= |rs|
  {
    if rs == [] then 0
    else CountStatus(rs[..|rs| - 1], st) + (if rs[|rs| - 1].status == st then 1 else 0)
  }

  lemma {:induction false} CountAppend(a: seq<PortResult>, b: seq<PortResult>, st: PortStatus)
    ensures CountStatus(a + b, st) == CountStatus(a, st) + CountStatus(b, st)
    decreases |b|
  {
    if b != [] {
      assert (a + b)[..|a + b| - 1] == a + b[..|b| - 1];
      CountAppend(a, b[..|b| - 1], st);
    } else {
      assert a + b == a;
    }
  }

  /** Every result has exactly one of the three statuses. */
  lemma {:induction false} CountsPartition(rs: seq<PortResult>)
    ensures CountStatus(rs, Open) + CountStatus(rs, Closed) + CountStatus(rs, Filtered) == |rs|
  {
    if rs != [] {
      CountsPartition(rs[..|rs| - 1]);
    }
  }

  /** Taking one result out of the sequence lowers its status's count by one. */
  lemma CountRemoveAt(b: seq<PortResult>, j: nat, st: PortStatus)
    requires j < |b|
    ensures CountStatus(b, st) == CountStatus(b[..j] + b[j + 1..], st) + (if b[j].status == st then 1 else 0)
  {
    var left, right := b[..j], b[j + 1..];
    assert b == left + [b[j]] + right;
    CountAppend(left, right, st);
    CountAppend(left + [b[j]], right, st);
    CountAppend(left, [b[j]], st);
  }

  /** The counts do not depend on the order in which the results arrived. */
  lemma {:induction false} CountPermutation(a: seq<PortResult>, b: seq<PortResult>, st: PortStatus)
    requires multiset(a) == multiset(b)
    ensures CountStatus(a, st) == CountStatus(b, st)
    decreases |a|
  {
    if a == [] {
      assert |b| == |multiset(b)| == 0;
    } else {
      var x := a[|a| - 1];
      var front := a[..|a| - 1];
      var j := RemoveLast(a, b);
      var rest := b[..j] + b[j + 1..];
      CountRemoveAt(b, j, st);
      RemoveAtMultiset(b, j);
      assert multiset(front) == multiset(rest);
      CountPermutation(front, rest, st);
      assert CountStatus(a, st) == CountStatus(front, st) + (if x.status == st then 1 else 0);
    }
  }

  /** Where the last element of `a` sits in a rearrangement `b`, and what is left of both sides without it. */
  lemma RemoveLast<T>(a: seq<T>, b: seq<T>) returns (j: nat)
    requires a != [] && multiset(a) == multiset(b)
    ensures j < |b| && b[j] == a[|a| - 1]
    ensures multiset(a[..|a| - 1]) == multiset(b) - multiset{b[j]}
  {
    var x := a[|a| - 1];
    assert a == a[..|a| - 1] + [x];
    assert x in multiset(b);
    j :| 0 <= j < |b| && b[j] == x;
  }

  /** The `ScanSummary` built once all tasks have been drained. */
  function Summarize(target: string, results: seq<PortResult>, totalTimeMs: nat): (s: ScanSummary)
    ensures s.target == target && s.results == results && s.totalTimeMs == totalTimeMs
    ensures s.scannedPorts == |results|
    ensures s.openPorts == CountStatus(results, Open)
    ensures s.closedPorts == CountStatus(results, Closed)
    ensures s.filteredPorts == CountStatus(results, Filtered)
    ensures s.openPorts + s.closedPorts + s.filteredPorts == s.scannedPorts
  {
    CountsPartition(results);
    ScanSummary(target, |results|,
      CountStatus(results, Open), CountStatus(results, Closed), CountStatus(results, Filtered),
      totalTimeMs, results)
  }

  /** What `stream.next()` hands back: a finished task's result, or a task that failed (`JoinError`). */
  datatype TaskOutcome = Finished(result: PortResult) | TaskFailed

  /** The results of the tasks that finished, in completion order. */
  function Successful(cs: seq<TaskOutcome>): seq<PortResult> {
    if cs == [] then []
    else
      var front := Successful(cs[..|cs| - 1]);
      match cs[|cs| - 1]
      case Finished(r) => front + [r]
      case TaskFailed => front
  }

  function FailedTasks(cs: seq<TaskOutcome>): nat {
    if cs == [] then 0 else FailedTasks(cs[..|cs| - 1]) + (if cs[|cs| - 1].TaskFailed? then 1 else 0)
  }

  /** A failed task loses only its own port: every other task's result is kept, and nothing is invented. */
  lemma {:induction false} SuccessfulCount(cs: seq<TaskOutcome>)
    ensures |Successful(cs)| + FailedTasks(cs) == |cs|
    ensures forall r :: r in Successful(cs) <==> Finished(r) in cs
  {
    if cs != [] {
      var front := cs[..|cs| - 1];
      SuccessfulCount(front);
      assert cs == front + [cs[|cs| - 1]];
    }
  }

  /** The `while let Some(res) = stream.next().await` loop: push each finished result, log each failed task. */
  method CollectResults(completions: seq<TaskOutcome>) returns (results: seq<PortResult>)
    ensures results == Successful(completions)
    ensures (forall i :: 0 <= i < |completions| ==> completions[i].Finished?) ==> |results| == |completions|
  {
    results := [];
    var i := 0;
    while i < |completions|
      invariant 0 <= i <= |completions|
      invariant results == Successful(completions[..i])
      invariant (forall k :: 0 <= k < i ==> completions[k].Finished?) ==> |results| == i
    {
      assert completions[..i + 1][..i] == completions[..i];
      match completions[i] {
        case Finished(r) => results := results + [r];
        case TaskFailed =>
      }
      i := i + 1;
    }
    assert completions[..|completions|] == completions;
  }

  // ---- A whole scan ----

  /** Probing every port in port order: the results the tasks produce, before they race. */
  function ProbeAll(ports: seq<int>, outcomes: seq<ConnectOutcome>, elapsed: seq<nat>): (rs: seq<PortResult>)
    requires |ports| == |outcomes| == |elapsed|
    ensures |rs| == |ports|
    ensures forall i :: 0 <= i < |rs| ==> rs[i].port == ports[i] && Consistent(rs[i])
  {
    seq(|ports|, i requires 0 <= i < |ports| => ProbeResult(ports[i], outcomes[i], elapsed[i]))
  }

  /** Number of outcomes satisfying `Connected?`. */
  function ConnectedCount(outcomes: seq<ConnectOutcome>): nat {
    if outcomes == [] then 0
    else ConnectedCount(outcomes[..|outcomes| - 1]) + (if outcomes[|outcomes| - 1].Connected? then 1 else 0)
  }

  /** Number of connection attempts that were actively refused. */
  function RefusedCount(outcomes: seq<ConnectOutcome>): nat {
    if outcomes == [] then 0
    else
      var last := outcomes[|outcomes| - 1];
      RefusedCount(outcomes[..|outcomes| - 1]) + (if last == ConnectFailed(ConnectionRefused) then 1 else 0)
  }

  lemma {:induction false} ProbeAllCounts(ports: seq<int>, outcomes: seq<ConnectOutcome>, elapsed: seq<nat>)
    requires |ports| == |outcomes| == |elapsed|
    ensures CountStatus(ProbeAll(ports, outcomes, elapsed), Open) == ConnectedCount(outcomes)
    ensures CountStatus(ProbeAll(ports, outcomes, elapsed), Closed) == RefusedCount(outcomes)
  {
    if ports != [] {
      var n := |ports| - 1;
      ProbeAllCounts(ports[..n], outcomes[..n], elapsed[..n]);
      assert ProbeAll(ports, outcomes, elapsed)[..n] == ProbeAll(ports[..n], outcomes[..n], elapsed[..n]);
    }
  }

  /** One finished task per result: what the stream yields when no task fails, before reordering. */
  function AllFinished(rs: seq<PortResult>): (cs: seq<TaskOutcome>)
    ensures |cs| == |rs| && forall i :: 0 <= i < |cs| ==> cs[i] == Finished(rs[i])
  {
    seq(|rs|, i requires 0 <= i < |rs| => Finished(rs[i]))
  }

  /** Removing the element at `j` removes one copy of it from the multiset. */
  lemma RemoveAtMultiset<T>(b: seq<T>, j: nat)
    requires j < |b|
    ensures multiset(b[..j] + b[j + 1..]) == multiset(b) - multiset{b[j]}
  {
    assert b == b[..j] + [b[j]] + b[j + 1..];
  }

  /**
   * Whatever order the finished tasks arrive in, the results kept are a
   * rearrangement of the results the tasks produced.
   */
  lemma {:induction false} SuccessfulOfRearrangement(cs: seq<TaskOutcome>, rs: seq<PortResult>)
    requires multiset(cs) == multiset(AllFinished(rs))
    ensures multiset(Successful(cs)) == multiset(rs)
    decreases |cs|
  {
    if cs == [] {
      assert |AllFinished(rs)| == |multiset(AllFinished(rs))| == 0;
    } else {
      var front := cs[..|cs| - 1];
      var j := MatchLastTask(cs, rs);
      var rest := rs[..j] + rs[j + 1..];
      SuccessfulOfRearrangement(front, rest);
      assert Successful(cs) == Successful(front) + [rs[j]];
      RemoveAtMultiset(rs, j);
      assert rs[j] in multiset(rs);
    }
  }

  /** The last task to arrive finished with one of the results, and the other tasks deliver the rest. */
  lemma MatchLastTask(cs: seq<TaskOutcome>, rs: seq<PortResult>) returns (j: nat)
    requires cs != [] && multiset(cs) == multiset(AllFinished(rs))
    ensures j < |rs| && cs[|cs| - 1] == Finished(rs[j])
    ensures multiset(cs[..|cs| - 1]) == multiset(AllFinished(rs[..j] + rs[j + 1..]))
  {
    var fs := AllFinished(rs);
    j := RemoveLast(cs, fs);
    assert AllFinished(rs[..j] + rs[j + 1..]) == fs[..j] + fs[j + 1..];
    RemoveAtMultiset(fs, j);
  }

  /**
   * However the tasks interleave, a scan in which every task finishes and
   * delivers its port's result reports one result per port, as many open
   * ports as connections that completed and as many closed ports as
   * refusals; every other port is filtered.
   */
  lemma ScanSummaryCorrect(
    target: string, ports: seq<int>, outcomes: seq<ConnectOutcome>, elapsed: seq<nat>,
    completions: seq<TaskOutcome>, totalTimeMs: nat)
    requires |ports| == |outcomes| == |elapsed|
    requires multiset(completions) == multiset(AllFinished(ProbeAll(ports, outcomes, elapsed)))
    ensures |completions| == |ports|
    ensures var s := Summarize(target, Successful(completions), totalTimeMs);
      s.scannedPorts == |ports|
      && s.openPorts == ConnectedCount(outcomes)
      && s.closedPorts == RefusedCount(outcomes)
      && s.filteredPorts == |ports| - ConnectedCount(outcomes) - RefusedCount(outcomes)
  {
    var rs := Successful(completions);
    var all := ProbeAll(ports, outcomes, elapsed);
    assert |completions| == |AllFinished(all)| by {
      assert |multiset(completions)| == |multiset(AllFinished(all))|;
    }
    SuccessfulOfRearrangement(completions, all);
    assert |rs| == |all| by {
      assert |multiset(rs)| == |multiset(all)|;
    }
    CountPermutation(rs, all, Open);
    CountPermutation(rs, all, Closed);
    ProbeAllCounts(ports, outcomes, elapsed);
    CountsPartition(rs);
  }
}
