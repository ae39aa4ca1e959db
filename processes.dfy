/**
 * One sampled process and the three orderings of the process table.
 *
 * The sampler itself (process enumeration, CPU and memory accounting) is outside the
 * model: a snapshot is just a `seq<Process>`. Only the comparisons made on `cpuPercent`,
 * `memKb` and `pid` matter to the dashboard, so those are the keys the orderings use.
 */
module Processes {

  /** The fields of a sampled process that the dashboard reads. */
  datatype Process = Process(
    pid: int,
    user: string,
    name: string,
    cmdline: string,
    timeSeconds: nat,   // total user + system time, whole seconds
    cpuPercent: real,   // the sampler always reports 0.0 here
    memKb: nat,         // resident size in KiB
    numThreads: int,
    niceValue: int)

  /** The table orderings the operator can choose. */
  datatype SortMode = Cpu | Mem | Pid

  /** The strict "comes before" comparator handed to the sort in each mode. */
  predicate Before(mode: SortMode, a: Process, b: Process)
  {
    match mode
    case Cpu => a.cpuPercent > b.cpuPercent
    case Mem => a.memKb > b.memKb
    case Pid => a.pid < b.pid
  }

  /** Sorted with respect to a comparator: no element comes before an earlier one. */
  predicate SortedBy(mode: SortMode, s: seq<Process>)
  {
    forall i, j :: 0 <= i < j < |s| ==> !Before(mode, s[j], s[i])
  }

  /** `view` is one of the orders the sort may produce for `procs` (ties in any order). */
  predicate IsSortedView(procs: seq<Process>, mode: SortMode, view: seq<Process>)
  {
    multiset(view) == multiset(procs) && SortedBy(mode, view)
  }

  /** Two processes the comparator cannot tell apart. */
  predicate Tied(mode: SortMode, a: Process, b: Process)
  {
    !Before(mode, a, b) && !Before(mode, b, a)
  }

  /** No two entries of `s` share a sort key (for Pid: the pids are unique). */
  ghost predicate DistinctKeys(mode: SortMode, s: seq<Process>)
  {
    forall i, j :: 0 <= i < j < |s| ==> !Tied(mode, s[i], s[j])
  }

  /** What sortedness means for each mode, stated on the keys themselves. */
  lemma SortedMeaning(mode: SortMode, s: seq<Process>)
    ensures mode == Cpu ==>
      (SortedBy(mode, s) <==> forall i, j :: 0 <= i < j < |s| ==> s[i].cpuPercent >= s[j].cpuPercent)
    ensures mode == Mem ==>
      (SortedBy(mode, s) <==> forall i, j :: 0 <= i < j < |s| ==> s[i].memKb >= s[j].memKb)
    ensures mode == Pid ==>
      (SortedBy(mode, s) <==> forall i, j :: 0 <= i < j < |s| ==> s[i].pid <= s[j].pid)
  {
  }

  /** Exchanges two adjacent elements; the contents are a permutation of what they were. */
  method SwapAdjacent(a: array<Process>, j: nat)
    requires 0 < j < a.Length
    modifies a
    ensures a[j - 1] == old(a[j]) && a[j] == old(a[j - 1])
    ensures forall k :: 0 <= k < a.Length && k != j - 1 && k != j ==> a[k] == old(a[k])
    ensures multiset(a[..]) == old(multiset(a[..]))
  {
    a[j - 1], a[j] := a[j], a[j - 1];
  }

  /**
   * Where `x` lands when it is inserted into `sorted` from the right: it moves left past
   * every element it comes before, and stops behind the first one it does not.
   */
  function Insert(mode: SortMode, sorted: seq<Process>, x: Process): seq<Process>
    decreases |sorted|
  {
    if sorted == [] || !Before(mode, x, sorted[|sorted| - 1]) then sorted + [x]
    else Insert(mode, sorted[..|sorted| - 1], x) + [sorted[|sorted| - 1]]
  }

  /** The one order the sort leaves a snapshot in: each element inserted in turn. */
  function SortedOf(mode: SortMode, s: seq<Process>): seq<Process>
    decreases |s|
  {
    if s == [] then [] else Insert(mode, SortedOf(mode, s[..|s| - 1]), s[|s| - 1])
  }

  /** On the keys of every mode, "does not come before" is transitive. */
  lemma NotBeforeTransitive(mode: SortMode, x: Process, y: Process, z: Process)
    requires !Before(mode, x, y) && !Before(mode, y, z)
    ensures !Before(mode, x, z)
  {
  }

  /** Insertion adds exactly the inserted element. */
  lemma {:induction false} InsertPermutes(mode: SortMode, sorted: seq<Process>, x: Process)
    ensures multiset(Insert(mode, sorted, x)) == multiset(sorted) + multiset{x}
    decreases |sorted|
  {
    if sorted != [] && Before(mode, x, sorted[|sorted| - 1]) {
      var init, last := sorted[..|sorted| - 1], sorted[|sorted| - 1];
      InsertPermutes(mode, init, x);
      assert sorted == init + [last];
    }
  }

  /** Appending an element that comes before none of a sorted sequence keeps it sorted. */
  lemma AppendSorted(mode: SortMode, sorted: seq<Process>, x: Process)
    requires SortedBy(mode, sorted)
    requires sorted == [] || !Before(mode, x, sorted[|sorted| - 1])
    ensures SortedBy(mode, sorted + [x])
  {
    var n := |sorted|;
    var r := sorted + [x];
    forall i, j | 0 <= i < j < |r|
      ensures !Before(mode, r[j], r[i])
    {
      if j == n && i < n - 1 {
        NotBeforeTransitive(mode, x, sorted[n - 1], sorted[i]);
      }
    }
  }

  /**
   * Appending `last` after a sorted sequence of `rest` and `x`, where `last` comes
   * before no element of `rest` and `x` comes before `last`, keeps it sorted.
   */
  lemma AppendAfterPassed(mode: SortMode, rest: seq<Process>, r: seq<Process>, x: Process, last: Process)
    requires SortedBy(mode, r) && multiset(r) == multiset(rest) + multiset{x}
    requires forall k :: 0 <= k < |rest| ==> !Before(mode, last, rest[k])
    requires Before(mode, x, last)
    ensures SortedBy(mode, r + [last])
  {
    var t := r + [last];
    forall i, j | 0 <= i < j < |t|
      ensures !Before(mode, t[j], t[i])
    {
      if j == |r| {
        assert r[i] in multiset(rest) + multiset{x} by { assert r[i] in multiset(r); }
        if r[i] != x {
          var k :| 0 <= k < |rest| && rest[k] == r[i];
        }
      }
    }
  }

  /** Inserting into a sorted sequence keeps it sorted. */
  lemma {:induction false} InsertSorted(mode: SortMode, sorted: seq<Process>, x: Process)
    requires SortedBy(mode, sorted)
    ensures SortedBy(mode, Insert(mode, sorted, x))
    decreases |sorted|
  {
    var n := |sorted|;
    if sorted == [] || !Before(mode, x, sorted[n - 1]) {
      AppendSorted(mode, sorted, x);
    } else {
      var init, last := sorted[..n - 1], sorted[n - 1];
      InsertSorted(mode, init, x);
      InsertPermutes(mode, init, x);
      AppendAfterPassed(mode, init, Insert(mode, init, x), x, last);
    }
  }

  /** The sort's order is one of the orders a sort may produce. */
  lemma {:induction false} SortedOfIsSortedView(mode: SortMode, s: seq<Process>)
    ensures IsSortedView(s, mode, SortedOf(mode, s))
    decreases |s|
  {
    if s != [] {
      var init := s[..|s| - 1];
      SortedOfIsSortedView(mode, init);
      InsertPermutes(mode, SortedOf(mode, init), s[|s| - 1]);
      InsertSorted(mode, SortedOf(mode, init), s[|s| - 1]);
      assert s == init + [s[|s| - 1]];
    }
  }

  /** Once `x` stops moving left, the insertion is complete. */
  lemma InsertStops(mode: SortMode, sorted: seq<Process>, j: nat, x: Process)
    requires j <= |sorted|
    requires j == 0 || !Before(mode, x, sorted[j - 1])
    ensures Insert(mode, sorted[..j], x) == sorted[..j] + [x]
  {
  }

  /** One step left: `x` passes `sorted[j - 1]`. */
  lemma InsertStep(mode: SortMode, sorted: seq<Process>, j: nat, x: Process)
    requires 0 < j <= |sorted| && Before(mode, x, sorted[j - 1])
    ensures Insert(mode, sorted[..j], x) + sorted[j..] == Insert(mode, sorted[..j - 1], x) + sorted[j - 1..]
  {
    assert sorted[..j][..j - 1] == sorted[..j - 1];
    assert sorted[j - 1..] == [sorted[j - 1]] + sorted[j..];
  }

  /** The buffer contents after exchanging `x` with the element to its left. */
  lemma SwapShape(before: seq<Process>, after: seq<Process>, sorted: seq<Process>, x: Process,
                  rest: seq<Process>, j: nat)
    requires 0 < j <= |sorted| && before == sorted[..j] + [x] + sorted[j..] + rest
    requires |after| == |before| && after[j - 1] == before[j] && after[j] == before[j - 1]
    requires forall k :: 0 <= k < |before| && k != j - 1 && k != j ==> after[k] == before[k]
    ensures after == sorted[..j - 1] + [x] + sorted[j - 1..] + rest
  {
    var want := sorted[..j - 1] + [x] + sorted[j - 1..] + rest;
    forall k | 0 <= k < |after|
      ensures after[k] == want[k]
    {
    }
  }

  /**
   * The inner pass of the sort: the element at `i` moves left past every element of the
   * sorted prefix it comes before.
   */
  method SiftLeft(a: array<Process>, i: nat, mode: SortMode,
                  ghost sorted: seq<Process>, ghost x: Process, ghost rest: seq<Process>)
    requires i == |sorted| < a.Length && a[..] == sorted + [x] + rest
    modifies a
    ensures a[..] == Insert(mode, sorted, x) + rest
  {
    var j := i;
    assert sorted[..j] == sorted;
    while 0 < j && Before(mode, a[j], a[j - 1])
      invariant 0 <= j <= i
      invariant a[..] == sorted[..j] + [x] + sorted[j..] + rest
      invariant Insert(mode, sorted, x) == Insert(mode, sorted[..j], x) + sorted[j..]
      decreases j
    {
      ghost var before := a[..];
      assert before[j] == x && before[j - 1] == sorted[j - 1];
      InsertStep(mode, sorted, j, x);
      SwapAdjacent(a, j);
      SwapShape(before, a[..], sorted, x, rest, j);
      j := j - 1;
    }
    assert a[..][j] == x;
    InsertStops(mode, sorted, j, x);
  }

  /** The sort keeps the length. */
  lemma SortedOfLength(mode: SortMode, s: seq<Process>)
    ensures |SortedOf(mode, s)| == |s|
  {
    SortedOfIsSortedView(mode, s);
    assert |multiset(SortedOf(mode, s))| == |s|;
  }

  /** The buffer before and after one pass of the sort, in terms of the input. */
  lemma SortStep(mode: SortMode, input: seq<Process>, i: nat)
    requires i < |input|
    ensures |SortedOf(mode, input[..i])| == i
    ensures SortedOf(mode, input[..i]) + input[i..]
      == SortedOf(mode, input[..i]) + [input[i]] + input[i + 1..]
    ensures Insert(mode, SortedOf(mode, input[..i]), input[i]) + input[i + 1..]
      == SortedOf(mode, input[..i + 1]) + input[i + 1..]
  {
    var sorted := SortedOf(mode, input[..i]);
    SortedOfLength(mode, input[..i]);
    assert input[i..] == [input[i]] + input[i + 1..];
    assert sorted + ([input[i]] + input[i + 1..]) == sorted + [input[i]] + input[i + 1..];
    SortedOfSnoc(mode, input, i);
  }

  /** Sorting one more element is inserting it into the sorted prefix. */
  lemma SortedOfSnoc(mode: SortMode, s: seq<Process>, i: nat)
    requires i < |s|
    ensures SortedOf(mode, s[..i + 1]) == Insert(mode, SortedOf(mode, s[..i]), s[i])
  {
    assert s[..i + 1][..i] == s[..i];
  }

  /**
   * Sorts the buffer in place by the comparator of `mode`, moving each element left past
   * every element it comes before. The result is sorted and a permutation of the input,
   * and it is the same for the same input every time.
   */
  method Sort(a: array<Process>, mode: SortMode)
    modifies a
    ensures a[..] == SortedOf(mode, old(a[..]))
    ensures IsSortedView(old(a[..]), mode, a[..])
  {
    ghost var input := a[..];
    var i := 0;
    assert input[..0] == [] && input[0..] == input;
    while i < a.Length
      invariant 0 <= i <= a.Length
      invariant a[..] == SortedOf(mode, input[..i]) + input[i..]
    {
      SortStep(mode, input, i);
      SiftLeft(a, i, mode, SortedOf(mode, input[..i]), input[i], input[i + 1..]);
      i := i + 1;
    }
    assert input[..a.Length] == input && input[a.Length..] == [];
    assert a[..] == SortedOf(mode, input);
    SortedOfIsSortedView(mode, input);
  }

  /**
   * The sorted copy of a snapshot that both the renderer and the key handler work on:
   * the snapshot is copied into a fresh buffer and sorted there, so the same snapshot
   * and mode always give the same order.
   */
  method SortedView(procs: seq<Process>, mode: SortMode) returns (view: seq<Process>)
    ensures view == SortedOf(mode, procs)
    ensures IsSortedView(procs, mode, view)
    ensures |view| == |procs|
    ensures mode == Cpu ==> forall i, j :: 0 <= i < j < |view| ==> view[i].cpuPercent >= view[j].cpuPercent
    ensures mode == Mem ==> forall i, j :: 0 <= i < j < |view| ==> view[i].memKb >= view[j].memKb
    ensures mode == Pid ==> forall i, j :: 0 <= i < j < |view| ==> view[i].pid <= view[j].pid
  {
    var a := new Process[|procs|](k requires 0 <= k < |procs| => procs[k]);
    assert a[..] == procs;
    Sort(a, mode);
    view := a[..];
    assert |multiset(view)| == |multiset(procs)|;
    SortedMeaning(mode, view);
  }

  /** The first element of a sorted sequence comes no later than any element of it. */
  lemma HeadIsLeast(mode: SortMode, s: seq<Process>, x: Process)
    requires SortedBy(mode, s) && x in multiset(s)
    ensures !Before(mode, x, s[0])
  {
    var k :| 0 <= k < |s| && s[k] == x;
  }

  /** A value occurring at least twice sits at two different positions. */
  lemma {:induction false} TwoCopies(s: seq<Process>, x: Process)
    requires multiset(s)[x] >= 2
    ensures exists p, q :: 0 <= p < q < |s| && s[p] == x && s[q] == x
  {
    assert s == [s[0]] + s[1..];
    assert multiset(s) == multiset{s[0]} + multiset(s[1..]);
    if s[0] == x {
      assert x in multiset(s[1..]);
      var q :| 0 <= q < |s[1..]| && s[1..][q] == x;
      assert s[0] == x && s[q + 1] == x;
    } else {
      TwoCopies(s[1..], x);
      var p, q :| 0 <= p < q < |s[1..]| && s[1..][p] == x && s[1..][q] == x;
      assert s[p + 1] == x && s[q + 1] == x;
    }
  }

  /** Key distinctness is a property of the multiset: every permutation keeps it. */
  lemma DistinctKeysPermutation(mode: SortMode, s: seq<Process>, t: seq<Process>)
    requires multiset(s) == multiset(t)
    requires DistinctKeys(mode, s)
    ensures DistinctKeys(mode, t)
  {
    forall i, j | 0 <= i < j < |t|
      ensures !Tied(mode, t[i], t[j])
    {
      if Tied(mode, t[i], t[j]) {
        assert t[i] in multiset(s) && t[j] in multiset(s) by {
          assert t[i] in multiset(t) && t[j] in multiset(t);
        }
        if t[i] == t[j] {
          assert multiset(t)[t[i]] >= 2 by {
            assert t == t[..i] + [t[i]] + t[i + 1..j] + [t[j]] + t[j + 1..];
          }
          TwoCopies(s, t[i]);
        }
        assert false;
      }
    }
  }

  /** Two sorted permutations with distinct keys start with the same element. */
  lemma HeadsAgree(mode: SortMode, v1: seq<Process>, v2: seq<Process>)
    requires |v1| > 0 && multiset(v1) == multiset(v2)
    requires SortedBy(mode, v1) && SortedBy(mode, v2)
    requires DistinctKeys(mode, v1)
    ensures |v2| > 0 && v1[0] == v2[0]
  {
    assert |multiset(v2)| == |v1|;
    assert v1[0] in multiset(v2) by { assert v1[0] in multiset(v1); }
    assert v2[0] in multiset(v1) by { assert v2[0] in multiset(v2); }
    HeadIsLeast(mode, v1, v2[0]);
    HeadIsLeast(mode, v2, v1[0]);
    var k :| 0 <= k < |v1| && v1[k] == v2[0];
    if k != 0 {
      assert Tied(mode, v1[0], v1[k]);
      assert false;
    }
  }

  /** Removing a common first element leaves permutations of each other. */
  lemma TailsPermutation(v1: seq<Process>, v2: seq<Process>)
    requires |v1| > 0 && |v2| > 0 && v1[0] == v2[0]
    requires multiset(v1) == multiset(v2)
    ensures multiset(v1[1..]) == multiset(v2[1..])
  {
    calc {
      multiset(v1[1..]);
      { assert v1 == [v1[0]] + v1[1..]; assert multiset(v1) == multiset([v1[0]]) + multiset(v1[1..]); }
      multiset(v1) - multiset{v1[0]};
      multiset(v2) - multiset{v2[0]};
      { assert v2 == [v2[0]] + v2[1..]; assert multiset(v2) == multiset([v2[0]]) + multiset(v2[1..]); }
      multiset(v2[1..]);
    }
  }

  /**
   * When no two processes share a key, the order the sort produces is unique: every
   * sorted permutation of the same processes is the same sequence.
   */
  lemma {:induction false} SortedViewsAgree(mode: SortMode, v1: seq<Process>, v2: seq<Process>)
    requires multiset(v1) == multiset(v2)
    requires SortedBy(mode, v1) && SortedBy(mode, v2)
    requires DistinctKeys(mode, v1)
    ensures v1 == v2
  {
    if |v1| == 0 {
      assert |multiset(v2)| == 0;
    } else {
      HeadsAgree(mode, v1, v2);
      TailsPermutation(v1, v2);
      SortedViewsAgree(mode, v1[1..], v2[1..]);
      assert v1 == [v1[0]] + v1[1..] && v2 == [v2[0]] + v2[1..];
    }
  }

  /** With unique pids in the snapshot, the pid ordering is strictly increasing. */
  lemma PidViewStrictlyIncreasing(procs: seq<Process>, view: seq<Process>)
    requires IsSortedView(procs, Pid, view)
    requires DistinctKeys(Pid, procs)
    ensures forall i, j :: 0 <= i < j < |view| ==> view[i].pid < view[j].pid
  {
    DistinctKeysPermutation(Pid, procs, view);
  }

  /** The three processes of the worked ordering example. */
  function ExampleSnapshot(): seq<Process>
  {
    [Process(10, "u", "a", "", 0, 5.0, 200, 1, 0),
     Process(20, "u", "b", "", 0, 50.0, 100, 1, 0),
     Process(30, "u", "c", "", 0, 10.0, 500, 1, 0)]
  }

  /**
   * When a sorted permutation `w` of `procs` with distinct keys is known, it is the only
   * order the sort may produce for `procs`.
   */
  lemma OnlyOrder(mode: SortMode, procs: seq<Process>, w: seq<Process>, view: seq<Process>)
    requires IsSortedView(procs, mode, w) && DistinctKeys(mode, w)
    requires IsSortedView(procs, mode, view)
    ensures view == w
  {
    SortedViewsAgree(mode, w, view);
  }

  /** Three processes each strictly before the next are sorted with distinct keys. */
  lemma StrictlyOrdered3(mode: SortMode, a: Process, b: Process, c: Process)
    requires Before(mode, a, b) && Before(mode, b, c) && Before(mode, a, c)
    ensures SortedBy(mode, [a, b, c]) && DistinctKeys(mode, [a, b, c])
  {
    var w := [a, b, c];
    forall i, j | 0 <= i < j < 3
      ensures Before(mode, w[i], w[j])
    {
    }
  }

  /** Moving the first element to the end keeps the multiset. */
  lemma RotateLeft(s: seq<Process>)
    requires |s| >= 1
    ensures multiset(s[1..] + [s[0]]) == multiset(s)
  {
    calc {
      multiset(s[1..] + [s[0]]);
      multiset(s[1..]) + multiset([s[0]]);
      multiset([s[0]] + s[1..]);
      { assert [s[0]] + s[1..] == s; }
      multiset(s);
    }
  }

  /** Rotating three elements keeps their multiset. */
  lemma Rotate3(a: Process, b: Process, c: Process)
    ensures multiset([b, c, a]) == multiset([a, b, c])
  {
    RotateLeft([a, b, c]);
    assert [a, b, c][1..] + [a] == [b, c, a];
  }

  /** By CPU the example snapshot is listed as pids 20, 30, 10. */
  lemma ExampleCpuOrder(view: seq<Process>)
    requires IsSortedView(ExampleSnapshot(), Cpu, view)
    ensures Pids(view) == [20, 30, 10]
  {
    var s := ExampleSnapshot();
    var a, b, c := s[0], s[1], s[2];
    StrictlyOrdered3(Cpu, b, c, a);
    Rotate3(a, b, c);
    assert s == [a, b, c];
    OnlyOrder(Cpu, s, [b, c, a], view);
    PidsOf3(b, c, a);
  }

  /** By memory the example snapshot is listed as pids 30, 10, 20. */
  lemma ExampleMemOrder(view: seq<Process>)
    requires IsSortedView(ExampleSnapshot(), Mem, view)
    ensures Pids(view) == [30, 10, 20]
  {
    var s := ExampleSnapshot();
    var a, b, c := s[0], s[1], s[2];
    StrictlyOrdered3(Mem, c, a, b);
    Rotate3(a, b, c);
    Rotate3(b, c, a);
    assert s == [a, b, c];
    OnlyOrder(Mem, s, [c, a, b], view);
    PidsOf3(c, a, b);
  }

  /** By pid the example snapshot is listed as pids 10, 20, 30. */
  lemma ExamplePidOrder(view: seq<Process>)
    requires IsSortedView(ExampleSnapshot(), Pid, view)
    ensures Pids(view) == [10, 20, 30]
  {
    var s := ExampleSnapshot();
    var a, b, c := s[0], s[1], s[2];
    StrictlyOrdered3(Pid, a, b, c);
    assert s == [a, b, c];
    OnlyOrder(Pid, s, s, view);
    PidsOf3(a, b, c);
  }

  lemma PidsOf3(a: Process, b: Process, c: Process)
    ensures Pids([a, b, c]) == [a.pid, b.pid, c.pid]
  {
    assert [a, b, c][1..] == [b, c];
    assert [b, c][1..] == [c];
  }

  function Pids(s: seq<Process>): (r: seq<int>)
    ensures |r| == |s| && forall k :: 0 <= k < |s| ==> r[k] == s[k].pid
  {
    if s == [] then [] else [s[0].pid] + Pids(s[1..])
  }
}
