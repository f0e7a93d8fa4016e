/** The sliding-window log behind a limiter and the recovery of limiters stuck locked (rate-limit.go). */
module RateLimit {
  import opened Seqs

  const U32: nat := 0x1_0000_0000

  datatype Task = Task(weight: nat, at: int)

  // ---- The queue ----

  function CutFrom(tasks: seq<Task>, start: int): seq<Task> {
    if start <= 0 then tasks else if start >= |tasks| then [] else tasks[start..]
  }

  class TaskQueue {
    var tasks: seq<Task>

    constructor ()
      ensures tasks == []
    {
      tasks := [];
    }

    method Len() returns (n: nat)
      ensures n == |tasks|
    {
      n := |tasks|;
    }

    /** Out-of-range positions read the nearest task; an empty queue has none to read. */
    method TaskByIndex(i: int) returns (t: Task)
      requires tasks != []
      ensures t in tasks
      ensures 0 <= i < |tasks| ==> t == tasks[i]
      ensures i < 0 ==> t == tasks[0]
      ensures i >= |tasks| ==> t == tasks[|tasks| - 1]
    {
      var j := if i < 0 then 0 else i;
      if j >= |tasks| {
        j := |tasks| - 1;
      }
      t := tasks[j];
    }

    /** Drops exactly the first min(max(start, 0), len) tasks. */
    method CutOffBefore(start: int)
      modifies this
      ensures tasks == CutFrom(old(tasks), start)
      ensures tasks == old(tasks)[Min(if start < 0 then 0 else start, |old(tasks)|)..]
    {
      if start <= 0 {
        return;
      }
      if start >= |tasks| {
        tasks := [];
        return;
      }
      tasks := tasks[start..];
    }

    method Append(more: seq<Task>) returns (all: seq<Task>)
      modifies this
      ensures tasks == old(tasks) + more && all == tasks
    {
      tasks := tasks + more;
      all := tasks;
    }
  }

  // ---- The limiter over it: the assumed contract of the library ----

  function WeightSum(tasks: seq<Task>): nat {
    if tasks == [] then 0 else tasks[0].weight + WeightSum(tasks[1..])
  }

  function Sub32(a: int, b: int): nat { (a - b) % U32 }

  function Add32(a: int, b: int): nat { (a + b) % U32 }

  datatype Limiter = Limiter(tasks: seq<Task>, total: nat)

  /** How a queue cuts its first start tasks. */
  datatype Cut = Ours | Library

  /** The library's own queue does nothing when every task has expired. */
  function CutWith(cut: Cut, tasks: seq<Task>, start: nat): seq<Task> {
    if cut.Library? && start >= |tasks| then tasks else CutFrom(tasks, start)
  }

  /** One call of Limit: take the weights of the expired tasks off the total, cut them, book the new task. */
  function Limit(cut: Cut, l: Limiter, expired: nat, t: Task): Limiter
    requires expired <= |l.tasks|
  {
    Limiter(CutWith(cut, l.tasks, expired) + [t], Add32(Sub32(l.total, WeightSum(l.tasks[..expired])), t.weight))
  }

  /** The total is the weight in the queue, as far as 32 bits hold it. */
  predicate Consistent(l: Limiter) {
    l.total == WeightSum(l.tasks) % U32
  }

  lemma {:induction false} SumConcat(a: seq<Task>, b: seq<Task>)
    ensures WeightSum(a + b) == WeightSum(a) + WeightSum(b)
  {
    if a == [] {
      assert a + b == b;
    } else {
      assert (a + b)[1..] == a[1..] + b;
      SumConcat(a[1..], b);
    }
  }

  lemma ModSteps(total: nat, sum: nat, gone: nat, w: nat)
    requires total == sum % U32 && gone <= sum
    ensures Add32(Sub32(total, gone), w) == (sum - gone + w) % U32
    ensures sum < U32 ==> gone <= total
  {
    var q := sum / U32;
    assert sum == q * U32 + total;
    assert (total - gone) % U32 == (sum - gone) % U32 by {
      assert sum - gone == (total - gone) + q * U32;
    }
    var d := (sum - gone) % U32;
    var p := (sum - gone) / U32;
    assert sum - gone + w == (d + w) + p * U32;
  }

  /** One call keeps the account, whatever has expired; and while the window's weight fits 32 bits the
      subtraction never goes below zero. */
  lemma LimitKeepsAccount(l: Limiter, expired: nat, t: Task)
    requires Consistent(l) && expired <= |l.tasks|
    ensures Consistent(Limit(Ours, l, expired, t))
    ensures WeightSum(l.tasks) < U32 ==> WeightSum(l.tasks[..expired]) <= l.total
  {
    var gone, kept := l.tasks[..expired], l.tasks[expired..];
    assert l.tasks == gone + kept && CutFrom(l.tasks, expired) == kept;
    SumConcat(gone, kept);
    SumConcat(kept, [t]);
    ModSteps(l.total, WeightSum(l.tasks), WeightSum(gone), t.weight);
  }

  /** With the library's cut the account breaks exactly when everything has expired and weighed something. */
  lemma LibraryCutBreaksIff(l: Limiter, expired: nat, t: Task)
    requires Consistent(l) && expired <= |l.tasks|
    ensures Consistent(Limit(Library, l, expired, t)) <==> !(expired == |l.tasks| && l.total != 0)
  {
    if expired < |l.tasks| {
      LimitKeepsAccount(l, expired, t);
    } else {
      assert l.tasks[..expired] == l.tasks;
      SumConcat(l.tasks, [t]);
      var sum := WeightSum(l.tasks);
      ModSteps(l.total, sum, sum, t.weight);
      SameModIff(t.weight, sum);
    }
  }

  // ---- The queue under the assumed limiter ----

  /** How many leading tasks are older than the window's start. */
  function Expired(tasks: seq<Task>, start: int): (n: nat)
    ensures n <= |tasks| && (forall i :: 0 <= i < n ==> tasks[i].at < start)
    ensures n < |tasks| ==> tasks[n].at >= start
  {
    if tasks == [] || tasks[0].at >= start then 0 else 1 + Expired(tasks[1..], start)
  }

  lemma {:induction false} ExpiredIs(tasks: seq<Task>, start: int, n: nat)
    requires n <= |tasks| && (forall i :: 0 <= i < n ==> tasks[i].at < start) && (n < |tasks| ==> tasks[n].at >= start)
    ensures Expired(tasks, start) == n
  {
    if n > 0 {
      ExpiredIs(tasks[1..], start, n - 1);
    }
  }

  lemma SubTwice(total: int, a: nat, b: nat)
    ensures Sub32(Sub32(total, a), b) == Sub32(total, a + b)
  {
    var q, r := (total - a) / U32, (total - a) % U32;
    var p, m := (r - b) / U32, (r - b) % U32;
    assert total - (a + b) == (q + p) * U32 + m;
    ModIs(total - (a + b), q + p, m);
  }

  /** The library's limiter as the comment on the queue describes it, calling the queue. */
  class WindowLimiter {
    const queue: TaskQueue
    var total: nat

    constructor ()
      ensures fresh(queue) && queue.tasks == [] && total == 0
    {
      queue := new TaskQueue();
      total := 0;
    }

    ghost function State(): Limiter
      reads this, queue
    {
      Limiter(queue.tasks, total)
    }

    method Book(start: int, t: Task)
      modifies this, queue
      ensures State() == Limit(Ours, old(State()), Expired(old(queue.tasks), start), t)
      ensures old(Consistent(State())) ==> Consistent(State())
    {
      ghost var before := State();
      var i := 0;
      var n := queue.Len();
      while i < n
        invariant i <= n == |queue.tasks| && queue.tasks == before.tasks
        invariant forall k :: 0 <= k < i ==> before.tasks[k].at < start
        invariant i > 0 ==> total == Sub32(before.total, WeightSum(before.tasks[..i]))
        invariant i == 0 ==> total == before.total
      {
        var head := queue.TaskByIndex(i);
        if head.at >= start {
          break;
        }
        assert before.tasks[..i + 1] == before.tasks[..i] + [head];
        SumConcat(before.tasks[..i], [head]);
        SubTwice(before.total, WeightSum(before.tasks[..i]), head.weight);
        total := Sub32(total, head.weight);
        i := i + 1;
      }
      ExpiredIs(before.tasks, start, i);
      queue.CutOffBefore(i);
      var _ := queue.Append([t]);
      BookNothing(before.total, t.weight);
      total := Add32(total, t.weight);
      if Consistent(before) {
        LimitKeepsAccount(before, i, t);
      }
    }
  }

  lemma BookNothing(total: int, w: nat)
    ensures Add32(Sub32(total, 0), w) == Add32(total, w)
  {
    var q, r := total / U32, total % U32;
    var p, m := (r + w) / U32, (r + w) % U32;
    assert total + w == (q + p) * U32 + m;
    ModIs(total + w, q + p, m);
  }

  lemma SameModIff(w: nat, sum: nat)
    ensures (w % U32 == (sum + w) % U32) <==> sum % U32 == 0
  {
    var r, q := w % U32, w / U32;
    var a, b := sum % U32, sum / U32;
    if a + r < U32 {
      ModIs(sum + w, q + b, a + r);
    } else {
      ModIs(sum + w, q + b + 1, a + r - U32);
    }
  }

  lemma ModIs(x: int, k: int, m: nat)
    requires x == k * U32 + m && m < U32
    ensures x % U32 == m
  {
  }

  datatype Call = Call(expired: nat, t: Task)

  /** A run of calls; a call cannot find more expired tasks than there are. */
  function LimitRun(cut: Cut, calls: seq<Call>): Limiter {
    if calls == [] then Limiter([], 0)
    else
      var l, c := LimitRun(cut, calls[..|calls| - 1]), calls[|calls| - 1];
      Limit(cut, l, Min(c.expired, |l.tasks|), c.t)
  }

  lemma {:induction false} AccountHoldsForever(calls: seq<Call>)
    ensures Consistent(LimitRun(Ours, calls))
    ensures var l := LimitRun(Ours, calls); l.total == WeightSum(l.tasks) % 0x1_0000_0000
  {
    if calls != [] {
      var l, c := LimitRun(Ours, calls[..|calls| - 1]), calls[|calls| - 1];
      AccountHoldsForever(calls[..|calls| - 1]);
      LimitKeepsAccount(l, Min(c.expired, |l.tasks|), c.t);
    }
  }
}
