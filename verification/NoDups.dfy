/**
 NoDupsListener.php: exceptions are forwarded unless a lock file of the same id is
 recent. A random clean-up deletes old lock files, once in the life of a listener.
 The directory of the lock files outlives a listener, and several may share it.
 */
module NoDups {
  // What one call sees: the listener, the id of the exception, the clock when the lock
  // is checked, written and cleaned up, and the random number that decides about the clean-up.
  datatype Call = Call(listener: nat, id: string, check: int, write: int, clean: int, roll: nat)

  // What a listener works on: the modification time of each lock file, and its own flag.
  datatype State = State(locks: map<string, int>, gcExecuted: bool)

  // gcProbability() * 10000
  const GC_ROLLS := 100

  predicate IsLockExpired(locks: map<string, int>, period: int, c: Call) {
    c.id !in locks || locks[c.id] < c.check - period
  }

  function Touched(s: State, c: Call): State {
    s.(locks := s.locks[c.id := c.write])
  }

  function CleanedUp(s: State, period: int, c: Call): State {
    if s.gcExecuted || c.roll >= GC_ROLLS then s
    else State(map id | id in s.locks && s.locks[id] > c.clean - period * 2 :: s.locks[id], true)
  }

  function After(s: State, period: int, c: Call): State {
    CleanedUp(Touched(s, c), period, c)
  }

  class LockFileDir {
    var locks: map<string, int>

    constructor ()
      ensures locks == map[]
    {
      locks := map[];
    }
  }

  class NoDupsListener {
    const dir: LockFileDir
    const period: int
    var gcExecuted: bool
    var forwarded: seq<Call>

    constructor (dir: LockFileDir, period: int)
      ensures this.dir == dir && this.period == period
      ensures !gcExecuted && forwarded == []
    {
      this.dir, this.period := dir, period;
      gcExecuted, forwarded := false, [];
    }

    function Now(): State
      reads this, dir
    {
      State(dir.locks, gcExecuted)
    }

    method Invoke(c: Call)
      modifies this, dir
      ensures forwarded == old(forwarded) + if IsLockExpired(old(dir.locks), period, c) then [c] else []
      ensures Now() == After(old(Now()), period, c)
    {
      if c.id !in dir.locks || dir.locks[c.id] < c.check - period {
        forwarded := forwarded + [c];
      }
      dir.locks := dir.locks[c.id := c.write];
      Gc(c);
    }

    method Gc(c: Call)
      modifies this`gcExecuted, dir
      ensures Now() == CleanedUp(old(Now()), period, c)
    {
      if gcExecuted || c.roll >= GC_ROLLS {
        return;
      }
      var todo := dir.locks.Keys;
      while todo != {}
        invariant todo <= dir.locks.Keys <= old(dir.locks).Keys
        invariant forall id :: id in dir.locks ==> dir.locks[id] == old(dir.locks)[id]
        invariant forall id :: id in old(dir.locks) && id !in todo ==>
                    (id in dir.locks <==> old(dir.locks)[id] > c.clean - period * 2)
        decreases |todo|
      {
        var id :| id in todo;
        todo := todo - {id};
        if dir.locks[id] <= c.clean - period * 2 {
          dir.locks := dir.locks - {id};
        }
      }
      gcExecuted := true;
    }
  }

  // Whole runs

  /** The clock never goes back, and each call comes to one of the listeners. */
  predicate Ordered(periods: seq<int>, calls: seq<Call>) {
    && (forall i :: 0 <= i < |calls| ==> calls[i].check <= calls[i].write <= calls[i].clean)
    && (forall i, j :: 0 <= i < j < |calls| ==> calls[i].clean <= calls[j].check)
    && (forall i :: 0 <= i < |calls| ==> calls[i].listener < |periods|)
  }

  function Period(periods: seq<int>, c: Call): int {
    if c.listener < |periods| then periods[c.listener] else 0
  }

  // The lock files and the listeners that have cleaned up.
  datatype Shared = Shared(locks: map<string, int>, cleaned: set<nat>)

  /** A call as its listener sees it. */
  function Called(periods: seq<int>, s: Shared, c: Call): Shared {
    var end := After(State(s.locks, c.listener in s.cleaned), Period(periods, c), c);
    Shared(end.locks, if end.gcExecuted then s.cleaned + {c.listener} else s.cleaned)
  }

  /** Calls to any number of listeners, each with its own period, over one directory. */
  function Run(periods: seq<int>, calls: seq<Call>): Shared {
    if calls == [] then Shared(map[], {})
    else Called(periods, Run(periods, calls[..|calls| - 1]), calls[|calls| - 1])
  }

  /** Whether the call at `i` is forwarded. */
  predicate Forwarded(periods: seq<int>, calls: seq<Call>, i: nat)
    requires i < |calls|
  {
    IsLockExpired(Run(periods, calls[..i]).locks, Period(periods, calls[i]), calls[i])
  }

  /** The last of the first `n` calls with the id. */
  ghost predicate LastSeen(calls: seq<Call>, id: string, n: nat, k: nat)
    requires n <= |calls|
  {
    k < n && calls[k].id == id && forall j :: k < j < n ==> calls[j].id != id
  }

  ghost predicate Seen(calls: seq<Call>, id: string, n: nat)
    requires n <= |calls|
  {
    exists k :: 0 <= k < n && calls[k].id == id
  }

  /** No listener has seen the id before, or one did last more than a period ago. */
  ghost predicate Due(periods: seq<int>, calls: seq<Call>, i: nat)
    requires i < |calls|
  {
    !Seen(calls, calls[i].id, i) ||
    exists k: nat :: LastSeen(calls, calls[i].id, i, k) && calls[k].write < calls[i].check - Period(periods, calls[i])
  }

  lemma {:induction false} LastExists(calls: seq<Call>, id: string, n: nat) returns (k: nat)
    requires n <= |calls| && Seen(calls, id, n)
    ensures LastSeen(calls, id, n, k)
    decreases n
  {
    if calls[n - 1].id == id {
      k := n - 1;
    } else {
      k := LastExists(calls, id, n - 1);
    }
  }

  /** A lock holds the time of the last call; one that is gone was old for the listener that cleaned up. */
  ghost predicate Faithful(periods: seq<int>, calls: seq<Call>, locks: map<string, int>, id: string) {
    && (id in locks ==> exists k: nat :: LastSeen(calls, id, |calls|, k) && locks[id] == calls[k].write)
    && (id !in locks && Seen(calls, id, |calls|) ==>
          exists k: nat, g: nat :: LastSeen(calls, id, |calls|, k) && CleanedAt(periods, calls, k, g))
  }

  ghost predicate CleanedAt(periods: seq<int>, calls: seq<Call>, k: nat, g: nat) {
    k <= g < |calls| && calls[k].write <= calls[g].clean - Period(periods, calls[g]) * 2
  }

  lemma {:induction false} RunIsFaithful(periods: seq<int>, calls: seq<Call>, id: string)
    ensures Faithful(periods, calls, Run(periods, calls).locks, id)
    decreases |calls|
  {
    if calls != [] {
      var n := |calls| - 1;
      var before, c := calls[..n], calls[n];
      RunIsFaithful(periods, before, id);
      var locks, end := Run(periods, before).locks, Run(periods, calls).locks;
      if c.id == id {
        assert LastSeen(calls, id, n + 1, n);
        assert id !in end ==> CleanedAt(periods, calls, n, n);
      } else if id in locks {
        var k: nat :| LastSeen(before, id, n, k) && locks[id] == before[k].write;
        assert LastSeen(calls, id, n + 1, k);
        assert id !in end ==> CleanedAt(periods, calls, k, n);
      } else if Seen(calls, id, n + 1) {
        var i :| 0 <= i < n + 1 && calls[i].id == id;
        assert before[i].id == id && Seen(before, id, n);
        var k: nat, g: nat :| LastSeen(before, id, n, k) && CleanedAt(periods, before, k, g);
        assert LastSeen(calls, id, n + 1, k) && CleanedAt(periods, calls, k, g);
      }
    }
  }

  /** The call cleans up: the random number says so for the first time in the life of its listener. */
  predicate Cleans(calls: seq<Call>, g: nat)
    requires g < |calls|
  {
    && calls[g].roll < GC_ROLLS
    && forall j :: 0 <= j < g && calls[j].listener == calls[g].listener ==> calls[j].roll >= GC_ROLLS
  }

  ghost predicate HasCleaned(calls: seq<Call>, listener: nat) {
    exists j :: 0 <= j < |calls| && calls[j].listener == listener && calls[j].roll < GC_ROLLS
  }

  lemma {:induction false} CleanedOnce(periods: seq<int>, calls: seq<Call>, listener: nat)
    ensures listener in Run(periods, calls).cleaned <==> HasCleaned(calls, listener)
    decreases |calls|
  {
    if calls != [] {
      var n := |calls| - 1;
      var before, c := calls[..n], calls[n];
      CleanedOnce(periods, before, listener);
      if HasCleaned(before, listener) {
        var j :| 0 <= j < n && before[j].listener == listener && before[j].roll < GC_ROLLS;
        assert calls[j] == before[j];
      }
      if HasCleaned(calls, listener) && !(c.listener == listener && c.roll < GC_ROLLS) {
        var j :| 0 <= j < n + 1 && calls[j].listener == listener && calls[j].roll < GC_ROLLS;
        assert before[j] == calls[j];
      }
    }
  }

  /** No clean-up from the call on finds its lock two periods old. */
  ghost predicate Survives(periods: seq<int>, calls: seq<Call>, k: nat) {
    forall g: nat :: k <= g < |calls| && Cleans(calls, g) ==> !CleanedAt(periods, calls, k, g)
  }

  lemma {:induction false} SurvivesOneMore(periods: seq<int>, calls: seq<Call>, k: nat)
    requires k < |calls| - 1
    ensures var n := |calls| - 1;
            Survives(periods, calls, k) <==>
            Survives(periods, calls[..n], k) && (Cleans(calls, n) ==> !CleanedAt(periods, calls, k, n))
  {
    var n := |calls| - 1;
    var before := calls[..n];
    forall g: nat | k <= g < n
      ensures (Cleans(calls, g) <==> Cleans(before, g))
      ensures CleanedAt(periods, calls, k, g) <==> CleanedAt(periods, before, k, g)
    {
      assert forall j :: 0 <= j <= g ==> before[j] == calls[j];
    }
  }

  lemma {:induction false} CleansIfFirst(periods: seq<int>, calls: seq<Call>)
    requires calls != []
    ensures var n := |calls| - 1;
            Cleans(calls, n) <==> calls[n].roll < GC_ROLLS && calls[n].listener !in Run(periods, calls[..n]).cleaned
  {
    var n := |calls| - 1;
    CleanedOnce(periods, calls[..n], calls[n].listener);
    assert forall j :: 0 <= j < n ==> calls[..n][j] == calls[j];
  }

  /** A lock is there exactly while no clean-up has found the last call with its id two periods old. */
  lemma {:induction false} LockedExactlyWhere(periods: seq<int>, calls: seq<Call>, id: string)
    ensures id in Run(periods, calls).locks <==>
            exists k: nat :: LastSeen(calls, id, |calls|, k) && Survives(periods, calls, k)
    decreases |calls|
  {
    if calls != [] {
      var n := |calls| - 1;
      var before, c := calls[..n], calls[n];
      CleansIfFirst(periods, calls);
      RunIsFaithful(periods, before, id);
      var locks, end := Run(periods, before).locks, Run(periods, calls).locks;
      if c.id == id {
        assert LastSeen(calls, id, |calls|, n);
        forall k: nat | LastSeen(calls, id, |calls|, k) ensures k == n {
          LastIsOne(calls, id, |calls|, k, n);
        }
        assert id in end <==> !(Cleans(calls, n) && CleanedAt(periods, calls, n, n));
        assert Survives(periods, calls, n) <==> id in end;
      } else {
        LockedExactlyWhere(periods, before, id);
        SameLast(calls, id);
        forall k: nat | LastSeen(before, id, n, k)
          ensures Survives(periods, calls, k) <==>
                  Survives(periods, before, k) && (Cleans(calls, n) ==> !CleanedAt(periods, calls, k, n))
        {
          SurvivesOneMore(periods, calls, k);
        }
        if id in locks {
          var k: nat :| LastSeen(before, id, n, k) && locks[id] == before[k].write;
          assert id in end <==> !(Cleans(calls, n) && CleanedAt(periods, calls, k, n));
          forall j: nat | LastSeen(before, id, n, j) ensures j == k {
            LastIsOne(before, id, n, j, k);
          }
        }
      }
    }
  }

  lemma {:induction false} SameLast(calls: seq<Call>, id: string)
    requires calls != [] && calls[|calls| - 1].id != id
    ensures forall k: nat :: LastSeen(calls[..|calls| - 1], id, |calls| - 1, k) <==> LastSeen(calls, id, |calls|, k)
  {
    var n := |calls| - 1;
    assert forall j :: 0 <= j < n ==> calls[..n][j] == calls[j];
  }

  lemma {:induction false} LastIsOne(calls: seq<Call>, id: string, n: nat, j: nat, k: nat)
    requires n <= |calls| && LastSeen(calls, id, n, j) && LastSeen(calls, id, n, k)
    ensures j == k
  {
  }

  lemma {:induction false} SeenInPrefix(calls: seq<Call>, id: string, n: nat)
    requires n <= |calls|
    ensures Seen(calls[..n], id, n) <==> Seen(calls, id, n)
    ensures forall k: nat :: LastSeen(calls[..n], id, n, k) <==> LastSeen(calls, id, n, k)
  {
    var before := calls[..n];
    assert forall k :: 0 <= k < n ==> before[k] == calls[k];
    if Seen(calls, id, n) {
      var k :| 0 <= k < n && calls[k].id == id;
      assert before[k].id == id;
    }
  }

  /** A listener with the first period asks for locks no older than one with the second may delete. */
  predicate Reaches(asking: int, cleaning: int) {
    asking < 0 || asking < cleaning * 2
  }

  /** Whatever the random numbers, a call is forwarded exactly when it is due. */
  lemma {:induction false} ForwardedExactlyWhenDue(periods: seq<int>, calls: seq<Call>, i: nat)
    requires Ordered(periods, calls) && i < |calls|
    requires forall b :: 0 <= b < |periods| ==> Reaches(Period(periods, calls[i]), periods[b])
    ensures Forwarded(periods, calls, i) <==> Due(periods, calls, i)
  {
    var c, before := calls[i], calls[..i];
    var period := Period(periods, c);
    var locks := Run(periods, before).locks;
    RunIsFaithful(periods, before, c.id);
    SeenInPrefix(calls, c.id, i);
    if Seen(calls, c.id, i) {
      var k := LastExists(calls, c.id, i);
      forall j: nat | LastSeen(calls, c.id, i, j) ensures j == k {
        LastIsOne(calls, c.id, i, j, k);
      }
      assert calls[k].check <= calls[k].write <= calls[k].clean <= c.check;
      if c.id !in locks {
        var j: nat, g: nat :| LastSeen(before, c.id, i, j) && CleanedAt(periods, before, j, g);
        assert j == k && before[j] == calls[j] && before[g] == calls[g];
        assert calls[g].clean <= c.check && Reaches(period, periods[calls[g].listener]);
        assert calls[k].write < c.check - period;
      } else {
        var j: nat :| LastSeen(before, c.id, i, j) && locks[c.id] == before[j].write;
        assert j == k && before[j] == calls[j];
      }
    } else {
      assert c.id !in locks by {
        assert forall j: nat :: !LastSeen(calls, c.id, i, j);
      }
    }
  }

  /** The clean-up never shows. */
  ghost predicate CleanUpIsInvisible(periods: seq<int>) {
    forall calls: seq<Call>, i: nat :: i < |calls| && Ordered(periods, calls) ==>
      (Forwarded(periods, calls, i) <==> Due(periods, calls, i))
  }

  /**
   The clean-up never shows exactly where the period of every listener is less than twice
   the period of every other and itself, or negative. For one listener that is a period other than 0.
   */
  lemma {:induction false} InvisibleExactlyWhere(periods: seq<int>)
    ensures CleanUpIsInvisible(periods) <==>
            forall a, b :: 0 <= a < |periods| && 0 <= b < |periods| ==> Reaches(periods[a], periods[b])
  {
    if a, b :| 0 <= a < |periods| && 0 <= b < |periods| && !Reaches(periods[a], periods[b]) {
      var calls := CleanUpShows(periods, a, b);
    } else {
      forall calls: seq<Call>, i: nat | i < |calls| && Ordered(periods, calls)
        ensures Forwarded(periods, calls, i) <==> Due(periods, calls, i)
      {
        ForwardedExactlyWhenDue(periods, calls, i);
      }
    }
  }

  /** One listener deletes the lock of the other while that would still hold back a call. */
  lemma {:induction false} CleanUpShows(periods: seq<int>, a: nat, b: nat) returns (calls: seq<Call>)
    requires a < |periods| && b < |periods| && !Reaches(periods[a], periods[b])
    ensures |calls| == 3 && Ordered(periods, calls) && Forwarded(periods, calls, 2) && !Due(periods, calls, 2)
  {
    var t := if periods[b] < 0 then 0 else periods[b] * 2;
    var c0, c1, c2 := Call(a, "", 0, 0, 0, GC_ROLLS), Call(b, "x", t, t, t, 0), Call(a, "", t, t, t, 0);
    calls := [c0, c1, c2];
    assert calls[..2] == [c0, c1] && [c0, c1][..1] == [c0] && [c0][..0] == [];
    var s0 := Run(periods, [c0]);
    assert s0 == Called(periods, Run(periods, []), c0) == Shared(map["" := 0], {});
    assert Run(periods, [c0, c1]) == Called(periods, s0, c1);
    assert "" !in Run(periods, [c0, c1]).locks;
    assert calls[0].id == "" && Seen(calls, "", 2) && LastSeen(calls, "", 2, 0);
    forall k: nat | LastSeen(calls, "", 2, k) ensures k == 0 {
      LastIsOne(calls, "", 2, k, 0);
    }
  }
}
