/** The kill policy shared by DistributedTrustGroup and NetworkTrustGroup, as the interleaving
    of any number of threads inside _on_holder_compromised.  The monitor and every fetch can be
    in that method at the same time and it takes no lock, so each of its reads and writes is a
    step of its own. */
module TrustPolicy {
  /** Where a thread is inside _on_holder_compromised(i). */
  datatype Phase =
    | Outside
    | Entered(i: nat)      // about to test `index in self._compromised_indices`
    | Adding(i: nat)       // about to add the index
    | Added                // about to test `_kill_triggered or _kill_threshold <= 0`
    | Counting             // about to compare the number of marks with the threshold
    | Flagging             // about to set `_kill_triggered`
    | Killing              // about to call os.kill
  {
    /** The index is added and the decision to kill is still open. */
    predicate InWindow() {
      Added? || Counting? || Flagging? || Killing?
    }
  }

  datatype Group = Group(
    n: nat,
    threshold: int,
    marked: set<nat>,          // _compromised_indices
    killTriggered: bool,       // _kill_triggered
    killed: bool,              // the main process has received SIGKILL
    threads: seq<Phase>)

  /** `kill_threshold if kill_threshold is not None else max(1, k - 1)` */
  function DefaultThreshold(k: nat): int {
    if k - 1 > 1 then k - 1 else 1
  }

  predicate Init(g: Group) {
    g.marked == {} && !g.killTriggered && !g.killed && forall t :: 0 <= t < |g.threads| ==> g.threads[t].Outside?
  }

  /** One step of thread t.  Nothing runs after the kill. */
  ghost predicate Step(g: Group, g': Group, t: nat) {
    && !g.killed && t < |g.threads|
    && match g.threads[t]
       case Outside =>
         exists i: nat :: i < g.n && g' == At(g, t, Entered(i))
       case Entered(i) =>
         g' == At(g, t, if i in g.marked then Outside else Adding(i))
       case Adding(i) =>
         g' == At(g.(marked := g.marked + {i}), t, Added)
       case Added =>
         g' == At(g, t, if g.killTriggered || g.threshold <= 0 then Outside else Counting)
       case Counting =>
         g' == At(g, t, if |g.marked| >= g.threshold then Flagging else Outside)
       case Flagging =>
         g' == At(g.(killTriggered := true), t, Killing)
       case Killing =>
         g' == At(g.(killed := true), t, Outside)
  }

  function At(g: Group, t: nat, p: Phase): Group
    requires t < |g.threads|
  {
    g.(threads := g.threads[t := p])
  }

  ghost predicate Next(g: Group, g': Group) {
    exists t: nat :: Step(g, g', t)
  }

  /** A run: consecutive states related by a step of some thread. */
  ghost predicate Run(run: seq<Group>) {
    && run != [] && Init(run[0])
    && forall i :: 0 <= i < |run| - 1 ==> Next(run[i], run[i + 1])
  }

  ghost predicate Reachable(g: Group) {
    exists run :: Run(run) && run[|run| - 1] == g
  }

  lemma ReachInit(g: Group)
    requires Init(g)
    ensures Reachable(g)
  {
    assert Run([g]);
  }

  lemma ReachStep(g: Group, g': Group, t: nat)
    requires Reachable(g) && Step(g, g', t)
    ensures Reachable(g')
  {
    var run :| Run(run) && run[|run| - 1] == g;
    assert Next(g, g');
    hide Next, Init;
    var more := run + [g'];
    forall i | 0 <= i < |more| - 1
      ensures Next(more[i], more[i + 1])
    {
      if i < |run| - 1 {
        assert more[i] == run[i] && more[i + 1] == run[i + 1];
      }
    }
    assert Run(more);
  }

  // ---------------------------------------------------------------- the invariant

  ghost predicate Invariant(g: Group) {
    && (forall i :: i in g.marked ==> i < g.n)
    && (forall t :: 0 <= t < |g.threads| ==> match g.threads[t]
          case Entered(i) => i < g.n
          case Adding(i) => i < g.n
          case _ => true)
    && (g.killTriggered && !g.killed ==> exists t :: 0 <= t < |g.threads| && g.threads[t].Killing?)
    && (!g.killed && 0 < g.threshold <= |g.marked| ==> exists t :: 0 <= t < |g.threads| && g.threads[t].InWindow())
  }

  lemma StepKeepsInvariant(g: Group, g': Group, t: nat)
    requires Invariant(g) && Step(g, g', t)
    ensures Invariant(g')
  {
    assert forall u :: 0 <= u < |g.threads| && u != t ==> g'.threads[u] == g.threads[u];
    if g'.killTriggered && !g'.killed {
      var u :| 0 <= u < |g.threads| && (if g.killTriggered then g.threads[u].Killing? else u == t);
      assert g'.threads[u].Killing?;
    }
    if !g'.killed && 0 < g'.threshold <= |g'.marked| {
      if g.threads[t].Adding? {
        assert g'.threads[t].InWindow();
      } else {
        var u :| 0 <= u < |g.threads| && g.threads[u].InWindow();
        if u != t {
          assert g'.threads[u].InWindow();
        } else if g'.threads[t].Outside? {
          assert g.killTriggered;
          var v :| 0 <= v < |g.threads| && g.threads[v].Killing?;
          assert v != t;
          assert g'.threads[v].InWindow();
        }
      }
    }
  }

  /** What few threads add to the invariant: nobody marks, or one thread overshoots by at most one. */
  ghost predicate FewThreads(g: Group) {
    && (|g.threads| == 0 ==> g.marked == {})
    && (|g.threads| == 1 && g.threshold > 0 && !g.killed ==> |g.marked| <= g.threshold)
  }

  lemma StepKeepsFewThreads(g: Group, g': Group, t: nat)
    requires Invariant(g) && FewThreads(g) && Step(g, g', t)
    ensures FewThreads(g')
  {
  }

  /** A thread compares the count only if the kill is on, and goes on only if the count is reached. */
  predicate DueToKill(g: Group, p: Phase) {
    && (p.Counting? ==> g.threshold > 0)
    && (p.Flagging? || p.Killing? ==> 0 < g.threshold <= |g.marked|)
    && (p.Killing? ==> g.killTriggered)
  }

  /** The kill comes only with the threshold reached. */
  ghost predicate KillOnly(g: Group) {
    && (g.killed ==> g.killTriggered)
    && (g.killTriggered ==> 0 < g.threshold <= |g.marked|)
    && (forall t :: 0 <= t < |g.threads| ==> DueToKill(g, g.threads[t]))
  }

  lemma StepKeepsKillOnly(g: Group, g': Group, t: nat)
    requires KillOnly(g) && Step(g, g', t)
    ensures KillOnly(g')
  {
    assert |g.marked| <= |g'.marked| by {
      if g.threads[t].Adding? && g.threads[t].i in g.marked {
        assert g'.marked == g.marked;
      }
    }
    forall u | 0 <= u < |g'.threads|
      ensures DueToKill(g', g'.threads[u])
    {
      assert DueToKill(g, g.threads[u]) && DueToKill(g, g.threads[t]);
      assert u != t ==> g'.threads[u] == g.threads[u];
    }
    assert DueToKill(g, g.threads[t]);
  }

  lemma {:induction false} InvariantAlongRun(run: seq<Group>, i: nat)
    requires Run(run) && i < |run|
    ensures Invariant(run[i]) && FewThreads(run[i]) && KillOnly(run[i])
    decreases i
  {
    if i > 0 {
      InvariantAlongRun(run, i - 1);
      hide Invariant, FewThreads, KillOnly, Step;
      assert Next(run[i - 1], run[i - 1 + 1]);
      var t: nat :| Step(run[i - 1], run[i], t);
      StepKeepsInvariant(run[i - 1], run[i], t);
      StepKeepsFewThreads(run[i - 1], run[i], t);
      StepKeepsKillOnly(run[i - 1], run[i], t);
    }
  }

  lemma ReachableInvariant(g: Group)
    requires Reachable(g)
    ensures Invariant(g) && FewThreads(g) && KillOnly(g)
  {
    var run :| Run(run) && run[|run| - 1] == g;
    InvariantAlongRun(run, |run| - 1);
  }

  lemma StepKeepsShape(g: Group, g': Group, t: nat)
    requires Step(g, g', t)
    ensures g'.n == g.n && g'.threshold == g.threshold && |g'.threads| == |g.threads| && g.marked <= g'.marked
    ensures forall u :: 0 <= u < |g.threads| && u != t ==> g'.threads[u] == g.threads[u]
  {
  }

  // ---------------------------------------------------------------- one call on its own

  /** The effect of a call of _on_holder_compromised that no other thread interleaves with. */
  function Mark(g: Group, i: nat): Group {
    if i in g.marked then g
    else
      var g' := g.(marked := g.marked + {i});
      if g.killTriggered || g.threshold <= 0 || |g'.marked| < g.threshold then g'
      else g'.(killTriggered := true, killed := true)
  }

  /** Running one thread from entry to exit alone has exactly that effect. */
  lemma AloneIsMark(g: Group, t: nat, i: nat) returns (steps: seq<Group>)
    requires !g.killed && t < |g.threads| && g.threads[t].Outside? && i < g.n
    ensures |steps| >= 3 && steps[0] == g && steps[1] == At(g, t, Entered(i)) && steps[|steps| - 1] == Mark(g, i)
    ensures forall j :: 0 <= j < |steps| - 1 ==> Step(steps[j], steps[j + 1], t)
    ensures forall j :: 0 < j < |steps| - 1 ==> t < |steps[j].threads| && !steps[j].threads[t].Outside?
  {
    var g1 := At(g, t, Entered(i));
    if i in g.marked {
      assert At(g1, t, Outside) == g;
      steps := [g, g1, g];
    } else {
      var g' := g.(marked := g.marked + {i});
      var g2, g3 := At(g1, t, Adding(i)), At(g', t, Added);
      if g.killTriggered || g.threshold <= 0 {
        assert At(g3, t, Outside) == g';
        steps := [g, g1, g2, g3, g'];
      } else {
        var g4 := At(g', t, Counting);
        if |g'.marked| < g.threshold {
          assert At(g4, t, Outside) == g';
          steps := [g, g1, g2, g3, g4, g'];
        } else {
          var g5, g6 := At(g', t, Flagging), At(g'.(killTriggered := true), t, Killing);
          assert At(g6.(killed := true), t, Outside) == Mark(g, i);
          steps := [g, g1, g2, g3, g4, g5, g6, Mark(g, i)];
        }
      }
    }
  }
}
