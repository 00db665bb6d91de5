/** How many holders can be marked while the main process lives, exactly; and what that means for
    the secret and for fetch(). */
module MarkBounds {
  import opened Bytes
  import opened Polynomial
  import opened Shamir
  import opened Secrecy
  import opened TrustPolicy
  import opened Wrappers

  /** A live state that a group of n holders, with this threshold and this many threads, reaches. */
  ghost predicate Lives(g: Group, n: nat, threshold: int, threads: nat) {
    Reachable(g) && !g.killed && g.n == n && g.threshold == threshold && |g.threads| == threads
  }

  /** No thread is between adding an index and acting on the new count. */
  predicate Settled(g: Group) {
    forall t :: 0 <= t < |g.threads| ==> !g.threads[t].InWindow()
  }

  /** The most marks a live state can have: a second thread can go on marking while the first is
      about to kill. */
  function MostMarks(n: nat, threshold: int, threads: nat): nat {
    if threads == 0 then 0
    else if threads == 1 && threshold > 0 then Min(threshold, n)
    else n
  }

  /** The most marks a settled live state can have. */
  function MostSettledMarks(n: nat, threshold: int, threads: nat): nat {
    if threads == 0 then 0
    else if threshold > 0 then Min(threshold - 1, n)
    else n
  }

  // ---------------------------------------------------------------- no more than that

  ghost function Below(n: nat): (s: set<nat>)
    ensures forall i: nat :: i in s <==> i < n
  {
    if n == 0 then {} else Below(n - 1) + {n - 1}
  }

  lemma {:induction false} BelowCount(n: nat)
    ensures |Below(n)| == n
  {
    if n > 0 {
      BelowCount(n - 1);
    }
  }

  lemma {:induction false} SubsetCount(a: set<nat>, b: set<nat>)
    requires a <= b
    ensures |a| <= |b| && |b - a| == |b| - |a|
    decreases |a|
  {
    if a != {} {
      var x :| x in a;
      SubsetCount(a - {x}, b - {x});
      assert b - a == (b - {x}) - (a - {x});
    } else {
      assert b - a == b;
    }
  }

  lemma MarksAreHolders(g: Group)
    requires Reachable(g)
    ensures g.marked <= Below(g.n) && |g.marked| <= g.n
  {
    ReachableInvariant(g);
    BelowCount(g.n);
    assert g.marked <= Below(g.n);
    SubsetCount(g.marked, Below(g.n));
  }

  lemma NoMoreMarks(g: Group)
    requires Reachable(g) && !g.killed
    ensures |g.marked| <= MostMarks(g.n, g.threshold, |g.threads|)
    ensures Settled(g) ==> |g.marked| <= MostSettledMarks(g.n, g.threshold, |g.threads|)
  {
    MarksAreHolders(g);
    ReachableInvariant(g);
  }

  // ---------------------------------------------------------------- and all of that

  /** A free thread takes an index up to the moment it is added. */
  lemma Add(g: Group, u: nat, i: nat)
    requires Reachable(g) && !g.killed && u < |g.threads| && g.threads[u].Outside? && i < g.n && i !in g.marked
    ensures Reachable(At(g.(marked := g.marked + {i}), u, Added))
  {
    var g1, g2 := At(g, u, Entered(i)), At(g, u, Adding(i));
    assert At(g1, u, Adding(i)) == g2;
    assert At(g2.(marked := g.marked + {i}), u, Added) == At(g.(marked := g.marked + {i}), u, Added);
    ReachStep(g, g1, u);
    ReachStep(g1, g2, u);
    ReachStep(g2, At(g.(marked := g.marked + {i}), u, Added), u);
  }

  /** It leaves again when the kill is under way or switched off, or the count is still too low. */
  lemma AddAndLeave(g: Group, u: nat, i: nat)
    requires Reachable(g) && !g.killed && u < |g.threads| && g.threads[u].Outside? && i < g.n && i !in g.marked
    requires g.killTriggered || g.threshold <= 0 || |g.marked| + 1 < g.threshold
    ensures Reachable(g.(marked := g.marked + {i}))
  {
    var more := g.(marked := g.marked + {i});
    Add(g, u, i);
    var g1 := At(more, u, Added);
    assert At(g1, u, Outside) == more;
    if g.killTriggered || g.threshold <= 0 {
      ReachStep(g1, more, u);
    } else {
      var g2 := At(more, u, Counting);
      assert At(g1, u, Counting) == g2 && At(g2, u, Outside) == more;
      ReachStep(g1, g2, u);
      ReachStep(g2, more, u);
    }
  }

  /** Otherwise it goes on to the kill. */
  lemma AddAndAim(g: Group, u: nat, i: nat)
    requires Reachable(g) && !g.killed && u < |g.threads| && g.threads[u].Outside? && i < g.n && i !in g.marked
    requires !g.killTriggered && 0 < g.threshold <= |g.marked| + 1
    ensures Reachable(At(g.(marked := g.marked + {i}, killTriggered := true), u, Killing))
  {
    var more := g.(marked := g.marked + {i});
    Add(g, u, i);
    var g1, g2, g3 := At(more, u, Added), At(more, u, Counting), At(more, u, Flagging);
    var g4 := At(more.(killTriggered := true), u, Killing);
    assert At(g1, u, Counting) == g2 && At(g2, u, Flagging) == g3;
    assert At(g3.(killTriggered := true), u, Killing) == g4;
    ReachStep(g1, g2, u);
    ReachStep(g2, g3, u);
    ReachStep(g3, g4, u);
  }

  /** The first m holders are marked and every thread is free. */
  ghost function Calm(n: nat, threshold: int, threads: nat, m: nat): Group {
    Group(n, threshold, Below(m), false, false, seq(threads, t => Outside))
  }

  lemma CalmStep(n: nat, threshold: int, threads: nat, m: nat)
    ensures var g := Calm(n, threshold, threads, m);
      g.(marked := g.marked + {m}) == Calm(n, threshold, threads, m + 1) && |g.marked| == m && m !in g.marked
  {
    BelowCount(m);
  }

  lemma {:induction false} CalmReachable(n: nat, threshold: int, threads: nat, m: nat)
    requires m <= MostSettledMarks(n, threshold, threads)
    ensures Reachable(Calm(n, threshold, threads, m)) && Settled(Calm(n, threshold, threads, m))
    decreases m
  {
    hide Reachable, Below;
    if m == 0 {
      NoneBelowZero();
      ReachInit(Calm(n, threshold, threads, 0));
    } else {
      CalmReachable(n, threshold, threads, m - 1);
      CalmStep(n, threshold, threads, m - 1);
      AddAndLeave(Calm(n, threshold, threads, m - 1), 0, m - 1);
    }
  }

  lemma NoneBelowZero()
    ensures Below(0) == {}
  {
  }

  /** The first m holders are marked and thread 0 is about to kill. */
  ghost function Aimed(n: nat, threshold: int, threads: nat, m: nat): Group
    requires threads > 0
  {
    Group(n, threshold, Below(m), true, false, seq(threads, t => Outside)[0 := Killing])
  }

  lemma AimedStep(n: nat, threshold: int, threads: nat, m: nat)
    requires threads > 0
    ensures var g := Aimed(n, threshold, threads, m);
      g.(marked := g.marked + {m}) == Aimed(n, threshold, threads, m + 1) && m !in g.marked
    ensures var g := Calm(n, threshold, threads, m);
      At(g.(marked := g.marked + {m}, killTriggered := true), 0, Killing) == Aimed(n, threshold, threads, m + 1)
  {
  }

  lemma {:induction false} AimedReachable(n: nat, threshold: int, threads: nat, m: nat)
    requires threads > 0 && 0 < threshold <= m <= n && (threads == 1 ==> m == threshold)
    ensures Reachable(Aimed(n, threshold, threads, m))
    decreases m
  {
    hide Reachable, Below;
    AimedStep(n, threshold, threads, m - 1);
    if m == threshold {
      CalmReachable(n, threshold, threads, m - 1);
      CalmStep(n, threshold, threads, m - 1);
      AddAndAim(Calm(n, threshold, threads, m - 1), 0, m - 1);
    } else {
      AimedReachable(n, threshold, threads, m - 1);
      AddAndLeave(Aimed(n, threshold, threads, m - 1), 1, m - 1);
    }
  }

  /** Some live state of this group has m marks, and no thread but the first is busy; if m allows it,
      none is. */
  lemma AllTheseMarks(n: nat, threshold: int, threads: nat, m: nat) returns (g: Group)
    requires m <= MostMarks(n, threshold, threads)
    ensures Lives(g, n, threshold, threads) && |g.marked| == m
    ensures m <= MostSettledMarks(n, threshold, threads) ==> Settled(g)
    ensures forall t :: 0 <= t < threads && (t > 0 || m <= MostSettledMarks(n, threshold, threads)) ==>
      g.threads[t].Outside?
  {
    BelowCount(m);
    if m <= MostSettledMarks(n, threshold, threads) {
      g := Calm(n, threshold, threads, m);
      CalmReachable(n, threshold, threads, m);
    } else {
      g := Aimed(n, threshold, threads, m);
      AimedReachable(n, threshold, threads, m);
    }
  }

  // ---------------------------------------------------------------- the bound, exactly

  ghost predicate MarksSeen(n: nat, threshold: int, threads: nat, m: nat) {
    exists g :: Lives(g, n, threshold, threads) && |g.marked| == m
  }

  ghost predicate SettledMarksSeen(n: nat, threshold: int, threads: nat, m: nat) {
    exists g :: Lives(g, n, threshold, threads) && Settled(g) && |g.marked| == m
  }

  /** Over all runs of any group, policy and number of threads: the numbers of marks that occur
      while the main process lives, and those that occur while no thread is in the window. */
  lemma MarksExactly(n: nat, threshold: int, threads: nat, m: nat)
    ensures MarksSeen(n, threshold, threads, m) <==> m <= MostMarks(n, threshold, threads)
    ensures SettledMarksSeen(n, threshold, threads, m) <==> m <= MostSettledMarks(n, threshold, threads)
  {
    if MarksSeen(n, threshold, threads, m) {
      var g :| Lives(g, n, threshold, threads) && |g.marked| == m;
      NoMoreMarks(g);
    }
    if SettledMarksSeen(n, threshold, threads, m) {
      var g :| Lives(g, n, threshold, threads) && Settled(g) && |g.marked| == m;
      NoMoreMarks(g);
    }
    if m <= MostMarks(n, threshold, threads) {
      var g := AllTheseMarks(n, threshold, threads, m);
    }
  }

  /** Fewer marks than the threshold, in every live state of every run. */
  ghost predicate StaysBelowThreshold(n: nat, threshold: int, threads: nat) {
    forall g :: Lives(g, n, threshold, threads) ==> |g.marked| < threshold
  }

  /** That holds exactly when the threshold cannot be reached at all. */
  lemma BelowThresholdExactly(n: nat, threshold: int, threads: nat)
    requires threshold > 0
    ensures StaysBelowThreshold(n, threshold, threads) <==> threads == 0 || threshold > n
  {
    if threads == 0 || threshold > n {
      forall g | Lives(g, n, threshold, threads)
        ensures |g.marked| < threshold
      {
        NoMoreMarks(g);
      }
    } else {
      var g := AllTheseMarks(n, threshold, threads, threshold);
    }
  }

  /** With k = 3 of n = 5 holders, k - 2 is 1; one thread reaches two marks and two threads three. */
  lemma BoundFailsInsideWindow() returns (one: Group, two: Group)
    ensures Lives(one, 5, DefaultThreshold(3), 1) && |one.marked| == 2
    ensures Lives(two, 5, DefaultThreshold(3), 2) && |two.marked| == 3
  {
    one := AllTheseMarks(5, DefaultThreshold(3), 1, 2);
    two := AllTheseMarks(5, DefaultThreshold(3), 2, 3);
  }

  /** Outside the window it always holds; with the default threshold that is max(0, k - 2). */
  lemma SettledBelowThreshold(g: Group)
    requires Reachable(g) && !g.killed && Settled(g) && g.threshold > 0
    ensures |g.marked| < g.threshold
    ensures forall k: nat :: k >= 1 && g.threshold == DefaultThreshold(k) ==> |g.marked| <= if k >= 2 then k - 2 else 0
  {
    NoMoreMarks(g);
  }

  /** The main process is killed only with the threshold reached, and never when the kill is off. */
  lemma KilledOnlyAtThreshold(g: Group)
    requires Reachable(g) && g.killed
    ensures 0 < g.threshold <= |g.marked| <= g.n
  {
    ReachableInvariant(g);
    MarksAreHolders(g);
  }

  ghost predicate KillSeen(n: nat, threshold: int, threads: nat) {
    exists g :: Reachable(g) && g.killed && g.n == n && g.threshold == threshold && |g.threads| == threads
  }

  /** Some run of a group ends in the kill exactly when the threshold is positive, there are that many
      holders, and someone marks them. */
  lemma KillExactly(n: nat, threshold: int, threads: nat)
    ensures KillSeen(n, threshold, threads) <==> threads > 0 && 0 < threshold <= n
  {
    if KillSeen(n, threshold, threads) {
      var g :| Reachable(g) && g.killed && g.n == n && g.threshold == threshold && |g.threads| == threads;
      KilledOnlyAtThreshold(g);
      ReachableInvariant(g);
    }
    if threads > 0 && 0 < threshold <= n {
      var g := Aimed(n, threshold, threads, threshold);
      AimedReachable(n, threshold, threads, threshold);
      var g' := At(g.(killed := true), 0, Outside);
      ReachStep(g, g', 0);
    }
  }

  // ---------------------------------------------------------------- the secret, exactly

  /** The points of distinct marked holders. */
  ghost predicate Marked(xs: seq<Byte>, marked: set<nat>) {
    Distinct(xs) && forall j :: 0 <= j < |xs| ==> xs[j] != 0 && xs[j] - 1 in marked
  }

  /** With suitable random bytes the other secret gives the same shares at these points. */
  ghost predicate Explains(secret: Blob, rand: seq<seq<Byte>>, other: Blob, rand': seq<seq<Byte>>, xs: seq<Byte>,
                           k: nat)
    requires Randomness(rand, |secret|, k)
  {
    && |other| == |secret| && Randomness(rand', |other|, k)
    && forall j :: 0 <= j < |xs| ==> ShareAt(secret, rand, xs[j]) == ShareAt(other, rand', xs[j])
  }

  ghost predicate Deniable(secret: Blob, rand: seq<seq<Byte>>, other: Blob, xs: seq<Byte>, k: nat)
    requires Randomness(rand, |secret|, k)
  {
    exists rand' :: Explains(secret, rand, other, rand', xs, k)
  }

  /** Whatever the secret is, the shares of the marked holders are also shares of any other secret
      of its length. */
  ghost predicate Hidden(marked: set<nat>, k: nat) {
    forall secret, rand, other, xs ::
      Randomness(rand, |secret|, k) && |other| == |secret| && Marked(xs, marked) ==>
        Deniable(secret, rand, other, xs, k)
  }

  lemma {:induction false} MarkedBound(xs: seq<Byte>, s: set<nat>)
    requires Marked(xs, s)
    ensures |xs| <= |s|
    decreases |xs|
  {
    if xs != [] {
      var m := |xs| - 1;
      MarkedBound(xs[..m], s - {xs[m] - 1});
    }
  }

  lemma {:induction false} PickMarked(s: set<nat>, k: nat) returns (xs: seq<Byte>)
    requires k <= |s| && forall i :: i in s ==> i < 255
    ensures |xs| == k && Marked(xs, s)
    decreases k
  {
    if k == 0 {
      xs := [];
    } else {
      var i :| i in s;
      xs := PickMarked(s - {i}, k - 1);
      xs := xs + [i + 1];
    }
  }

  lemma FewMarksHide(marked: set<nat>, k: nat)
    requires 1 <= k && |marked| < k
    ensures Hidden(marked, k)
  {
    forall secret, rand, other, xs
      | Randomness(rand, |secret|, k) && |other| == |secret| && Marked(xs, marked)
      ensures Deniable(secret, rand, other, xs, k)
    {
      MarkedBound(xs, marked);
      SharesBelowThresholdHideSecret(secret, other, rand, xs, k);
      assert Explains(secret, rand, other, TranslateAll(secret, other, rand, xs, k), xs, k);
    }
  }

  /** k marked shares recombine to the secret, so no other secret explains them. */
  lemma ManyMarksExpose(marked: set<nat>, k: nat)
    requires 1 <= k <= |marked| && forall i :: i in marked ==> i < 255
    ensures !Hidden(marked, k)
  {
    var xs := PickMarked(marked, k);
    var zeros: seq<seq<Byte>> := [seq(k - 1, i => 0)];
    if Deniable([0], zeros, [1], xs, k) {
      var rand' :| Explains([0], zeros, [1], rand', xs, k);
      var shares := seq(k, j requires 0 <= j < k => ShareAt([0], zeros, xs[j]));
      hide Combined, ShareAt;
      AnySharesReconstruct([0], zeros, k, xs, shares);
      AnySharesReconstruct([1], rand', k, xs, shares);
    }
  }

  lemma HiddenExactly(marked: set<nat>, k: nat)
    requires 1 <= k && forall i :: i in marked ==> i < 255
    ensures Hidden(marked, k) <==> |marked| < k
  {
    if |marked| < k {
      FewMarksHide(marked, k);
    } else {
      ManyMarksExpose(marked, k);
    }
  }

  /** In every live state of every run with the default threshold the marked holders' shares
      leave every secret possible. */
  ghost predicate AlwaysHidden(k: nat, n: nat, threads: nat)
    requires k >= 1
  {
    forall g :: Lives(g, n, DefaultThreshold(k), threads) ==> Hidden(g.marked, k)
  }

  /** That holds exactly when at most one thread marks holders, and k is not 1.  With the monitor
      and a fetch both marking, k shares can be exposed before the kill. */
  lemma AlwaysHiddenExactly(k: nat, n: nat, threads: nat)
    requires 1 <= k <= n <= 255
    ensures AlwaysHidden(k, n, threads) <==> threads == 0 || (threads == 1 && k >= 2)
  {
    hide Hidden;
    if threads == 0 || (threads == 1 && k >= 2) {
      forall g | Lives(g, n, DefaultThreshold(k), threads)
        ensures Hidden(g.marked, k)
      {
        NoMoreMarks(g);
        FewMarksHide(g.marked, k);
      }
    } else {
      var g := AllTheseMarks(n, DefaultThreshold(k), threads, k);
      MarksAreHolders(g);
      ManyMarksExpose(g.marked, k);
    }
  }

  /** Outside the window the secret is hidden with any number of threads. */
  lemma SettledMarksHide(g: Group, k: nat)
    requires Reachable(g) && !g.killed && Settled(g) && k >= 1 && g.threshold == DefaultThreshold(k)
    ensures Hidden(g.marked, k)
  {
    SettledBelowThreshold(g);
    FewMarksHide(g.marked, k);
  }

  // ---------------------------------------------------------------- fetch, exactly

  /** The holders a fetch would ask: every index below n that is not marked. */
  ghost function Alive(g: Group): set<nat> {
    Below(g.n) - g.marked
  }

  lemma AliveCount(g: Group)
    requires Reachable(g)
    ensures |Alive(g)| == g.n - |g.marked|
  {
    MarksAreHolders(g);
    BelowCount(g.n);
    SubsetCount(g.marked, Below(g.n));
  }

  /** A thread of the group calls fetch(), being outside _on_holder_compromised. */
  predicate CanFetch(g: Group) {
    exists t :: 0 <= t < |g.threads| && g.threads[t].Outside?
  }

  /** In every live state of every run enough holders are unmarked. */
  ghost predicate AlwaysEnough(k: nat, n: nat, threads: nat)
    requires k >= 1
  {
    forall g :: Lives(g, n, DefaultThreshold(k), threads) ==> |Alive(g)| >= k
  }

  /** No fetch of any run is refused for lack of unmarked holders. */
  ghost predicate NeverRefused(k: nat, n: nat, threads: nat)
    requires k >= 1
  {
    forall g :: Lives(g, n, DefaultThreshold(k), threads) && CanFetch(g) ==> |Alive(g)| >= k
  }

  /** The same of the states in which no thread is in the window. */
  ghost predicate NeverRefusedSettled(k: nat, n: nat, threads: nat)
    requires k >= 1
  {
    forall g :: Lives(g, n, DefaultThreshold(k), threads) && Settled(g) ==> |Alive(g)| >= k
  }

  lemma AlwaysEnoughExactly(k: nat, n: nat, threads: nat)
    requires 1 <= k <= n
    ensures AlwaysEnough(k, n, threads) <==> n - MostMarks(n, DefaultThreshold(k), threads) >= k
    ensures AlwaysEnough(k, n, threads) <==> threads == 0 || (threads == 1 && n >= k + DefaultThreshold(k))
  {
    hide Alive;
    var most := MostMarks(n, DefaultThreshold(k), threads);
    if n - most >= k {
      forall g | Lives(g, n, DefaultThreshold(k), threads)
        ensures |Alive(g)| >= k
      {
        NoMoreMarks(g);
        AliveCount(g);
      }
    } else {
      var g := AllTheseMarks(n, DefaultThreshold(k), threads, most);
      AliveCount(g);
    }
  }

  /** A lone thread that fetches is not in the window, so n >= 2k - 2 is enough and needed; with a
      second thread a fetch can be refused whatever n is. */
  lemma NeverRefusedExactly(k: nat, n: nat, threads: nat)
    requires 1 <= k <= n
    ensures NeverRefused(k, n, threads) <==> threads == 0 || (threads == 1 && n >= 2 * k - 2)
  {
    hide Alive;
    if threads == 0 || (threads == 1 && n >= 2 * k - 2) {
      forall g | Lives(g, n, DefaultThreshold(k), threads) && CanFetch(g)
        ensures |Alive(g)| >= k
      {
        NoMoreMarks(g);
        AliveCount(g);
      }
    } else if threads == 1 {
      var g := AllTheseMarks(n, DefaultThreshold(k), threads, k - 2);
      AliveCount(g);
      assert g.threads[0].Outside?;
    } else {
      var g := AllTheseMarks(n, DefaultThreshold(k), threads, n);
      AliveCount(g);
      assert g.threads[1].Outside?;
    }
  }

  lemma NeverRefusedSettledExactly(k: nat, n: nat, threads: nat)
    requires 1 <= k <= n
    ensures NeverRefusedSettled(k, n, threads) <==> threads == 0 || n >= 2 * k - 2
  {
    hide Alive;
    if threads == 0 || n >= 2 * k - 2 {
      forall g | Lives(g, n, DefaultThreshold(k), threads) && Settled(g)
        ensures |Alive(g)| >= k
      {
        NoMoreMarks(g);
        AliveCount(g);
      }
    } else {
      var g := AllTheseMarks(n, DefaultThreshold(k), threads, k - 2);
      AliveCount(g);
    }
  }
}
