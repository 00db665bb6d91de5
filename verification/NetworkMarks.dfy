/** The marks and the kill of the network group: its policy runs as the group of TrustPolicy does, so
    everything MarkBounds says holds of it; and losing contact with a holder ends in its mark. */
module NetworkMarks {
  import opened Bytes
  import opened Shamir
  import opened Wire
  import opened NetworkTrust
  import MarkBounds
  import opened Wrappers

  /** Where thread t is inside _on_holder_compromised fits what it is doing: outside unless it marks,
      and past the addition only once the index is among the marks. */
  ghost predicate PhaseOk(c: Config, s: Net, t: nat)
    requires t < |s.threads| == |s.policy.threads|
  {
    var phase := s.policy.threads[t];
    match s.threads[t]
    case Marking(i, _) =>
      && i < c.n
      && (phase.Entered? || phase.Adding? ==> phase.i == i)
      && (phase.Entered? || phase.Adding? || i in s.policy.marked)
    case _ => phase.Outside?
  }

  ghost predicate PolicyOk(c: Config, s: Net) {
    && |s.policy.threads| == |s.threads| && s.policy.n == c.n && s.policy.threshold == c.threshold
    && forall t :: 0 <= t < |s.threads| ==> PhaseOk(c, s, t)
  }

  /** The marks move only as a step of some thread of the policy. */
  ghost predicate PolicyMoves(s: Net, s': Net) {
    s'.policy == s.policy || exists t: nat :: TrustPolicy.Step(s.policy, s'.policy, t)
  }

  /** A step leaves the policy alone, and the threads that are not marking. */
  ghost predicate LeavesPolicy(s: Net, s': Net, t: nat) {
    && t < |s.threads| == |s'.threads| && s'.policy == s.policy && s'.threads == s.threads[t := s'.threads[t]]
    && (s.threads[t].Marking? ==> t < |s.policy.threads| && s.policy.threads[t].Outside?) && !s'.threads[t].Marking?
  }

  /** A step by which thread t, holding index i, calls _on_holder_compromised. */
  ghost predicate Enters(c: Config, s: Net, s': Net, t: nat, i: nat, fetching: bool) {
    && t < |s.threads| == |s.policy.threads| && !s.threads[t].Marking? && i < c.n && s' == Enter(s, t, i, fetching)
  }

  ghost predicate Decides(s: Net, s': Net, t: nat) {
    && t < |s.threads| == |s.policy.threads| && s.threads[t].Marking? && !s.policy.threads[t].Outside?
    && TrustPolicy.Step(s.policy, s'.policy, t) && s' == s.(policy := s'.policy)
  }

  /** Every step is of one of these kinds. */
  lemma KindOfStep(c: Config, s: Net, s': Net, a: Action, secret: Blob)
    requires Invariant(c, s, secret) && PolicyOk(c, s) && Step(c, s, s', a)
    ensures (s'.policy == s.policy && s'.threads == s.threads)
         || (exists t :: LeavesPolicy(s, s', t))
         || (exists t, i, fetching :: Enters(c, s, s', t, i, fetching))
         || (exists t :: Decides(s, s', t))
  {
    hide ConnectionOk, BufferOk, LoaderLaw, Combined, TrustPolicy.Step, TrustPolicy.At, Text, Line, EndsLine,
      LocalTrust.AliveIndices;
    match a
    case Answer(_) =>
    case Die(_) =>
    case Decide(t) => assert Decides(s, s', t);
    case MarkPinged(t) =>
      assert ActivityOk(c, s.conns, secret, s.threads[t]);
      assert Enters(c, s, s', t, s.threads[t].i, false);
    case Fail(t) =>
      assert ActivityOk(c, s.conns, secret, s.threads[t]);
      if s.threads[t].PingReceiving? {
        assert LeavesPolicy(s, s', t);
      } else {
        assert Enters(c, s, s', t, s.threads[t].alive[|s.threads[t].collected|], true);
      }
    case Complete(t) =>
      assert ActivityOk(c, s.conns, secret, s.threads[t]);
      if s'.threads[t].Marking? {
        assert Enters(c, s, s', t, s.threads[t].alive[|s.threads[t].collected|], true);
      } else {
        assert LeavesPolicy(s, s', t);
      }
    case StartFetch(t) => assert LeavesPolicy(s, s', t);
    case StartPing(t, _) => assert LeavesPolicy(s, s', t);
    case Acquire(t) => assert LeavesPolicy(s, s', t);
    case Send(t) => assert LeavesPolicy(s, s', t);
    case Receive(t, _) => assert LeavesPolicy(s, s', t);
    case Return(t) => assert LeavesPolicy(s, s', t);
  }

  // ---------------------------------------------------------------- what every step keeps

  lemma EnterIsPolicyStep(c: Config, s: Net, s': Net, t: nat, i: nat, fetching: bool)
    requires PolicyOk(c, s) && !s.policy.killed && Enters(c, s, s', t, i, fetching)
    ensures PolicyOk(c, s') && TrustPolicy.Step(s.policy, s'.policy, t)
  {
    assert PhaseOk(c, s, t);
    forall u | 0 <= u < |s'.threads|
      ensures PhaseOk(c, s', u)
    {
      assert PhaseOk(c, s, u);
    }
  }

  lemma DecideKeepsPolicyOk(c: Config, s: Net, s': Net, t: nat)
    requires PolicyOk(c, s) && Decides(s, s', t)
    ensures PolicyOk(c, s')
  {
    assert PhaseOk(c, s, t);
    TrustPolicy.StepKeepsShape(s.policy, s'.policy, t);
    forall u | 0 <= u < |s'.threads|
      ensures PhaseOk(c, s', u)
    {
      assert PhaseOk(c, s, u);
    }
  }

  lemma LeavingKeepsPolicyOk(c: Config, s: Net, s': Net, t: nat)
    requires PolicyOk(c, s) && LeavesPolicy(s, s', t)
    ensures PolicyOk(c, s')
  {
    assert PhaseOk(c, s, t);
    forall u | 0 <= u < |s'.threads|
      ensures PhaseOk(c, s', u)
    {
      assert PhaseOk(c, s, u);
    }
  }

  lemma OthersKeepPolicyOk(c: Config, s: Net, s': Net)
    requires PolicyOk(c, s) && s'.policy == s.policy && s'.threads == s.threads
    ensures PolicyOk(c, s')
  {
    forall u | 0 <= u < |s'.threads|
      ensures PhaseOk(c, s', u)
    {
      assert PhaseOk(c, s, u);
    }
  }

  lemma StepAlive(c: Config, s: Net, s': Net, a: Action)
    requires Step(c, s, s', a)
    ensures !s.policy.killed && |s'.threads| == |s.threads|
  {
    hide LoaderLaw, Combined, TrustPolicy.Step, Text, Line, EndsLine, LocalTrust.AliveIndices;
  }

  lemma StepKeepsPolicyOk(c: Config, s: Net, s': Net, a: Action, secret: Blob)
    requires Invariant(c, s, secret) && PolicyOk(c, s) && Step(c, s, s', a)
    ensures PolicyOk(c, s') && PolicyMoves(s, s')
  {
    KindOfStep(c, s, s', a, secret);
    StepAlive(c, s, s', a);
    hide Invariant, PolicyOk, Step, LeavesPolicy, Enters, Decides, TrustPolicy.Step;
    if t :| LeavesPolicy(s, s', t) {
      LeavingKeepsPolicyOk(c, s, s', t);
      LeavingLeaves(s, s', t);
    } else if t, i, fetching :| Enters(c, s, s', t, i, fetching) {
      EnterIsPolicyStep(c, s, s', t, i, fetching);
    } else if t :| Decides(s, s', t) {
      DecideKeepsPolicyOk(c, s, s', t);
      DecideMoves(s, s', t);
    } else {
      OthersKeepPolicyOk(c, s, s');
    }
  }

  lemma LeavingLeaves(s: Net, s': Net, t: nat)
    requires LeavesPolicy(s, s', t)
    ensures s'.policy == s.policy
  {
  }

  lemma DecideMoves(s: Net, s': Net, t: nat)
    requires Decides(s, s', t)
    ensures TrustPolicy.Step(s.policy, s'.policy, t)
  {
    hide TrustPolicy.Step;
  }

  // ---------------------------------------------------------------- over whole runs

  lemma InitialPolicyOk(c: Config, s: Net)
    requires Init(c, s)
    ensures PolicyOk(c, s) && TrustPolicy.Init(s.policy)
  {
  }

  lemma RunFacts(c: Config, run: seq<Net>, actions: seq<Action>)
    requires Run(c, run, actions)
    ensures |run| == |actions| + 1 && Init(c, run[0])
    ensures forall i :: 0 <= i < |actions| ==> Step(c, run[i], run[i + 1], actions[i])
  {
    hide Step, Init;
  }

  /** In every state of every run of the network group, its marks and its kill are those of a
      reachable state of the policy, with as many threads as the network has. */
  lemma {:induction false} PolicyReachable(c: Config, run: seq<Net>, actions: seq<Action>, i: nat, secret: Blob,
                                           rand: seq<seq<Byte>>)
    requires SharesOf(c, secret, rand) && Run(c, run, actions) && i < |run|
    ensures PolicyOk(c, run[i]) && TrustPolicy.Reachable(run[i].policy) && |run| > 0
      && |run[i].threads| == |run[0].threads|
    decreases i
  {
    hide *;
    RunFacts(c, run, actions);
    if i == 0 {
      InitialPolicyOk(c, run[0]);
      TrustPolicy.ReachInit(run[0].policy);
    } else {
      PolicyReachable(c, run, actions, i - 1, secret, rand);
      InvariantAlongRun(c, run, actions, i - 1, secret, rand);
      assert Step(c, run[i - 1], run[i - 1 + 1], actions[i - 1]);
      StepKeepsPolicyOk(c, run[i - 1], run[i], actions[i - 1], secret);
      StepAlive(c, run[i - 1], run[i], actions[i - 1]);
      MovesReach(run[i - 1], run[i]);
    }
  }

  lemma MovesReach(s: Net, s': Net)
    requires TrustPolicy.Reachable(s.policy) && PolicyMoves(s, s')
    ensures TrustPolicy.Reachable(s'.policy)
  {
    hide TrustPolicy.Reachable, TrustPolicy.Step;
    if s'.policy != s.policy {
      var t: nat :| TrustPolicy.Step(s.policy, s'.policy, t);
      TrustPolicy.ReachStep(s.policy, s'.policy, t);
    }
  }

  /** So in every state of every run: the process has been killed only with the threshold reached;
      while it lives, no thread being between adding and deciding, fewer holders are marked than the
      threshold, and what the marked ones know leaves every secret possible; and one thread on its
      own never gets past the threshold. */
  lemma MarksInEveryState(c: Config, run: seq<Net>, actions: seq<Action>, i: nat, secret: Blob, rand: seq<seq<Byte>>)
    requires SharesOf(c, secret, rand) && Run(c, run, actions) && i < |run|
    ensures var g := run[i].policy;
      && (g.killed ==> 0 < c.threshold <= |g.marked|)
      && (!g.killed && c.threshold > 0 && MarkBounds.Settled(g) ==> |g.marked| < c.threshold)
      && (!g.killed && c.threshold > 0 && |run[i].threads| == 1 ==> |g.marked| <= c.threshold)
      && (!g.killed && c.threshold == TrustPolicy.DefaultThreshold(c.k) && MarkBounds.Settled(g) ==>
            MarkBounds.Hidden(g.marked, c.k))
  {
    hide *;
    PolicyReachable(c, run, actions, i, secret, rand);
    PolicyFacts(c, run[i], secret, rand);
    MarksOf(run[i].policy);
    if !run[i].policy.killed && c.threshold == TrustPolicy.DefaultThreshold(c.k) && MarkBounds.Settled(run[i].policy) {
      MarkBounds.SettledMarksHide(run[i].policy, c.k);
    }
  }

  lemma PolicyFacts(c: Config, s: Net, secret: Blob, rand: seq<seq<Byte>>)
    requires PolicyOk(c, s) && SharesOf(c, secret, rand)
    ensures s.policy.threshold == c.threshold && |s.policy.threads| == |s.threads| && s.policy.n == c.n && c.k >= 1
  {
    hide PhaseOk;
  }

  lemma MarksOf(g: TrustPolicy.Group)
    requires TrustPolicy.Reachable(g)
    ensures g.killed ==> 0 < g.threshold <= |g.marked|
    ensures !g.killed && g.threshold > 0 && MarkBounds.Settled(g) ==> |g.marked| < g.threshold
    ensures !g.killed && g.threshold > 0 && |g.threads| == 1 ==> |g.marked| <= g.threshold
  {
    hide TrustPolicy.Reachable;
    if g.killed {
      MarkBounds.KilledOnlyAtThreshold(g);
    } else {
      MarkBounds.NoMoreMarks(g);
    }
  }

  // ---------------------------------------------------------------- losing contact

  /** Holder i is marked, or thread t is on its way to marking it. */
  ghost predicate Owes(s: Net, t: nat, i: nat) {
    || i in s.policy.marked
    || (t < |s.threads| && (s.threads[t] == PingFailed(i) || (s.threads[t].Marking? && s.threads[t].i == i)))
  }

  /** A thread is asking holder i, for its share or a sign of life. */
  ghost predicate Contacts(s: Net, t: nat, i: nat) {
    t < |s.threads| && match s.threads[t]
      case FetchAsking(alive, collected) => |collected| < |alive| && alive[|collected|] == i
      case FetchReceiving(alive, collected, _) => |collected| < |alive| && alive[|collected|] == i
      case PingReceiving(j, _) => j == i
      case _ => false
  }

  /** A timeout, a closed connection, or a line that is not the answer asked for. */
  ghost predicate LosesContact(c: Config, s: Net, a: Action, t: nat, i: nat) {
    && Contacts(s, t, i)
    && (a == Fail(t)
        || (a == Complete(t) && s.threads[t].PingReceiving? && c.loads(s.threads[t].buf) != Loaded(Pong))
        || (a == Complete(t) && s.threads[t].FetchReceiving? && !c.loads(s.threads[t].buf).OtherJson?
            && !(c.loads(s.threads[t].buf).Loaded? && c.loads(s.threads[t].buf).reply.ShareReply?)))
  }

  lemma LossOwes(c: Config, s: Net, s': Net, a: Action, t: nat, i: nat)
    requires Step(c, s, s', a) && LosesContact(c, s, a, t, i)
    ensures Owes(s', t, i) && t < |s'.threads| && (s'.threads[t].Marking? || s'.threads[t].PingFailed?)
  {
    hide LoaderLaw, Combined, EndsLine;
  }

  lemma StepKeepsOwing(c: Config, s: Net, s': Net, a: Action, t: nat, i: nat)
    requires PolicyOk(c, s) && Step(c, s, s', a) && Owes(s, t, i)
    ensures Owes(s', t, i)
  {
    if i !in s.policy.marked {
      assert PhaseOk(c, s, t);
    }
    hide LoaderLaw, Combined, EndsLine, LocalTrust.AliveIndices, Text, Line, PhaseOk;
    if a.Decide? {
      TrustPolicy.StepKeepsShape(s.policy, s'.policy, a.t);
    }
    hide TrustPolicy.Step;
  }

  /** Losing contact with a holder, by a timeout, a closed connection or a wrong answer, in a fetch or
      in a ping, ends in the holder's mark: in every later state it is marked, or the thread is still
      on its way to marking it. */
  lemma {:induction false} LostContactIsMarked(c: Config, run: seq<Net>, actions: seq<Action>, j: nat, later: nat,
                                               t: nat, i: nat, secret: Blob, rand: seq<seq<Byte>>)
    requires SharesOf(c, secret, rand) && Run(c, run, actions) && j < |actions| && j < later < |run|
    requires LosesContact(c, run[j], actions[j], t, i)
    ensures Owes(run[later], t, i)
    decreases later
  {
    hide *;
    RunFacts(c, run, actions);
    assert Step(c, run[later - 1], run[later - 1 + 1], actions[later - 1]);
    if later == j + 1 {
      LossOwes(c, run[j], run[j + 1], actions[j], t, i);
    } else {
      LostContactIsMarked(c, run, actions, j, later - 1, t, i, secret, rand);
      PolicyReachable(c, run, actions, later - 1, secret, rand);
      StepKeepsOwing(c, run[later - 1], run[later], actions[later - 1], t, i);
    }
  }

  /** A thread leaves _on_holder_compromised only with the holder marked: a fetch by raising and
      giving up the lock, the monitor to go on. */
  lemma MarkedOnReturn(c: Config, s: Net, s': Net, t: nat)
    requires PolicyOk(c, s) && Step(c, s, s', Return(t))
    ensures s.threads[t].Marking? && s.threads[t].i in s'.policy.marked && s'.policy == s.policy
    ensures if s.threads[t].fetching then s'.threads[t].Raised? && s'.lock == None
            else s'.threads[t].Idle? && s'.lock == s.lock
  {
    assert PhaseOk(c, s, t);
  }

  // ---------------------------------------------------------------- refusing a fetch

  lemma {:induction false} AliveIndicesCount(n: nat, marked: set<nat>)
    ensures |LocalTrust.AliveIndices(n, marked)| == |MarkBounds.Below(n) - marked|
  {
    hide *;
    if n == 0 {
      NoneAlive(marked);
    } else {
      AliveIndicesCount(n - 1, marked);
      AliveStep(n, marked);
      UnmarkedStep(n, marked);
    }
  }

  lemma UnmarkedStep(n: nat, marked: set<nat>)
    requires n > 0
    ensures |MarkBounds.Below(n) - marked| == |MarkBounds.Below(n - 1) - marked| + if n - 1 in marked then 0 else 1
  {
    var fewer, all := MarkBounds.Below(n - 1), MarkBounds.Below(n);
    assert all == fewer + {n - 1} && n - 1 !in fewer;
    hide *;
    var rest := fewer - marked;
    if n - 1 in marked {
      assert all - marked == rest;
    } else {
      assert all - marked == rest + {n - 1};
    }
  }

  lemma NoneAlive(marked: set<nat>)
    ensures LocalTrust.AliveIndices(0, marked) == [] && MarkBounds.Below(0) - marked == {}
  {
  }

  lemma AliveStep(n: nat, marked: set<nat>)
    requires n > 0
    ensures LocalTrust.AliveIndices(n, marked)
         == LocalTrust.AliveIndices(n - 1, marked) + if n - 1 in marked then [] else [n - 1]
  {
  }

  /** A fetch is refused exactly when fewer than k holders are unmarked. */
  lemma RefusedExactly(c: Config, run: seq<Net>, actions: seq<Action>, j: nat, t: nat, secret: Blob,
                       rand: seq<seq<Byte>>)
    requires SharesOf(c, secret, rand) && Run(c, run, actions) && j < |actions| && actions[j] == StartFetch(t)
    ensures j + 1 < |run| && t < |run[j + 1].threads|
    ensures run[j + 1].threads[t].Raised? <==> c.n - |run[j].policy.marked| < c.k
    ensures run[j + 1].threads[t].Raised? || run[j + 1].threads[t].FetchWaiting?
  {
    RunFacts(c, run, actions);
    PolicyReachable(c, run, actions, j, secret, rand);
    AliveIndicesCount(c.n, run[j].policy.marked);
    MarkBounds.AliveCount(run[j].policy);
    assert MarkBounds.Alive(run[j].policy) == MarkBounds.Below(c.n) - run[j].policy.marked;
    assert Step(c, run[j], run[j + 1], actions[j]);
    hide Run, SharesOf, PhaseOk, TrustPolicy.Reachable;
  }
}
