/** What runs of the network group there are: a fetch returns although holders died, as long as k are
    left and the threshold is not reached; with the threshold reached the process is killed. */
module NetworkRuns {
  import opened Bytes
  import opened Shamir
  import opened Wire
  import opened NetworkTrust
  import NetworkMarks
  import MarkBounds
  import opened Wrappers

  /** Some run ends in s. */
  ghost predicate Reaches(c: Config, s: Net) {
    exists run, actions :: Run(c, run, actions) && |run| > 0 && run[|run| - 1] == s
  }

  lemma ReachInit(c: Config, s: Net)
    requires Init(c, s)
    ensures Reaches(c, s)
  {
    hide Init, Step;
    var actions: seq<Action> := [];
    assert Run(c, [s], actions);
  }

  lemma ReachStep(c: Config, s: Net, s': Net, a: Action)
    requires Reaches(c, s) && Step(c, s, s', a)
    ensures Reaches(c, s')
  {
    hide Step, Init;
    var run, actions :| Run(c, run, actions) && |run| > 0 && run[|run| - 1] == s;
    var run', actions' := run + [s'], actions + [a];
    forall i | 0 <= i < |actions'|
      ensures Step(c, run'[i], run'[i + 1], actions'[i])
    {
      if i < |actions| {
        assert Step(c, run[i], run[i + 1], actions[i]);
      }
    }
    assert Run(c, run', actions');
  }

  // ---------------------------------------------------------------- holders die and are marked

  const Unused: Connection := Connection(true, [], [], 0)

  /** The one thread is idle, exactly the dead are marked, and nobody else has been contacted. */
  ghost predicate Quiet(c: Config, s: Net, dead: set<nat>) {
    && s.policy == TrustPolicy.Group(c.n, c.threshold, dead, false, false, [TrustPolicy.Outside])
    && s.threads == [Idle] && s.lock == None && |s.conns| == c.n
    && forall i :: 0 <= i < c.n && i !in dead ==> s.conns[i] == Unused
  }

  lemma Start(c: Config) returns (s: Net)
    ensures Reaches(c, s) && Quiet(c, s, {})
  {
    hide Reaches;
    var policy := TrustPolicy.Group(c.n, c.threshold, {}, false, false, [TrustPolicy.Outside]);
    s := Net(policy, None, [Idle], seq(c.n, i => Unused));
    ReachInit(c, s);
  }

  /** Holder i dies, and the heartbeat notices. */
  lemma HeartbeatFails(c: Config, s: Net, dead: set<nat>, i: nat) returns (s': Net)
    requires Reaches(c, s) && Quiet(c, s, dead) && i < c.n && i !in dead
    ensures Reaches(c, s') && s'.threads == [Marking(i, false)] && s'.lock == None && |s'.conns| == c.n
    ensures s'.policy == TrustPolicy.At(s.policy, 0, TrustPolicy.Entered(i))
    ensures forall m :: 0 <= m < c.n && m !in dead && m != i ==> s'.conns[m] == Unused
  {
    hide Reaches;
    var s1 := s.(conns := s.conns[i := s.conns[i].(alive := false)]);
    var s2 := At(s1, 0, PingWaiting(i));
    var s3 := At(WithRequest(s2, i, Ping), 0, PingReceiving(i, "")).(lock := Some(0));
    var s4 := Release(At(s3, 0, PingFailed(i)));
    s' := Enter(s4, 0, i, false);
    ReachStep(c, s, s1, Die(i));
    ReachStep(c, s1, s2, StartPing(0, i));
    ReachStep(c, s2, s3, Acquire(0));
    ReachStep(c, s3, s4, Fail(0));
    ReachStep(c, s4, s', MarkPinged(0));
  }

  /** The policy's own steps, one after the other, are steps of the network. */
  lemma {:induction false} Decided(c: Config, s: Net, steps: seq<TrustPolicy.Group>, m: nat)
    requires |s.threads| == 1 && s.threads[0].Marking? && 0 < m < |steps|
    requires Reaches(c, s.(policy := steps[1]))
    requires forall j :: 0 <= j < |steps| ==> |steps[j].threads| == 1
    requires forall j :: 0 < j < |steps| - 1 ==>
      TrustPolicy.Step(steps[j], steps[j + 1], 0) && !steps[j].threads[0].Outside?
    ensures Reaches(c, s.(policy := steps[m]))
    decreases m
  {
    if m > 1 {
      hide Reaches, TrustPolicy.Step;
      Decided(c, s, steps, m - 1);
      var before := s.(policy := steps[m - 1]);
      assert TrustPolicy.Step(steps[m - 1], steps[m - 1 + 1], 0);
      NotKilled(steps[m - 1], steps[m]);
      ReachStep(c, before, s.(policy := steps[m]), Decide(0));
    }
  }

  lemma NotKilled(g: TrustPolicy.Group, g': TrustPolicy.Group)
    requires TrustPolicy.Step(g, g', 0)
    ensures !g.killed
  {
  }

  lemma {:induction false} OneThreadThroughout(steps: seq<TrustPolicy.Group>, m: nat)
    requires m < |steps| && |steps[0].threads| == 1
    requires forall j :: 0 <= j < |steps| - 1 ==> TrustPolicy.Step(steps[j], steps[j + 1], 0)
    ensures |steps[m].threads| == 1
    decreases m
  {
    if m > 0 {
      hide TrustPolicy.Step;
      OneThreadThroughout(steps, m - 1);
      assert TrustPolicy.Step(steps[m - 1], steps[m - 1 + 1], 0);
      TrustPolicy.StepKeepsShape(steps[m - 1], steps[m], 0);
    }
  }

  /** One more holder dies: it is marked, and that is all, or it was one too many. */
  lemma MarkOne(c: Config, s: Net, dead: set<nat>, i: nat) returns (s': Net)
    requires Reaches(c, s) && Quiet(c, s, dead) && i < c.n && i !in dead
    ensures Reaches(c, s') && s'.policy.marked == dead + {i}
    ensures if 0 < c.threshold <= |dead| + 1 then s'.policy.killed else Quiet(c, s', dead + {i})
  {
    var s1 := HeartbeatFails(c, s, dead, i);
    var steps := TrustPolicy.AloneIsMark(s.policy, 0, i);
    forall j | 0 <= j < |steps| ensures |steps[j].threads| == 1 {
      OneThreadThroughout(steps, j);
    }
    hide Reaches, TrustPolicy.Step;
    Decided(c, s1, steps, |steps| - 1);
    var s2 := s1.(policy := TrustPolicy.Mark(s.policy, i));
    if s2.policy.killed {
      s' := s2;
    } else {
      s' := At(s2, 0, Idle);
      ReachStep(c, s2, s', Return(0));
    }
  }

  lemma {:induction false} MarkAll(c: Config, dead: set<nat>) returns (s: Net)
    requires (forall i :: i in dead ==> i < c.n) && (c.threshold <= 0 || |dead| < c.threshold)
    ensures Reaches(c, s) && Quiet(c, s, dead)
    decreases |dead|
  {
    hide Reaches, Quiet;
    if dead == {} {
      s := Start(c);
    } else {
      var i :| i in dead;
      s := MarkAll(c, dead - {i});
      s := MarkOne(c, s, dead - {i}, i);
      assert dead - {i} + {i} == dead;
    }
  }

  /** As many deaths as the threshold, and the heartbeats kill the main process. */
  lemma DeathsKill(c: Config, dead: set<nat>) returns (s: Net)
    requires (forall i :: i in dead ==> i < c.n) && |dead| == c.threshold > 0
    ensures Reaches(c, s) && s.policy.killed && s.policy.marked == dead
  {
    hide Reaches, Quiet;
    var i :| i in dead;
    s := MarkAll(c, dead - {i});
    s := MarkOne(c, s, dead - {i}, i);
    assert dead - {i} + {i} == dead;
  }

  // ---------------------------------------------------------------- and a fetch still returns

  function ReplyOf(c: Config, i: nat): Reply
    requires i < |c.shares|
  {
    ShareReply(c.shares[i].x, c.shares[i].y)
  }

  /** Every holder's line fits one recv(4096). */
  ghost predicate ShortLines(c: Config) {
    1 <= c.k <= c.n == |c.shares| && forall i :: 0 <= i < c.n ==> |Line(ReplyOf(c, i))| <= 4096
  }

  /** Whom a fetch may ask: k or more different holders. */
  ghost predicate Askable(c: Config, alive: seq<nat>) {
    && c.k <= |alive| && c.n == |c.shares| && (forall m :: 0 <= m < |alive| ==> alive[m] < c.n)
    && forall m, l :: 0 <= m < l < |alive| ==> alive[m] != alive[l]
  }

  /** The shares of the first j of them. */
  ghost function SharesOfFirst(c: Config, alive: seq<nat>, j: nat): (r: seq<Share>)
    requires Askable(c, alive) && j <= |alive|
    ensures |r| == j
  {
    seq(j, m requires 0 <= m < j => c.shares[alive[m]])
  }

  /** The only thread has the shares of the first j of the holders it asks; the others have not been
      asked. */
  ghost predicate Collected(c: Config, s: Net, alive: seq<nat>, j: nat) {
    && !s.policy.killed && |s.policy.threads| == |s.threads| && |s.conns| == c.n && j < c.k && Askable(c, alive)
    && s.threads == [FetchAsking(alive, SharesOfFirst(c, alive, j))]
    && forall m :: j <= m < |alive| ==> s.conns[alive[m]] == Unused
  }

  /** The share of the next one is on its way. */
  ghost predicate Asked(c: Config, s: Net, alive: seq<nat>, j: nat, conn: Connection, buf: string) {
    && !s.policy.killed && |s.policy.threads| == |s.threads| && |s.conns| == c.n && j < c.k && Askable(c, alive)
    && s.threads == [FetchReceiving(alive, SharesOfFirst(c, alive, j), buf)] && s.conns[alive[j]] == conn
    && forall m :: j < m < |alive| ==> s.conns[alive[m]] == Unused
  }

  lemma OneLine(r: Reply)
    ensures Text([r]) == Line(r) && 0 < |Line(r)| && EndsLine(Line(r))
  {
    hide Encode;
    assert [r][1..] == [];
  }

  lemma PromptAnswer(c: Config, s: Net, alive: seq<nat>, j: nat) returns (s': Net)
    requires Reaches(c, s) && Collected(c, s, alive, j)
    ensures Reaches(c, s') && s'.policy == s.policy
    ensures Asked(c, s', alive, j, Connection(true, [], [ReplyOf(c, alive[j])], 0), "")
  {
    hide Line, Text, Reaches, SharesOfFirst;
    var i, reply := alive[j], ReplyOf(c, alive[j]);
    var s1 := At(WithRequest(s, i, GetShare), 0, FetchReceiving(alive, SharesOfFirst(c, alive, j), ""));
    var conn := s1.conns[i];
    assert conn.requests == [GetShare] && conn.requests[1..] == [] && conn.sent + [reply] == [reply];
    s' := s1.(conns := s1.conns[i := conn.(requests := conn.requests[1..], sent := conn.sent + [reply])]);
    ReachStep(c, s, s1, Send(0));
    ReachStep(c, s1, s', Answer(i));
  }

  lemma PromptArrival(c: Config, s: Net, alive: seq<nat>, j: nat) returns (s': Net, conn: Connection)
    requires ShortLines(c) && Reaches(c, s) && Askable(c, alive) && j < c.k
    requires Asked(c, s, alive, j, Connection(true, [], [ReplyOf(c, alive[j])], 0), "")
    ensures Reaches(c, s') && s'.policy == s.policy && Asked(c, s', alive, j, conn, Line(ReplyOf(c, alive[j])))
  {
    hide Text, Line, ReplyOf, Reaches, SharesOfFirst;
    var i, line := alive[j], Line(ReplyOf(c, alive[j]));
    OneLine(ReplyOf(c, i));
    assert "" + line[0..|line|] == line;
    conn := s.conns[i].(read := |line|);
    s' := At(s, 0, FetchReceiving(alive, SharesOfFirst(c, alive, j), line)).(conns := s.conns[i := conn]);
    ReachStep(c, s, s', Receive(0, |line|));
  }

  lemma MoreShares(c: Config, alive: seq<nat>, j: nat)
    requires Askable(c, alive) && j < |alive|
    ensures SharesOfFirst(c, alive, j) + [c.shares[alive[j]]] == SharesOfFirst(c, alive, j + 1)
  {
  }

  lemma PromptLineTaken(c: Config, s: Net, alive: seq<nat>, j: nat, conn: Connection) returns (s': Net)
    requires Reaches(c, s) && Askable(c, alive) && j < c.k && Asked(c, s, alive, j, conn, Line(ReplyOf(c, alive[j])))
    ensures Reaches(c, s') && s'.policy == s.policy
    ensures if j + 1 < c.k then Collected(c, s', alive, j + 1) else |s'.threads| == 1 && s'.threads[0].Fetched?
  {
    hide Text, Line, LoaderLaw, Combined, EndsLine, Reaches, SharesOfFirst;
    var line := Line(ReplyOf(c, alive[j]));
    LineDecodes(c.loads, ReplyOf(c, alive[j]));
    OneLine(ReplyOf(c, alive[j]));
    MoreShares(c, alive, j);
    s' := AfterShareLine(c, s, 0, alive, SharesOfFirst(c, alive, j), line);
    ReachStep(c, s, s', Complete(0));
  }

  /** The rest of the loop in fetch(): ask, answer, receive, take the share. */
  lemma {:induction false} PromptRest(c: Config, s: Net, alive: seq<nat>, j: nat) returns (s': Net)
    requires ShortLines(c) && Reaches(c, s) && Collected(c, s, alive, j)
    ensures Reaches(c, s') && s'.policy == s.policy && |s'.threads| == 1 && s'.threads[0].Fetched?
    decreases c.k - j
  {
    CollectedFacts(c, s, alive, j);
    hide *;
    var s1 := PromptAnswer(c, s, alive, j);
    var s2, conn := PromptArrival(c, s1, alive, j);
    s' := PromptLineTaken(c, s2, alive, j, conn);
    if j + 1 < c.k {
      s' := PromptRest(c, s', alive, j + 1);
    }
  }

  lemma CollectedFacts(c: Config, s: Net, alive: seq<nat>, j: nat)
    requires Collected(c, s, alive, j)
    ensures j < c.k <= |alive| && Askable(c, alive)
  {
  }

  /** Whichever holders have died and been marked, as long as k are left and the threshold is not
      reached: if k of the others answer at once, and their answers fit one receive each, a fetch
      returns. */
  lemma FetchSurvivesDeaths(c: Config, dead: set<nat>) returns (s: Net)
    requires ShortLines(c) && (forall i :: i in dead ==> i < c.n)
    requires |dead| <= c.n - c.k && (c.threshold <= 0 || |dead| < c.threshold)
    ensures Reaches(c, s) && |s.threads| == 1 && s.threads[0].Fetched? && s.policy.marked == dead && !s.policy.killed
  {
    hide *;
    var s0 := MarkAll(c, dead);
    var s2, alive := FetchStarts(c, s0, dead);
    s := PromptRest(c, s2, alive, 0);
    MarkedKept(c, s0, dead);
  }

  lemma MarkedKept(c: Config, s: Net, dead: set<nat>)
    requires Quiet(c, s, dead)
    ensures s.policy.marked == dead && !s.policy.killed
  {
  }

  lemma EnoughAlive(c: Config, dead: set<nat>)
    requires (forall i :: i in dead ==> i < c.n) && |dead| <= c.n - c.k && c.n == |c.shares|
    ensures Askable(c, LocalTrust.AliveIndices(c.n, dead))
    ensures forall m :: 0 <= m < |LocalTrust.AliveIndices(c.n, dead)| ==> LocalTrust.AliveIndices(c.n, dead)[m] !in dead
  {
    NetworkMarks.AliveIndicesCount(c.n, dead);
    assert dead <= MarkBounds.Below(c.n);
    MarkBounds.BelowCount(c.n);
    MarkBounds.SubsetCount(dead, MarkBounds.Below(c.n));
    hide LocalTrust.AliveIndices, MarkBounds.Below;
  }

  lemma FetchStarts(c: Config, s: Net, dead: set<nat>) returns (s': Net, alive: seq<nat>)
    requires ShortLines(c) && Reaches(c, s) && Quiet(c, s, dead) && (forall i :: i in dead ==> i < c.n)
    requires |dead| <= c.n - c.k
    ensures Reaches(c, s') && s'.policy == s.policy && Collected(c, s', alive, 0)
  {
    EnoughAlive(c, dead);
    hide Reaches, LocalTrust.AliveIndices, Line, ShortLines;
    alive := LocalTrust.AliveIndices(c.n, dead);
    var s1 := At(s, 0, FetchWaiting(alive));
    s' := At(s1, 0, FetchAsking(alive, [])).(lock := Some(0));
    ReachStep(c, s, s1, StartFetch(0));
    ReachStep(c, s1, s', Acquire(0));
  }

  /** In particular with nobody dead. */
  lemma PromptFetchReturns(c: Config) returns (s: Net)
    requires ShortLines(c)
    ensures Reaches(c, s) && |s.threads| == 1 && s.threads[0].Fetched? && s.policy.marked == {}
  {
    hide Reaches;
    s := FetchSurvivesDeaths(c, {});
  }

  /** And what it returns is the secret. */
  lemma SurvivingFetchIsTheSecret(c: Config, dead: set<nat>, secret: Blob, rand: seq<seq<Byte>>) returns (s: Net)
    requires ShortLines(c) && SharesOf(c, secret, rand) && (forall i :: i in dead ==> i < c.n)
    requires |dead| <= c.n - c.k && (c.threshold <= 0 || |dead| < c.threshold)
    ensures Reaches(c, s) && |s.threads| == 1 && s.threads[0] == Fetched(Ok(secret)) && s.policy.marked == dead
  {
    hide SharesOf, ShortLines, Run;
    s := FetchSurvivesDeaths(c, dead);
    var run, actions :| Run(c, run, actions) && |run| > 0 && run[|run| - 1] == s;
    NetworkMarks.RunFacts(c, run, actions);
    EveryFetchReturnsTheSecret(c, run, actions, |run| - 1, 0, secret, rand);
  }
}
