/** network_trust.py with holder_server.py: fetches and heartbeats of any number of threads over
    one reply stream per holder.  Replies may be late, receives may stop half way through a line
    (what was read is lost), holders may die, and the list of live holders a fetch works from
    may be stale.  Everything is a step of its own; the lock is explicit, and the marks and the kill
    are a group of TrustPolicy, one of whose threads moves while a client thread is marking. */
module NetworkTrust {
  import opened Bytes
  import opened Shamir
  import LocalTrust
  import TrustPolicy
  import opened Wire
  import opened Wrappers

  datatype Op = GetShare | Ping

  /** One connection: requests the holder has not handled yet, replies it has written, and how
      many bytes of them the client has read. */
  datatype Connection = Connection(alive: bool, requests: seq<Op>, sent: seq<Reply>, read: nat)

  /** What a client thread is doing. */
  datatype Activity =
    | Idle
    | FetchWaiting(alive: seq<nat>)                                            // for the lock
    | FetchAsking(alive: seq<nat>, collected: seq<Share>)                      // about to send
    | FetchReceiving(alive: seq<nat>, collected: seq<Share>, buf: string)      // in _recv_line
    | Fetched(result: Result<Blob>)                                            // fetch() returned
    | Raised                                                                   // TrustGroupCompromised
    | PingWaiting(i: nat)
    | PingReceiving(i: nat, buf: string)
    | PingFailed(i: nat)                                                       // about to mark i
    | Marking(i: nat, fetching: bool)                                          // in _on_holder_compromised(i)
  {
    predicate NeedsLock() {
      FetchAsking? || FetchReceiving? || PingReceiving? || (Marking? && fetching)
    }
  }

  /** The constants of a group, and json.loads. */
  datatype Config = Config(k: nat, n: nat, threshold: int, shares: seq<Share>, loads: Loader)

  datatype Net = Net(
    policy: TrustPolicy.Group,     // _compromised_indices, the kill, and who is marking
    lock: Option<nat>,
    threads: seq<Activity>,
    conns: seq<Connection>)

  datatype Action =
    | StartFetch(t: nat) | StartPing(t: nat, i: nat) | Acquire(t: nat) | Send(t: nat)
    | Receive(t: nat, m: nat) | Complete(t: nat) | Fail(t: nat)
    | MarkPinged(t: nat) | Decide(t: nat) | Return(t: nat)
    | Answer(h: nat) | Die(h: nat)

  function At(s: Net, t: nat, a: Activity): Net
    requires t < |s.threads|
  {
    s.(threads := s.threads[t := a])
  }

  function WithRequest(s: Net, i: nat, op: Op): Net
    requires i < |s.conns|
  {
    s.(conns := s.conns[i := s.conns[i].(requests := s.conns[i].requests + [op])])
  }

  /** Thread t calls _on_holder_compromised(i). */
  function Enter(s: Net, t: nat, i: nat, fetching: bool): Net
    requires t < |s.threads| == |s.policy.threads|
  {
    At(s, t, Marking(i, fetching)).(policy := TrustPolicy.At(s.policy, t, TrustPolicy.Entered(i)))
  }

  function Release(s: Net): Net {
    s.(lock := None)
  }

  /** The connection a receiving thread reads, and what it has read so far. */
  function Reading(a: Activity): Option<nat> {
    match a
    case FetchReceiving(alive, collected, _) => if |collected| < |alive| then Some(alive[|collected|]) else None
    case PingReceiving(i, _) => Some(i)
    case _ => None
  }

  function WithBuffer(a: Activity, buf: string): Activity
    requires a.FetchReceiving? || a.PingReceiving?
  {
    match a
    case FetchReceiving(alive, collected, _) => FetchReceiving(alive, collected, buf)
    case PingReceiving(i, _) => PingReceiving(i, buf)
  }

  /** fetch() after a line: the next share, the result, or the exception path.  An answer that is
      no object at all would raise what fetch() does not catch, so nobody would be marked. */
  ghost function AfterShareLine(c: Config, s: Net, t: nat, alive: seq<nat>, collected: seq<Share>, buf: string): Net
    requires t < |s.threads| == |s.policy.threads| && |collected| < |alive|
  {
    match c.loads(buf)
    case Loaded(ShareReply(x, y)) =>
      var collected' := collected + [Share(x, y)];
      if |collected'| == c.k then Release(At(s, t, Fetched(Combined(collected'))))
      else At(s, t, FetchAsking(alive, collected'))
    case OtherJson => Release(At(s, t, Raised))
    case _ => Enter(s, t, alive[|collected|], true)
  }

  /** _ping() after a line. */
  ghost function AfterPingLine(c: Config, s: Net, t: nat, i: nat, buf: string): Net
    requires t < |s.threads|
  {
    Release(At(s, t, if c.loads(buf) == Loaded(Pong) then Idle else PingFailed(i)))
  }

  ghost predicate Step(c: Config, s: Net, s': Net, action: Action) {
    && !s.policy.killed && |s.policy.threads| == |s.threads|
    && match action
       case StartFetch(t) =>
         && t < |s.threads| && (s.threads[t].Idle? || s.threads[t].Fetched? || s.threads[t].Raised?)
         && var alive := LocalTrust.AliveIndices(c.n, s.policy.marked);
            s' == At(s, t, if |alive| < c.k then Raised else FetchWaiting(alive))
       case StartPing(t, i) =>
         && t < |s.threads| && s.threads[t].Idle? && i < c.n && i !in s.policy.marked
         && s' == At(s, t, PingWaiting(i))
       case Acquire(t) =>
         && t < |s.threads| && s.lock == None
         && (match s.threads[t]
             case FetchWaiting(alive) => s' == At(s, t, FetchAsking(alive, [])).(lock := Some(t))
             case PingWaiting(i) =>
               i < |s.conns| && s' == At(WithRequest(s, i, Ping), t, PingReceiving(i, "")).(lock := Some(t))
             case _ => false)
       case Send(t) =>
         && t < |s.threads| && s.threads[t].FetchAsking?
         && var FetchAsking(alive, collected) := s.threads[t];
            && |collected| < |alive| && alive[|collected|] < |s.conns|
            && s' == At(WithRequest(s, alive[|collected|], GetShare), t, FetchReceiving(alive, collected, ""))
       case Receive(t, m) =>
         && t < |s.threads| && (s.threads[t].FetchReceiving? || s.threads[t].PingReceiving?)
         && !EndsLine(s.threads[t].buf) && 1 <= m <= 4096
         && Reading(s.threads[t]).Some? && Reading(s.threads[t]).value < |s.conns|
         && var i := Reading(s.threads[t]).value;
            var conn := s.conns[i];
            && conn.read + m <= |Text(conn.sent)|
            && s' == At(s, t, WithBuffer(s.threads[t], s.threads[t].buf + Text(conn.sent)[conn.read..conn.read + m]))
                     .(conns := s.conns[i := conn.(read := conn.read + m)])
       case Complete(t) =>
         && t < |s.threads|
         && (match s.threads[t]
             case FetchReceiving(alive, collected, buf) =>
               EndsLine(buf) && |collected| < |alive| && s' == AfterShareLine(c, s, t, alive, collected, buf)
             case PingReceiving(i, buf) =>
               EndsLine(buf) && s' == AfterPingLine(c, s, t, i, buf)
             case _ => false)
       case Fail(t) =>
         && t < |s.threads|
         && (match s.threads[t]
             case FetchAsking(alive, collected) =>
               |collected| < |alive| && s' == Enter(s, t, alive[|collected|], true)
             case FetchReceiving(alive, collected, _) =>
               |collected| < |alive| && s' == Enter(s, t, alive[|collected|], true)
             case PingReceiving(i, _) => s' == Release(At(s, t, PingFailed(i)))
             case _ => false)
       case MarkPinged(t) =>
         && t < |s.threads| && s.threads[t].PingFailed?
         && s' == Enter(s, t, s.threads[t].i, false)
       case Decide(t) =>
         && t < |s.threads| && s.threads[t].Marking? && !s.policy.threads[t].Outside?
         && TrustPolicy.Step(s.policy, s'.policy, t) && s' == s.(policy := s'.policy)
       case Return(t) =>
         && t < |s.threads| && s.threads[t].Marking? && s.policy.threads[t].Outside?
         && s' == if s.threads[t].fetching then Release(At(s, t, Raised)) else At(s, t, Idle)
       case Answer(h) =>
         && h < |s.conns| && h < |c.shares| && s.conns[h].alive && s.conns[h].requests != []
         && var conn := s.conns[h];
            var reply := if conn.requests[0].GetShare? then ShareReply(c.shares[h].x, c.shares[h].y) else Pong;
            s' == s.(conns := s.conns[h := conn.(requests := conn.requests[1..], sent := conn.sent + [reply])])
       case Die(h) =>
         && h < |s.conns|
         && s' == s.(conns := s.conns[h := s.conns[h].(alive := false)])
  }

  ghost predicate Init(c: Config, s: Net) {
    && TrustPolicy.Init(s.policy) && s.policy.n == c.n && s.policy.threshold == c.threshold
    && |s.policy.threads| == |s.threads| && s.lock == None
    && (forall t :: 0 <= t < |s.threads| ==> s.threads[t].Idle?)
    && |s.conns| == c.n && forall i :: 0 <= i < c.n ==> s.conns[i] == Connection(true, [], [], 0)
  }

  // ---------------------------------------------------------------- what every step keeps

  /** The group hands out shares of one secret. */
  ghost predicate SharesOf(c: Config, secret: Blob, rand: seq<seq<Byte>>) {
    && 1 <= c.k <= c.n <= 255 && |c.shares| == c.n && Randomness(rand, |secret|, c.k)
    && forall i :: 0 <= i < c.n ==> c.shares[i] == ShareAt(secret, rand, i + 1)
  }

  /** A holder only ever wrote pongs and its own share. */
  ghost predicate Genuine(share: Share, sent: seq<Reply>) {
    forall r :: r in sent ==> r == Pong || r == ShareReply(share.x, share.y)
  }

  ghost predicate ConnectionOk(share: Share, conn: Connection) {
    conn.read <= |Text(conn.sent)| && Genuine(share, conn.sent)
  }

  /** A buffer holds exactly the last bytes read from its connection. */
  ghost predicate BufferOk(conn: Connection, buf: string) {
    |buf| <= conn.read <= |Text(conn.sent)| && buf == Text(conn.sent)[conn.read - |buf|..conn.read]
  }

  /** A fetch asks k or more different holders, and what it collected are their shares. */
  ghost predicate CollectedOk(c: Config, alive: seq<nat>, collected: seq<Share>) {
    && |c.shares| == c.n && |collected| < c.k <= |alive|
    && (forall j :: 0 <= j < |alive| ==> alive[j] < c.n)
    && (forall j, l :: 0 <= j < l < |alive| ==> alive[j] < alive[l])
    && forall j :: 0 <= j < |collected| ==> collected[j] == c.shares[alive[j]]
  }

  ghost predicate ActivityOk(c: Config, conns: seq<Connection>, secret: Blob, a: Activity) {
    && |conns| == c.n
    && match a
       case FetchWaiting(alive) => CollectedOk(c, alive, [])
       case FetchAsking(alive, collected) => CollectedOk(c, alive, collected)
       case FetchReceiving(alive, collected, buf) =>
         CollectedOk(c, alive, collected) && BufferOk(conns[alive[|collected|]], buf)
       case Fetched(result) => result == Ok(secret)
       case PingWaiting(i) => i < c.n
       case PingReceiving(i, buf) => i < c.n && BufferOk(conns[i], buf)
       case PingFailed(i) => i < c.n
       case _ => true
  }

  ghost predicate Invariant(c: Config, s: Net, secret: Blob) {
    && |s.conns| == c.n == |c.shares| && c.k >= 1
    && (forall i :: 0 <= i < c.n ==> ConnectionOk(c.shares[i], s.conns[i]))
    && (forall t :: 0 <= t < |s.threads| ==> ActivityOk(c, s.conns, secret, s.threads[t]))
    && (forall t :: 0 <= t < |s.threads| && s.threads[t].NeedsLock() ==> s.lock == Some(t))
    && (s.lock.Some? ==> s.lock.value < |s.threads| && s.threads[s.lock.value].NeedsLock())
  }

  /** A thread that does not need the lock does not look at the connections. */
  lemma UnlockedActivityOk(c: Config, conns: seq<Connection>, conns': seq<Connection>, secret: Blob, a: Activity)
    requires |conns| == |conns'| == c.n && !a.NeedsLock() && ActivityOk(c, conns, secret, a)
    ensures ActivityOk(c, conns', secret, a)
  {
  }

  /** Appending to a stream leaves what was read unchanged. */
  lemma BufferKept(conn: Connection, conn': Connection, buf: string)
    requires BufferOk(conn, buf) && conn'.read == conn.read
    requires conn'.sent == conn.sent || exists r :: conn'.sent == conn.sent + [r]
    ensures BufferOk(conn', buf)
  {
    hide Text, Line;
    if conn'.sent != conn.sent {
      var r :| conn'.sent == conn.sent + [r];
      TextAppend(conn.sent, r);
      assert Text(conn'.sent)[..|Text(conn.sent)|] == Text(conn.sent);
    }
  }

  /** What is read as a line, if it is accepted at all, is a pong or the share of the holder it
      was read from. */
  lemma LineIsGenuine(loads: Loader, share: Share, conn: Connection, buf: string)
    requires ConnectionOk(share, conn) && BufferOk(conn, buf) && EndsLine(buf)
    ensures loads(buf) in {LoadResult.ValueError, Loaded(Pong), Loaded(ShareReply(share.x, share.y))}
  {
    hide Text, EndsLine, LoaderLaw;
    SegmentWasSent(loads, conn.sent, conn.read - |buf|, conn.read);
  }

  lemma CompleteFetchOk(c: Config, secret: Blob, rand: seq<seq<Byte>>, alive: seq<nat>, collected: seq<Share>)
    requires SharesOf(c, secret, rand)
    requires |collected| == c.k <= |alive|
    requires forall j :: 0 <= j < |alive| ==> alive[j] < c.n
    requires forall j, l :: 0 <= j < l < |alive| ==> alive[j] < alive[l]
    requires forall j :: 0 <= j < |collected| ==> collected[j] == c.shares[alive[j]]
    ensures Combined(collected) == Ok(secret)
  {
    var xs: seq<Byte> := seq(c.k, j requires 0 <= j < c.k => alive[j] + 1);
    AnySharesReconstruct(secret, rand, c.k, xs, collected);
  }

  lemma CompleteKeepsInvariant(c: Config, s: Net, s': Net, t: nat, secret: Blob, rand: seq<seq<Byte>>)
    requires Invariant(c, s, secret) && SharesOf(c, secret, rand) && Step(c, s, s', Complete(t))
    ensures Invariant(c, s', secret)
  {
    hide Combined, LoaderLaw, EndsLine, BufferOk, ConnectionOk, ShareAt, Randomness;
    assert forall u :: 0 <= u < |s.threads| && u != t ==> s'.threads[u] == s.threads[u];
    if s.threads[t].FetchReceiving? {
      var FetchReceiving(alive, collected, buf) := s.threads[t];
      var i := alive[|collected|];
      LineIsGenuine(c.loads, c.shares[i], s.conns[i], buf);
      if c.loads(buf).Loaded? && c.loads(buf).reply.ShareReply? {
        var collected' := collected + [c.shares[i]];
        if |collected'| == c.k {
          CompleteFetchOk(c, secret, rand, alive, collected');
        }
      }
    }
  }

  lemma BufferExtended(conn: Connection, buf: string, m: nat)
    requires BufferOk(conn, buf) && conn.read + m <= |Text(conn.sent)|
    ensures BufferOk(conn.(read := conn.read + m), buf + Text(conn.sent)[conn.read..conn.read + m])
  {
    hide Text;
  }

  lemma ReceiveKeepsInvariant(c: Config, s: Net, s': Net, t: nat, m: nat, secret: Blob)
    requires Invariant(c, s, secret) && Step(c, s, s', Receive(t, m))
    ensures Invariant(c, s', secret)
  {
    hide Text, Genuine, CollectedOk, EndsLine;
    var i := Reading(s.threads[t]).value;
    var conn, buf := s.conns[i], s.threads[t].buf;
    assert ActivityOk(c, s.conns, secret, s.threads[t]);
    var buf' := buf + Text(conn.sent)[conn.read..conn.read + m];
    assert BufferOk(s'.conns[i], buf') by { BufferExtended(conn, buf, m); }
    hide BufferOk;
    forall u | 0 <= u < |s.threads| && u != t ensures ActivityOk(c, s'.conns, secret, s'.threads[u]) {
      UnlockedActivityOk(c, s.conns, s'.conns, secret, s.threads[u]);
    }
  }

  lemma ConnectionStepKeepsInvariant(c: Config, s: Net, s': Net, h: nat, secret: Blob)
    requires Invariant(c, s, secret) && h < c.n
    requires s' == s.(conns := s'.conns) && |s'.conns| == c.n
    requires forall i :: 0 <= i < c.n && i != h ==> s'.conns[i] == s.conns[i]
    requires s'.conns[h].read == s.conns[h].read
    requires s'.conns[h].sent == s.conns[h].sent
      || exists r ::
        s'.conns[h].sent == s.conns[h].sent + [r] && (r == Pong || r == ShareReply(c.shares[h].x, c.shares[h].y))
    ensures Invariant(c, s', secret)
  {
    if s'.conns[h].sent != s.conns[h].sent {
      var r :| s'.conns[h].sent == s.conns[h].sent + [r];
      TextAppend(s.conns[h].sent, r);
    }
    hide Text;
    forall t | 0 <= t < |s.threads| ensures ActivityOk(c, s'.conns, secret, s'.threads[t]) {
      assert ActivityOk(c, s.conns, secret, s.threads[t]);
      match s.threads[t]
      case FetchReceiving(alive, collected, buf) =>
        BufferKept(s.conns[alive[|collected|]], s'.conns[alive[|collected|]], buf);
      case PingReceiving(i, buf) =>
        BufferKept(s.conns[i], s'.conns[i], buf);
      case _ =>
    }
  }

  /** Steps that touch at most the thread, the marks and the lock. */
  lemma ThreadStepKeepsInvariant(c: Config, s: Net, s': Net, t: nat, secret: Blob)
    requires Invariant(c, s, secret) && t < |s.threads|
    requires s'.conns == s.conns && |s'.threads| == |s.threads| && s'.threads == s.threads[t := s'.threads[t]]
    requires ActivityOk(c, s.conns, secret, s'.threads[t])
    requires s'.lock == s.lock || (s'.lock == None && s.lock == Some(t)) || (s'.lock == Some(t) && s.lock == None)
    requires s'.threads[t].NeedsLock() <==> s'.lock == Some(t)
    ensures Invariant(c, s', secret)
  {
  }

  lemma SendKeepsInvariant(c: Config, s: Net, s': Net, action: Action, secret: Blob)
    requires Invariant(c, s, secret) && Step(c, s, s', action) && (action.Send? || action.Acquire?)
    ensures Invariant(c, s', secret)
  {
    var t := action.t;
    hide Text, Genuine;
    var a := s.threads[t];
    assert ActivityOk(c, s.conns, secret, a);
    if a.FetchWaiting? {
      ThreadStepKeepsInvariant(c, s, s', t, secret);
    } else {
      var i := if a.PingWaiting? then a.i else a.alive[|a.collected|];
      var mid := s.(conns := s'.conns);
      ConnectionStepKeepsInvariant(c, s, mid, i, secret);
      assert s.conns[i].read <= |Text(s.conns[i].sent)|;
      assert BufferOk(mid.conns[i], "");
      ThreadStepKeepsInvariant(c, mid, s', t, secret);
    }
  }

  lemma StepKeepsInvariant(c: Config, s: Net, s': Net, action: Action, secret: Blob, rand: seq<seq<Byte>>)
    requires Invariant(c, s, secret) && SharesOf(c, secret, rand) && Step(c, s, s', action)
    ensures Invariant(c, s', secret)
  {
    hide BufferOk, ConnectionOk, SharesOf, LoaderLaw, Combined, TrustPolicy.Step, LocalTrust.AliveIndices;
    match action
    case Complete(t) => CompleteKeepsInvariant(c, s, s', t, secret, rand);
    case Receive(t, m) => ReceiveKeepsInvariant(c, s, s', t, m, secret);
    case Send(t) => SendKeepsInvariant(c, s, s', action, secret);
    case Acquire(t) => SendKeepsInvariant(c, s, s', action, secret);
    case Answer(h) => ConnectionStepKeepsInvariant(c, s, s', h, secret);
    case Die(h) => ConnectionStepKeepsInvariant(c, s, s', h, secret);
    case StartFetch(t) => ThreadStepKeepsInvariant(c, s, s', t, secret);
    case StartPing(t, i) => ThreadStepKeepsInvariant(c, s, s', t, secret);
    case Fail(t) => ThreadStepKeepsInvariant(c, s, s', t, secret);
    case MarkPinged(t) => ThreadStepKeepsInvariant(c, s, s', t, secret);
    case Decide(t) => ThreadStepKeepsInvariant(c, s, s', t, secret);
    case Return(t) => ThreadStepKeepsInvariant(c, s, s', t, secret);
  }

  // ---------------------------------------------------------------- runs

  ghost predicate Run(c: Config, run: seq<Net>, actions: seq<Action>) {
    && |run| == |actions| + 1 && Init(c, run[0])
    && forall i :: 0 <= i < |actions| ==> Step(c, run[i], run[i + 1], actions[i])
  }

  lemma {:induction false} InvariantAlongRun(c: Config, run: seq<Net>, actions: seq<Action>, i: nat, secret: Blob,
                                             rand: seq<seq<Byte>>)
    requires SharesOf(c, secret, rand) && Run(c, run, actions) && i < |run|
    ensures Invariant(c, run[i], secret)
    decreases i
  {
    if i > 0 {
      InvariantAlongRun(c, run, actions, i - 1, secret, rand);
      hide Invariant, SharesOf, Init;
      assert Step(c, run[i - 1], run[i - 1 + 1], actions[i - 1]);
      StepKeepsInvariant(c, run[i - 1], run[i], actions[i - 1], secret, rand);
    }
  }

  /** Every fetch that returns, in every run, returns exactly the root secret. */
  lemma EveryFetchReturnsTheSecret(c: Config, run: seq<Net>, actions: seq<Action>, i: nat, t: nat,
                                   secret: Blob, rand: seq<seq<Byte>>)
    requires SharesOf(c, secret, rand) && Run(c, run, actions)
    requires i < |run| && t < |run[i].threads| && run[i].threads[t].Fetched?
    ensures run[i].threads[t].result == Ok(secret)
  {
    InvariantAlongRun(c, run, actions, i, secret, rand);
  }

  /** The lock is held exactly while the thread that has it is asking, receiving, or marking in a
      fetch; nobody who has returned, raised or gone idle keeps it. */
  lemma LockIsGivenUp(c: Config, run: seq<Net>, actions: seq<Action>, i: nat, t: nat, secret: Blob,
                      rand: seq<seq<Byte>>)
    requires SharesOf(c, secret, rand) && Run(c, run, actions) && i < |run| && t < |run[i].threads|
    ensures run[i].lock == Some(t) <==> run[i].threads[t].NeedsLock()
  {
    InvariantAlongRun(c, run, actions, i, secret, rand);
    hide Run, ConnectionOk, ActivityOk, SharesOf;
  }

  lemma DeadStep(c: Config, s: Net, s': Net, action: Action, h: nat)
    requires Step(c, s, s', action) && h < |s.conns| && !s.conns[h].alive
    ensures h < |s'.conns| && !s'.conns[h].alive && s'.conns[h].sent == s.conns[h].sent
  {
    hide LoaderLaw, Combined, TrustPolicy.Step, Text, EndsLine, LocalTrust.AliveIndices;
  }

  /** A dead holder never answers again. */
  lemma {:induction false} DeadStaySilent(c: Config, run: seq<Net>, actions: seq<Action>, i: nat, later: nat, h: nat)
    requires Run(c, run, actions) && i <= later < |run| && h < |run[i].conns| && !run[i].conns[h].alive
    ensures h < |run[later].conns| && !run[later].conns[h].alive && run[later].conns[h].sent == run[i].conns[h].sent
    decreases later
  {
    if i < later {
      DeadStaySilent(c, run, actions, i, later - 1, h);
      hide Step, Init;
      assert Step(c, run[later - 1], run[later - 1 + 1], actions[later - 1]);
      DeadStep(c, run[later - 1], run[later], actions[later - 1], h);
    }
  }

  /** A complete line either is the very share of the holder asked, or sends the fetch into
      _on_holder_compromised for that holder, from which it raises. */
  lemma OutOfStepReplyRaises(c: Config, s: Net, s': Net, t: nat, secret: Blob)
    requires Invariant(c, s, secret) && Step(c, s, s', Complete(t)) && s.threads[t].FetchReceiving?
    ensures var FetchReceiving(alive, collected, buf) := s.threads[t];
      var i := alive[|collected|];
      || (&& c.loads(buf) == Loaded(ShareReply(c.shares[i].x, c.shares[i].y))
          && (s'.threads[t].FetchAsking? || s'.threads[t].Fetched?) && s'.policy == s.policy)
      || s' == Enter(s, t, i, true)
  {
    hide Combined, LoaderLaw, EndsLine, BufferOk, ConnectionOk;
    var FetchReceiving(alive, collected, buf) := s.threads[t];
    assert ActivityOk(c, s.conns, secret, s.threads[t]);
    LineIsGenuine(c.loads, c.shares[alive[|collected|]], s.conns[alive[|collected|]], buf);
  }
}
