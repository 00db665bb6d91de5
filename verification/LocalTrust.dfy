/** distributed_key.py: holders of one share each, the monitor's sweep and fetch(). */
module LocalTrust {
  import opened Bytes
  import opened Shamir
  import opened TrustPolicy
  import opened Wrappers

  datatype FetchResult = Fetched(secret: Blob) | TrustGroupCompromised

  /** _holder_process: hands its share over whenever asked, as long as it lives. */
  class Holder {
    const share: Share
    var alive: bool

    constructor (share: Share)
      ensures this.share == share && alive
    {
      this.share := share;
      alive := true;
    }

    /** "get_share" sent and the answer received; None is the broken pipe of a holder that has
        died by now. */
    method GetShare(answers: bool) returns (r: Option<Share>)
      ensures r == if answers then Some(share) else None
    {
      r := if answers then Some(share) else None;
    }
  }

  /** `[i for i in range(self.n) if i not in self._compromised_indices]` */
  function AliveIndices(n: nat, compromised: set<nat>): (s: seq<nat>)
    ensures forall j :: 0 <= j < |s| ==> s[j] < n && s[j] !in compromised
    ensures forall j, l :: 0 <= j < l < |s| ==> s[j] < s[l]
    ensures forall i :: 0 <= i < n && i !in compromised ==> i in s
  {
    if n == 0 then []
    else if n - 1 in compromised then AliveIndices(n - 1, compromised)
    else AliveIndices(n - 1, compromised) + [n - 1]
  }

  class DistributedTrustGroup {
    const tables: GaloisTables
    const k: nat
    const n: nat
    const killThreshold: int
    var compromised: set<nat>
    var killTriggered: bool
    var killed: bool               // os.kill(self._main_pid, SIGKILL) has happened
    const holders: seq<Holder>
    ghost const rootSecret: Blob   // never stored by the program
    ghost const rand: seq<seq<Byte>>

    ghost predicate Valid()
      reads tables.exp, tables.log
    {
      && tables.Valid()
      && 1 <= k <= n <= 255 && |holders| == n
      && Randomness(rand, |rootSecret|, k)
      && forall i :: 0 <= i < n ==> holders[i].share == ShareAt(rootSecret, rand, i + 1)
    }

    /** The group as the kill policy sees it, with a single thread that is outside. */
    ghost function Policy(): Group
      reads this
    {
      Group(n, killThreshold, compromised, killTriggered, killed, [Outside])
    }

    constructor (tables: GaloisTables, k: nat, n: nat, killThreshold: Option<int>, holders: seq<Holder>,
                 ghost rootSecret: Blob, ghost rand: seq<seq<Byte>>)
      ensures this.tables == tables && this.k == k && this.n == n && this.holders == holders
      ensures this.rootSecret == rootSecret && this.rand == rand
      ensures this.killThreshold == if killThreshold.Some? then killThreshold.value else DefaultThreshold(k)
      ensures Init(Policy())
    {
      this.tables, this.k, this.n, this.holders := tables, k, n, holders;
      this.killThreshold := if killThreshold.Some? then killThreshold.value else DefaultThreshold(k);
      this.rootSecret, this.rand := rootSecret, rand;
      compromised, killTriggered, killed := {}, false, false;
    }

    /** DistributedTrustGroup(k, n, kill_threshold), with the root secret and the random bytes
        that os.urandom returns as arguments.  More than 255 holders make splitting raise. */
    static method Create(tables: GaloisTables, k: nat, n: nat, killThreshold: Option<int>,
                         rootSecret: Blob, rand: seq<seq<Byte>>) returns (r: Result<DistributedTrustGroup>)
      requires tables.Valid()
      requires 1 <= k <= n ==> Randomness(rand, |rootSecret|, k) && (n > 255 ==> !AllConstant(rand))
      ensures r.Err? <==> !(1 <= k <= n <= 255)
      ensures r.Err? ==> r.error == if 1 <= k <= n then IndexError else ValueError
      ensures r.Ok? ==> fresh(r.value) && r.value.Valid() && r.value.rootSecret == rootSecret
      ensures r.Ok? ==> r.value.k == k && r.value.n == n && Init(r.value.Policy())
      ensures r.Ok? ==>
        r.value.killThreshold == if killThreshold.Some? then killThreshold.value else DefaultThreshold(k)
      ensures r.Ok? ==> fresh(set h | h in r.value.holders) && forall h :: h in r.value.holders ==> h.alive
    {
      var shares := tables.SplitSecret(rootSecret, k, n, rand);
      if shares.Err? {
        return Err(shares.error);
      }
      var holders: seq<Holder> := [];
      for i := 0 to n
        invariant |holders| == i && fresh(set h | h in holders)
        invariant forall j :: 0 <= j < i ==> holders[j].share == ShareAt(rootSecret, rand, j + 1) && holders[j].alive
      {
        var (x, y) := shares.value[i];
        var holder := new Holder(Share(x, y));
        holders := holders + [holder];
      }
      var group := new DistributedTrustGroup(tables, k, n, killThreshold, holders, rootSecret, rand);
      r := Ok(group);
    }

    /** _on_holder_compromised, when no other thread is inside it. */
    method OnHolderCompromised(index: nat)
      modifies this`compromised, this`killTriggered, this`killed
      ensures Policy() == Mark(old(Policy()), index)
      ensures compromised == old(compromised) + {index}
    {
      if index in compromised {
        return;
      }
      compromised := compromised + {index};
      if killTriggered || killThreshold <= 0 {
        return;
      }
      if |compromised| >= killThreshold {
        killTriggered := true;
        killed := true;
      }
    }

    /** One pass of _monitor over the holder processes; it ends early only with the process. */
    method MonitorSweep()
      requires Valid() && !killed
      modifies this`compromised, this`killTriggered, this`killed
      ensures old(compromised) <= compromised
      ensures forall i :: i in compromised ==> i in old(compromised) || (i < n && !holders[i].alive)
      ensures !killed ==> forall i :: 0 <= i < n && !holders[i].alive ==> i in compromised
      ensures killed ==> killThreshold > 0 && |compromised| >= killThreshold
      ensures !killed && compromised != old(compromised) ==>
        killThreshold <= 0 || old(killTriggered) || |compromised| < killThreshold
    {
      for i := 0 to n
        invariant !killed && old(compromised) <= compromised
        invariant forall j :: j in compromised ==> j in old(compromised) || (j < n && !holders[j].alive)
        invariant forall j :: 0 <= j < i && !holders[j].alive ==> j in compromised
        invariant killTriggered == old(killTriggered)
        invariant compromised != old(compromised) ==>
          killThreshold <= 0 || old(killTriggered) || |compromised| < killThreshold
      {
        if i !in compromised && !holders[i].alive {
          OnHolderCompromised(i);
          if killed {
            return;
          }
        }
      }
    }

    /** fetch(): the root secret from the first k holders that were not marked when the list was
        made, which is before the lock was free; others may have been marked since.  `answers`
        says which holders are alive at the moment they are asked.  The fetch is refused when the
        list is shorter than k; when a holder asked is dead, that one is marked and the fetch
        raises; otherwise it returns exactly the root secret and marks nobody. */
    method Fetch(seen: set<nat>, answers: nat -> bool) returns (r: FetchResult)
      requires Valid() && seen <= compromised
      modifies this`compromised, this`killTriggered, this`killed
      ensures r.Fetched? ==> r.secret == rootSecret && Policy() == old(Policy())
      ensures var alive := AliveIndices(n, seen);
        if |alive| < k then r.TrustGroupCompromised? && Policy() == old(Policy())
        else match FirstDead(alive[..k], answers)
             case None => r.Fetched?
             case Some(i) => r.TrustGroupCompromised? && Policy() == Mark(old(Policy()), i)
    {
      assert tables.Valid() && |holders| == n;
      hide *;
      var alive := AliveIndices(n, seen);
      if |alive| < k {
        return TrustGroupCompromised;
      }
      var asked := alive[..k];
      var collected, failed := Collect(asked, answers);
      if failed.Some? {
        OnHolderCompromised(failed.value);
        return TrustGroupCompromised;
      }
      var secret := Reconstruct(asked, collected);
      r := Fetched(secret);
    }

    /** combine_shares on what k different holders answered. */
    method Reconstruct(ghost asked: seq<nat>, collected: seq<Share>) returns (secret: Blob)
      requires Valid()
      requires |asked| == |collected| == k
      requires forall j, l :: 0 <= j < l < k ==> asked[j] < asked[l]
      requires forall j :: 0 <= j < k ==> asked[j] < n && collected[j] == holders[asked[j]].share
      ensures secret == rootSecret
    {
      CollectedReconstruct(asked, collected);
      var combined := tables.CombineShares(collected);
      secret := combined.value;
    }

    /** The try block of fetch(): ask one holder after the other, up to the first that fails. */
    method Collect(asked: seq<nat>, answers: nat -> bool) returns (collected: seq<Share>, failed: Option<nat>)
      requires |holders| == n && forall j :: 0 <= j < |asked| ==> asked[j] < n
      ensures failed == FirstDead(asked, answers)
      ensures |collected| <= |asked| && (failed.None? ==> |collected| == |asked|)
      ensures forall j :: 0 <= j < |collected| ==> collected[j] == holders[asked[j]].share
    {
      collected := [];
      for j := 0 to |asked|
        invariant |collected| == j
        invariant forall l :: 0 <= l < j ==> answers(asked[l]) && collected[l] == holders[asked[l]].share
      {
        var answer := holders[asked[j]].GetShare(answers(asked[j]));
        if answer.None? {
          FirstDeadIs(asked, answers, j);
          return collected, Some(asked[j]);
        }
        collected := collected + [answer.value];
      }
      failed := None;
    }

    lemma CollectedReconstruct(asked: seq<nat>, collected: seq<Share>)
      requires Valid()
      requires |asked| == |collected| == k
      requires forall j, l :: 0 <= j < l < k ==> asked[j] < asked[l]
      requires forall j :: 0 <= j < k ==> asked[j] < n && collected[j] == holders[asked[j]].share
      ensures Combined(collected) == Ok(rootSecret)
    {
      var xs: seq<Byte> := seq(k, j requires 0 <= j < k => asked[j] + 1);
      AnySharesReconstruct(rootSecret, rand, k, xs, collected);
    }
  }

  /** The first holder that a fetch asks in vain, if there is one. */
  ghost function FirstDead(asked: seq<nat>, answers: nat -> bool): (r: Option<nat>)
    ensures r.None? <==> forall j :: 0 <= j < |asked| ==> answers(asked[j])
    ensures r.Some? ==> r.value in asked && !answers(r.value)
  {
    if asked == [] then None
    else if answers(asked[0]) then FirstDead(asked[1..], answers)
    else Some(asked[0])
  }

  lemma FirstDeadIs(asked: seq<nat>, answers: nat -> bool, j: nat)
    requires j < |asked| && !answers(asked[j])
    requires forall l :: 0 <= l < j ==> answers(asked[l])
    ensures FirstDead(asked, answers) == Some(asked[j])
  {
    if j > 0 {
      FirstDeadIs(asked[1..], answers, j - 1);
    }
  }
}
