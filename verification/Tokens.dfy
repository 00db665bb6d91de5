/** The pending-key table of secure_system.py: single-use tokens with a deadline. */
module Tokens {
  import opened Bytes

  /** secrets.token_urlsafe(32) */
  datatype Token = Token(text: string)

  datatype Entry = Entry(key: Blob, expiresAt: real)

  /** redeem_key: the key, KeyError, or TimeoutError. */
  datatype Outcome = Released(key: Blob) | Unknown | Expired

  type Table = map<Token, Entry>

  // ---------------------------------------------------------------- on values

  /** _sweep_expired_tokens_locked */
  function Swept(t: Table, now: real): Table {
    map token | token in t && !(t[token].expiresAt < now) :: t[token]
  }

  function Redeemed(t: Table, token: Token, now: real): Outcome {
    if token !in t then Unknown
    else if now > t[token].expiresAt then Expired
    else Released(t[token].key)
  }

  /** A token is issued at `now`, when the table is swept; or someone tries to redeem one. */
  datatype Event =
    | Issue(token: Token, key: Blob, expiresAt: real, now: real)
    | Redeem(token: Token, now: real)

  function TableAfter(events: seq<Event>, sweeping: bool): Table {
    if events == [] then map[]
    else
      var before := TableAfter(events[..|events| - 1], sweeping);
      match events[|events| - 1]
      case Issue(token, key, expiresAt, now) =>
        (if sweeping then Swept(before, now) else before)[token := Entry(key, expiresAt)]
      case Redeem(token, now) => before - {token}
  }

  function OutcomeOf(events: seq<Event>, k: nat, sweeping: bool): Outcome
    requires k < |events| && events[k].Redeem?
  {
    Redeemed(TableAfter(events[..k], sweeping), events[k].token, events[k].now)
  }

  /** The clock does not run backwards. */
  ghost predicate Ordered(events: seq<Event>) {
    forall j, k :: 0 <= j < k < |events| ==> events[j].now <= events[k].now
  }

  ghost predicate DistinctTokens(events: seq<Event>) {
    forall j, k :: 0 <= j < k < |events| && events[j].Issue? && events[k].Issue? ==> events[j].token != events[k].token
  }

  // ---------------------------------------------------------------- what is live

  datatype Life = Dead | Live(entry: Entry)

  /** The entry of a token that was issued and that nobody has tried to redeem since. */
  function LifeOf(events: seq<Event>, token: Token): Life {
    if events == [] then Dead
    else
      var e := events[|events| - 1];
      if e.token != token then LifeOf(events[..|events| - 1], token)
      else if e.Issue? then Live(Entry(e.key, e.expiresAt))
      else Dead
  }

  lemma {:induction false} UnsweptIsLive(events: seq<Event>, token: Token)
    ensures token in TableAfter(events, false) <==> LifeOf(events, token).Live?
    ensures token in TableAfter(events, false) ==> LifeOf(events, token) == Live(TableAfter(events, false)[token])
    decreases |events|
  {
    if events != [] {
      UnsweptIsLive(events[..|events| - 1], token);
    }
  }

  /** Sweeping removes only entries whose deadline the clock has passed. */
  lemma {:induction false} SweptIsLiveOrLate(events: seq<Event>, token: Token, now: real)
    requires Ordered(events) && forall k :: 0 <= k < |events| ==> events[k].now <= now
    ensures token in TableAfter(events, true) ==> LifeOf(events, token) == Live(TableAfter(events, true)[token])
    ensures LifeOf(events, token).Live? && token !in TableAfter(events, true) ==>
      LifeOf(events, token).entry.expiresAt < now
    decreases |events|
  {
    if events != [] {
      var front, e := events[..|events| - 1], events[|events| - 1];
      SweptIsLiveOrLate(front, token, e.now);
    }
  }

  /** A redemption releases exactly the key that was issued with the token, if it is the first
      attempt since the token was issued and comes no later than the token's own deadline, and
      nothing otherwise.  Sweeping the table changes none of this. */
  lemma RedemptionIsExact(events: seq<Event>, k: nat)
    requires Ordered(events) && k < |events| && events[k].Redeem?
    ensures var life, now := LifeOf(events[..k], events[k].token), events[k].now;
      && (OutcomeOf(events, k, true).Released? <==> life.Live? && now <= life.entry.expiresAt)
      && (OutcomeOf(events, k, false).Released? <==> life.Live? && now <= life.entry.expiresAt)
      && (OutcomeOf(events, k, true).Released? ==>
        OutcomeOf(events, k, true) == OutcomeOf(events, k, false) == Released(life.entry.key))
  {
    UnsweptIsLive(events[..k], events[k].token);
    SweptIsLiveOrLate(events[..k], events[k].token, events[k].now);
  }

  /** Some other token was issued, after the deadline, since this one was. */
  function SweptSince(events: seq<Event>, token: Token, deadline: real): bool {
    if events == [] || events[|events| - 1].token == token then false
    else
      var e := events[|events| - 1];
      (e.Issue? && deadline < e.now) || SweptSince(events[..|events| - 1], token, deadline)
  }

  lemma {:induction false} SweptExactly(events: seq<Event>, token: Token)
    ensures token in TableAfter(events, true) <==>
      LifeOf(events, token).Live? && !SweptSince(events, token, LifeOf(events, token).entry.expiresAt)
    ensures token in TableAfter(events, true) ==> LifeOf(events, token) == Live(TableAfter(events, true)[token])
    decreases |events|
  {
    if events != [] {
      SweptExactly(events[..|events| - 1], token);
    }
  }

  /** The method's own description promises TimeoutError for any real but expired token.  The code
      raises it exactly when no later issuance has swept the token away; then it is KeyError. */
  lemma TimeoutIsExact(events: seq<Event>, k: nat)
    requires k < |events| && events[k].Redeem?
    ensures var token, now, life := events[k].token, events[k].now, LifeOf(events[..k], events[k].token);
      OutcomeOf(events, k, true) == Expired
      <==> life.Live? && now > life.entry.expiresAt && !SweptSince(events[..k], token, life.entry.expiresAt)
  {
    SweptExactly(events[..k], events[k].token);
  }

  /** An expired token that a later issuance swept away: KeyError, not TimeoutError. */
  lemma ExpiredCanLookUnknown(a: Token, b: Token)
    requires a != b
    ensures var events := [Issue(a, [1], 60.0, 0.0), Issue(b, [2], 130.0, 70.0), Redeem(a, 80.0)];
      && Ordered(events) && DistinctTokens(events)
      && LifeOf(events[..2], a) == Live(Entry([1], 60.0)) && OutcomeOf(events, 2, true) == Unknown
  {
    var events := [Issue(a, [1], 60.0, 0.0), Issue(b, [2], 130.0, 70.0), Redeem(a, 80.0)];
    assert events[..2][..1] == [events[0]] && [events[0]][..0] == [];
    SweptExactly(events[..2], a);
    assert events[..2][1] == events[1] && LifeOf(events[..2], a) == LifeOf([events[0]], a) == Live(Entry([1], 60.0));
  }

  /** A live entry comes from an event, with no attempt on its token after it. */
  lemma {:induction false} LiveMeansIssued(events: seq<Event>, token: Token) returns (i: nat)
    requires LifeOf(events, token).Live?
    ensures i < |events| && events[i].Issue? && events[i].token == token
    ensures LifeOf(events, token).entry == Entry(events[i].key, events[i].expiresAt)
    ensures forall j :: i < j < |events| ==> events[j].token != token
    decreases |events|
  {
    var e := events[|events| - 1];
    if e.token != token {
      i := LiveMeansIssued(events[..|events| - 1], token);
    } else {
      i := |events| - 1;
    }
  }

  /** Two attempts on one token, with the token live before each, mean it was issued twice. */
  lemma LiveTwice(events: seq<Event>, j: nat, k: nat)
    requires j < k < |events| && events[j].Redeem? && events[j].token == events[k].token
    requires LifeOf(events[..j], events[j].token).Live? && LifeOf(events[..k], events[k].token).Live?
    ensures !DistinctTokens(events)
  {
    var a := LiveMeansIssued(events[..j], events[j].token);
    var b := LiveMeansIssued(events[..k], events[k].token);
    assert events[..j][a] == events[a] && events[..k][b] == events[b];
    assert events[..k][j] == events[j] && events[..k][j].token == events[k].token;
    assert j <= b && j != b;
  }

  /** With distinct tokens, each one yields its key at most once. */
  lemma AtMostOnce(events: seq<Event>, j: nat, k: nat)
    requires Ordered(events) && DistinctTokens(events) && j < k < |events|
    requires events[j].Redeem? && events[k].Redeem? && events[j].token == events[k].token
    requires OutcomeOf(events, j, true).Released?
    ensures !OutcomeOf(events, k, true).Released?
  {
    RedemptionIsExact(events, j);
    RedemptionIsExact(events, k);
    if LifeOf(events[..k], events[k].token).Live? {
      LiveTwice(events, j, k);
    }
  }

  // ---------------------------------------------------------------- the object

  class PendingKeys {
    var pending: Table

    constructor ()
      ensures pending == map[]
    {
      pending := map[];
    }

    /** _sweep_expired_tokens_locked: lists the expired tokens, then deletes them. */
    method Sweep(now: real)
      modifies this
      ensures pending == Swept(old(pending), now)
    {
      var expired: set<Token> := set token | token in pending && pending[token].expiresAt < now;
      var todo := expired;
      while todo != {}
        invariant todo <= expired && pending == old(pending) - (expired - todo)
        decreases |todo|
      {
        var token :| token in todo;
        pending := pending - {token};
        todo := todo - {token};
        assert expired - todo == (expired - (todo + {token})) + {token};
      }
      assert expired - todo == expired;
    }

    /** The end of retrieve_to_destination for a hostile destination. */
    method IssueToken(token: Token, key: Blob, expiresAt: real, now: real)
      modifies this
      ensures pending == Swept(old(pending), now)[token := Entry(key, expiresAt)]
      ensures forall events :: old(pending) == TableAfter(events, true) ==>
        pending == TableAfter(events + [Issue(token, key, expiresAt, now)], true)
    {
      Sweep(now);
      pending := pending[token := Entry(key, expiresAt)];
      forall events | old(pending) == TableAfter(events, true)
        ensures pending == TableAfter(events + [Issue(token, key, expiresAt, now)], true)
      {
        assert (events + [Issue(token, key, expiresAt, now)])[..|events|] == events;
      }
    }

    /** redeem_key */
    method RedeemKey(token: Token, now: real) returns (outcome: Outcome)
      modifies this
      ensures outcome == Redeemed(old(pending), token, now) && pending == old(pending) - {token}
      ensures forall events :: old(pending) == TableAfter(events, true) ==>
        pending == TableAfter(events + [Redeem(token, now)], true)
        && outcome == OutcomeOf(events + [Redeem(token, now)], |events|, true)
    {
      if token !in pending {
        outcome := Unknown;
        assert pending - {token} == pending;
      } else if now > pending[token].expiresAt {
        pending := pending - {token};
        outcome := Expired;
      } else {
        outcome := Released(pending[token].key);
        pending := pending - {token};
      }
      forall events | old(pending) == TableAfter(events, true)
        ensures pending == TableAfter(events + [Redeem(token, now)], true)
        ensures outcome == OutcomeOf(events + [Redeem(token, now)], |events|, true)
      {
        assert (events + [Redeem(token, now)])[..|events|] == events;
      }
    }
  }
}
