/** Which requests the limiter accepts, counted over the requests themselves. */
module RateLaws {
  import opened ColonKeys
  import opened Decimals
  import opened RateLimit

  /** Two requests count together: the same scope, the same user, the same aligned minute. */
  predicate Together(q: Request, r: Request) {
    q.scope == r.scope && q.subject == r.subject && q.now / 60 == r.now / 60
  }

  predicate WithoutColons(r: Request) {
    ':' !in r.scope && ':' !in r.subject
  }

  lemma KeySplits(r: Request)
    ensures HitOf(r).key == ("rate_limit:" + (r.scope + ":" + r.subject)) + [':'] + Decimal(r.now / 60)
    ensures ':' !in Decimal(r.now / 60)
  {
    hide Decimal;
    var a, b := "rate_limit:" + r.scope + ":" + r.subject, "rate_limit:" + (r.scope + ":" + r.subject);
    assert a == b;
  }

  /** Requests share a counter exactly if scope and user, written with a colon between them, and the minute agree. */
  lemma KeyExactly(q: Request, r: Request)
    ensures HitOf(q).key == HitOf(r).key <==>
      q.scope + ":" + q.subject == r.scope + ":" + r.subject && q.now / 60 == r.now / 60
  {
    hide Decimal, HitOf;
    KeySplits(q);
    KeySplits(r);
    var a, b := "rate_limit:" + (q.scope + ":" + q.subject), "rate_limit:" + (r.scope + ":" + r.subject);
    if HitOf(q).key == HitOf(r).key {
      ColonKeyInjective(a, Decimal(q.now / 60), b, Decimal(r.now / 60));
      DecimalInjective(q.now / 60, r.now / 60);
      assert a[|"rate_limit:"|..] == q.scope + ":" + q.subject && b[|"rate_limit:"|..] == r.scope + ":" + r.subject;
    }
  }

  /** Without colons that means the same scope, the same user and the same minute. */
  lemma KeyIsTogether(q: Request, r: Request)
    requires WithoutColons(q) && WithoutColons(r)
    ensures HitOf(q).key == HitOf(r).key <==> Together(q, r)
  {
    hide HitOf;
    KeyExactly(q, r);
    var a, b := q.scope + [':'] + q.subject, r.scope + [':'] + r.subject;
    assert a == q.scope + ":" + q.subject && b == r.scope + ":" + r.subject;
    if a == b {
      ColonKeyInjective(q.scope, q.subject, r.scope, r.subject);
    }
  }

  /** The limited requests up to the `i`th that count together with it. */
  function Counting(reqs: seq<Request>, i: nat): set<int>
    requires i < |reqs|
  {
    set j | 0 <= j <= i && reqs[j].rpm > 0 && Together(reqs[j], reqs[i])
  }

  function CountingUpTo(reqs: seq<Request>, r: Request, n: nat): set<int>
    requires n <= |reqs|
  {
    set j | 0 <= j < n && reqs[j].rpm > 0 && Together(reqs[j], r)
  }

  lemma OneMoreRequest(reqs: seq<Request>, r: Request, n: nat)
    requires 0 < n <= |reqs|
    ensures
      var counts := reqs[n - 1].rpm > 0 && Together(reqs[n - 1], r);
      |CountingUpTo(reqs, r, n)| == |CountingUpTo(reqs, r, n - 1)| + if counts then 1 else 0
  {
    hide Together;
    var before, counts := CountingUpTo(reqs, r, n - 1), reqs[n - 1].rpm > 0 && Together(reqs[n - 1], r);
    assert CountingUpTo(reqs, r, n) == if counts then before + {n - 1} else before;
  }

  lemma OneMoreUse(hits: seq<Hit>, key: string, n: nat)
    requires 0 < n <= |hits|
    ensures Uses(hits[..n], key) ==
      Uses(hits[..n - 1], key) + if hits[n - 1].rpm > 0 && hits[n - 1].key == key then 1 else 0
  {
    assert hits[..n][..n - 1] == hits[..n - 1];
  }

  lemma {:induction false} UsesAreRequests(reqs: seq<Request>, r: Request, n: nat)
    requires n <= |reqs| && WithoutColons(r) && forall q :: q in reqs ==> WithoutColons(q)
    ensures Uses(Hits(reqs)[..n], HitOf(r).key) == |CountingUpTo(reqs, r, n)|
  {
    hide HitOf, WithoutColons, Together;
    if n == 0 {
      assert CountingUpTo(reqs, r, 0) == {};
    } else {
      hide Uses, CountingUpTo;
      var last := reqs[n - 1];
      assert last in reqs;
      UsesAreRequests(reqs, r, n - 1);
      KeyIsTogether(last, r);
      HitCarries(last);
      OneMoreUse(Hits(reqs), HitOf(r).key, n);
      OneMoreRequest(reqs, r, n);
    }
  }

  lemma HitCarries(r: Request)
    ensures HitOf(r).rpm == r.rpm && HitOf(r).now == r.now
  {
  }

  /** On a clock that never goes back, a request is accepted exactly if it is unlimited or at most rpm limited
      requests of its own scope, user and minute, itself included, have been made so far. */
  lemma {:induction false} AcceptedExactly(reqs: seq<Request>, i: nat)
    requires i < |reqs| && forall q :: q in reqs ==> WithoutColons(q)
    requires forall j, k :: 0 <= j < k < |reqs| ==> reqs[j].now <= reqs[k].now
    ensures Accepted(Hits(reqs), i) <==> reqs[i].rpm <= 0 || |Counting(reqs, i)| <= reqs[i].rpm
  {
    hide HitOf, Uses, After;
    var hits := Hits(reqs);
    HitCarries(reqs[i]);
    if reqs[i].rpm > 0 {
      HitsFixWindows(reqs);
      forall j | 0 <= j < |hits| ensures hits[j].now == reqs[j].now {
        HitCarries(reqs[j]);
      }
      AcceptedIffUnderLimit(hits, i);
      assert reqs[i] in reqs;
      UsesAreRequests(reqs, reqs[i], i + 1);
      assert CountingUpTo(reqs, reqs[i], i + 1) == Counting(reqs, i);
    }
  }

  // ----- one request -----

  /** The counter is there and its window is not over. */
  predicate Live(counters: Counters, key: string, now: int) {
    key in counters && counters[key].expiresAt > now
  }

  /** A request goes on with its live counter or begins one that lasts to the end of the minute. Once there are more
      than a thousand, the other counters whose window is over are dropped; no other counter changes. */
  lemma {:induction false} HandleExactly(counters: Counters, h: Hit)
    ensures
      var (after, accepted) := Handle(counters, h);
      if h.rpm <= 0 then accepted && after == counters
      else
        && h.key in after
        && (if Live(counters, h.key, h.now) then
              after[h.key] == Entry(counters[h.key].count + 1, counters[h.key].expiresAt)
            else after[h.key] == Entry(1, h.now + 60 - h.now % 60))
        && (forall k :: k != h.key ==>
          (k in after <==> k in counters && (|counters| <= 1000 || Live(counters, k, h.now))))
        && (forall k :: k != h.key && k in after ==> after[k] == counters[k])
        && (accepted <==> after[h.key].count <= h.rpm)
  {
  }

  // ----- bounds -----

  /** The accepted requests of one scope and user with from_ <= time < until, among the first `n`. */
  function AcceptedBetween(
      reqs: seq<Request>, n: nat, scope: string, subject: string, from_: int, until: int): set<int>
    requires n <= |reqs|
  {
    set i | 0 <= i < n && reqs[i].scope == scope && reqs[i].subject == subject && from_ <= reqs[i].now < until
      && Accepted(Hits(reqs), i)
  }

  predicate Counts(reqs: seq<Request>, i: nat, scope: string, subject: string, from_: int, until: int)
    requires i < |reqs|
  {
    InInterval(reqs[i], scope, subject, from_, until) && Accepted(Hits(reqs), i)
  }

  lemma OneMoreBetween(reqs: seq<Request>, n: nat, scope: string, subject: string, from_: int, until: int)
    requires 0 < n <= |reqs|
    ensures |AcceptedBetween(reqs, n, scope, subject, from_, until)| ==
      |AcceptedBetween(reqs, n - 1, scope, subject, from_, until)|
      + if Counts(reqs, n - 1, scope, subject, from_, until) then 1 else 0
  {
    hide Accepted, Hits;
    var before := AcceptedBetween(reqs, n - 1, scope, subject, from_, until);
    assert AcceptedBetween(reqs, n, scope, subject, from_, until) ==
      if Counts(reqs, n - 1, scope, subject, from_, until) then before + {n - 1} else before;
  }

  lemma OneMoreIn(reqs: seq<Request>, n: nat, scope: string, subject: string, from_: int, until: int)
    requires 0 < n <= |reqs|
    ensures AcceptedIn(reqs[..n], scope, subject, from_, until) ==
      AcceptedIn(reqs[..n - 1], scope, subject, from_, until)
      + if Counts(reqs, n - 1, scope, subject, from_, until) then 1 else 0
  {
    hide HitOf, Handle, After, InInterval;
    var first := reqs[..n];
    assert first[..n - 1] == reqs[..n - 1];
    assert Hits(first)[..n - 1] == Hits(reqs)[..n - 1] && Hits(first)[n - 1] == Hits(reqs)[n - 1];
  }

  lemma {:induction false} AcceptedInCounts(
      reqs: seq<Request>, n: nat, scope: string, subject: string, from_: int, until: int)
    requires n <= |reqs|
    ensures AcceptedIn(reqs[..n], scope, subject, from_, until) ==
      |AcceptedBetween(reqs, n, scope, subject, from_, until)|
  {
    hide Counts, Accepted;
    if n == 0 {
      assert AcceptedBetween(reqs, 0, scope, subject, from_, until) == {};
    } else {
      hide AcceptedBetween, AcceptedIn;
      AcceptedInCounts(reqs, n - 1, scope, subject, from_, until);
      OneMoreIn(reqs, n, scope, subject, from_, until);
      OneMoreBetween(reqs, n, scope, subject, from_, until);
    }
  }

  /** A user who is always limited in a scope, by at most rpm, gets at most rpm requests accepted in a minute of the
      clock and at most twice as many in any sixty seconds. */
  lemma {:induction false} BoundsHold(reqs: seq<Request>, scope: string, subject: string, rpm: nat, t: nat)
    requires forall i, j :: 0 <= i < j < |reqs| ==> reqs[i].now <= reqs[j].now
    requires forall r :: r in reqs && r.scope == scope && r.subject == subject ==> 0 < r.rpm <= rpm
    ensures |AcceptedBetween(reqs, |reqs|, scope, subject, 60 * t, 60 * t + 60)| <= rpm
    ensures |AcceptedBetween(reqs, |reqs|, scope, subject, t, t + 60)| <= 2 * rpm
  {
    hide AcceptedBetween, AcceptedIn;
    assert reqs[..|reqs|] == reqs;
    AcceptedInCounts(reqs, |reqs|, scope, subject, 60 * t, 60 * t + 60);
    AcceptedInCounts(reqs, |reqs|, scope, subject, t, t + 60);
    WindowBound(reqs, scope, subject, rpm, t);
    IntervalBound(reqs, scope, subject, rpm, t);
  }
}
