/** apps/api/app/main.py: the in-memory fixed-window request limit per scope and user. */
module RateLimit {
  import opened ColonKeys
  import opened Decimals

  // A window is 60 seconds long, starting at a multiple of 60.
  const EVICTION_THRESHOLD: nat := 1000

  datatype Entry = Entry(count: nat, expiresAt: int)

  /** A call to enforce_user_rpm_limit; `now` is the Unix time in seconds. */
  datatype Request = Request(scope: string, subject: string, rpm: int, now: nat)

  type Counters = map<string, Entry>

  // ----- keys -----

  function Window(now: nat): nat { now / 60 }

  function WindowEnd(now: nat): nat { 60 * (now / 60) + 60 }

  function Key(scope: string, subject: string, window: nat): string {
    "rate_limit:" + scope + ":" + subject + ":" + Decimal(window)
  }

  /** What the counting looks at. */
  datatype Hit = Hit(key: string, rpm: int, now: nat)

  function HitOf(r: Request): Hit { Hit(Key(r.scope, r.subject, Window(r.now)), r.rpm, r.now) }

  /** Requests of different windows never share a counter, whatever colons scope and user hold. */
  lemma KeyFixesWindow(q: Request, r: Request)
    requires HitOf(q).key == HitOf(r).key
    ensures Window(q.now) == Window(r.now)
  {
    LastColon("rate_limit:" + q.scope + ":" + q.subject, Decimal(Window(q.now)));
    LastColon("rate_limit:" + r.scope + ":" + r.subject, Decimal(Window(r.now)));
    DecimalInjective(Window(q.now), Window(r.now));
  }

  // ----- one request -----

  function Evicted(counters: Counters, now: int): Counters {
    if |counters| > EVICTION_THRESHOLD
    then map k | k in counters && counters[k].expiresAt > now :: counters[k]
    else counters
  }

  function Counted(counters: Counters, key: string, expiresAt: int, now: int): Entry {
    var kept := Evicted(counters, now);
    if key !in kept || kept[key].expiresAt <= now then Entry(1, expiresAt)
    else Entry(kept[key].count + 1, kept[key].expiresAt)
  }

  /** The counters left behind and whether the request is accepted. */
  function Handle(counters: Counters, h: Hit): (Counters, bool) {
    if h.rpm <= 0 then (counters, true)
    else
      var entry := Counted(counters, h.key, WindowEnd(h.now), h.now);
      (Evicted(counters, h.now)[h.key := entry], entry.count <= h.rpm)
  }

  class RateLimiter {
    var counters: Counters

    constructor ()
      ensures counters == map[]
    {
      counters := map[];
    }

    method MemoryCount(key: string, expiresAt: int, now: int) returns (count: nat)
      modifies this
      ensures count == Counted(old(counters), key, expiresAt, now).count
      ensures counters == Evicted(old(counters), now)[key := Counted(old(counters), key, expiresAt, now)]
    {
      if |counters| > EVICTION_THRESHOLD {
        var rest := counters.Keys;
        ghost var before := counters;
        while rest != {}
          invariant rest <= before.Keys
          invariant counters == map k | k in before && (k in rest || before[k].expiresAt > now) :: before[k]
          decreases rest
        {
          var k :| k in rest;
          rest := rest - {k};
          if counters[k].expiresAt <= now {
            counters := counters - {k};
          }
        }
      }
      assert counters == Evicted(old(counters), now);
      if key !in counters || counters[key].expiresAt <= now {
        counters := counters[key := Entry(0, expiresAt)];
      }
      counters := counters[key := counters[key].(count := counters[key].count + 1)];
      count := counters[key].count;
    }

    method Enforce(r: Request) returns (accepted: bool)
      modifies this
      ensures (counters, accepted) == Handle(old(counters), HitOf(r))
    {
      if r.rpm <= 0 {
        return true;
      }
      var retryAfter := 60 - r.now % 60;
      var count := MemoryCount(Key(r.scope, r.subject, r.now / 60), r.now + retryAfter, r.now);
      accepted := count <= r.rpm;
    }
  }

  // ----- runs -----

  function After(hits: seq<Hit>): Counters {
    if hits == [] then map[] else Handle(After(hits[..|hits| - 1]), hits[|hits| - 1]).0
  }

  predicate Accepted(hits: seq<Hit>, i: nat)
    requires i < |hits|
  {
    Handle(After(hits[..i]), hits[i]).1
  }

  /** How many limited requests used this counter. */
  function Uses(hits: seq<Hit>, key: string): nat {
    if hits == [] then 0
    else
      var n := |hits| - 1;
      Uses(hits[..n], key) + if hits[n].rpm > 0 && hits[n].key == key then 1 else 0
  }

  ghost predicate ClockNeverGoesBack(hits: seq<Hit>) {
    forall i, j :: 0 <= i < j < |hits| ==> hits[i].now <= hits[j].now
  }

  ghost predicate KeysFixWindows(hits: seq<Hit>) {
    forall i, j :: 0 <= i < |hits| && 0 <= j < |hits| && hits[i].key == hits[j].key
      ==> WindowEnd(hits[i].now) == WindowEnd(hits[j].now)
  }

  lemma {:induction false} UsedKeyWasHit(hits: seq<Hit>, key: string) returns (i: nat)
    requires Uses(hits, key) > 0
    ensures i < |hits| && hits[i].rpm > 0 && hits[i].key == key
  {
    var n := |hits| - 1;
    if hits[n].rpm > 0 && hits[n].key == key {
      i := n;
    } else {
      i := UsedKeyWasHit(hits[..n], key);
    }
  }

  /** Every stored counter is exact, and every counter whose window is still open is stored. */
  ghost predicate Exact(counters: Counters, hits: seq<Hit>) {
    && (forall k :: k in counters ==> Uses(hits, k) == counters[k].count > 0)
    && (forall i :: 0 <= i < |hits| && hits[i].rpm > 0 && hits[i].key in counters
          ==> counters[hits[i].key].expiresAt == WindowEnd(hits[i].now))
    && (forall i :: 0 <= i < |hits| && hits[i].rpm > 0 && WindowEnd(hits[i].now) > hits[|hits| - 1].now
          ==> hits[i].key in counters)
  }

  lemma {:induction false} CountersAreExact(hits: seq<Hit>)
    requires ClockNeverGoesBack(hits) && KeysFixWindows(hits)
    ensures Exact(After(hits), hits)
  {
    if hits != [] {
      var before, h := hits[..|hits| - 1], hits[|hits| - 1];
      assert hits == before + [h];
      CountersAreExact(before);
      if h.rpm > 0 {
        CountedIsUses(before, h);
        assert forall i :: 0 <= i < |before| ==> before[i] == hits[i];
        HandleKeepsExact(After(before), before, h);
      } else {
        UnlimitedKeepsExact(After(before), before, h);
      }
    }
  }

  lemma CountedIsUses(before: seq<Hit>, h: Hit)
    requires ClockNeverGoesBack(before + [h]) && KeysFixWindows(before + [h])
    requires Exact(After(before), before)
    ensures Counted(After(before), h.key, WindowEnd(h.now), h.now)
      == Entry(Uses(before, h.key) + 1, WindowEnd(h.now))
  {
    var hits := before + [h];
    if Uses(before, h.key) > 0 {
      var i := UsedKeyWasHit(before, h.key);
      assert hits[i] == before[i] && hits[|before|] == h && hits[|before| - 1] == before[|before| - 1];
      assert WindowEnd(before[i].now) == WindowEnd(h.now);
    }
  }

  lemma UsesSnoc(before: seq<Hit>, h: Hit, key: string)
    ensures Uses(before + [h], key) == Uses(before, key) + if h.rpm > 0 && h.key == key then 1 else 0
  {
    assert (before + [h])[..|before|] == before;
  }

  lemma HandleKeepsExact(c: Counters, before: seq<Hit>, h: Hit)
    requires Exact(c, before) && h.rpm > 0
    requires Counted(c, h.key, WindowEnd(h.now), h.now) == Entry(Uses(before, h.key) + 1, WindowEnd(h.now))
    requires before != [] ==> before[|before| - 1].now <= h.now
    requires forall i :: 0 <= i < |before| && before[i].key == h.key ==> WindowEnd(before[i].now) == WindowEnd(h.now)
    ensures Exact(Handle(c, h).0, before + [h])
  {
    hide Uses, Decimal;
    var c', hits := Handle(c, h).0, before + [h];
    forall k | k in c' ensures Uses(hits, k) == c'[k].count > 0 {
      UsesSnoc(before, h, k);
    }
    forall i | 0 <= i < |hits| && hits[i].rpm > 0
      ensures hits[i].key in c' ==> c'[hits[i].key].expiresAt == WindowEnd(hits[i].now)
      ensures WindowEnd(hits[i].now) > h.now ==> hits[i].key in c'
    {
      if i < |before| {
        assert hits[i] == before[i];
      }
    }
  }

  lemma UnlimitedKeepsExact(c: Counters, before: seq<Hit>, h: Hit)
    requires Exact(c, before) && h.rpm <= 0 && ClockNeverGoesBack(before + [h])
    ensures Exact(c, before + [h])
  {
    var hits := before + [h];
    forall k | k in c ensures Uses(hits, k) == c[k].count > 0 {
      UsesSnoc(before, h, k);
    }
    assert before != [] ==> hits[|before| - 1].now <= hits[|before|].now;
    assert forall i :: 0 <= i < |hits| && hits[i].rpm > 0 ==> hits[i] == before[i];
  }

  /** A limited request is accepted exactly when at most rpm requests, itself included, used its counter. */
  lemma AcceptedIffUnderLimit(hits: seq<Hit>, i: nat)
    requires ClockNeverGoesBack(hits) && KeysFixWindows(hits) && i < |hits| && hits[i].rpm > 0
    ensures Accepted(hits, i) <==> Uses(hits[..i + 1], hits[i].key) <= hits[i].rpm
  {
    var before := hits[..i];
    assert hits[..i + 1] == before + [hits[i]];
    CountersAreExact(before);
    CountedIsUses(before, hits[i]);
    UsesSnoc(before, hits[i], hits[i].key);
  }

  // ----- bounds per user -----

  function Hits(reqs: seq<Request>): (hits: seq<Hit>)
    ensures |hits| == |reqs|
    ensures forall i :: 0 <= i < |reqs| ==> hits[i] == HitOf(reqs[i])
  {
    seq(|reqs|, i requires 0 <= i < |reqs| => HitOf(reqs[i]))
  }

  predicate InInterval(r: Request, scope: string, subject: string, from_: int, until: int) {
    r.scope == scope && r.subject == subject && from_ <= r.now < until
  }

  /** Accepted requests of one user in one scope with from_ <= time < until. */
  function AcceptedIn(reqs: seq<Request>, scope: string, subject: string, from_: int, until: int): nat {
    if reqs == [] then 0
    else
      var n := |reqs| - 1;
      AcceptedIn(reqs[..n], scope, subject, from_, until)
      + if InInterval(reqs[n], scope, subject, from_, until) && Accepted(Hits(reqs), n) then 1 else 0
  }

  /** The clock is non-decreasing and this user is always limited in this scope, by at most rpm. */
  ghost predicate Limited(reqs: seq<Request>, scope: string, subject: string, rpm: nat) {
    && (forall i, j :: 0 <= i < j < |reqs| ==> reqs[i].now <= reqs[j].now)
    && (forall i :: 0 <= i < |reqs| && reqs[i].scope == scope && reqs[i].subject == subject
          ==> 0 < reqs[i].rpm <= rpm)
  }

  lemma HitsFixWindows(reqs: seq<Request>)
    ensures KeysFixWindows(Hits(reqs))
  {
    forall i, j | 0 <= i < |reqs| && 0 <= j < |reqs| && Hits(reqs)[i].key == Hits(reqs)[j].key
      ensures WindowEnd(reqs[i].now) == WindowEnd(reqs[j].now)
    {
      KeyFixesWindow(reqs[i], reqs[j]);
    }
  }

  lemma {:induction false} AcceptedAtMostUses(reqs: seq<Request>, scope: string, subject: string, rpm: nat, w: nat)
    requires Limited(reqs, scope, subject, rpm)
    ensures AcceptedIn(reqs, scope, subject, 60 * w, 60 * w + 60) <= Uses(Hits(reqs), Key(scope, subject, w))
  {
    if reqs != [] {
      var n := |reqs| - 1;
      hide Accepted, Key, Decimal;
      AcceptedAtMostUses(reqs[..n], scope, subject, rpm, w);
      assert Hits(reqs)[..n] == Hits(reqs[..n]);
      if InInterval(reqs[n], scope, subject, 60 * w, 60 * w + 60) {
        assert Window(reqs[n].now) == w;
      }
    }
  }

  /** At most rpm requests of a user are accepted in an aligned window. */
  lemma {:induction false} WindowBound(reqs: seq<Request>, scope: string, subject: string, rpm: nat, w: nat)
    requires Limited(reqs, scope, subject, rpm)
    ensures AcceptedIn(reqs, scope, subject, 60 * w, 60 * w + 60) <= rpm
  {
    if reqs != [] {
      var n := |reqs| - 1;
      WindowBound(reqs[..n], scope, subject, rpm, w);
      if InInterval(reqs[n], scope, subject, 60 * w, 60 * w + 60) && Accepted(Hits(reqs), n) {
        assert Window(reqs[n].now) == w;
        HitsFixWindows(reqs);
        AcceptedIffUnderLimit(Hits(reqs), n);
        assert Hits(reqs)[..n + 1] == Hits(reqs);
        AcceptedAtMostUses(reqs, scope, subject, rpm, w);
      }
    }
  }

  lemma {:induction false} IntervalSplits(reqs: seq<Request>, scope: string, subject: string, t: nat, w: nat)
    requires 60 * w <= t < 60 * w + 60
    ensures AcceptedIn(reqs, scope, subject, t, t + 60)
      <= AcceptedIn(reqs, scope, subject, 60 * w, 60 * w + 60)
         + AcceptedIn(reqs, scope, subject, 60 * w + 60, 60 * w + 120)
  {
    if reqs != [] {
      IntervalSplits(reqs[..|reqs| - 1], scope, subject, t, w);
    }
  }

  /** At most 2 * rpm requests of a user are accepted in any 60 seconds, aligned or not. */
  lemma IntervalBound(reqs: seq<Request>, scope: string, subject: string, rpm: nat, t: nat)
    requires Limited(reqs, scope, subject, rpm)
    ensures AcceptedIn(reqs, scope, subject, t, t + 60) <= 2 * rpm
  {
    var w := t / 60;
    IntervalSplits(reqs, scope, subject, t, w);
    WindowBound(reqs, scope, subject, rpm, w);
    WindowBound(reqs, scope, subject, rpm, w + 1);
  }
}
