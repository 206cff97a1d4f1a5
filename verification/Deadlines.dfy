/**
 Deadlines in plain numbers.  The clock counts nanoseconds; EXPIRE and SET with EX
 take seconds and TTL answers in seconds.
 */
module Deadlines {
  import opened Base
  import opened Store

  lemma {:induction false} LiveExactly(s: Store, k: string, now: int)
    ensures k in Live(s, now) <==>
      (k in s.strings || k in s.lists) && (k in s.expiry ==> now < s.expiry[k])
  {
  }

  /** A live key given n seconds lives for exactly n thousand million nanoseconds, with its value. */
  lemma {:induction false} ExpireExactly(s: Store, k: string, n: int, now: int, later: int)
    requires k in Live(s, now) && n > 0 && now <= later
    ensures AnswerTo(s, Expire(k, n), now) == Flag(true)
    ensures
      var t := Apply(s, Expire(k, n), now);
      && (k in Live(t, later) <==> later < now + n * 1_000_000_000)
      && (k in Live(t, later) ==>
            Live(t, later)[k] == Entry(Live(s, now)[k].value, Some(now + n * 1_000_000_000)))
  {
    LiveExactly(s, k, now);
    LiveExactly(Apply(s, Expire(k, n), now), k, later);
  }

  /** Meanwhile TTL answers the whole seconds that are left, n of them at once. */
  lemma {:induction false} TtlExactly(s: Store, k: string, n: int, now: int, later: int)
    requires k in Live(s, now) && n > 0 && now <= later < now + n * 1_000_000_000
    ensures AnswerTo(Apply(s, Expire(k, n), now), Ttl(k), later)
            == Count((now + n * 1_000_000_000 - later) / 1_000_000_000)
    ensures AnswerTo(Apply(s, Expire(k, n), now), Ttl(k), now) == Count(n)
  {
    LiveExactly(s, k, now);
    assert (n * 1_000_000_000) / 1_000_000_000 == n;
  }

  /** A missing key is not given a deadline. */
  lemma {:induction false} ExpireMissing(s: Store, k: string, n: int, now: int)
    requires k !in Live(s, now)
    ensures AnswerTo(s, Expire(k, n), now) == Flag(false)
    ensures AnswerTo(s, Ttl(k), now) == Count(-2)
    ensures forall later :: now <= later ==> k !in Live(Apply(s, Expire(k, n), now), later)
  {
    LiveExactly(s, k, now);
  }

  /** After SET a key lives on, and TTL answers -1. */
  lemma {:induction false} SetStays(s: Store, k: string, x: string, now: int, later: int)
    requires now <= later
    ensures
      var t := Apply(s, Set(k, x), now);
      && k in Live(t, later) && Live(t, later)[k] == Entry(Str(x), None)
      && AnswerTo(t, Ttl(k), later) == Count(-1)
  {
    LiveExactly(Apply(s, Set(k, x), now), k, later);
  }

  /** So it does after PERSIST, if it was live. */
  lemma {:induction false} PersistStays(s: Store, k: string, now: int, later: int)
    requires k in Live(s, now) && now <= later
    ensures
      var t := Apply(s, Persist(k), now);
      && k in Live(t, later) && Live(t, later)[k] == Entry(Live(s, now)[k].value, None)
      && AnswerTo(t, Ttl(k), later) == Count(-1)
  {
    LiveExactly(s, k, now);
    LiveExactly(Apply(s, Persist(k), now), k, later);
  }
}
