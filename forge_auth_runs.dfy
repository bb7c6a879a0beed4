/**
 Sequences of getAccessToken calls on one service object, as the single shared
 instance receives them over the life of the application. These lemmas carry the
 single-call facts of ForgeAuth across any number of calls.
 */
module ForgeAuthRuns {
  import opened ForgeAuth

  /** The answers to the calls `qs`, made one after another on a service whose
      fields start as `c`. */
  function Run(c: CacheState, qs: seq<Request>): (steps: seq<Step>)
    ensures |steps| == |qs|
    decreases |qs|
  {
    if qs == [] then []
    else
      var first := Respond(c, qs[0]);
      [first] + Run(first.after, qs[1..])
  }

  /** The fields after the first `n` of the calls `qs`. */
  function FieldsAfter(c: CacheState, qs: seq<Request>, n: nat): (f: CacheState)
    requires n <= |qs|
  {
    if n == 0 then c else Run(c, qs)[n - 1].after
  }

  /** No call from index `lo` up to (not including) `hi` stored a new token. */
  predicate NoPrimaryIn(steps: seq<Step>, lo: nat, hi: nat)
    requires lo <= hi <= |steps|
  {
    forall k :: lo <= k < hi ==> steps[k].source != Primary
  }

  /** Every call starts no earlier than the responses of the calls before it were read. */
  predicate Chronological(qs: seq<Request>)
  {
    forall i, j :: 0 <= i < j < |qs| ==> qs[i].receivedAt <= qs[j].now
  }

  /** Every successful first request yields a token whose lifetime does not exceed
      the refresh skew. */
  predicate ShortLived(qs: seq<Request>)
  {
    forall i :: 0 <= i < |qs| && qs[i].primary.Ok? ==> qs[i].primary.token.expiresIn * MsPerSecond <= RefreshSkewMs
  }

  /** The fields after a call whose first token request succeeded. */
  function Issued(q: Request): (f: CacheState)
    requires q.primary.Ok?
  {
    CacheState(Some(q.primary.token), ExpiryFor(q.primary.token, q.receivedAt))
  }

  /** Each call of a sequence is answered from the fields the calls before it left. */
  lemma {:induction false} RunAnswersFromFields(c: CacheState, qs: seq<Request>)
    ensures forall i :: 0 <= i < |qs| ==> Run(c, qs)[i] == Respond(FieldsAfter(c, qs, i), qs[i])
    decreases |qs|
  {
    if qs != [] {
      var first := Respond(c, qs[0]);
      var rest := Run(first.after, qs[1..]);
      RunAnswersFromFields(first.after, qs[1..]);
      forall i | 0 < i < |qs|
        ensures Run(c, qs)[i] == Respond(FieldsAfter(c, qs, i), qs[i])
      {
        assert Run(c, qs)[i] == rest[i - 1];
        assert qs[i] == qs[1..][i - 1];
        if i > 1 {
          assert Run(c, qs)[i - 1] == rest[i - 2];
        }
      }
    }
  }

  /** However many calls fail their first token request before writing a field, the
      cache is as it was after every one of them: such a failure never removes or
      replaces a cached token. */
  lemma {:induction false} FailuresKeepCache(c: CacheState, qs: seq<Request>)
    requires forall i :: 0 <= i < |qs| ==> qs[i].primary.Failed?
    ensures forall i :: 0 <= i < |qs| ==> Run(c, qs)[i].after == c
    ensures forall n :: 0 <= n <= |qs| ==> FieldsAfter(c, qs, n) == c
    decreases |qs|
  {
    if qs != [] {
      var steps := Run(c, qs);
      var rest := Run(steps[0].after, qs[1..]);
      FailuresKeepCache(steps[0].after, qs[1..]);
      forall i | 0 < i < |qs|
        ensures steps[i].after == c
      {
        assert steps[i] == rest[i - 1];
      }
    }
  }

  /** While the clock stays before the expiry, every call is answered from the cache
      with the same token, whatever the token endpoint would have said. */
  lemma {:induction false} CacheServesWithinWindow(c: CacheState, qs: seq<Request>)
    requires c.tokenCache.Some?
    requires forall i :: 0 <= i < |qs| ==> qs[i].now < c.tokenExpiry
    ensures forall i :: 0 <= i < |qs| ==> Run(c, qs)[i] == Step(c.tokenCache.value.accessToken, Cache, c)
    ensures forall n :: 0 <= n <= |qs| ==> FieldsAfter(c, qs, n) == c
    decreases |qs|
  {
    if qs != [] {
      CacheServesWithinWindow(c, qs[1..]);
      var steps := Run(c, qs);
      forall i | 0 <= i < |qs|
        ensures steps[i] == Step(c.tokenCache.value.accessToken, Cache, c)
      {
        if i > 0 {
          assert steps[i] == Run(c, qs[1..])[i - 1];
        }
      }
    }
  }

  /** The cache only ever holds what the latest successful first request stored.
      Whenever a token is cached after call `i`, either no call up to `i` stored one
      and the fields are as they started, or the fields are exactly those stored by
      a call `j` and no call after `j` up to `i` stored another. Fallback tokens are
      never cached. */
  lemma {:induction false} CacheHoldsLatestPrimaryToken(c: CacheState, qs: seq<Request>)
    ensures forall i :: 0 <= i < |qs| && Run(c, qs)[i].after.tokenCache.Some? ==>
              (Run(c, qs)[i].after == c && NoPrimaryIn(Run(c, qs), 0, i + 1)) ||
              (exists j :: 0 <= j <= i && qs[j].primary.Ok? && Run(c, qs)[j].source == Primary &&
                 NoPrimaryIn(Run(c, qs), j + 1, i + 1) && Run(c, qs)[i].after == Issued(qs[j]))
    decreases |qs|
  {
    if qs != [] {
      var steps := Run(c, qs);
      var first := steps[0];
      var rest := Run(first.after, qs[1..]);
      assert forall k :: 0 < k < |steps| ==> steps[k] == rest[k - 1];
      CacheHoldsLatestPrimaryToken(first.after, qs[1..]);
      // a first call that stores nothing and leaves a token cached leaves the fields alone
      assert first.source != Primary && first.after.tokenCache.Some? ==> first.after == c;
      forall i | 0 <= i < |qs| && steps[i].after.tokenCache.Some?
        ensures (steps[i].after == c && NoPrimaryIn(steps, 0, i + 1)) ||
                (exists j :: 0 <= j <= i && qs[j].primary.Ok? && steps[j].source == Primary &&
                   NoPrimaryIn(steps, j + 1, i + 1) && steps[i].after == Issued(qs[j]))
      {
        if i == 0 {
          if first.source == Primary {
            assert qs[0].primary.Ok? && NoPrimaryIn(steps, 1, 1) && steps[0].after == Issued(qs[0]);
          }
        } else if rest[i - 1].after == first.after && NoPrimaryIn(rest, 0, i) {
          assert NoPrimaryIn(steps, 1, i + 1);
          if first.source == Primary {
            assert qs[0].primary.Ok? && steps[i].after == Issued(qs[0]);
          }
        } else {
          var k :| 0 <= k <= i - 1 && qs[1..][k].primary.Ok? && rest[k].source == Primary &&
                   NoPrimaryIn(rest, k + 1, i) && rest[i - 1].after == Issued(qs[1..][k]);
          assert qs[k + 1] == qs[1..][k];
          assert NoPrimaryIn(steps, k + 2, i + 1);
        }
      }
    }
  }

  /** Every answer from the cache is the token of the latest successful first request
      before it, served before T + expires_in * 1000 - 60000 where T is when that
      token's response was read; or, when no call before it stored a token, the token
      cached at the start, served before its expiry. */
  lemma ServedOnlyWithinWindow(c: CacheState, qs: seq<Request>)
    ensures forall i :: 0 <= i < |qs| && Run(c, qs)[i].source == Cache ==>
              (NoPrimaryIn(Run(c, qs), 0, i) && c.tokenCache.Some? &&
               Run(c, qs)[i].token == c.tokenCache.value.accessToken && qs[i].now < c.tokenExpiry) ||
              (exists j :: 0 <= j < i && qs[j].primary.Ok? && Run(c, qs)[j].source == Primary &&
                 NoPrimaryIn(Run(c, qs), j + 1, i) &&
                 Run(c, qs)[i].token == qs[j].primary.token.accessToken &&
                 qs[i].now < ExpiryFor(qs[j].primary.token, qs[j].receivedAt))
  {
    var steps := Run(c, qs);
    RunAnswersFromFields(c, qs);
    CacheHoldsLatestPrimaryToken(c, qs);
    forall i | 0 <= i < |qs| && steps[i].source == Cache
      ensures (NoPrimaryIn(steps, 0, i) && c.tokenCache.Some? &&
               steps[i].token == c.tokenCache.value.accessToken && qs[i].now < c.tokenExpiry) ||
              (exists j :: 0 <= j < i && qs[j].primary.Ok? && steps[j].source == Primary &&
                 NoPrimaryIn(steps, j + 1, i) &&
                 steps[i].token == qs[j].primary.token.accessToken &&
                 qs[i].now < ExpiryFor(qs[j].primary.token, qs[j].receivedAt))
    {
      var before := FieldsAfter(c, qs, i);
      assert steps[i] == Respond(before, qs[i]);
      assert IsHit(before, qs[i].now);
      if i > 0 {
        assert before == steps[i - 1].after;
        if !(before == c && NoPrimaryIn(steps, 0, i)) {
          var j :| 0 <= j <= i - 1 && qs[j].primary.Ok? && steps[j].source == Primary &&
                   NoPrimaryIn(steps, j + 1, i) && before == Issued(qs[j]);
          assert steps[i].token == qs[j].primary.token.accessToken;
        }
      }
    }
  }

  /** With a clock that does not go backwards, tokens whose lifetime does not exceed
      the refresh skew are never served from the cache: every call goes to the network. */
  lemma {:induction false} ShortLivedNeverServed(c: CacheState, qs: seq<Request>)
    requires forall i :: 0 <= i < |qs| ==> !IsHit(c, qs[i].now)
    requires Chronological(qs) && ShortLived(qs)
    ensures forall i :: 0 <= i < |qs| ==> Run(c, qs)[i].source != Cache
    decreases |qs|
  {
    if qs != [] {
      var steps := Run(c, qs);
      var first := steps[0];
      var tail := qs[1..];
      assert forall i :: 0 <= i < |tail| ==> tail[i] == qs[i + 1];
      forall i | 0 <= i < |tail|
        ensures !IsHit(first.after, tail[i].now)
      {
        if first.source == Primary {
          assert qs[0].receivedAt <= qs[i + 1].now;
        } else if first.after.tokenCache.Some? {
          assert first.after == c;
        }
      }
      ShortLivedNeverServed(first.after, tail);
      forall i | 0 < i < |qs|
        ensures steps[i].source != Cache
      {
        assert steps[i] == Run(first.after, tail)[i - 1];
      }
    }
  }

  /** A new service with a clock that does not go backwards answers no call from the
      cache when every token it obtains is short-lived. */
  lemma NewServiceShortLivedAlwaysFetches(qs: seq<Request>)
    requires Chronological(qs) && ShortLived(qs)
    ensures forall i :: 0 <= i < |qs| ==> Run(Initial, qs)[i].source != Cache
  {
    ShortLivedNeverServed(Initial, qs);
  }

  /** A client of the class: two calls on a newly constructed service return exactly
      the tokens that Run gives for those calls. Longer sequences compose the same
      way, one GetAccessToken postcondition per call. */
  method NewServiceTwoCalls(q0: Request, q1: Request) returns (t0: string, t1: string)
    ensures t0 == Run(Initial, [q0, q1])[0].token
    ensures t1 == Run(Initial, [q0, q1])[1].token
  {
    var service := new ForgeAuthService();
    t0 := service.GetAccessToken(q0.now, q0.receivedAt, q0.primary, q0.secondary);
    t1 := service.GetAccessToken(q1.now, q1.receivedAt, q1.primary, q1.secondary);
    RunAnswersFromFields(Initial, [q0, q1]);
  }
}
