/** The baud search of tools/firmware-flasher/pmosrec_v3.py: candidate tests with
    a fallback on both sides, a ladder of candidates and a midpoint refinement. */
module Baud {
  import opened Bytes

  const BAUD_TEST_PASSES := 2

  const DEFAULT_CANDIDATES: seq<int> := [921600, 460800, 230400]

  const DIAGNOSTIC_CANDIDATES: seq<int> :=
    [115200, 153600, 230400, 250000, 256000, 307200, 460800, 500000,
     576000, 614400, 750000, 921600, 1000000, 1152000, 1500000,
     2000000, 2500000, 3000000, 3500000, 4000000, 5000000,
     6000000, 8000000, 10000000, 12000000]

  /** ProtocolError, or an OSError. */
  datatype Fault = Protocol | System

  /** The rate the target can really make and whether it was qualified. */
  datatype Verdict = Verdict(ok: bool, actual: int)

  /** A rate offered to the target, and the nearest one it says it can make. */
  datatype Offer = Offer(requested: int, answer: Option<int>)

  predicate Offered(offers: seq<Offer>, requested: int) {
    exists k :: 0 <= k < |offers| && offers[k].requested == requested
  }

  /** No answer is more than two percent above the rate. */
  predicate NoneFaster(offers: seq<Offer>, rate: int) {
    forall k :: 0 <= k < |offers| && offers[k].answer.Some? ==> offers[k].answer.value * 100 <= rate * 102
  }

  /** Of the rates qualified since, none is above this one. */
  predicate NoneAbove(before: set<int>, after: set<int>, rate: int) {
    forall q :: q in after && q !in before ==> q <= rate
  }

  lemma NoneAboveNext(before: set<int>, after: set<int>, rate: int, next: int)
    requires NoneAbove(before, after, rate) && rate <= next
    ensures NoneAbove(before, after + {next}, next) && NoneAbove(before, after, next)
  {
  }

  lemma NoneFasterNext(offers: seq<Offer>, o: Offer, before: int, rate: int)
    requires NoneFaster(offers, before) && before <= rate
    requires o.answer.Some? ==> o.answer.value * 100 <= rate * 102
    ensures NoneFaster(offers + [o], rate)
  {
  }

  /** Every candidate so far that is above the rate was offered. */
  predicate AllOffered(offers: seq<Offer>, candidates: seq<int>, n: nat, rate: int)
    requires n <= |candidates|
  {
    forall i :: 0 <= i < n && candidates[i] > rate ==> Offered(offers, candidates[i])
  }

  lemma StillOffered(offers: seq<Offer>, more: seq<Offer>, candidates: seq<int>, n: nat, before: int, rate: int)
    requires n <= |candidates| && AllOffered(offers, candidates, n, before) && before <= rate && offers <= more
    ensures AllOffered(more, candidates, n, rate)
  {
    forall i | 0 <= i < n && candidates[i] > rate ensures Offered(more, candidates[i]) {
      assert Offered(offers, candidates[i]);
      var k :| 0 <= k < |offers| && offers[k].requested == candidates[i];
      assert more[k].requested == candidates[i];
    }
  }

  lemma OfferedNext(offers: seq<Offer>, o: Offer, candidates: seq<int>, n: nat, before: int, rate: int)
    requires n < |candidates| && AllOffered(offers, candidates, n, before) && before <= rate
    requires o.requested == candidates[n]
    ensures AllOffered(offers + [o], candidates, n + 1, rate)
  {
    StillOffered(offers, offers + [o], candidates, n, before, rate);
    assert (offers + [o])[|offers|] == o;
  }

  /** The gap is no more than the wanted percentage of the current rate. */
  predicate CloseEnough(current: int, upper: int, percent: real)
    requires current > 0
  {
    (upper - current) as real * 100.0 / current as real <= percent
  }

  lemma HasElement(s: set<int>)
    requires s != {}
    ensures exists x :: x in s
  {
    if forall x :: x !in s {
    }
  }

  /** The host UART and the conversation with the target.  What the target
      answers is arbitrary, except that it has finitely many rates. */
  class Session {
    /** BaudController.current_rate. */
    var rate: int
    const divisors: set<int>
    /** Nothing fails: the host UART takes every positive rate, every exchange
        works and the target reverts to the current rate. */
    const clean: bool
    /** Rates the host UART has run at. */
    ghost var good: set<int>
    /** A rate the host had run at could not be set again. */
    ghost var stuck: bool
    /** The target announced another revert rate than the current one. */
    ghost var misled: bool
    /** Rates that went through every test pass and were committed. */
    ghost var qualified: set<int>
    /** What was offered to the target, in order. */
    ghost var offers: seq<Offer>
    /** Exchanges that worked. */
    ghost var exchanged: nat

    constructor (rate: int, divisors: set<int>, clean: bool)
      ensures this.rate == rate && this.divisors == divisors && this.clean == clean && good == {rate} && !stuck
      ensures !misled && qualified == {} && offers == []
    {
      this.rate, this.divisors, this.clean := rate, divisors, clean;
      good, stuck, misled, qualified, offers, exchanged := {rate}, false, false, {}, [], 0;
    }

    /** BaudController.set_rate. */
    method SetRate(r: int) returns (ok: bool)
      modifies `rate, `good, `stuck
      ensures ok ==> rate == r && good == old(good) + {r} && stuck == old(stuck)
      ensures !ok ==> rate == old(rate) && good == old(good) && stuck == (old(stuck) || r in old(good))
      ensures ok ==> r > 0
      ensures clean && r > 0 ==> ok
    {
      ok := *;
      if clean {
        ok := true;
      }
      if r <= 0 {
        ok := false;
      }
      if ok {
        rate, good := r, good + {r};
      } else {
        stuck := stuck || r in good;
      }
    }

    /** BaudController.can_set: try the rate and come back. */
    method CanSet(r: int) returns (can: bool)
      requires rate in good
      modifies `rate, `good, `stuck
      ensures rate in good && old(good) <= good
      ensures old(stuck) ==> stuck
      ensures !stuck ==> rate == old(rate)
      ensures clean && r > 0 && old(rate) > 0 ==> can && stuck == old(stuck)
    {
      var before := rate;
      var ok := SetRate(r);
      if ok {
        ok := SetRate(before);
        if ok {
          return true;
        }
      }
      ok := SetRate(before);
      return false;
    }

    /** Any exchange of lines or data: it works, or it raises. */
    method Exchange() returns (r: Option<Fault>)
      modifies `exchanged
      ensures exchanged == old(exchanged) + if r.None? then 1 else 0
      ensures clean ==> r.None?
    {
      r := *;
      if clean {
        r := None;
      }
      if r.None? {
        exchanged := exchanged + 1;
      }
    }

    /** _wait_fallback: the host returns first, then waits for both beacons. */
    method WaitFallback(oldRate: int) returns (r: Option<Fault>)
      requires rate in good
      modifies `rate, `good, `stuck, `exchanged
      ensures rate in good && old(good) <= good
      ensures old(stuck) ==> stuck
      ensures oldRate in old(good) && !stuck ==> rate == oldRate
    {
      var ok := SetRate(oldRate);
      if !ok {
        return Some(Protocol);
      }
      r := Exchange();
      if r.None? {
        r := Exchange();
      }
    }

    /** The passes in both directions and the commit.  A lost commit response is
        settled by a probe at the candidate rate. */
    method Qualify(actual: int) returns (r: Option<Fault>)
      modifies `qualified, `exchanged
      ensures r.None? ==> qualified == old(qualified) + {actual}
      // synchronization, every pass, the result and the commit
      ensures r.None? ==> exchanged >= old(exchanged) + BAUD_TEST_PASSES + 3
      ensures r.Some? ==> qualified == old(qualified)
      ensures clean ==> r.None?
    {
      r := Exchange();
      if r.Some? {
        return;
      }
      var passIndex := 0;
      while passIndex < BAUD_TEST_PASSES
        invariant passIndex <= BAUD_TEST_PASSES && exchanged == old(exchanged) + 1 + passIndex
        invariant qualified == old(qualified) && (clean ==> r.None?)
      {
        r := Exchange();
        if r.Some? {
          return;
        }
        passIndex := passIndex + 1;
      }
      r := Exchange();
      if r.Some? {
        return;
      }
      r := Exchange();
      if r == Some(Protocol) {
        r := Exchange();
      }
      if r.None? {
        qualified := qualified + {actual};
      }
    }

    /** Host and target agree on nothing worse than before: the host runs at the
        old rate unless it could not go back or was told to go elsewhere. */
    twostate predicate Kept(current: int)
      reads this
    {
      && rate in good && old(good) <= good && (old(stuck) ==> stuck) && (old(misled) ==> misled)
      && old(qualified) <= qualified
      && (old(rate) == current && !stuck && !misled ==> rate == current)
    }

    /** The host and the target change to the rate, test it, and stay at it or go back. */
    method Trial(actual: int, current: int) returns (r: Result<bool, Fault>)
      requires rate in good && current in good
      modifies `rate, `good, `stuck, `misled, `qualified, `exchanged
      ensures r == Ok(true) ==>
                && rate == actual && rate in good && old(good) <= good && (old(stuck) ==> stuck)
                && (old(misled) ==> misled)
                && qualified == old(qualified) + {rate} && exchanged >= old(exchanged) + BAUD_TEST_PASSES + 4
      ensures r != Ok(true) ==> Kept(current) && qualified == old(qualified)
      ensures clean && actual > 0 ==>
                r == Ok(true) && stuck == old(stuck) && misled == old(misled)
    {
      var raised := Exchange();
      if raised.Some? {
        return Err(raised.value);
      }
      var oldRate: int := *;
      if clean {
        oldRate := current;
      }
      misled := misled || oldRate != current;
      var applied := SetRate(actual);
      raised := Some(Protocol);
      if applied {
        raised := Qualify(actual);
      }
      if raised.None? {
        return Ok(true);
      }
      raised := WaitFallback(oldRate);
      if raised.Some? {
        return Err(raised.value);
      }
      return Ok(false);
    }

    /** test_baud_candidate. */
    method TestCandidate(requested: int, current: int, tested: set<int>)
      returns (r: Result<Verdict, Fault>, ghost o: Offer)
      requires rate in good && current in good
      modifies this
      ensures offers == old(offers) + [o] && o.requested == requested
      ensures r.Ok? ==> o.answer == Some(r.value.actual)
      ensures r.Ok? ==> r.value.actual in divisors
      ensures r.Ok? && r.value.ok ==>
                && rate == r.value.actual && rate in good && old(good) <= good && (old(stuck) ==> stuck)
                && (old(misled) ==> misled)
                && qualified == old(qualified) + {rate} && exchanged >= old(exchanged) + BAUD_TEST_PASSES + 5
                && rate !in tested && rate > current && rate * 100 > current * 102
      ensures !(r.Ok? && r.value.ok) ==> Kept(current) && qualified == old(qualified)
      ensures clean && old(rate) == current > 0 && divisors != {} ==>
                && r.Ok? && stuck == old(stuck) && misled == old(misled)
                && (r.value.ok <==>
                      r.value.actual !in tested && r.value.actual > current && r.value.actual * 100 > current * 102)
    {
      o := Offer(requested, None);
      offers := offers + [o];
      var raised := Exchange();
      if raised.Some? {
        return Err(raised.value), o;
      }
      // an answer that is malformed, or no rate of the target's, raises
      var actual: int := *;
      if actual !in divisors && (!clean || divisors == {}) {
        return Err(Protocol), o;
      }
      if actual !in divisors {
        HasElement(divisors);
        actual :| actual in divisors;
      }
      o := Offer(requested, Some(actual));
      offers := offers[|offers| - 1 := o];
      if actual in tested {
        return Ok(Verdict(false, actual)), o;
      }
      if actual <= current || actual * 100 <= current * 102 {
        return Ok(Verdict(false, actual)), o;
      }
      var can := CanSet(actual);
      if !can {
        return Ok(Verdict(false, actual)), o;
      }
      var passed := Trial(actual, current);
      r := if passed.Err? then Err(passed.error) else Ok(Verdict(passed.value, actual));
    }

    /** The smallest failed rate above the current one. */
    method LowestAbove(failed: set<int>, current: int) returns (r: Option<int>)
      ensures r.None? <==> forall f :: f in failed ==> f <= current
      ensures r.Some? ==> r.value in failed && r.value > current
                          && forall f :: f in failed && f > current ==> r.value <= f
    {
      r := None;
      var left: set<int> := failed;
      while left != {}
        invariant left <= failed
        invariant r.None? ==> forall f :: f in failed && f !in left ==> f <= current
        invariant r.Some? ==> r.value in failed && r.value > current
                              && forall f :: f in failed && f !in left && f > current ==> r.value <= f
        decreases left
      {
        HasElement(left);
        var f: int :| f in left;
        left := left - {f};
        if f > current && (r.None? || f < r.value) {
          r := Some(f);
        }
      }
    }

    /** The search so far: the current rate is the starting one or a qualified
        one, never below the start, and the host runs at it. */
    twostate predicate Searching(current: int)
      reads this
    {
      && rate in good && current in good && current >= old(rate) > 0
      && (current == old(rate) || (current in qualified && current * 100 > old(rate) * 102))
      && (!stuck && !misled ==> rate == current)
    }

    /** Nothing has failed so far, and nothing will. */
    ghost predicate Smooth()
      reads this
    {
      clean && divisors != {} && !stuck && !misled
    }

    /** The first `tried` candidates that are above the rate were offered; the search
        stopped before the last only on a qualified rate, and never did in a
        diagnostic scan. */
    twostate predicate Tried(candidates: seq<int>, tried: nat, diagnostic: bool, current: int)
      reads this
    {
      && tried <= |candidates| && old(offers) <= offers
      && AllOffered(offers[|old(offers)|..], candidates, tried, current)
      && (tried < |candidates| ==> !diagnostic && current > old(rate))
    }

    /** The ladder of candidates. */
    method Ladder(candidates: seq<int>, diagnostic: bool)
      returns (r: Result<int, Fault>, tested: set<int>, failed: set<int>, ghost tried: nat)
      requires rate in good && rate > 0 && !stuck && !misled
      modifies this
      ensures old(offers) <= offers
      ensures r.Ok? ==> Tried(candidates, tried, diagnostic, r.value)
      ensures r.Ok? ==> NoneAbove(old(qualified), qualified, r.value)
      ensures r.Ok? && old(Smooth()) ==> NoneFaster(offers[|old(offers)|..], r.value)
      ensures r.Ok? && old(Smooth()) ==> forall a :: a in tested ==> a * 100 <= r.value * 102
      ensures r.Err? ==> r.error.System?
      ensures r.Ok? ==> Searching(r.value) && tested <= divisors
      ensures old(Smooth()) ==> r.Ok? && Smooth()
    {
      var current := rate;
      tested, failed, tried := {}, {}, |candidates|;
      ghost var news: seq<Offer> := [];
      for i := 0 to |candidates|
        invariant Searching(current) && tested <= divisors
        invariant old(Smooth()) ==> Smooth()
        invariant offers == old(offers) + news && NoneAbove(old(qualified), qualified, current)
        invariant AllOffered(news, candidates, i, current)
        invariant old(Smooth()) ==> NoneFaster(news, current) && forall a :: a in tested ==> a * 100 <= current * 102
        invariant (!diagnostic ==> current == old(rate)) && tried == |candidates|
      {
        var requested := candidates[i];
        if requested <= current {
          continue;
        }
        ghost var qualifiedBefore := qualified;
        var v, o := TestCandidate(requested, current, tested);
        ghost var next := if v.Ok? && v.value.ok then v.value.actual else current;
        OfferedNext(news, o, candidates, i, current, next);
        NoneAboveNext(old(qualified), qualifiedBefore, current, next);
        if old(Smooth()) {
          NoneFasterNext(news, o, current, next);
        }
        news := news + [o];
        if v.Err? {
          if v.error.System? {
            return Err(System), tested, failed, 0;
          }
          continue;
        }
        var actual := v.value.actual;
        if actual in tested {
          continue;
        }
        tested := tested + {actual};
        if v.value.ok {
          current := actual;
          if !diagnostic {
            tried := i + 1;
            break;
          }
        } else if actual > current {
          failed := failed + {actual};
        }
      }
      assert offers[|old(offers)|..] == news;
      return Ok(current), tested, failed, tried;
    }

    /** negotiate_fastest_baud.  The refinement ends because each turn stops or
        uses up an untested rate of the target. */
    method Negotiate(diagnostic: bool, refinePercent: real) returns (r: Result<int, Fault>)
      requires rate in good && rate > 0 && !stuck && !misled
      modifies this
      ensures r.Err? ==> r.error.System?
      ensures r.Ok? ==> r.value >= old(rate)
      ensures r.Ok? ==> r.value == old(rate) || (r.value in qualified && r.value * 100 > old(rate) * 102)
      ensures r.Ok? && !stuck && !misled ==> rate == r.value
      ensures old(offers) <= offers
      ensures r.Ok? ==> NoneAbove(old(qualified), qualified, r.value)
      // every candidate above the result was offered, or in a default run the last of those offered qualified
      ensures r.Ok? ==> diagnostic ==>
                AllOffered(offers[|old(offers)|..], DIAGNOSTIC_CANDIDATES, |DIAGNOSTIC_CANDIDATES|, r.value)
      ensures r.Ok? ==> !diagnostic ==> exists n :: Tried(DEFAULT_CANDIDATES, n, false, r.value)
      // a session in which nothing fails ends well, and no rate the target named is more than two percent faster
      ensures clean && divisors != {} ==> r.Ok? && NoneFaster(offers[|old(offers)|..], r.value)
      ensures clean && divisors != {} ==> r.Ok? && rate == r.value && !stuck && !misled
    {
      var tested, failed;
      ghost var tried;
      r, tested, failed, tried :=
        Ladder(if diagnostic then DIAGNOSTIC_CANDIDATES else DEFAULT_CANDIDATES, diagnostic);
      if r.Err? || !diagnostic {
        return;
      }
      var current := r.value;
      ghost var news := offers[|old(offers)|..];
      while true
        invariant Searching(current) && tested <= divisors
        invariant old(Smooth()) ==> Smooth()
        invariant offers == old(offers) + news && NoneAbove(old(qualified), qualified, current)
        invariant AllOffered(news, DIAGNOSTIC_CANDIDATES, |DIAGNOSTIC_CANDIDATES|, current)
        invariant old(Smooth()) ==> NoneFaster(news, current) && forall a :: a in tested ==> a * 100 <= current * 102
        decreases divisors - tested
      {
        var upper := LowestAbove(failed, current);
        if upper.None? || CloseEnough(current, upper.value, refinePercent) {
          break;
        }
        ghost var qualifiedBefore := qualified;
        var v, o := TestCandidate((current + upper.value) / 2, current, tested);
        ghost var next := if v.Ok? && v.value.ok then v.value.actual else current;
        StillOffered(news, news + [o], DIAGNOSTIC_CANDIDATES, |DIAGNOSTIC_CANDIDATES|, current, next);
        NoneAboveNext(old(qualified), qualifiedBefore, current, next);
        if old(Smooth()) {
          NoneFasterNext(news, o, current, next);
        }
        news := news + [o];
        if v.Err? {
          if v.error.System? {
            return Err(System);
          }
          break;
        }
        var actual := v.value.actual;
        if actual in tested || actual <= current {
          break;
        }
        tested := tested + {actual};
        if v.value.ok {
          current := actual;
        } else {
          failed := failed + {actual};
        }
      }
      assert offers[|old(offers)|..] == news;
      r := Ok(current);
    }
  }
}
