/** Token buckets per client key, with a rare sweep of idle buckets. Times are in
    seconds of a clock that never runs backwards. */
module RateLimiter {

  const BURST := 20.0
  const RATE_PER_SEC := 10.0
  const SWEEP_EVERY := 300.0
  const IDLE := 60.0

  datatype Bucket = Bucket(tokens: real, last: real)

  type Buckets = map<string, Bucket>

  function Refill(b: Bucket, now: real): real {
    var tokens := b.tokens + (now - b.last) * RATE_PER_SEC;
    if tokens > BURST then BURST else tokens
  }

  /** Answer one request without looking at other buckets. */
  function Take(buckets: Buckets, key: string, now: real): (r: (Buckets, bool)) {
    if key !in buckets then (buckets[key := Bucket(BURST - 1.0, now)], true)
    else
      var tokens := Refill(buckets[key], now);
      if tokens < 1.0 then (buckets[key := Bucket(tokens, now)], false)
      else (buckets[key := Bucket(tokens - 1.0, now)], true)
  }

  predicate IdleBucket(b: Bucket, now: real) {
    now - b.last > IDLE
  }

  function Evict(buckets: Buckets, now: real): Buckets {
    map k | k in buckets && !IdleBucket(buckets[k], now) :: buckets[k]
  }

  datatype Limiter = Limiter(buckets: Buckets, lastSweep: real)

  /** One request to the limiter as it is, sweeping first when it is time. */
  function AllowStep(l: Limiter, key: string, now: real): (Limiter, bool) {
    var swept := if now - l.lastSweep > SWEEP_EVERY then Limiter(Evict(l.buckets, now), now) else l;
    var (buckets, ok) := Take(swept.buckets, key, now);
    (swept.(buckets := buckets), ok)
  }

  datatype Request = Request(key: string, at: real)

  ghost predicate ClockMonotone(now: real, requests: seq<Request>)
    decreases |requests|
  {
    requests == [] || (now <= requests[0].at && ClockMonotone(requests[0].at, requests[1..]))
  }

  /** The limiter's state and answers after a run. */
  function RunSwept(l: Limiter, requests: seq<Request>): (Limiter, seq<bool>)
    decreases |requests|
  {
    if requests == [] then (l, [])
    else
      var (next, ok) := AllowStep(l, requests[0].key, requests[0].at);
      var (end, answers) := RunSwept(next, requests[1..]);
      (end, [ok] + answers)
  }

  /** The same run of a limiter that never sweeps. */
  function RunFull(buckets: Buckets, requests: seq<Request>): (Buckets, seq<bool>)
    decreases |requests|
  {
    if requests == [] then (buckets, [])
    else
      var (next, ok) := Take(buckets, requests[0].key, requests[0].at);
      var (end, answers) := RunFull(next, requests[1..]);
      (end, [ok] + answers)
  }

  /** Tokens stay between zero and the burst, and no bucket is from the future. */
  ghost predicate Sane(buckets: Buckets, now: real) {
    forall k :: k in buckets ==> 0.0 <= buckets[k].tokens <= BURST && buckets[k].last <= now
  }

  /** The swept buckets are the full ones, except that some idle ones are missing. */
  ghost predicate Matches(swept: Buckets, full: Buckets, now: real) {
    && (forall k :: k in swept ==> k in full && swept[k] == full[k])
    && (forall k :: k in full && k !in swept ==> IdleBucket(full[k], now))
  }

  lemma TakeMatches(swept: Buckets, full: Buckets, key: string, now: real)
    requires Matches(swept, full, now) && Sane(full, now)
    ensures var (s, ok1) := Take(swept, key, now);
      var (f, ok2) := Take(full, key, now);
      ok1 == ok2 && s[key] == f[key] && Matches(s, f, now) && Sane(f, now)
  {
  }

  /** Sweeping is invisible: after any run the answers are those of a limiter that
      keeps every bucket, and so is the state of every bucket still kept. */
  lemma {:induction false} SweepIsInvisible(l: Limiter, full: Buckets, now: real, requests: seq<Request>)
    requires Matches(l.buckets, full, now) && Sane(full, now) && ClockMonotone(now, requests)
    ensures var (end, answers) := RunSwept(l, requests);
      var (fullEnd, fullAnswers) := RunFull(full, requests);
      answers == fullAnswers && Matches(end.buckets, fullEnd, if requests == [] then now else requests[|requests| - 1].at)
    decreases |requests|
  {
    if requests != [] {
      var key, at := requests[0].key, requests[0].at;
      var kept := if at - l.lastSweep > SWEEP_EVERY then Evict(l.buckets, at) else l.buckets;
      assert Matches(kept, full, at);
      TakeMatches(kept, full, key, at);
      SweepIsInvisible(AllowStep(l, key, at).0, Take(full, key, at).0, at, requests[1..]);
    }
  }

  /** Requests of one key that a run lets through. */
  function Passed(requests: seq<Request>, answers: seq<bool>, key: string): nat
    requires |requests| == |answers|
  {
    if requests == [] then 0
    else (if requests[0].key == key && answers[0] then 1 else 0) + Passed(requests[1..], answers[1..], key)
  }

  lemma {:induction false} AnswersMatchRequests(l: Limiter, full: Buckets, requests: seq<Request>)
    ensures |RunSwept(l, requests).1| == |requests| == |RunFull(full, requests).1|
    decreases |requests|
  {
    if requests != [] {
      AnswersMatchRequests(AllowStep(l, requests[0].key, requests[0].at).0,
                           Take(full, requests[0].key, requests[0].at).0, requests[1..]);
    }
  }

  /** What a key could still spend now. */
  function Credit(buckets: Buckets, key: string, now: real): real {
    if key in buckets then Refill(buckets[key], now) else BURST
  }

  lemma {:induction false} PassedWithinCredit(buckets: Buckets, requests: seq<Request>, key: string, now: real, end: real)
    requires Sane(buckets, now) && ClockMonotone(now, requests) && now <= end
    requires forall i :: 0 <= i < |requests| ==> requests[i].at <= end
    requires |RunFull(buckets, requests).1| == |requests|
    ensures Passed(requests, RunFull(buckets, requests).1, key) as real
         <= Credit(buckets, key, now) + RATE_PER_SEC * (end - now)
    decreases |requests|
  {
    if requests != [] {
      var at := requests[0].at;
      var (next, ok) := Take(buckets, requests[0].key, at);
      var answers := RunFull(next, requests[1..]).1;
      AnswersMatchRequests(Limiter(map[], 0.0), next, requests[1..]);
      PassedWithinCredit(next, requests[1..], key, at, end);
      assert RunFull(buckets, requests).1 == [ok] + answers;
      assert ([ok] + answers)[1..] == answers;
      assert Credit(buckets, key, at) <= Credit(buckets, key, now) + RATE_PER_SEC * (at - now);
      assert Credit(next, key, at) <= Credit(buckets, key, at) - if requests[0].key == key && ok then 1.0 else 0.0;
    }
  }

  /** In any window of `seconds` a key passes at most the burst and what the window
      refills, whatever came before, whatever other keys do, sweeps included. */
  lemma WindowBound(l: Limiter, full: Buckets, now: real, window: seq<Request>, key: string, seconds: real)
    requires Matches(l.buckets, full, now) && Sane(full, now) && ClockMonotone(now, window)
    requires window != [] && forall i :: 0 <= i < |window| ==> window[i].at <= window[0].at + seconds
    ensures |RunSwept(l, window).1| == |window|
    ensures Passed(window, RunSwept(l, window).1, key) as real <= BURST + RATE_PER_SEC * seconds
  {
    AnswersMatchRequests(l, full, window);
    SweepIsInvisible(l, full, now, window);
    assert window[0].at <= window[0].at + seconds;
    assert Sane(full, window[0].at) && ClockMonotone(window[0].at, window);
    PassedWithinCredit(full, window, key, window[0].at, window[0].at + seconds);
  }

  /** Every reachable limiter is a swept version of some sane full one, so the bound
      holds for a window anywhere in a run. */
  lemma {:induction false} RunStaysMatched(l: Limiter, full: Buckets, now: real, requests: seq<Request>)
    requires Matches(l.buckets, full, now) && Sane(full, now) && ClockMonotone(now, requests)
    ensures var end := if requests == [] then now else requests[|requests| - 1].at;
      && Matches(RunSwept(l, requests).0.buckets, RunFull(full, requests).0, end)
      && Sane(RunFull(full, requests).0, end)
    decreases |requests|
  {
    if requests != [] {
      var key, at := requests[0].key, requests[0].at;
      var kept := if at - l.lastSweep > SWEEP_EVERY then Evict(l.buckets, at) else l.buckets;
      assert Matches(kept, full, at);
      TakeMatches(kept, full, key, at);
      RunStaysMatched(AllowStep(l, key, at).0, Take(full, key, at).0, at, requests[1..]);
    }
  }

  /** A run goes on from where its first part ended. */
  lemma {:induction false} RunSweptOn(l: Limiter, first: seq<Request>, rest: seq<Request>)
    ensures var (mid, answers1) := RunSwept(l, first);
      var (end, answers2) := RunSwept(mid, rest);
      RunSwept(l, first + rest) == (end, answers1 + answers2)
    decreases |first|
  {
    hide AllowStep;
    if first == [] {
      assert first + rest == rest;
      var answers2 := RunSwept(l, rest).1;
      assert [] + answers2 == answers2;
    } else {
      var (next, ok) := AllowStep(l, first[0].key, first[0].at);
      RunSweptOn(next, first[1..], rest);
      assert (first + rest)[1..] == first[1..] + rest;
      var answers1 := RunSwept(next, first[1..]).1;
      var answers2 := RunSwept(RunSwept(next, first[1..]).0, rest).1;
      assert [ok] + (answers1 + answers2) == [ok] + answers1 + answers2;
    }
  }

  lemma {:induction false} ClockRunsOn(now: real, first: seq<Request>, rest: seq<Request>)
    requires ClockMonotone(now, first + rest)
    ensures ClockMonotone(now, first)
    ensures ClockMonotone(if first == [] then now else first[|first| - 1].at, rest)
    decreases |first|
  {
    if first == [] {
      assert [] + rest == rest;
    } else {
      assert (first + rest)[1..] == first[1..] + rest;
      ClockRunsOn(first[0].at, first[1..], rest);
    }
  }

  /** Of a new limiter: in any window of a run, whatever came before it, a key passes
      at most 20 requests and 10 for every second of the window. */
  lemma AnyWindowIsBounded(now: real, before: seq<Request>, window: seq<Request>, key: string, seconds: real)
    requires ClockMonotone(now, before + window)
    requires window != [] && forall i :: 0 <= i < |window| ==> window[i].at <= window[0].at + seconds
    ensures var answers := RunSwept(Limiter(map[], now), before + window).1;
      && |answers| == |before| + |window|
      && Passed(window, answers[|before|..], key) as real <= 20.0 + 10.0 * seconds
  {
    hide AllowStep, Take, Evict;
    var l: Limiter, full: Buckets := Limiter(map[], now), map[];
    ClockRunsOn(now, before, window);
    RunSweptOn(l, before, window);
    RunStaysMatched(l, full, now, before);
    AnswersMatchRequests(l, full, before);
    var mid := RunSwept(l, before).0;
    var end := if before == [] then now else before[|before| - 1].at;
    WindowBound(mid, RunFull(full, before).0, end, window, key, seconds);
    assert (RunSwept(l, before).1 + RunSwept(mid, window).1)[|before|..] == RunSwept(mid, window).1;
  }

  // When a request is refused.

  /** Requests of the key that passed from position `i` of the run on. */
  function PassedFrom(requests: seq<Request>, answers: seq<bool>, key: string, i: nat): nat
    requires |requests| == |answers| && i <= |requests|
  {
    Passed(requests[i..], answers[i..], key)
  }

  /** The tokens of a key are what one window of the run, begun by one of its requests,
      leaves of 20 and 10 a second. */
  ghost predicate TokensAreOfAWindow(b: Bucket, requests: seq<Request>, answers: seq<bool>, key: string)
    requires |requests| == |answers|
  {
    exists i :: 0 <= i < |requests| && WindowLeaves(b, requests, answers, key, i)
  }

  ghost predicate WindowLeaves(b: Bucket, requests: seq<Request>, answers: seq<bool>, key: string, i: int)
    requires |requests| == |answers| && 0 <= i < |requests|
  {
    && requests[i].key == key
    && b.tokens == 20.0 + 10.0 * (b.last - requests[i].at) - PassedFrom(requests, answers, key, i) as real
  }

  lemma {:induction false} PassedOneMore(requests: seq<Request>, answers: seq<bool>, key: string, r: Request, ok: bool)
    requires |requests| == |answers|
    ensures Passed(requests + [r], answers + [ok], key)
         == Passed(requests, answers, key) + if r.key == key && ok then 1 else 0
    decreases |requests|
  {
    if requests == [] {
      assert (requests + [r])[1..] == [] && (answers + [ok])[1..] == [];
    } else {
      assert (requests + [r])[1..] == requests[1..] + [r] && (answers + [ok])[1..] == answers[1..] + [ok];
      PassedOneMore(requests[1..], answers[1..], key, r, ok);
    }
  }

  /** One more request to a full limiter. */
  lemma RunFullOneMore(buckets: Buckets, before: seq<Request>, r: Request)
    ensures var (mid, answers) := RunFull(buckets, before);
      var (end, ok) := Take(mid, r.key, r.at);
      RunFull(buckets, before + [r]) == (end, answers + [ok])
    decreases |before|
  {
    hide Take;
    if before == [] {
      assert before + [r] == [r] && [r][1..] == [];
      var (end, ok) := Take(buckets, r.key, r.at);
      assert RunFull(end, []) == (end, []);
      assert [ok] + [] == [ok] && [] + [ok] == [ok];
    } else {
      var (next, ok) := Take(buckets, before[0].key, before[0].at);
      assert (before + [r])[1..] == before[1..] + [r];
      RunFullOneMore(next, before[1..], r);
      var (mid, rest) := RunFull(next, before[1..]);
      var (end, last) := Take(mid, r.key, r.at);
      assert [ok] + (rest + [last]) == [ok] + rest + [last];
    }
  }

  lemma WindowGoesOn(b: Bucket, requests: seq<Request>, answers: seq<bool>, key: string, i: nat, r: Request, ok: bool, b': Bucket)
    requires |requests| == |answers| && i < |requests| && WindowLeaves(b, requests, answers, key, i)
    requires b'.last - b.last == r.at - b.last
    requires b'.tokens == b.tokens + 10.0 * (r.at - b.last) - if r.key == key && ok then 1.0 else 0.0
    ensures WindowLeaves(b', requests + [r], answers + [ok], key, i)
  {
    assert (requests + [r])[i..] == requests[i..] + [r] && (answers + [ok])[i..] == answers[i..] + [ok];
    PassedOneMore(requests[i..], answers[i..], key, r, ok);
  }

  lemma NewWindow(requests: seq<Request>, answers: seq<bool>, r: Request, b: Bucket)
    requires |requests| == |answers| && b == Bucket(19.0, r.at)
    ensures WindowLeaves(b, requests + [r], answers + [true], r.key, |requests|)
  {
    var i := |requests|;
    assert (requests + [r])[i..] == [r] && (answers + [true])[i..] == [true];
    assert [r][1..] == [] && [true][1..] == [];
    assert Passed([], [], r.key) == 0;
  }

  /** In every run of a new limiter without sweeps. */
  lemma {:induction false} TokensComeFromWindows(requests: seq<Request>, key: string)
    requires |RunFull(map[], requests).1| == |requests|
    ensures var (buckets, answers) := RunFull(map[], requests);
      key in buckets ==> TokensAreOfAWindow(buckets[key], requests, answers, key)
    decreases |requests|
  {
    if requests != [] {
      var n := |requests| - 1;
      var before, r := requests[..n], requests[n];
      assert requests == before + [r];
      AnswersMatchRequests(Limiter(map[], 0.0), map[], before);
      RunFullOneMore(map[], before, r);
      TokensComeFromWindows(before, key);
      var (mid, answers) := RunFull(map[], before);
      var (end, ok) := Take(mid, r.key, r.at);
      if r.key == key {
        TakeKeepsWindows(mid, before, answers, r);
      } else if key in mid {
        OtherKeyKeepsWindows(mid[key], before, answers, key, r, ok);
      }
    }
  }

  /** A window says the same of a bucket that nobody touched. */
  lemma OtherKeyKeepsWindows(b: Bucket, requests: seq<Request>, answers: seq<bool>, key: string, r: Request, ok: bool)
    requires |requests| == |answers| && TokensAreOfAWindow(b, requests, answers, key) && r.key != key
    ensures TokensAreOfAWindow(b, requests + [r], answers + [ok], key)
  {
    var i :| 0 <= i < |requests| && WindowLeaves(b, requests, answers, key, i);
    assert (requests + [r])[i..] == requests[i..] + [r] && (answers + [ok])[i..] == answers[i..] + [ok];
    PassedOneMore(requests[i..], answers[i..], key, r, ok);
    assert WindowLeaves(b, requests + [r], answers + [ok], key, i);
  }

  lemma TakeKeepsWindows(mid: Buckets, requests: seq<Request>, answers: seq<bool>, r: Request)
    requires |requests| == |answers|
    requires r.key in mid ==> TokensAreOfAWindow(mid[r.key], requests, answers, r.key)
    ensures var (end, ok) := Take(mid, r.key, r.at);
      r.key in end && TokensAreOfAWindow(end[r.key], requests + [r], answers + [ok], r.key)
  {
    var (end, ok) := Take(mid, r.key, r.at);
    if r.key !in mid || mid[r.key].tokens + (r.at - mid[r.key].last) * 10.0 > 20.0 {
      NewWindow(requests, answers, r, end[r.key]);
    } else {
      var i :| 0 <= i < |requests| && WindowLeaves(mid[r.key], requests, answers, r.key, i);
      WindowGoesOn(mid[r.key], requests, answers, r.key, i, r, ok, end[r.key]);
    }
  }

  /** Some window of the run, begun by a request of the key, has let so many through
      that one more now would be over 20 and 10 a second. */
  ghost predicate WouldExceed(requests: seq<Request>, answers: seq<bool>, r: Request)
    requires |requests| == |answers|
  {
    exists i :: 0 <= i < |requests| && requests[i].key == r.key && OneTooMany(requests, answers, r, i)
  }

  predicate OneTooMany(requests: seq<Request>, answers: seq<bool>, r: Request, i: int)
    requires |requests| == |answers| && 0 <= i < |requests|
  {
    PassedFrom(requests, answers, r.key, i) as real + 1.0 > 20.0 + 10.0 * (r.at - requests[i].at)
  }

  lemma RefusedMeansExceeds(requests: seq<Request>, r: Request)
    requires |RunFull(map[], requests).1| == |requests|
    ensures var (buckets, answers) := RunFull(map[], requests);
      !Take(buckets, r.key, r.at).1 ==> WouldExceed(requests, answers, r)
  {
    var (buckets, answers) := RunFull(map[], requests);
    TokensComeFromWindows(requests, r.key);
    if !Take(buckets, r.key, r.at).1 {
      var b := buckets[r.key];
      var i :| 0 <= i < |requests| && WindowLeaves(b, requests, answers, r.key, i);
      assert OneTooMany(requests, answers, r, i);
    }
  }

  lemma {:induction false} EarlierThanLast(now: real, requests: seq<Request>, i: nat)
    requires ClockMonotone(now, requests) && i < |requests|
    ensures requests[i].at <= requests[|requests| - 1].at && now <= requests[i].at
    decreases |requests|
  {
    if |requests| > 1 {
      EarlierThanLast(requests[0].at, requests[1..], if i > 0 then i - 1 else 0);
    }
  }

  /** One more request to the limiter as it is. */
  lemma OneMoreAnswer(l: Limiter, before: seq<Request>, r: Request)
    ensures var (mid, answers) := RunSwept(l, before);
      RunSwept(l, before + [r]).1 == answers + [AllowStep(mid, r.key, r.at).1]
  {
    hide AllowStep;
    RunSweptOn(l, before, [r]);
    var mid := RunSwept(l, before).0;
    assert [r][1..] == [];
    assert RunSwept(AllowStep(mid, r.key, r.at).0, []).1 == [];
  }

  /** A request that passes leaves no window with one too many. */
  lemma PassedMeansWithin(now: real, before: seq<Request>, r: Request, i: nat)
    requires ClockMonotone(now, before + [r]) && i < |before| && before[i].key == r.key
    requires |RunSwept(Limiter(map[], now), before).1| == |before|
    ensures var (l, answers) := RunSwept(Limiter(map[], now), before);
      AllowStep(l, r.key, r.at).1 ==> !OneTooMany(before, answers, r, i)
  {
    hide AllowStep, RunSwept, Passed;
    var (l, answers) := RunSwept(Limiter(map[], now), before);
    var ok := AllowStep(l, r.key, r.at).1;
    var window := before[i..] + [r];
    assert before[..i] + window == before + [r];
    assert before == before[..i] + before[i..];
    forall k | 0 <= k < |window| ensures window[k].at <= window[0].at + (r.at - before[i].at) {
      assert window[k] == (before + [r])[i + k];
      EarlierThanLast(now, before + [r], i + k);
    }
    AnyWindowIsBounded(now, before[..i], window, r.key, r.at - before[i].at);
    OneMoreAnswer(Limiter(map[], now), before, r);
    assert (answers + [ok])[i..] == answers[i..] + [ok];
    PassedOneMore(before[i..], answers[i..], r.key, r, ok);
  }

  /** Of a new limiter, after any run: a request is refused if and only if some window
      begun by an earlier request of its key has let so many through that one more would
      be over 20 and 10 for every second of the window. Nobody is refused without need. */
  lemma RefusedIff(now: real, before: seq<Request>, r: Request)
    requires ClockMonotone(now, before + [r])
    ensures var (l, answers) := RunSwept(Limiter(map[], now), before);
      |answers| == |before| && (!AllowStep(l, r.key, r.at).1 <==> WouldExceed(before, answers, r))
  {
    hide AllowStep, RunSwept, RunFull, Take, PassedFrom;
    var l: Limiter, full: Buckets := Limiter(map[], now), map[];
    AnswersMatchRequests(l, full, before);
    AnswersMatchRequests(l, full, before + [r]);
    ClockRunsOn(now, before, [r]);
    SweepIsInvisible(l, full, now, before);
    SweepIsInvisible(l, full, now, before + [r]);
    OneMoreAnswer(l, before, r);
    RunFullOneMore(full, before, r);
    var answers := RunSwept(l, before).1;
    assert (answers + [AllowStep(RunSwept(l, before).0, r.key, r.at).1])[|before|]
        == (answers + [Take(RunFull(full, before).0, r.key, r.at).1])[|before|];
    RefusedMeansExceeds(before, r);
    forall i | 0 <= i < |before| && before[i].key == r.key
      ensures AllowStep(RunSwept(l, before).0, r.key, r.at).1 ==> !OneTooMany(before, answers, r, i)
    {
      PassedMeansWithin(now, before, r, i);
    }
  }

  /** After a sweep only buckets used within a minute are kept; sweeps come at most every
      five minutes. */
  lemma SweepForgets(l: Limiter, key: string, now: real, k: string)
    ensures var (l', _) := AllowStep(l, key, now);
      && (now - l.lastSweep > 300.0 ==> l'.lastSweep == now && (k in l'.buckets ==> now - l'.buckets[k].last <= 60.0))
      && (now - l.lastSweep > 300.0 && k in l.buckets && now - l.buckets[k].last <= 60.0 ==> k in l'.buckets)
      && (now - l.lastSweep <= 300.0 ==> l'.lastSweep == l.lastSweep && (k in l.buckets ==> k in l'.buckets))
  {
  }

  class RateLimiter {
    var buckets: Buckets
    var lastSweep: real

    constructor (now: real)
      ensures View() == Limiter(map[], now)
    {
      buckets, lastSweep := map[], now;
    }

    ghost function View(): Limiter
      reads this
    {
      Limiter(buckets, lastSweep)
    }

    /** May this request pass? */
    method Allow(key: string, now: real) returns (ok: bool)
      modifies this
      ensures (View(), ok) == AllowStep(old(View()), key, now)
    {
      if now - lastSweep > SWEEP_EVERY {
        var keys := buckets.Keys;
        while keys != {}
          invariant keys <= old(buckets).Keys
          invariant lastSweep == old(lastSweep)
          invariant buckets == map k | k in old(buckets) && (k in keys || !IdleBucket(old(buckets)[k], now)) :: old(buckets)[k]
          decreases |keys|
        {
          var k :| k in keys;
          keys := keys - {k};
          if now - buckets[k].last > IDLE {
            buckets := buckets - {k};
          }
        }
        assert buckets == Evict(old(buckets), now);
        lastSweep := now;
      }
      if key !in buckets {
        buckets := buckets[key := Bucket(BURST - 1.0, now)];
        return true;
      }
      var tokens := buckets[key].tokens + (now - buckets[key].last) * RATE_PER_SEC;
      if tokens > BURST {
        tokens := BURST;
      }
      if tokens < 1.0 {
        buckets := buckets[key := Bucket(tokens, now)];
        return false;
      }
      buckets := buckets[key := Bucket(tokens - 1.0, now)];
      ok := true;
    }
  }
}
