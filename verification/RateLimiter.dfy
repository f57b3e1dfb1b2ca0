/** The request rate limiter: one counting window per key, opened by the first request after the last one ended. */
module RateLimiter {
  import opened Options

  datatype Policy = Policy(max: nat, windowMs: nat)

  datatype Window = Window(count: nat, resetAt: int)

  type Windows = map<string, Window>

  /** A missing window length is a minute. */
  function Length(p: Policy): (ms: nat)
    ensures ms >= 1
  {
    if p.windowMs == 0 then 60000 else p.windowMs
  }

  function RateKey(remote: string, group: string): string { remote + "::" + group }

  predicate Opens(windows: Windows, key: string, now: int) {
    key !in windows || now >= windows[key].resetAt
  }

  function Counted(windows: Windows, key: string, p: Policy, now: int): Windows {
    if p.max == 0 then windows
    else if Opens(windows, key, now) then windows[key := Window(1, now + Length(p))]
    else windows[key := Window(windows[key].count + 1, windows[key].resetAt)]
  }

  predicate Admits(windows: Windows, key: string, p: Policy, now: int) {
    p.max == 0 || Opens(windows, key, now) || windows[key].count < p.max
  }

  class Limiter {
    const limits: map<string, Policy>
    var windows: Windows

    constructor (limits: map<string, Policy>)
      ensures this.limits == limits && windows == map[]
    {
      this.limits := limits;
      windows := map[];
    }

    /** The group's own policy, or that of read-only requests; without either there is no limit. */
    function PolicyFor(group: string): Policy {
      if group in limits then limits[group] else if "read_only" in limits then limits["read_only"] else Policy(0, 0)
    }

    /** Counts a request, and gives the seconds to wait when it is one too many. */
    method EnforceRateLimit(remote: string, group: string, now: int) returns (retryAfter: Option<int>)
      modifies this
      ensures windows == Counted(old(windows), RateKey(remote, group), PolicyFor(group), now)
      ensures retryAfter.None? <==> Admits(old(windows), RateKey(remote, group), PolicyFor(group), now)
      ensures retryAfter.Some? ==>
                && retryAfter.value >= 1
                && var resetAt := old(windows)[RateKey(remote, group)].resetAt;
                   now + 1000 * (retryAfter.value - 1) < resetAt <= now + 1000 * retryAfter.value
      ensures group !in limits && "read_only" !in limits ==> retryAfter.None? && windows == old(windows)
      ensures group !in limits && "read_only" in limits && limits["read_only"].max == 0 ==>
                retryAfter.None? && windows == old(windows)
    {
      var policy := PolicyFor(group);
      if policy.max == 0 { return None; }
      var key := RateKey(remote, group);
      if key !in windows || now >= windows[key].resetAt {
        windows := windows[key := Window(1, now + Length(policy))];
        return None;
      }
      var current := Window(windows[key].count + 1, windows[key].resetAt);
      windows := windows[key := current];
      if current.count > policy.max {
        var wait := (current.resetAt - now + 999) / 1000;
        return Some(if wait < 1 then 1 else wait);
      }
      return None;
    }
  }

  /** Groups without a colon share no key. */
  lemma KeysApart(remote: string, group: string, remote': string, group': string)
    requires ':' !in group && ':' !in group' && RateKey(remote, group) == RateKey(remote', group')
    ensures remote == remote' && group == group'
  {
    var s := RateKey(remote, group);
    ColonBefore(remote, group);
    ColonBefore(remote', group');
    assert |group| == |group'|;
    assert group == s[|s| - |group|..] && group' == s[|s| - |group'|..];
    assert remote == s[..|s| - |group| - 2] && remote' == s[..|s| - |group'| - 2];
  }

  lemma ColonBefore(remote: string, group: string)
    requires ':' !in group
    ensures var s := RateKey(remote, group);
            s[|s| - |group| - 1] == ':' && forall i :: |s| - |group| <= i < |s| ==> s[i] != ':'
  {
    var s := RateKey(remote, group);
    assert forall i :: |s| - |group| <= i < |s| ==> s[i] == group[i - |remote| - 2];
  }

  // ---------------------------------------------------------------- runs

  datatype Request = Request(key: string, now: int)

  /** Requests of every key, one policy per key, a clock that never goes back; `states[i]` is before request `i`. */
  ghost predicate Run(states: seq<Windows>, requests: seq<Request>, policies: map<string, Policy>) {
    && |states| == |requests| + 1
    && (forall i :: 0 <= i < |requests| ==> requests[i].key in policies)
    && (forall i :: 0 <= i < |requests| ==>
          states[i + 1] == Counted(states[i], requests[i].key, policies[requests[i].key], requests[i].now))
    && (forall i, j :: 0 <= i <= j < |requests| ==> requests[i].now <= requests[j].now)
  }

  predicate Admitted(states: seq<Windows>, requests: seq<Request>, policies: map<string, Policy>, key: string, i: nat)
    requires i < |requests| && |states| == |requests| + 1 && key in policies
  {
    requests[i].key == key && Admits(states[i], key, policies[key], requests[i].now)
  }

  /** How many requests of a key are admitted among those numbered `from` up to `to`. */
  function Count(states: seq<Windows>, requests: seq<Request>, policies: map<string, Policy>, key: string, from: nat,
                 to: nat): nat
    requires from <= to <= |requests| && |states| == |requests| + 1 && key in policies
    decreases |requests| - from
  {
    if from == to then 0
    else
      (if Admitted(states, requests, policies, key, from) then 1 else 0)
      + Count(states, requests, policies, key, from + 1, to)
  }

  /** How many requests of a key come in among those numbered `from` up to `to`, admitted or not. */
  function Asked(requests: seq<Request>, key: string, from: nat, to: nat): nat
    requires from <= to <= |requests|
  {
    if from == to then 0 else Asked(requests, key, from, to - 1) + if requests[to - 1].key == key then 1 else 0
  }

  /** A window counts the requests of its key from the one that opened it, and ends where that one said. */
  lemma {:induction false} WindowCounts(states: seq<Windows>, requests: seq<Request>, policies: map<string, Policy>,
                                        key: string, from: nat, i: nat, end: int)
    requires Run(states, requests, policies) && from < i <= |requests| && key in policies && policies[key].max >= 1
    requires requests[from].key == key && Opens(states[from], key, requests[from].now)
    requires end == requests[from].now + if policies[key].windowMs == 0 then 60000 else policies[key].windowMs
    requires forall k :: from < k < i && requests[k].key == key ==> requests[k].now < end
    ensures key in states[i] && states[i][key] == Window(Asked(requests, key, from, i), end)
    decreases i
  {
    assert states[i] == Counted(states[i - 1], requests[i - 1].key, policies[requests[i - 1].key], requests[i - 1].now);
    if i - 1 > from {
      WindowCounts(states, requests, policies, key, from, i - 1, end);
    } else {
      assert Asked(requests, key, from, from) == 0;
    }
  }

  /** In a window exactly the first `max` requests of the key are admitted, and at its end a new one opens. */
  lemma AdmittedExactly(states: seq<Windows>, requests: seq<Request>, policies: map<string, Policy>, key: string,
                        from: nat, i: nat)
    requires Run(states, requests, policies) && from < i < |requests| && key in policies && policies[key].max >= 1
    requires requests[from].key == key && requests[i].key == key && Opens(states[from], key, requests[from].now)
    requires var end := requests[from].now + if policies[key].windowMs == 0 then 60000 else policies[key].windowMs;
             forall k :: from < k < i && requests[k].key == key ==> requests[k].now < end
    ensures var end := requests[from].now + if policies[key].windowMs == 0 then 60000 else policies[key].windowMs;
            Admitted(states, requests, policies, key, i) <==>
              requests[i].now >= end || Asked(requests, key, from, i) < policies[key].max
  {
    WindowCounts(states, requests, policies, key, from, i,
                 requests[from].now + if policies[key].windowMs == 0 then 60000 else policies[key].windowMs);
  }

  /** The first request of a key opens its window, and so does every request of a key without a limit. */
  lemma FirstIsAdmitted(states: seq<Windows>, requests: seq<Request>, policies: map<string, Policy>, i: nat)
    requires Run(states, requests, policies) && i < |requests| && states[0] == map[]
    requires policies[requests[i].key].max == 0 || forall k :: 0 <= k < i ==> requests[k].key != requests[i].key
    ensures Admitted(states, requests, policies, requests[i].key, i)
    ensures policies[requests[i].key].max == 0 ==> states[i + 1] == states[i]
  {
    if policies[requests[i].key].max != 0 {
      KeysIndependent(states, requests, policies, requests[i].key, 0, i);
    }
  }

  function Left(windows: Windows, key: string, p: Policy): nat {
    if key in windows && windows[key].count < p.max then p.max - windows[key].count else 0
  }

  /** Inside one window no more is admitted than the window has left. */
  lemma {:induction false} WithinTheWindow(states: seq<Windows>, requests: seq<Request>,
                                           policies: map<string, Policy>, key: string, from: nat, to: nat)
    requires Run(states, requests, policies) && from <= to <= |requests| && key in policies && policies[key].max >= 1
    requires key in states[from] && forall i :: from <= i < to ==> requests[i].now < states[from][key].resetAt
    ensures Count(states, requests, policies, key, from, to) <= Left(states[from], key, policies[key])
    decreases |requests| - from
  {
    if from < to {
      assert states[from + 1] == Counted(states[from], requests[from].key, policies[requests[from].key],
                                         requests[from].now);
      WithinTheWindow(states, requests, policies, key, from + 1, to);
    }
  }

  /** From the request that opens a window until the window ends, at most `max` requests of its key are admitted. */
  lemma WindowAdmitsAtMostMax(states: seq<Windows>, requests: seq<Request>, policies: map<string, Policy>,
                              key: string, from: nat, to: nat)
    requires Run(states, requests, policies) && from < to <= |requests| && key in policies && policies[key].max >= 1
    requires requests[from].key == key && Opens(states[from], key, requests[from].now)
    requires forall i :: from <= i < to ==> requests[i].now < requests[from].now + Length(policies[key])
    ensures Count(states, requests, policies, key, from, to) <= policies[key].max
  {
    assert states[from + 1] == Counted(states[from], key, policies[key], requests[from].now);
    WithinTheWindow(states, requests, policies, key, from + 1, to);
  }

  /** The old window's rest, then at most one new window. */
  lemma {:induction false} IntervalBound(states: seq<Windows>, requests: seq<Request>, policies: map<string, Policy>,
                                         key: string, from: nat, to: nat, start: int)
    requires Run(states, requests, policies) && from <= to <= |requests| && key in policies && policies[key].max >= 1
    requires forall i :: from <= i < to ==> start <= requests[i].now < start + Length(policies[key])
    ensures Count(states, requests, policies, key, from, to)
            <= policies[key].max + Left(states[from], key, policies[key])
    decreases |requests| - from
  {
    if from < to {
      if requests[from].key == key && Opens(states[from], key, requests[from].now) {
        WindowAdmitsAtMostMax(states, requests, policies, key, from, to);
      } else {
        assert states[from + 1] == Counted(states[from], requests[from].key, policies[requests[from].key],
                                           requests[from].now);
        IntervalBound(states, requests, policies, key, from + 1, to, start);
      }
    }
  }

  /** Any half-open interval of one window length admits at most twice `max` requests of a key. */
  lemma IntervalAdmitsAtMostTwiceMax(states: seq<Windows>, requests: seq<Request>, policies: map<string, Policy>,
                                     key: string, from: nat, to: nat, start: int)
    requires Run(states, requests, policies) && from <= to <= |requests| && key in policies && policies[key].max >= 1
    requires forall i :: from <= i < to ==> start <= requests[i].now < start + Length(policies[key])
    ensures Count(states, requests, policies, key, from, to) <= 2 * policies[key].max
  {
    IntervalBound(states, requests, policies, key, from, to, start);
  }

  /** Requests of other keys neither use up a key's window nor extend it. */
  lemma {:induction false} KeysIndependent(states: seq<Windows>, requests: seq<Request>,
                                           policies: map<string, Policy>, key: string, from: nat, to: nat)
    requires Run(states, requests, policies) && from <= to <= |requests|
    requires forall i :: from <= i < to ==> requests[i].key != key
    ensures key in states[to] <==> key in states[from]
    ensures key in states[from] ==> states[to][key] == states[from][key]
    decreases |requests| - from
  {
    if from < to {
      assert states[from + 1] == Counted(states[from], requests[from].key, policies[requests[from].key],
                                         requests[from].now);
      KeysIndependent(states, requests, policies, key, from + 1, to);
    }
  }

  /** A window ends within one window length of the last request so far. */
  lemma {:induction false} WindowsEnd(states: seq<Windows>, requests: seq<Request>, policies: map<string, Policy>,
                                      key: string, i: nat, now: int)
    requires Run(states, requests, policies) && states[0] == map[] && i <= |requests| && key in policies
    requires forall k :: 0 <= k < i && requests[k].key == key ==> requests[k].now <= now
    ensures key in states[i] ==> states[i][key].resetAt <= now + Length(policies[key])
  {
    if i > 0 {
      WindowsEnd(states, requests, policies, key, i - 1, now);
      assert states[i] == Counted(states[i - 1], requests[i - 1].key, policies[requests[i - 1].key],
                                  requests[i - 1].now);
    }
  }

  /** Nobody is locked out: a request that waits one window length after the key's earlier ones is admitted. */
  lemma AdmittedAfterAPause(states: seq<Windows>, requests: seq<Request>, policies: map<string, Policy>, i: nat)
    requires Run(states, requests, policies) && states[0] == map[] && i < |requests|
    requires forall k :: 0 <= k < i && requests[k].key == requests[i].key ==>
                           requests[k].now <= requests[i].now - Length(policies[requests[i].key])
    ensures Admitted(states, requests, policies, requests[i].key, i)
  {
    var key := requests[i].key;
    WindowsEnd(states, requests, policies, key, i, requests[i].now - Length(policies[key]));
  }
}
