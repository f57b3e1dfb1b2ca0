/** Freshness and replay of signed requests, over every run of verifications with a clock that never goes back. */
module ReplayStore {
  type Entries = map<string, int>

  /** A request as the replay check sees it; `authentic` says that everything before the claim passed. */
  datatype Request = Request(keyId: string, requestId: string, timestamp: int, authentic: bool)

  datatype Window = Window(freshness: nat, skew: nat)

  function ClaimKey(keyId: string, requestId: string): string { keyId + "\n" + requestId }

  function Key(r: Request): string { ClaimKey(r.keyId, r.requestId) }

  function Live(entries: Entries, now: int): Entries {
    map k | k in entries && entries[k] > now :: entries[k]
  }

  predicate Fresh(r: Request, w: Window, now: int) {
    now - w.freshness <= r.timestamp <= now + w.skew
  }

  /** Whether a request is accepted now. */
  predicate Accepts(entries: Entries, r: Request, w: Window, now: int) {
    r.authentic && Fresh(r, w, now) && Key(r) !in Live(entries, now)
  }

  /** The claims after a verification; only a request that reaches the claim cleans up. */
  function After(entries: Entries, r: Request, w: Window, now: int): Entries {
    if !r.authentic || !Fresh(r, w, now) then entries
    else if Key(r) in Live(entries, now) then Live(entries, now)
    else Live(entries, now)[Key(r) := r.timestamp + w.freshness]
  }

  class MemoryReplayStore {
    var entries: Entries

    constructor ()
      ensures entries == map[]
    {
      entries := map[];
    }

    /** Deletes the claims that have expired, one after the other. */
    method Cleanup(now: int)
      modifies this
      ensures entries == Live(old(entries), now)
    {
      var keys := entries.Keys;
      ghost var was := entries;
      while keys != {}
        invariant keys <= was.Keys && entries.Keys <= was.Keys
        invariant forall k :: k in entries ==> entries[k] == was[k]
        invariant forall k :: k in was ==> (k in entries <==> k in keys || was[k] > now)
        decreases |keys|
      {
        var key :| key in keys;
        keys := keys - {key};
        if entries[key] <= now {
          entries := entries - {key};
        }
      }
    }

    method Claim(keyId: string, requestId: string, expiresAt: int, now: int) returns (claimed: bool)
      modifies this
      ensures claimed == (ClaimKey(keyId, requestId) !in Live(old(entries), now))
      ensures entries == if claimed then Live(old(entries), now)[ClaimKey(keyId, requestId) := expiresAt]
                         else Live(old(entries), now)
    {
      Cleanup(now);
      var key := ClaimKey(keyId, requestId);
      if key in entries && entries[key] > now {
        return false;
      }
      entries := entries[key := expiresAt];
      return true;
    }

    /** The tail of a verification: the freshness window, the checks in between, then the claim. */
    method VerifySignedRequest(r: Request, w: Window, now: int) returns (accepted: bool)
      modifies this
      ensures accepted == Accepts(old(entries), r, w, now)
      ensures entries == After(old(entries), r, w, now)
    {
      if r.timestamp < now - w.freshness || r.timestamp > now + w.skew { return false; }
      if !r.authentic { return false; }
      accepted := Claim(r.keyId, r.requestId, r.timestamp + w.freshness, now);
    }
  }

  // ---------------------------------------------------------------- runs

  datatype Attempt = Attempt(request: Request, now: int)

  /** `states[i]` are the claims before attempt `i`; the clock is positive and never goes back. */
  ghost predicate Run(states: seq<Entries>, attempts: seq<Attempt>, w: Window) {
    && |states| == |attempts| + 1
    && (forall i :: 0 <= i < |attempts| ==> states[i + 1] == After(states[i], attempts[i].request, w, attempts[i].now))
    && (forall i :: 0 <= i < |attempts| ==> attempts[i].now > 0)
    && (forall i, j :: 0 <= i <= j < |attempts| ==> attempts[i].now <= attempts[j].now)
  }

  predicate Accepted(states: seq<Entries>, attempts: seq<Attempt>, w: Window, i: nat)
    requires i < |attempts| && |states| == |attempts| + 1
  {
    Accepts(states[i], attempts[i].request, w, attempts[i].now)
  }

  predicate SameRequest(a: Request, b: Request) {
    a.keyId == b.keyId && a.requestId == b.requestId && a.timestamp == b.timestamp
  }

  /** A claim stands until its expiry. */
  lemma {:induction false} ClaimStands(states: seq<Entries>, attempts: seq<Attempt>, w: Window, i: nat, j: nat)
    requires Run(states, attempts, w) && i < j < |attempts| && Accepted(states, attempts, w, i)
    requires attempts[j - 1].now < attempts[i].request.timestamp + w.freshness
    ensures Key(attempts[i].request) in states[j]
    ensures states[j][Key(attempts[i].request)] == attempts[i].request.timestamp + w.freshness
    decreases j
  {
    assert states[j] == After(states[j - 1], attempts[j - 1].request, w, attempts[j - 1].now);
    if j > i + 1 {
      assert attempts[j - 2].now <= attempts[j - 1].now;
      ClaimStands(states, attempts, w, i, j - 1);
    }
  }

  /** An accepted request is accepted again only at the very instant its freshness ends: never before, never after. */
  lemma AcceptedOnceBeforeTheEnd(states: seq<Entries>, attempts: seq<Attempt>, w: Window, i: nat, j: nat)
    requires Run(states, attempts, w) && i < j < |attempts|
    requires Accepted(states, attempts, w, i) && Accepted(states, attempts, w, j)
    requires SameRequest(attempts[i].request, attempts[j].request)
    ensures attempts[j].now == attempts[i].request.timestamp + w.freshness
  {
    if attempts[j].now < attempts[i].request.timestamp + w.freshness {
      assert attempts[j - 1].now <= attempts[j].now;
      ClaimStands(states, attempts, w, i, j);
    }
  }

  /** Until another claim takes the key, it holds the expiry of the accepted request, or has been cleaned up at its
      end. */
  lemma {:induction false} ClaimUntouched(states: seq<Entries>, attempts: seq<Attempt>, w: Window, i: nat, j: nat)
    requires Run(states, attempts, w) && i < j < |attempts| && Accepted(states, attempts, w, i)
    requires forall k :: i < k < j && Accepted(states, attempts, w, k)
                         && Key(attempts[k].request) == Key(attempts[i].request) ==>
                           attempts[k].request.timestamp == attempts[i].request.timestamp
    ensures var key, end := Key(attempts[i].request), attempts[i].request.timestamp + w.freshness;
            key in states[j] ==> states[j][key] == end
    decreases j
  {
    assert states[j] == After(states[j - 1], attempts[j - 1].request, w, attempts[j - 1].now);
    if j > i + 1 {
      ClaimUntouched(states, attempts, w, i, j - 1);
      assert Accepted(states, attempts, w, j - 1) && Key(attempts[j - 1].request) == Key(attempts[i].request) ==>
          attempts[j - 1].request.timestamp == attempts[i].request.timestamp;
    }
  }

  /** And at that instant it is accepted again, as often as it is sent, unless another request with the same
      identifiers and a different timestamp was accepted in between. */
  lemma AcceptedAgainExactlyAtTheEnd(states: seq<Entries>, attempts: seq<Attempt>, w: Window, i: nat, j: nat)
    requires Run(states, attempts, w) && i < j < |attempts| && Accepted(states, attempts, w, i)
    requires SameRequest(attempts[i].request, attempts[j].request) && attempts[j].request.authentic
    requires forall k :: i < k < j && Accepted(states, attempts, w, k)
                         && Key(attempts[k].request) == Key(attempts[i].request) ==>
                           attempts[k].request.timestamp == attempts[i].request.timestamp
    ensures Accepted(states, attempts, w, j) <==> attempts[j].now == attempts[i].request.timestamp + w.freshness
  {
    assert attempts[i].now <= attempts[j].now;
    if attempts[j].now == attempts[i].request.timestamp + w.freshness {
      ClaimUntouched(states, attempts, w, i, j);
    } else if Accepted(states, attempts, w, j) {
      AcceptedOnceBeforeTheEnd(states, attempts, w, i, j);
    }
  }

  /** No request is accepted after its freshness has ended, or more than the skew before its timestamp. */
  lemma AcceptedOnlyWhileFresh(states: seq<Entries>, attempts: seq<Attempt>, w: Window, i: nat)
    requires Run(states, attempts, w) && i < |attempts| && Accepted(states, attempts, w, i)
    ensures attempts[i].request.timestamp - w.skew <= attempts[i].now <= attempts[i].request.timestamp + w.freshness
  {
  }

  /** Key ids are single lines, so requests share a claim only when both identifiers agree. */
  lemma ClaimTells(a: Request, b: Request)
    requires '\n' !in a.keyId && '\n' !in b.keyId && Key(a) == Key(b)
    ensures a.keyId == b.keyId && a.requestId == b.requestId
  {
    var s := Key(a);
    assert s[|a.keyId|] == '\n' && s[|b.keyId|] == '\n';
    assert forall i :: 0 <= i < |a.keyId| ==> s[i] == a.keyId[i] && s[i] != '\n';
    assert forall i :: 0 <= i < |b.keyId| ==> s[i] == b.keyId[i] && s[i] != '\n';
    assert a.keyId == s[..|a.keyId|] && b.keyId == s[..|b.keyId|];
    assert a.requestId == s[|a.keyId| + 1..] && b.requestId == s[|b.keyId| + 1..];
  }

  /** A first use is accepted: nothing but an accepted request with the same claim key can stand in the way. */
  lemma FirstUseAccepted(states: seq<Entries>, attempts: seq<Attempt>, w: Window, j: nat)
    requires Run(states, attempts, w) && states[0] == map[] && j < |attempts|
    requires forall k :: 0 <= k < j && Accepted(states, attempts, w, k) ==>
                           Key(attempts[k].request) != Key(attempts[j].request)
    ensures Accepted(states, attempts, w, j) <==>
              && attempts[j].request.authentic
              && attempts[j].request.timestamp - w.skew <= attempts[j].now
              && attempts[j].now <= attempts[j].request.timestamp + w.freshness
  {
    NoClaim(states, attempts, w, j, Key(attempts[j].request));
  }

  lemma {:induction false} NoClaim(states: seq<Entries>, attempts: seq<Attempt>, w: Window, j: nat, key: string)
    requires Run(states, attempts, w) && states[0] == map[] && j <= |attempts|
    requires forall k :: 0 <= k < j && Accepted(states, attempts, w, k) ==> Key(attempts[k].request) != key
    ensures key !in states[j]
  {
    if j > 0 {
      NoClaim(states, attempts, w, j - 1, key);
      assert states[j] == After(states[j - 1], attempts[j - 1].request, w, attempts[j - 1].now);
      assert Accepted(states, attempts, w, j - 1) ==> Key(attempts[j - 1].request) != key;
    }
  }

  /** One request, sent three times: accepted, refused while its claim stands, and accepted again at the
      instant its freshness ends. */
  lemma AcceptedTwiceExample() returns (states: seq<Entries>, attempts: seq<Attempt>)
    ensures Run(states, attempts, Window(300, 30)) && |attempts| == 3 && states[0] == map[]
    ensures SameRequest(attempts[0].request, attempts[2].request)
    ensures forall i :: 0 <= i < 3 ==> (Accepted(states, attempts, Window(300, 30), i) <==> i != 1)
  {
    var r := Request("key-1", "request-1", 1000, true);
    var key := Key(r);
    attempts := [Attempt(r, 1000), Attempt(r, 1299), Attempt(r, 1300)];
    states := [map[], map[key := 1300], map[key := 1300], map[key := 1300]];
    assert Live(map[], 1000) == map[] && Live(map[key := 1300], 1299) == map[key := 1300];
    assert Live(map[key := 1300], 1300) == map[];
    forall i | 0 <= i < 3
      ensures states[i + 1] == After(states[i], attempts[i].request, Window(300, 30), attempts[i].now)
    {
      assert i == 0 || i == 1 || i == 2;
    }
  }
}
