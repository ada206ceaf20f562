/** Throttling of password logins by address (auth/auth.go:231-303, 473-520).

    A login has two phases with the lock released between them: the attempt is marked as being
    checked, the password is compared, and the outcome is recorded.  Any number of logins and
    clean-ups interleave.  `now` is a clock that never goes back. */
module LoginThrottle {
  import opened Basics

  const MAX_FAILURES := 5
  const COOLDOWN := 60
  const MAX_TRACKED := 4096
  const MAX_CHECKS := 4

  datatype Attempt = Attempt(failures: nat, retryAt: Option<nat>, lastAttempt: Option<nat>, checking: bool)

  /** Six failures never lie within one cooldown. */
  predicate Spread(failures: seq<nat>) {
    forall k :: 0 <= k && k + MAX_FAILURES < |failures| ==> failures[k + MAX_FAILURES] >= failures[k] + COOLDOWN
  }

  predicate Ordered(failures: seq<nat>, now: nat) {
    && (forall i, j :: 0 <= i <= j < |failures| ==> failures[i] <= failures[j])
    && (failures != [] ==> failures[|failures| - 1] <= now)
  }

  /** What an entry knows about the failures of its address since its last success or eviction:
      those it counts are the latest, and a cooldown lies before them. */
  predicate Remembers(a: Attempt, h: seq<nat>, now: nat) {
    && a.failures < MAX_FAILURES
    && if a.retryAt.Some? then
         && a.failures == 0 && |h| >= MAX_FAILURES && !a.checking
         && a.retryAt.value == h[|h| - 1] + COOLDOWN && a.lastAttempt == Some(h[|h| - 1])
       else
         && a.failures <= |h|
         && a.lastAttempt == (if a.failures == 0 then None else Some(h[|h| - 1]))
         && (a.failures < |h| ==>
               (if a.failures == 0 then now else h[|h| - a.failures]) >= h[|h| - a.failures - 1] + COOLDOWN)
  }

  /** An address is forgotten only a cooldown after its last failure. */
  predicate Forgotten(h: seq<nat>, now: nat) {
    h != [] ==> now >= h[|h| - 1] + COOLDOWN
  }

  /** The cooldown of this entry has not ended. */
  predicate Waits(a: Attempt, now: nat) {
    a.retryAt.Some? && now < a.retryAt.value
  }

  predicate Expired(a: Attempt, now: nat) {
    && !a.checking
    && if a.retryAt.Some? then now >= a.retryAt.value
       else a.lastAttempt.Some? && now >= a.lastAttempt.value + COOLDOWN
  }

  /** The entry is being checked, its cooldown lasts, or its last failure, if any, is less than a
      minute ago. */
  predicate Fresh(a: Attempt, now: nat) {
    || a.checking
    || (a.retryAt.Some? && now < a.retryAt.value)
    || (a.retryAt.None? && (a.lastAttempt.Some? ==> now - a.lastAttempt.value < 60))
  }

  /** The entries that a clean-up leaves. */
  function Survivors(attempts: map<string, Attempt>, now: nat): map<string, Attempt> {
    map ip | ip in attempts && !Expired(attempts[ip], now) :: attempts[ip]
  }

  /** An entry without a failure is earlier than any with one. */
  predicate Earlier(a: Option<nat>, b: Option<nat>) {
    a.None? || (b.Some? && a.value <= b.value)
  }

  predicate IsOldest(attempts: map<string, Attempt>, ip: string) {
    && ip in attempts && !attempts[ip].checking
    && forall other :: other in attempts && !attempts[other].checking && attempts[ip].lastAttempt.Some? ==>
         attempts[other].lastAttempt.Some? && attempts[ip].lastAttempt.value <= attempts[other].lastAttempt.value
  }

  /** The entry that the eviction settles on when it visits the entries in this order.  The empty
      address stands for none. */
  function Settled(attempts: map<string, Attempt>, order: seq<string>): (r: string)
    requires forall i :: 0 <= i < |order| ==> order[i] in attempts
    ensures r != "" ==> r in attempts
  {
    if order == [] then ""
    else
      var before, ip := Settled(attempts, order[..|order| - 1]), order[|order| - 1];
      if attempts[ip].checking then before
      else if before == "" || !Earlier(attempts[before].lastAttempt, attempts[ip].lastAttempt) then ip
      else before
  }

  predicate Idle(attempts: map<string, Attempt>, ip: string) {
    ip in attempts && !attempts[ip].checking
  }

  /** The entry of the empty address is not being checked and older than any other such entry. */
  ghost predicate EmptyIsOldest(attempts: map<string, Attempt>) {
    && Idle(attempts, "")
    && forall ip :: Idle(attempts, ip) && ip != "" ==> !Earlier(attempts[ip].lastAttempt, attempts[""].lastAttempt)
  }

  /** Each entry once, in whatever order the map yields them. */
  predicate Visits(attempts: map<string, Attempt>, order: seq<string>) {
    && (forall i :: 0 <= i < |order| ==> order[i] in attempts)
    && (forall i, j :: 0 <= i < j < |order| ==> order[i] != order[j])
    && (forall ip :: ip in attempts ==> ip in order)
  }

  /** The visited part of the table: nothing idle yet, an oldest entry found, or the empty address
      older than all others. */
  ghost predicate SettledSoFar(attempts: map<string, Attempt>, order: seq<string>, r: string) {
    || (r == "" && forall ip :: ip in order ==> !Idle(attempts, ip))
    || (r != "" && r in order && Idle(attempts, r)
        && forall ip :: ip in order && Idle(attempts, ip) ==> Earlier(attempts[r].lastAttempt, attempts[ip].lastAttempt))
    || ("" in order && Idle(attempts, "") && (r != "" ==> r in order && Idle(attempts, r))
        && forall ip :: ip in order && Idle(attempts, ip) && ip != "" ==> !Earlier(attempts[ip].lastAttempt, attempts[""].lastAttempt))
  }

  lemma {:induction false} SettledFinds(attempts: map<string, Attempt>, order: seq<string>)
    requires forall i :: 0 <= i < |order| ==> order[i] in attempts
    requires forall i, j :: 0 <= i < j < |order| ==> order[i] != order[j]
    ensures SettledSoFar(attempts, order, Settled(attempts, order))
  {
    if order == [] {
    } else {
      var rest, ip := order[..|order| - 1], order[|order| - 1];
      SettledFinds(attempts, rest);
      assert order == rest + [ip];
      OneMoreVisited(attempts, rest, ip, Settled(attempts, rest));
    }
  }

  lemma OneMoreVisited(attempts: map<string, Attempt>, rest: seq<string>, ip: string, before: string)
    requires SettledSoFar(attempts, rest, before) && ip in attempts && ip !in rest && (before != "" ==> before in attempts)
    ensures
      var r := if attempts[ip].checking then before
               else if before == "" || !Earlier(attempts[before].lastAttempt, attempts[ip].lastAttempt) then ip
               else before;
      SettledSoFar(attempts, rest + [ip], r)
  {
    assert forall x :: x in rest + [ip] <==> x in rest || x == ip;
  }

  /** The eviction finds an oldest entry that is not being checked exactly when there is one and
      the empty address is not older than all others, in whatever order it visits them. */
  lemma EvictionIsRight(attempts: map<string, Attempt>, order: seq<string>)
    requires Visits(attempts, order)
    ensures
      var r := Settled(attempts, order);
      && (r != "" ==> Idle(attempts, r))
      && (r != "" && IsOldest(attempts, r) <==> (exists ip :: Idle(attempts, ip)) && !EmptyIsOldest(attempts))
  {
    SettledFinds(attempts, order);
    var r := Settled(attempts, order);
    assert forall ip :: Idle(attempts, ip) ==> ip in order;
    if exists ip :: Idle(attempts, ip) {
      var ip :| Idle(attempts, ip);
      assert ip in order;
    }
  }

  /** Two idle entries, the empty address the older one: visited last it is taken for none, and
      visited first it is passed over. */
  lemma EmptyAddressIsPassedOver()
    ensures
      var attempts := map["" := Attempt(1, None, Some(3), false), "a" := Attempt(1, None, Some(5), false)];
      && Visits(attempts, ["a", ""]) && Settled(attempts, ["a", ""]) == ""
      && Visits(attempts, ["", "a"]) && Settled(attempts, ["", "a"]) == "a" && !IsOldest(attempts, "a")
  {
    var attempts := map["" := Attempt(1, None, Some(3), false), "a" := Attempt(1, None, Some(5), false)];
    assert ["a", ""][..1] == ["a"] && ["a"][..0] == [] && ["", "a"][..1] == [""] && [""][..0] == [];
    assert Settled(attempts, ["a"]) == "a" && Settled(attempts, [""]) == "";
    assert "a" in ["a", ""] && "" in ["a", ""] && "a" in ["", "a"] && "" in ["", "a"];
  }

  /** The address has to wait, or the table is full of addresses being checked. */
  predicate Refused(attempts: map<string, Attempt>, ip: string, now: nat) {
    var left := Survivors(attempts, now);
    if ip in left then left[ip].checking || left[ip].retryAt.Some?
    else |left| >= 4096 && forall other :: other in left ==> left[other].checking
  }

  lemma FailureKeepsSpread(a: Attempt, h: seq<nat>, now: nat)
    requires Spread(h) && Ordered(h, now) && Remembers(a, h, now) && a.retryAt.None?
    ensures Spread(h + [now]) && Ordered(h + [now], now)
  {
    var g := h + [now];
    if |h| >= MAX_FAILURES {
      var before := |h| - a.failures - 1;
      assert h[|h| - MAX_FAILURES] <= h[before];
      assert g[|h|] >= h[|h| - MAX_FAILURES] + COOLDOWN;
    }
  }

  /** The entry after one more failure. */
  function Failed(a: Attempt, now: nat): Attempt {
    if a.failures >= 4 then Attempt(0, Some(now + 60), Some(now), false)
    else Attempt(a.failures + 1, a.retryAt, Some(now), false)
  }

  lemma FailureIsRemembered(a: Attempt, h: seq<nat>, now: nat)
    requires Remembers(a, h, now) && a.retryAt.None?
    ensures Remembers(Failed(a, now), h + [now], now)
  {
  }

  lemma LaterIsRemembered(a: Attempt, h: seq<nat>, now: nat, later: nat)
    requires now <= later
    ensures Remembers(a, h, now) ==> Remembers(a, h, later)
    ensures Forgotten(h, now) ==> Forgotten(h, later)
    ensures Ordered(h, now) ==> Ordered(h, later)
    ensures Remembers(a, h, now) && Expired(a, later) ==> Forgotten(h, later)
  {
  }

  function Log(history: map<string, seq<nat>>, ip: string): seq<nat> {
    if ip in history then history[ip] else []
  }

  predicate Knows(attempts: map<string, Attempt>, history: map<string, seq<nat>>, now: nat, ip: string) {
    && Spread(Log(history, ip)) && Ordered(Log(history, ip), now)
    && if ip in attempts then Remembers(attempts[ip], Log(history, ip), now) else Forgotten(Log(history, ip), now)
  }

  lemma LaterIsKnown(attempts: map<string, Attempt>, history: map<string, seq<nat>>, now: nat, later: nat, ip: string)
    requires Knows(attempts, history, now, ip) && now <= later
    ensures Knows(attempts, history, later, ip)
    ensures Knows(Survivors(attempts, later), history, later, ip)
  {
    if ip in attempts {
      LaterIsRemembered(attempts[ip], Log(history, ip), now, later);
    }
  }

  lemma KnownWithout(attempts: map<string, Attempt>, history: map<string, seq<nat>>, now: nat, ip: string, other: string)
    requires Knows(attempts, history, now, other)
    ensures Knows(attempts - {ip}, history - {ip}, now, other)
  {
  }

  /** Marking an entry, or making one, takes nothing from what is known. */
  lemma MarkedIsKnown(attempts: map<string, Attempt>, history: map<string, seq<nat>>, now: nat, ip: string, checking: bool)
    requires Knows(attempts, history, now, ip) && (ip in attempts ==> attempts[ip].retryAt.None?)
    ensures
      var a := if ip in attempts then attempts[ip] else Attempt(0, None, None, false);
      Knows(attempts[ip := a.(checking := checking)], history, now, ip)
  {
  }

  lemma OthersAreKnown(attempts: map<string, Attempt>, history: map<string, seq<nat>>,
                       after: map<string, Attempt>, log: map<string, seq<nat>>, now: nat, ip: string)
    requires forall other :: other != ip ==> Knows(attempts, history, now, other)
    requires forall other :: other != ip ==> (other in attempts <==> other in after) && (other in attempts ==> after[other] == attempts[other])
    requires forall other :: other != ip ==> Log(log, other) == Log(history, other)
    ensures forall other :: other != ip ==> Knows(after, log, now, other)
  {
    forall other | other != ip
      ensures Knows(after, log, now, other)
    {
      assert Knows(attempts, history, now, other);
      assert Log(log, other) == Log(history, other);
    }
  }

  ghost predicate Sound(attempts: map<string, Attempt>, history: map<string, seq<nat>>, between: set<string>, now: nat) {
    && |attempts| <= MAX_TRACKED
    && (forall ip :: Knows(attempts, history, now, ip))
    && (forall ip :: ip in between <==> ip in attempts && attempts[ip].checking)
  }

  /** The sliding window: any six failures of one address with no success or eviction between
      them, however the logins interleave, span at least a cooldown. */
  lemma SixFailuresTakeACooldown(attempts: map<string, Attempt>, history: map<string, seq<nat>>, between: set<string>, now: nat, ip: string, i: nat, j: nat)
    requires Sound(attempts, history, between, now) && i + 5 <= j < |Log(history, ip)|
    ensures Log(history, ip)[j] >= Log(history, ip)[i] + 60
  {
    assert Knows(attempts, history, now, ip);
    var h := Log(history, ip);
    assert h[i + MAX_FAILURES] <= h[j] && h[i + MAX_FAILURES] >= h[i] + COOLDOWN;
  }

  lemma SizeWith(attempts: map<string, Attempt>, ip: string, a: Attempt)
    ensures |attempts[ip := a]| == |attempts| + if ip in attempts then 0 else 1
  {
    assert attempts[ip := a].Keys == attempts.Keys + {ip};
  }

  /** An entry, new or old, is marked as being checked. */
  lemma MarkingIsSound(attempts: map<string, Attempt>, history: map<string, seq<nat>>, between: set<string>, now: nat, ip: string)
    requires Sound(attempts, history, between, now)
    requires ip in attempts ==> attempts[ip].retryAt.None?
    requires ip in attempts || |attempts| < MAX_TRACKED
    ensures
      var a := if ip in attempts then attempts[ip] else Attempt(0, None, None, false);
      Sound(attempts[ip := a.(checking := true)], history, between + {ip}, now)
  {
    hide Knows, Log, Failed;
    var a := if ip in attempts then attempts[ip] else Attempt(0, None, None, false);
    var after := attempts[ip := a.(checking := true)];
    SizeWith(attempts, ip, a.(checking := true));
    MarkedIsKnown(attempts, history, now, ip, true);
    OthersAreKnown(attempts, history, after, history, now, ip);
  }

  /** One more failure at the end of a check. */
  lemma FailingIsSound(attempts: map<string, Attempt>, history: map<string, seq<nat>>, between: set<string>, now: nat, ip: string)
    requires Sound(attempts, history, between, now)
    requires ip in attempts && attempts[ip].retryAt.None?
    ensures Sound(attempts[ip := Failed(attempts[ip], now)], history[ip := Log(history, ip) + [now]], between - {ip}, now)
  {
    hide Spread, Ordered, Remembers, Forgotten;
    var a, h := attempts[ip], Log(history, ip);
    var after, log := attempts[ip := Failed(a, now)], history[ip := h + [now]];
    SizeWith(attempts, ip, Failed(a, now));
    assert Knows(attempts, history, now, ip);
    FailureKeepsSpread(a, h, now);
    FailureIsRemembered(a, h, now);
    assert Log(log, ip) == h + [now] && Knows(after, log, now, ip);
    OthersAreKnown(attempts, history, after, log, now, ip);
  }

  /** An entry goes together with the history of its address. */
  lemma ForgettingIsSound(attempts: map<string, Attempt>, history: map<string, seq<nat>>, between: set<string>, now: nat, ip: string)
    requires Sound(attempts, history, between, now)
    ensures Sound(attempts - {ip}, history - {ip}, between - {ip}, now)
  {
    hide Knows, Log;
    SizeWithout(attempts, ip);
    forall other
      ensures Knows(attempts - {ip}, history - {ip}, now, other)
    {
      KnownWithout(attempts, history, now, ip, other);
    }
    forall other
      ensures other in between - {ip} <==> other in attempts - {ip} && (attempts - {ip})[other].checking
    {
    }
  }

  lemma SizeWithout(attempts: map<string, Attempt>, ip: string)
    ensures |attempts - {ip}| <= |attempts|
  {
    SubsetSize((attempts - {ip}).Keys, attempts.Keys);
  }

  datatype Outcome = Limited | Wrong | Welcome

  class Manager {
    var attempts: map<string, Attempt>
    var comparing: nat
    ghost var clock: nat
    /** The failures of each address since its last success or eviction. */
    ghost var history: map<string, seq<nat>>
    /** The addresses of logins between their two phases. */
    ghost var between: set<string>

    ghost function Failures(ip: string): seq<nat>
      reads this
    {
      Log(history, ip)
    }

    ghost predicate Valid()
      reads this
    {
      Sound(attempts, history, between, clock) && comparing <= MAX_CHECKS
    }

    constructor ()
      ensures Valid() && attempts == map[] && history == map[] && between == {}
    {
      attempts, comparing, clock, history, between := map[], 0, 0, map[], {};
    }

    /** Forgets what has expired.  Entries being checked are left alone. */
    method Cleanup(now: nat)
      requires Valid() && clock <= now
      modifies `attempts, `clock
      ensures Valid() && clock == now && attempts == Survivors(old(attempts), now)
      ensures forall ip :: ip in attempts <==> ip in old(attempts) && Fresh(old(attempts)[ip], now)
    {
      var rest := attempts.Keys;
      while rest != {}
        invariant rest <= attempts.Keys && clock == old(clock)
        invariant forall ip :: ip in attempts ==> ip in old(attempts) && attempts[ip] == old(attempts)[ip]
        invariant forall ip :: ip in attempts && ip !in rest ==> !Expired(attempts[ip], now)
        invariant forall ip :: ip in old(attempts) && ip !in attempts ==> Expired(old(attempts)[ip], now)
        decreases rest
      {
        var ip :| ip in rest;
        rest := rest - {ip};
        if Expired(attempts[ip], now) {
          attempts := attempts - {ip};
        }
      }
      SubsetSize(attempts.Keys, old(attempts).Keys);
      forall ip
        ensures Knows(attempts, history, now, ip)
      {
        assert Knows(old(attempts), history, clock, ip);
        LaterIsKnown(old(attempts), history, clock, now, ip);
      }
      clock := now;
    }

    /** Removes the entry with the oldest failure, among those not being checked; entries without
        a failure come first.  The empty address stands for none yet, so an entry of that address
        can be passed over.  The history of the removed address begins anew. */
    method EvictOldest() returns (evicted: bool)
      requires Valid()
      modifies `attempts, `history
      ensures Valid()
      ensures evicted ==> exists ip :: ip != "" && Idle(old(attempts), ip)
                            && attempts == old(attempts) - {ip} && history == old(history) - {ip}
                            && (!EmptyIsOldest(old(attempts)) ==> IsOldest(old(attempts), ip))
      ensures !evicted ==> attempts == old(attempts) && history == old(history)
      ensures !EmptyIsOldest(old(attempts)) ==> (evicted <==> exists ip :: Idle(old(attempts), ip))
    {
      var oldest := "";
      var rest := attempts.Keys;
      ghost var order: seq<string> := [];
      while rest != {}
        invariant rest <= attempts.Keys && forall ip :: ip in attempts <==> ip in rest || ip in order
        invariant forall i :: 0 <= i < |order| ==> order[i] in attempts && order[i] !in rest
        invariant forall i, j :: 0 <= i < j < |order| ==> order[i] != order[j]
        invariant oldest == Settled(attempts, order)
        decreases rest
      {
        var ip :| ip in rest;
        rest := rest - {ip};
        order := order + [ip];
        assert order[..|order| - 1] + [ip] == order;
        if !attempts[ip].checking {
          if oldest == "" || !Earlier(attempts[oldest].lastAttempt, attempts[ip].lastAttempt) {
            oldest := ip;
          }
        }
      }
      EvictionIsRight(attempts, order);
      if oldest == "" {
        return false;
      }
      Remove(oldest);
      return true;
    }

    method Remove(ip: string)
      requires Valid() && Idle(attempts, ip)
      modifies `attempts, `history
      ensures Valid() && attempts == old(attempts) - {ip} && history == old(history) - {ip}
    {
      ForgettingIsSound(attempts, history, between, clock, ip);
      assert between - {ip} == between;
      attempts := attempts - {ip};
      history := history - {ip};
    }

    /** The first phase of a login. */
    method Begin(ip: string, now: nat) returns (accepted: bool)
      requires Valid() && clock <= now
      modifies this
      ensures Valid() && clock == now && comparing == old(comparing)
      ensures accepted ==> !Refused(old(attempts), ip, now)
      ensures !accepted ==>
                || Refused(old(attempts), ip, now)
                || (EmptyIsOldest(Survivors(old(attempts), now)) && ip !in Survivors(old(attempts), now)
                    && |Survivors(old(attempts), now)| >= MAX_TRACKED)
      ensures between == if accepted then old(between) + {ip} else old(between)
      ensures accepted ==> ip !in old(between) && ip in attempts
      ensures accepted ==>
                var left := Survivors(old(attempts), now);
                attempts[ip] == (if ip in left then left[ip] else Attempt(0, None, None, false)).(checking := true)
      ensures forall other :: other in history ==> other in old(history) && history[other] == old(history)[other]
      ensures |Survivors(old(attempts), now)| < MAX_TRACKED || ip in Survivors(old(attempts), now) ==> history == old(history)
    {
      Cleanup(now);
      ghost var left := attempts;
      if ip in attempts && (Waits(attempts[ip], now) || attempts[ip].checking) {
        return false;
      }
      assert ip in attempts ==> attempts[ip].retryAt.None?;
      if ip !in attempts && |attempts| >= MAX_TRACKED {
        var evicted := EvictOldest();
        if !evicted {
          assert forall other :: other in left ==> Idle(left, other) || left[other].checking;
          return false;
        }
      }
      MarkChecking(ip);
      return true;
    }

    method MarkChecking(ip: string)
      requires Valid() && (ip in attempts ==> !attempts[ip].checking && attempts[ip].retryAt.None?)
      requires ip in attempts || |attempts| < MAX_TRACKED
      modifies `attempts, `between
      ensures Valid() && between == old(between) + {ip} && ip in attempts
      ensures attempts[ip] == (if ip in old(attempts) then old(attempts)[ip] else Attempt(0, None, None, false)).(checking := true)
    {
      hide Sound;
      MarkingIsSound(attempts, history, between, clock, ip);
      var attempt := if ip in attempts then attempts[ip] else Attempt(0, None, None, false);
      attempts := attempts[ip := attempt.(checking := true)];
      between := between + {ip};
    }

    /** The second phase, when too many passwords are being compared already. */
    method GiveUp(ip: string)
      requires Valid() && ip in between
      modifies this
      ensures Valid() && clock == old(clock) && comparing == old(comparing) && history == old(history)
      ensures between == old(between) - {ip}
      ensures ip in old(attempts) && attempts == old(attempts)[ip := old(attempts)[ip].(checking := false)]
    {
      if ip in attempts {
        attempts := attempts[ip := attempts[ip].(checking := false)];
      }
      between := between - {ip};
      OthersAreKnown(old(attempts), history, attempts, history, clock, ip);
      assert Knows(old(attempts), history, clock, ip);
    }

    /** Takes one of the few slots for comparing passwords. */
    method AcquireCheck() returns (got: bool)
      requires Valid()
      modifies `comparing
      ensures Valid() && comparing == old(comparing) + if got then 1 else 0
      ensures got <==> old(comparing) < 4
    {
      got := comparing < MAX_CHECKS;
      if got {
        comparing := comparing + 1;
      }
    }

    /** The second phase, after the password was compared.  The entry of the address is always
        still there, and still being checked. */
    method Finish(ip: string, right: bool, now: nat) returns (outcome: Outcome)
      requires Valid() && ip in between && comparing > 0 && clock <= now
      modifies this
      ensures Valid() && clock == now && comparing == old(comparing) - 1
      ensures outcome == if right then Welcome else Wrong
      ensures between == old(between) - {ip}
      ensures ip in old(attempts)
      ensures attempts == if right then old(attempts) - {ip} else old(attempts)[ip := Failed(old(attempts)[ip], now)]
      ensures Failures(ip) == if right then [] else old(Failures(ip)) + [now]
      ensures forall other :: other != ip ==> Failures(other) == old(Failures(other))
    {
      comparing := comparing - 1;
      Advance(now);
      assert Knows(attempts, history, clock, ip);
      hide Spread, Ordered, Log;
      if ip !in attempts || Waits(attempts[ip], now) || !attempts[ip].checking {
        assert false;
        return Limited;
      }
      if right {
        Forget(ip);
        return Welcome;
      }
      RecordFailure(ip, now);
      return Wrong;
    }

    method RecordFailure(ip: string, now: nat)
      requires Valid() && ip in between && clock == now && ip in attempts && attempts[ip].retryAt.None?
      modifies `attempts, `between, `history
      ensures Valid() && between == old(between) - {ip}
      ensures attempts == old(attempts)[ip := Failed(old(attempts)[ip], now)]
      ensures Failures(ip) == old(Failures(ip)) + [now]
      ensures forall other :: other != ip ==> Failures(other) == old(Failures(other))
    {
      hide Sound;
      FailingIsSound(attempts, history, between, now, ip);
      var attempt := attempts[ip];
      history := history[ip := Failures(ip) + [now]];
      between := between - {ip};
      var failures := attempt.failures + 1;
      var retryAt := attempt.retryAt;
      if failures >= MAX_FAILURES {
        failures := 0;
        retryAt := Some(now + COOLDOWN);
      }
      attempts := attempts[ip := Attempt(failures, retryAt, Some(now), false)];
    }

    /** A success wipes the slate clean. */
    method Forget(ip: string)
      requires Valid() && ip in between
      modifies `attempts, `between, `history
      ensures Valid() && between == old(between) - {ip} && attempts == old(attempts) - {ip}
      ensures Failures(ip) == [] && forall other :: other != ip ==> Failures(other) == old(Failures(other))
    {
      hide Sound;
      ForgettingIsSound(attempts, history, between, clock, ip);
      attempts := attempts - {ip};
      history := history - {ip};
      between := between - {ip};
    }

    ghost method Advance(now: nat)
      requires Valid() && clock <= now
      modifies `clock
      ensures Valid() && clock == now
    {
      forall ip
        ensures Knows(attempts, history, now, ip)
      {
        LaterIsKnown(attempts, history, clock, now, ip);
      }
      clock := now;
    }
  }
}
