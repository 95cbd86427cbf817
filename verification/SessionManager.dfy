/** internal/web/auth.go and the login handler that uses it (internal/web/admin.go): the
    failed-login limiter and the session table. Both forget lazily; times are integer
    milliseconds on a clock that never goes back, and session identifiers are fresh. */
module SessionManager {
  import opened Text
  import Address

  const SESSION_TTL: int := 8 * 60 * 60 * 1000
  const MAX_LOGIN_ATTEMPTS: int := 5
  const LOGIN_LOCKOUT: int := 5 * 60 * 1000

  datatype LoginAttemptRecord = LoginAttemptRecord(count: nat, lastFail: int)

  /** A password that was checked and found wrong: when the lock was checked and when the
      failure was recorded. */
  datatype Failure = Failure(checkedAt: int, failedAt: int)

  // ----- the limiter: failures since the last success, oldest first -----

  predicate InOrder(fs: seq<Failure>) {
    && (forall i :: 0 <= i < |fs| ==> fs[i].checkedAt <= fs[i].failedAt)
    && (forall i {:trigger fs[i].checkedAt} :: 0 < i < |fs| ==> fs[i - 1].failedAt <= fs[i].checkedAt)
  }

  /** After every fifth failure comes a pause. */
  predicate Spaced(fs: seq<Failure>) {
    forall i {:trigger fs[i].checkedAt} :: 0 < i < |fs| && i % MAX_LOGIN_ATTEMPTS == 0 ==>
      fs[i].checkedAt >= fs[i - 1].failedAt + LOGIN_LOCKOUT
  }

  /** How many of n failures came after the last pause. */
  function SincePause(n: nat): nat { if n == 0 then 0 else (n - 1) % MAX_LOGIN_ATTEMPTS + 1 }

  lemma SincePauseNext(n: nat)
    ensures SincePause(n + 1) == if n % MAX_LOGIN_ATTEMPTS == 0 then 1 else SincePause(n) + 1
    ensures SincePause(n) <= MAX_LOGIN_ATTEMPTS
    ensures n > 0 ==> SincePause(n) >= 1 && (SincePause(n) == MAX_LOGIN_ATTEMPTS <==> n % MAX_LOGIN_ATTEMPTS == 0)
  {
  }

  predicate PauseDue(fs: seq<Failure>) { fs != [] && |fs| % MAX_LOGIN_ATTEMPTS == 0 }

  /** What being locked means: a pause is due and five minutes are not over. */
  predicate Locked(fs: seq<Failure>, now: int) {
    PauseDue(fs) && now < fs[|fs| - 1].failedAt + LOGIN_LOCKOUT
  }

  /** The record counts the failures since the last pause, or is gone after a pause. */
  ghost predicate RecordFits(attempts: map<string, LoginAttemptRecord>, ip: string, fs: seq<Failure>, clock: int) {
    && InOrder(fs) && Spaced(fs)
    && (fs != [] ==> fs[|fs| - 1].failedAt <= clock)
    && if ip in attempts then
         fs != [] && attempts[ip] == LoginAttemptRecord(SincePause(|fs|), fs[|fs| - 1].failedAt)
       else
         fs != [] ==> PauseDue(fs) && !Locked(fs, clock)
  }

  // ----- the three map operations of the limiter -----

  predicate RecordLocked(attempts: map<string, LoginAttemptRecord>, ip: string, now: int) {
    ip in attempts && attempts[ip].count >= MAX_LOGIN_ATTEMPTS && now - attempts[ip].lastFail < LOGIN_LOCKOUT
  }

  /** Asking about a record whose pause is over deletes it. */
  function Asked(attempts: map<string, LoginAttemptRecord>, ip: string, now: int): map<string, LoginAttemptRecord> {
    if ip in attempts && attempts[ip].count >= MAX_LOGIN_ATTEMPTS && !RecordLocked(attempts, ip, now)
    then attempts - {ip} else attempts
  }

  function Failed(attempts: map<string, LoginAttemptRecord>, ip: string, now: int): map<string, LoginAttemptRecord> {
    attempts[ip := LoginAttemptRecord((if ip in attempts then attempts[ip].count else 0) + 1, now)]
  }

  lemma LockedIsRecordLocked(attempts: map<string, LoginAttemptRecord>, ip: string, fs: seq<Failure>,
                             clock: int, now: int)
    requires RecordFits(attempts, ip, fs, clock) && clock <= now
    ensures RecordLocked(attempts, ip, now) <==> Locked(fs, now)
  {
    SincePauseNext(|fs|);
  }

  lemma AskedFits(attempts: map<string, LoginAttemptRecord>, ip: string, other: string, fs: seq<Failure>,
                  clock: int, now: int)
    requires RecordFits(attempts, other, fs, clock) && clock <= now
    ensures RecordFits(Asked(attempts, ip, now), other, fs, now)
  {
    SincePauseNext(|fs|);
  }

  lemma FailedFits(attempts: map<string, LoginAttemptRecord>, ip: string, fs: seq<Failure>, now: int, later: int)
    requires RecordFits(attempts, ip, fs, now) && now <= later
    requires Asked(attempts, ip, now) == attempts && !Locked(fs, now)
    ensures RecordFits(Failed(attempts, ip, later), ip, fs + [Failure(now, later)], later)
  {
    SincePauseNext(|fs|);
    var more := fs + [Failure(now, later)];
    assert forall i :: 0 <= i < |fs| ==> more[i] == fs[i];
  }

  lemma OtherFits(attempts: map<string, LoginAttemptRecord>, after: map<string, LoginAttemptRecord>,
                  other: string, fs: seq<Failure>, clock: int, now: int)
    requires RecordFits(attempts, other, fs, clock) && clock <= now
    requires (other in after <==> other in attempts) && (other in after ==> after[other] == attempts[other])
    ensures RecordFits(after, other, fs, now)
  {
  }

  lemma {:induction false} CheckedInOrder(fs: seq<Failure>, i: nat, j: nat)
    requires InOrder(fs) && i <= j < |fs|
    ensures fs[i].checkedAt <= fs[j].checkedAt
    ensures i < j ==> fs[i].checkedAt <= fs[j - 1].failedAt
  {
    if i < j {
      CheckedInOrder(fs, i, j - 1);
    }
  }

  function NextPause(i: nat): (k: nat)
    ensures i < k <= i + 5 && k % MAX_LOGIN_ATTEMPTS == 0
  {
    (i / 5 + 1) * 5
  }

  /** Any six consecutive wrong passwords from one address span five minutes. */
  lemma SixFailuresTakeFiveMinutes(fs: seq<Failure>, i: nat)
    requires InOrder(fs) && Spaced(fs) && i + 5 < |fs|
    ensures fs[i + 5].checkedAt - fs[i].checkedAt >= 300_000
  {
    var k := NextPause(i);
    CheckedInOrder(fs, i, k);
    CheckedInOrder(fs, k, i + 5);
  }

  function FailuresOf(failures: map<string, seq<Failure>>, ip: string): seq<Failure> {
    if ip in failures then failures[ip] else []
  }

  class SessionManager {
    var sessions: map<string, int>
    var csrfTokens: map<string, string>
    var loginAttempts: map<string, LoginAttemptRecord>

    ghost var clock: int
    ghost var failures: map<string, seq<Failure>>
    ghost var created: map<string, int>
    ghost var destroyed: set<string>

    ghost predicate LimiterValid()
      reads this
    {
      forall ip :: RecordFits(loginAttempts, ip, FailuresOf(failures, ip), clock)
    }

    /** A session is in the table, or was destroyed, or is over. */
    ghost predicate TableValid()
      reads this
    {
      && (forall id | id in sessions :: id in created && id !in destroyed && sessions[id] == created[id] + SESSION_TTL)
      && (forall id | id in created && id !in destroyed && id !in sessions :: created[id] + SESSION_TTL < clock)
      && destroyed <= created.Keys
      && sessions.Keys <= csrfTokens.Keys
    }

    /** The simple rule: created, not destroyed, and no more than eight hours old. */
    ghost predicate Live(id: string, now: int)
      reads this
    {
      id in created && id !in destroyed && now <= created[id] + SESSION_TTL
    }

    constructor (ghost startedAt: int)
      ensures LimiterValid() && TableValid() && clock == startedAt
      ensures failures == map[] && created == map[] && destroyed == {}
    {
      sessions, csrfTokens, loginAttempts := map[], map[], map[];
      clock, failures, created, destroyed := startedAt, map[], map[], {};
    }

    // ----- login attempts -----

    method IsLoginLocked(ip: string, now: int) returns (locked: bool)
      modifies `loginAttempts
      ensures locked <==> RecordLocked(old(loginAttempts), ip, now)
      ensures loginAttempts == Asked(old(loginAttempts), ip, now)
    {
      if ip !in loginAttempts {
        return false;
      }
      var rec := loginAttempts[ip];
      if rec.count >= MAX_LOGIN_ATTEMPTS {
        if now - rec.lastFail < LOGIN_LOCKOUT {
          return true;
        }
        loginAttempts := loginAttempts - {ip};
      }
      return false;
    }

    method RecordLoginFailure(ip: string, now: int)
      modifies `loginAttempts
      ensures loginAttempts == Failed(old(loginAttempts), ip, now)
    {
      var rec := if ip in loginAttempts then loginAttempts[ip] else LoginAttemptRecord(0, 0);
      loginAttempts := loginAttempts[ip := LoginAttemptRecord(rec.count + 1, now)];
    }

    method ClearLoginFailures(ip: string)
      modifies `loginAttempts
      ensures loginAttempts == old(loginAttempts) - {ip}
    {
      loginAttempts := loginAttempts - {ip};
    }

    /** Login attempts handled one after another, from any addresses: an attempt is turned
        away exactly while its address is locked, a wrong password adds to the failures of
        its address, a right one clears them, and the failures stay spaced. */
    method LoginSubmit(ip: string, correct: bool, now: int, later: int) returns (admitted: bool)
      requires LimiterValid() && clock <= now <= later
      modifies `loginAttempts, `clock, `failures
      ensures LimiterValid() && clock == later
      ensures var fs := FailuresOf(old(failures), ip);
        admitted <==> fs == [] || |fs| % 5 != 0 || now >= fs[|fs| - 1].failedAt + 300_000
      ensures failures == if !admitted then old(failures) else if correct then old(failures) - {ip}
                          else old(failures)[ip := FailuresOf(old(failures), ip) + [Failure(now, later)]]
    {
      ghost var fs := FailuresOf(failures, ip);
      ghost var start, startClock := loginAttempts, clock;
      LockedIsRecordLocked(start, ip, fs, clock, now);
      AskedFits(start, ip, ip, fs, clock, now);
      ghost var asked := Asked(start, ip, now);
      var locked := IsLoginLocked(ip, now);
      clock := later;
      if !locked {
        if correct {
          ClearLoginFailures(ip);
          failures := failures - {ip};
        } else {
          FailedFits(asked, ip, fs, now, later);
          RecordLoginFailure(ip, later);
          failures := failures[ip := fs + [Failure(now, later)]];
        }
      } else {
        OtherFits(asked, asked, ip, fs, now, later);
      }
      forall other | other != ip ensures RecordFits(loginAttempts, other, FailuresOf(failures, other), later) {
        assert RecordFits(start, other, FailuresOf(old(failures), other), startClock);
        OtherFits(start, loginAttempts, other, FailuresOf(old(failures), other), startClock, later);
      }
      assert RecordFits(loginAttempts, ip, FailuresOf(failures, ip), later);
      return !locked;
    }

    // ----- sessions -----

    /** The session is live from now on; the sessions that are over are dropped. */
    method CreateSession(id: string, token: string, now: int)
      requires TableValid() && clock <= now && id !in created
      modifies `sessions, `csrfTokens, `created, `clock
      ensures TableValid() && clock == now && created == old(created)[id := now] && Live(id, now)
      ensures forall other :: other in sessions <==> Live(other, now)
      ensures id in csrfTokens && csrfTokens[id] == token
    {
      sessions := sessions[id := now + SESSION_TTL];
      csrfTokens := csrfTokens[id := token];
      created, clock := created[id := now], now;
      CleanupLocked(now);
    }

    method CleanupLocked(now: int)
      modifies `sessions, `csrfTokens
      ensures sessions == map id | id in old(sessions) && now <= old(sessions)[id] :: old(sessions)[id]
      ensures csrfTokens == old(csrfTokens) - (set id | id in old(sessions) && now > old(sessions)[id])
    {
      ghost var before, tokens := sessions, csrfTokens;
      var todo := sessions.Keys;
      while todo != {}
        invariant todo <= before.Keys
        invariant sessions == map id | id in before && (id in todo || now <= before[id]) :: before[id]
        invariant csrfTokens == tokens - (set id | id in before && id !in todo && now > before[id])
        decreases todo
      {
        var id :| id in todo;
        if now > sessions[id] {
          sessions := sessions - {id};
          csrfTokens := csrfTokens - {id};
        }
        todo := todo - {id};
      }
    }

    /** A cookie is valid exactly when its session is live. */
    method ValidateSession(cookie: Option<string>, now: int) returns (valid: bool)
      requires TableValid() && clock <= now
      modifies `sessions, `clock
      ensures TableValid() && clock == now
      ensures valid <==> && cookie.Some? && cookie.value != "" && cookie.value in created
                         && cookie.value !in destroyed && now - created[cookie.value] <= 28_800_000
    {
      clock := now;
      if cookie.None? || cookie.value == "" {
        return false;
      }
      var id := cookie.value;
      if id !in sessions || now > sessions[id] {
        sessions := sessions - {id};
        return false;
      }
      return true;
    }

    method DestroySession(cookie: Option<string>)
      requires TableValid()
      modifies `sessions, `csrfTokens, `destroyed
      ensures TableValid()
      ensures destroyed == old(destroyed) + if cookie.Some? && cookie.value in created then {cookie.value} else {}
    {
      if cookie.None? {
        return;
      }
      sessions := sessions - {cookie.value};
      csrfTokens := csrfTokens - {cookie.value};
      if cookie.value in created {
        destroyed := destroyed + {cookie.value};
      }
    }

    /** A session keeps the token it was given first. */
    method GetOrCreateCSRFToken(sessionID: string, generated: string) returns (token: string)
      requires TableValid()
      modifies `csrfTokens
      ensures TableValid()
      ensures token == if sessionID in old(csrfTokens) then old(csrfTokens)[sessionID] else generated
      ensures csrfTokens == old(csrfTokens)[sessionID := token]
    {
      if sessionID in csrfTokens {
        return csrfTokens[sessionID];
      }
      csrfTokens := csrfTokens[sessionID := generated];
      return generated;
    }
  }

  // ----- one host, several ports -----

  /** The failures that the limiter knows of a host and port. */
  function FailuresFrom(failures: map<string, seq<Failure>>, host: string, port: int): seq<Failure> {
    FailuresOf(failures, Address.HostPort(host, port))
  }

  /** Six failures of one host within five minutes come from at least two ports; from a
      single port they are spaced. */
  lemma SixOfOneHost(failures: map<string, seq<Failure>>, host: string, ports: seq<int>, at: seq<nat>)
    requires forall a <- failures :: InOrder(failures[a]) && Spaced(failures[a])
    requires |ports| == |at| == 6 && forall i | 0 <= i < 6 :: at[i] < |FailuresFrom(failures, host, ports[i])|
    requires forall i, j | 0 <= i < j < 6 :: ports[i] == ports[j] ==> at[i] < at[j]
    requires FailuresFrom(failures, host, ports[5])[at[5]].checkedAt
           < FailuresFrom(failures, host, ports[0])[at[0]].checkedAt + 300_000
    ensures exists i, j | 0 <= i < j < 6 :: ports[i] != ports[j]
  {
    if forall i, j | 0 <= i < j < 6 :: ports[i] == ports[j] {
      var fs := FailuresFrom(failures, host, ports[0]);
      assert Address.HostPort(host, ports[0]) in failures;
      assert at[0] < at[1] < at[2] < at[3] < at[4] < at[5];
      SixFailuresTakeFiveMinutes(fs, at[0]);
      CheckedInOrder(fs, at[0] + 5, at[5]);
      assert false;
    }
  }

  /** Five wrong passwords at one instant lock their address, and no other. */
  method FiveFailures(sm: SessionManager, ip: string, now: int)
    requires sm.LimiterValid() && sm.clock <= now && FailuresOf(sm.failures, ip) == []
    modifies sm`loginAttempts, sm`clock, sm`failures
    ensures sm.LimiterValid() && sm.clock == now && Locked(FailuresOf(sm.failures, ip), now)
    ensures |FailuresOf(sm.failures, ip)| == 5
    ensures forall other | other != ip :: FailuresOf(sm.failures, other) == old(FailuresOf(sm.failures, other))
  {
    for n := 0 to 5
      invariant sm.LimiterValid() && sm.clock <= now && (n > 0 ==> sm.clock == now)
      invariant |FailuresOf(sm.failures, ip)| == n
      invariant n > 0 ==> FailuresOf(sm.failures, ip)[n - 1].failedAt == now
      invariant forall other | other != ip :: FailuresOf(sm.failures, other) == old(FailuresOf(sm.failures, other))
    {
      assert !Locked(FailuresOf(sm.failures, ip), now);
      var _ := sm.LoginSubmit(ip, false, now, now);
    }
  }

  /** And two ports are enough: the handler takes host and port together for the address,
      so right after five wrong passwords, while the first port is locked, an attempt of the
      same host from another port is admitted. */
  method OtherPortIsAdmitted(sm: SessionManager, host: string, p: int, q: int, now: int)
    returns (again: bool, other: bool)
    requires sm.LimiterValid() && sm.clock <= now && p != q
    requires FailuresOf(sm.failures, Address.HostPort(host, p)) == []
    requires FailuresOf(sm.failures, Address.HostPort(host, q)) == []
    modifies sm`loginAttempts, sm`clock, sm`failures
    ensures sm.LimiterValid() && sm.clock == now && !again && other
    ensures |FailuresOf(sm.failures, Address.HostPort(host, p))| == 5
    ensures |FailuresOf(sm.failures, Address.HostPort(host, q))| == 1
  {
    var first, second := Address.HostPort(host, p), Address.HostPort(host, q);
    PortsDiffer(host, p, q);
    FiveFailures(sm, first, now);
    again := sm.LoginSubmit(first, false, now, now);
    other := sm.LoginSubmit(second, false, now, now);
  }

  lemma PortsDiffer(host: string, p: int, q: int)
    requires p != q
    ensures Address.HostPort(host, p) != Address.HostPort(host, q)
  {
    var head := host + ":";
    assert Address.HostPort(host, p)[|head|..] == IntString(p) && Address.HostPort(host, q)[|head|..] == IntString(q);
    if IntString(p) == IntString(q) {
      IntStringInjective(p, q);
      assert false;
    }
  }
}
