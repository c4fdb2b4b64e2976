/** Logout and RevokeSession when the SET of a session key may land later than its TTL was computed.
    The Redis entry then outlives the expiry written in it, and the blacklist entry with it. */
module DelayedLogouts {
  import opened Common
  import opened SessionStore
  import opened SessionProtocol
  import opened SessionRevival
  import opened LogoutFinality
  import LogoutAllFinality

  lemma OrderlyIsRun(cfg: Config, s: State, t: State, j: Jti)
    requires OrderlyLeads(cfg, s, t, j)
    ensures Leads(cfg, s, t)
  {
  }

  // ----- A delayed SET -----

  /** A pending SET of the token's session key, its TTL computed. */
  predicate SetPending(s: State, c: Claims, writer: nat) {
    && writer in s.tasks && NextSet(s.tasks[writer]).Some?
    && NextSet(s.tasks[writer]).value.key == KeyOf(c) && NextSet(s.tasks[writer]).value.ttl > 0.0
  }

  lemma SetLands(cfg: Config, s: State, c: Claims, writer: nat)
    requires SetPending(s, c, writer)
    ensures var t := Do(cfg, s, NextOf(s.tasks[writer], writer));
            && Leads(cfg, s, t) && GetEntry(t.store, KeyOf(c), t.now).Some?
            && t.now == s.now && t.accepts == s.accepts
            && (forall i :: i in s.tasks && i != writer ==> i in t.tasks && t.tasks[i] == s.tasks[i])
            && (forall i :: i in t.tasks ==> i in s.tasks)
  {
    LeadsNowhere(cfg, s);
    LeadsOn(cfg, s, s, NextOf(s.tasks[writer], writer));
  }

  /** A check of a logged-out token that reads the blacklist once its entry is over; then the SET lands. */
  lemma LateCheckHits(cfg: Config, s: State, c: Claims, check: nat, writer: nat, to: Time)
    requires Verifies(s, c) && c.jti in s.handed && c.jti in s.loggedOut && SetPending(s, c, writer)
    requires check !in s.tasks && check + 1 !in s.tasks && s.now <= to && !Blacklisted(s.store, c.jti, to)
    ensures exists t :: Leads(cfg, s, t) && t.accepts == s.accepts + [Accept(c, s.now, to, true)]
  {
    var s1 := Do(cfg, s, BeginCheck(check, c));
    var s2 := Do(cfg, s1, Tick(to));
    var s3 := Do(cfg, s2, StepCheck(check, true, check + 1));
    var s4 := Do(cfg, s3, NextOf(s.tasks[writer], writer));
    LeadsNowhere(cfg, s);
    LeadsOn(cfg, s, s, BeginCheck(check, c));
    LeadsOn(cfg, s, s1, Tick(to));
    LeadsOn(cfg, s, s2, StepCheck(check, true, check + 1));
    SetLands(cfg, s3, c, writer);
    LeadsAlong(cfg, s, s3, s4);
    LeadsOn(cfg, s, s4, StepCheck(check, true, check + 1));
  }

  /** Beside a pending SET of its session a logout of a valid token is not final, settled or not: the
      SET can land when the blacklist entry is over. */
  lemma DelayedSetFails(cfg: Config, s: State, id: nat, writer: nat, j: Jti)
    requires Sound(cfg, s) && j in s.handed && j in s.issued && Verifies(s, s.issued[j])
    requires SetPending(s, s.issued[j], writer)
    requires id in s.tasks && s.tasks[id] == Logout(KeyOf(s.issued[j]), DeleteKey)
    ensures exists t :: Leads(cfg, s, t) && !NoLate(t, j)
  {
    var c := s.issued[j];
    var out := LoggedOut(cfg, s, id, j);
    LogoutRuns(cfg, s, id, KeyOf(c));
    OrderlyIsRun(cfg, s, out, j);
    var check := FreshIds(out.tasks.Keys);
    LateCheckHits(cfg, out, c, check, writer, s.now + cfg.ttl);
    var t :| Leads(cfg, out, t) && t.accepts == out.accepts + [Accept(c, s.now, s.now + cfg.ttl, true)];
    LeadsAlong(cfg, s, out, t);
    assert t.accepts[|out.accepts|].afterLogout;
  }

  // ----- A session leads to a pending SET -----

  /** The token's session is live in Redis or the table, or a pending task can still write it. */
  ghost predicate HasSession(s: State, j: Jti)
    requires j in s.issued
  {
    Revivable(s, j) || (Obtained(s, j) && FindRow(s.store, j, s.now).Some?)
  }

  /** The logout has yet to begin its first command, the token is with its caller, and a SET of its
      session is pending. */
  ghost predicate Poised(cfg: Config, s: State, id: nat, j: Jti) {
    && Sound(cfg, s) && j in s.handed && j in s.issued && Verifies(s, s.issued[j])
    && id in s.tasks && s.tasks[id] == Logout(KeyOf(s.issued[j]), DeleteKey)
    && exists writer :: SetPending(s, s.issued[j], writer)
  }

  /** A check that finds a live entry spawns an activity update, which reads the entry and computes the
      TTL of its SET. */
  lemma HitPoises(cfg: Config, s: State, id: nat, j: Jti)
    requires Sound(cfg, s) && Usable(s, j) && Alive(s, j)
    requires id in s.tasks && s.tasks[id] == Logout(KeyOf(s.issued[j]), DeleteKey)
    ensures exists t :: Leads(cfg, s, t) && Poised(cfg, t, id, j)
  {
    var n := FreshIds(s.tasks.Keys);
    LogoutAllFinality.LiveEntryIsAccepted(cfg, s, j, n, n + 1);
    var s1 := LogoutAllFinality.Hit(s, j, n + 1);
    LeadsIsSound(cfg, s, s1);
    ActivityTimes(cfg, s1, j, n + 1);
    var s2 := Do(cfg, s1, StepActivity(n + 1, true));
    var t := Do(cfg, s2, StepActivity(n + 1, true));
    LeadsAlong(cfg, s, s1, t);
    PendingPoises(cfg, s, t, id, j, n + 1);
  }

  lemma PendingPoises(cfg: Config, s: State, t: State, id: nat, j: Jti, writer: nat)
    requires Sound(cfg, s) && Leads(cfg, s, t) && j in s.issued && Verifies(s, s.issued[j])
    requires t.now == s.now && t.issued == s.issued && j in t.handed && SetPending(t, s.issued[j], writer)
    requires id in t.tasks && t.tasks[id] == Logout(KeyOf(s.issued[j]), DeleteKey)
    ensures Poised(cfg, t, id, j)
  {
    LeadsIsSound(cfg, s, t);
  }

  lemma LeadsIsSound(cfg: Config, s: State, t: State)
    requires Sound(cfg, s) && Leads(cfg, s, t)
    ensures Sound(cfg, t)
  {
    var steps :| IsRun(cfg, s, steps) && After(cfg, s, steps) == t;
    SoundRun(cfg, s, steps);
  }

  lemma ActivityTimes(cfg: Config, s: State, j: Jti, writer: nat)
    requires Sound(cfg, s) && j in s.issued && Verifies(s, s.issued[j]) && writer in s.tasks
    requires s.tasks[writer] == Activity(KeyOf(s.issued[j]), Reading)
    requires GetEntry(s.store, KeyOf(s.issued[j]), s.now).Some?
    ensures var s1 := Do(cfg, s, StepActivity(writer, true));
            && Enabled(s1, StepActivity(writer, true))
            && var t := Do(cfg, s1, StepActivity(writer, true));
               Leads(cfg, s, t) && SetPending(t, s.issued[j], writer)
               && t.now == s.now && t.handed == s.handed && t.issued == s.issued
               && forall i :: i in s.tasks && i != writer ==> i in t.tasks && t.tasks[i] == s.tasks[i]
  {
    var s1 := Do(cfg, s, StepActivity(writer, true));
    assert Fits(s, KeyOf(s.issued[j]), s.store.redis[KeyOf(s.issued[j])].entry.expiresAt);
    LeadsNowhere(cfg, s);
    LeadsOn(cfg, s, s, StepActivity(writer, true));
    LeadsOn(cfg, s, s1, StepActivity(writer, true));
  }

  /** What a check leads to that misses Redis and finds the row. */
  function Missed(s: State, j: Jti, spawn: nat): State
    requires j in s.issued && j in s.store.rows
  {
    var c := s.issued[j];
    var row := s.store.rows[j];
    s.(accepts := s.accepts + [Accept(c, s.now, s.now, j in s.loggedOut)],
       tasks := s.tasks[spawn := Restore(KeyOf(c), Entry(row.lastActivity, row.expiresAt), Restoring)])
  }

  lemma MissIsAccepted(cfg: Config, s: State, j: Jti, check: nat, spawn: nat)
    requires Sound(cfg, s) && Usable(s, j) && j in s.handed && FindRow(s.store, j, s.now).Some?
    requires check !in s.tasks && spawn !in s.tasks && spawn != check
    ensures Leads(cfg, s, Missed(s, j, spawn))
  {
    var c := s.issued[j];
    var s1 := Do(cfg, s, BeginCheck(check, c));
    var s2 := Do(cfg, s1, StepCheck(check, true, spawn));
    LeadsNowhere(cfg, s);
    LeadsOn(cfg, s, s, BeginCheck(check, c));
    LeadsOn(cfg, s, s1, StepCheck(check, true, spawn));
    MissFindsRow(cfg, s2, j, check, spawn);
    var s4 := Do(cfg, Do(cfg, s2, StepCheck(check, false, spawn)), StepCheck(check, true, spawn));
    LeadsAlong(cfg, s, s2, s4);
    assert s4.tasks == s.tasks[spawn := s4.tasks[spawn]];
  }

  lemma MissFindsRow(cfg: Config, s: State, j: Jti, check: nat, spawn: nat)
    requires check in s.tasks && s.tasks[check].Check? && s.tasks[check].check.ReadRedis? && spawn !in s.tasks
    requires s.tasks[check].claims.jti == j && FindRow(s.store, j, s.now).Some?
    requires s.store.rows[j].identity == s.tasks[check].claims.identity
    ensures var s1 := Do(cfg, s, StepCheck(check, false, spawn));
            && Enabled(s, StepCheck(check, false, spawn)) && Enabled(s1, StepCheck(check, true, spawn))
            && Leads(cfg, s, Do(cfg, s1, StepCheck(check, true, spawn)))
  {
    var s1 := Do(cfg, s, StepCheck(check, false, spawn));
    LeadsNowhere(cfg, s);
    LeadsOn(cfg, s, s, StepCheck(check, false, spawn));
    LeadsOn(cfg, s, s1, StepCheck(check, true, spawn));
  }

  /** A check that misses Redis finds the row and spawns a restore, which computes the TTL of its SET. */
  lemma MissPoises(cfg: Config, s: State, id: nat, j: Jti)
    requires Sound(cfg, s) && Usable(s, j) && j in s.handed && FindRow(s.store, j, s.now).Some?
    requires id in s.tasks && s.tasks[id] == Logout(KeyOf(s.issued[j]), DeleteKey)
    ensures exists t :: Leads(cfg, s, t) && Poised(cfg, t, id, j)
  {
    var n := FreshIds(s.tasks.Keys);
    MissIsAccepted(cfg, s, j, n, n + 1);
    var s1 := Missed(s, j, n + 1);
    RestoreTimes(cfg, s1, s.issued[j], n + 1);
    var t := Do(cfg, s1, StepRestore(n + 1, true));
    LeadsAlong(cfg, s, s1, t);
    PendingPoises(cfg, s, t, id, j, n + 1);
  }

  lemma RestoreTimes(cfg: Config, s: State, c: Claims, writer: nat)
    requires writer in s.tasks && s.tasks[writer].Restore? && s.tasks[writer].restore.Restoring?
    requires s.tasks[writer].key == KeyOf(c) && s.now < s.tasks[writer].entry.expiresAt
    ensures var t := Do(cfg, s, StepRestore(writer, true));
            && Leads(cfg, s, t) && SetPending(t, c, writer)
            && t.now == s.now && t.handed == s.handed && t.issued == s.issued
            && forall i :: i in s.tasks && i != writer ==> i in t.tasks && t.tasks[i] == s.tasks[i]
  {
    LeadsNowhere(cfg, s);
    LeadsOn(cfg, s, s, StepRestore(writer, true));
  }

  lemma SessionPoises(cfg: Config, s: State, id: nat, j: Jti)
    requires Sound(cfg, s) && Usable(s, j) && HasSession(s, j)
    requires id in s.tasks && s.tasks[id] == Logout(KeyOf(s.issued[j]), DeleteKey)
    ensures exists t :: Leads(cfg, s, t) && Poised(cfg, t, id, j)
  {
    var t;
    if Revivable(s, j) {
      ComesAlive(cfg, s, j);
      t :| Onward(cfg, s, t) && Sound(cfg, t) && Alive(t, j);
      HitPoises(cfg, t, id, j);
    } else {
      HandOut(cfg, s, j);
      t :| Onward(cfg, s, t) && Sound(cfg, t) && j in t.handed && t.store.redis == s.store.redis
           && FindRow(t.store, j, t.now).Some? == FindRow(s.store, j, s.now).Some?;
      MissPoises(cfg, t, id, j);
    }
    var u :| Leads(cfg, t, u) && Poised(cfg, u, id, j);
    LeadsAlong(cfg, s, t, u);
  }

  // ----- Exactly when a logout is final whatever is delayed -----

  ghost predicate FinalWhateverRuns(cfg: Config, s: State, j: Jti) {
    forall t | Leads(cfg, s, t) :: NoLate(t, j)
  }

  lemma NotLateBefore(cfg: Config, s: State, j: Jti)
    requires Sound(cfg, s) && j !in s.loggedOut
    ensures NoLate(s, j)
    ensures forall i :: i in s.tasks && s.tasks[i].Check? && s.tasks[i].claims.jti == j ==> !s.tasks[i].afterLogout
  {
    forall i | i in s.tasks && s.tasks[i].Check? && s.tasks[i].claims.jti == j ensures !s.tasks[i].afterLogout {
      assert TaskInv(cfg, s, s.tasks[i]);
    }
  }

  /** Nobody has the token and nobody will get it. */
  ghost predicate Lost(s: State, j: Jti) {
    && j in s.issued && j !in s.handed && NoLate(s, j)
    && forall i :: i in s.tasks ==> !Names(s.tasks[i], j)
  }

  predicate Names(t: Task, j: Jti) {
    (t.Login? || t.Check?) && t.claims.jti == j
  }

  lemma LostStep(cfg: Config, s: State, st: Step, j: Jti)
    requires Lost(s, j) && Enabled(s, st)
    ensures Lost(Do(cfg, s, st), j)
  {
    if !st.Tick? && st.id in s.tasks { assert !Names(s.tasks[st.id], j); }
  }

  lemma {:induction false} LostRun(cfg: Config, s: State, steps: seq<Step>, j: Jti)
    requires Lost(s, j) && IsRun(cfg, s, steps)
    ensures NoLate(After(cfg, s, steps), j)
    decreases |steps|
  {
    if steps != [] {
      LostStep(cfg, s, steps[0], j);
      LostRun(cfg, Do(cfg, s, steps[0]), steps[1..], j);
    }
  }

  /** A valid token without a live session either has a dead one or is lost. */
  lemma NoSession(cfg: Config, s: State, j: Jti)
    requires Sound(cfg, s) && j in s.issued && s.now < s.issued[j].expiresAt
    requires !HasSession(s, j) && j !in s.loggedOut
    ensures Dead(s, j) || Lost(s, j)
  {
    NotLateBefore(cfg, s, j);
    if !Obtained(s, j) {
      forall i | i in s.tasks ensures !Names(s.tasks[i], j) {
        assert TaskInv(cfg, s, s.tasks[i]) && SessionTask(s, s.tasks[i]);
        assert !Revives(s.tasks[i], s.issued[j], s.now) && !Answering(s.tasks[i], j);
      }
    }
  }

  lemma OverIsFinal(cfg: Config, s: State, j: Jti)
    requires Sound(cfg, s) && j !in s.loggedOut && (Expired(s, j) || Dead(s, j) || Lost(s, j))
    ensures FinalWhateverRuns(cfg, s, j)
  {
    NotLateBefore(cfg, s, j);
    forall t | Leads(cfg, s, t) ensures NoLate(t, j) {
      var steps :| IsRun(cfg, s, steps) && After(cfg, s, steps) == t;
      if Expired(s, j) {
        ExpiredRun(cfg, s, steps, j);
      } else if Dead(s, j) {
        DeadRun(cfg, s, steps, j);
      } else {
        LostRun(cfg, s, steps, j);
      }
    }
  }

  /** The first logout of an access token is final in all continuations, however late a SET of its
      session may land, exactly when the token has expired by then or no session of it is left. */
  lemma FinalDespiteDelaysExactly(cfg: Config, s: State, id: nat, j: Jti)
    requires Reachable(cfg, s) && id !in s.tasks && j !in s.loggedOut
    requires j in s.issued && s.issued[j].purpose == Access && !s.issued[j].temp
    ensures FinalWhateverRuns(cfg, Do(cfg, s, BeginLogout(id, KeyOf(s.issued[j]))), j) <==>
            s.issued[j].expiresAt <= s.now || !HasSession(s, j)
  {
    ReachableIsSound(cfg, s);
    var begin := BeginLogout(id, KeyOf(s.issued[j]));
    var begun := Do(cfg, s, begin);
    SoundStep(cfg, s, begin);
    NotLateBefore(cfg, begun, j);
    BegunHasSession(cfg, s, id, j);
    if begun.issued[j].expiresAt <= begun.now {
      OverIsFinal(cfg, begun, j);
    } else if !HasSession(begun, j) {
      NoSession(cfg, begun, j);
      OverIsFinal(cfg, begun, j);
    } else {
      SessionPoises(cfg, begun, id, j);
      var t :| Leads(cfg, begun, t) && Poised(cfg, t, id, j);
      var writer :| SetPending(t, t.issued[j], writer);
      DelayedSetFails(cfg, t, id, writer, j);
      var u :| Leads(cfg, t, u) && !NoLate(u, j);
      LeadsAlong(cfg, begun, t, u);
    }
  }

  lemma BegunHasSession(cfg: Config, s: State, id: nat, j: Jti)
    requires j in s.issued && id !in s.tasks
    ensures HasSession(s, j) <==> HasSession(Do(cfg, s, BeginLogout(id, KeyOf(s.issued[j]))), j)
  {
    var begun := Do(cfg, s, BeginLogout(id, KeyOf(s.issued[j])));
    assert forall i :: i in s.tasks ==> i in begun.tasks && begun.tasks[i] == s.tasks[i];
    assert !Revives(begun.tasks[id], s.issued[j], s.now) && !Answering(begun.tasks[id], j);
  }

  // ----- A small delay is enough -----

  /** The state a logout leaves whose every command succeeded. */
  function CleanlyOut(cfg: Config, s: State, key: Key): State {
    s.(store := PutBlacklist(RevokeRow(DelEntry(s.store, key), key.jti, s.now), key.jti, cfg.ttl, s.now),
       loggedOut := s.loggedOut + {key.jti})
  }

  lemma CleanLogout(cfg: Config, s: State, id: nat, key: Key)
    requires id !in s.tasks && FindRow(s.store, key.jti, s.now).Some?
    ensures Leads(cfg, s, CleanlyOut(cfg, s, key))
  {
    var step := StepLogout(id, true);
    var s0 := Do(cfg, s, BeginLogout(id, key));
    var s1 := Do(cfg, s0, step);
    var s2 := Do(cfg, s1, step);
    var s3 := Do(cfg, s2, step);
    LeadsNowhere(cfg, s);
    LeadsOn(cfg, s, s, BeginLogout(id, key));
    LeadsOn(cfg, s, s0, step);
    LeadsOn(cfg, s, s1, step);
    LeadsOn(cfg, s, s2, step);
    CleanLogoutEnds(cfg, s3, id, key);
    LeadsAlong(cfg, s, s3, LoggedOut(cfg, s3, id, key.jti));
    assert LoggedOut(cfg, s3, id, key.jti) == CleanlyOut(cfg, s, key);
  }

  lemma CleanLogoutEnds(cfg: Config, s: State, id: nat, key: Key)
    requires id in s.tasks && s.tasks[id] == Logout(key, Stamp)
    ensures Leads(cfg, s, LoggedOut(cfg, s, id, key.jti))
  {
    var step := StepLogout(id, true);
    var s1 := Do(cfg, s, step);
    var s2 := Do(cfg, s1, step);
    LeadsNowhere(cfg, s);
    LeadsOn(cfg, s, s, step);
    LeadsOn(cfg, s, s1, step);
    LeadsOn(cfg, s, s2, step);
  }

  /** The first login, then a check whose activity update has computed its TTL, all at one clock value. */
  function TimedAtLogin(cfg: Config, now: Time, identity: int, j: Jti, refresh: Jti): State {
    var s := LogoutAllFinality.LoggedIn(cfg, now, identity, j, refresh);
    s.(accepts := [Accept(AccessClaims(cfg, j, identity, now), now, now, false)],
       tasks := map[1 := Activity(Key(identity, j), ActivityTimed(LogoutAllFinality.Session(cfg, now), cfg.ttl))])
  }

  lemma TimedAtLoginComesUp(cfg: Config, now: Time, identity: int, j: Jti, refresh: Jti)
    requires j != refresh && cfg.ttl > 0.0
    ensures Leads(cfg, Start(now), TimedAtLogin(cfg, now, identity, j, refresh))
  {
    var s := LogoutAllFinality.LoggedIn(cfg, now, identity, j, refresh);
    LogoutAllFinality.WholeLogin(cfg, now, identity, j, refresh);
    LogoutAllFinality.LiveEntryIsAccepted(cfg, s, j, 0, 1);
    var s1 := LogoutAllFinality.Hit(s, j, 1);
    var s2 := Do(cfg, s1, StepActivity(1, true));
    LeadsAlong(cfg, Start(now), s, s1);
    LeadsOn(cfg, Start(now), s1, StepActivity(1, true));
    LeadsOn(cfg, Start(now), s2, StepActivity(1, true));
    assert Do(cfg, s2, StepActivity(1, true)) == TimedAtLogin(cfg, now, identity, j, refresh);
  }

  function Later(s: State, to: Time): State {
    s.(now := to)
  }

  /** The pending SET lands at the given time. */
  function Landed(s: State, writer: nat, at: Time): State
    requires writer in s.tasks && s.tasks[writer].Activity?
  {
    DoActivity(Later(s, at), writer, true)
  }

  /** However small the delay: the login and the TTL of an activity update at one clock value; half the
      delay later the token's holder logs out and every command succeeds; the SET lands after the delay;
      then a check of the token that takes no longer than the delay accepts it. */
  lemma DelayedSetExample(cfg: Config, now: Time, identity: int, j: Jti, refresh: Jti, delay: Time)
    requires j != refresh && 0.0 < 2.0 * delay <= cfg.ttl
    ensures var key := Key(identity, j);
            var c := AccessClaims(cfg, j, identity, now);
            var s := TimedAtLogin(cfg, now, identity, j, refresh);
            var out := CleanlyOut(cfg, Later(s, now + delay / 2.0), key);
            var landed := Landed(out, 1, now + delay);
            var end := now + cfg.ttl;
            && Leads(cfg, Start(now), s) && j in s.handed && Leads(cfg, s, out) && Leads(cfg, out, landed)
            && exists t :: Leads(cfg, landed, t)
                 && t.accepts == landed.accepts + [Accept(c, end - delay / 2.0, end + delay / 2.0, true)]
  {
    var key := Key(identity, j);
    var c := AccessClaims(cfg, j, identity, now);
    var s := TimedAtLogin(cfg, now, identity, j, refresh);
    var half := Later(s, now + delay / 2.0);
    var out := CleanlyOut(cfg, half, key);
    var landed := Landed(out, 1, now + delay);
    TimedAtLoginComesUp(cfg, now, identity, j, refresh);
    LeadsNowhere(cfg, s);
    LeadsOn(cfg, s, s, Tick(now + delay / 2.0));
    CleanLogout(cfg, half, 2, key);
    LeadsAlong(cfg, s, half, out);
    LeadsNowhere(cfg, out);
    LeadsOn(cfg, out, out, Tick(now + delay));
    LeadsOn(cfg, out, Later(out, now + delay), StepActivity(1, true));
    SlowCheckHits(cfg, landed, c, now + cfg.ttl - delay / 2.0, now + cfg.ttl + delay / 2.0);
  }

  /** A check that verifies the token at one time and reads blacklist and Redis at a later one. */
  lemma SlowCheckHits(cfg: Config, s: State, c: Claims, from: Time, to: Time)
    requires s.tasks == map[] && s.now <= from <= to && Verifies(Later(s, from), c) && c.jti in s.handed
    requires !Blacklisted(s.store, c.jti, to) && GetEntry(s.store, KeyOf(c), to).Some?
    ensures exists t :: Leads(cfg, s, t) && t.accepts == s.accepts + [Accept(c, from, to, c.jti in s.loggedOut)]
  {
    var s1 := Later(s, from);
    LeadsNowhere(cfg, s);
    LeadsOn(cfg, s, s, Tick(from));
    LateCheckRuns(cfg, s1, c, 0, to);
    var t :| OrderlyLeads(cfg, s1, t, c.jti) && t.accepts == s1.accepts + [Accept(c, from, to, c.jti in s.loggedOut)];
    OrderlyIsRun(cfg, s1, t, c.jti);
    LeadsAlong(cfg, s, s1, t);
  }
}
