/** session.Manager and the AuthService calls built on it, run one at a time. The clock value
    a call reads and the outcome of each Redis or SQL command are parameters. */
module SessionManager {
  import opened Common
  import opened SessionStore
  import opened SessionProtocol

  /** The goroutine GetSession leaves behind. */
  datatype Background = NoTask | Refreshes(key: Key) | Restores(key: Key, entry: Entry)

  class Manager {
    var redis: map<Key, Kept>
    var blacklist: map<Jti, Expiry>
    var rows: map<Jti, Row>

    ghost function Snap(): Store
      reads this
    {
      Store(redis, blacklist, rows)
    }

    /** t0 is the clock when the TTL is computed, t1 when the SET lands, t2 when the row is touched. */
    method CreateSession(key: Key, e: Entry, t0: Time, t1: Time, t2: Time, redisOk: bool, dbOk: bool)
      returns (ok: bool)
      requires t0 <= t1 <= t2
      modifies this
      ensures ok == (redisOk && t0 < e.expiresAt)
      ensures Snap() == CreateEffect(old(Snap()), key, e, t0, t1, t2, redisOk, dbOk)
      ensures redis == (if ok then old(redis)[key := Kept(e, e.expiresAt + (t1 - t0))] else old(redis))
      ensures rows == if ok && dbOk && key.jti in old(rows)
                      then old(rows)[key.jti := old(rows)[key.jti].(lastActivity := t2)] else old(rows)
      ensures blacklist == old(blacklist)
    {
      var ttl := e.expiresAt - t0;
      if ttl <= 0.0 || !redisOk { return false; }
      redis := redis[key := Kept(e, t1 + ttl)];
      if dbOk && key.jti in rows {
        rows := rows[key.jti := rows[key.jti].(lastActivity := t2)];
      }
      return true;
    }

    /** Redis first, then the database; the answer and the goroutine both name the same entry. Only the
        database looks at the session's own expiry. */
    method GetSession(key: Key, now: Time, redisOk: bool, dbOk: bool) returns (r: Option<Entry>, task: Background)
      ensures r.Some? <==> Finds(Snap(), key, now, redisOk, dbOk)
      ensures r.Some? <==>
        || (redisOk && key in redis && now < redis[key].until)
        || (dbOk && key.jti in rows && rows[key.jti].status == Active && now < rows[key.jti].expiresAt
            && rows[key.jti].identity == key.identity)
      ensures r.Some? && (!redisOk || GetEntry(Snap(), key, now).None?) ==> now < r.value.expiresAt
      ensures task == if redisOk && GetEntry(Snap(), key, now).Some? then Refreshes(key)
                      else if r.Some? then Restores(key, r.value)
                      else NoTask
      ensures r.Some? && task.Refreshes? ==> r.value == redis[key].entry.(lastActivity := now)
      ensures r.Some? && task.Restores? ==>
        r.value == Entry(rows[key.jti].lastActivity, rows[key.jti].expiresAt)
    {
      if redisOk && key in redis && now < redis[key].until {
        return Some(redis[key].entry.(lastActivity := now)), Refreshes(key);
      }
      if !dbOk { return None, NoTask; }
      if key.jti !in rows || rows[key.jti].status != Active || rows[key.jti].expiresAt <= now {
        return None, NoTask;
      }
      var row := rows[key.jti];
      if row.identity != key.identity { return None, NoTask; }
      var e := Entry(row.lastActivity, row.expiresAt);
      return Some(e), Restores(key, e);
    }

    /** t0 is the clock at the GET, t1 when the TTL is computed, t2 when the SET lands. */
    method UpdateSessionActivity(key: Key, t0: Time, t1: Time, t2: Time, getOk: bool, setOk: bool)
      requires t0 <= t1 <= t2
      modifies this`redis
      ensures Snap() == ActivityEffect(old(Snap()), key, t0, t1, t2, getOk, setOk)
      ensures redis ==
        if getOk && setOk && key in old(redis) && t0 < old(redis)[key].until && t1 < old(redis)[key].entry.expiresAt
        then old(redis)[key := Kept(Entry(t1, old(redis)[key].entry.expiresAt),
                                    old(redis)[key].entry.expiresAt + (t2 - t1))]
        else old(redis)
    {
      if !getOk || key !in redis || redis[key].until <= t0 { return; }
      var e := redis[key].entry.(lastActivity := t1);
      var ttl := e.expiresAt - t1;
      if ttl > 0.0 && setOk { redis := redis[key := Kept(e, t2 + ttl)]; }
    }

    /** A failed Redis delete or a failed lookup is ignored; a failed update is reported. */
    method InvalidateSession(key: Key, now: Time, redisOk: bool, findOk: bool, updateOk: bool)
      returns (ok: bool)
      modifies this
      ensures Snap() == InvalidateEffect(old(Snap()), key, now, redisOk, findOk, updateOk)
      ensures ok <==> !findOk || updateOk || !LiveRow(old(rows), key.jti, now)
      ensures redis == if redisOk then old(redis) - {key} else old(redis)
      ensures rows == if findOk && updateOk && LiveRow(old(rows), key.jti, now)
                      then old(rows)[key.jti := old(rows)[key.jti].(status := Revoked, logoutAt := Some(now))]
                      else old(rows)
      ensures blacklist == old(blacklist)
    {
      if redisOk { redis := redis - {key}; }
      if findOk && key.jti in rows && rows[key.jti].status == Active && now < rows[key.jti].expiresAt {
        if !updateOk { return false; }
        rows := rows[key.jti := rows[key.jti].(status := Revoked, logoutAt := Some(now))];
      }
      return true;
    }

    /** `keys` is what the SCAN returned, all keys of the identity if it did not fail. A failed
        DEL is ignored; a failed UPDATE or SCAN is reported after the rest has been done. Exactly the
        active rows of the identity are revoked; nothing of other identities changes. */
    method InvalidateAllUserSessions(identity: int, now: Time, keys: seq<Key>, failed: set<Key>, scanOk: bool,
                                     updateOk: bool)
      returns (ok: bool)
      requires forall k :: k in keys ==> k.identity == identity
      requires scanOk ==> forall k :: k in redis && k.identity == identity ==> k in keys
      modifies this
      ensures ok <==> scanOk && updateOk
      ensures Snap() == SweepEffect(old(Snap()), identity, now, (set k | k in keys) - failed, updateOk)
      ensures rows.Keys == old(rows.Keys) && blacklist == old(blacklist)
      ensures forall j :: j in old(rows) ==>
        var row := old(rows)[j];
        rows[j] == if updateOk && row.identity == identity && row.status == Active
                   then Row(identity, Revoked, row.lastActivity, row.expiresAt, Some(now)) else row
      ensures forall k :: k in redis <==> k in old(redis) && !(k in keys && k !in failed)
      ensures forall k :: k in redis ==> redis[k] == old(redis)[k]
      ensures ok ==> forall k :: k in redis && k.identity == identity ==> k in failed
    {
      for i := 0 to |keys|
        invariant blacklist == old(blacklist) && rows == old(rows)
        invariant redis == map k | k in old(redis) && !(k in keys[..i] && k !in failed) :: old(redis)[k]
      {
        if keys[i] !in failed { redis := redis - {keys[i]}; }
      }
      if !updateOk { return false; }
      rows := map j | j in rows ::
        if rows[j].identity == identity && rows[j].status == Active
        then rows[j].(status := Revoked, logoutAt := Some(now)) else rows[j];
      return scanOk;
    }

    method BlacklistToken(jti: Jti, ttl: Time, now: Time)
      modifies this`blacklist
      ensures Snap() == PutBlacklist(old(Snap()), jti, ttl, now)
      ensures blacklist == old(blacklist)[jti := if ttl > 0.0 then At(now + ttl) else Never]
      ensures forall t :: Blacklisted(Snap(), jti, t) <==> ttl <= 0.0 || t < now + ttl
    {
      blacklist := blacklist[jti := if ttl > 0.0 then At(now + ttl) else Never];
    }

    /** None when Redis does not answer. */
    method IsTokenBlacklisted(jti: Jti, now: Time, redisOk: bool) returns (b: Option<bool>)
      ensures b.Some? <==> redisOk
      ensures redisOk ==> b.value == Blacklisted(Snap(), jti, now)
      ensures redisOk ==> (b.value <==> jti in blacklist && (blacklist[jti].Never? || now < blacklist[jti].time))
    {
      if !redisOk { return None; }
      return Some(jti in blacklist && Live(blacklist[jti], now));
    }
  }

  /** FindSessionByToken finds the row. */
  predicate LiveRow(rows: map<Jti, Row>, jti: Jti, now: Time) {
    jti in rows && rows[jti].status == Active && now < rows[jti].expiresAt
  }

  /** GetSession finds a live Redis entry, or else an active unexpired row of the identity. */
  predicate Finds(st: Store, key: Key, now: Time, redisOk: bool, dbOk: bool) {
    || (redisOk && GetEntry(st, key, now).Some?)
    || (dbOk && FindRow(st, key.jti, now).Some? && FindRow(st, key.jti, now).value.identity == key.identity)
  }

  function CreateEffect(st: Store, key: Key, e: Entry, t0: Time, t1: Time, t2: Time, redisOk: bool, dbOk: bool): Store {
    if e.expiresAt <= t0 then st else SetEffect(st, key, e, e.expiresAt - t0, t1, t2, redisOk, dbOk)
  }

  /** The SET, and the UPDATE behind it. */
  function SetEffect(st: Store, key: Key, e: Entry, ttl: Time, t1: Time, t2: Time, redisOk: bool, dbOk: bool): Store {
    if !redisOk then st
    else
      var st' := SetEntry(st, key, e, ttl, t1);
      if dbOk then TouchRow(st', key.jti, t2) else st'
  }

  function ActivityEffect(st: Store, key: Key, t0: Time, t1: Time, t2: Time, getOk: bool, setOk: bool): Store {
    var e := GetEntry(st, key, t0);
    if getOk && e.Some? then RewriteEffect(st, key, e.value, t1, t2, setOk) else st
  }

  /** The entry that was read is written back, if it has not expired by then. */
  function RewriteEffect(st: Store, key: Key, e: Entry, t1: Time, t2: Time, setOk: bool): Store {
    if setOk && t1 < e.expiresAt then SetEntry(st, key, e.(lastActivity := t1), e.expiresAt - t1, t2) else st
  }

  function SweepEffect(st: Store, identity: int, now: Time, deleted: set<Key>, updateOk: bool): Store {
    var st' := st.(redis := map k | k in st.redis && k !in deleted :: st.redis[k]);
    if updateOk then RevokeAll(st', identity, now) else st'
  }

  function InvalidateEffect(st: Store, key: Key, now: Time, redisOk: bool, findOk: bool, updateOk: bool): Store {
    var st' := if redisOk then DelEntry(st, key) else st;
    if findOk && updateOk && FindRow(st, key.jti, now).Some? then RevokeRow(st', key.jti, now) else st'
  }

  class AuthService {
    const sessions: Manager
    const ttl: Duration

    constructor (sessions: Manager, ttl: Duration)
      ensures this.sessions == sessions && this.ttl == ttl
    {
      this.sessions := sessions;
      this.ttl := ttl;
    }

    /** Logout and RevokeSession. t0 is the clock at the start, t1 and t2 the two reads that
        compute the TTL, t3 the moment Redis stores the key. On success the token stays
        blacklisted until a full Ttl after t1. Nothing of another token changes. */
    method Logout(key: Key, t0: Time, t1: Time, t2: Time, t3: Time,
                  redisOk: bool, findOk: bool, updateOk: bool, blacklistOk: bool) returns (ok: bool)
      requires t0 <= t1 <= t2 <= t3
      modifies sessions
      ensures ok <==> blacklistOk && (!findOk || updateOk || !LiveRow(old(sessions.rows), key.jti, t0))
      ensures sessions.Snap() ==
        var inv := InvalidateEffect(old(sessions.Snap()), key, t0, redisOk, findOk, updateOk);
        if ok then PutBlacklist(inv, key.jti, t1 + ttl - t2, t3) else inv
      ensures sessions.redis == if redisOk then old(sessions.redis) - {key} else old(sessions.redis)
      ensures sessions.rows.Keys == old(sessions.rows.Keys)
      ensures forall j :: j in old(sessions.rows) ==>
        var row := old(sessions.rows)[j];
        sessions.rows[j] == if j == key.jti && findOk && updateOk && row.status == Active && t0 < row.expiresAt
                            then Row(row.identity, Revoked, row.lastActivity, row.expiresAt, Some(t0)) else row
      ensures ok ==> forall t :: t < t1 + ttl ==> Blacklisted(sessions.Snap(), key.jti, t)
      ensures forall j, t :: !ok || j != key.jti ==>
        (Blacklisted(sessions.Snap(), j, t) <==> Blacklisted(old(sessions.Snap()), j, t))
    {
      var done := sessions.InvalidateSession(key, t0, redisOk, findOk, updateOk);
      if !done { return false; }
      var remaining := t1 + ttl - t2;
      if !blacklistOk { return false; }
      sessions.BlacklistToken(key.jti, remaining, t3);
      return true;
    }

    /** LogoutAllSessions reports what InvalidateAllUserSessions reports. */
    method LogoutAllSessions(identity: int, now: Time, keys: seq<Key>, failed: set<Key>, scanOk: bool, updateOk: bool)
      returns (ok: bool)
      requires forall k :: k in keys ==> k.identity == identity
      requires scanOk ==> forall k :: k in sessions.redis && k.identity == identity ==> k in keys
      modifies sessions
      ensures ok <==> scanOk && updateOk
      ensures sessions.Snap() ==
        SweepEffect(old(sessions.Snap()), identity, now, (set k | k in keys) - failed, updateOk)
      ensures sessions.rows.Keys == old(sessions.rows.Keys) && sessions.blacklist == old(sessions.blacklist)
      ensures forall j :: j in old(sessions.rows) ==>
        var row := old(sessions.rows)[j];
        sessions.rows[j] == if updateOk && row.identity == identity && row.status == Active
                            then Row(identity, Revoked, row.lastActivity, row.expiresAt, Some(now)) else row
      ensures forall k :: k in sessions.redis <==> k in old(sessions.redis) && !(k in keys && k !in failed)
      ensures forall k :: k in sessions.redis ==> sessions.redis[k] == old(sessions.redis)[k]
      ensures ok ==> forall k :: k in sessions.redis && k.identity == identity ==> k in failed
    {
      ok := sessions.InvalidateAllUserSessions(identity, now, keys, failed, scanOk, updateOk);
    }

    /** ValidateToken for claims whose signature check gave `genuine`; the flags say whether the
        blacklist read, the session read and the database read succeed. */
    method ValidateToken(c: Claims, genuine: bool, now: Time, listOk: bool, redisOk: bool, dbOk: bool)
      returns (ok: bool, task: Background)
      ensures ok <==>
        genuine && now < c.expiresAt && c.purpose == Access && !c.temp
        && Accepts(sessions.Snap(), c, now, listOk, redisOk, dbOk)
      ensures ok <==>
        && genuine && now < c.expiresAt && c.purpose == Access && !c.temp && listOk
        && !(c.jti in sessions.blacklist && (sessions.blacklist[c.jti].Never? || now < sessions.blacklist[c.jti].time))
        && (|| (redisOk && Key(c.identity, c.jti) in sessions.redis
                && now < sessions.redis[Key(c.identity, c.jti)].until)
            || (dbOk && LiveRow(sessions.rows, c.jti, now) && sessions.rows[c.jti].identity == c.identity))
      ensures task.NoTask? <==> !ok
    {
      if !genuine || c.expiresAt <= now { return false, NoTask; }
      if c.purpose != Access || c.temp { return false, NoTask; }
      var revoked := sessions.IsTokenBlacklisted(c.jti, now, listOk);
      if revoked.None? || revoked.value { return false, NoTask; }
      var e, t := sessions.GetSession(Key(c.identity, c.jti), now, redisOk, dbOk);
      return e.Some?, t;
    }
  }

  // ----- The interleaved protocol, run without interruption, is the sequential code -----

  /** A logout request stepped to its end from DeleteKey. */
  function LogoutSteps(id: nat, redisOk: bool, findOk: bool, updateOk: bool, found: bool,
                       blacklistOk: bool): seq<Step> {
    [StepLogout(id, redisOk), StepLogout(id, findOk)]
    + (if findOk && found then [StepLogout(id, updateOk)] else [])
    + (if findOk && found && !updateOk then []
       else [StepLogout(id, true), StepLogout(id, true), StepLogout(id, blacklistOk)])
  }

  /** Stepping one logout request to its end with no other step between leaves exactly the
      store that the sequential Logout leaves when all its clock reads agree. */
  lemma LogoutStepsMatch(cfg: Config, s: State, id: nat, key: Key,
                         redisOk: bool, findOk: bool, updateOk: bool, blacklistOk: bool)
    requires id in s.tasks && s.tasks[id] == SessionProtocol.Logout(key, DeleteKey)
    ensures var found := FindRow(s.store, key.jti, s.now).Some?;
            var steps := LogoutSteps(id, redisOk, findOk, updateOk, found, blacklistOk);
            var inv := InvalidateEffect(s.store, key, s.now, redisOk, findOk, updateOk);
            var ok := blacklistOk && (!findOk || updateOk || !found);
            IsRun(cfg, s, steps) &&
            After(cfg, s, steps).store == (if ok then PutBlacklist(inv, key.jti, cfg.ttl, s.now) else inv) &&
            (ok ==> key.jti in After(cfg, s, steps).loggedOut) && id !in After(cfg, s, steps).tasks
  {
    var found := FindRow(s.store, key.jti, s.now).Some?;
    var s1 := DoLogout(cfg, s, id, redisOk);
    OneStep(cfg, s, StepLogout(id, redisOk));
    OneStep(cfg, s1, StepLogout(id, findOk));
    AfterAppend(cfg, s, [StepLogout(id, redisOk)], [StepLogout(id, findOk)]);
    var head := [StepLogout(id, redisOk)] + [StepLogout(id, findOk)];
    var s2 := After(cfg, s, head);
    var mid := if findOk && found then [StepLogout(id, updateOk)] else [];
    if findOk && found { OneStep(cfg, s2, StepLogout(id, updateOk)); }
    AfterAppend(cfg, s, head, mid);
    var s3 := After(cfg, s2, mid);
    if findOk && found && !updateOk {
      assert LogoutSteps(id, redisOk, findOk, updateOk, found, blacklistOk) == head + mid;
    } else {
      LogoutTail(cfg, s3, id, key, blacklistOk);
      var tail := [StepLogout(id, true), StepLogout(id, true), StepLogout(id, blacklistOk)];
      AfterAppend(cfg, s, head + mid, tail);
      assert LogoutSteps(id, redisOk, findOk, updateOk, found, blacklistOk) == head + mid + tail;
    }
  }

  lemma LogoutTail(cfg: Config, s: State, id: nat, key: Key, blacklistOk: bool)
    requires id in s.tasks && s.tasks[id] == SessionProtocol.Logout(key, Stamp)
    ensures var tail := [StepLogout(id, true), StepLogout(id, true), StepLogout(id, blacklistOk)];
            IsRun(cfg, s, tail) && id !in After(cfg, s, tail).tasks &&
            After(cfg, s, tail).store == (if blacklistOk then PutBlacklist(s.store, key.jti, cfg.ttl, s.now)
              else s.store) &&
            (blacklistOk ==> key.jti in After(cfg, s, tail).loggedOut)
  {
    var s1 := DoLogout(cfg, s, id, true);
    var s2 := DoLogout(cfg, s1, id, true);
    var s3 := DoLogout(cfg, s2, id, blacklistOk);
    OneStep(cfg, s, StepLogout(id, true));
    OneStep(cfg, s1, StepLogout(id, true));
    OneStep(cfg, s2, StepLogout(id, blacklistOk));
    AfterAppend(cfg, s, [StepLogout(id, true)], [StepLogout(id, true)]);
    AfterAppend(cfg, s, [StepLogout(id, true)] + [StepLogout(id, true)], [StepLogout(id, blacklistOk)]);
    assert [StepLogout(id, true)] + [StepLogout(id, true)] + [StepLogout(id, blacklistOk)]
        == [StepLogout(id, true), StepLogout(id, true), StepLogout(id, blacklistOk)];
  }

  /** The condition under which ValidateToken accepts verified claims. */
  predicate Accepts(st: Store, c: Claims, now: Time, listOk: bool, redisOk: bool, dbOk: bool) {
    listOk && !Blacklisted(st, c.jti, now) && Finds(st, Key(c.identity, c.jti), now, redisOk, dbOk)
  }

  /** A token check stepped to its end. */
  function CheckSteps(s: State, id: nat, c: Claims, listOk: bool, redisOk: bool, dbOk: bool, spawn: nat): seq<Step> {
    [BeginCheck(id, c)] + [StepCheck(id, listOk, spawn)]
    + (if !listOk || Blacklisted(s.store, c.jti, s.now) then []
       else [StepCheck(id, redisOk, spawn)]
            + (if redisOk && GetEntry(s.store, Key(c.identity, c.jti), s.now).Some? then []
              else [StepCheck(id, dbOk, spawn)]))
  }

  /** Stepping one token check to its end with no other step between accepts exactly when the
      sequential ValidateToken does, and leaves the store alone. */
  lemma CheckStepsMatch(cfg: Config, s: State, id: nat, c: Claims, listOk: bool, redisOk: bool, dbOk: bool, spawn: nat)
    requires Verifies(s, c) && c.jti in s.handed && id !in s.tasks && spawn !in s.tasks && spawn != id
    ensures var steps := CheckSteps(s, id, c, listOk, redisOk, dbOk, spawn);
            IsRun(cfg, s, steps) &&
            var end := After(cfg, s, steps);
            end.store == s.store && id !in end.tasks &&
            end.accepts == s.accepts
              + (if Accepts(s.store, c, s.now, listOk, redisOk, dbOk)
                then [Accept(c, s.now, s.now, c.jti in s.loggedOut)] else [])
  {
    var begin := BeginCheck(id, c);
    OneStep(cfg, s, begin);
    Extend(cfg, s, [begin], StepCheck(id, listOk, spawn));
    var head := [begin] + [StepCheck(id, listOk, spawn)];
    var s2 := After(cfg, s, head);
    if listOk && !Blacklisted(s.store, c.jti, s.now) {
      CheckTail(cfg, s2, id, redisOk, dbOk, spawn);
      var hit := redisOk && GetEntry(s.store, Key(c.identity, c.jti), s.now).Some?;
      var tail := [StepCheck(id, redisOk, spawn)] + (if hit then [] else [StepCheck(id, dbOk, spawn)]);
      AfterAppend(cfg, s, head, tail);
      assert CheckSteps(s, id, c, listOk, redisOk, dbOk, spawn) == head + tail;
    } else {
      assert CheckSteps(s, id, c, listOk, redisOk, dbOk, spawn) == head;
    }
  }

  lemma CheckTail(cfg: Config, s: State, id: nat, redisOk: bool, dbOk: bool, spawn: nat)
    requires id in s.tasks && s.tasks[id].Check? && s.tasks[id].check.ReadRedis? && spawn !in s.tasks
    ensures var t := s.tasks[id];
            var key := Key(t.claims.identity, t.claims.jti);
            var hit := redisOk && GetEntry(s.store, key, s.now).Some?;
            var tail := [StepCheck(id, redisOk, spawn)] + (if hit then [] else [StepCheck(id, dbOk, spawn)]);
            IsRun(cfg, s, tail) &&
            var end := After(cfg, s, tail);
            end.store == s.store && id !in end.tasks &&
            end.accepts == s.accepts
              + (if Finds(s.store, key, s.now, redisOk, dbOk)
                 then [Accept(t.claims, t.startedAt, t.check.checkedAt, t.afterLogout)] else [])
  {
    var t := s.tasks[id];
    OneStep(cfg, s, StepCheck(id, redisOk, spawn));
    if !(redisOk && GetEntry(s.store, Key(t.claims.identity, t.claims.jti), s.now).Some?) {
      Extend(cfg, s, [StepCheck(id, redisOk, spawn)], StepCheck(id, dbOk, spawn));
    }
  }

  /** Stepping a restore to its end, with time passing before its SET and its UPDATE but no other step,
      leaves exactly the store that CreateSession leaves. */
  lemma RestoreStepsMatch(cfg: Config, s: State, id: nat, key: Key, e: Entry, t1: Time, t2: Time,
                          redisOk: bool, dbOk: bool)
    requires id in s.tasks && s.tasks[id] == Restore(key, e, Restoring) && s.now <= t1 <= t2
    ensures exists t :: Leads(cfg, s, t) && id !in t.tasks
                        && t.store == CreateEffect(s.store, key, e, s.now, t1, t2, redisOk, dbOk)
  {
    var a := Do(cfg, s, StepRestore(id, true));
    LeadsNowhere(cfg, s);
    LeadsOn(cfg, s, s, StepRestore(id, true));
    if s.now < e.expiresAt {
      RestoreSetMatches(cfg, a, id, t1, t2, redisOk, dbOk);
      var t :| Leads(cfg, a, t) && id !in t.tasks
               && t.store == SetEffect(a.store, key, e, e.expiresAt - s.now, t1, t2, redisOk, dbOk);
      LeadsAlong(cfg, s, a, t);
    }
  }

  lemma RestoreSetMatches(cfg: Config, s: State, id: nat, t1: Time, t2: Time, redisOk: bool, dbOk: bool)
    requires id in s.tasks && s.tasks[id].Restore? && s.tasks[id].restore.RestoreTimed? && s.now <= t1 <= t2
    ensures var w := s.tasks[id];
            exists t :: Leads(cfg, s, t) && id !in t.tasks
                        && t.store == SetEffect(s.store, w.key, w.entry, w.restore.ttl, t1, t2, redisOk, dbOk)
  {
    var b := Do(cfg, s, Tick(t1));
    var c := Do(cfg, b, StepRestore(id, redisOk));
    LeadsNowhere(cfg, s);
    LeadsOn(cfg, s, s, Tick(t1));
    LeadsOn(cfg, s, b, StepRestore(id, redisOk));
    if redisOk {
      var d := Do(cfg, c, Tick(t2));
      LeadsOn(cfg, s, c, Tick(t2));
      LeadsOn(cfg, s, d, StepRestore(id, dbOk));
    }
  }

  /** So does an activity update, against UpdateSessionActivity. */
  lemma ActivityStepsMatch(cfg: Config, s: State, id: nat, key: Key, t1: Time, t2: Time, getOk: bool, setOk: bool)
    requires id in s.tasks && s.tasks[id] == Activity(key, Reading) && s.now <= t1 <= t2
    ensures exists t :: Leads(cfg, s, t) && id !in t.tasks
                        && t.store == ActivityEffect(s.store, key, s.now, t1, t2, getOk, setOk)
  {
    var a := Do(cfg, s, StepActivity(id, getOk));
    LeadsNowhere(cfg, s);
    LeadsOn(cfg, s, s, StepActivity(id, getOk));
    if id in a.tasks {
      ActivitySetMatches(cfg, a, id, t1, t2, setOk);
      var e := a.tasks[id].activity.entry;
      var t :| Leads(cfg, a, t) && id !in t.tasks && t.store == RewriteEffect(a.store, key, e, t1, t2, setOk);
      LeadsAlong(cfg, s, a, t);
    }
  }

  lemma ActivitySetMatches(cfg: Config, s: State, id: nat, t1: Time, t2: Time, setOk: bool)
    requires id in s.tasks && s.tasks[id].Activity? && s.tasks[id].activity.Read? && s.now <= t1 <= t2
    ensures var w := s.tasks[id];
            exists t :: Leads(cfg, s, t) && id !in t.tasks
                        && t.store == RewriteEffect(s.store, w.key, w.activity.entry, t1, t2, setOk)
  {
    var b := Do(cfg, s, Tick(t1));
    var c := Do(cfg, b, StepActivity(id, true));
    LeadsNowhere(cfg, s);
    LeadsOn(cfg, s, s, Tick(t1));
    LeadsOn(cfg, s, b, StepActivity(id, true));
    if id in c.tasks {
      var d := Do(cfg, c, Tick(t2));
      LeadsOn(cfg, s, c, Tick(t2));
      LeadsOn(cfg, s, d, StepActivity(id, setOk));
    }
  }
}
