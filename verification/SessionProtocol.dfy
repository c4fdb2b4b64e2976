/** Logins, token checks, logouts and background writers interleaved over the session store.
    Every Redis command, every SQL statement and every clock reading of a writer is one step; any
    other step may run between two steps of the same request. The steps that can fail take an
    `ok` flag. */
module SessionProtocol {
  import opened Common
  import opened SessionStore

  datatype Purpose = Access | Refresh | Other

  /** JWT claims; a token verifies only if the generator issued exactly these claims. */
  datatype Claims = Claims(jti: Jti, identity: int, expiresAt: Time, purpose: Purpose, temp: bool)

  /** Stamped: the session's expiry is computed, its row not yet inserted. LoginTimed: the TTL is
      computed, the SET not yet sent. Cached: the SET has landed. */
  datatype LoginStage =
    | Issued | Stamped(expiresAt: Time) | Inserted(expiresAt: Time) | LoginTimed(entry: Entry, ttl: Time) | Cached

  datatype CheckStage = CheckBlacklist | ReadRedis(checkedAt: Time) | ReadDb(checkedAt: Time)

  datatype LogoutStage =
    | DeleteKey | FindSession | Revoke | Stamp | Remaining(until: Time) | Blacklist(ttl: Time)

  /** UpdateSessionActivity before its GET, after it, and with the TTL of its SET computed. */
  datatype ActivityStage = Reading | Read(entry: Entry) | ActivityTimed(entry: Entry, ttl: Time)

  /** restoreToRedis before its TTL is computed, before its SET, and after it. */
  datatype RestoreStage = Restoring | RestoreTimed(ttl: Time) | Stored

  /** The keys a SCAN still has to return; a SCAN that fails leaves the rest. */
  datatype SweepStage = NotScanned | Deleting(left: set<Key>) | Scanned(complete: bool)

  /** One command of LogoutAllSessions. */
  datatype Sweep = StartScan | Delete(key: Key, ok: bool) | EndScan | AbortScan | UpdateRows(ok: bool)

  datatype Task =
    | Login(claims: Claims, login: LoginStage)
    | Check(claims: Claims, startedAt: Time, afterLogout: bool, check: CheckStage)
    | Logout(key: Key, logout: LogoutStage)
    | LogoutAll(identity: int, sweep: SweepStage)
    | Activity(key: Key, activity: ActivityStage)
    | Restore(key: Key, entry: Entry, restore: RestoreStage)

  /** A successful ValidateToken: when it verified the token, when it read the blacklist, and
      whether a Logout or RevokeSession of the token had returned before it started. */
  datatype Accept = Accept(claims: Claims, startedAt: Time, checkedAt: Time, afterLogout: bool)

  /** handed: the tokens whose login has answered its caller. */
  datatype State = State(
    now: Time,
    store: Store,
    issued: map<Jti, Claims>,
    handed: set<Jti>,
    tasks: map<nat, Task>,
    loggedOut: set<Jti>,
    accepts: seq<Accept>)

  /** Generator.Ttl and the seven-day refresh lifetime. */
  datatype Config = Config(ttl: Duration)

  const REFRESH_TTL: Time := 604800.0

  datatype Step =
    | Tick(to: Time)
    | BeginLogin(id: nat, identity: int, jti: Jti, refresh: Jti)
    | StepLogin(id: nat, ok: bool)
    | BeginCheck(id: nat, claims: Claims)
    | StepCheck(id: nat, ok: bool, spawn: nat)
    | BeginLogout(id: nat, key: Key)
    | StepLogout(id: nat, ok: bool)
    | BeginLogoutAll(id: nat, identity: int)
    | StepLogoutAll(id: nat, sweep: Sweep)
    | StepActivity(id: nat, ok: bool)
    | StepRestore(id: nat, ok: bool)

  function AccessClaims(cfg: Config, jti: Jti, identity: int, now: Time): Claims {
    Claims(jti, identity, now + cfg.ttl, Access, false)
  }

  /** Verifier.VerifyAccessToken, with the signature, issuer and audience checks read as
      "the generator produced these claims". */
  predicate Verifies(s: State, c: Claims) {
    && c.jti in s.issued && s.issued[c.jti] == c
    && s.now < c.expiresAt
    && c.purpose == Access
    && !c.temp
  }

  /** A ULID that no token, blacklist entry or logout request has named before. */
  ghost predicate Fresh(s: State, jti: Jti) {
    && jti !in s.issued
    && jti !in s.store.blacklist
    && forall i :: i in s.tasks && s.tasks[i].Logout? ==> s.tasks[i].key.jti != jti
  }

  ghost predicate Enabled(s: State, st: Step) {
    match st
    case Tick(to) => s.now <= to
    case BeginLogin(id, _, jti, refresh) =>
      id !in s.tasks && jti != refresh && Fresh(s, jti) && Fresh(s, refresh)
    case BeginCheck(id, c) => id !in s.tasks && c.jti in s.handed && Verifies(s, c)
    case BeginLogout(id, _) => id !in s.tasks
    case BeginLogoutAll(id, _) => id !in s.tasks
    case StepLogin(id, _) => id in s.tasks && s.tasks[id].Login?
    case StepCheck(id, _, spawn) => id in s.tasks && s.tasks[id].Check? && spawn !in s.tasks
    case StepLogout(id, _) => id in s.tasks && s.tasks[id].Logout?
    case StepLogoutAll(id, sweep) =>
      id in s.tasks && s.tasks[id].LogoutAll? && CanSweep(s.tasks[id].identity, s.tasks[id].sweep, sweep)
    case StepActivity(id, _) => id in s.tasks && s.tasks[id].Activity?
    case StepRestore(id, _) => id in s.tasks && s.tasks[id].Restore?
  }

  /** A SCAN returns every key that stays, and may return a key twice or one that came late. */
  predicate CanSweep(identity: int, stage: SweepStage, sweep: Sweep) {
    match sweep
    case StartScan => stage.NotScanned?
    case Delete(key, _) => stage.Deleting? && key.identity == identity
    case EndScan => stage.Deleting? && stage.left == {}
    case AbortScan => stage.Deleting?
    case UpdateRows(_) => stage.Scanned?
  }

  function End(s: State, id: nat): State {
    s.(tasks := s.tasks - {id})
  }

  function Continue(s: State, id: nat, t: Task): State {
    s.(tasks := s.tasks[id := t])
  }

  /** The stage of a SET that is about to be sent, or the end if no time is left. */
  function Timed(s: State, id: nat, t: Task, left: Time): State {
    if left > 0.0 then Continue(s, id, t) else End(s, id)
  }

  /** loginWithIdentity: compute the expiry, insert the row, compute the TTL, SET the session key,
      touch the row, answer. */
  function DoLogin(cfg: Config, s: State, id: nat, ok: bool): State
    requires id in s.tasks && s.tasks[id].Login?
  {
    var t := s.tasks[id];
    var key := Key(t.claims.identity, t.claims.jti);
    match t.login
    case Issued => Continue(s, id, t.(login := Stamped(s.now + cfg.ttl)))
    case Stamped(e) =>
      if !ok then End(s, id)
      else
        Continue(s.(store := InsertRow(s.store, t.claims.jti, t.claims.identity, s.now, e)),
                 id, t.(login := Inserted(e)))
    case Inserted(e) => Timed(s, id, t.(login := LoginTimed(Entry(s.now, e), e - s.now)), e - s.now)
    case LoginTimed(entry, ttl) =>
      if ok then Continue(s.(store := SetEntry(s.store, key, entry, ttl, s.now)), id, t.(login := Cached))
      else End(s, id)
    case Cached =>
      End(s.(store := if ok then TouchRow(s.store, t.claims.jti, s.now) else s.store,
             handed := s.handed + {t.claims.jti}), id)
  }

  /** ValidateToken after the signature check: blacklist, Redis entry, database fallback.
      `ok` is false when the command of the step fails. */
  function DoCheck(s: State, id: nat, ok: bool, spawn: nat): State
    requires id in s.tasks && s.tasks[id].Check?
  {
    var t := s.tasks[id];
    var key := Key(t.claims.identity, t.claims.jti);
    match t.check
    case CheckBlacklist =>
      if !ok || Blacklisted(s.store, t.claims.jti, s.now) then End(s, id)
      else Continue(s, id, t.(check := ReadRedis(s.now)))
    case ReadRedis(at) =>
      if ok && GetEntry(s.store, key, s.now).Some?
      then Continue(Accepted(End(s, id), t, at), spawn, Activity(key, Reading))
      else Continue(s, id, t.(check := ReadDb(at)))
    case ReadDb(at) =>
      var row := FindRow(s.store, t.claims.jti, s.now);
      if ok && row.Some? && row.value.identity == t.claims.identity
      then Continue(Accepted(End(s, id), t, at), spawn,
                    Restore(key, Entry(row.value.lastActivity, row.value.expiresAt), Restoring))
      else End(s, id)
  }

  function Accepted(s: State, t: Task, at: Time): State
    requires t.Check?
  {
    s.(accepts := s.accepts + [Accept(t.claims, t.startedAt, at, t.afterLogout)])
  }

  /** Logout and RevokeSession: delete the key (failure ignored), find and revoke the row
      (a failed lookup is ignored, a failed update aborts), compute the TTL from two clock
      reads, then SET the blacklist key. */
  function DoLogout(cfg: Config, s: State, id: nat, ok: bool): State
    requires id in s.tasks && s.tasks[id].Logout?
  {
    var t := s.tasks[id];
    match t.logout
    case DeleteKey =>
      Continue(if ok then s.(store := DelEntry(s.store, t.key)) else s, id, t.(logout := FindSession))
    case FindSession =>
      if ok && FindRow(s.store, t.key.jti, s.now).Some?
      then Continue(s, id, t.(logout := Revoke))
      else Continue(s, id, t.(logout := Stamp))
    case Revoke =>
      if ok then Continue(s.(store := RevokeRow(s.store, t.key.jti, s.now)), id, t.(logout := Stamp))
      else End(s, id)
    case Stamp => Continue(s, id, t.(logout := Remaining(s.now + cfg.ttl)))
    case Remaining(until) => Continue(s, id, t.(logout := Blacklist(until - s.now)))
    case Blacklist(ttl) =>
      if ok
      then End(s.(store := PutBlacklist(s.store, t.key.jti, ttl, s.now),
                  loggedOut := s.loggedOut + {t.key.jti}), id)
      else End(s, id)
  }

  /** LogoutAllSessions: SCAN the keys of the identity and DEL them one by one, a failed DEL
      being ignored, then revoke the rows. It succeeds if the SCAN and the UPDATE did. */
  function DoLogoutAll(s: State, id: nat, sweep: Sweep): State
    requires id in s.tasks && s.tasks[id].LogoutAll? && CanSweep(s.tasks[id].identity, s.tasks[id].sweep, sweep)
  {
    var t := s.tasks[id];
    match sweep
    case StartScan => Continue(s, id, t.(sweep := Deleting(KeysOf(s.store, t.identity))))
    case Delete(key, ok) =>
      Continue(if ok then s.(store := DelEntry(s.store, key)) else s, id, t.(sweep := Deleting(t.sweep.left - {key})))
    case EndScan => Continue(s, id, t.(sweep := Scanned(true)))
    case AbortScan => Continue(s, id, t.(sweep := Scanned(false)))
    case UpdateRows(ok) => End(if ok then s.(store := RevokeAll(s.store, t.identity, s.now)) else s, id)
  }

  /** UpdateSessionActivity: GET, compute the TTL, then SET what was read with a new activity time. */
  function DoActivity(s: State, id: nat, ok: bool): State
    requires id in s.tasks && s.tasks[id].Activity?
  {
    var t := s.tasks[id];
    match t.activity
    case Reading =>
      var e := GetEntry(s.store, t.key, s.now);
      if ok && e.Some? then Continue(s, id, t.(activity := Read(e.value))) else End(s, id)
    case Read(e) =>
      var left := e.expiresAt - s.now;
      Timed(s, id, t.(activity := ActivityTimed(e.(lastActivity := s.now), left)), left)
    case ActivityTimed(e, ttl) =>
      End(if ok then s.(store := SetEntry(s.store, t.key, e, ttl, s.now)) else s, id)
  }

  /** restoreToRedis: compute the TTL, SET the key, then touch the row. */
  function DoRestore(s: State, id: nat, ok: bool): State
    requires id in s.tasks && s.tasks[id].Restore?
  {
    var t := s.tasks[id];
    match t.restore
    case Restoring =>
      var left := t.entry.expiresAt - s.now;
      Timed(s, id, t.(restore := RestoreTimed(left)), left)
    case RestoreTimed(ttl) =>
      if ok then Continue(s.(store := SetEntry(s.store, t.key, t.entry, ttl, s.now)), id, t.(restore := Stored))
      else End(s, id)
    case Stored =>
      End(if ok then s.(store := TouchRow(s.store, t.key.jti, s.now)) else s, id)
  }

  function Do(cfg: Config, s: State, st: Step): State
    requires Enabled(s, st)
  {
    match st
    case Tick(to) => s.(now := to)
    case BeginLogin(id, identity, jti, refresh) =>
      var c := AccessClaims(cfg, jti, identity, s.now);
      var r := Claims(refresh, identity, s.now + REFRESH_TTL, Refresh, false);
      Continue(s.(issued := s.issued[jti := c][refresh := r]), id, Login(c, Issued))
    case BeginCheck(id, c) =>
      Continue(s, id, Check(c, s.now, c.jti in s.loggedOut, CheckBlacklist))
    case BeginLogout(id, key) => Continue(s, id, Logout(key, DeleteKey))
    case BeginLogoutAll(id, identity) => Continue(s, id, LogoutAll(identity, NotScanned))
    case StepLogin(id, ok) => DoLogin(cfg, s, id, ok)
    case StepCheck(id, ok, spawn) => DoCheck(s, id, ok, spawn)
    case StepLogout(id, ok) => DoLogout(cfg, s, id, ok)
    case StepLogoutAll(id, sweep) => DoLogoutAll(s, id, sweep)
    case StepActivity(id, ok) => DoActivity(s, id, ok)
    case StepRestore(id, ok) => DoRestore(s, id, ok)
  }

  /** A run from s: every step is enabled where it is taken. */
  ghost predicate IsRun(cfg: Config, s: State, steps: seq<Step>)
    decreases |steps|
  {
    steps == [] || (Enabled(s, steps[0]) && IsRun(cfg, Do(cfg, s, steps[0]), steps[1..]))
  }

  ghost function After(cfg: Config, s: State, steps: seq<Step>): State
    requires IsRun(cfg, s, steps)
    decreases |steps|
  {
    if steps == [] then s else After(cfg, Do(cfg, s, steps[0]), steps[1..])
  }

  lemma {:induction false} AfterAppend(cfg: Config, s: State, a: seq<Step>, b: seq<Step>)
    requires IsRun(cfg, s, a) && IsRun(cfg, After(cfg, s, a), b)
    ensures IsRun(cfg, s, a + b) && After(cfg, s, a + b) == After(cfg, After(cfg, s, a), b)
    decreases |a|
  {
    if a == [] {
      assert a + b == b;
    } else {
      assert (a + b)[1..] == a[1..] + b;
      AfterAppend(cfg, Do(cfg, s, a[0]), a[1..], b);
    }
  }

  lemma OneStep(cfg: Config, s: State, st: Step)
    requires Enabled(s, st)
    ensures IsRun(cfg, s, [st]) && After(cfg, s, [st]) == Do(cfg, s, st)
  {
    assert [st][1..] == [];
  }

  /** A run can go on with any enabled step. */
  lemma Extend(cfg: Config, s: State, steps: seq<Step>, st: Step)
    requires IsRun(cfg, s, steps) && Enabled(After(cfg, s, steps), st)
    ensures IsRun(cfg, s, steps + [st]) && After(cfg, s, steps + [st]) == Do(cfg, After(cfg, s, steps), st)
  {
    OneStep(cfg, After(cfg, s, steps), st);
    AfterAppend(cfg, s, steps, [st]);
  }

  function Start(now: Time): State {
    State(now, Store(map[], map[], map[]), map[], {}, map[], {}, [])
  }

  /** Some run leads from one state to the other. */
  ghost predicate Leads(cfg: Config, s: State, t: State) {
    exists steps :: IsRun(cfg, s, steps) && After(cfg, s, steps) == t
  }

  lemma LeadsNowhere(cfg: Config, s: State)
    ensures Leads(cfg, s, s)
  {
    assert IsRun(cfg, s, []) && After(cfg, s, []) == s;
  }

  lemma LeadsOn(cfg: Config, s: State, t: State, st: Step)
    requires Leads(cfg, s, t) && Enabled(t, st)
    ensures Leads(cfg, s, Do(cfg, t, st))
  {
    var steps :| IsRun(cfg, s, steps) && After(cfg, s, steps) == t;
    Extend(cfg, s, steps, st);
  }

  lemma LeadsAlong(cfg: Config, s: State, t: State, u: State)
    requires Leads(cfg, s, t) && Leads(cfg, t, u)
    ensures Leads(cfg, s, u)
  {
    var a :| IsRun(cfg, s, a) && After(cfg, s, a) == t;
    var b :| IsRun(cfg, t, b) && After(cfg, t, b) == u;
    AfterAppend(cfg, s, a, b);
  }

  // ----- Blacklist entries outlive the tokens they name -----

  /** The blacklist entry of a token, if there is one, outlives the token. */
  ghost predicate Covers(s: State, jti: Jti, e: Expiry) {
    jti in s.issued && s.issued[jti].purpose == Access ==> e.Never? || s.issued[jti].expiresAt <= e.time
  }

  ghost predicate Outlives(s: State, jti: Jti, until: Time) {
    jti in s.issued && s.issued[jti].purpose == Access ==> s.issued[jti].expiresAt <= until
  }

  /** What each pending request knows about the token it names. */
  ghost predicate TaskInv(cfg: Config, s: State, t: Task) {
    match t
    case Login(c, _) => c.jti in s.issued && s.issued[c.jti] == c
    case Check(c, _, late, stage) =>
      && c.jti in s.handed && c.jti in s.issued && s.issued[c.jti] == c && c.purpose == Access
      && (late ==> c.jti in s.loggedOut)
      && (late && !stage.CheckBlacklist? ==> c.expiresAt <= stage.checkedAt)
    case Logout(key, Remaining(until)) => Outlives(s, key.jti, until)
    case Logout(key, Blacklist(ttl)) => Outlives(s, key.jti, s.now + ttl)
    case _ => true
  }

  ghost predicate Inv(cfg: Config, s: State) {
    && (forall j :: j in s.issued && s.issued[j].purpose == Access ==> s.issued[j].expiresAt <= s.now + cfg.ttl)
    && (forall j :: j in s.store.blacklist ==> Covers(s, j, s.store.blacklist[j]))
    && (forall j :: j in s.loggedOut ==> j in s.store.blacklist)
    && (forall i :: i in s.tasks ==> TaskInv(cfg, s, s.tasks[i]))
    && (forall k :: 0 <= k < |s.accepts| ==> LateOnlyAfterExpiry(s.accepts[k]))
  }

  /** An acceptance after logout can only be one whose blacklist read came at or after the
      token's own expiry, that is, later than the clock value the token was verified with. */
  predicate LateOnlyAfterExpiry(a: Accept) {
    a.afterLogout ==> a.claims.expiresAt <= a.checkedAt
  }

  /** The state may move on as long as no pending logout is about a newly issued token. */
  ghost predicate Grows(cfg: Config, s: State, s': State) {
    && s.now <= s'.now
    && s.loggedOut <= s'.loggedOut && s.handed <= s'.handed
    && (forall j :: j in s.issued ==> j in s'.issued && s'.issued[j] == s.issued[j])
    && (forall j :: j in s'.issued && j !in s.issued ==> Fresh(s, j))
  }

  lemma TaskInvGrows(cfg: Config, s: State, s': State, t: Task)
    requires Grows(cfg, s, s') && TaskInv(cfg, s, t)
    requires t.Logout? ==> exists i :: i in s.tasks && s.tasks[i] == t
    ensures TaskInv(cfg, s', t)
  {
  }

  lemma InvFrame(cfg: Config, s: State, s': State, id: nat, spawn: nat)
    requires Inv(cfg, s) && Grows(cfg, s, s')
    requires forall i :: i in s'.tasks && i != id && i != spawn ==> i in s.tasks && s'.tasks[i] == s.tasks[i]
    requires id in s'.tasks ==> TaskInv(cfg, s', s'.tasks[id])
    requires spawn in s'.tasks ==> TaskInv(cfg, s', s'.tasks[spawn])
    requires forall j :: j in s'.issued && s'.issued[j].purpose == Access ==>
      s'.issued[j].expiresAt <= s'.now + cfg.ttl
    requires forall j :: j in s'.store.blacklist ==> Covers(s', j, s'.store.blacklist[j])
    requires forall j :: j in s'.loggedOut ==> j in s'.store.blacklist
    requires forall k :: 0 <= k < |s'.accepts| ==> LateOnlyAfterExpiry(s'.accepts[k])
    ensures Inv(cfg, s')
  {
    forall i | i in s'.tasks ensures TaskInv(cfg, s', s'.tasks[i]) {
      if i != id && i != spawn { TaskInvGrows(cfg, s, s', s.tasks[i]); }
    }
  }

  /** What a check leaves alone, and what it knows once it is past the blacklist. */
  lemma CheckGrows(cfg: Config, s: State, id: nat, ok: bool, spawn: nat)
    requires Inv(cfg, s) && Enabled(s, StepCheck(id, ok, spawn))
    ensures var s' := DoCheck(s, id, ok, spawn);
            && Grows(cfg, s, s') && s'.issued == s.issued && s'.store == s.store
            && s'.now == s.now && s'.loggedOut == s.loggedOut
            && (forall i :: i in s'.tasks && i != id && i != spawn ==> i in s.tasks && s'.tasks[i] == s.tasks[i])
            && (id in s'.tasks ==> TaskInv(cfg, s', s'.tasks[id]))
            && (spawn in s'.tasks ==> TaskInv(cfg, s', s'.tasks[spawn]))
  {
    assert TaskInv(cfg, s, s.tasks[id]);
    var t := s.tasks[id];
    if t.check.CheckBlacklist? && t.afterLogout {
      assert Covers(s, t.claims.jti, s.store.blacklist[t.claims.jti]);
    }
  }

  lemma CheckAnswers(cfg: Config, s: State, id: nat, ok: bool, spawn: nat)
    requires Inv(cfg, s) && Enabled(s, StepCheck(id, ok, spawn))
    ensures var s' := DoCheck(s, id, ok, spawn);
            forall k :: 0 <= k < |s'.accepts| ==> LateOnlyAfterExpiry(s'.accepts[k])
  {
    assert TaskInv(cfg, s, s.tasks[id]);
  }

  lemma InvCheckStep(cfg: Config, s: State, id: nat, ok: bool, spawn: nat)
    requires Inv(cfg, s) && Enabled(s, StepCheck(id, ok, spawn))
    ensures Inv(cfg, DoCheck(s, id, ok, spawn))
  {
    CheckGrows(cfg, s, id, ok, spawn);
    CheckAnswers(cfg, s, id, ok, spawn);
    InvFrame(cfg, s, DoCheck(s, id, ok, spawn), id, spawn);
  }

  lemma InvLogoutStep(cfg: Config, s: State, id: nat, ok: bool)
    requires Inv(cfg, s) && Enabled(s, StepLogout(id, ok))
    ensures Inv(cfg, DoLogout(cfg, s, id, ok))
  {
    assert TaskInv(cfg, s, s.tasks[id]);
    var s' := DoLogout(cfg, s, id, ok);
    assert id in s'.tasks ==> TaskInv(cfg, s', s'.tasks[id]);
    InvFrame(cfg, s, s', id, id);
  }

  lemma InvBeginLogin(cfg: Config, s: State, st: Step)
    requires Inv(cfg, s) && Enabled(s, st) && st.BeginLogin?
    ensures Inv(cfg, Do(cfg, s, st))
  {
    InvFrame(cfg, s, Do(cfg, s, st), st.id, st.id);
  }

  /** A login leaves the blacklist, the answers and what is issued alone. */
  lemma LoginGrows(cfg: Config, s: State, id: nat, ok: bool)
    requires Enabled(s, StepLogin(id, ok)) && TaskInv(cfg, s, s.tasks[id])
    ensures var s' := DoLogin(cfg, s, id, ok);
            && Grows(cfg, s, s') && s'.issued == s.issued && s'.store.blacklist == s.store.blacklist
            && s'.now == s.now && s'.loggedOut == s.loggedOut && s'.accepts == s.accepts
            && (forall i :: i in s'.tasks && i != id ==> i in s.tasks && s'.tasks[i] == s.tasks[i])
            && (id in s'.tasks ==> TaskInv(cfg, s', s'.tasks[id]))
  {
  }

  lemma InvLoginStep(cfg: Config, s: State, id: nat, ok: bool)
    requires Inv(cfg, s) && Enabled(s, StepLogin(id, ok))
    ensures Inv(cfg, DoLogin(cfg, s, id, ok))
  {
    assert TaskInv(cfg, s, s.tasks[id]);
    LoginGrows(cfg, s, id, ok);
    InvFrame(cfg, s, DoLogin(cfg, s, id, ok), id, id);
  }

  lemma WriterGrows(cfg: Config, s: State, st: Step)
    requires Enabled(s, st) && (st.StepActivity? || st.StepRestore? || st.StepLogoutAll?)
    ensures var s' := Do(cfg, s, st);
            && Grows(cfg, s, s') && s'.issued == s.issued && s'.store.blacklist == s.store.blacklist
            && s'.now == s.now && s'.loggedOut == s.loggedOut && s'.accepts == s.accepts
            && (forall i :: i in s'.tasks && i != st.id ==> i in s.tasks && s'.tasks[i] == s.tasks[i])
            && (st.id in s'.tasks ==> TaskInv(cfg, s', s'.tasks[st.id]))
  {
  }

  lemma InvWriterStep(cfg: Config, s: State, st: Step)
    requires Inv(cfg, s) && Enabled(s, st)
    requires st.StepActivity? || st.StepRestore? || st.StepLogoutAll?
    ensures Inv(cfg, Do(cfg, s, st))
  {
    WriterGrows(cfg, s, st);
    InvFrame(cfg, s, Do(cfg, s, st), st.id, st.id);
  }

  lemma InvStep(cfg: Config, s: State, st: Step)
    requires Inv(cfg, s) && Enabled(s, st)
    ensures Inv(cfg, Do(cfg, s, st))
  {
    match st
    case BeginLogin(_, _, _, _) => InvBeginLogin(cfg, s, st);
    case StepLogin(id, ok) => InvLoginStep(cfg, s, id, ok);
    case StepCheck(id, ok, spawn) => InvCheckStep(cfg, s, id, ok, spawn);
    case StepLogout(id, ok) => InvLogoutStep(cfg, s, id, ok);
    case Tick(_) => InvFrame(cfg, s, Do(cfg, s, st), 0, 0);
    case BeginCheck(id, c) => InvFrame(cfg, s, Do(cfg, s, st), id, id);
    case BeginLogout(id, _) => InvFrame(cfg, s, Do(cfg, s, st), id, id);
    case BeginLogoutAll(id, _) => InvFrame(cfg, s, Do(cfg, s, st), id, id);
    case _ => InvWriterStep(cfg, s, st);
  }

  lemma {:induction false} InvRun(cfg: Config, s: State, steps: seq<Step>)
    requires Inv(cfg, s) && IsRun(cfg, s, steps)
    ensures Inv(cfg, After(cfg, s, steps))
    decreases |steps|
  {
    if steps != [] {
      InvStep(cfg, s, steps[0]);
      InvRun(cfg, Do(cfg, s, steps[0]), steps[1..]);
    }
  }

  /** In every run whatsoever, a check that starts after Logout or RevokeSession of its token has
      returned accepts the token only if the token's expiry passed between its signature check
      and its blacklist read. */
  lemma LateAcceptsOutliveToken(cfg: Config, now: Time, steps: seq<Step>, k: nat)
    requires IsRun(cfg, Start(now), steps)
    requires k < |After(cfg, Start(now), steps).accepts|
    ensures var a := After(cfg, Start(now), steps).accepts[k];
            a.afterLogout ==> a.startedAt < a.claims.expiresAt <= a.checkedAt
  {
    AcceptsWereVerified(cfg, Start(now), steps);
    var a := After(cfg, Start(now), steps).accepts[k];
    assert GoodClaims(a.claims, a.startedAt);
    InvRun(cfg, Start(now), steps);
    assert LateOnlyAfterExpiry(After(cfg, Start(now), steps).accepts[k]);
  }

  /** In particular a check that verifies the token and reads the blacklist at one clock value never
      accepts the token after its logout, however long the logout's and the writers' commands take. */
  lemma PromptChecksAreNeverLate(cfg: Config, now: Time, steps: seq<Step>, k: nat)
    requires IsRun(cfg, Start(now), steps)
    requires k < |After(cfg, Start(now), steps).accepts|
    requires var a := After(cfg, Start(now), steps).accepts[k]; a.startedAt == a.checkedAt
    ensures !After(cfg, Start(now), steps).accepts[k].afterLogout
  {
    LateAcceptsOutliveToken(cfg, now, steps, k);
  }

  // ----- What an acceptance implies -----

  ghost predicate VerifiedInv(s: State) {
    && (forall i :: i in s.tasks && s.tasks[i].Check? ==> GoodClaims(s.tasks[i].claims, s.tasks[i].startedAt))
    && (forall k :: 0 <= k < |s.accepts| ==> GoodClaims(s.accepts[k].claims, s.accepts[k].startedAt))
  }

  /** An access token, not a temporary one, unexpired at the time. */
  predicate GoodClaims(c: Claims, at: Time) {
    at < c.expiresAt && c.purpose == Access && !c.temp
  }

  lemma {:induction false} AcceptsWereVerified(cfg: Config, s: State, steps: seq<Step>)
    requires VerifiedInv(s) && IsRun(cfg, s, steps)
    ensures VerifiedInv(After(cfg, s, steps))
    decreases |steps|
  {
    if steps != [] { AcceptsWereVerified(cfg, Do(cfg, s, steps[0]), steps[1..]); }
  }

  // ----- The database status is monotone -----

  /** Only the login that owns a token inserts its row, and it does so once, before it answers. */
  ghost predicate RowsIssued(s: State) {
    && (forall j :: j in s.store.rows ==> j in s.issued && s.store.rows[j].identity == s.issued[j].identity)
    && (forall j :: j in s.handed ==> j in s.store.rows)
    && (forall i :: i in s.tasks && s.tasks[i].Login? ==> OwnsRow(s, s.tasks[i]))
    && (forall i, k :: i in s.tasks && k in s.tasks && s.tasks[i].Login? && s.tasks[k].Login? && i != k ==>
         s.tasks[i].claims.jti != s.tasks[k].claims.jti)
  }

  ghost predicate OwnsRow(s: State, t: Task)
    requires t.Login?
  {
    && t.claims.jti in s.issued && s.issued[t.claims.jti] == t.claims
    && (t.login.Issued? || t.login.Stamped? <==> t.claims.jti !in s.store.rows)
  }

  /** A login inserts its own row at most, and answers only with its row inserted. */
  ghost predicate LoginTouches(s: State, s': State, id: nat)
    requires id in s.tasks && s.tasks[id].Login?
  {
    var c := s.tasks[id].claims;
    && s'.issued == s.issued
    && (forall j :: j in s'.store.rows && j !in s.store.rows ==> j == c.jti && s'.store.rows[j].identity == c.identity)
    && (forall j :: j in s'.handed ==> j in s.handed || (j == c.jti && j in s'.store.rows))
    && (forall i :: i in s'.tasks && i != id ==> i in s.tasks && s'.tasks[i] == s.tasks[i])
    && (id in s'.tasks ==> s'.tasks[id].Login? && s'.tasks[id].claims == c && OwnsRow(s', s'.tasks[id]))
  }

  lemma LoginOwnsRow(cfg: Config, s: State, id: nat, ok: bool)
    requires RowsIssued(s) && Enabled(s, StepLogin(id, ok))
    ensures LoginTouches(s, DoLogin(cfg, s, id, ok), id)
    ensures StatusMonotone(s.store, DoLogin(cfg, s, id, ok).store)
  {
    assert OwnsRow(s, s.tasks[id]);
  }

  lemma LoginFrame(s: State, s': State, id: nat)
    requires RowsIssued(s) && id in s.tasks && s.tasks[id].Login? && LoginTouches(s, s', id)
    requires StatusMonotone(s.store, s'.store)
    ensures RowsIssued(s')
  {
    assert OwnsRow(s, s.tasks[id]);
    forall i | i in s'.tasks && s'.tasks[i].Login? ensures OwnsRow(s', s'.tasks[i]) {
      if i != id { assert OwnsRow(s, s.tasks[i]); }
    }
  }

  lemma RowsLogin(cfg: Config, s: State, id: nat, ok: bool)
    requires RowsIssued(s) && Enabled(s, StepLogin(id, ok))
    ensures RowsIssued(DoLogin(cfg, s, id, ok))
    ensures StatusMonotone(s.store, DoLogin(cfg, s, id, ok).store)
  {
    LoginOwnsRow(cfg, s, id, ok);
    LoginFrame(s, DoLogin(cfg, s, id, ok), id);
  }

  /** A step that starts no login and inserts no row. */
  lemma RowsFrame(s: State, s': State)
    requires RowsIssued(s) && s'.issued == s.issued && s'.handed == s.handed
    requires s'.store.rows.Keys == s.store.rows.Keys && StatusMonotone(s.store, s'.store)
    requires forall i :: i in s'.tasks && s'.tasks[i].Login? ==> i in s.tasks && s'.tasks[i] == s.tasks[i]
    ensures RowsIssued(s')
  {
    forall i | i in s'.tasks && s'.tasks[i].Login? ensures OwnsRow(s', s'.tasks[i]) {
      assert OwnsRow(s, s.tasks[i]);
    }
  }

  lemma RowsBeginLogin(cfg: Config, s: State, st: Step)
    requires RowsIssued(s) && Enabled(s, st) && st.BeginLogin?
    ensures RowsIssued(Do(cfg, s, st))
    ensures StatusMonotone(s.store, Do(cfg, s, st).store)
  {
    var s' := Do(cfg, s, st);
    forall i | i in s'.tasks && s'.tasks[i].Login? ensures OwnsRow(s', s'.tasks[i]) {
      if i != st.id { assert OwnsRow(s, s.tasks[i]); }
    }
  }

  lemma RowsLogout(cfg: Config, s: State, id: nat, ok: bool)
    requires RowsIssued(s) && Enabled(s, StepLogout(id, ok))
    ensures RowsIssued(DoLogout(cfg, s, id, ok))
    ensures StatusMonotone(s.store, DoLogout(cfg, s, id, ok).store)
  {
    RowsFrame(s, DoLogout(cfg, s, id, ok));
  }

  lemma RowsOther(cfg: Config, s: State, st: Step)
    requires RowsIssued(s) && Enabled(s, st)
    requires !st.StepLogin? && !st.BeginLogin? && !st.StepCheck? && !st.StepLogout?
    ensures RowsIssued(Do(cfg, s, st))
    ensures StatusMonotone(s.store, Do(cfg, s, st).store)
  {
    RowsFrame(s, Do(cfg, s, st));
  }

  lemma RowsStep(cfg: Config, s: State, st: Step)
    requires RowsIssued(s) && Enabled(s, st)
    ensures RowsIssued(Do(cfg, s, st))
    ensures StatusMonotone(s.store, Do(cfg, s, st).store)
  {
    match st
    case StepLogin(id, ok) => RowsLogin(cfg, s, id, ok);
    case BeginLogin(_, _, _, _) => RowsBeginLogin(cfg, s, st);
    case StepCheck(id, ok, spawn) => RowsFrame(s, DoCheck(s, id, ok, spawn));
    case StepLogout(id, ok) => RowsLogout(cfg, s, id, ok);
    case _ => RowsOther(cfg, s, st);
  }

  lemma {:induction false} RowsRun(cfg: Config, s: State, steps: seq<Step>)
    requires RowsIssued(s) && IsRun(cfg, s, steps)
    ensures RowsIssued(After(cfg, s, steps))
    ensures StatusMonotone(s.store, After(cfg, s, steps).store)
    decreases |steps|
  {
    if steps != [] {
      RowsStep(cfg, s, steps[0]);
      RowsRun(cfg, Do(cfg, s, steps[0]), steps[1..]);
    }
  }

  ghost predicate Reachable(cfg: Config, s: State) {
    exists now: Time :: Leads(cfg, Start(now), s)
  }

  lemma ReachableInv(cfg: Config, s: State)
    requires Reachable(cfg, s)
    ensures Inv(cfg, s) && RowsIssued(s)
  {
    var now: Time :| Leads(cfg, Start(now), s);
    var steps :| IsRun(cfg, Start(now), steps) && After(cfg, Start(now), steps) == s;
    InvRun(cfg, Start(now), steps);
    RowsRun(cfg, Start(now), steps);
  }

  lemma ReachableOn(cfg: Config, s: State, t: State)
    requires Reachable(cfg, s) && Leads(cfg, s, t)
    ensures Reachable(cfg, t)
  {
    var now: Time :| Leads(cfg, Start(now), s);
    LeadsAlong(cfg, Start(now), s, t);
  }

  /** Whatever runs next, no row disappears and no revoked row becomes active again. */
  lemma RevokedStaysRevoked(cfg: Config, s: State, steps: seq<Step>)
    requires Reachable(cfg, s) && IsRun(cfg, s, steps)
    ensures StatusMonotone(s.store, After(cfg, s, steps).store)
  {
    ReachableInv(cfg, s);
    RowsRun(cfg, s, steps);
  }

  // ----- What a step leaves alone -----

  /** The token whose session a task works on; a sweep works on an identity instead. */
  function TokenOf(t: Task): Option<Jti> {
    match t
    case Login(c, _) => Some(c.jti)
    case Check(c, _, _, _) => Some(c.jti)
    case Logout(key, _) => Some(key.jti)
    case Activity(key, _) => Some(key.jti)
    case Restore(key, _, _) => Some(key.jti)
    case LogoutAll(_, _) => None
  }

  /** Row, session keys and blacklist entry of the token are the same. */
  ghost predicate SameSession(a: Store, b: Store, j: Jti) {
    && (j in a.rows <==> j in b.rows) && (j in a.rows ==> a.rows[j] == b.rows[j])
    && (forall k: Key :: k.jti == j ==> (k in a.redis <==> k in b.redis) && (k in a.redis ==> a.redis[k] == b.redis[k]))
    && (j in a.blacklist <==> j in b.blacklist) && (j in a.blacklist ==> a.blacklist[j] == b.blacklist[j])
  }

  lemma OtherTokensAtLogin(cfg: Config, s: State, id: nat, ok: bool, j: Jti)
    requires Enabled(s, StepLogin(id, ok)) && TokenOf(s.tasks[id]) != Some(j)
    ensures SameSession(s.store, DoLogin(cfg, s, id, ok).store, j)
  {
  }

  lemma OtherTokensAtLogout(cfg: Config, s: State, id: nat, ok: bool, j: Jti)
    requires Enabled(s, StepLogout(id, ok)) && TokenOf(s.tasks[id]) != Some(j)
    ensures SameSession(s.store, DoLogout(cfg, s, id, ok).store, j)
  {
  }

  /** A step of a login, check, logout or writer changes nothing of another token's session. */
  lemma OtherTokensStay(cfg: Config, s: State, st: Step, j: Jti)
    requires Enabled(s, st) && !st.StepLogoutAll?
    requires !st.Tick? && st.id in s.tasks ==> TokenOf(s.tasks[st.id]) != Some(j)
    ensures SameSession(s.store, Do(cfg, s, st).store, j)
  {
    match st
    case StepLogin(id, ok) => OtherTokensAtLogin(cfg, s, id, ok, j);
    case StepLogout(id, ok) => OtherTokensAtLogout(cfg, s, id, ok, j);
    case _ =>
  }

  /** No step of the run is about the token or sweeps its identity. */
  ghost predicate LeavesAlone(cfg: Config, s: State, steps: seq<Step>, j: Jti, identity: int)
    requires IsRun(cfg, s, steps)
    decreases |steps|
  {
    steps == [] ||
    (&& (!steps[0].Tick? && steps[0].id in s.tasks ==>
          var t := s.tasks[steps[0].id]; if t.LogoutAll? then t.identity != identity else TokenOf(t) != Some(j))
     && LeavesAlone(cfg, Do(cfg, s, steps[0]), steps[1..], j, identity))
  }

  /** Whatever else runs, a session that nobody names stays as it is: row, entry under its key and
      blacklist entry. */
  lemma {:induction false} OthersRunBeside(cfg: Config, s: State, steps: seq<Step>, j: Jti, identity: int)
    requires IsRun(cfg, s, steps) && LeavesAlone(cfg, s, steps, j, identity)
    requires j in s.store.rows ==> s.store.rows[j].identity == identity
    ensures SameKept(s.store, After(cfg, s, steps).store, j, identity)
    decreases |steps|
  {
    if steps != [] {
      var st := steps[0];
      if st.StepLogoutAll? { OtherIdentitiesStay(cfg, s, st.id, st.sweep); } else { OtherTokensStay(cfg, s, st, j); }
      OthersRunBeside(cfg, Do(cfg, s, st), steps[1..], j, identity);
    }
  }

  ghost predicate SameKept(a: Store, b: Store, j: Jti, identity: int) {
    var key := Key(identity, j);
    && (j in a.rows <==> j in b.rows) && (j in a.rows ==> a.rows[j] == b.rows[j])
    && (key in a.redis <==> key in b.redis) && (key in a.redis ==> a.redis[key] == b.redis[key])
    && (j in a.blacklist <==> j in b.blacklist) && (j in a.blacklist ==> a.blacklist[j] == b.blacklist[j])
  }

  /** A step of LogoutAllSessions changes no row and no session key of another identity, and no blacklist
      entry. Its UPDATE revokes exactly the active rows of its identity. */
  lemma OtherIdentitiesStay(cfg: Config, s: State, id: nat, sweep: Sweep)
    requires Enabled(s, StepLogoutAll(id, sweep))
    ensures var a, b, identity := s.store, DoLogoutAll(s, id, sweep).store, s.tasks[id].identity;
            && b.blacklist == a.blacklist && b.rows.Keys == a.rows.Keys
            && (forall j :: j in a.rows && a.rows[j].identity != identity ==> b.rows[j] == a.rows[j])
            && (forall k: Key :: k.identity != identity ==>
                 (k in a.redis <==> k in b.redis) && (k in a.redis ==> a.redis[k] == b.redis[k]))
    ensures sweep == UpdateRows(true) ==>
      var a, b := s.store, DoLogoutAll(s, id, sweep).store;
      forall j :: j in a.rows && a.rows[j].identity == s.tasks[id].identity ==>
        var row := a.rows[j];
        b.rows[j] == if row.status == Active
                     then Row(row.identity, Revoked, row.lastActivity, row.expiresAt, Some(s.now)) else row
  {
  }
}
