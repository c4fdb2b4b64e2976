/** LogoutAllSessions does not blacklist. Once its UPDATE has revoked the rows, a token of the identity
    stays refused exactly when no live Redis entry of it is left and no pending task can write one. */
module LogoutAllFinality {
  import opened Common
  import opened SessionStore
  import opened SessionProtocol
  import opened SessionRevival

  /** The UPDATE of a logout of all sessions comes next. */
  predicate AtUpdate(s: State, id: nat, identity: int) {
    id in s.tasks && s.tasks[id].LogoutAll? && s.tasks[id].identity == identity && s.tasks[id].sweep.Scanned?
  }

  function Updated(s: State, id: nat, identity: int): State
    requires AtUpdate(s, id, identity)
  {
    DoLogoutAll(s, id, UpdateRows(true))
  }

  /** The UPDATE revokes the rows and leaves entries and writers as they are. */
  lemma UpdateRevokes(cfg: Config, s: State, id: nat, identity: int, j: Jti)
    requires Sound(cfg, s) && AtUpdate(s, id, identity) && j in s.issued && s.issued[j].identity == identity
    ensures var done := Updated(s, id, identity);
            done.issued == s.issued && (Revivable(done, j) <==> Revivable(s, j)) && RowOver(done, j)
  {
    var done := Updated(s, id, identity);
    assert forall i :: i in s.tasks && Revives(s.tasks[i], s.issued[j], s.now) ==> i in done.tasks;
  }

  /** With no live entry and no pending writer of the token left at the UPDATE, nothing that runs
      afterwards accepts the token, not even a check already under way. */
  lemma LogoutAllIsFinal(cfg: Config, s: State, id: nat, identity: int, j: Jti)
    requires Reachable(cfg, s) && AtUpdate(s, id, identity)
    requires j in s.issued && s.issued[j].identity == identity && !Revivable(s, j)
    ensures NeverAccepted(cfg, Updated(s, id, identity), j)
  {
    ReachableIsSound(cfg, s);
    UpdateRevokes(cfg, s, id, identity, j);
    SoundStep(cfg, s, StepLogoutAll(id, UpdateRows(true)));
    DeadIsNeverAccepted(cfg, Updated(s, id, identity), j);
  }

  /** Of a token that verifies and is not blacklisted this is exact: any live entry, and any pending
      writer, lets a later check accept it. */
  lemma LogoutAllFinalExactly(cfg: Config, s: State, id: nat, identity: int, j: Jti)
    requires Reachable(cfg, s) && AtUpdate(s, id, identity)
    requires Usable(s, j) && s.issued[j].identity == identity
    ensures NeverAccepted(cfg, Updated(s, id, identity), j) <==> !Revivable(s, j)
  {
    if Revivable(s, j) {
      ReachableIsSound(cfg, s);
      UpdateRevokes(cfg, s, id, identity, j);
      SoundStep(cfg, s, StepLogoutAll(id, UpdateRows(true)));
      RevivableIsAccepted(cfg, Updated(s, id, identity), j);
    } else {
      LogoutAllIsFinal(cfg, s, id, identity, j);
    }
  }

  /** A revivable token is accepted by a check that begins at once. */
  lemma RevivableIsAccepted(cfg: Config, s: State, j: Jti)
    requires Sound(cfg, s) && Usable(s, j) && Revivable(s, j)
    ensures !NeverAccepted(cfg, s, j)
  {
    ComesAlive(cfg, s, j);
    var t :| Onward(cfg, s, t) && Sound(cfg, t) && Alive(t, j);
    AliveIsAccepted(cfg, s, t, j);
  }

  lemma AliveIsAccepted(cfg: Config, s: State, t: State, j: Jti)
    requires Onward(cfg, s, t) && Usable(t, j) && Alive(t, j) && t.issued[j].jti == j
    ensures !NeverAccepted(cfg, s, j)
  {
    var n := FreshIds(t.tasks.Keys);
    LiveEntryIsAccepted(cfg, t, j, n, n + 1);
    var u := Hit(t, j, n + 1);
    LeadsAlong(cfg, s, t, u);
    assert u.accepts[|s.accepts|].claims.jti == j;
    assert !NoneAccepted(s, u, j);
  }

  // ----- A sweep in which every DEL succeeds -----

  /** A task that may still SET a session key of the identity. */
  predicate Writes(t: Task, identity: int) {
    match t
    case Login(c, stage) => c.identity == identity && !stage.Cached?
    case Activity(key, _) => key.identity == identity
    case Restore(key, _, stage) => key.identity == identity && !stage.Stored?
    case _ => false
  }

  ghost predicate Quiet(s: State, identity: int) {
    forall i :: i in s.tasks ==> !Writes(s.tasks[i], identity)
  }

  ghost predicate NoEntries(s: State, identity: int) {
    forall k :: k in s.store.redis ==> k.identity != identity
  }

  /** While the logout runs, no writer of the identity is pending and none of its DELs fails. */
  ghost predicate CleanRun(cfg: Config, s: State, steps: seq<Step>, id: nat, identity: int)
    decreases |steps|
  {
    && Quiet(s, identity) && id in s.tasks && s.tasks[id].LogoutAll? && s.tasks[id].identity == identity
    && (steps != [] ==>
          && Enabled(s, steps[0]) && !FailedDelete(steps[0], id)
          && CleanRun(cfg, Do(cfg, s, steps[0]), steps[1..], id, identity))
  }

  predicate FailedDelete(st: Step, id: nat) {
    st.StepLogoutAll? && st.id == id && st.sweep.Delete? && !st.sweep.ok
  }

  /** The entries of the identity are among those the SCAN still has to return. */
  ghost predicate Swept(s: State, id: nat, identity: int)
    requires id in s.tasks && s.tasks[id].LogoutAll?
  {
    match s.tasks[id].sweep
    case NotScanned => true
    case Deleting(left) => forall k :: k in s.store.redis && k.identity == identity ==> k in left
    case Scanned(complete) => complete ==> NoEntries(s, identity)
  }

  lemma OwnSweepStep(cfg: Config, s: State, sweep: Sweep, id: nat, identity: int)
    requires Enabled(s, StepLogoutAll(id, sweep)) && s.tasks[id].identity == identity && Swept(s, id, identity)
    requires !FailedDelete(StepLogoutAll(id, sweep), id) && !sweep.UpdateRows?
    ensures Swept(DoLogoutAll(s, id, sweep), id, identity)
  {
  }

  lemma NoNewEntries(cfg: Config, s: State, st: Step, identity: int)
    requires Quiet(s, identity) && Enabled(s, st)
    ensures forall k :: k in Do(cfg, s, st).store.redis && k.identity == identity ==> k in s.store.redis
  {
    if !st.Tick? && st.id in s.tasks { assert !Writes(s.tasks[st.id], identity); }
  }

  /** The step of another task leaves the sweep where it is. */
  lemma SweepStays(cfg: Config, s: State, st: Step, id: nat)
    requires id in s.tasks && s.tasks[id].LogoutAll? && Enabled(s, st) && !(st.StepLogoutAll? && st.id == id)
    ensures id in Do(cfg, s, st).tasks && Do(cfg, s, st).tasks[id] == s.tasks[id]
  {
  }

  lemma OtherSweepStep(s: State, s': State, id: nat, identity: int)
    requires id in s.tasks && s.tasks[id].LogoutAll? && Swept(s, id, identity)
    requires id in s'.tasks && s'.tasks[id] == s.tasks[id]
    requires forall k :: k in s'.store.redis && k.identity == identity ==> k in s.store.redis
    ensures Swept(s', id, identity)
  {
  }

  /** Without a writer, no step but this logout's touches the entries of the identity. */
  lemma SweptStep(cfg: Config, s: State, st: Step, id: nat, identity: int)
    requires Quiet(s, identity) && id in s.tasks && s.tasks[id].LogoutAll? && s.tasks[id].identity == identity
    requires Swept(s, id, identity) && Enabled(s, st) && !FailedDelete(st, id)
    requires id in Do(cfg, s, st).tasks && Do(cfg, s, st).tasks[id].LogoutAll?
    ensures Swept(Do(cfg, s, st), id, identity)
  {
    if st.StepLogoutAll? && st.id == id {
      OwnSweepStep(cfg, s, st.sweep, id, identity);
    } else {
      NoNewEntries(cfg, s, st, identity);
      SweepStays(cfg, s, st, id);
      OtherSweepStep(s, Do(cfg, s, st), id, identity);
    }
  }

  lemma {:induction false} CleanSweep(cfg: Config, s: State, steps: seq<Step>, id: nat, identity: int)
    requires CleanRun(cfg, s, steps, id, identity) && Swept(s, id, identity)
    ensures IsRun(cfg, s, steps) && CleanRun(cfg, After(cfg, s, steps), [], id, identity)
    ensures Swept(After(cfg, s, steps), id, identity)
    decreases |steps|
  {
    if steps != [] {
      SweptStep(cfg, s, steps[0], id, identity);
      CleanSweep(cfg, Do(cfg, s, steps[0]), steps[1..], id, identity);
    }
  }

  /** LogoutAllSessions whose SCAN completes, whose DELs and UPDATE succeed, and beside which no
      login or background write of the identity is pending, is final for every token of it. */
  lemma CleanLogoutAllIsFinal(cfg: Config, s: State, id: nat, identity: int, sweep: seq<Step>, j: Jti)
    requires Reachable(cfg, s) && CleanRun(cfg, s, sweep, id, identity) && s.tasks[id].sweep.NotScanned?
    requires IsRun(cfg, s, sweep)
    requires var r := After(cfg, s, sweep);
             && id in r.tasks && r.tasks[id] == LogoutAll(identity, Scanned(true))
             && j in r.issued && r.issued[j].identity == identity
    ensures NeverAccepted(cfg, Updated(After(cfg, s, sweep), id, identity), j)
  {
    var r := After(cfg, s, sweep);
    CleanSweep(cfg, s, sweep, id, identity);
    ReachableOn(cfg, s, r);
    ReachableIsSound(cfg, r);
    forall i | i in r.tasks ensures !Revives(r.tasks[i], r.issued[j], r.now) {
      assert TaskInv(cfg, r, r.tasks[i]) && !Writes(r.tasks[i], identity);
    }
    LogoutAllIsFinal(cfg, r, id, identity, j);
  }

  // ----- What is left behind can be accepted -----

  /** The state in which a check of a live token ends that began in s. */
  function Hit(s: State, j: Jti, spawn: nat): State
    requires j in s.issued
  {
    var c := s.issued[j];
    s.(accepts := s.accepts + [Accept(c, s.now, s.now, j in s.loggedOut)],
       tasks := s.tasks[spawn := Activity(KeyOf(c), Reading)])
  }

  lemma LiveEntryIsAccepted(cfg: Config, s: State, j: Jti, check: nat, spawn: nat)
    requires Usable(s, j) && Alive(s, j) && s.issued[j].jti == j
    requires check !in s.tasks && spawn !in s.tasks && spawn != check
    ensures Leads(cfg, s, Hit(s, j, spawn))
  {
    var c := s.issued[j];
    var s1 := Do(cfg, s, BeginCheck(check, c));
    var s2 := Do(cfg, s1, StepCheck(check, true, spawn));
    var s3 := Do(cfg, s2, StepCheck(check, true, spawn));
    LeadsNowhere(cfg, s);
    LeadsOn(cfg, s, s, BeginCheck(check, c));
    LeadsOn(cfg, s, s1, StepCheck(check, true, spawn));
    LeadsOn(cfg, s, s2, StepCheck(check, true, spawn));
    assert s3 == Hit(s, j, spawn);
  }

  /** The rest of a logout of all sessions whose last DEL fails. */
  function LastDeleteFails(s: State, id: nat, key: Key): State
    requires id in s.tasks && s.tasks[id] == LogoutAll(key.identity, Deleting({key}))
  {
    var s1 := DoLogoutAll(s, id, Delete(key, false));
    var s2 := DoLogoutAll(s1, id, EndScan);
    DoLogoutAll(s2, id, UpdateRows(true))
  }

  /** LogoutAllSessions whose last DEL fails reports success and leaves a token that can be accepted. */
  lemma FailedDeleteIsNotFinal(cfg: Config, s: State, id: nat, j: Jti)
    requires Reachable(cfg, s) && Usable(s, j)
    requires GetEntry(s.store, KeyOf(s.issued[j]), s.now).Some?
    requires id in s.tasks && s.tasks[id] == LogoutAll(s.issued[j].identity, Deleting({KeyOf(s.issued[j])}))
    ensures Leads(cfg, s, LastDeleteFails(s, id, KeyOf(s.issued[j])))
    ensures !NeverAccepted(cfg, LastDeleteFails(s, id, KeyOf(s.issued[j])), j)
  {
    var key := KeyOf(s.issued[j]);
    var s1 := DoLogoutAll(s, id, Delete(key, false));
    var s2 := DoLogoutAll(s1, id, EndScan);
    LeadsNowhere(cfg, s);
    LeadsOn(cfg, s, s, StepLogoutAll(id, Delete(key, false)));
    LeadsOn(cfg, s, s1, StepLogoutAll(id, EndScan));
    LeadsOn(cfg, s, s2, StepLogoutAll(id, UpdateRows(true)));
    ReachableOn(cfg, s, s2);
    LogoutAllFinalExactly(cfg, s2, id, key.identity, j);
  }

  /** So does one whose DELs all succeed while an activity update is past its GET or a restore is
      before its SET; of a usable token either is still about to write. */
  lemma PendingWriteIsNotFinal(cfg: Config, s: State, id: nat, j: Jti, writer: nat)
    requires Reachable(cfg, s) && Usable(s, j) && AtUpdate(s, id, s.issued[j].identity)
    requires writer in s.tasks
    requires var t := s.tasks[writer];
             || (t.Activity? && t.key == KeyOf(s.issued[j]) && !t.activity.Reading?)
             || (t.Restore? && t.key == KeyOf(s.issued[j]) && !t.restore.Stored?)
    ensures !NeverAccepted(cfg, Updated(s, id, s.issued[j].identity), j)
  {
    ReachableIsSound(cfg, s);
    assert SessionTask(s, s.tasks[writer]);
    assert Revives(s.tasks[writer], s.issued[j], s.now);
    LogoutAllFinalExactly(cfg, s, id, s.issued[j].identity, j);
  }

  /** So does one beside a login that has issued the token and has yet to SET its session, whether its
      row is inserted or not. */
  lemma PendingLoginIsNotFinal(cfg: Config, s: State, id: nat, login: nat)
    requires Reachable(cfg, s)
    requires login in s.tasks && s.tasks[login].Login? && !s.tasks[login].login.Cached?
    requires Usable(s, s.tasks[login].claims.jti) && AtUpdate(s, id, s.tasks[login].claims.identity)
    ensures !NeverAccepted(cfg, Updated(s, id, s.tasks[login].claims.identity), s.tasks[login].claims.jti)
  {
    ReachableIsSound(cfg, s);
    var c := s.tasks[login].claims;
    assert TaskInv(cfg, s, s.tasks[login]) && SessionTask(s, s.tasks[login]);
    assert Revives(s.tasks[login], c, s.now);
    LogoutAllFinalExactly(cfg, s, id, c.identity, c.jti);
  }

  // ----- Both situations come up -----

  function Session(cfg: Config, now: Time): Entry {
    Entry(now, now + cfg.ttl)
  }

  /** The state after the first login. */
  function LoggedIn(cfg: Config, now: Time, identity: int, j: Jti, refresh: Jti): State {
    State(
      now,
      Store(map[Key(identity, j) := Kept(Session(cfg, now), now + cfg.ttl)], map[],
            map[j := Row(identity, Active, now, now + cfg.ttl, None)]),
      map[j := AccessClaims(cfg, j, identity, now),
          refresh := Claims(refresh, identity, now + REFRESH_TTL, Refresh, false)],
      {j}, map[], {}, [])
  }

  /** A login run to its end at one clock value. */
  lemma WholeLogin(cfg: Config, now: Time, identity: int, j: Jti, refresh: Jti)
    requires j != refresh && cfg.ttl > 0.0
    ensures Leads(cfg, Start(now), LoggedIn(cfg, now, identity, j, refresh))
  {
    var s0 := Start(now);
    var s1 := Do(cfg, s0, BeginLogin(0, identity, j, refresh));
    var s2 := Do(cfg, s1, StepLogin(0, true));
    LeadsNowhere(cfg, s0);
    LeadsOn(cfg, s0, s0, BeginLogin(0, identity, j, refresh));
    LeadsOn(cfg, s0, s1, StepLogin(0, true));
    LoginFromStamp(cfg, s2, 0);
    LeadsAlong(cfg, s0, s2, LoggedIn(cfg, now, identity, j, refresh));
  }

  lemma LoginFromStamp(cfg: Config, s: State, id: nat)
    requires id in s.tasks && s.tasks[id].Login? && cfg.ttl > 0.0
    requires s.tasks[id].login == Stamped(s.now + cfg.ttl)
    ensures var c := s.tasks[id].claims;
            var store := SetEntry(InsertRow(s.store, c.jti, c.identity, s.now, s.now + cfg.ttl),
                                  KeyOf(c), Session(cfg, s.now), cfg.ttl, s.now);
            Leads(cfg, s, s.(store := store, handed := s.handed + {c.jti}, tasks := s.tasks - {id}))
  {
    var s1 := Do(cfg, s, StepLogin(id, true));
    var s2 := Do(cfg, s1, StepLogin(id, true));
    var s3 := Do(cfg, s2, StepLogin(id, true));
    LeadsNowhere(cfg, s);
    LeadsOn(cfg, s, s, StepLogin(id, true));
    LeadsOn(cfg, s, s1, StepLogin(id, true));
    LeadsOn(cfg, s, s2, StepLogin(id, true));
    LeadsOn(cfg, s, s3, StepLogin(id, true));
  }

  /** From the first login on, a logout of all sessions can lose its only DEL and leave the token usable. */
  lemma FailedDeleteExample(cfg: Config, now: Time, identity: int, j: Jti, refresh: Jti)
    requires j != refresh && cfg.ttl > 0.0
    ensures var key := Key(identity, j);
            var s := LoggedIn(cfg, now, identity, j, refresh)
              .(tasks := map[1 := LogoutAll(identity, Deleting({key}))]);
            Leads(cfg, Start(now), s) && !NeverAccepted(cfg, LastDeleteFails(s, 1, key), j)
  {
    var key := Key(identity, j);
    var s0 := LoggedIn(cfg, now, identity, j, refresh);
    var s1 := Do(cfg, s0, BeginLogoutAll(1, identity));
    WholeLogin(cfg, now, identity, j, refresh);
    LeadsOn(cfg, Start(now), s0, BeginLogoutAll(1, identity));
    LeadsOn(cfg, Start(now), s1, StepLogoutAll(1, StartScan));
    assert KeysOf(s0.store, identity) == {key};
    var s := s0.(tasks := map[1 := LogoutAll(identity, Deleting({key}))]);
    assert Do(cfg, s1, StepLogoutAll(1, StartScan)) == s;
    FailedDeleteIsNotFinal(cfg, s, 1, j);
  }

  /** It can also delete every key and still leave an activity update past its GET. */
  function ActivityPending(cfg: Config, now: Time, identity: int, j: Jti, refresh: Jti): State {
    var s := LoggedIn(cfg, now, identity, j, refresh);
    s.(store := s.store.(redis := map[]),
       tasks := map[1 := Activity(Key(identity, j), Read(Session(cfg, now))), 2 := LogoutAll(identity, Scanned(true))],
       accepts := [Accept(AccessClaims(cfg, j, identity, now), now, now, false)])
  }

  lemma PendingActivityExample(cfg: Config, now: Time, identity: int, j: Jti, refresh: Jti)
    requires j != refresh && cfg.ttl > 0.0
    ensures var s := ActivityPending(cfg, now, identity, j, refresh);
            Leads(cfg, Start(now), s) && !NeverAccepted(cfg, Updated(s, 2, identity), j)
  {
    var s0 := LoggedIn(cfg, now, identity, j, refresh);
    WholeLogin(cfg, now, identity, j, refresh);
    LiveEntryIsAccepted(cfg, s0, j, 0, 1);
    LeadsAlong(cfg, Start(now), s0, Hit(s0, j, 1));
    var s1 := Hit(s0, j, 1);
    LeadsOn(cfg, Start(now), s1, StepActivity(1, true));
    var s2 := Do(cfg, s1, StepActivity(1, true));
    SweepOne(cfg, s2, identity, j);
    var s := s2.(store := s2.store.(redis := map[]), tasks := s2.tasks[2 := LogoutAll(identity, Scanned(true))]);
    LeadsAlong(cfg, Start(now), s2, s);
    assert s == ActivityPending(cfg, now, identity, j, refresh);
    PendingWriteIsNotFinal(cfg, s, 2, j, 1);
  }

  /** A logout over an identity with one key, up to its UPDATE. */
  lemma SweepOne(cfg: Config, s: State, identity: int, j: Jti)
    requires 2 !in s.tasks && s.store.redis.Keys == {Key(identity, j)}
    ensures Leads(cfg, s,
                  s.(store := s.store.(redis := map[]), tasks := s.tasks[2 := LogoutAll(identity, Scanned(true))]))
  {
    var key := Key(identity, j);
    assert KeysOf(s.store, identity) == {key};
    var s1 := Do(cfg, s, BeginLogoutAll(2, identity));
    LeadsNowhere(cfg, s);
    LeadsOn(cfg, s, s, BeginLogoutAll(2, identity));
    LeadsOn(cfg, s, s1, StepLogoutAll(2, StartScan));
    var s2 := s.(tasks := s.tasks[2 := LogoutAll(identity, Deleting({key}))]);
    assert Do(cfg, s1, StepLogoutAll(2, StartScan)) == s2;
    DeleteOne(cfg, s2, key);
    var t := s2.(store := s.store.(redis := map[]), tasks := s2.tasks[2 := LogoutAll(identity, Scanned(true))]);
    LeadsAlong(cfg, s, s2, t);
    assert t.tasks == s.tasks[2 := LogoutAll(identity, Scanned(true))];
  }

  lemma DeleteOne(cfg: Config, s: State, key: Key)
    requires 2 in s.tasks && s.tasks[2] == LogoutAll(key.identity, Deleting({key})) && s.store.redis.Keys == {key}
    ensures Leads(cfg, s, s.(store := s.store.(redis := map[]),
                             tasks := s.tasks[2 := LogoutAll(key.identity, Scanned(true))]))
  {
    var s1 := Do(cfg, s, StepLogoutAll(2, Delete(key, true)));
    assert s.store.redis - {key} == map[] && s.tasks[2].sweep.left - {key} == {};
    LeadsNowhere(cfg, s);
    LeadsOn(cfg, s, s, StepLogoutAll(2, Delete(key, true)));
    LeadsOn(cfg, s, s1, StepLogoutAll(2, EndScan));
    assert Do(cfg, s1, StepLogoutAll(2, EndScan)).tasks == s.tasks[2 := LogoutAll(key.identity, Scanned(true))];
  }
}
