/** When a token's session can come to life, over every interleaving: what keeps a dead session dead,
    and how a pending write brings one back. */
module SessionRevival {
  import opened Common
  import opened SessionStore
  import opened SessionProtocol

  // ----- Sessions last as long as their tokens -----

  predicate Answering(t: Task, j: Jti) {
    t.Login? && t.claims.jti == j && t.login.Cached?
  }

  /** The login of the token has cached its session, so nothing can keep the token from the caller. */
  ghost predicate Obtained(s: State, j: Jti) {
    j in s.handed || exists i :: i in s.tasks && Answering(s.tasks[i], j)
  }

  ghost predicate Owned(s: State, key: Key) {
    key.jti in s.issued && s.issued[key.jti].identity == key.identity && Obtained(s, key.jti)
  }

  /** A session entry is written under the key of an obtained token and says it lasts as long. */
  ghost predicate Fits(s: State, key: Key, expiresAt: Time) {
    Owned(s, key) && s.issued[key.jti].expiresAt <= expiresAt
  }

  ghost predicate SessionTask(s: State, t: Task) {
    match t
    case Login(c, stage) =>
      && c.purpose == Access
      && (stage.Stamped? || stage.Inserted? ==> c.expiresAt <= stage.expiresAt)
      && (stage.LoginTimed? ==> c.expiresAt <= stage.entry.expiresAt && stage.ttl > 0.0)
    case Activity(key, Reading) => Owned(s, key)
    case Activity(key, stage) => Fits(s, key, stage.entry.expiresAt) && (stage.ActivityTimed? ==> stage.ttl > 0.0)
    case Restore(key, e, stage) => Fits(s, key, e.expiresAt) && (stage.RestoreTimed? ==> stage.ttl > 0.0)
    case _ => true
  }

  ghost predicate SessionInv(s: State) {
    && (forall j :: j in s.issued ==> s.issued[j].jti == j)
    && (forall k :: k in s.store.redis ==> Fits(s, k, s.store.redis[k].entry.expiresAt))
    && (forall j :: j in s.store.rows ==> j in s.issued && s.issued[j].expiresAt <= s.store.rows[j].expiresAt)
    && (forall i :: i in s.tasks ==> SessionTask(s, s.tasks[i]))
    && LogoutsKnown(s)
  }

  /** Only logouts blacklist, and only a token logged out is accepted after a logout. */
  ghost predicate LogoutsKnown(s: State) {
    && (forall j :: j in s.store.blacklist ==> j in s.loggedOut)
    && (forall k :: 0 <= k < |s.accepts| && s.accepts[k].afterLogout ==> s.accepts[k].claims.jti in s.loggedOut)
  }

  /** Issued tokens stay issued, and obtained ones stay obtained. */
  ghost predicate Keeps(s: State, s': State) {
    && (forall j :: j in s.issued ==> j in s'.issued && s'.issued[j] == s.issued[j])
    && (forall j :: Obtained(s, j) ==> Obtained(s', j))
  }

  lemma ObtainedStays(s: State, s': State)
    requires s.handed <= s'.handed
    requires forall i :: i in s.tasks && s.tasks[i].Login? && s.tasks[i].login.Cached? ==>
      (i in s'.tasks && s'.tasks[i] == s.tasks[i]) || s.tasks[i].claims.jti in s'.handed
    ensures forall j :: Obtained(s, j) ==> Obtained(s', j)
  {
    forall j | Obtained(s, j) ensures Obtained(s', j) {
      if j !in s.handed {
        var i :| i in s.tasks && Answering(s.tasks[i], j);
        if i in s'.tasks && s'.tasks[i] == s.tasks[i] { assert Answering(s'.tasks[i], j); }
      }
    }
  }

  lemma SessionFrame(s: State, s': State, id: nat, spawn: nat)
    requires SessionInv(s) && Keeps(s, s')
    requires forall i :: i in s'.tasks && i != id && i != spawn ==> i in s.tasks && s'.tasks[i] == s.tasks[i]
    requires id in s'.tasks ==> SessionTask(s', s'.tasks[id])
    requires spawn in s'.tasks ==> SessionTask(s', s'.tasks[spawn])
    requires forall j :: j in s'.issued ==> s'.issued[j].jti == j
    requires forall k :: k in s'.store.redis ==>
      (k in s.store.redis && s'.store.redis[k] == s.store.redis[k]) || Fits(s', k, s'.store.redis[k].entry.expiresAt)
    requires forall j :: j in s'.store.rows ==>
      j in s'.issued && s'.issued[j].expiresAt <= s'.store.rows[j].expiresAt
    requires LogoutsKnown(s')
    ensures SessionInv(s')
  {
    forall i | i in s'.tasks ensures SessionTask(s', s'.tasks[i]) {
      if i != id && i != spawn { assert SessionTask(s, s.tasks[i]); }
    }
  }

  /** Entries are only removed and rows keep their expiry. */
  ghost predicate NoNewSession(s: State, s': State) {
    && (forall k :: k in s'.store.redis ==> k in s.store.redis && s'.store.redis[k] == s.store.redis[k])
    && (forall j :: j in s'.store.rows ==>
          j in s.store.rows && s'.store.rows[j].expiresAt == s.store.rows[j].expiresAt)
  }

  /** A step that issues nothing and goes on with one task and starts another at most. */
  ghost predicate Touches(s: State, s': State, id: nat, spawn: nat) {
    && s'.issued == s.issued
    && forall i :: i in s'.tasks && i != id && i != spawn ==> i in s.tasks && s'.tasks[i] == s.tasks[i]
  }

  lemma NoNewSessionFrame(s: State, s': State, id: nat, spawn: nat)
    requires SessionInv(s) && Keeps(s, s') && NoNewSession(s, s') && LogoutsKnown(s') && Touches(s, s', id, spawn)
    requires id in s'.tasks ==> SessionTask(s', s'.tasks[id])
    requires spawn in s'.tasks ==> SessionTask(s', s'.tasks[spawn])
    ensures SessionInv(s')
  {
    SessionFrame(s, s', id, spawn);
  }

  lemma SessionLoginKeeps(cfg: Config, s: State, id: nat, ok: bool)
    requires Enabled(s, StepLogin(id, ok))
    ensures Keeps(s, DoLogin(cfg, s, id, ok))
    ensures s.tasks[id].login.LoginTimed? && ok ==> Obtained(DoLogin(cfg, s, id, ok), s.tasks[id].claims.jti)
  {
    var s' := DoLogin(cfg, s, id, ok);
    ObtainedStays(s, s');
    if s.tasks[id].login.LoginTimed? && ok { assert Answering(s'.tasks[id], s.tasks[id].claims.jti); }
  }

  lemma LoginFits(cfg: Config, s: State, id: nat, ok: bool)
    requires SessionInv(s) && Inv(cfg, s) && Enabled(s, StepLogin(id, ok))
    ensures var s' := DoLogin(cfg, s, id, ok);
            && (id in s'.tasks ==> SessionTask(s', s'.tasks[id]))
            && (forall k :: k in s'.store.redis ==>
                  (k in s.store.redis && s'.store.redis[k] == s.store.redis[k])
                  || Fits(s', k, s'.store.redis[k].entry.expiresAt))
  {
    assert TaskInv(cfg, s, s.tasks[id]) && SessionTask(s, s.tasks[id]);
    SessionLoginKeeps(cfg, s, id, ok);
  }

  lemma SessionLogin(cfg: Config, s: State, id: nat, ok: bool)
    requires SessionInv(s) && Inv(cfg, s) && Enabled(s, StepLogin(id, ok))
    ensures SessionInv(DoLogin(cfg, s, id, ok))
  {
    var s' := DoLogin(cfg, s, id, ok);
    assert TaskInv(cfg, s, s.tasks[id]) && SessionTask(s, s.tasks[id]);
    SessionLoginKeeps(cfg, s, id, ok);
    LoginFits(cfg, s, id, ok);
    SessionFrame(s, s', id, id);
  }

  /** No step but a login's touches what its login owes a caller. */
  lemma OtherKeeps(cfg: Config, s: State, st: Step)
    requires Enabled(s, st) && !st.BeginLogin? && !st.StepLogin?
    ensures Keeps(s, Do(cfg, s, st))
  {
    ObtainedStays(s, Do(cfg, s, st));
  }

  lemma SpawnedFits(cfg: Config, s: State, id: nat, ok: bool, spawn: nat)
    requires SessionInv(s) && Inv(cfg, s) && RowsIssued(s) && Enabled(s, StepCheck(id, ok, spawn))
    ensures var s' := DoCheck(s, id, ok, spawn); spawn in s'.tasks ==> SessionTask(s', s'.tasks[spawn])
  {
    assert TaskInv(cfg, s, s.tasks[id]);
  }

  lemma LogoutsStayKnown(cfg: Config, s: State, st: Step)
    requires SessionInv(s) && Inv(cfg, s) && Enabled(s, st) && (st.StepCheck? || st.StepLogout?)
    ensures LogoutsKnown(Do(cfg, s, st))
  {
    assert TaskInv(cfg, s, s.tasks[st.id]);
  }

  lemma CheckTouches(s: State, id: nat, ok: bool, spawn: nat)
    requires Enabled(s, StepCheck(id, ok, spawn))
    ensures var s' := DoCheck(s, id, ok, spawn);
            && Touches(s, s', id, spawn) && NoNewSession(s, s')
            && (id in s'.tasks ==> SessionTask(s', s'.tasks[id]))
  {
  }

  lemma SessionCheck(cfg: Config, s: State, id: nat, ok: bool, spawn: nat)
    requires SessionInv(s) && Inv(cfg, s) && RowsIssued(s) && Enabled(s, StepCheck(id, ok, spawn))
    ensures SessionInv(DoCheck(s, id, ok, spawn))
  {
    var s' := DoCheck(s, id, ok, spawn);
    OtherKeeps(cfg, s, StepCheck(id, ok, spawn));
    LogoutsStayKnown(cfg, s, StepCheck(id, ok, spawn));
    SpawnedFits(cfg, s, id, ok, spawn);
    CheckTouches(s, id, ok, spawn);
    NoNewSessionFrame(s, s', id, spawn);
  }

  lemma FitsStays(s: State, s': State, key: Key, expiresAt: Time)
    requires Keeps(s, s') && Fits(s, key, expiresAt)
    ensures Fits(s', key, expiresAt)
  {
  }

  lemma SessionActivity(cfg: Config, s: State, id: nat, ok: bool)
    requires SessionInv(s) && Enabled(s, StepActivity(id, ok))
    ensures SessionInv(DoActivity(s, id, ok))
  {
    var s' := DoActivity(s, id, ok);
    var t := s.tasks[id];
    OtherKeeps(cfg, s, StepActivity(id, ok));
    assert SessionTask(s, t);
    if t.activity.Reading? {
      if id in s'.tasks { FitsStays(s, s', t.key, s'.tasks[id].activity.entry.expiresAt); }
    } else {
      FitsStays(s, s', t.key, t.activity.entry.expiresAt);
    }
    SessionFrame(s, s', id, id);
  }

  lemma RestoreFits(cfg: Config, s: State, id: nat, ok: bool)
    requires SessionInv(s) && Enabled(s, StepRestore(id, ok))
    ensures var s' := DoRestore(s, id, ok);
            && Touches(s, s', id, id)
            && (id in s'.tasks ==> SessionTask(s', s'.tasks[id]))
            && Fits(s', s.tasks[id].key, s.tasks[id].entry.expiresAt)
  {
    OtherKeeps(cfg, s, StepRestore(id, ok));
    assert SessionTask(s, s.tasks[id]);
    FitsStays(s, DoRestore(s, id, ok), s.tasks[id].key, s.tasks[id].entry.expiresAt);
  }

  lemma SessionRestore(cfg: Config, s: State, id: nat, ok: bool)
    requires SessionInv(s) && Enabled(s, StepRestore(id, ok))
    ensures SessionInv(DoRestore(s, id, ok))
  {
    OtherKeeps(cfg, s, StepRestore(id, ok));
    RestoreFits(cfg, s, id, ok);
    SessionFrame(s, DoRestore(s, id, ok), id, id);
  }

  lemma SessionBegin(cfg: Config, s: State, st: Step)
    requires SessionInv(s) && Enabled(s, st)
    requires st.BeginLogin? || st.BeginCheck? || st.BeginLogout? || st.BeginLogoutAll?
    ensures SessionInv(Do(cfg, s, st))
  {
    ObtainedStays(s, Do(cfg, s, st));
    SessionFrame(s, Do(cfg, s, st), st.id, st.id);
  }

  lemma LogoutTouches(cfg: Config, s: State, id: nat, ok: bool)
    requires Enabled(s, StepLogout(id, ok))
    ensures var s' := DoLogout(cfg, s, id, ok);
            && Touches(s, s', id, id) && NoNewSession(s, s')
            && (id in s'.tasks ==> SessionTask(s', s'.tasks[id]))
  {
  }

  lemma SessionLogout(cfg: Config, s: State, id: nat, ok: bool)
    requires SessionInv(s) && Inv(cfg, s) && Enabled(s, StepLogout(id, ok))
    ensures SessionInv(DoLogout(cfg, s, id, ok))
  {
    OtherKeeps(cfg, s, StepLogout(id, ok));
    LogoutsStayKnown(cfg, s, StepLogout(id, ok));
    LogoutTouches(cfg, s, id, ok);
    NoNewSessionFrame(s, DoLogout(cfg, s, id, ok), id, id);
  }

  lemma SessionOther(cfg: Config, s: State, st: Step)
    requires SessionInv(s) && Enabled(s, st) && (st.Tick? || st.StepLogoutAll?)
    ensures SessionInv(Do(cfg, s, st))
  {
    OtherKeeps(cfg, s, st);
    var id := if st.Tick? then 0 else st.id;
    assert NoNewSession(s, Do(cfg, s, st)) && Touches(s, Do(cfg, s, st), id, id);
    NoNewSessionFrame(s, Do(cfg, s, st), id, id);
  }

  lemma SessionStep(cfg: Config, s: State, st: Step)
    requires SessionInv(s) && Inv(cfg, s) && RowsIssued(s) && Enabled(s, st)
    ensures SessionInv(Do(cfg, s, st))
  {
    match st
    case StepLogin(id, ok) => SessionLogin(cfg, s, id, ok);
    case StepCheck(id, ok, spawn) => SessionCheck(cfg, s, id, ok, spawn);
    case StepActivity(id, ok) => SessionActivity(cfg, s, id, ok);
    case StepRestore(id, ok) => SessionRestore(cfg, s, id, ok);
    case Tick(_) => SessionOther(cfg, s, st);
    case StepLogout(id, ok) => SessionLogout(cfg, s, id, ok);
    case StepLogoutAll(_, _) => SessionOther(cfg, s, st);
    case _ => SessionBegin(cfg, s, st);
  }

  /** All that holds of every reachable state. */
  ghost predicate Sound(cfg: Config, s: State) {
    Inv(cfg, s) && RowsIssued(s) && SessionInv(s)
  }

  lemma SoundStep(cfg: Config, s: State, st: Step)
    requires Sound(cfg, s) && Enabled(s, st)
    ensures Sound(cfg, Do(cfg, s, st))
  {
    InvStep(cfg, s, st);
    RowsStep(cfg, s, st);
    SessionStep(cfg, s, st);
  }

  lemma {:induction false} SoundRun(cfg: Config, s: State, steps: seq<Step>)
    requires Sound(cfg, s) && IsRun(cfg, s, steps)
    ensures Sound(cfg, After(cfg, s, steps))
    decreases |steps|
  {
    if steps != [] {
      SoundStep(cfg, s, steps[0]);
      SoundRun(cfg, Do(cfg, s, steps[0]), steps[1..]);
    }
  }

  /** Along every run, each session entry, stored or about to be, is written under the key of a token
      that its login has cached, and says it lasts as long as the token. */
  lemma ReachableIsSound(cfg: Config, s: State)
    requires Reachable(cfg, s)
    ensures Sound(cfg, s)
  {
    var now: Time :| Leads(cfg, Start(now), s);
    var steps :| IsRun(cfg, Start(now), steps) && After(cfg, Start(now), steps) == s;
    SoundRun(cfg, Start(now), steps);
  }

  // ----- Dead sessions -----

  function KeyOf(c: Claims): Key {
    Key(c.identity, c.jti)
  }

  /** A task that will SET the session key of the token if nothing fails and no time passes. */
  predicate Revives(t: Task, c: Claims, now: Time) {
    match t
    case Login(d, stage) => d.jti == c.jti && !stage.Cached? && (stage.Stamped? || stage.Inserted? ==>
      now < stage.expiresAt)
    case Activity(key, stage) =>
      key == KeyOf(c) && !stage.Reading? && (stage.Read? ==> now < stage.entry.expiresAt)
    case Restore(key, e, stage) => key == KeyOf(c) && !stage.Stored? && (stage.Restoring? ==> now < e.expiresAt)
    case _ => false
  }

  /** The token has a live Redis entry, or a pending task can still write one. */
  ghost predicate Revivable(s: State, j: Jti)
    requires j in s.issued
  {
    || GetEntry(s.store, KeyOf(s.issued[j]), s.now).Some?
    || exists i :: i in s.tasks && Revives(s.tasks[i], s.issued[j], s.now)
  }

  ghost predicate RowOver(s: State, j: Jti) {
    j in s.store.rows ==> s.store.rows[j].status == Revoked || s.store.rows[j].expiresAt <= s.now
  }

  ghost predicate Dead(s: State, j: Jti) {
    j in s.issued && s.issued[j].jti == j && !Revivable(s, j) && RowOver(s, j)
  }

  /** What the run added to the accepted checks names the token nowhere. */
  ghost predicate NoneAccepted(s: State, s': State, j: Jti) {
    && s.accepts <= s'.accepts
    && forall k :: |s.accepts| <= k < |s'.accepts| ==> s'.accepts[k].claims.jti != j
  }

  lemma DeadFrame(s: State, s': State, j: Jti, id: nat, spawn: nat)
    requires Dead(s, j) && s.now <= s'.now
    requires j in s'.issued && s'.issued[j] == s.issued[j]
    requires forall i :: i in s'.tasks && i != id && i != spawn ==> i in s.tasks && s'.tasks[i] == s.tasks[i]
    requires id in s'.tasks ==> !Revives(s'.tasks[id], s.issued[j], s'.now)
    requires spawn in s'.tasks ==> !Revives(s'.tasks[spawn], s.issued[j], s'.now)
    requires var key := KeyOf(s.issued[j]);
      key in s'.store.redis ==> key in s.store.redis && s'.store.redis[key] == s.store.redis[key]
    requires RowOver(s', j)
    ensures Dead(s', j)
  {
    forall i | i in s'.tasks ensures !Revives(s'.tasks[i], s.issued[j], s'.now) {
      if i != id && i != spawn { assert !Revives(s.tasks[i], s.issued[j], s.now); }
    }
  }

  lemma DeadIsRefused(cfg: Config, s: State, id: nat, ok: bool, spawn: nat, j: Jti)
    requires Inv(cfg, s) && Dead(s, j) && Enabled(s, StepCheck(id, ok, spawn))
    ensures NoneAccepted(s, DoCheck(s, id, ok, spawn), j)
  {
    assert TaskInv(cfg, s, s.tasks[id]);
  }

  lemma DeadCheck(cfg: Config, s: State, id: nat, ok: bool, spawn: nat, j: Jti)
    requires Inv(cfg, s) && Dead(s, j) && Enabled(s, StepCheck(id, ok, spawn))
    ensures Dead(DoCheck(s, id, ok, spawn), j)
    ensures NoneAccepted(s, DoCheck(s, id, ok, spawn), j)
  {
    assert TaskInv(cfg, s, s.tasks[id]);
    DeadIsRefused(cfg, s, id, ok, spawn, j);
    CheckTouches(s, id, ok, spawn);
    DeadFrame(s, DoCheck(s, id, ok, spawn), j, id, spawn);
  }

  /** A login of the token that is past reviving writes no entry and no live row. */
  lemma LoginStaysOver(cfg: Config, s: State, id: nat, ok: bool, j: Jti)
    requires Inv(cfg, s) && Dead(s, j) && Enabled(s, StepLogin(id, ok))
    ensures var s' := DoLogin(cfg, s, id, ok);
            var key := KeyOf(s.issued[j]);
            && RowOver(s', j) && (id in s'.tasks ==> !Revives(s'.tasks[id], s.issued[j], s'.now))
            && (key in s'.store.redis ==> key in s.store.redis && s'.store.redis[key] == s.store.redis[key])
  {
    assert TaskInv(cfg, s, s.tasks[id]) && !Revives(s.tasks[id], s.issued[j], s.now);
  }

  lemma DeadLogin(cfg: Config, s: State, id: nat, ok: bool, j: Jti)
    requires Inv(cfg, s) && Dead(s, j) && Enabled(s, StepLogin(id, ok))
    ensures Dead(DoLogin(cfg, s, id, ok), j)
    ensures NoneAccepted(s, DoLogin(cfg, s, id, ok), j)
  {
    LoginStaysOver(cfg, s, id, ok, j);
    DeadFrame(s, DoLogin(cfg, s, id, ok), j, id, id);
  }

  lemma DeadWriter(cfg: Config, s: State, st: Step, j: Jti)
    requires Dead(s, j) && Enabled(s, st) && (st.StepActivity? || st.StepRestore?)
    ensures Dead(Do(cfg, s, st), j)
    ensures NoneAccepted(s, Do(cfg, s, st), j)
  {
    assert !Revives(s.tasks[st.id], s.issued[j], s.now);
    DeadFrame(s, Do(cfg, s, st), j, st.id, st.id);
  }

  lemma DeadLogout(cfg: Config, s: State, id: nat, ok: bool, j: Jti)
    requires Dead(s, j) && Enabled(s, StepLogout(id, ok))
    ensures Dead(DoLogout(cfg, s, id, ok), j)
    ensures NoneAccepted(s, DoLogout(cfg, s, id, ok), j)
  {
    DeadFrame(s, DoLogout(cfg, s, id, ok), j, id, id);
  }

  lemma DeadOther(cfg: Config, s: State, st: Step, j: Jti)
    requires Dead(s, j) && Enabled(s, st)
    requires !st.StepCheck? && !st.StepLogin? && !st.StepActivity? && !st.StepRestore? && !st.StepLogout?
    ensures Dead(Do(cfg, s, st), j)
    ensures NoneAccepted(s, Do(cfg, s, st), j)
  {
    var id := if st.Tick? then 0 else st.id;
    if st.Tick? {
      forall i | i in s.tasks ensures !Revives(s.tasks[i], s.issued[j], st.to) {
        assert !Revives(s.tasks[i], s.issued[j], s.now);
      }
    }
    DeadFrame(s, Do(cfg, s, st), j, id, id);
  }

  lemma DeadStep(cfg: Config, s: State, st: Step, j: Jti)
    requires Inv(cfg, s) && Dead(s, j) && Enabled(s, st)
    ensures Dead(Do(cfg, s, st), j)
    ensures NoneAccepted(s, Do(cfg, s, st), j)
  {
    match st
    case StepCheck(id, ok, spawn) => DeadCheck(cfg, s, id, ok, spawn, j);
    case StepLogout(id, ok) => DeadLogout(cfg, s, id, ok, j);
    case StepLogin(id, ok) => DeadLogin(cfg, s, id, ok, j);
    case StepActivity(_, _) => DeadWriter(cfg, s, st, j);
    case StepRestore(_, _) => DeadWriter(cfg, s, st, j);
    case _ => DeadOther(cfg, s, st, j);
  }

  lemma {:induction false} DeadRun(cfg: Config, s: State, steps: seq<Step>, j: Jti)
    requires Inv(cfg, s) && Dead(s, j) && IsRun(cfg, s, steps)
    ensures NoneAccepted(s, After(cfg, s, steps), j)
    decreases |steps|
  {
    if steps != [] {
      DeadStep(cfg, s, steps[0], j);
      InvStep(cfg, s, steps[0]);
      DeadRun(cfg, Do(cfg, s, steps[0]), steps[1..], j);
    }
  }

  /** No run from the state accepts the token. */
  ghost predicate NeverAccepted(cfg: Config, s: State, j: Jti) {
    forall t | Leads(cfg, s, t) :: NoneAccepted(s, t, j)
  }

  lemma DeadIsNeverAccepted(cfg: Config, s: State, j: Jti)
    requires Inv(cfg, s) && Dead(s, j)
    ensures NeverAccepted(cfg, s, j)
  {
    forall t | Leads(cfg, s, t) ensures NoneAccepted(s, t, j) {
      var steps :| IsRun(cfg, s, steps) && After(cfg, s, steps) == t;
      DeadRun(cfg, s, steps, j);
    }
  }

  // ----- A pending write brings the session back -----

  /** A token that verifies and is not blacklisted. */
  predicate Usable(s: State, j: Jti) {
    j in s.issued && Verifies(s, s.issued[j]) && !Blacklisted(s.store, j, s.now)
  }

  /** The session lives and the caller has the token. */
  predicate Alive(s: State, j: Jti) {
    j in s.issued && j in s.handed && GetEntry(s.store, KeyOf(s.issued[j]), s.now).Some?
  }

  /** The run took no time and answered, issued and logged out nothing; tasks of others are as before. */
  ghost predicate Onward(cfg: Config, s: State, t: State) {
    && Leads(cfg, s, t)
    && t.now == s.now && t.issued == s.issued && t.accepts == s.accepts
    && t.store.blacklist == s.store.blacklist && t.loggedOut == s.loggedOut
    && (forall i :: i in t.tasks ==> i in s.tasks)
    && (forall i :: i in s.tasks && !s.tasks[i].Login? && !s.tasks[i].Activity? && !s.tasks[i].Restore? ==>
          i in t.tasks && t.tasks[i] == s.tasks[i])
  }

  lemma OnwardTwice(cfg: Config, s: State, t: State, u: State)
    requires Onward(cfg, s, t) && Onward(cfg, t, u)
    ensures Onward(cfg, s, u)
  {
    LeadsAlong(cfg, s, t, u);
  }

  /** The task's next step, with its command succeeding. */
  function NextOf(t: Task, id: nat): Step
    requires t.Login? || t.Activity? || t.Restore?
  {
    match t
    case Login(_, _) => StepLogin(id, true)
    case Activity(_, _) => StepActivity(id, true)
    case _ => StepRestore(id, true)
  }

  function StepsLeft(t: Task): nat {
    match t
    case Login(_, Issued) => 4
    case Login(_, Stamped(_)) => 3
    case Login(_, Inserted(_)) => 2
    case Activity(_, Read(_)) => 2
    case Restore(_, _, Restoring) => 2
    case _ => 1
  }

  lemma NextIsOnward(cfg: Config, s: State, id: nat)
    requires id in s.tasks && (s.tasks[id].Login? || s.tasks[id].Activity? || s.tasks[id].Restore?)
    ensures Onward(cfg, s, Do(cfg, s, NextOf(s.tasks[id], id)))
  {
    LeadsNowhere(cfg, s);
    LeadsOn(cfg, s, s, NextOf(s.tasks[id], id));
  }

  /** One step brings a reviving task nearer to its SET, or past it. */
  lemma Nearer(cfg: Config, s: State, j: Jti, id: nat)
    requires Sound(cfg, s) && Usable(s, j) && id in s.tasks && Revives(s.tasks[id], s.issued[j], s.now)
    ensures var t := Do(cfg, s, NextOf(s.tasks[id], id));
            || GetEntry(t.store, KeyOf(s.issued[j]), t.now).Some?
            || (&& id in t.tasks && Revives(t.tasks[id], s.issued[j], t.now)
                && StepsLeft(t.tasks[id]) < StepsLeft(s.tasks[id]))
  {
    assert TaskInv(cfg, s, s.tasks[id]) && SessionTask(s, s.tasks[id]);
  }

  lemma {:induction false} WriteThrough(cfg: Config, s: State, j: Jti, id: nat)
    requires Sound(cfg, s) && Usable(s, j) && id in s.tasks && Revives(s.tasks[id], s.issued[j], s.now)
    ensures exists t :: Onward(cfg, s, t) && Sound(cfg, t) && GetEntry(t.store, KeyOf(s.issued[j]), t.now).Some?
    decreases StepsLeft(s.tasks[id])
  {
    var step := NextOf(s.tasks[id], id);
    var t := Do(cfg, s, step);
    NextIsOnward(cfg, s, id);
    SoundStep(cfg, s, step);
    Nearer(cfg, s, j, id);
    if GetEntry(t.store, KeyOf(s.issued[j]), t.now).None? {
      WriteThrough(cfg, t, j, id);
      var u :| Onward(cfg, t, u) && Sound(cfg, u) && GetEntry(u.store, KeyOf(s.issued[j]), u.now).Some?;
      OnwardTwice(cfg, s, t, u);
    }
  }

  lemma AnswerOnward(cfg: Config, s: State, j: Jti, id: nat)
    requires id in s.tasks && Answering(s.tasks[id], j)
    ensures var t := Do(cfg, s, StepLogin(id, true));
            && Onward(cfg, s, t) && j in t.handed && t.store.redis == s.store.redis
            && FindRow(t.store, j, t.now).Some? == FindRow(s.store, j, s.now).Some?
  {
    NextIsOnward(cfg, s, id);
  }

  /** An obtained token can be handed out at once. */
  lemma HandOut(cfg: Config, s: State, j: Jti)
    requires Sound(cfg, s) && Obtained(s, j)
    ensures exists t :: Onward(cfg, s, t) && Sound(cfg, t) && j in t.handed && t.store.redis == s.store.redis
                        && FindRow(t.store, j, t.now).Some? == FindRow(s.store, j, s.now).Some?
  {
    if j in s.handed {
      LeadsNowhere(cfg, s);
      assert Onward(cfg, s, s);
    } else {
      var i :| i in s.tasks && Answering(s.tasks[i], j);
      AnswerOnward(cfg, s, j, i);
      SoundStep(cfg, s, StepLogin(i, true));
    }
  }

  /** A revivable token comes to life by writes that take no time. */
  lemma ComesAlive(cfg: Config, s: State, j: Jti)
    requires Sound(cfg, s) && Usable(s, j) && Revivable(s, j)
    ensures exists t :: Onward(cfg, s, t) && Sound(cfg, t) && Alive(t, j)
  {
    var key := KeyOf(s.issued[j]);
    var t := s;
    if GetEntry(s.store, key, s.now).Some? {
      LeadsNowhere(cfg, s);
    } else {
      var id :| id in s.tasks && Revives(s.tasks[id], s.issued[j], s.now);
      WriteThrough(cfg, s, j, id);
      t :| Onward(cfg, s, t) && Sound(cfg, t) && GetEntry(t.store, key, t.now).Some?;
    }
    assert Fits(t, key, t.store.redis[key].entry.expiresAt);
    HandOut(cfg, t, j);
    var u :| Onward(cfg, t, u) && Sound(cfg, u) && j in u.handed && u.store.redis == t.store.redis;
    OnwardTwice(cfg, s, t, u);
    assert Alive(u, j);
  }
}
