/** When Logout and RevokeSession are final if every SET of a session key lands at the clock value its
    TTL was computed with: exactly when the login of the token has computed the session's expiry before
    the logout begins, or the token has expired. DelayedLogouts has the runs in which SETs are delayed. */
module LogoutFinality {
  import opened Common
  import opened SessionStore
  import opened SessionProtocol

  /** No login of the token has still to compute its session's expiry. */
  ghost predicate Settled(s: State, j: Jti) {
    forall i :: i in s.tasks && s.tasks[i].Login? && s.tasks[i].claims.jti == j ==> !s.tasks[i].login.Issued?
  }

  /** The caller of Logout has the token from a login that has answered. */
  lemma HandedIsSettled(cfg: Config, s: State, j: Jti)
    requires Reachable(cfg, s) && j in s.handed
    ensures Settled(s, j)
  {
    ReachableInv(cfg, s);
    forall i | i in s.tasks && s.tasks[i].Login? && s.tasks[i].claims.jti == j ensures !s.tasks[i].login.Issued? {
      assert OwnsRow(s, s.tasks[i]);
    }
  }

  datatype Write = Write(key: Key, entry: Entry, ttl: Time)

  /** The SET of a session key that a task sends next. */
  function NextSet(t: Task): Option<Write> {
    match t
    case Login(c, LoginTimed(e, ttl)) => Some(Write(Key(c.identity, c.jti), e, ttl))
    case Activity(key, ActivityTimed(e, ttl)) => Some(Write(key, e, ttl))
    case Restore(key, e, RestoreTimed(ttl)) => Some(Write(key, e, ttl))
    case _ => None
  }

  /** The task whose command succeeds in the step, if it is a login or a background writer. */
  function Writer(st: Step): Option<nat> {
    match st
    case StepLogin(id, true) => Some(id)
    case StepActivity(id, true) => Some(id)
    case StepRestore(id, true) => Some(id)
    case _ => None
  }

  /** A logout of the token begins settled, and a SET of its session lands at the clock value at which
      its TTL was computed, so that the entry ends when it says. */
  ghost predicate OrderlyStep(s: State, st: Step, j: Jti) {
    && (st.BeginLogout? && st.key.jti == j ==> Settled(s, j))
    && (Writer(st).Some? && Writer(st).value in s.tasks ==> Prompt(s, NextSet(s.tasks[Writer(st).value]), j))
  }

  predicate Prompt(s: State, w: Option<Write>, j: Jti) {
    w.Some? && w.value.key.jti == j ==> s.now + w.value.ttl == w.value.entry.expiresAt
  }

  /** A run in which every step is orderly for the token. */
  ghost predicate Orderly(cfg: Config, s: State, steps: seq<Step>, j: Jti)
    decreases |steps|
  {
    steps == [] ||
    (Enabled(s, steps[0]) && OrderlyStep(s, steps[0], j) && Orderly(cfg, Do(cfg, s, steps[0]), steps[1..], j))
  }

  /** An orderly run leads from one state to the other. */
  ghost predicate OrderlyLeads(cfg: Config, s: State, t: State, j: Jti) {
    exists steps :: IsRun(cfg, s, steps) && Orderly(cfg, s, steps, j) && After(cfg, s, steps) == t
  }

  lemma {:induction false} OrderlyAppend(cfg: Config, s: State, a: seq<Step>, b: seq<Step>, j: Jti)
    requires IsRun(cfg, s, a) && Orderly(cfg, s, a, j) && Orderly(cfg, After(cfg, s, a), b, j)
    ensures Orderly(cfg, s, a + b, j)
    decreases |a|
  {
    if a == [] {
      assert a + b == b;
    } else {
      assert (a + b)[1..] == a[1..] + b;
      OrderlyAppend(cfg, Do(cfg, s, a[0]), a[1..], b, j);
    }
  }

  lemma OrderlyNowhere(cfg: Config, s: State, j: Jti)
    ensures OrderlyLeads(cfg, s, s, j)
  {
    assert IsRun(cfg, s, []) && Orderly(cfg, s, [], j) && After(cfg, s, []) == s;
  }

  lemma OrderlyAlong(cfg: Config, s: State, t: State, u: State, j: Jti)
    requires OrderlyLeads(cfg, s, t, j) && OrderlyLeads(cfg, t, u, j)
    ensures OrderlyLeads(cfg, s, u, j)
  {
    var a :| IsRun(cfg, s, a) && Orderly(cfg, s, a, j) && After(cfg, s, a) == t;
    var b :| IsRun(cfg, t, b) && Orderly(cfg, t, b, j) && After(cfg, t, b) == u;
    AfterAppend(cfg, s, a, b);
    OrderlyAppend(cfg, s, a, b, j);
  }

  lemma OrderlyOn(cfg: Config, s: State, t: State, st: Step, j: Jti)
    requires OrderlyLeads(cfg, s, t, j) && Enabled(t, st) && OrderlyStep(t, st, j)
    ensures OrderlyLeads(cfg, s, Do(cfg, t, st), j)
  {
    OneStep(cfg, t, st);
    assert Orderly(cfg, t, [st], j);
    OrderlyAlong(cfg, s, t, Do(cfg, t, st), j);
  }

  // ----- What a settled token's sessions and blacklist entries know of each other -----

  /** A Redis entry, stored or about to be, expires with the row. */
  predicate Follows(s: State, j: Jti, expiresAt: Time) {
    j in s.store.rows && s.store.rows[j].expiresAt == expiresAt
  }

  predicate KeptFollows(s: State, j: Jti, kept: Kept) {
    Follows(s, j, kept.entry.expiresAt) && kept.until == kept.entry.expiresAt
  }

  /** No session of the token lives beyond the time, now or later. */
  ghost predicate OverBy(s: State, j: Jti, until: Time) {
    && Settled(s, j)
    && (j in s.store.rows ==> s.store.rows[j].expiresAt <= until)
    && forall i :: i in s.tasks && s.tasks[i].Login? && s.tasks[i].claims.jti == j && s.tasks[i].login.Stamped? ==>
         s.tasks[i].login.expiresAt <= until
  }

  ghost predicate ExpiryTask(cfg: Config, s: State, j: Jti, t: Task) {
    match t
    case Login(c, Stamped(e)) => c.jti == j ==> e <= s.now + cfg.ttl
    case Login(c, Inserted(e)) => c.jti == j ==> Follows(s, j, e)
    case Login(c, LoginTimed(e, _)) => c.jti == j ==> Follows(s, j, e.expiresAt)
    case Activity(key, stage) => key.jti == j && !stage.Reading? ==> Follows(s, j, stage.entry.expiresAt)
    case Restore(key, e, _) => key.jti == j ==> Follows(s, j, e.expiresAt)
    case _ => true
  }

  ghost predicate LogoutTask(s: State, j: Jti, t: Task) {
    match t
    case Logout(key, stage) => key.jti == j ==>
      && Settled(s, j)
      && (stage.Remaining? ==> OverBy(s, j, stage.until))
      && (stage.Blacklist? ==> OverBy(s, j, s.now + stage.ttl))
    case Check(c, _, late, stage) => c.jti == j && late ==>
      j in s.loggedOut && (!stage.CheckBlacklist? ==> stage.checkedAt <= s.now && OverBy(s, j, stage.checkedAt))
    case _ => true
  }

  ghost predicate FinalTask(cfg: Config, s: State, j: Jti, t: Task) {
    ExpiryTask(cfg, s, j, t) && LogoutTask(s, j, t)
  }

  ghost predicate FinalInv(cfg: Config, s: State, j: Jti) {
    && (j in s.store.rows ==> s.store.rows[j].expiresAt <= s.now + cfg.ttl)
    && (forall k :: k in s.store.redis && k.jti == j ==> KeptFollows(s, j, s.store.redis[k]))
    && (j in s.store.blacklist ==> Settled(s, j))
    && (j in s.store.blacklist && s.store.blacklist[j].At? ==> OverBy(s, j, s.store.blacklist[j].time))
    && (j in s.loggedOut ==> j in s.store.blacklist)
    && (forall i :: i in s.tasks ==> FinalTask(cfg, s, j, s.tasks[i]))
    && (forall k :: 0 <= k < |s.accepts| && s.accepts[k].claims.jti == j ==> !s.accepts[k].afterLogout)
  }

  /** What every step but the start of a login of the token does to its sessions. */
  ghost predicate Ages(s: State, s': State, j: Jti) {
    && s.now <= s'.now && s.loggedOut <= s'.loggedOut
    && (j in s.store.rows ==> j in s'.store.rows && s'.store.rows[j].expiresAt == s.store.rows[j].expiresAt)
    && (j in s'.store.rows && j !in s.store.rows ==>
          exists i :: i in s.tasks && s.tasks[i].Login? && s.tasks[i].claims.jti == j
                      && s.tasks[i].login == Stamped(s'.store.rows[j].expiresAt))
    && (forall i :: i in s'.tasks && s'.tasks[i].Login? && s'.tasks[i].claims.jti == j
                    && (s'.tasks[i].login.Issued? || s'.tasks[i].login.Stamped?) ==>
          i in s.tasks && s.tasks[i].Login? && s.tasks[i].claims.jti == j
          && (s.tasks[i] == s'.tasks[i] || s.tasks[i].login.Issued?))
    && (forall i :: i in s'.tasks && s'.tasks[i].Login? && s'.tasks[i].claims.jti == j && s'.tasks[i].login.Issued? ==>
          s.tasks[i] == s'.tasks[i])
  }

  /** A step that leaves the logins and the expiry of the row alone. */
  lemma SameSessionsAge(s: State, s': State, j: Jti)
    requires s.now <= s'.now && s.loggedOut <= s'.loggedOut
    requires j in s'.store.rows <==> j in s.store.rows
    requires j in s.store.rows ==> s'.store.rows[j].expiresAt == s.store.rows[j].expiresAt
    requires forall i :: i in s'.tasks && s'.tasks[i].Login? ==> i in s.tasks && s'.tasks[i] == s.tasks[i]
    ensures Ages(s, s', j)
  {
  }

  lemma SettledAges(s: State, s': State, j: Jti)
    requires Ages(s, s', j) && Settled(s, j)
    ensures Settled(s', j)
  {
  }

  lemma OverAges(s: State, s': State, j: Jti, until: Time)
    requires Ages(s, s', j) && OverBy(s, j, until)
    ensures OverBy(s', j, until)
  {
    SettledAges(s, s', j);
  }

  lemma OverLater(s: State, j: Jti, a: Time, b: Time)
    requires OverBy(s, j, a) && a <= b
    ensures OverBy(s, j, b)
  {
  }

  lemma TaskAges(cfg: Config, s: State, s': State, j: Jti, t: Task)
    requires Ages(s, s', j) && FinalTask(cfg, s, j, t)
    ensures FinalTask(cfg, s', j, t)
  {
    match t
    case Logout(key, stage) =>
      if key.jti == j {
        SettledAges(s, s', j);
        if stage.Remaining? { OverAges(s, s', j, stage.until); }
        if stage.Blacklist? {
          OverAges(s, s', j, s.now + stage.ttl);
          OverLater(s', j, s.now + stage.ttl, s'.now + stage.ttl);
        }
      }
    case Check(c, _, late, stage) =>
      if c.jti == j && late && !stage.CheckBlacklist? { OverAges(s, s', j, stage.checkedAt); }
    case _ =>
  }

  /** A step keeps the invariant if the tasks it touches, the store and the answers keep their parts. */
  lemma FinalFrame(cfg: Config, s: State, s': State, j: Jti, id: nat, spawn: nat)
    requires FinalInv(cfg, s, j) && Ages(s, s', j)
    requires forall i :: i in s'.tasks && i != id && i != spawn ==> i in s.tasks && s'.tasks[i] == s.tasks[i]
    requires id in s'.tasks ==> FinalTask(cfg, s', j, s'.tasks[id])
    requires spawn in s'.tasks ==> FinalTask(cfg, s', j, s'.tasks[spawn])
    requires j in s'.store.rows ==> s'.store.rows[j].expiresAt <= s'.now + cfg.ttl
    requires forall k :: k in s'.store.redis && k.jti == j ==> KeptFollows(s', j, s'.store.redis[k])
    requires j in s'.store.blacklist ==>
      (j in s.store.blacklist && s'.store.blacklist[j] == s.store.blacklist[j])
      || (Settled(s', j) && (s'.store.blacklist[j].At? ==> OverBy(s', j, s'.store.blacklist[j].time)))
    requires j in s'.loggedOut ==> j in s'.store.blacklist
    requires forall k :: 0 <= k < |s'.accepts| && s'.accepts[k].claims.jti == j ==> !s'.accepts[k].afterLogout
    ensures FinalInv(cfg, s', j)
  {
    forall i | i in s'.tasks ensures FinalTask(cfg, s', j, s'.tasks[i]) {
      if i != id && i != spawn { TaskAges(cfg, s, s', j, s.tasks[i]); }
    }
    if j in s.store.blacklist {
      SettledAges(s, s', j);
      if s.store.blacklist[j].At? { OverAges(s, s', j, s.store.blacklist[j].time); }
    }
  }

  lemma LoginKeepsFollowing(cfg: Config, s: State, j: Jti, id: nat, ok: bool)
    requires FinalInv(cfg, s, j) && RowsIssued(s) && Enabled(s, StepLogin(id, ok))
    requires OrderlyStep(s, StepLogin(id, ok), j)
    ensures var s' := DoLogin(cfg, s, id, ok);
            && Ages(s, s', j) && (id in s'.tasks ==> FinalTask(cfg, s', j, s'.tasks[id]))
            && (j in s'.store.rows ==> s'.store.rows[j].expiresAt <= s'.now + cfg.ttl)
            && (forall k :: k in s'.store.redis && k.jti == j ==> KeptFollows(s', j, s'.store.redis[k]))
  {
    assert OwnsRow(s, s.tasks[id]) && FinalTask(cfg, s, j, s.tasks[id]);
  }

  lemma FinalLogin(cfg: Config, s: State, j: Jti, id: nat, ok: bool)
    requires FinalInv(cfg, s, j) && RowsIssued(s) && Enabled(s, StepLogin(id, ok))
    requires OrderlyStep(s, StepLogin(id, ok), j)
    ensures FinalInv(cfg, DoLogin(cfg, s, id, ok), j)
  {
    LoginKeepsFollowing(cfg, s, j, id, ok);
    FinalFrame(cfg, s, DoLogin(cfg, s, id, ok), j, id, id);
  }

  lemma FinalBeginLogin(cfg: Config, s: State, j: Jti, st: Step)
    requires FinalInv(cfg, s, j) && Enabled(s, st) && st.BeginLogin?
    ensures FinalInv(cfg, Do(cfg, s, st), j)
  {
    var s' := Do(cfg, s, st);
    if st.jti != j {
      FinalFrame(cfg, s, s', j, st.id, st.id);
    } else {
      forall i | i in s'.tasks ensures FinalTask(cfg, s', j, s'.tasks[i]) {
        if i != st.id {
          assert FinalTask(cfg, s, j, s.tasks[i]);
          assert ExpiryTask(cfg, s', j, s.tasks[i]);
        }
      }
    }
  }

  /** A late check gets past the blacklist only when no session of the token is left. */
  lemma FinalPassedBlacklist(cfg: Config, s: State, j: Jti, t: Task)
    requires FinalInv(cfg, s, j) && FinalTask(cfg, s, j, t) && t.Check? && t.check.CheckBlacklist?
    requires !Blacklisted(s.store, t.claims.jti, s.now)
    ensures t.claims.jti == j && t.afterLogout ==> OverBy(s, j, s.now)
  {
    if t.claims.jti == j && t.afterLogout { OverLater(s, j, s.store.blacklist[j].time, s.now); }
  }

  /** With no session of the token left, neither Redis nor the table has one to accept. */
  lemma NothingToAccept(cfg: Config, s: State, j: Jti, until: Time)
    requires FinalInv(cfg, s, j) && OverBy(s, j, until) && until <= s.now
    ensures forall identity :: GetEntry(s.store, Key(identity, j), s.now).None?
    ensures FindRow(s.store, j, s.now).None?
  {
  }

  lemma FinalCheckBlacklist(cfg: Config, s: State, j: Jti, id: nat, ok: bool, spawn: nat)
    requires FinalInv(cfg, s, j) && Enabled(s, StepCheck(id, ok, spawn)) && s.tasks[id].check.CheckBlacklist?
    ensures FinalInv(cfg, DoCheck(s, id, ok, spawn), j)
  {
    var s' := DoCheck(s, id, ok, spawn);
    assert FinalTask(cfg, s, j, s.tasks[id]);
    if id in s'.tasks {
      FinalPassedBlacklist(cfg, s, j, s.tasks[id]);
      if s.tasks[id].claims.jti == j && s.tasks[id].afterLogout { OverAges(s, s', j, s.now); }
    }
    FinalFrame(cfg, s, s', j, id, id);
  }

  /** A read of Redis or the table ends in an answer, which a late check does not get. */
  lemma FinalAccepts(cfg: Config, s: State, j: Jti, id: nat, ok: bool, spawn: nat)
    requires FinalInv(cfg, s, j) && Enabled(s, StepCheck(id, ok, spawn)) && !s.tasks[id].check.CheckBlacklist?
    ensures var s' := DoCheck(s, id, ok, spawn);
            forall k :: 0 <= k < |s'.accepts| && s'.accepts[k].claims.jti == j ==> !s'.accepts[k].afterLogout
  {
    var t := s.tasks[id];
    assert FinalTask(cfg, s, j, t);
    if t.claims.jti == j && t.afterLogout { NothingToAccept(cfg, s, j, t.check.checkedAt); }
  }

  lemma CheckAges(s: State, id: nat, ok: bool, spawn: nat, j: Jti)
    requires Enabled(s, StepCheck(id, ok, spawn))
    ensures Ages(s, DoCheck(s, id, ok, spawn), j)
  {
    SameSessionsAge(s, DoCheck(s, id, ok, spawn), j);
  }

  lemma FinalCheckTasks(cfg: Config, s: State, j: Jti, id: nat, ok: bool, spawn: nat)
    requires FinalInv(cfg, s, j) && Enabled(s, StepCheck(id, ok, spawn)) && !s.tasks[id].check.CheckBlacklist?
    ensures var s' := DoCheck(s, id, ok, spawn);
            (id in s'.tasks ==> FinalTask(cfg, s', j, s'.tasks[id]))
            && (spawn in s'.tasks ==> FinalTask(cfg, s', j, s'.tasks[spawn]))
  {
    var t := s.tasks[id];
    var s' := DoCheck(s, id, ok, spawn);
    CheckAges(s, id, ok, spawn, j);
    assert FinalTask(cfg, s, j, t);
    if t.claims.jti == j && t.afterLogout { OverAges(s, s', j, t.check.checkedAt); }
  }

  lemma FinalCheckRead(cfg: Config, s: State, j: Jti, id: nat, ok: bool, spawn: nat)
    requires FinalInv(cfg, s, j) && Enabled(s, StepCheck(id, ok, spawn)) && !s.tasks[id].check.CheckBlacklist?
    ensures FinalInv(cfg, DoCheck(s, id, ok, spawn), j)
  {
    var s' := DoCheck(s, id, ok, spawn);
    FinalAccepts(cfg, s, j, id, ok, spawn);
    CheckAges(s, id, ok, spawn, j);
    FinalCheckTasks(cfg, s, j, id, ok, spawn);
    FinalFrame(cfg, s, s', j, id, spawn);
  }

  lemma FinalCheck(cfg: Config, s: State, j: Jti, id: nat, ok: bool, spawn: nat)
    requires FinalInv(cfg, s, j) && Enabled(s, StepCheck(id, ok, spawn))
    ensures FinalInv(cfg, DoCheck(s, id, ok, spawn), j)
  {
    if s.tasks[id].check.CheckBlacklist? {
      FinalCheckBlacklist(cfg, s, j, id, ok, spawn);
    } else {
      FinalCheckRead(cfg, s, j, id, ok, spawn);
    }
  }

  /** Every session that exists, or whose expiry is computed, is over a Ttl from now. */
  lemma OverInTtl(cfg: Config, s: State, j: Jti)
    requires FinalInv(cfg, s, j) && Settled(s, j)
    ensures OverBy(s, j, s.now + cfg.ttl)
  {
    forall i | i in s.tasks && s.tasks[i].Login? && s.tasks[i].claims.jti == j && s.tasks[i].login.Stamped?
      ensures s.tasks[i].login.expiresAt <= s.now + cfg.ttl
    {
      assert FinalTask(cfg, s, j, s.tasks[i]);
    }
  }

  lemma LogoutAges(cfg: Config, s: State, id: nat, ok: bool, j: Jti)
    requires Enabled(s, StepLogout(id, ok))
    ensures Ages(s, DoLogout(cfg, s, id, ok), j)
  {
    SameSessionsAge(s, DoLogout(cfg, s, id, ok), j);
  }

  /** What a logout of the token has learnt by its next step. */
  lemma FinalLogoutTask(cfg: Config, s: State, j: Jti, id: nat, ok: bool)
    requires FinalInv(cfg, s, j) && Enabled(s, StepLogout(id, ok)) && s.tasks[id].key.jti == j
    ensures var s' := DoLogout(cfg, s, id, ok);
            Settled(s', j) && (s.tasks[id].logout.Stamp? ==> OverBy(s', j, s.now + cfg.ttl))
    ensures var stage := s.tasks[id].logout;
            var s' := DoLogout(cfg, s, id, ok);
            (stage.Remaining? ==> OverBy(s', j, stage.until)) && (stage.Blacklist? ==> OverBy(s', j, s.now + stage.ttl))
  {
    var s' := DoLogout(cfg, s, id, ok);
    var stage := s.tasks[id].logout;
    LogoutAges(cfg, s, id, ok, j);
    assert LogoutTask(s, j, s.tasks[id]) by { assert FinalTask(cfg, s, j, s.tasks[id]); }
    SettledAges(s, s', j);
    if stage.Stamp? {
      OverInTtl(cfg, s, j);
      OverAges(s, s', j, s.now + cfg.ttl);
    } else if stage.Remaining? {
      OverAges(s, s', j, stage.until);
    } else if stage.Blacklist? {
      OverAges(s, s', j, s.now + stage.ttl);
    }
  }

  lemma FinalLogoutStage(cfg: Config, s: State, j: Jti, id: nat, ok: bool)
    requires FinalInv(cfg, s, j) && Enabled(s, StepLogout(id, ok))
    ensures var s' := DoLogout(cfg, s, id, ok); id in s'.tasks ==> FinalTask(cfg, s', j, s'.tasks[id])
  {
    if s.tasks[id].key.jti == j { FinalLogoutTask(cfg, s, j, id, ok); }
  }

  lemma FinalLogoutStore(cfg: Config, s: State, j: Jti, id: nat, ok: bool)
    requires FinalInv(cfg, s, j) && Enabled(s, StepLogout(id, ok))
    ensures var s' := DoLogout(cfg, s, id, ok);
            && (forall k :: k in s'.store.redis && k.jti == j ==> KeptFollows(s', j, s'.store.redis[k]))
            && (j in s'.loggedOut ==> j in s'.store.blacklist)
            && (j in s'.store.blacklist ==>
                  (j in s.store.blacklist && s'.store.blacklist[j] == s.store.blacklist[j])
                  || (Settled(s', j) && (s'.store.blacklist[j].At? ==> OverBy(s', j, s'.store.blacklist[j].time))))
  {
    if s.tasks[id].key.jti == j { FinalLogoutTask(cfg, s, j, id, ok); }
  }

  lemma FinalLogout(cfg: Config, s: State, j: Jti, id: nat, ok: bool)
    requires FinalInv(cfg, s, j) && Enabled(s, StepLogout(id, ok))
    ensures FinalInv(cfg, DoLogout(cfg, s, id, ok), j)
  {
    LogoutAges(cfg, s, id, ok, j);
    FinalLogoutStage(cfg, s, j, id, ok);
    FinalLogoutStore(cfg, s, j, id, ok);
    FinalFrame(cfg, s, DoLogout(cfg, s, id, ok), j, id, id);
  }

  lemma FinalOther(cfg: Config, s: State, j: Jti, st: Step)
    requires FinalInv(cfg, s, j) && Enabled(s, st)
    requires st.Tick? || st.BeginCheck? || st.BeginLogout? || st.BeginLogoutAll?
    requires st.BeginLogout? && st.key.jti == j ==> Settled(s, j)
    ensures FinalInv(cfg, Do(cfg, s, st), j)
  {
    var s' := Do(cfg, s, st);
    assert Ages(s, s', j);
    if st.BeginLogout? && st.key.jti == j { SettledAges(s, s', j); }
    if st.Tick? {
      TickTasks(cfg, s, st.to, j);
      FinalFrame(cfg, s, s', j, 0, 0);
    } else {
      FinalFrame(cfg, s, s', j, st.id, st.id);
    }
  }

  lemma TickTasks(cfg: Config, s: State, to: Time, j: Jti)
    requires FinalInv(cfg, s, j) && s.now <= to
    ensures forall i :: i in s.tasks ==> FinalTask(cfg, s.(now := to), j, s.tasks[i])
  {
    forall i | i in s.tasks ensures FinalTask(cfg, s.(now := to), j, s.tasks[i]) {
      TaskAges(cfg, s, s.(now := to), j, s.tasks[i]);
    }
  }

  lemma ActivityKeepsFollowing(cfg: Config, s: State, j: Jti, id: nat, ok: bool)
    requires FinalInv(cfg, s, j) && Enabled(s, StepActivity(id, ok)) && OrderlyStep(s, StepActivity(id, ok), j)
    ensures var s' := DoActivity(s, id, ok);
            && Ages(s, s', j) && (id in s'.tasks ==> FinalTask(cfg, s', j, s'.tasks[id]))
            && (forall k :: k in s'.store.redis && k.jti == j ==> KeptFollows(s', j, s'.store.redis[k]))
  {
    assert FinalTask(cfg, s, j, s.tasks[id]);
  }

  lemma FinalActivity(cfg: Config, s: State, j: Jti, id: nat, ok: bool)
    requires FinalInv(cfg, s, j) && Enabled(s, StepActivity(id, ok)) && OrderlyStep(s, StepActivity(id, ok), j)
    ensures FinalInv(cfg, DoActivity(s, id, ok), j)
  {
    ActivityKeepsFollowing(cfg, s, j, id, ok);
    FinalFrame(cfg, s, DoActivity(s, id, ok), j, id, id);
  }

  lemma RestoreKeepsFollowing(cfg: Config, s: State, j: Jti, id: nat, ok: bool)
    requires FinalInv(cfg, s, j) && Enabled(s, StepRestore(id, ok)) && OrderlyStep(s, StepRestore(id, ok), j)
    ensures var s' := DoRestore(s, id, ok);
            && Ages(s, s', j) && (id in s'.tasks ==> FinalTask(cfg, s', j, s'.tasks[id]))
            && (forall k :: k in s'.store.redis && k.jti == j ==> KeptFollows(s', j, s'.store.redis[k]))
  {
    assert FinalTask(cfg, s, j, s.tasks[id]);
    SameSessionsAge(s, DoRestore(s, id, ok), j);
  }

  lemma FinalRestore(cfg: Config, s: State, j: Jti, id: nat, ok: bool)
    requires FinalInv(cfg, s, j) && Enabled(s, StepRestore(id, ok)) && OrderlyStep(s, StepRestore(id, ok), j)
    ensures FinalInv(cfg, DoRestore(s, id, ok), j)
  {
    RestoreKeepsFollowing(cfg, s, j, id, ok);
    FinalFrame(cfg, s, DoRestore(s, id, ok), j, id, id);
  }

  lemma FinalLogoutAll(cfg: Config, s: State, j: Jti, id: nat, sweep: Sweep)
    requires FinalInv(cfg, s, j) && Enabled(s, StepLogoutAll(id, sweep))
    ensures FinalInv(cfg, DoLogoutAll(s, id, sweep), j)
  {
    FinalFrame(cfg, s, DoLogoutAll(s, id, sweep), j, id, id);
  }

  lemma FinalStep(cfg: Config, s: State, j: Jti, st: Step)
    requires FinalInv(cfg, s, j) && RowsIssued(s) && Enabled(s, st) && OrderlyStep(s, st, j)
    ensures FinalInv(cfg, Do(cfg, s, st), j)
  {
    match st
    case BeginLogin(_, _, _, _) => FinalBeginLogin(cfg, s, j, st);
    case StepLogin(id, ok) => FinalLogin(cfg, s, j, id, ok);
    case StepCheck(id, ok, spawn) => FinalCheck(cfg, s, j, id, ok, spawn);
    case StepLogout(id, ok) => FinalLogout(cfg, s, j, id, ok);
    case StepActivity(id, ok) => FinalActivity(cfg, s, j, id, ok);
    case StepRestore(id, ok) => FinalRestore(cfg, s, j, id, ok);
    case StepLogoutAll(id, sweep) => FinalLogoutAll(cfg, s, j, id, sweep);
    case _ => FinalOther(cfg, s, j, st);
  }

  lemma {:induction false} FinalRun(cfg: Config, s: State, steps: seq<Step>, j: Jti)
    requires FinalInv(cfg, s, j) && RowsIssued(s) && IsRun(cfg, s, steps) && Orderly(cfg, s, steps, j)
    ensures FinalInv(cfg, After(cfg, s, steps), j) && RowsIssued(After(cfg, s, steps))
    decreases |steps|
  {
    if steps != [] {
      FinalStep(cfg, s, j, steps[0]);
      RowsStep(cfg, s, steps[0]);
      FinalRun(cfg, Do(cfg, s, steps[0]), steps[1..], j);
    }
  }

  lemma FinalLeads(cfg: Config, s: State, t: State, j: Jti)
    requires FinalInv(cfg, s, j) && RowsIssued(s) && OrderlyLeads(cfg, s, t, j)
    ensures FinalInv(cfg, t, j) && RowsIssued(t)
  {
    var steps :| IsRun(cfg, s, steps) && Orderly(cfg, s, steps, j) && After(cfg, s, steps) == t;
    FinalRun(cfg, s, steps, j);
  }

  /** In an orderly run, once Logout or RevokeSession of a token has returned, no check that starts
      later accepts the token, whatever runs between and however long it takes. */
  lemma LogoutIsFinal(cfg: Config, now: Time, s: State, j: Jti)
    requires OrderlyLeads(cfg, Start(now), s, j)
    ensures NoLate(s, j)
  {
    FinalLeads(cfg, Start(now), s, j);
  }

  /** No accepted check of the token started after a logout of it had returned. */
  ghost predicate NoLate(s: State, j: Jti) {
    forall k :: 0 <= k < |s.accepts| && s.accepts[k].claims.jti == j ==> !s.accepts[k].afterLogout
  }

  // ----- A logout that begins before the expiry is computed -----

  /** The state a logout leaves whose DEL and lookup failed. */
  function LoggedOut(cfg: Config, s: State, id: nat, j: Jti): State {
    s.(store := PutBlacklist(s.store, j, cfg.ttl, s.now), loggedOut := s.loggedOut + {j}, tasks := s.tasks - {id})
  }

  lemma LogoutRuns(cfg: Config, s: State, id: nat, key: Key)
    requires id in s.tasks && s.tasks[id] == Logout(key, DeleteKey)
    ensures OrderlyLeads(cfg, s, LoggedOut(cfg, s, id, key.jti), key.jti)
  {
    var j := key.jti;
    var s1 := Do(cfg, s, StepLogout(id, false));
    var s2 := Do(cfg, s1, StepLogout(id, false));
    var s3 := Do(cfg, s2, StepLogout(id, true));
    var s4 := Do(cfg, s3, StepLogout(id, true));
    OrderlyNowhere(cfg, s, j);
    OrderlyOn(cfg, s, s, StepLogout(id, false), j);
    OrderlyOn(cfg, s, s1, StepLogout(id, false), j);
    OrderlyOn(cfg, s, s2, StepLogout(id, true), j);
    OrderlyOn(cfg, s, s3, StepLogout(id, true), j);
    OrderlyOn(cfg, s, s4, StepLogout(id, true), j);
    assert Do(cfg, s4, StepLogout(id, true)) == LoggedOut(cfg, s, id, j);
  }

  /** The state after a login has gone from Issued to its answer at one clock value. */
  function LoginDone(cfg: Config, s: State, login: nat): State
    requires login in s.tasks && s.tasks[login].Login?
  {
    var c := s.tasks[login].claims;
    var until := s.now + cfg.ttl;
    var store := SetEntry(InsertRow(s.store, c.jti, c.identity, s.now, until), Key(c.identity, c.jti),
                          Entry(s.now, until), cfg.ttl, s.now);
    s.(store := store, handed := s.handed + {c.jti}, tasks := s.tasks - {login})
  }

  lemma LoginRuns(cfg: Config, s: State, login: nat, j: Jti)
    requires login in s.tasks && s.tasks[login].Login? && s.tasks[login].login.Issued? && cfg.ttl > 0.0
    ensures OrderlyLeads(cfg, s, LoginDone(cfg, s, login), j)
  {
    var step := StepLogin(login, true);
    var s1 := Do(cfg, s, step);
    var s2 := Do(cfg, s1, step);
    OrderlyNowhere(cfg, s, j);
    OrderlyOn(cfg, s, s, step, j);
    OrderlyOn(cfg, s, s1, step, j);
    LoginCaches(cfg, s2, login, j);
    OrderlyAlong(cfg, s, s2, LoginDone(cfg, s, login), j);
  }

  /** From the inserted row on: the TTL, the SET and the answer at one clock value. */
  lemma LoginCaches(cfg: Config, s: State, login: nat, j: Jti)
    requires login in s.tasks && s.tasks[login].Login? && s.tasks[login].login.Inserted?
    requires s.now < s.tasks[login].login.expiresAt
    requires s.tasks[login].claims.jti in s.store.rows && s.store.rows[s.tasks[login].claims.jti].lastActivity == s.now
    ensures var c := s.tasks[login].claims;
            var until := s.tasks[login].login.expiresAt;
            var store := SetEntry(s.store, Key(c.identity, c.jti), Entry(s.now, until), until - s.now, s.now);
            OrderlyLeads(cfg, s, s.(store := store, handed := s.handed + {c.jti}, tasks := s.tasks - {login}), j)
  {
    var step := StepLogin(login, true);
    var s1 := Do(cfg, s, step);
    var s2 := Do(cfg, s1, step);
    OrderlyNowhere(cfg, s, j);
    OrderlyOn(cfg, s, s, step, j);
    OrderlyOn(cfg, s, s1, step, j);
    OrderlyOn(cfg, s, s2, step, j);
    var c := s.tasks[login].claims;
    assert TouchRow(s2.store, c.jti, s.now).rows == s2.store.rows;
  }

  /** A check that reads the blacklist when its entry is over, and finds the session in Redis. */
  lemma LateCheckRuns(cfg: Config, s: State, c: Claims, check: nat, to: Time)
    requires Verifies(s, c) && c.jti in s.handed && check !in s.tasks && check + 1 !in s.tasks
    requires s.now <= to && !Blacklisted(s.store, c.jti, to)
    requires GetEntry(s.store, Key(c.identity, c.jti), to).Some?
    ensures exists t :: OrderlyLeads(cfg, s, t, c.jti)
                        && t.accepts == s.accepts + [Accept(c, s.now, to, c.jti in s.loggedOut)]
  {
    var j := c.jti;
    var s1 := Do(cfg, s, BeginCheck(check, c));
    var s2 := Do(cfg, s1, Tick(to));
    var s3 := Do(cfg, s2, StepCheck(check, true, check + 1));
    OrderlyNowhere(cfg, s, j);
    OrderlyOn(cfg, s, s, BeginCheck(check, c), j);
    OrderlyOn(cfg, s, s1, Tick(to), j);
    OrderlyOn(cfg, s, s2, StepCheck(check, true, check + 1), j);
    OrderlyOn(cfg, s, s3, StepCheck(check, true, check + 1), j);
  }

  /** A logout that begins while the login has yet to compute the expiry, with the token still valid,
      can return before the login goes on. The session then outlives the blacklist entry, and a check
      accepts the token although its caller got it from the login after the logout had returned. */
  lemma EarlyLogoutFails(cfg: Config, s: State, login: nat, id: nat)
    requires Inv(cfg, s) && login in s.tasks && s.tasks[login].Login? && s.tasks[login].login.Issued?
    requires id in s.tasks && s.tasks[login].claims.purpose == Access
    requires var c := s.tasks[login].claims;
             Verifies(s, c) && s.tasks[id] == Logout(Key(c.identity, c.jti), DeleteKey)
    ensures exists t :: OrderlyLeads(cfg, s, t, s.tasks[login].claims.jti) && !NoLate(t, s.tasks[login].claims.jti)
  {
    var c := s.tasks[login].claims;
    var j := c.jti;
    var out := LoggedOut(cfg, s, id, j);
    var between := (s.now + c.expiresAt) / 2.0;
    var later := Do(cfg, out, Tick(between));
    LogoutRuns(cfg, s, id, Key(c.identity, j));
    OrderlyOn(cfg, s, out, Tick(between), j);
    LoginRuns(cfg, later, login, j);
    var ready := LoginDone(cfg, later, login);
    OrderlyAlong(cfg, s, later, ready, j);
    var check := FreshIds(ready.tasks.Keys);
    LateCheckRuns(cfg, ready, c, check, s.now + cfg.ttl);
    var t :| OrderlyLeads(cfg, ready, t, j) && t.accepts == ready.accepts + [Accept(c, between, s.now + cfg.ttl, true)];
    OrderlyAlong(cfg, s, ready, t, j);
    assert t.accepts[|ready.accepts|].afterLogout;
  }

  // ----- Exactly when a logout is final -----

  /** In every orderly continuation, no check that starts after a logout of the token has returned
      accepts it. */
  ghost predicate NeverLate(cfg: Config, s: State, j: Jti) {
    forall t | OrderlyLeads(cfg, s, t, j) :: NoLate(t, j)
  }

  /** The token has expired, and no check of it started after a logout. */
  ghost predicate Expired(s: State, j: Jti) {
    && j in s.issued && s.issued[j].expiresAt <= s.now && NoLate(s, j)
    && forall i :: i in s.tasks && s.tasks[i].Check? && s.tasks[i].claims.jti == j ==> !s.tasks[i].afterLogout
  }

  lemma {:induction false} ExpiredRun(cfg: Config, s: State, steps: seq<Step>, j: Jti)
    requires Expired(s, j) && IsRun(cfg, s, steps)
    ensures NoLate(After(cfg, s, steps), j)
    decreases |steps|
  {
    if steps != [] {
      assert Expired(Do(cfg, s, steps[0]), j);
      ExpiredRun(cfg, Do(cfg, s, steps[0]), steps[1..], j);
    }
  }

  lemma UnsettledHasNoLateChecks(cfg: Config, s: State, j: Jti)
    requires FinalInv(cfg, s, j) && !Settled(s, j)
    ensures forall i :: i in s.tasks && s.tasks[i].Check? && s.tasks[i].claims.jti == j ==> !s.tasks[i].afterLogout
  {
    forall i | i in s.tasks && s.tasks[i].Check? && s.tasks[i].claims.jti == j ensures !s.tasks[i].afterLogout {
      assert FinalTask(cfg, s, j, s.tasks[i]);
    }
  }

  lemma SettledIsFinal(cfg: Config, s: State, id: nat, key: Key)
    requires FinalInv(cfg, s, key.jti) && RowsIssued(s) && id !in s.tasks && Settled(s, key.jti)
    ensures NeverLate(cfg, Do(cfg, s, BeginLogout(id, key)), key.jti)
  {
    var begun := Do(cfg, s, BeginLogout(id, key));
    FinalStep(cfg, s, key.jti, BeginLogout(id, key));
    RowsStep(cfg, s, BeginLogout(id, key));
    forall t | OrderlyLeads(cfg, begun, t, key.jti) ensures NoLate(t, key.jti) {
      FinalLeads(cfg, begun, t, key.jti);
    }
  }

  lemma ExpiredIsFinal(cfg: Config, s: State, j: Jti)
    requires Expired(s, j)
    ensures NeverLate(cfg, s, j)
  {
    forall t | OrderlyLeads(cfg, s, t, j) ensures NoLate(t, j) {
      var steps :| IsRun(cfg, s, steps) && Orderly(cfg, s, steps, j) && After(cfg, s, steps) == t;
      ExpiredRun(cfg, s, steps, j);
    }
  }

  /** A logout of an issued access token, after an orderly run, is final in all orderly continuations
      exactly when it begins after the login has computed the session's expiry, or after the token has
      expired. */
  lemma LogoutFinalExactly(cfg: Config, now: Time, s: State, id: nat, j: Jti)
    requires OrderlyLeads(cfg, Start(now), s, j) && id !in s.tasks
    requires j in s.issued && s.issued[j].purpose == Access && !s.issued[j].temp
    ensures NeverLate(cfg, Do(cfg, s, BeginLogout(id, Key(s.issued[j].identity, j))), j) <==>
            Settled(s, j) || s.issued[j].expiresAt <= s.now
  {
    FinalLeads(cfg, Start(now), s, j);
    var steps :|
      IsRun(cfg, Start(now), steps) && Orderly(cfg, Start(now), steps, j) && After(cfg, Start(now), steps) == s;
    InvRun(cfg, Start(now), steps);
    var c := s.issued[j];
    var begun := Do(cfg, s, BeginLogout(id, Key(c.identity, j)));
    if Settled(s, j) {
      SettledIsFinal(cfg, s, id, Key(c.identity, j));
    } else if c.expiresAt <= s.now {
      UnsettledHasNoLateChecks(cfg, s, j);
      ExpiredIsFinal(cfg, begun, j);
    } else {
      var login :| login in s.tasks && s.tasks[login].Login? && s.tasks[login].claims.jti == j
                   && s.tasks[login].login.Issued?;
      assert TaskInv(cfg, s, s.tasks[login]);
      InvStep(cfg, s, BeginLogout(id, Key(c.identity, j)));
      EarlyLogoutFails(cfg, begun, login, id);
    }
  }

  /** From the first login on, a logout sent before the login has computed the expiry fails. */
  lemma EarlyLogoutExample(cfg: Config, now: Time, identity: int, j: Jti, refresh: Jti)
    requires j != refresh && cfg.ttl > 0.0
    ensures var s := Do(cfg, Start(now), BeginLogin(0, identity, j, refresh));
            !NeverLate(cfg, Do(cfg, s, BeginLogout(1, Key(identity, j))), j)
  {
    var login := BeginLogin(0, identity, j, refresh);
    var s := Do(cfg, Start(now), login);
    OrderlyNowhere(cfg, Start(now), j);
    OrderlyOn(cfg, Start(now), Start(now), login, j);
    assert s.tasks[0].login.Issued? && s.tasks[0].claims.jti == j;
    LogoutFinalExactly(cfg, now, s, 1, j);
  }
}
