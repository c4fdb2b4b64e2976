/** The two-tier session store: Redis session keys, the Redis token blacklist and the
    auth_sessions table, with the single reads and writes the session code performs on them.
    Times are exact. A Redis entry is live from its SET until the TTL sent with the SET has passed. */
module SessionStore {
  import opened Common

  type Jti = nat

  type Time = real

  type Duration = d: Time | d >= 0.0

  /** The Redis key "session:<identity>:<jti>". */
  datatype Key = Key(identity: int, jti: Jti)

  /** The part of SessionData the code reads back. */
  datatype Entry = Entry(lastActivity: Time, expiresAt: Time)

  /** What Redis holds under a session key. Its own life is not the expiry written inside. */
  datatype Kept = Kept(entry: Entry, until: Time)

  datatype Expiry = Never | At(time: Time)

  datatype Status = Active | Revoked

  /** One auth_sessions row, found by its unique session_token. */
  datatype Row = Row(identity: int, status: Status, lastActivity: Time, expiresAt: Time, logoutAt: Option<Time>)

  datatype Store = Store(
    redis: map<Key, Kept>,
    blacklist: map<Jti, Expiry>,
    rows: map<Jti, Row>)

  predicate Live(e: Expiry, now: Time) {
    e.Never? || now < e.time
  }

  /** Redis GET of a session key. */
  function GetEntry(st: Store, key: Key, now: Time): Option<Entry> {
    if key in st.redis && now < st.redis[key].until then Some(st.redis[key].entry) else None
  }

  /** Redis SET of a session key. The TTL is relative: it counts from the moment the SET lands. */
  function SetEntry(st: Store, key: Key, e: Entry, ttl: Time, now: Time): Store {
    st.(redis := st.redis[key := Kept(e, now + ttl)])
  }

  function DelEntry(st: Store, key: Key): Store {
    st.(redis := st.redis - {key})
  }

  /** The keys matching session:<identity>:*. */
  function KeysOf(st: Store, identity: int): set<Key> {
    set k | k in st.redis && k.identity == identity
  }

  predicate Blacklisted(st: Store, jti: Jti, now: Time) {
    jti in st.blacklist && Live(st.blacklist[jti], now)
  }

  /** Redis SET of a blacklist key. The client sends no expiry for a non-positive TTL. */
  function PutBlacklist(st: Store, jti: Jti, ttl: Time, now: Time): Store {
    st.(blacklist := st.blacklist[jti := if ttl > 0.0 then At(now + ttl) else Never])
  }

  /** FindSessionByToken: only active, unexpired rows are visible. */
  function FindRow(st: Store, jti: Jti, now: Time): Option<Row> {
    if jti in st.rows && st.rows[jti].status == Active && now < st.rows[jti].expiresAt
    then Some(st.rows[jti]) else None
  }

  function InsertRow(st: Store, jti: Jti, identity: int, now: Time, expiresAt: Time): Store {
    st.(rows := st.rows[jti := Row(identity, Active, now, expiresAt, None)])
  }

  function TouchRow(st: Store, jti: Jti, now: Time): Store {
    if jti in st.rows then st.(rows := st.rows[jti := st.rows[jti].(lastActivity := now)]) else st
  }

  function RevokeRow(st: Store, jti: Jti, now: Time): Store {
    if jti in st.rows
    then st.(rows := st.rows[jti := st.rows[jti].(status := Revoked, logoutAt := Some(now))])
    else st
  }

  /** UPDATE ... SET status = 'revoked' WHERE identity_id = $2 AND status = 'active'. */
  function RevokeAll(st: Store, identity: int, now: Time): Store {
    st.(rows := map j | j in st.rows ::
      if st.rows[j].identity == identity && st.rows[j].status == Active
      then st.rows[j].(status := Revoked, logoutAt := Some(now)) else st.rows[j])
  }

  /** Rows are never removed, keep their identity, and a revoked row stays revoked. */
  ghost predicate StatusMonotone(a: Store, b: Store) {
    forall j :: j in a.rows ==>
      j in b.rows && b.rows[j].identity == a.rows[j].identity &&
      (a.rows[j].status == Revoked ==> b.rows[j].status == Revoked)
  }
}
