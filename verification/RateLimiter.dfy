/** Fixed-window counters in Redis and the limits built on them. Times are milliseconds. A
    history of every increment is kept beside each counter, so that limits can be stated over
    whole runs. */
module RateLimiter {
  import opened Common

  const Minute := 60_000
  const LoginWindow := 15 * Minute
  const MaxLogins := 5
  const ShortWindow := Minute
  const LongWindow := 30 * Minute
  const MaxCodes := 4

  /** Redis keys; their printed forms start with different prefixes. */
  datatype Key = Login(ipAndEmail: string) | EmailShort(email: string) | EmailLong(email: string)

  function WindowOf(key: Key): (w: int)
    ensures w > 0
  {
    match key
    case Login(_) => LoginWindow
    case EmailShort(_) => ShortWindow
    case EmailLong(_) => LongWindow
  }

  /** expiresAt is None when EXPIRE failed: such a counter stays. */
  datatype Counter = Counter(count: nat, expiresAt: Option<int>)

  /** Which commands of an email check succeed: the lock's TTL, the two INCRs, the lock's SET, and
      EXPIRE on new counters. */
  datatype Works = Works(lockRead: bool, short: bool, long: bool, lockWrite: bool, expires: bool)

  /** One increment: its time, and the window it fell into. */
  datatype Mark = Mark(time: int, window: nat, start: int, count: nat, expires: bool)

  // ----- Histories of one counter -----

  predicate Continues(w: int, m: Mark, n: Mark) {
    n == Mark(n.time, m.window, m.start, m.count + 1, m.expires) && (m.expires ==> n.time < m.start + w)
  }

  predicate Opens(w: int, m: Mark, n: Mark) {
    n == Mark(n.time, m.window + 1, n.time, 1, n.expires) && m.expires && n.time >= m.start + w
  }

  ghost predicate History(w: int, h: seq<Mark>) {
    && (h != [] ==> h[0] == Mark(h[0].time, 0, h[0].time, 1, h[0].expires))
    && (forall i :: 0 < i < |h| ==> h[i - 1].time <= h[i].time)
    && (forall i :: 0 < i < |h| ==> Continues(w, h[i - 1], h[i]) || Opens(w, h[i - 1], h[i]))
  }

  /** How two increments of a history compare. */
  lemma {:induction false} Compare(w: int, h: seq<Mark>, i: nat, j: nat)
    requires w > 0 && History(w, h) && i <= j < |h|
    ensures h[i].start <= h[i].time <= h[j].time && h[i].window <= h[j].window && 1 <= h[i].count
    ensures h[i].window == h[j].window ==> h[i].start == h[j].start && h[j].count == h[i].count + (j - i)
    ensures h[i].window < h[j].window ==> h[i].time <= h[j].start && h[j].start >= h[i].start + w
    ensures h[i].window + 2 <= h[j].window ==> h[j].start >= h[i].time + w
    decreases j
  {
    if i < j {
      Compare(w, h, i, j - 1);
      Compare(w, h, j - 1, j - 1);
      assert Continues(w, h[j - 1], h[j]) || Opens(w, h[j - 1], h[j]);
    } else if i > 0 {
      Compare(w, h, i - 1, i - 1);
      assert Continues(w, h[i - 1], h[i]) || Opens(w, h[i - 1], h[i]);
    }
  }

  /** A set that maps injectively into n numbers has at most n elements. */
  lemma {:induction false} Pigeonhole(s: set<int>, f: int -> int, n: nat)
    requires forall x :: x in s ==> 0 <= f(x) < n
    requires forall x, y :: x in s && y in s && f(x) == f(y) ==> x == y
    ensures |s| <= n
    decreases n
  {
    if exists x :: x in s && f(x) == n - 1 {
      var x :| x in s && f(x) == n - 1;
      Pigeonhole(s - {x}, f, n - 1);
    } else if n > 0 {
      Pigeonhole(s, f, n - 1);
    } else if s != {} {
      assert forall x :: x !in s;
    }
  }

  /** The allowed increments in the w milliseconds from a time on. */
  ghost function AllowedIn(h: seq<Mark>, max: nat, from: int, w: int): set<int> {
    set i | 0 <= i < |h| && from <= h[i].time < from + w && h[i].count <= max
  }

  ghost function AllowedInWindow(h: seq<Mark>, max: nat, k: nat): set<int> {
    set i | 0 <= i < |h| && h[i].window == k && h[i].count <= max
  }

  /** At most max increments of a window are allowed. */
  lemma WindowCap(w: int, h: seq<Mark>, max: nat, k: nat)
    requires w > 0 && History(w, h)
    ensures |AllowedInWindow(h, max, k)| <= max
  {
    var s := AllowedInWindow(h, max, k);
    var f := (i: int) => if 0 <= i < |h| then h[i].count - 1 else 0;
    forall i | i in s ensures 0 <= f(i) < max { Compare(w, h, i, i); }
    forall i, j | i in s && j in s && f(i) == f(j) ensures i == j {
      if i <= j { Compare(w, h, i, j); } else { Compare(w, h, j, i); }
    }
    Pigeonhole(s, f, max);
  }

  /** Numbers the allowed increments of window k and the next one. */
  ghost function Slot(h: seq<Mark>, max: nat, k: nat): int -> int {
    (j: int) => if !(0 <= j < |h|) then 0 else if h[j].window == k then h[j].count - 1 else max + h[j].count - 1
  }

  lemma TwoWindows(w: int, h: seq<Mark>, max: nat, t: int, i: int)
    requires w > 0 && History(w, h) && First(AllowedIn(h, max, t, w), i)
    ensures forall j :: j in AllowedIn(h, max, t, w) ==>
      h[i].window <= h[j].window <= h[i].window + 1 && h[j].count >= 1
  {
    forall j | j in AllowedIn(h, max, t, w)
      ensures h[i].window <= h[j].window <= h[i].window + 1 && h[j].count >= 1
    {
      Compare(w, h, i, j);
      Compare(w, h, j, j);
    }
  }

  /** At most twice max increments are allowed in any interval of the window's length. */
  lemma SlidingCap(w: int, h: seq<Mark>, max: nat, t: int)
    requires w > 0 && History(w, h)
    ensures |AllowedIn(h, max, t, w)| <= 2 * max
  {
    var s := AllowedIn(h, max, t, w);
    if exists x :: Among(s, x) {
      var x :| Among(s, x);
      FirstExists(s, x);
      var i :| First(s, i);
      var f := Slot(h, max, h[i].window);
      TwoWindows(w, h, max, t, i);
      forall a, b | a in s && b in s && f(a) == f(b) ensures a == b {
        assert h[a].window == h[b].window && h[a].count == h[b].count;
        if a <= b { Compare(w, h, a, b); } else { Compare(w, h, b, a); }
      }
      Pigeonhole(s, f, 2 * max);
    } else {
      if s != {} { SomeId(s); }
    }
  }

  ghost predicate First(s: set<int>, i: int) {
    i in s && forall j :: j in s ==> i <= j
  }

  /** A set of indices with a member has a least one. */
  lemma FirstExists(s: set<int>, x: int)
    requires x in s && forall i :: i in s ==> 0 <= i
    ensures exists i :: First(s, i)
  {
    var k := 0;
    while k !in s
      invariant 0 <= k <= x && forall i :: i in s ==> k <= i
      decreases x - k
    {
      k := k + 1;
    }
    assert First(s, k);
  }

  // ----- The limiter -----

  /** Redis still holds the counter of the last increment. */
  predicate Running(w: int, h: seq<Mark>, now: int) {
    h != [] && (h[|h| - 1].expires ==> now < h[|h| - 1].start + w)
  }

  /** The increment that follows a history at a time. */
  function NextMark(w: int, h: seq<Mark>, now: int, expires: bool): Mark {
    if Running(w, h, now) then h[|h| - 1].(time := now, count := h[|h| - 1].count + 1)
    else Mark(now, if h == [] then 0 else h[|h| - 1].window + 1, now, 1, expires)
  }

  lemma HistoryGrows(w: int, h: seq<Mark>, now: int, expires: bool)
    requires History(w, h) && (h != [] ==> h[|h| - 1].time <= now)
    ensures History(w, h + [NextMark(w, h, now, expires)])
  {
    var m := NextMark(w, h, now, expires);
    if h != [] { assert Continues(w, h[|h| - 1], m) || Opens(w, h[|h| - 1], m); }
  }

  /** What Redis holds after a history. */
  function CounterOf(w: int, m: Mark): Counter {
    Counter(m.count, if m.expires then Some(m.start + w) else None)
  }

  ghost predicate Matches(w: int, c: Counter, h: seq<Mark>, clock: int) {
    h != [] && History(w, h) && h[|h| - 1].time <= clock && c == CounterOf(w, h[|h| - 1])
  }

  ghost predicate AllMatch(counters: map<Key, Counter>, histories: map<Key, seq<Mark>>, clock: int) {
    counters.Keys == histories.Keys &&
    forall key :: key in counters ==> Matches(WindowOf(key), counters[key], histories[key], clock)
  }

  /** INCR, then EXPIRE on a window's first increment. */
  function Bump(w: int, c: Option<Counter>, now: int, expires: bool): Counter {
    if c.Some? && (c.value.expiresAt.None? || now < c.value.expiresAt.value) then c.value.(count := c.value.count + 1)
    else Counter(1, if expires then Some(now + w) else None)
  }

  /** The counter INCR and EXPIRE leave is the one the history tells. */
  lemma NextCounter(w: int, c: Option<Counter>, h: seq<Mark>, clock: int, now: int, expires: bool)
    requires (c.None? <==> h == []) && (c.Some? ==> Matches(w, c.value, h, clock))
    ensures CounterOf(w, NextMark(w, h, now, expires)) == Bump(w, c, now, expires)
  {
  }

  type Histories = map<Key, seq<Mark>>

  ghost function InHistories(h: Histories, key: Key): seq<Mark> {
    if key in h then h[key] else []
  }

  ghost function Incremented(h: Histories, key: Key, now: int, expires: bool): Histories {
    h[key := InHistories(h, key) + [NextMark(WindowOf(key), InHistories(h, key), now, expires)]]
  }

  /** What Redis holds after one more increment at a later time. */
  lemma IncrementMatches(counters: map<Key, Counter>, h: Histories, clock: int, key: Key, now: int, expires: bool)
    requires AllMatch(counters, h, clock) && now >= clock
    ensures var m := NextMark(WindowOf(key), InHistories(h, key), now, expires);
            AllMatch(counters[key := CounterOf(WindowOf(key), m)], Incremented(h, key, now, expires), now)
  {
    var before := InHistories(h, key);
    var m := NextMark(WindowOf(key), before, now, expires);
    if key in counters { assert Matches(WindowOf(key), counters[key], before, clock); }
    HistoryGrows(WindowOf(key), before, now, expires);
    assert Matches(WindowOf(key), CounterOf(WindowOf(key), m), before + [m], now);
    forall k | k in counters && k != key ensures Matches(WindowOf(k), counters[k], h[k], now) {
      assert Matches(WindowOf(k), counters[k], h[k], clock);
    }
  }

  lemma CounterMatches(counters: map<Key, Counter>, h: Histories, clock: int, key: Key)
    requires AllMatch(counters, h, clock)
    ensures key in counters <==> InHistories(h, key) != []
    ensures key in counters ==> Matches(WindowOf(key), counters[key], InHistories(h, key), clock)
  {
    if key in counters { assert Matches(WindowOf(key), counters[key], h[key], clock); }
  }

  /** The short counter lets the request through to the long one. */
  ghost predicate PassesShort(h: Histories, email: string, now: int, works: Works) {
    works.short && NextMark(ShortWindow, InHistories(h, EmailShort(email)), now, works.expires).count <= 1
  }

  ghost predicate PassesLong(h: Histories, email: string, now: int, works: Works) {
    works.long && NextMark(LongWindow, InHistories(h, EmailLong(email)), now, works.expires).count <= MaxCodes
  }

  ghost function AfterShort(h: Histories, email: string, now: int, works: Works): Histories {
    if works.short then Incremented(h, EmailShort(email), now, works.expires) else h
  }

  ghost function AfterLong(h: Histories, email: string, now: int, works: Works): Histories {
    if works.long then Incremented(h, EmailLong(email), now, works.expires) else h
  }

  /** The short counter counts every request that reaches it, the long one those let through. */
  ghost function AfterCheck(h: Histories, email: string, now: int, works: Works): Histories {
    var short := AfterShort(h, email, now, works);
    if PassesShort(h, email, now, works) then AfterLong(short, email, now, works) else short
  }

  /** The short counter of an address is not its long one. */
  lemma ShortLeavesLong(h: Histories, email: string, now: int, works: Works)
    ensures PassesLong(AfterShort(h, email, now, works), email, now, works) <==> PassesLong(h, email, now, works)
  {
  }

  /** A check appends a mark of its time to the short history, whose count says whether it passes. */
  lemma ShortCounted(h: Histories, email: string, now: int, works: Works)
    ensures var s0 := InHistories(h, EmailShort(email));
            var s := InHistories(AfterCheck(h, email, now, works), EmailShort(email));
            && (if works.short then |s| == |s0| + 1 && s[..|s0|] == s0 && s[|s0|].time == now else s == s0)
            && (PassesShort(h, email, now, works) <==> works.short && s[|s0|].count <= 1)
  {
  }

  /** One that passes appends one to the long history as well. */
  lemma LongCounted(h: Histories, email: string, now: int, works: Works)
    ensures var l0 := InHistories(h, EmailLong(email));
            var l := InHistories(AfterCheck(h, email, now, works), EmailLong(email));
            if PassesShort(h, email, now, works) && works.long
            then && |l| == |l0| + 1 && l[..|l0|] == l0 && l[|l0|].time == now
                 && (PassesLong(h, email, now, works) <==> l[|l0|].count <= 4)
            else l == l0
  {
    var short := AfterShort(h, email, now, works);
    assert InHistories(short, EmailLong(email)) == InHistories(h, EmailLong(email));
  }

  lemma OthersNotCounted(h: Histories, email: string, now: int, works: Works, key: Key)
    requires key != EmailShort(email) && key != EmailLong(email)
    ensures InHistories(AfterCheck(h, email, now, works), key) == InHistories(h, key)
  {
  }

  class Limiter {
    var counters: map<Key, Counter>
    /** email -> the time its verification lock ends. */
    var locks: map<string, int>
    ghost var clock: int
    ghost var histories: map<Key, seq<Mark>>

    ghost predicate Valid()
      reads this`counters, this`histories, this`clock
    {
      AllMatch(counters, histories, clock)
    }

    ghost function HistoryOf(key: Key): seq<Mark>
      reads this`histories
    {
      InHistories(histories, key)
    }

    constructor (now: int)
      ensures Valid() && clock == now && counters == map[] && locks == map[] && histories == map[]
    {
      counters, locks, clock, histories := map[], map[], now, map[];
    }

    /** One more attempt under the key. `expires` says whether EXPIRE worked. */
    method Count(key: Key, now: int, expires: bool) returns (count: nat)
      requires Valid() && now >= clock
      modifies this`counters, this`clock, this`histories
      ensures Valid() && clock == now
      ensures count == NextMark(WindowOf(key), old(HistoryOf(key)), now, expires).count
      ensures HistoryOf(key) == old(HistoryOf(key)) + [NextMark(WindowOf(key), old(HistoryOf(key)), now, expires)]
      ensures forall k :: k != key ==> HistoryOf(k) == old(HistoryOf(k))
    {
      count := Increment(key, now, expires);
    }

    method Increment(key: Key, now: int, expires: bool) returns (count: nat)
      requires Valid() && now >= clock
      modifies this`counters, this`clock, this`histories
      ensures Valid() && clock == now
      ensures count == NextMark(WindowOf(key), InHistories(old(histories), key), now, expires).count
      ensures histories == Incremented(old(histories), key, now, expires)
    {
      ghost var h := InHistories(histories, key);
      IncrementMatches(counters, histories, clock, key, now, expires);
      CounterMatches(counters, histories, clock, key);
      var c := if key in counters then Some(counters[key]) else None;
      NextCounter(WindowOf(key), c, h, clock, now, expires);
      var next := Bump(WindowOf(key), c, now, expires);
      counters, histories, clock := counters[key := next], Incremented(histories, key, now, expires), now;
      count := next.count;
    }

    /** checkLimit. `up` says whether Redis answers; without it nobody is let in. */
    method CheckLoginAttempt(ip: string, email: string, now: int, up: bool, expires: bool)
      returns (allowed: bool, remaining: int)
      requires Valid() && now >= clock
      modifies this`counters, this`clock, this`histories
      ensures Valid() && clock >= old(clock)
      ensures !up ==> !allowed && histories == old(histories)
      ensures up ==>
        var key := Login(ip + ":" + email);
        var m := NextMark(LoginWindow, old(HistoryOf(key)), now, expires);
        && HistoryOf(key) == old(HistoryOf(key)) + [m] && m.time == now
        && (allowed <==> m.count <= 5)
        && remaining == (if allowed then 5 - m.count else 0)
      ensures forall k :: k != Login(ip + ":" + email) ==> HistoryOf(k) == old(HistoryOf(k))
    {
      if !up { return false, 0; }
      var count := Count(Login(ip + ":" + email), now, expires);
      remaining := MaxLogins - count;
      if remaining < 0 { remaining := 0; }
      allowed := count <= MaxLogins;
    }

    /** Every counter counts within its window: a new one opens exactly when the old one's time, fifteen
        minutes, one minute or thirty, is over. */
    lemma WindowsLast(id: string)
      requires Valid()
      ensures History(900_000, HistoryOf(Login(id)))
      ensures History(60_000, HistoryOf(EmailShort(id)))
      ensures History(1_800_000, HistoryOf(EmailLong(id)))
    {
      IsHistory(Login(id));
      IsHistory(EmailShort(id));
      IsHistory(EmailLong(id));
    }

    lemma IsHistory(key: Key)
      requires Valid()
      ensures History(WindowOf(key), HistoryOf(key))
    {
      if key in counters { assert Matches(WindowOf(key), counters[key], histories[key], clock); }
    }

    /** In every run, at most 5 logins of an address and email are allowed per window, and at
        most 10 in any 15 minutes. */
    lemma LoginsAreLimited(ip: string, email: string, k: nat, t: int)
      requires Valid()
      ensures |AllowedInWindow(HistoryOf(Login(ip + ":" + email)), 5, k)| <= 5
      ensures |AllowedIn(HistoryOf(Login(ip + ":" + email)), 5, t, 900_000)| <= 10
    {
      var key := Login(ip + ":" + email);
      IsHistory(key);
      WindowCap(LoginWindow, HistoryOf(key), MaxLogins, k);
      SlidingCap(LoginWindow, HistoryOf(key), MaxLogins, t);
    }

    /** None when Redis does not answer. */
    method IsEmailVerificationLocked(email: string, now: int, up: bool) returns (locked: Option<bool>)
      ensures locked == if up then Some(email in locks && now < locks[email]) else None
    {
      return if up then Some(email in locks && now < locks[email]) else None;
    }

    method PassShort(email: string, now: int, works: Works) returns (passed: bool)
      requires Valid() && now >= clock
      modifies this`counters, this`clock, this`histories
      ensures Valid() && old(clock) <= clock <= now
      ensures passed <==> PassesShort(old(histories), email, now, works)
      ensures histories == AfterShort(old(histories), email, now, works)
    {
      if !works.short { return false; }
      var count := Increment(EmailShort(email), now, works.expires);
      return count <= 1;
    }

    method PassLong(email: string, now: int, works: Works) returns (passed: bool)
      requires Valid() && now >= clock
      modifies this`counters, this`clock, this`histories
      ensures Valid() && old(clock) <= clock <= now
      ensures passed <==> PassesLong(old(histories), email, now, works)
      ensures histories == AfterLong(old(histories), email, now, works)
    {
      if !works.long { return false; }
      var count := Increment(EmailLong(email), now, works.expires);
      return count <= MaxCodes;
    }

    method CountAttempt(email: string, now: int, works: Works) returns (passedShort: bool, passedLong: bool)
      requires Valid() && now >= clock
      modifies this`counters, this`clock, this`histories
      ensures Valid() && old(clock) <= clock <= now
      ensures passedShort <==> PassesShort(old(histories), email, now, works)
      ensures passedLong <==> passedShort && PassesLong(old(histories), email, now, works)
      ensures histories == AfterCheck(old(histories), email, now, works)
    {
      ShortLeavesLong(histories, email, now, works);
      passedShort := PassShort(email, now, works);
      passedLong := false;
      if passedShort { passedLong := PassLong(email, now, works); }
    }

    /** Every request is counted under the short limit; one that passes it is counted under the long limit
        too, and if that refuses it, it locks the address, if it can. */
    method CheckEmailVerificationAttempt(email: string, now: int, works: Works) returns (allowed: bool)
      requires Valid() && now >= clock
      modifies this
      ensures Valid() && old(clock) <= clock <= now
      ensures allowed <==>
        PassesShort(old(histories), email, now, works) && PassesLong(old(histories), email, now, works)
      ensures histories == AfterCheck(old(histories), email, now, works)
      ensures forall k :: k != EmailShort(email) && k != EmailLong(email) ==> HistoryOf(k) == old(HistoryOf(k))
      ensures var s0, s := old(HistoryOf(EmailShort(email))), HistoryOf(EmailShort(email));
              var l0, l := old(HistoryOf(EmailLong(email))), HistoryOf(EmailLong(email));
              && (if works.short then |s| == |s0| + 1 && s[..|s0|] == s0 && s[|s0|].time == now else s == s0)
              && var through := works.short && s[|s0|].count <= 1;
                 && (if through && works.long
                     then |l| == |l0| + 1 && l[..|l0|] == l0 && l[|l0|].time == now else l == l0)
                 && (allowed <==> through && works.long && l[|l0|].count <= 4)
                 && locks == if through && works.long && l[|l0|].count > 4 && works.lockWrite
                             then old(locks)[email := now + 1_800_000] else old(locks)
    {
      ShortCounted(histories, email, now, works);
      LongCounted(histories, email, now, works);
      forall k | k != EmailShort(email) && k != EmailLong(email)
        ensures InHistories(AfterCheck(histories, email, now, works), k) == HistoryOf(k)
      {
        OthersNotCounted(histories, email, now, works, k);
      }
      var passedShort: bool;
      passedShort, allowed := CountAttempt(email, now, works);
      if passedShort && works.long && !allowed && works.lockWrite {
        locks := locks[email := now + LongWindow];
      }
    }
  }
}
