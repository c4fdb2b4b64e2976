/** Email verification codes: the lock, the two limits and the resend cap, in the order they are
    checked. */
module EmailVerification {
  import opened Common
  import opened RateLimiter

  const CodeTtl := 10 * Minute
  const MaxResends := 3

  datatype Refusal = Unavailable | Locked | Limited | AlreadyRegistered | SessionExpired | TooManyResends

  datatype Token = Token(email: string, token: string)

  /** The metadata kept beside a code. */
  datatype Meta = Meta(resends: nat, expiresAt: int)

  /** Increments of the long counter are a minute apart, and the last of them is no later than
      the start of the short counter's last window. */
  ghost predicate Spaced(short: seq<Mark>, long: seq<Mark>) {
    && (forall i :: 0 < i < |long| ==> long[i].time >= long[i - 1].time + ShortWindow)
    && (long != [] ==> short != [] && long[|long| - 1].time <= short[|short| - 1].start)
  }

  /** A request let through by the short counter is a minute after the one before it, whether or
      not it comes to be counted. */
  lemma SpacedNext(short: seq<Mark>, long: seq<Mark>, now: int, expires: bool)
    requires Spaced(short, long) && History(ShortWindow, short)
    ensures var m := NextMark(ShortWindow, short, now, expires);
            var n := NextMark(LongWindow, long, now, expires);
            Spaced(short + [m], long) && (m.count <= 1 ==> Spaced(short + [m], long + [n]))
  {
    if short != [] { Compare(ShortWindow, short, |short| - 1, |short| - 1); }
  }

  lemma {:induction false} Apart(long: seq<Mark>, i: nat, j: nat)
    requires i < j < |long|
    requires forall k :: 0 < k < |long| ==> long[k].time >= long[k - 1].time + ShortWindow
    ensures long[j].time >= long[i].time + ShortWindow
  {
    if i + 1 < j { Apart(long, i, j - 1); }
  }

  /** The codes sent under each token are the resends its metadata counts, and those it missed. */
  ghost predicate Tallied(codes: map<Token, int>, metas: map<Token, Meta>, sent: map<Token, nat>,
                          missed: map<Token, nat>) {
    && (forall t :: t in codes <==> t in sent) && (forall t :: t in codes <==> t in missed)
    && (forall t :: t in metas ==> t in codes)
    && (forall t :: t in metas ==> metas[t].resends <= MaxResends && sent[t] == metas[t].resends + 1 + missed[t])
    && forall t :: t in codes && t !in metas ==> sent[t] == 1
  }

  /** Every address's counters are spaced. */
  ghost predicate AllSpaced(h: Histories) {
    forall email :: Spaced(InHistories(h, EmailShort(email)), InHistories(h, EmailLong(email)))
  }

  lemma OtherAddresses(h: Histories, email: string, now: int, works: Works, other: string)
    requires other != email
    ensures var h' := AfterCheck(h, email, now, works);
            InHistories(h', EmailShort(other)) == InHistories(h, EmailShort(other))
            && InHistories(h', EmailLong(other)) == InHistories(h, EmailLong(other))
  {
  }

  lemma SameAddress(h: Histories, email: string, now: int, works: Works)
    requires Spaced(InHistories(h, EmailShort(email)), InHistories(h, EmailLong(email)))
    requires History(ShortWindow, InHistories(h, EmailShort(email)))
    ensures var h' := AfterCheck(h, email, now, works);
            Spaced(InHistories(h', EmailShort(email)), InHistories(h', EmailLong(email)))
  {
    SpacedNext(InHistories(h, EmailShort(email)), InHistories(h, EmailLong(email)), now, works.expires);
    var short := AfterShort(h, email, now, works);
    assert InHistories(short, EmailLong(email)) == InHistories(h, EmailLong(email));
  }

  lemma CheckKeepsSpaced(h: Histories, email: string, now: int, works: Works)
    requires AllSpaced(h) && History(ShortWindow, InHistories(h, EmailShort(email)))
    ensures AllSpaced(AfterCheck(h, email, now, works))
  {
    var h' := AfterCheck(h, email, now, works);
    SameAddress(h, email, now, works);
    forall e ensures Spaced(InHistories(h', EmailShort(e)), InHistories(h', EmailLong(e))) {
      if e != email { OtherAddresses(h, email, now, works, e); }
    }
  }

  /** A request was refused by the lock, or could not read it, or it was counted. */
  ghost predicate Counted(before: Histories, after: Histories, locks: map<string, int>, email: string, now: int,
                          works: Works) {
    if !works.lockRead || (email in locks && now < locks[email]) then after == before
    else
      var s0, s := InHistories(before, EmailShort(email)), InHistories(after, EmailShort(email));
      var l0, l := InHistories(before, EmailLong(email)), InHistories(after, EmailLong(email));
      && (if works.short then |s| == |s0| + 1 && s[..|s0|] == s0 && s[|s0|].time == now else s == s0)
      && (if works.short && s[|s0|].count <= 1 && works.long
          then |l| == |l0| + 1 && l[..|l0|] == l0 && l[|l0|].time == now else l == l0)
  }

  /** The first n requests of an address came a minute apart, from a start on. */
  ghost predicate Regular(h: Histories, email: string, start: int, n: nat) {
    var short, long := InHistories(h, EmailShort(email)), InHistories(h, EmailLong(email));
    if n == 0 then short == [] && long == []
    else
      && short != [] && long != []
      && var s, l, at := short[|short| - 1], long[|long| - 1], start + (n - 1) * 60_000;
         s.expires && s.start == at && l.expires && l.start == start && l.count == n
  }

  lemma RegularNext(h: Histories, email: string, start: int, n: nat, works: Works)
    requires n <= 4 && Regular(h, email, start, n) && works == Works(true, true, true, true, true)
    ensures var now := start + n * 60_000;
            && PassesShort(h, email, now, works) && (PassesLong(h, email, now, works) <==> n < 4)
            && Regular(AfterCheck(h, email, now, works), email, start, n + 1)
  {
    var short := AfterShort(h, email, start + n * 60_000, works);
    assert InHistories(short, EmailLong(email)) == InHistories(h, EmailLong(email));
  }

  const AllWork := Works(true, true, true, true, true)

  /** The histories after n requests of an address a minute apart. */
  ghost function Requested(h: Histories, email: string, start: int, n: nat): Histories {
    if n == 0 then h else AfterCheck(Requested(h, email, start, n - 1), email, start + (n - 1) * 60_000, AllWork)
  }

  lemma {:induction false} RequestedRegular(h: Histories, email: string, start: int, n: nat)
    requires Regular(h, email, start, 0) && n <= 5
    ensures Regular(Requested(h, email, start, n), email, start, n)
  {
    if n > 0 {
      RequestedRegular(h, email, start, n - 1);
      RegularNext(Requested(h, email, start, n - 1), email, start, n - 1, AllWork);
    }
  }

  /** Of an address without history the limits admit four requests a minute apart, and not the fifth. */
  lemma FourAreAdmitted(h: Histories, email: string, start: int, n: nat)
    requires InHistories(h, EmailShort(email)) == [] && InHistories(h, EmailLong(email)) == [] && n <= 4
    ensures var g, now := Requested(h, email, start, n), start + n * 60_000;
            PassesShort(g, email, now, AllWork) && (PassesLong(g, email, now, AllWork) <==> n < 4)
  {
    RequestedRegular(h, email, start, n);
    RegularNext(Requested(h, email, start, n), email, start, n, AllWork);
  }

  // ----- The admitted requests of an address -----

  type Log = map<string, seq<int>>

  ghost function InLog(log: Log, email: string): seq<int> {
    if email in log then log[email] else []
  }

  /** The times at which the long counter let a request through. */
  ghost function LetThrough(h: seq<Mark>): seq<int> {
    if h == [] then []
    else
      var last := h[|h| - 1];
      LetThrough(h[..|h| - 1]) + (if last.count <= 4 then [last.time] else [])
  }

  /** Exactly the requests let through are logged. */
  ghost predicate Logged(log: Log, h: Histories) {
    forall email :: InLog(log, email) == LetThrough(InHistories(h, EmailLong(email)))
  }

  lemma LoggedNext(log: Log, h: Histories, h': Histories, email: string, now: int, allowed: bool)
    requires Logged(log, h)
    requires forall k :: k != EmailShort(email) && k != EmailLong(email) ==> InHistories(h', k) == InHistories(h, k)
    requires var l0, l := InHistories(h, EmailLong(email)), InHistories(h', EmailLong(email));
             || (l == l0 && !allowed)
             || (|l| == |l0| + 1 && l[..|l0|] == l0 && l[|l0|].time == now && (allowed <==> l[|l0|].count <= 4))
    ensures Logged(if allowed then log[email := InLog(log, email) + [now]] else log, h')
  {
    var log' := if allowed then log[email := InLog(log, email) + [now]] else log;
    forall e ensures InLog(log', e) == LetThrough(InHistories(h', EmailLong(e))) {
      assert InLog(log, e) == LetThrough(InHistories(h, EmailLong(e)));
    }
  }

  lemma LoggedAfterCheck(log: Log, h: Histories, email: string, now: int, works: Works)
    requires Logged(log, h)
    ensures var allowed := PassesShort(h, email, now, works) && PassesLong(h, email, now, works);
            Logged(if allowed then log[email := InLog(log, email) + [now]] else log, AfterCheck(h, email, now, works))
  {
    var allowed := PassesShort(h, email, now, works) && PassesLong(h, email, now, works);
    LongCounted(h, email, now, works);
    forall k | k != EmailShort(email) && k != EmailLong(email)
      ensures InHistories(AfterCheck(h, email, now, works), k) == InHistories(h, k)
    {
      OthersNotCounted(h, email, now, works, k);
    }
    LoggedNext(log, h, AfterCheck(h, email, now, works), email, now, allowed);
  }

  lemma {:induction false} LetThroughFrom(h: seq<Mark>, k: nat)
    requires k < |LetThrough(h)|
    ensures exists i :: 0 <= i < |h| && h[i].time == LetThrough(h)[k]
  {
    var before := h[..|h| - 1];
    if k < |LetThrough(before)| {
      LetThroughFrom(before, k);
      var i :| 0 <= i < |before| && before[i].time == LetThrough(before)[k];
      assert h[i].time == LetThrough(h)[k];
    } else {
      assert h[|h| - 1].time == LetThrough(h)[k];
    }
  }

  /** Requests let through are as far apart as the increments. */
  lemma {:induction false} LogApart(h: seq<Mark>, i: nat, j: nat)
    requires i < j < |LetThrough(h)|
    requires forall k :: 0 < k < |h| ==> h[k].time >= h[k - 1].time + ShortWindow
    ensures LetThrough(h)[j] >= LetThrough(h)[i] + ShortWindow
  {
    var before := h[..|h| - 1];
    if j < |LetThrough(before)| {
      LogApart(before, i, j);
    } else {
      LetThroughFrom(before, i);
      var k :| 0 <= k < |before| && before[k].time == LetThrough(before)[i];
      Apart(h, k, |h| - 1);
    }
  }

  /** The entries of a log in an interval. */
  ghost function LoggedIn(log: seq<int>, from: int, w: int): set<int> {
    set i | 0 <= i < |log| && from <= log[i] < from + w
  }

  lemma OneMoreLogged(log: seq<int>, time: int, from: int, w: int)
    ensures LoggedIn(log + [time], from, w) ==
            LoggedIn(log, from, w) + (if from <= time < from + w then {|log|} else {})
  {
    var a, b := LoggedIn(log + [time], from, w), LoggedIn(log, from, w);
    forall i ensures i in a <==> i in b || (from <= time < from + w && i == |log|) {
      if 0 <= i < |log| { assert (log + [time])[i] == log[i]; }
    }
  }

  lemma OneMoreAllowed(h: seq<Mark>, m: Mark, from: int, w: int)
    ensures AllowedIn(h + [m], 4, from, w) ==
      AllowedIn(h, 4, from, w) + (if m.count <= 4 && from <= m.time < from + w then {|h|} else {})
  {
    var a, b := AllowedIn(h + [m], 4, from, w), AllowedIn(h, 4, from, w);
    forall i ensures i in a <==> i in b || (m.count <= 4 && from <= m.time < from + w && i == |h|) {
      if 0 <= i < |h| { assert (h + [m])[i] == h[i]; }
    }
  }

  /** There are as many of them as allowed increments. */
  lemma {:induction false} LogCounts(h: seq<Mark>, from: int, w: int)
    ensures |LoggedIn(LetThrough(h), from, w)| == |AllowedIn(h, 4, from, w)|
  {
    if h != [] {
      var before, last := h[..|h| - 1], h[|h| - 1];
      LogCounts(before, from, w);
      assert h == before + [last];
      if last.count > 4 { assert LetThrough(h) == LetThrough(before); }
      OneMoreAllowed(before, last, from, w);
      OneMoreLogged(LetThrough(before), last.time, from, w);
      assert |before| !in AllowedIn(before, 4, from, w);
      assert |LetThrough(before)| !in LoggedIn(LetThrough(before), from, w);
    }
  }

  datatype Book = Book(codes: map<Token, int>, metas: map<Token, Meta>, sent: map<Token, nat>,
                       missed: map<Token, nat>)

  /** A resend counts in the metadata, or is missed there. */
  ghost function Resent(c: Book, t: Token, until: int, metaOk: bool): Book {
    if t !in c.metas || t !in c.sent || t !in c.missed then c
    else if metaOk then
      Book(c.codes[t := until], c.metas[t := Meta(c.metas[t].resends + 1, until)], c.sent[t := c.sent[t] + 1],
               c.missed)
    else Book(c.codes[t := until], c.metas, c.sent[t := c.sent[t] + 1], c.missed[t := c.missed[t] + 1])
  }

  lemma ResentIsTallied(c: Book, t: Token, until: int, metaOk: bool)
    requires Tallied(c.codes, c.metas, c.sent, c.missed) && t in c.metas && c.metas[t].resends < MaxResends
    ensures var d := Resent(c, t, until, metaOk); Tallied(d.codes, d.metas, d.sent, d.missed)
  {
  }

  /** The cache of codes and of the metadata beside them. */
  class CodeCache {
    /** The cached codes, until their expiry. */
    var codes: map<Token, int>
    var metas: map<Token, Meta>
    /** How many codes were sent under a token, and how many of its metadata writes failed. */
    ghost var sent: map<Token, nat>
    ghost var missed: map<Token, nat>

    ghost predicate Valid()
      reads this
    {
      Tallied(codes, metas, sent, missed)
    }

    ghost function Contents(): Book
      reads this
    {
      Book(codes, metas, sent, missed)
    }

    constructor ()
      ensures Valid() && codes == map[] && metas == map[] && sent == map[] && missed == map[]
    {
      codes, metas, sent, missed := map[], map[], map[], map[];
    }

    /** A code is stored and sent, its metadata perhaps not. */
    method FirstCode(t: Token, now: int, metaOk: bool)
      requires Valid() && t !in codes
      modifies this`codes, this`metas, this`sent, this`missed
      ensures Valid()
      ensures codes == old(codes)[t := now + CodeTtl]
      ensures metas == if metaOk then old(metas)[t := Meta(0, now + CodeTtl)] else old(metas)
      ensures sent == old(sent)[t := 1] && missed == old(missed)[t := 0]
    {
      codes := codes[t := now + CodeTtl];
      if metaOk { metas := metas[t := Meta(0, now + CodeTtl)]; }
      sent, missed := sent[t := 1], missed[t := 0];
    }

    /** The metadata of a live session allows one more resend. */
    predicate CanResend(t: Token, now: int)
      reads this`codes, this`metas
    {
      && t in codes && now < codes[t]
      && t in metas && now < metas[t].expiresAt && metas[t].resends < MaxResends
    }

    /** A resend that the limits have let through. */
    method ResendAdmitted(t: Token, now: int, readOk: bool, codeOk: bool, metaOk: bool)
      returns (refused: Option<Refusal>)
      requires Valid()
      modifies this`codes, this`metas, this`sent, this`missed
      ensures Valid()
      ensures refused.None? <==> readOk && old(CanResend(t, now)) && codeOk
      ensures refused.Some? ==> codes == old(codes) && metas == old(metas) && missed == old(missed) && sent == old(sent)
      ensures refused.None? ==> t in old(metas) && t in old(missed) && t in old(sent)
      ensures refused.None? ==> codes == old(codes)[t := now + 600_000] && sent == old(sent)[t := old(sent)[t] + 1]
      ensures refused.None? && metaOk ==>
        metas == old(metas)[t := Meta(old(metas)[t].resends + 1, now + 600_000)] && missed == old(missed)
      ensures refused.None? && !metaOk ==> metas == old(metas) && missed == old(missed)[t := old(missed)[t] + 1]
      ensures Contents() == if refused.None? then Resent(old(Contents()), t, now + 600_000, metaOk)
                            else old(Contents())
    {
      refused := ResendProblem(t, now, readOk, codeOk);
      if refused.Some? { return; }
      ResentIsTallied(Contents(), t, now + CodeTtl, metaOk);
      Rewrite(t, now + CodeTtl, metaOk);
    }

    method Rewrite(t: Token, until: int, metaOk: bool)
      requires t in metas && t in sent && t in missed
      modifies this`codes, this`metas, this`sent, this`missed
      ensures Contents() == Resent(old(Contents()), t, until, metaOk)
    {
      codes, sent := codes[t := until], sent[t := sent[t] + 1];
      if metaOk {
        metas := metas[t := Meta(metas[t].resends + 1, until)];
      } else {
        missed := missed[t := missed[t] + 1];
      }
    }

    /** What keeps an admitted resend from being stored. */
    method ResendProblem(t: Token, now: int, readOk: bool, codeOk: bool) returns (refused: Option<Refusal>)
      ensures refused.None? <==> readOk && CanResend(t, now) && codeOk
      ensures refused == Some(TooManyResends) <==>
        && readOk && t in codes && now < codes[t] && t in metas && now < metas[t].expiresAt && metas[t].resends >= 3
      ensures refused == Some(SessionExpired) <==>
        readOk && !(t in codes && now < codes[t] && t in metas && now < metas[t].expiresAt)
    {
      if !readOk { return Some(Unavailable); }
      if t !in codes || now >= codes[t] { return Some(SessionExpired); }
      if t !in metas || now >= metas[t].expiresAt { return Some(SessionExpired); }
      if metas[t].resends >= MaxResends { return Some(TooManyResends); }
      if !codeOk { return Some(Unavailable); }
      return None;
    }
  }

  class EmailService {
    const limiter: Limiter
    const cache: CodeCache
    /** When requests of an address were admitted. */
    ghost var admitted: Log

    ghost predicate Valid()
      reads this, limiter, cache
    {
      Gate() && cache.Valid()
    }

    /** The limits as every request has kept them. */
    ghost predicate Gate()
      reads this`admitted, limiter
    {
      limiter.Valid() && AllSpaced(limiter.histories) && Logged(admitted, limiter.histories)
    }

    constructor (limiter: Limiter, cache: CodeCache)
      requires limiter.Valid() && limiter.histories == map[] && cache.Valid()
      ensures Valid() && this.limiter == limiter && this.cache == cache && admitted == map[]
    {
      this.limiter, this.cache := limiter, cache;
      admitted := map[];
    }

    ghost predicate IsLocked(email: string, now: int)
      reads this, limiter
    {
      email in limiter.locks && now < limiter.locks[email]
    }

    /** The lock and the two limits, which sending and resending share. */
    ghost predicate Admits(email: string, now: int, works: Works)
      reads this, limiter
    {
      works.lockRead && !IsLocked(email, now)
      && PassesShort(limiter.histories, email, now, works) && PassesLong(limiter.histories, email, now, works)
    }

    /** A request that is not locked out is counted: under the short limit if that INCR works, and if it
        passes, under the long one. One that the long limit refuses locks the address. */
    method Admit(email: string, now: int, works: Works) returns (refused: Option<Refusal>)
      requires Gate() && now >= limiter.clock
      modifies limiter, this`admitted
      ensures Gate() && (refused.None? <==> old(Admits(email, now, works)))
      ensures refused == Some(Locked) <==>
        works.lockRead && email in old(limiter.locks) && now < old(limiter.locks)[email]
      ensures refused == Some(Unavailable) <==> !works.lockRead
      ensures refused == Some(Locked) || refused == Some(Unavailable) ==>
        limiter.histories == old(limiter.histories) && limiter.locks == old(limiter.locks)
      ensures refused.None? || refused == Some(Limited) ==>
        limiter.histories == AfterCheck(old(limiter.histories), email, now, works)
      ensures refused.None? || refused == Some(Limited) ==>
        var s0, s := old(limiter.HistoryOf(EmailShort(email))), limiter.HistoryOf(EmailShort(email));
        var l0, l := old(limiter.HistoryOf(EmailLong(email))), limiter.HistoryOf(EmailLong(email));
        && (if works.short then |s| == |s0| + 1 && s[..|s0|] == s0 && s[|s0|].time == now else s == s0)
        && var through := works.short && s[|s0|].count <= 1;
           && (if through && works.long then |l| == |l0| + 1 && l[..|l0|] == l0 && l[|l0|].time == now else l == l0)
           && (refused.None? <==> through && works.long && l[|l0|].count <= 4)
           && limiter.locks == if through && works.long && l[|l0|].count > 4 && works.lockWrite
                               then old(limiter.locks)[email := now + 1_800_000] else old(limiter.locks)
      ensures Counted(old(limiter.histories), limiter.histories, old(limiter.locks), email, now, works)
      ensures refused.Some? ==> refused.value.Locked? || refused.value.Limited? || refused.value.Unavailable?
      ensures admitted == if refused.None? then old(admitted)[email := InLog(old(admitted), email) + [now]]
                          else old(admitted)
      ensures old(limiter.clock) <= limiter.clock <= now
    {
      var locked := limiter.IsEmailVerificationLocked(email, now, works.lockRead);
      if locked.None? { return Some(Unavailable); }
      if locked.value { return Some(Locked); }
      var allowed := CheckAttempt(email, now, works);
      if allowed { admitted := admitted[email := InLog(admitted, email) + [now]]; }
      return if allowed then None else Some(Limited);
    }

    /** The two limits, counted. */
    method CheckAttempt(email: string, now: int, works: Works) returns (allowed: bool)
      requires Gate() && now >= limiter.clock
      modifies limiter
      ensures limiter.Valid() && AllSpaced(limiter.histories) && old(limiter.clock) <= limiter.clock <= now
      ensures allowed <==>
        old(PassesShort(limiter.histories, email, now, works)) && old(PassesLong(limiter.histories, email, now, works))
      ensures limiter.histories == AfterCheck(old(limiter.histories), email, now, works)
      ensures Logged(if allowed then admitted[email := InLog(admitted, email) + [now]] else admitted, limiter.histories)
      ensures var s0, s := old(limiter.HistoryOf(EmailShort(email))), limiter.HistoryOf(EmailShort(email));
              var l0, l := old(limiter.HistoryOf(EmailLong(email))), limiter.HistoryOf(EmailLong(email));
              && (if works.short then |s| == |s0| + 1 && s[..|s0|] == s0 && s[|s0|].time == now else s == s0)
              && var through := works.short && s[|s0|].count <= 1;
                 && (if through && works.long
                     then |l| == |l0| + 1 && l[..|l0|] == l0 && l[|l0|].time == now else l == l0)
                 && (allowed <==> through && works.long && l[|l0|].count <= 4)
                 && limiter.locks == if through && works.long && l[|l0|].count > 4 && works.lockWrite
                                     then old(limiter.locks)[email := now + 1_800_000] else old(limiter.locks)
    {
      limiter.IsHistory(EmailShort(email));
      CheckKeepsSpaced(limiter.histories, email, now, works);
      LoggedAfterCheck(admitted, limiter.histories, email, now, works);
      allowed := limiter.CheckEmailVerificationAttempt(email, now, works);
    }

    /** The token is newly drawn; `registered` is what the account lookup finds, None if it fails.
        A code that cannot be stored is not sent; metadata that cannot be stored is not missed. */
    method SendCode(t: Token, now: int, works: Works, registered: Option<bool>, codeOk: bool, metaOk: bool)
      returns (refused: Option<Refusal>)
      requires Valid() && now >= limiter.clock && t !in cache.codes
      modifies limiter, cache, this`admitted
      ensures Valid() && (refused.None? <==> old(Admits(t.email, now, works)) && registered == Some(false) && codeOk)
      ensures Counted(old(limiter.histories), limiter.histories, old(limiter.locks), t.email, now, works)
      ensures admitted == if old(Admits(t.email, now, works))
                          then old(admitted)[t.email := InLog(old(admitted), t.email) + [now]] else old(admitted)
      ensures refused == Some(AlreadyRegistered) <==> old(Admits(t.email, now, works)) && registered == Some(true)
      ensures cache.codes == (if refused.None? then old(cache.codes)[t := now + 600_000] else old(cache.codes))
      ensures cache.metas ==
        if refused.None? && metaOk then old(cache.metas)[t := Meta(0, now + 600_000)] else old(cache.metas)
      ensures cache.sent == if refused.None? then old(cache.sent)[t := 1] else old(cache.sent)
    {
      refused := Admit(t.email, now, works);
      if refused.Some? { return; }
      if registered.None? { return Some(Unavailable); }
      if registered.value { return Some(AlreadyRegistered); }
      if !codeOk { return Some(Unavailable); }
      cache.FirstCode(t, now, metaOk);
    }

    method ResendCode(t: Token, now: int, works: Works, readOk: bool, codeOk: bool, metaOk: bool)
      returns (refused: Option<Refusal>)
      requires Valid() && now >= limiter.clock
      modifies limiter, cache, this`admitted
      ensures Valid()
      ensures refused.None? <==>
        old(Admits(t.email, now, works)) && readOk && old(cache.CanResend(t, now)) && codeOk
      ensures Counted(old(limiter.histories), limiter.histories, old(limiter.locks), t.email, now, works)
      ensures admitted == if old(Admits(t.email, now, works))
                          then old(admitted)[t.email := InLog(old(admitted), t.email) + [now]] else old(admitted)
      ensures cache.Contents() == if refused.None? then Resent(old(cache.Contents()), t, now + 600_000, metaOk)
                                  else old(cache.Contents())
    {
      refused := Admit(t.email, now, works);
      if refused.Some? { return; }
      refused := cache.ResendAdmitted(t, now, readOk, codeOk, metaOk);
    }

    /** Over every run: two admitted requests for an address are at least a minute apart, at most
        8 are admitted in any 30 minutes, and a token is sent at most 4 codes and one more for
        every write of its metadata that failed. */
    lemma CodesAreLimited(email: string, t: int)
      requires Valid()
      ensures var log := InLog(admitted, email);
              && (forall i, j :: 0 <= i < j < |log| ==> log[j] >= log[i] + 60_000)
              && |LoggedIn(log, t, 1_800_000)| <= 8
      ensures forall token :: token in cache.sent ==> cache.sent[token] <= 4 + cache.missed[token]
    {
      var h, log := limiter.HistoryOf(EmailLong(email)), InLog(admitted, email);
      assert log == LetThrough(h);
      assert Spaced(limiter.HistoryOf(EmailShort(email)), h);
      forall i, j | 0 <= i < j < |log| ensures log[j] >= log[i] + 60_000 { LogApart(h, i, j); }
      limiter.IsHistory(EmailLong(email));
      SlidingCap(LongWindow, h, MaxCodes, t);
      LogCounts(h, t, LongWindow);
    }

    /** A resend whose metadata is lost sends a code that the counter does not show. */
    method LostMetadataIsNotCounted(t: Token, now: int, works: Works)
      requires Valid() && now >= limiter.clock && Admits(t.email, now, works) && cache.CanResend(t, now)
      modifies limiter, cache, this`admitted
      ensures Valid() && cache.metas == old(cache.metas)
      ensures cache.missed[t] == old(cache.missed[t]) + 1
      ensures cache.sent[t] == cache.metas[t].resends + 1 + cache.missed[t]
    {
      var refused := ResendCode(t, now, works, true, true, false);
    }
  }
}
