/** The WebSocket hub: clients registered by identity, bounded send queues, subscriptions and
    broadcasts. Every method is one step under the hub's lock. */
module Hub {
  import opened Common

  datatype Channel = Notifications | Permissions | System | Audit | Other(name: string)

  datatype Message = Connected(identity: int) | Disconnected(reason: string) | Payload(id: int)

  const QueueSize := 256

  class Client {
    const identity: int
    const roles: seq<string>
    /** The buffered messages of the send channel. */
    var queue: seq<Message>
    /** How often the channel was closed; a second close panics. */
    var closes: nat
    /** Sends on the closed channel; each one panics. */
    var closedSends: nat
    var cancelled: bool
    var subscriptions: set<Channel>

    constructor (identity: int, roles: seq<string>)
      ensures this.identity == identity && this.roles == roles
      ensures queue == [] && closes == 0 && closedSends == 0 && !cancelled && subscriptions == {}
    {
      this.identity, this.roles := identity, roles;
      queue, closes, closedSends, cancelled, subscriptions := [], 0, 0, false, {};
    }

    ghost predicate Open()
      reads this
    {
      closes == 0 && closedSends == 0 && !cancelled
    }

    predicate Permitted(channel: Channel) {
      match channel
      case Permissions => "admin" in roles || "super_admin" in roles
      case Audit => "super_admin" in roles
      case _ => true
    }

    /** Nobody listens to a channel its roles do not open. */
    ghost predicate Authorized()
      reads this
    {
      forall channel :: channel in subscriptions ==> Permitted(channel)
    }

    method HasRole(role: string) returns (has: bool)
      ensures has <==> role in roles
    {
      for n := 0 to |roles|
        invariant role !in roles[..n]
      {
        if roles[n] == role { return true; }
        assert roles[..n + 1] == roles[..n] + [roles[n]];
      }
      assert roles[..|roles|] == roles;
      return false;
    }

    method Subscribe(channel: Channel) returns (ok: bool)
      modifies this`subscriptions
      ensures ok <==> Permitted(channel)
      ensures ok <==>
        && (channel == Permissions ==> "admin" in roles || "super_admin" in roles)
        && (channel == Audit ==> "super_admin" in roles)
      ensures subscriptions == if ok then old(subscriptions) + {channel} else old(subscriptions)
      ensures old(Authorized()) ==> Authorized()
    {
      var admin := HasRole("admin");
      var superAdmin := HasRole("super_admin");
      match channel {
        case Permissions => if !admin && !superAdmin { return false; }
        case Audit => if !superAdmin { return false; }
        case _ =>
      }
      subscriptions := subscriptions + {channel};
      return true;
    }

    method Unsubscribe(channel: Channel)
      modifies this`subscriptions
      ensures subscriptions == old(subscriptions) - {channel}
      ensures old(Authorized()) ==> Authorized()
    {
      subscriptions := subscriptions - {channel};
    }

    /** `done` is the choice select makes between the send and the cancelled context. A full
        channel is closed, and the sender then waits for the hub to take an unregistration. */
    method SendMessage(m: Message, done: bool) returns (asks: bool)
      modifies this`queue, this`closes, this`closedSends
      ensures old(Open()) && |old(queue)| < 256 ==> !asks && queue == old(queue) + [m] && Open()
      ensures old(Open()) && |old(queue)| >= 256 ==>
        asks && queue == old(queue) && closes == 1 && closedSends == 0
    {
      if cancelled && done { return false; }
      if closes > 0 {
        closedSends := closedSends + 1;
      } else if |queue| < QueueSize {
        queue := queue + [m];
      } else if !cancelled {
        closes := closes + 1;
        return true;
      }
      return false;
    }

    method Close()
      modifies this`closes, this`cancelled
      ensures closes == old(closes) + 1 && cancelled
    {
      cancelled := true;
      closes := closes + 1;
    }

    /** WritePump takes the oldest message. */
    method Drain() returns (m: Option<Message>)
      modifies this`queue
      ensures old(queue) == [] ==> m == None && queue == []
      ensures old(queue) != [] ==> m == Some(old(queue)[0]) && queue == old(queue)[1..]
    {
      if queue == [] { return None; }
      m := Some(queue[0]);
      queue := queue[1..];
    }
  }

  /** How many times a list names an identity. */
  function Copies(ids: seq<int>, identity: int, m: Message): seq<Message> {
    if ids == [] then [] else Copies(ids[..|ids| - 1], identity, m) + (if ids[|ids| - 1] == identity then [m] else [])
  }

  /** One copy for each time the list names the identity. */
  lemma {:induction false} CopiesCount(ids: seq<int>, identity: int, m: Message)
    ensures |Copies(ids, identity, m)| == multiset(ids)[identity]
  {
    if ids != [] {
      var before, last := ids[..|ids| - 1], ids[|ids| - 1];
      CopiesCount(before, identity, m);
      assert ids == before + [last];
      assert multiset(ids) == multiset(before) + multiset{last};
    }
  }

  lemma {:induction false} CopiesAreTheMessage(ids: seq<int>, identity: int, m: Message)
    ensures forall k :: 0 <= k < |Copies(ids, identity, m)| ==> Copies(ids, identity, m)[k] == m
  {
    if ids != [] { CopiesAreTheMessage(ids[..|ids| - 1], identity, m); }
  }

  lemma {:induction false} CopiesPrefix(ids: seq<int>, n: nat, identity: int, m: Message)
    requires n <= |ids|
    ensures |Copies(ids[..n], identity, m)| <= |Copies(ids, identity, m)|
    decreases |ids|
  {
    if n < |ids| {
      assert ids[..|ids| - 1][..n] == ids[..n];
      CopiesPrefix(ids[..|ids| - 1], n, identity, m);
    } else {
      assert ids[..n] == ids;
    }
  }

  lemma NextCopy(ids: seq<int>, n: nat, identity: int, m: Message)
    requires n < |ids|
    ensures Copies(ids[..n + 1], identity, m) == Copies(ids[..n], identity, m)
      + (if ids[n] == identity then [m] else [])
    ensures |Copies(ids[..n + 1], identity, m)| <= |Copies(ids, identity, m)|
  {
    assert ids[..n + 1][..n] == ids[..n];
    CopiesPrefix(ids, n + 1, identity, m);
  }

  type Table = map<int, set<Client>>

  /** Identities are fixed when a client is made, so this depends on the table alone. */
  predicate Listed(clients: Table, c: Client) {
    c.identity in clients && c in clients[c.identity]
  }

  /** Each client sits under its own identity, and no identity is left without clients. */
  ghost predicate WellPlaced(clients: Table, known: set<Client>) {
    && (forall id :: id in clients ==> clients[id] != {})
    && (forall id, c :: id in clients && c in clients[id] ==> c.identity == id && c in known)
  }

  /** A registered client is open; one that has left was closed exactly once; nothing was ever
      sent on a closed channel. */
  ghost predicate Healthy(clients: Table, c: Client)
    reads c
  {
    && c.Authorized() && c.closedSends == 0 && |c.queue| <= QueueSize
    && if Listed(clients, c) then c.Open() else c.closes == 1 && c.cancelled
  }

  lemma AddKeepsPlaces(clients: Table, known: set<Client>, c: Client)
    requires WellPlaced(clients, known)
    ensures var added := clients[c.identity := (if c.identity in clients then clients[c.identity] else {}) + {c}];
            WellPlaced(added, known + {c}) && forall d :: Listed(added, d) <==> Listed(clients, d) || d == c
  {
    var there := if c.identity in clients then clients[c.identity] else {};
    var added := clients[c.identity := there + {c}];
    forall d ensures Listed(added, d) <==> Listed(clients, d) || d == c {
      if d.identity == c.identity {
        assert d in added[c.identity] <==> d in there || d == c;
      }
    }
  }

  /** The table without one client, and without its identity if it was the last. */
  function Without(clients: Table, c: Client): Table
    requires Listed(clients, c)
  {
    if clients[c.identity] == {c} then clients - {c.identity} else clients[c.identity := clients[c.identity] - {c}]
  }

  lemma WithoutKeepsPlaces(clients: Table, known: set<Client>, c: Client)
    requires Listed(clients, c)
    ensures forall d :: Listed(Without(clients, c), d) <==> Listed(clients, d) && d != c
    ensures WellPlaced(clients, known) ==> WellPlaced(Without(clients, c), known)
  {
    assert clients[c.identity] - {c} == {} ==> clients[c.identity] == {c};
  }

  lemma DisconnectKeepsPlaces(clients: Table, known: set<Client>, identity: int)
    requires WellPlaced(clients, known)
    ensures WellPlaced(clients - {identity}, known)
    ensures forall c :: Listed(clients - {identity}, c) <==> Listed(clients, c) && c.identity != identity
  {
    var m := clients - {identity};
    assert forall id :: id in m <==> id in clients && id != identity;
  }

  // ----- Queues as values -----

  /** The queues after a message to the listening clients of one identity. */
  ghost function Sent(q: map<Client, seq<Message>>, hear: set<Client>, identity: int, m: Message)
    : map<Client, seq<Message>>
  {
    map c | c in q :: q[c] + (if c in hear && c.identity == identity then [m] else [])
  }

  /** The queues after one message for each name. */
  ghost function SentAll(q: map<Client, seq<Message>>, hear: set<Client>, ids: seq<int>, m: Message)
    : map<Client, seq<Message>>
  {
    map c | c in q :: q[c] + (if c in hear then Copies(ids, c.identity, m) else [])
  }

  lemma SentNone(q: map<Client, seq<Message>>, hear: set<Client>, m: Message)
    ensures SentAll(q, hear, [], m) == q
  {
    forall c | c in q ensures SentAll(q, hear, [], m)[c] == q[c] { assert q[c] + [] == q[c]; }
  }

  lemma SentNext(q: map<Client, seq<Message>>, hear: set<Client>, ids: seq<int>, n: nat, m: Message)
    requires n < |ids|
    ensures Sent(SentAll(q, hear, ids[..n], m), hear, ids[n], m) == SentAll(q, hear, ids[..n + 1], m)
  {
    forall c | c in q
      ensures Sent(SentAll(q, hear, ids[..n], m), hear, ids[n], m)[c] == SentAll(q, hear, ids[..n + 1], m)[c]
    {
      NextCopy(ids, n, c.identity, m);
      var copies, next := Copies(ids[..n], c.identity, m), if c.identity == ids[n] then [m] else [];
      assert q[c] + copies + next == q[c] + (copies + next) && q[c] + [] + [] == q[c] + [];
    }
  }

  /** If nobody the next message is for is full, everybody has room for it. */
  lemma RoomAfterNext(q: map<Client, seq<Message>>, hear: set<Client>, ids: seq<int>, n: nat, m: Message)
    requires n < |ids|
    requires forall c :: c in q ==> |SentAll(q, hear, ids[..n], m)[c]| <= QueueSize
    requires forall c :: c in q && c in hear && c.identity == ids[n] ==> |SentAll(q, hear, ids[..n], m)[c]| < QueueSize
    ensures forall c :: c in q ==> |SentAll(q, hear, ids[..n + 1], m)[c]| <= QueueSize
  {
    forall c | c in q ensures |SentAll(q, hear, ids[..n + 1], m)[c]| <= QueueSize { NextCopy(ids, n, c.identity, m); }
  }

  /** A full client that the next message is for has no room for all its copies. */
  lemma NextIsTooMany(q: map<Client, seq<Message>>, hear: set<Client>, ids: seq<int>, n: nat, m: Message)
    requires n < |ids|
    requires exists c :: c in q && c in hear && c.identity == ids[n] && |SentAll(q, hear, ids[..n], m)[c]| >= QueueSize
    ensures exists c :: c in q && c in hear && |q[c]| + |Copies(ids, c.identity, m)| > QueueSize
  {
    var c :| c in q && c in hear && c.identity == ids[n] && |SentAll(q, hear, ids[..n], m)[c]| >= QueueSize;
    NextCopy(ids, n, c.identity, m);
  }

  class HubState {
    var clients: Table
    /** Every client that was ever registered. */
    ghost var known: set<Client>

    ghost predicate Valid()
      reads this, known
    {
      WellPlaced(clients, known) && forall c :: c in known ==> Healthy(clients, c)
    }

    constructor ()
      ensures Valid() && clients == map[] && known == {}
    {
      clients := map[];
      known := {};
    }

    method RegisterClient(c: Client)
      requires Valid() && c !in known && c.Open() && c.Authorized() && |c.queue| < QueueSize
      modifies this, c`queue, c`closes, c`closedSends
      ensures Valid() && known == old(known) + {c}
      ensures forall d :: Listed(clients, d) <==> Listed(old(clients), d) || d == c
      ensures c.queue == old(c.queue) + [Connected(c.identity)]
    {
      AddKeepsPlaces(clients, known, c);
      if c.identity !in clients { clients := clients[c.identity := {}]; }
      clients := clients[c.identity := clients[c.identity] + {c}];
      known := known + {c};
      var _ := c.SendMessage(Connected(c.identity), false);
    }

    /** Asked for a client that is not registered any more, it does nothing. */
    method UnregisterClient(c: Client)
      modifies this`clients, c`closes, c`cancelled
      ensures old(Valid()) ==> Valid()
      ensures forall d :: Listed(clients, d) <==> Listed(old(clients), d) && d != c
      ensures c.closes == old(c.closes) + (if Listed(old(clients), c) then 1 else 0)
    {
      if c.identity in clients && c in clients[c.identity] {
        WithoutKeepsPlaces(clients, known, c);
        var rest := clients[c.identity] - {c};
        c.Close();
        if rest == {} {
          assert clients[c.identity] == {c};
          clients := clients - {c.identity};
        } else {
          clients := clients[c.identity := rest];
        }
      }
    }

    method SubscribeClient(c: Client, channel: Channel) returns (ok: bool)
      requires Valid() && c in known
      modifies c`subscriptions
      ensures Valid() && (ok <==> c.Permitted(channel))
      ensures c.subscriptions == if ok then old(c.subscriptions) + {channel} else old(c.subscriptions)
    {
      ok := c.Subscribe(channel);
    }

    method UnsubscribeClient(c: Client, channel: Channel)
      requires Valid() && c in known
      modifies c`subscriptions
      ensures Valid() && c.subscriptions == old(c.subscriptions) - {channel}
    {
      c.Unsubscribe(channel);
    }

    method DrainClient(c: Client) returns (m: Option<Message>)
      requires Valid() && c in known
      modifies c`queue
      ensures Valid()
      ensures old(c.queue) == [] ==> m == None && c.queue == []
      ensures old(c.queue) != [] ==> m == Some(old(c.queue)[0]) && c.queue == old(c.queue)[1..]
    {
      m := c.Drain();
    }

    /** Sends to the clients of one identity that listen to the channel, from the hub's own loop.
        At a full client the loop waits for itself to take the unregistration: it is stuck. */
    method SendToIdentity(identity: int, channel: Channel, m: Message) returns (stuck: bool)
      requires Valid() && identity in clients
      modifies clients[identity]
      ensures stuck <==> exists c :: c in clients[identity] && channel in c.subscriptions && |old(c.queue)| >= QueueSize
      ensures !stuck ==> Valid()
      ensures stuck ==> exists c :: c in clients[identity] && c.closes == 1
      ensures forall c :: c in clients[identity] ==> c.subscriptions == old(c.subscriptions)
      ensures !stuck ==> forall c :: c in clients[identity] ==>
        c.queue == old(c.queue) + (if channel in c.subscriptions then [m] else [])
    {
      var rest := clients[identity];
      assert forall c :: c in rest ==> c in known && Healthy(clients, c) && Listed(clients, c);
      while rest != {}
        invariant rest <= clients[identity]
        invariant forall c :: c in clients[identity] ==> c.Open() && c.subscriptions == old(c.subscriptions)
        invariant forall c :: c in rest ==> c.queue == old(c.queue)
        invariant forall c :: c in clients[identity] && c !in rest ==>
          c.queue == old(c.queue) + (if channel in c.subscriptions then [m] else [])
        invariant forall c :: c in clients[identity] && c !in rest && channel in c.subscriptions ==>
          |old(c.queue)| < QueueSize
        decreases rest
      {
        var c :| c in rest;
        if channel in c.subscriptions {
          var asks := c.SendMessage(m, false);
          if asks { return true; }
        }
        rest := rest - {c};
      }
      assert forall c :: c in known ==> old(Healthy(clients, c));
      return false;
    }

    /** What a broadcast sends one client: a copy if it is registered and listens. */
    function Share(c: Client, channel: Channel, copies: seq<Message>): seq<Message>
      reads this`clients, c`subscriptions
    {
      if Listed(clients, c) && channel in c.subscriptions then copies else []
    }

    /** Some registered client of the hub has had its channel closed. */
    ghost predicate Broken()
      reads this, known
    {
      exists c :: c in known && Listed(clients, c) && c.closes > 0
    }

    /** Reaches each registered and subscribed client exactly once, and nobody else; the hub is
        stuck, with a client broken, exactly if one of them has no room. */
    method BroadcastAll(channel: Channel, m: Message) returns (stuck: bool)
      requires Valid()
      modifies set c | c in known && Listed(clients, c)
      ensures stuck <==> exists c :: c in known && |old(c.queue)| + |old(Share(c, channel, [m]))| > QueueSize
      ensures if stuck then Broken() else Valid()
      ensures !stuck ==> forall c :: c in known ==>
        c.queue == old(c.queue) + Share(c, channel, [m]) && c.subscriptions == old(c.subscriptions)
    {
      var rest := clients.Keys;
      assert forall c :: c in known && Share(c, channel, [m]) == [] ==> c.Open() || !Listed(clients, c);
      while rest != {}
        invariant rest <= clients.Keys && Valid()
        invariant forall c :: c in known ==> c.subscriptions == old(c.subscriptions)
        invariant forall c :: c in known ==>
          c.queue == old(c.queue) + (if c.identity in rest then [] else Share(c, channel, [m]))
        invariant forall c :: c in known && c.identity !in rest && Share(c, channel, [m]) != [] ==>
          |old(c.queue)| < QueueSize
        decreases rest
      {
        var identity := AnyOf(rest);
        assert forall c :: c in clients[identity] ==> c in known && Listed(clients, c) && c.identity == identity;
        label step:
        stuck := SendToIdentity(identity, channel, m);
        if stuck { return; }
        rest := rest - {identity};
        forall c | c in known
          ensures c.queue == old(c.queue) + (if c.identity in rest then [] else Share(c, channel, [m]))
        {
          if c !in clients[identity] {
            assert c.queue == old@step(c.queue) && c.subscriptions == old@step(c.subscriptions);
          }
        }
      }
      return false;
    }

    /** Whoever is sent something on the audit channel is a super admin. */
    lemma AuditIsForSuperAdmins(c: Client, m: Message)
      requires Valid() && c in known && Share(c, Audit, [m]) != []
      ensures "super_admin" in c.roles
    {
      assert Healthy(clients, c) && Audit in c.subscriptions;
      assert c.Permitted(Audit);
    }

    /** Sends to an identity whether or not it is connected. */
    method SendToNamed(identity: int, channel: Channel, m: Message) returns (stuck: bool)
      requires Valid()
      modifies set c | c in known && Listed(clients, c)
      ensures stuck <==> exists c :: c in known && c.identity == identity
                           && |old(c.queue)| + |old(Share(c, channel, [m]))| > QueueSize
      ensures if stuck then Broken() else Valid()
      ensures !stuck ==> forall c :: c in known ==> c.subscriptions == old(c.subscriptions)
      ensures !stuck ==> forall c :: c in known ==>
        c.queue == old(c.queue) + (if c.identity == identity then Share(c, channel, [m]) else [])
    {
      stuck := false;
      if identity in clients {
        assert forall c :: c in clients[identity] ==> c in known && Listed(clients, c) && c.identity == identity;
        stuck := SendToIdentity(identity, channel, m);
        if stuck { return; }
        forall c | c in known
          ensures c.queue == old(c.queue) + (if c.identity == identity then Share(c, channel, [m]) else [])
        {
          if c !in clients[identity] { assert c.queue == old(c.queue); }
        }
      }
    }

    ghost function Queues(): map<Client, seq<Message>>
      reads this`known, known
    {
      map c | c in known :: c.queue
    }

    /** The registered clients that listen to the channel. */
    ghost function Listeners(channel: Channel): set<Client>
      reads this, known
    {
      set c | c in known && Listed(clients, c) && channel in c.subscriptions
    }

    /** One name's turn, told by the queues as values. */
    method BroadcastNext(identity: int, channel: Channel, m: Message, ghost before: map<Client, seq<Message>>,
                         ghost hear: set<Client>)
      returns (stuck: bool)
      requires Valid() && before == Queues() && hear == Listeners(channel)
      modifies set c | c in known && Listed(clients, c)
      ensures stuck <==> exists c :: c in before && c in hear && c.identity == identity && |before[c]| >= QueueSize
      ensures if stuck then Broken() else Valid()
      ensures !stuck ==> Queues() == Sent(before, hear, identity, m) && Listeners(channel) == hear
      ensures !stuck ==> forall c :: c in known ==> c.subscriptions == old(c.subscriptions)
    {
      stuck := SendToNamed(identity, channel, m);
    }

    /** Each registered and subscribed client gets one copy for every time it is named; the hub
        is stuck exactly if one of them has no room for all of its copies. */
    method BroadcastTo(ids: seq<int>, channel: Channel, m: Message) returns (stuck: bool)
      requires Valid()
      modifies set c | c in known && Listed(clients, c)
      ensures stuck <==>
        exists c :: c in known && |old(c.queue)| + |old(Share(c, channel, Copies(ids, c.identity, m)))| > QueueSize
      ensures if stuck then Broken() else Valid()
      ensures !stuck ==> forall c :: c in known ==>
        && c.queue == old(c.queue) + Share(c, channel, Copies(ids, c.identity, m))
        && c.subscriptions == old(c.subscriptions)
    {
      ghost var before, hear := Queues(), Listeners(channel);
      assert forall c :: c in known ==> Healthy(clients, c) && |before[c]| <= QueueSize;
      stuck := BroadcastAlong(ids, channel, m, before, hear);
      if !stuck {
        forall c | c in known
          ensures c.queue == old(c.queue) + Share(c, channel, Copies(ids, c.identity, m))
        {
          assert c.queue == Queues()[c] == SentAll(before, hear, ids, m)[c];
          assert c.subscriptions == old(c.subscriptions) && before[c] == old(c.queue);
          assert c in hear <==> Listed(clients, c) && channel in c.subscriptions;
        }
      }
    }

    /** The same, told by the queues as values. */
    method BroadcastAlong(ids: seq<int>, channel: Channel, m: Message, ghost before: map<Client, seq<Message>>,
                          ghost hear: set<Client>)
      returns (stuck: bool)
      requires Valid() && before == Queues() && hear == Listeners(channel)
      requires forall c :: c in before ==> |before[c]| <= QueueSize
      modifies set c | c in known && Listed(clients, c)
      ensures stuck <==>
        exists c :: c in before && c in hear && |before[c]| + |Copies(ids, c.identity, m)| > QueueSize
      ensures if stuck then Broken() else Valid() && Queues() == SentAll(before, hear, ids, m)
      ensures !stuck ==> forall c :: c in known ==> c.subscriptions == old(c.subscriptions)
    {
      SentNone(before, hear, m);
      for n := 0 to |ids|
        invariant Valid() && Queues() == SentAll(before, hear, ids[..n], m) && Listeners(channel) == hear
        invariant forall c :: c in known ==> c.subscriptions == old(c.subscriptions)
        invariant forall c :: c in before ==> |SentAll(before, hear, ids[..n], m)[c]| <= QueueSize
      {
        ghost var now := Queues();
        stuck := BroadcastNext(ids[n], channel, m, now, hear);
        if stuck {
          NextIsTooMany(before, hear, ids, n, m);
          return;
        }
        SentNext(before, hear, ids, n, m);
        RoomAfterNext(before, hear, ids, n, m);
      }
      assert ids[..|ids|] == ids;
      return false;
    }

    /** What a broadcast brings a client, over all its copies. */
    function Due(c: Client, ids: Option<seq<int>>, channel: Channel, m: Message): seq<Message>
      reads this`clients, c`subscriptions
    {
      Share(c, channel, if ids.None? then [m] else Copies(ids.value, c.identity, m))
    }

    method BroadcastMessage(ids: Option<seq<int>>, channel: Channel, m: Message) returns (stuck: bool)
      requires Valid()
      modifies set c | c in known && Listed(clients, c)
      ensures stuck <==> exists c :: c in known && |old(c.queue)| + |old(Due(c, ids, channel, m))| > QueueSize
      ensures if stuck then Broken() else Valid()
      ensures !stuck ==> forall c :: c in known ==> c.queue == old(c.queue) + Due(c, ids, channel, m)
    {
      if ids.None? { stuck := BroadcastAll(channel, m); } else { stuck := BroadcastTo(ids.value, channel, m); }
    }

    /** Every client of the user is told, closed once and forgotten; but a client with a full queue
        is closed by the send already, and the close that follows panics. */
    method DisconnectUser(identity: int, reason: string) returns (panicked: bool)
      requires Valid()
      modifies this`clients, set c | c in known && Listed(clients, c) && c.identity == identity
      ensures panicked <==>
        exists c :: c in known && Listed(old(clients), c) && c.identity == identity && |old(c.queue)| >= QueueSize
      ensures panicked ==> clients == old(clients) && exists c :: c in known && c.identity == identity && c.closes == 2
      ensures !panicked ==> Valid() && forall c :: Listed(clients, c) <==>
        Listed(old(clients), c) && c.identity != identity
      ensures !panicked ==> forall c :: c in known && Listed(old(clients), c) && c.identity == identity ==>
        c.closes == 1 && c.queue == old(c.queue) + [Disconnected(reason)]
    {
      if identity !in clients { return false; }
      var all := clients[identity];
      assert forall c :: c in all ==> c in known && Healthy(clients, c) && Listed(clients, c) && c.identity == identity;
      panicked := CloseClients(all, reason);
      if panicked { return; }
      ForgetIdentity(identity);
    }

    /** Each client is told and closed, until one is found full. */
    method CloseClients(all: set<Client>, reason: string) returns (panicked: bool)
      requires forall c :: c in all ==> c.Authorized() && c.Open() && c.closedSends == 0 && |c.queue| <= QueueSize
      modifies all
      ensures panicked <==> exists c :: c in all && |old(c.queue)| >= QueueSize
      ensures panicked ==> exists c :: c in all && c.closes == 2
      ensures !panicked ==> forall c :: c in all ==>
        && c.Authorized() && c.closedSends == 0 && |c.queue| <= QueueSize && c.closes == 1 && c.cancelled
        && c.queue == old(c.queue) + [Disconnected(reason)]
    {
      var rest := all;
      while rest != {}
        invariant rest <= all
        invariant forall c :: c in all ==> c.Authorized() && c.closedSends == 0 && |c.queue| <= QueueSize
        invariant forall c :: c in rest ==> c.Open() && c.queue == old(c.queue)
        invariant forall c :: c in all && c !in rest ==>
          c.closes == 1 && c.cancelled && c.queue == old(c.queue) + [Disconnected(reason)] && |old(c.queue)| < QueueSize
        decreases rest
      {
        var c :| c in rest;
        var asks := c.SendMessage(Disconnected(reason), false);
        c.Close();
        if asks { return true; }
        rest := rest - {c};
      }
      return false;
    }

    /** Clients that were all closed once can be dropped together. */
    method ForgetIdentity(identity: int)
      requires WellPlaced(clients, known) && identity in clients
      requires forall c :: c in known && c !in clients[identity] ==> Healthy(clients, c)
      requires forall c :: c in clients[identity] ==>
        c.Authorized() && c.closedSends == 0 && |c.queue| <= QueueSize && c.closes == 1 && c.cancelled
      modifies this`clients
      ensures Valid()
      ensures forall c :: Listed(clients, c) <==> Listed(old(clients), c) && c.identity != identity
    {
      DisconnectKeepsPlaces(clients, known, identity);
      assert forall c :: c in known && c.identity == identity && Listed(clients, c) ==> c in clients[identity];
      clients := clients - {identity};
    }

    method GetConnectedClients(identity: int) returns (n: nat)
      requires Valid()
      ensures n == |set c | c in known && Listed(clients, c) && c.identity == identity|
    {
      ghost var mine := set c | c in known && Listed(clients, c) && c.identity == identity;
      if identity in clients {
        assert mine == clients[identity];
        return |clients[identity]|;
      }
      assert mine == {};
      return 0;
    }

    /** The sum over identities counts each registered client once. */
    method TotalClients() returns (total: nat)
      requires Valid()
      ensures total == |set c | c in known && Listed(clients, c)|
    {
      total := 0;
      var rest := clients.Keys;
      ghost var counted: set<Client> := {};
      while rest != {}
        invariant rest <= clients.Keys
        invariant counted == set c | c in known && Listed(clients, c) && c.identity !in rest
        invariant total == |counted|
        decreases rest
      {
        var identity := AnyOf(rest);
        assert counted !! clients[identity];
        assert counted + clients[identity] ==
               set c | c in known && Listed(clients, c) && c.identity !in rest - {identity};
        counted := counted + clients[identity];
        total := total + |clients[identity]|;
        rest := rest - {identity};
      }
      assert counted == set c | c in known && Listed(clients, c);
    }

    /** Outside the hub's loop, overflow breaks the invariant: the client stays registered with a
        closed channel, and the unregistration it asks for closes that channel a second time. */
    method OverflowClosesTwice(c: Client, m: Message, done: bool)
      requires Valid() && c in known && Listed(clients, c) && |c.queue| >= QueueSize
      modifies this`clients, c`queue, c`closes, c`closedSends, c`cancelled
      ensures c.closes == 2
    {
      var asks := c.SendMessage(m, done);
      assert asks && !Healthy(clients, c);
      assert !Valid();
      UnregisterClient(c);
    }
  }
}
