/** The WebSocket connection registry: for every user id the list of that user's open sockets,
    kept in the order the user ids were first registered (a Python dict keeps insertion order),
    and the rule that routes an incoming chat message to sockets. Sockets are opaque ids; the
    `await`ed socket I/O itself is not modelled. */
module Connections {
  import opened Seqs
  import opened Text

  type SocketId = int

  /** The index of the first occurrence of `x`, as `list.remove` finds it. */
  function FirstIndex(s: seq<SocketId>, x: SocketId): (k: nat)
    requires x in s
    ensures k < |s| && s[k] == x && x !in s[..k]
  {
    if s[0] == x then 0
    else
      var k := FirstIndex(s[1..], x);
      assert s[..k + 1] == [s[0]] + s[1..][..k];
      k + 1
  }

  /** `list.remove(x)` when `x` is present; unchanged otherwise (the `ValueError` is swallowed). */
  function RemoveFirst(s: seq<SocketId>, x: SocketId): (r: seq<SocketId>)
    ensures x !in s ==> r == s
    ensures x in s ==> r == s[..FirstIndex(s, x)] + s[FirstIndex(s, x) + 1..]
  {
    if x in s then RemoveAt(s, FirstIndex(s, x)) else s
  }

  /** Removing one occurrence takes exactly one copy of the socket out. */
  lemma RemoveFirstMultiset(s: seq<SocketId>, x: SocketId)
    requires x in s
    ensures multiset(RemoveFirst(s, x)) == multiset(s) - multiset{x}
  {
    var k := FirstIndex(s, x);
    assert s == s[..k] + [x] + s[k + 1..];
  }

  /** The sockets of one user: `send_to_user` writes to these and to nothing for an unknown user. */
  function Targets(active: map<string, seq<SocketId>>, userId: string): seq<SocketId> {
    if userId in active then active[userId] else []
  }

  /** The registry's invariant: no user id maps to an empty list, and `order` lists every user id
      exactly once. */
  predicate Registry(active: map<string, seq<SocketId>>, order: seq<string>) {
    (forall u :: u in active ==> |active[u]| > 0) &&
    (forall i :: 0 <= i < |order| ==> order[i] in active) &&
    (forall u :: u in active ==> u in order) &&
    (forall i, j :: 0 <= i < j < |order| ==> order[i] != order[j])
  }

  /** The map after `connect`: the socket is appended to the user's list, which is created when
      missing. */
  function Connected(active: map<string, seq<SocketId>>, userId: string, ws: SocketId): (r: map<string, seq<SocketId>>)
    ensures userId in r && |r[userId]| > 0 && r[userId][|r[userId]| - 1] == ws
    ensures r[userId][..|r[userId]| - 1] == Targets(active, userId)
    ensures r.Keys == active.Keys + {userId}
    ensures forall u :: u in active && u != userId ==> r[u] == active[u]
  {
    active[userId := Targets(active, userId) + [ws]]
  }

  function ConnectedOrder(order: seq<string>, active: map<string, seq<SocketId>>, userId: string): seq<string> {
    if userId in active then order else order + [userId]
  }

  /** The map after `disconnect`: the first occurrence of the socket leaves the user's list, and
      a list left empty is deleted. An unknown user or socket leaves everything as it was. */
  function Disconnected(active: map<string, seq<SocketId>>, userId: string, ws: SocketId): (r: map<string, seq<SocketId>>)
    ensures userId !in active || ws !in active[userId] ==> r == active
    ensures userId in active && ws in active[userId] ==>
              (userId in r <==> |active[userId]| > 1) &&
              (userId in r ==> r[userId] == RemoveFirst(active[userId], ws))
    ensures forall u :: u != userId ==> (u in r <==> u in active) && (u in r ==> r[u] == active[u])
  {
    if userId in active && ws in active[userId] then
      var rest := RemoveFirst(active[userId], ws);
      if rest == [] then active - {userId} else active[userId := rest]
    else active
  }

  function DisconnectedOrder(order: seq<string>, active: map<string, seq<SocketId>>, userId: string, ws: SocketId): seq<string> {
    if userId in active && ws in active[userId] && RemoveFirst(active[userId], ws) == [] then
      Filter(order, (u: string) => u != userId)
    else order
  }

  /** The sockets `broadcast` writes to: every registered user's, user by user in key order. */
  function AllTargets(keys: seq<string>, active: map<string, seq<SocketId>>): seq<SocketId> {
    if keys == [] then []
    else AllTargets(keys[..|keys| - 1], active) + Targets(active, keys[|keys| - 1])
  }

  // -------- the incoming message --------

  /** A `receiver_id` value of a JSON message: a number or a string. */
  datatype ReceiverId = IntId(n: int) | TextId(s: string)

  /** What `json.loads` makes of the received text. */
  datatype Incoming = NotJson | JsonObject(receiverId: Option<ReceiverId>, content: Option<string>)

  /** `if receiver_id:`: a missing id, 0 and "" are false. */
  predicate Truthy(r: Option<ReceiverId>) {
    match r
    case None => false
    case Some(IntId(n)) => n != 0
    case Some(TextId(s)) => s != []
  }

  /** `str(receiver_id)`. */
  function ReceiverKey(r: ReceiverId): string {
    match r
    case IntId(n) => IntToString(n)
    case TextId(s) => s
  }

  class ConnectionManager {
    var active: map<string, seq<SocketId>>
    /** The user ids in the order the dict holds them. */
    var order: seq<string>

    predicate Valid()
      reads this
    {
      Registry(active, order)
    }

    constructor ()
      ensures Valid() && active == map[] && order == []
    {
      active := map[];
      order := [];
    }

    /** `connect`, after the socket is accepted. */
    method Connect(ws: SocketId, userId: string)
      requires Valid()
      modifies this
      ensures Valid()
      ensures active == Connected(old(active), userId, ws)
      ensures order == ConnectedOrder(old(order), old(active), userId)
    {
      ConnectKeepsRegistry(active, order, userId, ws);
      if userId !in active {
        active := active[userId := []];
        order := order + [userId];
      }
      active := active[userId := active[userId] + [ws]];
    }

    /** `disconnect`. */
    method Disconnect(ws: SocketId, userId: string)
      requires Valid()
      modifies this
      ensures Valid()
      ensures active == Disconnected(old(active), userId, ws)
      ensures order == DisconnectedOrder(old(order), old(active), userId, ws)
    {
      DisconnectKeepsRegistry(active, order, userId, ws);
      if userId in active {
        var conns := active[userId];
        if ws in conns {
          var rest := RemoveFirst(conns, ws);
          if rest == [] {
            active := active - {userId};
            order := Filter(order, (u: string) => u != userId);
          } else {
            active := active[userId := rest];
          }
        }
      }
    }

    /** `broadcast`: the sockets of every user of a snapshot of the keys, in key order. */
    method BroadcastTargets() returns (targets: seq<SocketId>)
      requires Valid()
      ensures targets == AllTargets(order, active)
      ensures forall x :: x in targets <==> exists u :: u in active && x in active[u]
    {
      var keys := order;
      targets := [];
      var i := 0;
      while i < |keys|
        invariant 0 <= i <= |keys|
        invariant targets == AllTargets(keys[..i], active)
      {
        assert keys[..i + 1][..i] == keys[..i];
        targets := targets + Targets(active, keys[i]);
        i := i + 1;
      }
      assert keys[..i] == keys;
      BroadcastReachesAll(order, active);
    }

    /** The receiver rule of `websocket_endpoint`: a JSON message with a truthy `receiver_id` goes
        to the receiver's sockets and then to the sender's; any other message, and text that is
        not JSON, is broadcast. */
    method Route(userId: string, incoming: Incoming) returns (targets: seq<SocketId>)
      requires Valid()
      ensures incoming.JsonObject? && Truthy(incoming.receiverId) ==>
                targets == Targets(active, ReceiverKey(incoming.receiverId.value)) + Targets(active, userId)
      ensures !(incoming.JsonObject? && Truthy(incoming.receiverId)) ==> targets == AllTargets(order, active)
    {
      if incoming.JsonObject? && Truthy(incoming.receiverId) {
        targets := Targets(active, ReceiverKey(incoming.receiverId.value)) + Targets(active, userId);
      } else {
        targets := BroadcastTargets();
      }
    }
  }

  // -------- properties --------

  lemma ConnectKeepsRegistry(active: map<string, seq<SocketId>>, order: seq<string>, userId: string, ws: SocketId)
    requires Registry(active, order)
    ensures Registry(Connected(active, userId, ws), ConnectedOrder(order, active, userId))
  {
  }

  lemma DisconnectKeepsRegistry(active: map<string, seq<SocketId>>, order: seq<string>, userId: string, ws: SocketId)
    requires Registry(active, order)
    ensures Registry(Disconnected(active, userId, ws), DisconnectedOrder(order, active, userId, ws))
  {
    if userId in active && ws in active[userId] && RemoveFirst(active[userId], ws) == [] {
      var p := (u: string) => u != userId;
      var r := Disconnected(active, userId, ws);
      var o := Filter(order, p);
      FilterSound(order, p);
      FilterComplete(order, p);
      FilterUnique(order, p);
      forall u | u in r ensures u in o {
        assert u in active && u in order;
        var i :| 0 <= i < |order| && order[i] == u;
        assert p(order[i]);
      }
    }
  }

  /** Filtering a list without repetitions leaves one without repetitions. */
  lemma {:induction false} FilterUnique(s: seq<string>, p: string -> bool)
    requires forall i, j :: 0 <= i < j < |s| ==> s[i] != s[j]
    ensures forall i, j :: 0 <= i < j < |Filter(s, p)| ==> Filter(s, p)[i] != Filter(s, p)[j]
  {
    if s != [] {
      FilterUnique(s[1..], p);
      FilterSound(s[1..], p);
      var rest := Filter(s[1..], p);
      assert s[0] !in s[1..];
      assert s[0] !in rest;
    }
  }

  /** A socket that was not registered for the user is gone again after connect and disconnect,
      with the registry exactly as before. */
  lemma ConnectThenDisconnect(active: map<string, seq<SocketId>>, order: seq<string>, userId: string, ws: SocketId)
    requires Registry(active, order) && ws !in Targets(active, userId)
    ensures Disconnected(Connected(active, userId, ws), userId, ws) == active
    ensures DisconnectedOrder(ConnectedOrder(order, active, userId), Connected(active, userId, ws), userId, ws) == order
  {
    var c := Connected(active, userId, ws);
    var before := Targets(active, userId);
    assert c == active[userId := before + [ws]];
    RemoveAppended(before, ws);
    if userId in active {
      assert Disconnected(c, userId, ws) == c[userId := before];
      assert c[userId := before] == active;
    } else {
      assert Disconnected(c, userId, ws) == c - {userId};
      assert c - {userId} == active;
      assert userId !in order;
      DropAppendedKey(order, userId);
    }
  }

  lemma RemoveAppended(before: seq<SocketId>, ws: SocketId)
    requires ws !in before
    ensures RemoveFirst(before + [ws], ws) == before
  {
    assert FirstIndex(before + [ws], ws) == |before|;
    assert (before + [ws])[..|before|] == before;
  }

  lemma DropAppendedKey(order: seq<string>, userId: string)
    requires userId !in order
    ensures Filter(order + [userId], (u: string) => u != userId) == order
  {
    var p := (u: string) => u != userId;
    FilterConcat(order, [userId], p);
    FilterSingle(userId, p);
    FilterAll(order, p);
  }

  lemma {:induction false} AllTargetsMembers(keys: seq<string>, active: map<string, seq<SocketId>>, x: SocketId)
    ensures x in AllTargets(keys, active) <==> exists i :: 0 <= i < |keys| && x in Targets(active, keys[i])
  {
    if keys != [] {
      var init := keys[..|keys| - 1];
      AllTargetsMembers(init, active, x);
      assert forall i :: 0 <= i < |init| ==> init[i] == keys[i];
    }
  }

  /** A broadcast reaches exactly the registered sockets. */
  lemma BroadcastReachesAll(order: seq<string>, active: map<string, seq<SocketId>>)
    requires Registry(active, order)
    ensures forall x :: x in AllTargets(order, active) <==> exists u :: u in active && x in active[u]
  {
    forall x ensures x in AllTargets(order, active) <==> exists u :: u in active && x in active[u] {
      AllTargetsMembers(order, active, x);
      if exists u :: u in active && x in active[u] {
        var u :| u in active && x in active[u];
        var i :| 0 <= i < |order| && order[i] == u;
        assert x in Targets(active, order[i]);
      }
    }
  }

  /** A message a user addresses to themself is written to each of their sockets twice. */
  lemma MessageToSelfSentTwice(active: map<string, seq<SocketId>>, userId: string, n: int)
    requires n != 0 && userId == IntToString(n)
    ensures Targets(active, ReceiverKey(IntId(n))) + Targets(active, userId) == Targets(active, userId) + Targets(active, userId)
  {
  }

  /** A receiver id of 0 is broadcast rather than delivered to user "0". */
  lemma ReceiverZeroBroadcasts()
    ensures !Truthy(Some(IntId(0))) && !Truthy(Some(TextId("")))
    ensures Truthy(Some(IntId(7))) && ReceiverKey(IntId(7)) == "7"
  {
    assert NatToString(7) == "7";
  }
}
