/**
 * The chat state of start_backend.py: the peer list, the per-peer message
 * queues and the channel histories, and the route handlers that read and
 * change them. Each `with ..._lock:` block is one step of a sequential model.
 * Handlers take the request body; the clock reading `time.time()` is the
 * parameter `now`, kept as the text the message dict holds.
 */
module Chat {
  import opened Wrappers
  import opened Text
  import opened Dicts
  import opened Forms
  import opened Storage

  datatype Peer = Peer(name: string, ip: string, port: string)

  /** The dict a handler returns, or the exception it raises. */
  datatype Answer =
    | Status(success: bool, message: string)        // {"status": "success" | "error", "message": ...}
    | PeerList(peers: seq<Peer>, count: nat)        // get_list
    | BroadcastSent(peerCount: nat)                 // broadcast_peer, with "message": "Broadcast sent"
    | Messages(messages: seq<Message>)              // get_messages
    | ChannelMessages(messages: seq<Message>, channel: string)
    | Raised                                        // the handler raised an exception

  const Channels: set<string> := {"general", "random", "tech"}
  const HistoryLimit: nat := 100

  // ---------------------------------------------------------------------------
  // The peer list
  // ---------------------------------------------------------------------------

  /** The first position of a peer called `name`. */
  function IndexOf(peers: seq<Peer>, name: string): (r: Option<nat>)
    ensures r.Some? ==> r.value < |peers| && peers[r.value].name == name &&
                        forall j :: 0 <= j < r.value ==> peers[j].name != name
    ensures r.None? ==> forall j :: 0 <= j < |peers| ==> peers[j].name != name
    decreases |peers|
  {
    if peers == [] then None
    else if peers[0].name == name then Some(0)
    else
      match IndexOf(peers[1..], name)
      case None => None
      case Some(i) => Some(i + 1)
  }

  /** `submit_info` on the peer list: the first peer of that name is updated, or a new one is appended. */
  function Registered(peers: seq<Peer>, p: Peer): (r: seq<Peer>)
    ensures p in r
    ensures |r| == if exists i :: 0 <= i < |peers| && peers[i].name == p.name then |peers| else |peers| + 1
  {
    match IndexOf(peers, p.name)
    case Some(i) => assert peers[i := p][i] == p; peers[i := p]
    case None => assert (peers + [p])[|peers|] == p; peers + [p]
  }

  predicate UniqueNames(peers: seq<Peer>) {
    forall i, j :: 0 <= i < j < |peers| ==> peers[i].name != peers[j].name
  }

  /** A known name is updated in place, a new one goes last; nothing else moves. */
  lemma RegisteredShape(peers: seq<Peer>, p: Peer)
    ensures (exists i :: 0 <= i < |peers| && peers[i].name == p.name) ==>
      |Registered(peers, p)| == |peers| &&
      exists i :: 0 <= i < |peers| && Registered(peers, p) == peers[i := p] && peers[i].name == p.name
    ensures (forall i :: 0 <= i < |peers| ==> peers[i].name != p.name) ==>
      Registered(peers, p) == peers + [p]
  {
  }

  /** Registering keeps names unique, and afterwards the name is listed exactly once with the new address. */
  lemma RegisteredUnique(peers: seq<Peer>, p: Peer)
    requires UniqueNames(peers)
    ensures UniqueNames(Registered(peers, p))
    ensures forall i :: 0 <= i < |Registered(peers, p)| ==>
      (Registered(peers, p)[i].name == p.name <==> Registered(peers, p)[i] == p)
    ensures p in Registered(peers, p)
  {
    var r := Registered(peers, p);
    match IndexOf(peers, p.name)
    case Some(k) =>
      forall i, j | 0 <= i < j < |r| ensures r[i].name != r[j].name {
        if i != k && j != k {
          assert r[i] == peers[i] && r[j] == peers[j];
        }
      }
      assert r[k] == p;
    case None =>
      assert r[|peers|] == p;
  }

  /** `[p for p in peer_list if p['name'] != name]`. */
  function Without(peers: seq<Peer>, name: string): (r: seq<Peer>)
    ensures |r| <= |peers|
    ensures forall q :: q in r ==> q.name != name
    decreases |peers|
  {
    if peers == [] then []
    else (if peers[0].name == name then [] else [peers[0]]) + Without(peers[1..], name)
  }

  /** Unregistering keeps exactly the peers of other names. */
  lemma {:induction false} WithoutMembers(peers: seq<Peer>, name: string)
    ensures forall p :: p in Without(peers, name) <==> p in peers && p.name != name
    decreases |peers|
  {
    if peers != [] {
      WithoutMembers(peers[1..], name);
      assert forall p :: p in peers <==> p == peers[0] || p in peers[1..];
    }
  }

  lemma {:induction false} WithoutUnique(peers: seq<Peer>, name: string)
    requires UniqueNames(peers)
    ensures UniqueNames(Without(peers, name))
    decreases |peers|
  {
    if peers != [] {
      WithoutUnique(peers[1..], name);
      WithoutMembers(peers[1..], name);
      var rest := Without(peers[1..], name);
      if peers[0].name != name {
        forall p | p in rest ensures p.name != peers[0].name {
          var j :| 0 <= j < |peers[1..]| && peers[1..][j] == p;
          assert peers[j + 1] == p;
        }
        ConsUnique(peers[0], rest);
      } else {
        assert Without(peers, name) == [] + rest;
      }
    }
  }

  /** A peer whose name no other peer has can be put in front. */
  lemma ConsUnique(p: Peer, rest: seq<Peer>)
    requires UniqueNames(rest) && forall q :: q in rest ==> q.name != p.name
    ensures UniqueNames([p] + rest)
  {
    var r := [p] + rest;
    forall i, j | 0 <= i < j < |r| ensures r[i].name != r[j].name {
      if i == 0 {
        assert r[j] in rest;
      } else {
        assert r[i] == rest[i - 1] && r[j] == rest[j - 1];
      }
    }
  }

  function Names(peers: seq<Peer>): (r: seq<string>)
    ensures |r| == |peers| && forall i :: 0 <= i < |peers| ==> r[i] == peers[i].name
  {
    seq(|peers|, i requires 0 <= i < |peers| => peers[i].name)
  }

  // ---------------------------------------------------------------------------
  // The message queues, with their dict order
  // ---------------------------------------------------------------------------

  /** The key order after `queues[name] = ...`: a new key goes last. */
  function Touch(order: seq<string>, queues: map<string, seq<Message>>, name: string): (r: seq<string>)
    ensures order <= r && |r| == |order| + (if name in queues then 0 else 1)
    ensures name !in queues ==> r[|order|] == name
  {
    if name in queues then order else order + [name]
  }

  /** The key order after `del queues[name]`. */
  function Drop(order: seq<string>, name: string): (r: seq<string>)
    ensures |r| <= |order|
    ensures forall x :: x in r <==> x in order && x != name
    decreases |order|
  {
    if order == [] then []
    else (if order[0] == name then [] else [order[0]]) + Drop(order[1..], name)
  }

  lemma TouchKeyOrder(order: seq<string>, queues: map<string, seq<Message>>, name: string, v: seq<Message>)
    requires KeyOrder(order, queues)
    ensures KeyOrder(Touch(order, queues, name), queues[name := v])
  {
    if name !in queues {
      var o := order + [name];
      forall i, j | 0 <= i < j < |o| ensures o[i] != o[j] {
        if j == |order| {
          assert o[i] == order[i] && order[i] in queues;
        }
      }
    }
  }

  lemma {:induction false} DropMembers(order: seq<string>, name: string)
    ensures forall k :: k in Drop(order, name) <==> k in order && k != name
    decreases |order|
  {
    if order != [] {
      DropMembers(order[1..], name);
      assert forall k :: k in order <==> k == order[0] || k in order[1..];
    }
  }

  lemma {:induction false} DropDistinct(order: seq<string>, name: string)
    requires forall i, j :: 0 <= i < j < |order| ==> order[i] != order[j]
    ensures forall i, j :: 0 <= i < j < |Drop(order, name)| ==> Drop(order, name)[i] != Drop(order, name)[j]
    decreases |order|
  {
    if order != [] {
      var tail := order[1..];
      assert forall i, j :: 0 <= i < j < |tail| ==> tail[i] != tail[j] by {
        forall i, j | 0 <= i < j < |tail| ensures tail[i] != tail[j] {
          assert tail[i] == order[i + 1] && tail[j] == order[j + 1];
        }
      }
      DropDistinct(tail, name);
      DropMembers(tail, name);
      var rest := Drop(tail, name);
      if order[0] != name {
        assert order[0] !in tail by {
          forall j | 0 <= j < |tail| ensures tail[j] != order[0] {
            assert tail[j] == order[j + 1];
          }
        }
        var r := [order[0]] + rest;
        forall i, j | 0 <= i < j < |r| ensures r[i] != r[j] {
          if i == 0 {
            assert r[j] in rest;
          } else {
            assert r[i] == rest[i - 1] && r[j] == rest[j - 1];
          }
        }
      }
    }
  }

  lemma DropKeyOrder(order: seq<string>, queues: map<string, seq<Message>>, name: string)
    requires KeyOrder(order, queues)
    ensures KeyOrder(Drop(order, name), queues - {name})
  {
    DropMembers(order, name);
    DropDistinct(order, name);
    var d := Drop(order, name);
    forall i | 0 <= i < |d| ensures d[i] in queues - {name} {
      assert d[i] in d;
      var j :| 0 <= j < |order| && order[j] == d[i];
    }
  }

  /** `queues[name].append(m)`, the queue created empty first when missing. */
  function Appended(queues: map<string, seq<Message>>, name: string, m: Message): map<string, seq<Message>> {
    queues[name := Get(queues, name, []) + [m]]
  }

  /** `send_peer`: one copy to the target's queue, then one to the sender's. */
  function Delivered(queues: map<string, seq<Message>>, sender: string, target: string, m: Message): (r: map<string, seq<Message>>)
    ensures r.Keys == queues.Keys + {sender, target}
  {
    Appended(Appended(queues, target, m), sender, m)
  }

  function DeliveredOrder(order: seq<string>, queues: map<string, seq<Message>>, sender: string, target: string): (r: seq<string>)
    ensures order <= r && |r| <= |order| + 2
    ensures target !in queues ==> target in r
    ensures sender !in queues ==> sender in r
  {
    Touch(Touch(order, queues, target), queues[target := []], sender)
  }

  /**
   * Both queues end with the message, a target that is the sender gets two
   * copies, and every other queue is unchanged.
   */
  lemma DeliveredValue(queues: map<string, seq<Message>>, sender: string, target: string, m: Message, k: string)
    ensures k in Delivered(queues, sender, target, m) <==> k in queues || k == sender || k == target
    ensures Get(Delivered(queues, sender, target, m), k, []) ==
      Get(queues, k, []) + (if k == target then [m] else []) + (if k == sender then [m] else [])
  {
  }

  lemma DeliveredKeyOrder(order: seq<string>, queues: map<string, seq<Message>>, sender: string, target: string, m: Message)
    requires KeyOrder(order, queues)
    ensures KeyOrder(DeliveredOrder(order, queues, sender, target), Delivered(queues, sender, target, m))
    ensures order <= DeliveredOrder(order, queues, sender, target)
    ensures target !in queues ==> DeliveredOrder(order, queues, sender, target)[|order|] == target
    ensures sender !in queues && sender != target ==>
      var o := DeliveredOrder(order, queues, sender, target);
      o[|o| - 1] == sender
  {
    var q1 := Appended(queues, target, m);
    TouchKeyOrder(order, queues, target, Get(queues, target, []) + [m]);
    var o1 := Touch(order, queues, target);
    assert Touch(o1, q1, sender) == DeliveredOrder(order, queues, sender, target);
    TouchKeyOrder(o1, q1, sender, Get(q1, sender, []) + [m]);
  }

  /** `broadcast_peer`: one copy appended for every name of the snapshot, in order. */
  function Fanout(queues: map<string, seq<Message>>, names: seq<string>, m: Message): (r: map<string, seq<Message>>)
    ensures forall k :: k in queues ==> k in r
    ensures forall i :: 0 <= i < |names| ==> names[i] in r
    decreases |names|
  {
    if names == [] then queues
    else Appended(Fanout(queues, names[..|names| - 1], m), names[|names| - 1], m)
  }

  function FanoutOrder(order: seq<string>, queues: map<string, seq<Message>>, names: seq<string>, m: Message): (r: seq<string>)
    ensures order <= r && |r| <= |order| + |names|
    ensures forall x :: x in r ==> x in order || x in names
    decreases |names|
  {
    if names == [] then order
    else
      var init := names[..|names| - 1];
      Touch(FanoutOrder(order, queues, init, m), Fanout(queues, init, m), names[|names| - 1])
  }

  function Occurrences(names: seq<string>, k: string): nat
    decreases |names|
  {
    if names == [] then 0
    else Occurrences(names[..|names| - 1], k) + (if names[|names| - 1] == k then 1 else 0)
  }

  function Copies(m: Message, n: nat): seq<Message> {
    seq(n, i => m)
  }

  /** Each queue gains one copy per occurrence of its name in the snapshot; the others are unchanged. */
  lemma {:induction false} FanoutValue(queues: map<string, seq<Message>>, names: seq<string>, m: Message, k: string)
    ensures k in Fanout(queues, names, m) <==> k in queues || k in names
    ensures Get(Fanout(queues, names, m), k, []) == Get(queues, k, []) + Copies(m, Occurrences(names, k))
    decreases |names|
  {
    if names != [] {
      var init := names[..|names| - 1];
      FanoutValue(queues, init, m, k);
      assert forall x :: x in names <==> x in init || x == names[|names| - 1];
      if names[|names| - 1] == k {
        assert Copies(m, Occurrences(names, k)) == Copies(m, Occurrences(init, k)) + [m];
      }
    }
  }

  lemma {:induction false} OccursOnce(names: seq<string>, k: string)
    requires forall i, j :: 0 <= i < j < |names| ==> names[i] != names[j]
    ensures Occurrences(names, k) == if k in names then 1 else 0
    decreases |names|
  {
    if names != [] {
      var init := names[..|names| - 1];
      assert forall i, j :: 0 <= i < j < |init| ==> init[i] != init[j];
      OccursOnce(init, k);
      assert forall x :: x in names <==> x in init || x == names[|names| - 1];
      if names[|names| - 1] == k {
        assert k !in init by {
          forall i | 0 <= i < |init| ensures init[i] != k {
            assert init[i] == names[i];
          }
        }
      }
    }
  }

  /** With unique peer names every registered peer gets exactly one copy of a broadcast. */
  lemma FanoutToPeers(queues: map<string, seq<Message>>, peers: seq<Peer>, m: Message, k: string)
    requires UniqueNames(peers)
    ensures Get(Fanout(queues, Names(peers), m), k, []) ==
      Get(queues, k, []) + (if exists i :: 0 <= i < |peers| && peers[i].name == k then [m] else [])
  {
    var names := Names(peers);
    FanoutValue(queues, names, m, k);
    OccursOnce(names, k);
    if k in names {
      var i :| 0 <= i < |names| && names[i] == k;
      assert peers[i].name == k;
      assert Copies(m, 1) == [m];
    } else {
      assert forall i :: 0 <= i < |peers| ==> peers[i].name != k by {
        forall i | 0 <= i < |peers| ensures peers[i].name != k {
          assert names[i] == peers[i].name;
        }
      }
    }
  }

  lemma {:induction false} FanoutKeyOrder(order: seq<string>, queues: map<string, seq<Message>>, names: seq<string>, m: Message)
    requires KeyOrder(order, queues)
    ensures KeyOrder(FanoutOrder(order, queues, names, m), Fanout(queues, names, m))
    decreases |names|
  {
    if names != [] {
      var init := names[..|names| - 1];
      var last := names[|names| - 1];
      FanoutKeyOrder(order, queues, init, m);
      var q := Fanout(queues, init, m);
      TouchKeyOrder(FanoutOrder(order, queues, init, m), q, last, Get(q, last, []) + [m]);
    }
  }

  /** The loop of `broadcast_peer` over the snapshot of names, counting the copies. */
  method FanoutLoop(queues: map<string, seq<Message>>, order: seq<string>, names: seq<string>, m: Message)
    returns (q: map<string, seq<Message>>, o: seq<string>, count: nat)
    ensures q == Fanout(queues, names, m) && o == FanoutOrder(order, queues, names, m)
    ensures count == |names|
  {
    q, o, count := queues, order, 0;
    for i := 0 to |names|
      invariant q == Fanout(queues, names[..i], m)
      invariant o == FanoutOrder(order, queues, names[..i], m)
      invariant count == i
    {
      var name := names[i];
      assert names[..i + 1][..i] == names[..i];
      if name !in q {
        o := o + [name];
        q := q[name := []];
      }
      q := q[name := q[name] + [m]];
      count := count + 1;
    }
    assert names[..|names|] == names;
  }

  // ---------------------------------------------------------------------------
  // Channel history
  // ---------------------------------------------------------------------------

  /** `h[-100:]` when longer than 100. */
  function Keep(h: seq<Message>): (r: seq<Message>)
    ensures |r| <= HistoryLimit
  {
    if |h| > HistoryLimit then h[|h| - HistoryLimit..] else h
  }

  /** The history after a broadcast on `channel`; an unknown channel gets no entry. */
  function Posted(history: map<string, seq<Message>>, channel: string, m: Message): (r: map<string, seq<Message>>)
    ensures r.Keys == history.Keys
    ensures forall c :: c in history && c != channel ==> r[c] == history[c]
  {
    if channel in history then history[channel := Keep(history[channel] + [m])] else history
  }

  /** The history step of `broadcast_peer`: append, then keep the newest 100. */
  method PostHistory(history: map<string, seq<Message>>, channel: string, m: Message)
    returns (posted: map<string, seq<Message>>)
    ensures posted == Posted(history, channel, m)
  {
    posted := history;
    if channel in history {
      var h := history[channel] + [m];
      if |h| > 100 {
        h := h[|h| - 100..];
      }
      posted := history[channel := h];
    }
  }

  /** The oldest entries go first: the kept history is the newest part, ending with the new message. */
  lemma PostedNewest(history: map<string, seq<Message>>, channel: string, m: Message)
    requires channel in history
    ensures var h := Posted(history, channel, m)[channel];
            |h| == if |history[channel]| < HistoryLimit then |history[channel]| + 1 else HistoryLimit
    ensures var h := Posted(history, channel, m)[channel];
            h[|h| - 1] == m && exists d :: 0 <= d <= |history[channel]| && h == (history[channel] + [m])[d..]
    ensures Posted(history, channel, m).Keys == history.Keys
  {
    var full := history[channel] + [m];
    if |full| > HistoryLimit {
      assert Keep(full) == full[|full| - HistoryLimit..];
    } else {
      assert full == full[0..];
    }
  }

  // ---------------------------------------------------------------------------
  // Message records
  // ---------------------------------------------------------------------------

  function DirectMessage(sender: string, target: string, message: string, channel: string, now: string): (m: Message)
    ensures m.Keys == {"from", "to", "message", "type", "channel", "timestamp"}
    ensures m["type"] == "direct" && m["from"] == sender && m["to"] == target
  {
    map["from" := sender, "to" := target, "message" := message, "type" := "direct",
        "channel" := channel, "timestamp" := now]
  }

  function BroadcastMessage(sender: string, message: string, channel: string, now: string): (m: Message)
    ensures m.Keys == {"from", "message", "type", "channel", "timestamp"}
    ensures m["type"] == "broadcast" && m["channel"] == channel
  {
    map["from" := sender, "message" := message, "type" := "broadcast", "channel" := channel,
        "timestamp" := now]
  }

  /** A direct message is saved field for field; a broadcast is saved with an empty `to`. */
  lemma SavedRecords(sender: string, target: string, message: string, channel: string, now: string)
    ensures Normalize(DirectMessage(sender, target, message, channel, now)) ==
            DirectMessage(sender, target, message, channel, now)
    ensures Normalize(BroadcastMessage(sender, message, channel, now)) ==
            BroadcastMessage(sender, message, channel, now)["to" := ""]
  {
  }

  // ---------------------------------------------------------------------------
  // Form fields of the handlers
  // ---------------------------------------------------------------------------

  /** The peer `submit_info` registers. */
  function Registration(body: string): (p: Peer)
    ensures var data := Form(body, AsIs);
            ("name" in data ==> p.name == data["name"]) && ("ip" in data ==> p.ip == data["ip"]) &&
            ("port" in data ==> p.port == data["port"])
    ensures Form(body, AsIs) == map[] ==> p == Peer("Unknown", "127.0.0.1", "5000")
  {
    var data := Form(body, AsIs);
    Peer(Get(data, "name", "Unknown"), Get(data, "ip", "127.0.0.1"), Get(data, "port", "5000"))
  }

  datatype Direct = Direct(sender: string, target: string, message: string, channel: string)

  function DirectRequest(body: string): (d: Direct)
    ensures var data := Form(body, PlusThenUnquoted);
            ("target_name" in data ==> d.target == data["target_name"]) &&
            ("target_name" !in data ==> d.target == "") &&
            ("sender_name" !in data ==> d.sender == "Anonymous") &&
            ("message" !in data ==> d.message == "") &&
            ("channel" !in data ==> d.channel == "general")
  {
    var data := Form(body, PlusThenUnquoted);
    Direct(Get(data, "sender_name", "Anonymous"), Get(data, "target_name", ""),
           Get(data, "message", ""), Get(data, "channel", "general"))
  }

  function BroadcastRequest(body: string): (d: Direct)
    ensures d.target == ""
    ensures var data := Form(body, PlusThenUnquoted);
            ("sender_name" in data ==> d.sender == data["sender_name"]) &&
            ("sender_name" !in data ==> d.sender == "Anonymous") &&
            ("channel" !in data ==> d.channel == "general")
  {
    var data := Form(body, PlusThenUnquoted);
    Direct(Get(data, "sender_name", "Anonymous"), "", Get(data, "message", ""), Get(data, "channel", "general"))
  }

  /** A field is filled in from the body when present, and its default is used otherwise. */
  lemma RegistrationDefaults(body: string)
    ensures Registration(body).name == if "name" in Form(body, AsIs) then Form(body, AsIs)["name"] else "Unknown"
    ensures "ip" !in Form(body, AsIs) ==> Registration(body).ip == "127.0.0.1"
    ensures "port" !in Form(body, AsIs) ==> Registration(body).port == "5000"
    ensures Registration("") == Peer("Unknown", "127.0.0.1", "5000")
  {
  }

  // ---------------------------------------------------------------------------
  // The invariant of the state
  // ---------------------------------------------------------------------------

  /**
   * Peer names are unique and each has a queue, the key order lists the
   * queues, and the history holds the three channels, at most 100 entries each.
   */
  predicate Consistent(peers: seq<Peer>, queues: map<string, seq<Message>>, order: seq<string>,
                       history: map<string, seq<Message>>) {
    UniqueNames(peers) &&
    (forall i :: 0 <= i < |peers| ==> peers[i].name in queues) &&
    KeyOrder(order, queues) &&
    history.Keys == Channels &&
    (forall c :: c in history ==> |history[c]| <= HistoryLimit)
  }

  lemma BroadcastConsistent(peers: seq<Peer>, queues: map<string, seq<Message>>, order: seq<string>,
                            history: map<string, seq<Message>>, channel: string, m: Message)
    requires Consistent(peers, queues, order, history)
    ensures Consistent(peers, Fanout(queues, Names(peers), m), FanoutOrder(order, queues, Names(peers), m),
                       Posted(history, channel, m))
  {
    var names := Names(peers);
    FanoutKeyOrder(order, queues, names, m);
    forall k | 0 <= k < |peers| ensures peers[k].name in Fanout(queues, names, m) {
      FanoutValue(queues, names, m, peers[k].name);
    }
    if channel in history {
      PostedNewest(history, channel, m);
    }
  }

  lemma UnregisterConsistent(peers: seq<Peer>, queues: map<string, seq<Message>>, order: seq<string>,
                             history: map<string, seq<Message>>, name: string)
    requires Consistent(peers, queues, order, history)
    ensures Consistent(Without(peers, name), queues - {name},
                       if name in queues then Drop(order, name) else order, history)
  {
    WithoutUnique(peers, name);
    WithoutKeepsQueues(peers, queues, name);
    if name in queues {
      DropKeyOrder(order, queues, name);
    } else {
      assert queues - {name} == queues;
    }
  }

  // ---------------------------------------------------------------------------
  // The state and its handlers
  // ---------------------------------------------------------------------------

  class ChatState {
    var peers: seq<Peer>
    var queues: map<string, seq<Message>>
    /** The insertion order of `queues`, which `save_message_queue` follows. */
    var queueOrder: seq<string>
    var history: map<string, seq<Message>>

    ghost predicate Valid()
      reads this
    {
      Consistent(peers, queues, queueOrder, history)
    }

    /** The module-level state before any request. */
    constructor ()
      ensures Valid()
      ensures peers == [] && queues == map[] && queueOrder == []
      ensures history == map["general" := [], "random" := [], "tech" := []]
    {
      peers := [];
      queues := map[];
      queueOrder := [];
      history := map["general" := [], "random" := [], "tech" := []];
    }

    /** `submit_info`: registers or updates the peer, then seeds its queue. */
    method SubmitInfo(body: string) returns (answer: Answer)
      requires Valid()
      modifies this
      ensures Valid()
      ensures var p := Registration(body);
              peers == Registered(old(peers), p) &&
              queues == (if p.name in old(queues) then old(queues) else old(queues)[p.name := []]) &&
              queueOrder == Touch(old(queueOrder), old(queues), p.name) &&
              answer == Status(true, "Peer registered: " + p.name + " at " + p.ip + ":" + p.port)
      ensures history == old(history)
    {
      var data := ParseForm(body, AsIs);
      var name := Get(data, "name", "Unknown");
      var ip := Get(data, "ip", "127.0.0.1");
      var port := Get(data, "port", "5000");
      RegisterConsistent(peers, queues, queueOrder, history, Peer(name, ip, port));
      var updated := UpdatePeers(peers, name, ip, port);
      var q, o := queues, queueOrder;
      if name !in queues {
        q, o := queues[name := []], queueOrder + [name];
      }
      peers, queues, queueOrder := updated, q, o;
      answer := Status(true, "Peer registered: " + name + " at " + ip + ":" + port);
    }

    /** `add_list`, which delegates to `submit_info`. */
    method AddList(body: string) returns (answer: Answer)
      requires Valid()
      modifies this
      ensures Valid()
      ensures var p := Registration(body);
              peers == Registered(old(peers), p) &&
              queues == (if p.name in old(queues) then old(queues) else old(queues)[p.name := []]) &&
              queueOrder == Touch(old(queueOrder), old(queues), p.name) &&
              answer == Status(true, "Peer registered: " + p.name + " at " + p.ip + ":" + p.port)
      ensures history == old(history)
    {
      answer := SubmitInfo(body);
    }

    /** `get_list`: a copy of the peer list and its length. */
    method GetList() returns (answer: Answer)
      ensures answer.PeerList? && answer.peers == peers && answer.count == |peers|
    {
      answer := PeerList(peers, |peers|);
    }

    /** The search loop of `send_peer`. */
    method HasPeer(name: string) returns (found: bool)
      ensures found <==> exists i :: 0 <= i < |peers| && peers[i].name == name
    {
      found := false;
      var i := 0;
      while i < |peers|
        invariant 0 <= i <= |peers|
        invariant forall j :: 0 <= j < i ==> peers[j].name != name
      {
        if peers[i].name == name {
          found := true;
          break;
        }
        i := i + 1;
      }
    }

    /**
     * `send_peer` as written: after both appends it calls
     * `save_message_queue()` without its argument, which raises; the queues
     * keep both copies and the handler fails.
     */
    method SendPeer(body: string, now: string) returns (answer: Answer)
      requires Valid()
      modifies this
      ensures Valid()
      ensures var d := DirectRequest(body);
              var m := DirectMessage(d.sender, d.target, d.message, d.channel, now);
              if exists i :: 0 <= i < |old(peers)| && old(peers)[i].name == d.target then
                queues == Delivered(old(queues), d.sender, d.target, m) &&
                queueOrder == DeliveredOrder(old(queueOrder), old(queues), d.sender, d.target) &&
                answer == Raised
              else
                queues == old(queues) && queueOrder == old(queueOrder) &&
                answer == Status(false, "Peer " + d.target + " not found")
      ensures peers == old(peers) && history == old(history)
    {
      var d, found := Deliver(body, now);
      if found {
        answer := Raised;
      } else {
        answer := Status(false, "Peer " + d.target + " not found");
      }
    }

    /** `send_peer` with the queues saved: the reply its code goes on to build. */
    method SendPeerCorrected(body: string, now: string) returns (answer: Answer, saved: Option<string>)
      requires Valid()
      modifies this
      ensures Valid()
      ensures var d := DirectRequest(body);
              var m := DirectMessage(d.sender, d.target, d.message, d.channel, now);
              if exists i :: 0 <= i < |old(peers)| && old(peers)[i].name == d.target then
                queues == Delivered(old(queues), d.sender, d.target, m) &&
                queueOrder == DeliveredOrder(old(queueOrder), old(queues), d.sender, d.target) &&
                answer == Status(true, "Message sent to " + d.target) &&
                saved == Some(SaveText(queues, queueOrder))
              else
                queues == old(queues) && queueOrder == old(queueOrder) && saved == None &&
                answer == Status(false, "Peer " + d.target + " not found")
      ensures peers == old(peers) && history == old(history)
    {
      var d, found := Deliver(body, now);
      if found {
        var text := SaveMessageQueue(queues, queueOrder);
        saved := Some(text);
        answer := Status(true, "Message sent to " + d.target);
      } else {
        saved := None;
        answer := Status(false, "Peer " + d.target + " not found");
      }
    }

    /** The part of `send_peer` both versions share: the form, the search and the two appends. */
    method Deliver(body: string, now: string) returns (d: Direct, found: bool)
      requires Valid()
      modifies this
      ensures Valid()
      ensures d == DirectRequest(body)
      ensures found <==> exists i :: 0 <= i < |old(peers)| && old(peers)[i].name == d.target
      ensures var m := DirectMessage(d.sender, d.target, d.message, d.channel, now);
              if found then
                queues == Delivered(old(queues), d.sender, d.target, m) &&
                queueOrder == DeliveredOrder(old(queueOrder), old(queues), d.sender, d.target)
              else
                queues == old(queues) && queueOrder == old(queueOrder)
      ensures peers == old(peers) && history == old(history)
    {
      var data := ParseForm(body, PlusThenUnquoted);
      d := Direct(Get(data, "sender_name", "Anonymous"), Get(data, "target_name", ""),
                  Get(data, "message", ""), Get(data, "channel", "general"));
      found := DeliverDirect(d, now);
    }

    /** The search and the two appends of `send_peer`, for a request already read. */
    method DeliverDirect(d: Direct, now: string) returns (found: bool)
      requires Valid()
      modifies this
      ensures Valid()
      ensures found <==> exists i :: 0 <= i < |old(peers)| && old(peers)[i].name == d.target
      ensures var m := DirectMessage(d.sender, d.target, d.message, d.channel, now);
              if found then
                queues == Delivered(old(queues), d.sender, d.target, m) &&
                queueOrder == DeliveredOrder(old(queueOrder), old(queues), d.sender, d.target)
              else
                queues == old(queues) && queueOrder == old(queueOrder)
      ensures peers == old(peers) && history == old(history)
    {
      found := HasPeer(d.target);
      if found {
        var m := DirectMessage(d.sender, d.target, d.message, d.channel, now);
        DeliveredKeyOrder(queueOrder, queues, d.sender, d.target, m);
        queueOrder := DeliveredOrder(queueOrder, queues, d.sender, d.target);
        queues := queues[d.target := Get(queues, d.target, []) + [m]];
        queues := queues[d.sender := Get(queues, d.sender, []) + [m]];
      }
    }

    /** `broadcast_peer`: channel history first, then one copy per registered peer. */
    method BroadcastPeer(body: string, now: string) returns (answer: Answer)
      requires Valid()
      modifies this
      ensures Valid()
      ensures var d := BroadcastRequest(body);
              var m := BroadcastMessage(d.sender, d.message, d.channel, now);
              history == Posted(old(history), d.channel, m) &&
              queues == Fanout(old(queues), Names(old(peers)), m) &&
              queueOrder == FanoutOrder(old(queueOrder), old(queues), Names(old(peers)), m) &&
              answer == BroadcastSent(|old(peers)|)
      ensures peers == old(peers)
    {
      var data := ParseForm(body, PlusThenUnquoted);
      var sender := Get(data, "sender_name", "Anonymous");
      var message := Get(data, "message", "");
      var channel := Get(data, "channel", "general");
      var m := BroadcastMessage(sender, message, channel, now);
      BroadcastConsistent(peers, queues, queueOrder, history, channel, m);
      var posted := PostHistory(history, channel, m);
      var q, o, count := FanoutLoop(queues, queueOrder, Names(peers), m);
      history, queues, queueOrder := posted, q, o;
      answer := BroadcastSent(count);
    }

    /** `get_messages`: hands out the peer's queue and leaves it empty. */
    method GetMessages(body: string) returns (answer: Answer)
      requires Valid()
      modifies this
      ensures Valid()
      ensures var name := Strip(Get(Form(body, Unquoted), "peer_name", ""));
              if name == "" then
                answer == Status(false, "Missing peer_name") && queues == old(queues) && queueOrder == old(queueOrder)
              else
                answer == Messages(Get(old(queues), name, [])) &&
                queues == old(queues)[name := []] &&
                queueOrder == Touch(old(queueOrder), old(queues), name)
      ensures peers == old(peers) && history == old(history)
    {
      var name := ReadName(body, "peer_name");
      answer := Drain(name);
    }

    /** The lock section of `get_messages` once the name is read. */
    method Drain(name: string) returns (answer: Answer)
      requires Valid()
      modifies this
      ensures Valid()
      ensures if name == "" then
                answer == Status(false, "Missing peer_name") && queues == old(queues) && queueOrder == old(queueOrder)
              else
                answer == Messages(Get(old(queues), name, [])) &&
                queues == old(queues)[name := []] &&
                queueOrder == Touch(old(queueOrder), old(queues), name)
      ensures peers == old(peers) && history == old(history)
    {
      if name == "" {
        return Status(false, "Missing peer_name");
      }
      var messages := Get(queues, name, []);
      TouchKeyOrder(queueOrder, queues, name, []);
      queueOrder := Touch(queueOrder, queues, name);
      queues := queues[name := []];
      answer := Messages(messages);
    }

    /** `get_channel_history`: reads the history of the named channel (`general` by default). */
    method GetChannelHistory(body: string) returns (answer: Answer)
      ensures var channel := Strip(Get(Form(body, Unquoted), "channel", "general"));
              answer == ChannelMessages(Get(history, channel, []), channel)
    {
      var data := ParseForm(body, Unquoted);
      var channel := Strip(Get(data, "channel", "general"));
      answer := ChannelMessages(Get(history, channel, []), channel);
    }

    /** `unregister`: removes every peer of that name and deletes its queue. */
    method Unregister(body: string) returns (answer: Answer)
      requires Valid()
      modifies this
      ensures Valid()
      ensures var name := Strip(Get(Form(body, Unquoted), "name", ""));
              name == "" ==>
                answer == Status(false, "Missing name") &&
                peers == old(peers) && queues == old(queues) && queueOrder == old(queueOrder)
      ensures var name := Strip(Get(Form(body, Unquoted), "name", ""));
              name != "" ==>
                answer == Status(true, name + " unregistered") &&
                peers == Without(old(peers), name) &&
                queues == old(queues) - {name} &&
                queueOrder == (if name in old(queues) then Drop(old(queueOrder), name) else old(queueOrder))
      ensures history == old(history)
    {
      var name := ReadName(body, "name");
      answer := UnregisterName(name);
    }

    /** The lock section of `unregister` once the name is read. */
    method UnregisterName(name: string) returns (answer: Answer)
      requires Valid()
      modifies this
      ensures Valid()
      ensures name == "" ==>
                answer == Status(false, "Missing name") &&
                peers == old(peers) && queues == old(queues) && queueOrder == old(queueOrder)
      ensures name != "" ==>
                answer == Status(true, name + " unregistered") &&
                peers == Without(old(peers), name) &&
                queues == old(queues) - {name} &&
                queueOrder == (if name in old(queues) then Drop(old(queueOrder), name) else old(queueOrder))
      ensures history == old(history)
    {
      if name == "" {
        answer := Status(false, "Missing name");
      } else {
        peers, queues, queueOrder := RemovePeer(peers, queues, queueOrder, history, name);
        answer := Status(true, name + " unregistered");
      }
    }
  }

  /** The peer loop of `submit_info`: the first peer of that name gets the new address, else one is appended. */
  method UpdatePeers(peers: seq<Peer>, name: string, ip: string, port: string) returns (updated: seq<Peer>)
    ensures updated == Registered(peers, Peer(name, ip, port))
  {
    updated := peers;
    var i := 0;
    while i < |peers|
      invariant 0 <= i <= |peers|
      invariant forall j :: 0 <= j < i ==> peers[j].name != name
    {
      if peers[i].name == name {
        return peers[i := Peer(peers[i].name, ip, port)];
      }
      i := i + 1;
    }
    updated := peers + [Peer(name, ip, port)];
  }

  lemma RegisterConsistent(peers: seq<Peer>, queues: map<string, seq<Message>>, order: seq<string>,
                           history: map<string, seq<Message>>, p: Peer)
    requires Consistent(peers, queues, order, history)
    ensures Consistent(Registered(peers, p), if p.name in queues then queues else queues[p.name := []],
                       Touch(order, queues, p.name), history)
  {
    RegisteredUnique(peers, p);
    TouchKeyOrder(order, queues, p.name, []);
    var r := Registered(peers, p);
    var q := if p.name in queues then queues else queues[p.name := []];
    forall k | 0 <= k < |r| ensures r[k].name in q {
      if r[k] != p {
        RegisteredMembers(peers, p, k);
      }
    }
    if p.name in queues {
      assert queues[p.name := []].Keys == queues.Keys;
    }
  }

  /** The stripped, unquoted form field `key` (`""` when it is missing). */
  method ReadName(body: string, key: string) returns (name: string)
    ensures name == Strip(Get(Form(body, Unquoted), key, ""))
  {
    var data := ParseForm(body, Unquoted);
    name := Strip(Get(data, key, ""));
  }

  /** The state `unregister` leaves: `name`'s peers and queue gone, the rest kept consistent. */
  method RemovePeer(peers: seq<Peer>, queues: map<string, seq<Message>>, order: seq<string>,
                    history: map<string, seq<Message>>, name: string)
    returns (peers': seq<Peer>, queues': map<string, seq<Message>>, order': seq<string>)
    requires Consistent(peers, queues, order, history)
    ensures peers' == Without(peers, name) && queues' == queues - {name}
    ensures order' == if name in queues then Drop(order, name) else order
    ensures Consistent(peers', queues', order', history)
  {
    UnregisterConsistent(peers, queues, order, history, name);
    peers' := Without(peers, name);
    queues' := queues - {name};
    order' := if name in queues then Drop(order, name) else order;
  }

  /** The peers kept by `unregister` still have their queues once `name`'s queue is deleted. */
  lemma WithoutKeepsQueues(peers: seq<Peer>, queues: map<string, seq<Message>>, name: string)
    requires forall i :: 0 <= i < |peers| ==> peers[i].name in queues
    ensures var r := Without(peers, name);
            forall i :: 0 <= i < |r| ==> r[i].name in queues - {name}
  {
    WithoutMembers(peers, name);
    var r := Without(peers, name);
    forall i | 0 <= i < |r| ensures r[i].name in queues - {name} {
      assert r[i] in r;
      var j :| 0 <= j < |peers| && peers[j] == r[i];
    }
  }

  /** A peer of the updated list is the new peer or one of the old ones. */
  lemma RegisteredMembers(peers: seq<Peer>, p: Peer, k: nat)
    requires k < |Registered(peers, p)| && Registered(peers, p)[k] != p
    ensures Registered(peers, p)[k] in peers
  {
  }
}
