/** The signalling relay of server.js below its WebSocket plumbing: a
    registry from user id to the user's connection, display fields and
    busy flag, and one step function that turns an inbound frame or a
    connection close into the next registry and an ordered outbox of
    messages. Node delivers one event at a time, so a step is atomic. */
module Relay {
  import opened Optional
  import opened OrderedMap

  /** A connection, known only by its identity. */
  type Socket = nat

  /** A session description or ICE candidate, forwarded without inspection. */
  datatype Payload = Payload(json: string)

  /** A registered user: the connection it is bound to, the display fields
      and whether it is in a call. */
  datatype Entry = Entry(socket: Socket, name: string, avatar: string, flag: string, busy: bool)

  /** userId -> entry, in insertion order (a JavaScript `Map`). */
  type Registry = OMap<string, Entry>

  /** A parsed client frame. Ids are already strings; optional display
      fields and the chat text may be missing. `Unrecognized` is any other
      `type`. */
  datatype Inbound =
    | Register(userId: string, name: Option<string>, avatar: Option<string>, flag: Option<string>)
    | Offer(to: string, sdp: Payload)
    | Answer(to: string, sdp: Payload)
    | IceCandidate(to: string, candidate: Payload)
    | EndCall(to: string)
    | Chat(to: string, message: Option<string>)
    | Unrecognized

  /** What the relay reacts to: a frame on a connection, a frame that is
      not JSON, or the connection closing. */
  datatype Event =
    | Message(socket: Socket, msg: Inbound)
    | Unparsable(socket: Socket)
    | Close(socket: Socket)

  /** One row of the presence snapshot; it never exposes the connection. */
  datatype UserView = UserView(id: string, name: string, avatar: string, flag: string, busy: bool)

  /** A frame the relay sends. */
  datatype Outbound =
    | UserList(users: seq<UserView>)
    | OfferFrom(from: string, sdp: Payload)
    | AnswerFrom(from: string, sdp: Payload)
    | CandidateFrom(from: string, candidate: Payload)
    | CallEnded(from: string)
    | ChatFrom(from: string, fromName: string, message: string)
    | Busy(userId: string)

  datatype Send = Send(to: Socket, msg: Outbound)

  /** The registry after an event and the frames the event sends, in order. */
  datatype Output = Output(users: Registry, outbox: seq<Send>)

  /** No entry is bound to `s`. */
  predicate Unbound(r: seq<(string, Entry)>, s: Socket) {
    forall i :: 0 <= i < |r| ==> r[i].1.socket != s
  }

  /** Entry `i` is the first, in iteration order, bound to `s`. */
  predicate FirstWithSocket(r: seq<(string, Entry)>, s: Socket, i: int) {
    0 <= i < |r| && r[i].1.socket == s && forall j :: 0 <= j < i ==> r[j].1.socket != s
  }

  /** The reverse lookup from a connection to its user: the position of the
      first entry bound to `s`, so that a connection registered under two
      ids resolves to the earlier one only. */
  function FindBySocket(r: seq<(string, Entry)>, s: Socket): (found: Option<nat>)
    ensures found.Some? ==> FirstWithSocket(r, s, found.value)
    ensures found.None? <==> Unbound(r, s)
    decreases |r|
  {
    if |r| == 0 then None
    else if r[0].1.socket == s then Some(0)
    else match FindBySocket(r[1..], s)
      case None => None
      case Some(i) => Some(i + 1)
  }

  /** `r'` differs from `r` in busy flags at most: same ids in the same
      order, same connections and display fields. */
  predicate OnlyBusyChanged(r: seq<(string, Entry)>, r': seq<(string, Entry)>) {
    |r'| == |r| && forall i :: 0 <= i < |r| ==> r'[i].0 == r[i].0 && r'[i].1 == r[i].1.(busy := r'[i].1.busy)
  }

  /** Sets the busy flag of `id`'s entry in place; an absent id is left
      absent. */
  function MarkBusy(r: Registry, id: string, busy: bool): (r': Registry)
    ensures OnlyBusyChanged(r, r')
    ensures id in Keys(r) ==> Get(r', id) == Some(Get(r, id).value.(busy := busy))
    ensures forall k :: k != id ==> Get(r', k) == Get(r, k)
  {
    match Get(r, id)
    case None => r
    case Some(e) => Set(r, id, e.(busy := busy))
  }

  /** The row of the snapshot shows the entry's display fields and flag. */
  predicate Shows(v: UserView, e: Entry) {
    v.name == e.name && v.avatar == e.avatar && v.flag == e.flag && v.busy == e.busy
  }

  /** The `users` list of a userlist frame: one row per registered id, in
      registry order, no id twice, each showing that id's entry. */
  function Snapshot(r: Registry): (users: seq<UserView>)
    ensures |users| == |r|
    ensures forall i :: 0 <= i < |r| ==> users[i].id == r[i].0
    ensures forall i, j :: 0 <= i < j < |users| ==> users[i].id != users[j].id
    ensures forall i :: 0 <= i < |users| ==>
      Get(r, users[i].id).Some? && Shows(users[i], Get(r, users[i].id).value)
  {
    seq(|r|, i requires 0 <= i < |r| =>
      UserView(r[i].0, r[i].1.name, r[i].1.avatar, r[i].1.flag, r[i].1.busy))
  }

  /** `msg` sent to the connection of every entry whose connection is
      open, entry by entry in order. */
  function Deliver(r: seq<(string, Entry)>, open: set<Socket>, msg: Outbound): (out: seq<Send>)
    ensures |out| <= |r|
    ensures forall d :: d in out ==> d.msg == msg && d.to in open && !Unbound(r, d.to)
    ensures forall i :: 0 <= i < |r| && r[i].1.socket in open ==> Send(r[i].1.socket, msg) in out
    decreases |r|
  {
    if |r| == 0 then []
    else (if r[0].1.socket in open then [Send(r[0].1.socket, msg)] else []) + Deliver(r[1..], open, msg)
  }

  /** The presence broadcast: the snapshot of `r`, sent to exactly the open
      connections that some entry is bound to. */
  function Broadcast(r: Registry, open: set<Socket>): (out: seq<Send>)
    ensures forall d :: d in out ==> d.msg == UserList(Snapshot(r))
    ensures forall d :: d in out ==> d.to in open && !Unbound(r, d.to)
    ensures forall i :: 0 <= i < |r| && r[i].1.socket in open ==>
      Send(r[i].1.socket, UserList(Snapshot(r))) in out
  {
    Deliver(r, open, UserList(Snapshot(r)))
  }

  /** How many of the sends in `out` go to connection `s`. */
  function Copies(out: seq<Send>, s: Socket): nat
    decreases |out|
  {
    if |out| == 0 then 0 else (if out[0].to == s then 1 else 0) + Copies(out[1..], s)
  }

  /** How many entries of `r` are bound to connection `s`. */
  function Bindings(r: seq<(string, Entry)>, s: Socket): (n: nat)
    ensures n <= |r|
    ensures n == 0 <==> Unbound(r, s)
    decreases |r|
  {
    if |r| == 0 then 0
    else
      var rest := Bindings(r[1..], s);
      assert Unbound(r[1..], s) && r[0].1.socket != s ==> Unbound(r, s) by {
        if Unbound(r[1..], s) && r[0].1.socket != s {
          forall i | 0 <= i < |r| ensures r[i].1.socket != s {
            if i > 0 { assert r[i] == r[1..][i - 1]; }
          }
        }
      }
      (if r[0].1.socket == s then 1 else 0) + rest
  }

  /** Counting sends distributes over concatenation. */
  lemma {:induction false} CopiesOfConcat(a: seq<Send>, b: seq<Send>, s: Socket)
    ensures Copies(a + b, s) == Copies(a, s) + Copies(b, s)
    decreases |a|
  {
    if |a| > 0 {
      assert (a + b)[0] == a[0] && (a + b)[1..] == a[1..] + b;
      CopiesOfConcat(a[1..], b, s);
    } else {
      assert a + b == b;
    }
  }

  /** `Deliver` sends once per entry, not once per connection: an open
      connection receives as many copies as there are entries bound to it,
      a closed one none. */
  lemma {:induction false} DeliverSendsOncePerEntry(r: seq<(string, Entry)>, open: set<Socket>, msg: Outbound, s: Socket)
    ensures Copies(Deliver(r, open, msg), s) == if s in open then Bindings(r, s) else 0
    decreases |r|
  {
    if |r| > 0 {
      var head := if r[0].1.socket in open then [Send(r[0].1.socket, msg)] else [];
      CopiesOfConcat(head, Deliver(r[1..], open, msg), s);
      DeliverSendsOncePerEntry(r[1..], open, msg, s);
    }
  }

  /** The presence broadcast reaches an open connection once for every id
      bound to it. */
  lemma BroadcastSendsOncePerEntry(r: Registry, open: set<Socket>, s: Socket)
    ensures Copies(Broadcast(r, open), s) == if s in open then Bindings(r, s) else 0
  {
    DeliverSendsOncePerEntry(r, open, UserList(Snapshot(r)), s);
  }

  /** The one frame forwarded to `to`'s connection, or none when `to` is
      not registered. */
  function Forward(r: Registry, to: string, msg: Outbound): seq<Send> {
    match Get(r, to)
    case None => []
    case Some(target) => [Send(target.socket, msg)]
  }

  /** `register`: `id` ends up bound to `s`, idle, with missing display
      fields empty; a known id keeps its place (and whatever connection held
      it loses it), a new one goes last; nobody else changes; then the
      presence broadcast. */
  function OnRegister(r: Registry, open: set<Socket>, s: Socket, id: string,
                      name: Option<string>, avatar: Option<string>, flag: Option<string>): (out: Output)
    ensures Get(out.users, id) == Some(Entry(s, name.GetOr(""), avatar.GetOr(""), flag.GetOr(""), false))
    ensures forall k :: k != id ==> Get(out.users, k) == Get(r, k)
    ensures Keys(out.users) == if id in Keys(r) then Keys(r) else Keys(r) + [id]
    ensures out.outbox == Broadcast(out.users, open)
  {
    var users := Set(r, id, Entry(s, name.GetOr(""), avatar.GetOr(""), flag.GetOr(""), false));
    Output(users, Broadcast(users, open))
  }

  /** `offer` from `from` (on connection `s`) to `to`: nothing if `to` is
      unknown; a `busy` reply to the sender alone if `to` is busy; otherwise
      both become busy, nobody else changes, and the presence broadcast is
      followed by the offer to the target. The sender's own flag is not
      consulted, and an offer to oneself is accepted like any other. */
  function OnOffer(r: Registry, open: set<Socket>, s: Socket, from: string, to: string, sdp: Payload): (out: Output)
    requires from in Keys(r)
    ensures to !in Keys(r) ==> out == Output(r, [])
    ensures to in Keys(r) && Get(r, to).value.busy ==> out == Output(r, [Send(s, Busy(to))])
    ensures to in Keys(r) && !Get(r, to).value.busy ==>
      && OnlyBusyChanged(r, out.users)
      && Get(out.users, from) == Some(Get(r, from).value.(busy := true))
      && Get(out.users, to) == Some(Get(r, to).value.(busy := true))
      && (forall k :: k != from && k != to ==> Get(out.users, k) == Get(r, k))
      && out.outbox == Broadcast(out.users, open) + [Send(Get(r, to).value.socket, OfferFrom(from, sdp))]
  {
    match Get(r, to)
    case None => Output(r, [])
    case Some(target) =>
      if target.busy then Output(r, [Send(s, Busy(to))])
      else
        var users := MarkBusy(MarkBusy(r, from, true), to, true);
        Output(users, Broadcast(users, open) + [Send(target.socket, OfferFrom(from, sdp))])
  }

  /** `end-call` from `from` to `to`: a known target is told `call-ended`
      and becomes idle; the sender becomes idle whether or not the target
      exists; nobody else changes; the presence broadcast always follows. */
  function OnEndCall(r: Registry, open: set<Socket>, from: string, to: string): (out: Output)
    requires from in Keys(r)
    ensures OnlyBusyChanged(r, out.users)
    ensures Get(out.users, from) == Some(Get(r, from).value.(busy := false))
    ensures to in Keys(r) ==> Get(out.users, to) == Some(Get(r, to).value.(busy := false))
    ensures forall k :: k != from && k != to ==> Get(out.users, k) == Get(r, k)
    ensures to in Keys(r) ==>
      out.outbox == [Send(Get(r, to).value.socket, CallEnded(from))] + Broadcast(out.users, open)
    ensures to !in Keys(r) ==> out.outbox == Broadcast(out.users, open)
  {
    match Get(r, to)
    case None =>
      var users := MarkBusy(r, from, false);
      Output(users, Broadcast(users, open))
    case Some(target) =>
      var users := MarkBusy(MarkBusy(r, to, false), from, false);
      Output(users, [Send(target.socket, CallEnded(from))] + Broadcast(users, open))
  }

  /** Connection `s` closes: the first entry bound to it, and only that one,
      is removed and the presence broadcast follows; nobody is told anything
      else and every remaining entry, busy flag included, is as it was. A
      connection with no entry changes nothing. */
  function OnClose(r: Registry, open: set<Socket>, s: Socket): (out: Output)
    ensures Unbound(r, s) ==> out == Output(r, [])
    ensures forall i :: FirstWithSocket(r, s, i) ==>
      && out.users == r[..i] + r[i + 1..]
      && out.outbox == Broadcast(out.users, open)
      && (forall k :: k != r[i].0 ==> Get(out.users, k) == Get(r, k))
  {
    match FindBySocket(r, s)
    case None => Output(r, [])
    case Some(i) =>
      var users := Delete(r, r[i].0);
      Output(users, Broadcast(users, open))
  }

  /** A frame other than `register` on a connection whose first entry is
      `i`. answer, ice-candidate and chat leave the registry alone and send
      at most one frame, to the target's connection, only if the target
      exists; offer and end-call run their handlers for the sender; every
      frame names the sender `r[i].0`; unknown types do nothing. */
  function Dispatch(r: Registry, open: set<Socket>, s: Socket, i: nat, msg: Inbound): (out: Output)
    requires FirstWithSocket(r, s, i) && !msg.Register?
    ensures r[i].0 in Keys(r)
    // offer and end-call act for the sender r[i].0
    ensures msg.Offer? ==> out == OnOffer(r, open, s, r[i].0, msg.to, msg.sdp)
    ensures msg.EndCall? ==> out == OnEndCall(r, open, r[i].0, msg.to)
    ensures msg.Unrecognized? ==> out == Output(r, [])
    ensures msg.Answer? || msg.IceCandidate? || msg.Chat? ==>
      && out.users == r
      && |out.outbox| <= 1
      && (out.outbox == [] <==> msg.to !in Keys(r))
      && (forall d :: d in out.outbox ==> d.to == Get(r, msg.to).value.socket)
    ensures msg.Answer? ==> forall d :: d in out.outbox ==> d.msg == AnswerFrom(r[i].0, msg.sdp)
    ensures msg.IceCandidate? ==> forall d :: d in out.outbox ==> d.msg == CandidateFrom(r[i].0, msg.candidate)
    ensures msg.Chat? ==> forall d :: d in out.outbox ==>
      d.msg == ChatFrom(r[i].0, if r[i].1.name == "" then "User " + r[i].0 else r[i].1.name, msg.message.GetOr(""))
    ensures (out.users != r || exists d :: d in out.outbox && d.msg.UserList?) ==> msg.Offer? || msg.EndCall?
  {
    var from := r[i].0;
    assert Keys(r)[i] == from;
    match msg
    case Offer(to, sdp) => OnOffer(r, open, s, from, to, sdp)
    case Answer(to, sdp) => Output(r, Forward(r, to, AnswerFrom(from, sdp)))
    case IceCandidate(to, candidate) => Output(r, Forward(r, to, CandidateFrom(from, candidate)))
    case EndCall(to) => OnEndCall(r, open, from, to)
    case Chat(to, message) =>
      var fromName := if r[i].1.name == "" then "User " + from else r[i].1.name;
      Output(r, Forward(r, to, ChatFrom(from, fromName, message.GetOr(""))))
    case Unrecognized => Output(r, [])
  }

  /** One event. `register` is handled on any connection; every other frame
      is attributed to the first entry bound to its connection and dropped
      when there is none; unparsable frames are dropped. */
  function Step(r: Registry, open: set<Socket>, e: Event): (out: Output)
    ensures e.Unparsable? ==> out == Output(r, [])
    ensures e.Message? && !e.msg.Register? && Unbound(r, e.socket) ==> out == Output(r, [])
    ensures e.Message? && !e.msg.Register? ==> forall i :: FirstWithSocket(r, e.socket, i) ==>
      out == Dispatch(r, open, e.socket, i, e.msg)
    // only register, offer, end-call and close touch the registry or broadcast
    ensures (out.users != r || exists d :: d in out.outbox && d.msg.UserList?) ==>
      e.Close? || (e.Message? && (e.msg.Register? || e.msg.Offer? || e.msg.EndCall?))
  {
    match e
    case Unparsable(_) => Output(r, [])
    case Close(s) => OnClose(r, open, s)
    case Message(s, msg) =>
      if msg.Register? then OnRegister(r, open, s, msg.userId, msg.name, msg.avatar, msg.flag)
      else match FindBySocket(r, s)
        case None => Output(r, [])
        case Some(i) => Dispatch(r, open, s, i, msg)
  }
}
