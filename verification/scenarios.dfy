/** Consequences of the relay's step function over several events: the
    edge cases server.js exhibits as written. */
module Scenarios {
  import opened Optional
  import opened OrderedMap
  import opened Relay

  /** The handler a step runs, for the events used below. */
  lemma RegisterStep(r: Registry, open: set<Socket>, s: Socket, id: string,
                     name: Option<string>, avatar: Option<string>, flag: Option<string>)
    ensures Step(r, open, Message(s, Register(id, name, avatar, flag))) == OnRegister(r, open, s, id, name, avatar, flag)
  {
  }

  lemma CloseStep(r: Registry, open: set<Socket>, s: Socket)
    ensures Step(r, open, Close(s)) == OnClose(r, open, s)
  {
  }

  lemma OfferStep(r: Registry, open: set<Socket>, s: Socket, i: nat, to: string, sdp: Payload)
    requires FirstWithSocket(r, s, i)
    ensures r[i].0 in Keys(r)
    ensures Step(r, open, Message(s, Offer(to, sdp))) == OnOffer(r, open, s, r[i].0, to, sdp)
  {
    assert Keys(r)[i] == r[i].0;
  }

  /** A registration from an unbound connection leaves that connection
      bound to the registered id alone. */
  lemma RegisterBindsOnlyThatId(r: Registry, open: set<Socket>, s: Socket, id: string,
                                name: Option<string>, avatar: Option<string>, flag: Option<string>)
    requires Unbound(r, s)
    ensures var r1 := Step(r, open, Message(s, Register(id, name, avatar, flag))).users;
      forall j :: 0 <= j < |r1| ==> (r1[j].1.socket == s <==> r1[j].0 == id)
  {
  }

  /** Two registrations from an unbound connection `s` leave exactly the
      two ids bound to `s`. */
  lemma BoundToBoth(r: Registry, s: Socket, a: string, b: string)
    requires Unbound(r, s) && a != b
    ensures var r2 := Set(Set(r, a, Entry(s, "", "", "", false)), b, Entry(s, "", "", "", false));
      forall j :: 0 <= j < |r2| ==> (r2[j].1.socket == s <==> (r2[j].0 == a || r2[j].0 == b))
  {
    var e := Entry(s, "", "", "", false);
    var r1 := Set(r, a, e);
    var r2 := Set(r1, b, e);
    forall j | 0 <= j < |r2|
      ensures r2[j].1.socket == s <==> (r2[j].0 == a || r2[j].0 == b)
    {
      if r2[j].0 == a {
        assert Get(r2, a) == Some(e);
      } else if r2[j].0 == b {
        assert Get(r2, b) == Some(e);
      } else {
        assert j < |r1| && r2[j] == r1[j];
        if j < |r| {
          assert r1[j] == r[j];
        }
      }
    }
  }

  /** When exactly the entries of `a` and `b` are bound to `s`, the
      connection resolves to whichever of the two comes first. */
  lemma FirstOfBound(r2: Registry, s: Socket, a: string, b: string)
    requires a != b && a in Keys(r2) && b in Keys(r2)
    requires forall j :: 0 <= j < |r2| ==> (r2[j].1.socket == s <==> (r2[j].0 == a || r2[j].0 == b))
    ensures var found := FindBySocket(r2, s);
      && found.Some?
      && (var first := r2[found.value].0;
          var second := if first == a then b else a;
          && (first == a || first == b)
          && Get(r2, second).value.socket == s
          && forall j :: 0 <= j < |r2| && r2[j].0 == second ==> found.value < j)
  {
    var ja :| 0 <= ja < |r2| && r2[ja].0 == a;
    assert r2[ja].1.socket == s;
    var i := FindBySocket(r2, s).value;
    var second := if r2[i].0 == a then b else a;
    var js :| 0 <= js < |r2| && r2[js].0 == second;
    assert Get(r2, second) == Some(r2[js].1);
    forall j | 0 <= j < |r2| && r2[j].0 == second
      ensures i < j
    {
      assert j != i;
    }
  }

  /** Of two ids registered in turn from an unbound connection, the one
      that comes first in iteration order is the one the connection
      resolves to; a new second id comes after the first, and a second id
      already held elsewhere keeps its earlier slot ahead of a new first. */
  lemma FirstOfTwo(r: Registry, s: Socket, a: string, b: string)
    requires Unbound(r, s) && a != b
    ensures var r2 := Set(Set(r, a, Entry(s, "", "", "", false)), b, Entry(s, "", "", "", false));
      var found := FindBySocket(r2, s);
      && found.Some?
      && (var first := r2[found.value].0;
          var second := if first == a then b else a;
          && (first == a || first == b)
          && Get(r2, second).value.socket == s
          && (forall j :: 0 <= j < |r2| && r2[j].0 == second ==> found.value < j)
          && (b !in Keys(r) ==> first == a)
          && (a !in Keys(r) && b in Keys(r) ==> first == b))
  {
    var e := Entry(s, "", "", "", false);
    var r1 := Set(r, a, e);
    var r2 := Set(r1, b, e);
    BoundToBoth(r, s, a, b);
    assert a in Keys(r2) && b in Keys(r2);
    FirstOfBound(r2, s, a, b);
    if b !in Keys(r) {
      assert r2 == r1 + [(b, e)];
      var ja :| 0 <= ja < |r1| && r1[ja].0 == a;
      assert r2[ja].0 == a;
    }
    if a !in Keys(r) && b in Keys(r) {
      assert r1 == r + [(a, e)];
      var jb :| 0 <= jb < |r| && r[jb].0 == b;
      assert r2[jb].0 == b;
    }
  }

  /** One connection registered under two ids: later frames on it speak
      for whichever id comes first in iteration order, and its close
      removes that id only, leaving the other behind, still bound to the
      closed connection. A new second id comes after the first; a second
      id already held elsewhere keeps its earlier slot and can come first. */
  lemma DoubleRegistrationLeavesStaleEntry(r: Registry, open: set<Socket>, s: Socket, a: string, b: string)
    requires Unbound(r, s) && a != b
    ensures var r1 := Step(r, open, Message(s, Register(a, None, None, None))).users;
      var r2 := Step(r1, open, Message(s, Register(b, None, None, None))).users;
      var r3 := Step(r2, open, Close(s)).users;
      var found := FindBySocket(r2, s);
      && found.Some?
      && (var first := r2[found.value].0;
          var second := if first == a then b else a;
          && (first == a || first == b)
          && (forall j :: 0 <= j < |r2| && r2[j].0 == second ==> found.value < j)
          && (b !in Keys(r) ==> first == a)
          && (a !in Keys(r) && b in Keys(r) ==> first == b)
          && first !in Keys(r3)
          && second in Keys(r3) && Get(r3, second).value.socket == s)
  {
    var e := Entry(s, "", "", "", false);
    RegisterStep(r, open, s, a, None, None, None);
    var r1 := Set(r, a, e);
    RegisterStep(r1, open, s, b, None, None, None);
    var r2 := Set(r1, b, e);
    FirstOfTwo(r, s, a, b);
    CloseStep(r2, open, s);
    var first := r2[FindBySocket(r2, s).value].0;
    var second := if first == a then b else a;
    var r3 := Delete(r2, first);
    assert Get(r3, second) == Get(r2, second);
  }

  /** A caller who disconnects mid-call is removed, but the callee stays
      marked busy: nothing on close clears the partner's flag. */
  lemma CloseLeavesPartnerBusy(r: Registry, open: set<Socket>, s: Socket, i: nat, b: string, sdp: Payload)
    requires FirstWithSocket(r, s, i)
    requires b in Keys(r) && b != r[i].0 && !Get(r, b).value.busy
    ensures var call := Step(r, open, Message(s, Offer(b, sdp)));
      var hangup := Step(call.users, open, Close(s));
      && Get(call.users, b).value.busy
      && r[i].0 !in Keys(hangup.users)
      && Get(hangup.users, b) == Some(Get(r, b).value.(busy := true))
      && forall d :: d in hangup.outbox ==> d.msg.UserList?
  {
    var a := r[i].0;
    OfferStep(r, open, s, i, b, sdp);
    var call := OnOffer(r, open, s, a, b, sdp);
    assert Get(call.users, b) == Some(Get(r, b).value.(busy := true));
    assert OnlyBusyChanged(r, call.users);
    assert FirstWithSocket(call.users, s, i);
    CloseStep(call.users, open, s);
    var hangup := OnClose(call.users, open, s);
    assert call.users[i].0 == a;
    assert hangup.users == call.users[..i] + call.users[i + 1..];
    assert Get(hangup.users, b) == Get(call.users, b);
    assert a !in Keys(hangup.users) by {
      assert hangup.users == Delete(call.users, a);
    }
    assert hangup.outbox == Broadcast(hangup.users, open);
  }

  /** An id registered again from another connection is rebound: the old
      connection no longer resolves to anyone, so its frames are dropped and
      its close changes nothing. */
  lemma RebindOrphansOldSocket(r: Registry, open: set<Socket>, prev: Socket, s: Socket, id: string,
                               name: Option<string>, avatar: Option<string>, flag: Option<string>)
    requires id in Keys(r) && Get(r, id).value.socket == prev && prev != s
    requires forall j :: 0 <= j < |r| && r[j].1.socket == prev ==> r[j].0 == id
    ensures var r1 := Step(r, open, Message(s, Register(id, name, avatar, flag))).users;
      && Get(r1, id).value.socket == s
      && Unbound(r1, prev)
      && Step(r1, open, Close(prev)) == Output(r1, [])
      && forall m: Inbound :: !m.Register? ==> Step(r1, open, Message(prev, m)) == Output(r1, [])
  {
  }

  /** The broadcast goes out once per entry, not once per connection: a
      connection bound to two ids receives the snapshot twice. */
  lemma SharedSocketGetsTwoSnapshots(r: Registry, open: set<Socket>, s: Socket)
    requires |r| == 2 && r[0].1.socket == s && r[1].1.socket == s && s in open
    ensures Broadcast(r, open) == [Send(s, UserList(Snapshot(r))), Send(s, UserList(Snapshot(r)))]
  {
  }

  /** An idle user may offer a call to itself: it becomes busy and the
      offer comes back on its own connection after the broadcast. */
  lemma SelfOfferIsAccepted(r: Registry, open: set<Socket>, s: Socket, i: nat, sdp: Payload)
    requires FirstWithSocket(r, s, i) && !r[i].1.busy
    ensures var out := Step(r, open, Message(s, Offer(r[i].0, sdp)));
      && Get(out.users, r[i].0) == Some(r[i].1.(busy := true))
      && |out.outbox| > 0
      && out.outbox[|out.outbox| - 1] == Send(s, OfferFrom(r[i].0, sdp))
  {
  }
}

module Runs {
  import opened Optional
  import opened OrderedMap
  import opened Relay

  /** One event together with the connections open when it is handled. */
  datatype Tick = Tick(open: set<Socket>, event: Event)

  /** The registry after handling `ticks` in order, and everything sent. */
  function Run(r: Registry, ticks: seq<Tick>): Output
    decreases |ticks|
  {
    if |ticks| == 0 then Output(r, [])
    else
      var first := Step(r, ticks[0].open, ticks[0].event);
      var rest := Run(first.users, ticks[1..]);
      Output(rest.users, first.outbox + rest.outbox)
  }

  /** Event `e` names user `id` as the one it registers, closes or ends a
      call for: a `register` of `id`, an `end-call` to `id` or sent by
      `id`, or the close of the connection that resolves to `id`. */
  predicate Names(r: Registry, e: Event, id: string) {
    match e
    case Unparsable(_) => false
    case Close(s) => ResolvesTo(r, s, id)
    case Message(s, msg) =>
      match msg
      case Register(u, _, _, _) => u == id
      case EndCall(to) => to == id || ResolvesTo(r, s, id)
      case _ => false
  }

  /** Connection `s` speaks for `id`. */
  predicate ResolvesTo(r: Registry, s: Socket, id: string) {
    match FindBySocket(r, s)
    case None => false
    case Some(i) => r[i].0 == id
  }

  /** No tick of the run names `id`, each judged on the registry it meets. */
  predicate Untouched(r: Registry, ticks: seq<Tick>, id: string)
    decreases |ticks|
  {
    |ticks| == 0 ||
      (!Names(r, ticks[0].event, id) &&
       Untouched(Step(r, ticks[0].open, ticks[0].event).users, ticks[1..], id))
  }

  /** A busy user's entry survives any event that does not name it
      unchanged: offers to it are refused, its own offers leave it busy,
      and other users' events, closes included, do not touch it. */
  lemma StepKeepsBusyEntry(r: Registry, open: set<Socket>, e: Event, id: string)
    requires id in Keys(r) && Get(r, id).value.busy && !Names(r, e, id)
    ensures Get(Step(r, open, e).users, id) == Get(r, id)
  {
  }

  /** Once busy, a user stays busy, with its entry exactly as it was, for
      as long as no event names it: a caller's disconnect or crash leaves
      the callee marked busy indefinitely. */
  lemma {:induction false} BusyPersists(r: Registry, ticks: seq<Tick>, id: string)
    requires id in Keys(r) && Get(r, id).value.busy && Untouched(r, ticks, id)
    ensures Get(Run(r, ticks).users, id) == Get(r, id)
    decreases |ticks|
  {
    if |ticks| > 0 {
      var next := Step(r, ticks[0].open, ticks[0].event).users;
      StepKeepsBusyEntry(r, ticks[0].open, ticks[0].event, id);
      BusyPersists(next, ticks[1..], id);
    }
  }
}
