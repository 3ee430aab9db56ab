/** The clients' listeners beside the dispatcher (relay/listener.go). */
module Listeners {
  import opened NostrEvents
  import opened Dispatcher

  datatype Spec = Spec(ssid: int, sid: Str)

  ghost predicate Owns(subs: map<int, Subscription>, ws: int, spec: Spec) {
    spec.ssid in subs && subs[spec.ssid].ws == ws && subs[spec.ssid].id == spec.sid
  }

  ghost predicate OnceEach(specs: seq<Spec>) {
    forall i, j :: 0 <= i < j < |specs| ==> specs[i].ssid != specs[j].ssid
  }

  ghost predicate Held(specs: seq<Spec>, ssid: int) {
    exists i :: 0 <= i < |specs| && specs[i].ssid == ssid
  }

  /** A client's list holds its own live subscriptions, each once. */
  ghost predicate ListSound(subs: map<int, Subscription>, ws: int, specs: seq<Spec>) {
    && OnceEach(specs)
    && (forall i :: 0 <= i < |specs| ==> Owns(subs, ws, specs[i]))
    && (forall s :: s in subs && subs[s].ws == ws ==> Held(specs, s))
  }

  ghost predicate Attached(subs: map<int, Subscription>, clients: map<int, seq<Spec>>) {
    && (forall ws :: ws in clients ==> ListSound(subs, ws, clients[ws]))
    && (forall s :: s in subs ==> subs[s].ws in clients)
  }

  /** The live subscriptions without those of a client and, if given, of one subscription id. */
  ghost function Without(subs: map<int, Subscription>, ws: int, sid: Option<Str>): map<int, Subscription> {
    map s | s in subs && !(subs[s].ws == ws && (sid.Some? ==> subs[s].id == sid.value)) :: subs[s]
  }

  /** No listener asks for ids. */
  ghost predicate NoIds(subs: map<int, Subscription>) {
    forall s :: s in subs ==> subs[s].filter.ids.None?
  }

  // ---- what the clients have asked for ----

  datatype RelayCall =
    | Join(ws: int)
    | Listen(ws: int, id: Str, filter: Filter)
    | Unlisten(ws: int, id: Str)
    | Leave(ws: int)

  /** Each live number is sent to once if its filter matches, and none other if nothing was left behind. */
  ghost predicate SentAs(sent: seq<Subscription>, ids: seq<int>, subs: map<int, Subscription>, ev: Event, clean: bool) {
    && Yields(sent, ids, subs)
    && (forall s :: s in subs ==> multiset(ids)[s] == One(Matches(subs[s].filter, ev)))
    && (clean ==> forall s :: s !in subs ==> multiset(ids)[s] == 0)
  }

  /** The connected clients and their listeners, numbered in the order they came. */
  datatype Audience = Audience(serial: int, clients: set<int>, subs: map<int, Subscription>)

  ghost function Heard(a: Audience, call: RelayCall): Audience {
    match call
    case Join(ws) => a.(clients := a.clients + {ws})
    case Listen(ws, id, filter) =>
      if filter.ids.None? && ws in a.clients
      then a.(serial := a.serial + 1, subs := a.subs[a.serial + 1 := Subscription(id, filter, ws)])
      else a
    case Unlisten(ws, id) => a.(subs := Without(a.subs, ws, Some(id)))
    case Leave(ws) => a.(clients := a.clients - {ws}, subs := Without(a.subs, ws, None))
  }

  ghost function AudienceOf(calls: seq<RelayCall>): Audience {
    if calls == [] then Audience(0, {}, map[])
    else Heard(AudienceOf(calls[..|calls| - 1]), calls[|calls| - 1])
  }

  /** Every connection is a new one. */
  ghost predicate NewClients(calls: seq<RelayCall>) {
    forall i :: 0 <= i < |calls| && calls[i].Join? ==> calls[i].ws !in AudienceOf(calls[..i]).clients
  }

  ghost predicate SafeListens(calls: seq<RelayCall>) {
    forall i :: 0 <= i < |calls| && calls[i].Listen? ==> SafeFilter(calls[i].filter)
  }

  class Relay {
    const dispatcher: Dispatcher
    var clients: map<int, seq<Spec>>

    ghost predicate Valid()
      reads this, dispatcher
    {
      && LiveSound(dispatcher.Current()) && NoIds(dispatcher.subscriptions)
      && Attached(dispatcher.subscriptions, clients)
    }

    /** Nothing has been left behind in the indexes, and nothing will be. */
    ghost predicate Clean()
      reads this, dispatcher
    {
      NoStale(dispatcher.Current()) && AllSafe(dispatcher.Current())
    }

    constructor ()
      ensures Valid() && Clean() && fresh(dispatcher) && clients == map[]
      ensures dispatcher.subscriptions == map[] && dispatcher.serial == 0
    {
      dispatcher := new Dispatcher();
      clients := map[];
      new;
      StartSound();
      SoundIff(EMPTY);
    }

    method Connect(ws: int)
      requires Valid() && ws !in clients
      modifies this
      ensures Valid() && clients == old(clients)[ws := []]
      ensures old(Clean()) ==> Clean()
    {
      hide LiveSound;
      clients := clients[ws := []];
    }

    /** A listener without ids joins the dispatcher as long as its client is still connected. */
    method AddListener(ws: int, id: Str, filter: Filter)
      requires Valid() && filter.ids.None?
      modifies this, dispatcher
      ensures Valid() && clients.Keys == old(clients.Keys)
      ensures ws !in old(clients) ==>
                dispatcher.subscriptions == old(dispatcher.subscriptions) && dispatcher.serial == old(dispatcher.serial)
      ensures ws in old(clients) ==>
                var s := old(dispatcher.serial) + 1;
                && s !in old(dispatcher.subscriptions) && dispatcher.serial == s
                && dispatcher.subscriptions == old(dispatcher.subscriptions)[s := Subscription(id, filter, ws)]
      ensures old(Clean()) && SafeFilter(filter) ==> Clean()
    {
      hide LiveSound, NoStale, SafeFilter, Link;
      if ws in clients {
        AddedLive(dispatcher.Current(), Subscription(id, filter, ws));
        SerialIsNew(dispatcher.Current());
        AddedAttached(dispatcher.subscriptions, clients, dispatcher.serial + 1, Subscription(id, filter, ws));
        var ssid := dispatcher.AddSubscription(Subscription(id, filter, ws));
        clients := clients[ws := clients[ws] + [Spec(ssid, id)]];
      }
    }

    /** What a client asks for: a filter with ids adds no listener. */
    method Request(ws: int, id: Str, filter: Filter)
      requires Valid()
      modifies this, dispatcher
      ensures Valid()
      ensures var after := Heard(old(Audience(dispatcher.serial, clients.Keys, dispatcher.subscriptions)),
                                 Listen(ws, id, filter));
              Audience(dispatcher.serial, clients.Keys, dispatcher.subscriptions) == after
      ensures old(Clean()) && SafeFilter(filter) ==> Clean()
    {
      hide LiveSound, NoStale, SafeFilter, Attached;
      if filter.ids.None? {
        AddListener(ws, id, filter);
      }
    }

    /**
     Sends an event on: every listener whose filter matches it gets it once, and no other does,
     unless entries were left behind.
     */
    method NotifyListeners(ev: Event) returns (sent: seq<Subscription>)
      requires Valid()
      ensures exists ids :: SentAs(sent, ids, dispatcher.subscriptions, ev, Clean())
    {
      hide LiveSound, Attached, Matches, Yields;
      sent := dispatcher.Candidates(ev);
      ghost var ids :| YieldedAs(sent, ids, dispatcher.Current(), ev);
      forall s | s in dispatcher.subscriptions
        ensures multiset(ids)[s] == One(Matches(dispatcher.subscriptions[s].filter, ev))
      {
        WithoutIds(dispatcher.subscriptions[s].filter, ev);
      }
      assert SentAs(sent, ids, dispatcher.subscriptions, ev, Clean());
    }

    /** Every listener of a client with one subscription id goes, and no other. */
    method RemoveListenerId(ws: int, id: Str)
      requires Valid()
      modifies this, dispatcher
      ensures Valid() && clients.Keys == old(clients.Keys) && dispatcher.serial == old(dispatcher.serial)
      ensures dispatcher.subscriptions == Without(old(dispatcher.subscriptions), ws, Some(id))
      ensures old(Clean()) ==> Clean()
    {
      hide LiveSound, NoStale, SafeFilter, Unlink, Attached;
      if ws in clients {
        var specs := clients[ws];
        ghost var subs := dispatcher.subscriptions;
        AttachedAt(subs, clients, ws);
        var kept: seq<Spec> := [];
        var i := 0;
        AllKept(subs, specs);
        while i < |specs|
          invariant 0 <= i <= |specs| && clients == old(clients)
          invariant LiveSound(dispatcher.Current()) && dispatcher.serial == old(dispatcher.serial)
          invariant old(Clean()) ==> Clean()
          invariant dispatcher.subscriptions == Less(subs, specs[..i], Some(id))
          invariant kept == Others(specs[..i], id)
          modifies dispatcher
        {
          LessStep(subs, specs, i, Some(id));
          if specs[i].sid == id {
            RemovedKeeps(dispatcher.Current(), specs[i].ssid);
            dispatcher.RemoveSubscription(specs[i].ssid);
          } else {
            kept := kept + [specs[i]];
          }
          i := i + 1;
        }
        assert specs[..|specs|] == specs;
        clients := clients[ws := kept];
        LessIsWithout(subs, ws, specs, Some(id));
        KeptAttached(subs, old(clients), ws, id);
      } else {
        NothingOf(dispatcher.subscriptions, clients, ws, Some(id));
      }
    }

    /** Every listener of a client goes with it. */
    method RemoveClientAndListeners(ws: int)
      requires Valid()
      modifies this, dispatcher
      ensures Valid() && clients == old(clients) - {ws} && dispatcher.serial == old(dispatcher.serial)
      ensures dispatcher.subscriptions == Without(old(dispatcher.subscriptions), ws, None)
      ensures old(Clean()) ==> Clean()
    {
      hide LiveSound, NoStale, SafeFilter, Unlink, Attached;
      if ws in clients {
        var specs := clients[ws];
        ghost var subs := dispatcher.subscriptions;
        AttachedAt(subs, clients, ws);
        AllKept(subs, specs);
        var i := 0;
        while i < |specs|
          invariant 0 <= i <= |specs| && clients == old(clients)
          invariant LiveSound(dispatcher.Current()) && dispatcher.serial == old(dispatcher.serial)
          invariant old(Clean()) ==> Clean()
          invariant dispatcher.subscriptions == Less(subs, specs[..i], None)
          modifies dispatcher
        {
          LessStep(subs, specs, i, None);
          RemovedKeeps(dispatcher.Current(), specs[i].ssid);
          dispatcher.RemoveSubscription(specs[i].ssid);
          i := i + 1;
        }
        assert specs[..|specs|] == specs;
        LessIsWithout(subs, ws, specs, None);
        GoneAttached(subs, clients, ws);
      } else {
        NothingOf(dispatcher.subscriptions, clients, ws, None);
      }
      clients := clients - {ws};
    }
  }

  /** The subscriptions left once those of some specs are removed. */
  ghost function Less(subs: map<int, Subscription>, specs: seq<Spec>, sid: Option<Str>): map<int, Subscription> {
    map s | s in subs && !Named(specs, s, sid) :: subs[s]
  }

  ghost predicate Named(specs: seq<Spec>, ssid: int, sid: Option<Str>) {
    exists i :: 0 <= i < |specs| && specs[i].ssid == ssid && (sid.Some? ==> specs[i].sid == sid.value)
  }

  function Others(specs: seq<Spec>, id: Str): seq<Spec> {
    if specs == [] then []
    else
      var front := Others(specs[..|specs| - 1], id);
      if specs[|specs| - 1].sid == id then front else front + [specs[|specs| - 1]]
  }

  /** A relay after any calls of its clients. */
  method Serve(calls: seq<RelayCall>) returns (relay: Relay)
    requires NewClients(calls)
    ensures fresh(relay) && fresh(relay.dispatcher) && relay.Valid()
    ensures relay.dispatcher.subscriptions == AudienceOf(calls).subs
    ensures SafeListens(calls) ==> relay.Clean()
  {
    hide LiveSound, NoStale, SafeFilter, Attached, NoIds, Heard;
    relay := new Relay();
    var i := 0;
    assert calls[..0] == [];
    while i < |calls|
      invariant 0 <= i <= |calls| && fresh(relay) && fresh(relay.dispatcher) && relay.Valid()
      invariant Audience(relay.dispatcher.serial, relay.clients.Keys, relay.dispatcher.subscriptions) ==
                AudienceOf(calls[..i])
      invariant SafeListens(calls) ==> relay.Clean()
      modifies relay, relay.dispatcher
    {
      assert calls[..i + 1][..i] == calls[..i];
      ghost var before := AudienceOf(calls[..i]);
      HeardIs(before);
      match calls[i] {
        case Join(ws) => relay.Connect(ws);
        case Listen(ws, id, filter) => relay.Request(ws, id, filter);
        case Unlisten(ws, id) => relay.RemoveListenerId(ws, id);
        case Leave(ws) => relay.RemoveClientAndListeners(ws);
      }
      i := i + 1;
    }
    assert calls[..|calls|] == calls;
  }

  lemma {:induction false} HeardIs(a: Audience)
    ensures forall ws :: Heard(a, Join(ws)) == a.(clients := a.clients + {ws})
    ensures forall ws, id :: Heard(a, Unlisten(ws, id)) == a.(subs := Without(a.subs, ws, Some(id)))
    ensures forall ws :: Heard(a, Leave(ws)) == a.(clients := a.clients - {ws}, subs := Without(a.subs, ws, None))
  {
  }

  /**
   After any calls of the clients, an event goes once to every listener then live whose filter
   matches it; with safe filters it goes to nobody else.
   */
  method ServeAndNotify(calls: seq<RelayCall>, ev: Event) returns (sent: seq<Subscription>)
    requires NewClients(calls)
    ensures exists ids :: SentAs(sent, ids, AudienceOf(calls).subs, ev, SafeListens(calls))
  {
    hide Matches, NewClients, SafeListens, Yields;
    var relay := Serve(calls);
    sent := relay.NotifyListeners(ev);
    ghost var ids :| SentAs(sent, ids, relay.dispatcher.subscriptions, ev, relay.Clean());
    assert SentAs(sent, ids, AudienceOf(calls).subs, ev, SafeListens(calls));
  }

  lemma {:induction false} WithoutIds(f: Filter, ev: Event)
    requires f.ids.None?
    ensures MatchesButIds(f, ev) <==> Matches(f, ev)
  {
    assert f.(ids := None) == f;
  }

  /** A removal keeps what is live indexed, and leaves nothing behind where all filters are safe. */
  lemma {:induction false} RemovedKeeps(d: State, ssid: int)
    requires LiveSound(d)
    ensures LiveSound(Removed(d, ssid)) && Removed(d, ssid).serial == d.serial
    ensures Removed(d, ssid).subs == d.subs - {ssid}
    ensures NoStale(d) && AllSafe(d) ==> NoStale(Removed(d, ssid)) && AllSafe(Removed(d, ssid))
  {
    hide LiveSound, NoStale, Unlink, SafeFilter;
    RemovedLive(d, ssid);
    SoundIff(d);
    SoundIff(Removed(d, ssid));
    if Sound(d) && AllSafe(d) {
      RemovedSound(d, ssid);
    }
  }

  lemma {:induction false} SerialIsNew(d: State)
    requires LiveSound(d)
    ensures d.serial + 1 !in d.subs
  {
  }

  lemma {:induction false} AttachedAt(subs: map<int, Subscription>, clients: map<int, seq<Spec>>, ws: int)
    requires Attached(subs, clients) && ws in clients
    ensures ListSound(subs, ws, clients[ws])
  {
    hide ListSound;
  }

  lemma {:induction false} AddedAttached(subs: map<int, Subscription>, clients: map<int, seq<Spec>>, ssid: int,
                                         sub: Subscription)
    requires Attached(subs, clients) && ssid !in subs && sub.ws in clients
    ensures Attached(subs[ssid := sub], clients[sub.ws := clients[sub.ws] + [Spec(ssid, sub.id)]])
  {
    var subs', clients' := subs[ssid := sub], clients[sub.ws := clients[sub.ws] + [Spec(ssid, sub.id)]];
    forall ws | ws in clients' ensures ListSound(subs', ws, clients'[ws]) {
      assert ListSound(subs, ws, clients[ws]);
      forall s | s in subs' && subs'[s].ws == ws ensures Held(clients'[ws], s) {
        if s == ssid {
          assert clients'[ws][|clients[ws]|].ssid == s;
        } else {
          assert Held(clients[ws], s);
          var i :| 0 <= i < |clients[ws]| && clients[ws][i].ssid == s;
          assert clients'[ws][i].ssid == s;
        }
      }
    }
  }

  lemma {:induction false} AllKept(subs: map<int, Subscription>, specs: seq<Spec>)
    ensures Less(subs, specs[..0], None) == subs
    ensures forall id :: Less(subs, specs[..0], Some(id)) == subs && Others(specs[..0], id) == []
  {
  }

  lemma {:induction false} NamedStep(specs: seq<Spec>, i: nat, ssid: int, sid: Option<Str>)
    requires i < |specs|
    ensures Named(specs[..i + 1], ssid, sid) <==>
            Named(specs[..i], ssid, sid) || (specs[i].ssid == ssid && (sid.Some? ==> specs[i].sid == sid.value))
  {
    assert specs[..i + 1] == specs[..i] + [specs[i]];
    if Named(specs[..i], ssid, sid) {
      var j :| 0 <= j < i && specs[..i][j].ssid == ssid && (sid.Some? ==> specs[..i][j].sid == sid.value);
      assert specs[..i + 1][j] == specs[..i][j];
    }
    assert specs[..i + 1][i] == specs[i];
  }

  lemma {:induction false} LessStep(subs: map<int, Subscription>, specs: seq<Spec>, i: nat, sid: Option<Str>)
    requires i < |specs|
    ensures Less(subs, specs[..i + 1], sid) ==
            if sid.Some? && specs[i].sid != sid.value then Less(subs, specs[..i], sid)
            else Less(subs, specs[..i], sid) - {specs[i].ssid}
    ensures sid.Some? ==>
              Others(specs[..i + 1], sid.value)
              == Others(specs[..i], sid.value) + (if specs[i].sid == sid.value then [] else [specs[i]])
  {
    hide Named;
    forall s ensures Named(specs[..i + 1], s, sid) <==>
                     Named(specs[..i], s, sid) || (specs[i].ssid == s && (sid.Some? ==> specs[i].sid == sid.value)) {
      NamedStep(specs, i, s, sid);
    }
    assert specs[..i + 1][..i] == specs[..i];
    var after, before := Less(subs, specs[..i + 1], sid), Less(subs, specs[..i], sid);
    if sid.Some? && specs[i].sid != sid.value {
      assert forall s :: s in after <==> s in before;
      assert after == before;
    } else {
      assert forall s :: s in after <==> s in before && s != specs[i].ssid;
      assert after == before - {specs[i].ssid};
    }
  }

  lemma {:induction false} LessIsWithout(subs: map<int, Subscription>, ws: int, specs: seq<Spec>, sid: Option<Str>)
    requires ListSound(subs, ws, specs)
    ensures Less(subs, specs, sid) == Without(subs, ws, sid)
  {
    forall s | s in subs ensures Named(specs, s, sid) <==> subs[s].ws == ws && (sid.Some? ==> subs[s].id == sid.value) {
      if subs[s].ws == ws {
        assert Held(specs, s);
        var i :| 0 <= i < |specs| && specs[i].ssid == s;
        assert Owns(subs, ws, specs[i]);
      }
      if Named(specs, s, sid) {
        var i :| 0 <= i < |specs| && specs[i].ssid == s && (sid.Some? ==> specs[i].sid == sid.value);
        assert Owns(subs, ws, specs[i]);
      }
    }
  }

  lemma {:induction false} OthersIs(specs: seq<Spec>, id: Str)
    ensures forall x :: x in Others(specs, id) <==> x in specs && x.sid != id
    ensures OnceEach(specs) ==> OnceEach(Others(specs, id))
  {
    if specs != [] {
      var front, last := specs[..|specs| - 1], specs[|specs| - 1];
      OthersIs(front, id);
      assert specs == front + [last];
      if OnceEach(specs) {
        assert OnceEach(front);
        var kept := Others(front, id);
        forall i | 0 <= i < |kept| ensures kept[i].ssid != last.ssid {
          assert kept[i] in front;
          var j :| 0 <= j < |front| && front[j] == kept[i];
          assert specs[j].ssid != specs[|specs| - 1].ssid;
        }
      }
    }
  }

  lemma {:induction false} KeptAttached(subs: map<int, Subscription>, clients: map<int, seq<Spec>>, ws: int, id: Str)
    requires Attached(subs, clients) && ws in clients
    ensures Attached(Without(subs, ws, Some(id)), clients[ws := Others(clients[ws], id)])
  {
    var subs', clients' := Without(subs, ws, Some(id)), clients[ws := Others(clients[ws], id)];
    OthersIs(clients[ws], id);
    hide Others;
    forall w | w in clients' ensures ListSound(subs', w, clients'[w]) {
      assert ListSound(subs, w, clients[w]);
      forall i | 0 <= i < |clients'[w]| ensures Owns(subs', w, clients'[w][i]) {
        assert clients'[w][i] in clients'[w];
        var j :| 0 <= j < |clients[w]| && clients[w][j] == clients'[w][i];
        assert Owns(subs, w, clients[w][j]);
      }
      forall s | s in subs' && subs'[s].ws == w ensures Held(clients'[w], s) {
        assert Held(clients[w], s);
        var j :| 0 <= j < |clients[w]| && clients[w][j].ssid == s;
        assert Owns(subs, w, clients[w][j]);
        assert clients[w][j] in clients[w];
        assert clients[w][j] in clients'[w];
      }
    }
  }

  lemma {:induction false} GoneAttached(subs: map<int, Subscription>, clients: map<int, seq<Spec>>, ws: int)
    requires Attached(subs, clients)
    ensures Attached(Without(subs, ws, None), clients - {ws})
  {
    var subs' := Without(subs, ws, None);
    forall w | w in clients - {ws} ensures ListSound(subs', w, clients[w]) {
      assert ListSound(subs, w, clients[w]);
      forall i | 0 <= i < |clients[w]| ensures Owns(subs', w, clients[w][i]) {
        assert Owns(subs, w, clients[w][i]);
      }
    }
  }

  lemma {:induction false} NothingOf(subs: map<int, Subscription>, clients: map<int, seq<Spec>>, ws: int,
                                     sid: Option<Str>)
    requires Attached(subs, clients) && ws !in clients
    ensures Without(subs, ws, sid) == subs && clients - {ws} == clients
  {
    hide ListSound;
    assert forall s :: s in subs ==> subs[s].ws != ws;
    assert forall s :: s in Without(subs, ws, sid) <==> s in subs;
    assert forall w :: w in clients - {ws} <==> w in clients;
    assert Without(subs, ws, sid) == subs;
    assert clients - {ws} == clients;
  }
}
