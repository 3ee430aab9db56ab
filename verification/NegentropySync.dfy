/**
 A whole synchronisation over the wire: two `Negentropy` objects exchange byte strings until
 the client closes, and the channels then hold exactly the two set differences.
 */
module NegentropySync {
  import opened ByteStrings
  import opened NegentropyTypes
  import opened NegentropyReconcile
  import opened NegentropySegments
  import opened NegentropyReports
  import opened NegentropyProtocol
  import opened NegentropyTermination
  import opened NegentropyCodec
  import opened NegentropyWire
  import opened NegentropyNode

  // ---- every message of a run can be transmitted ----

  ghost predicate CarriedRange(r: Range) {
    && 0 <= r.upper.ts <= MAX_TIMESTAMP && |r.upper.prefix| < TWO_63
    && (r.payload.IdList? ==> |r.payload.ids| < TWO_63)
  }

  /** Bounds and lists of a size the wire format has room for. */
  ghost predicate Carried(msg: Message) {
    forall i :: 0 <= i < |msg| ==> CarriedRange(msg[i])
  }

  lemma {:induction false} CarriedAppend(front: Message, back: Message)
    requires Carried(front) && Carried(back)
    ensures Carried(front + back)
  {
  }

  lemma {:induction false} CarriedTransmissible(msg: Message)
    requires Carried(msg) && Monotone(msg)
    ensures Transmissible(msg, 0)
  {
    hide LexLess;
    forall i | 0 <= i < |msg| ensures 0 <= msg[i].upper.ts <= MAX_TIMESTAMP && |msg[i].upper.prefix| < TWO_63 {
      assert CarriedRange(msg[i]);
    }
    forall i | 0 <= i < |msg| && msg[i].payload.IdList? ensures |msg[i].payload.ids| < TWO_63 {
      assert CarriedRange(msg[i]);
    }
    forall i, j | 0 <= i < j < |msg| ensures msg[i].upper.ts <= msg[j].upper.ts {
      assert BoundLe(msg[i].upper, msg[j].upper);
    }
  }

  lemma {:induction false} SplitCarried(items: seq<Item>, hash: Hash, lower: nat, upper: nat, bound: Bound)
    requires Sealed(items) && |items| < TWO_63 && lower <= upper <= |items|
    requires 0 <= bound.ts <= MAX_TIMESTAMP && |bound.prefix| < TWO_63
    ensures Carried(Split(items, hash, lower, upper, bound))
  {
    if upper - lower >= 2 * BUCKETS {
      SplitBuckets(items, hash, lower, upper, bound);
      hide Split, Bucket, CarriedRange;
      forall i | 0 <= i < BUCKETS ensures CarriedRange(Bucket(items, hash, lower, upper, bound, i)) {
        BucketCarried(items, hash, lower, upper, bound, i);
      }
    }
  }

  lemma {:induction false} BucketCarried(items: seq<Item>, hash: Hash, lower: nat, upper: nat, bound: Bound, i: nat)
    requires Sealed(items) && lower <= upper <= |items| && upper - lower >= 2 * BUCKETS && i < BUCKETS
    requires 0 <= bound.ts <= MAX_TIMESTAMP && |bound.prefix| < TWO_63
    ensures CarriedRange(Bucket(items, hash, lower, upper, bound, i))
  {
    BucketSizes(lower, upper - lower, i);
  }

  lemma {:induction false} HandleCarried(p: Party, hash: Hash, msg: Message)
    requires Sealed(p.items) && |p.items| < TWO_63 && Carried(msg)
    ensures Carried(FinishSkip(Handle(p, hash, msg)))
  {
    if msg != [] {
      var before, r := msg[..|msg| - 1], msg[|msg| - 1];
      HandleCarried(p, hash, before);
      assert CarriedRange(r);
      var st0, st := Handle(p, hash, before), StepRange(p, hash, before, r);
      StepShape(p, hash, before, r);
      StepCarried(p, hash, st0, r, st);
    }
  }

  lemma {:induction false} StepCarried(p: Party, hash: Hash, st0: Progress, r: Range, st: Progress)
    requires Sealed(p.items) && |p.items| < TWO_63 && CarriedRange(r)
    requires Carried(FinishSkip(st0)) && st.bound == r.upper && Stepped(p, hash, st0, r, st)
    ensures Carried(FinishSkip(st))
  {
    if st.skipping {
      forall i | 0 <= i < |st0.out| ensures CarriedRange(st0.out[i]) {
        assert st0.out[i] == FinishSkip(st0)[i];
      }
      CarriedAppend(st0.out, [Range(st.bound, Skip)]);
    } else {
      if !r.payload.IdList? {
        SplitCarried(p.items, hash, st0.index, IndexAfter(p.items, st0.index, r.upper), r.upper);
      }
      CarriedAppend(FinishSkip(st0), Pieces(p, hash, st0.index, r));
    }
  }

  ghost predicate Sendable(st: RunState) {
    st.Sent? ==> Carried(st.msg) && Monotone(st.msg)
  }

  lemma {:induction false} AnswerSendable(p: Party, hash: Hash, msg: Message)
    requires Sealed(p.items) && |p.items| < TWO_63 && Carried(msg) && Monotone(msg)
    ensures Carried(Handle(p, hash, msg).out) && Monotone(Handle(p, hash, msg).out)
  {
    var st := Handle(p, hash, msg);
    HandleCarried(p, hash, msg);
    HandleHonest(p, hash, msg);
    OutHonest(p, hash, msg, st);
    forall i | 0 <= i < |st.out| ensures CarriedRange(st.out[i]) {
      assert st.out[i] == FinishSkip(st)[i];
    }
  }

  lemma {:induction false} RunSendable(s: Session, n: nat)
    requires WellFormed(s) && |s.client| < TWO_63 && |s.server| < TWO_63
    ensures Sendable(StateAfter(s, n))
  {
    if n == 0 {
      CutInfinite(s.client);
      SplitHonest(s.client, s.hash, 0, |s.client|, INFINITE_BOUND);
      SplitCarried(s.client, s.hash, 0, |s.client|, INFINITE_BOUND);
    } else {
      RunSendable(s, n - 1);
      var st := StateAfter(s, n - 1);
      if st.Sent? {
        AnswerSendable(Receiver(s, st.toServer), s.hash, st.msg);
      }
    }
  }

  /** On the wire, a party replies to an encoded message with the encoded answer. */
  lemma {:induction false} ReplyOnWire(p: Party, hash: Hash, msg: Message)
    requires Carried(msg) && Monotone(msg)
    ensures var st := Handle(p, hash, msg);
            Reply(p, hash, [PROTOCOL_VERSION] + EncodeRanges(msg, 0))
            == (Ok([PROTOCOL_VERSION] + EncodeRanges(st.out, 0)), st.haves, st.haveNots)
  {
    hide Handle;
    CarriedTransmissible(msg);
    MessageRoundTrip(msg, 0);
    assert ([PROTOCOL_VERSION] + EncodeRanges(msg, 0))[1..] == EncodeRanges(msg, 0);
  }

  lemma {:induction false} EmptyOnWire(msg: Message)
    ensures |[PROTOCOL_VERSION] + EncodeRanges(msg, 0)| == 1 <==> msg == []
  {
    if msg != [] {
      assert EncodePayload(msg[0].payload) != [];
    }
  }

  // ---- the synchronisation ----

  /** The objects and the byte string in flight are those of the run's state. */
  ghost predicate InFlight(s: Session, st: RunState, client: Negentropy, q: seq<byte>)
    reads client
  {
    && multiset(client.haves) == st.haves && multiset(client.haveNots) == st.haveNots
    && (client.closed <==> st.Closed?)
    && q == if st.Closed? then [] else [PROTOCOL_VERSION] + EncodeRanges(st.msg, 0)
  }

  /** One reply by the server. */
  method ServerTurn(client: Negentropy, server: Negentropy, q: seq<byte>, ghost s: Session, ghost n: nat)
    returns (reply: seq<byte>)
    requires client != server && server.Valid() && !server.isClient && !server.up && !server.down
    requires server.storage == s.server && server.hash == s.hash
    requires WellFormed(s) && |s.client| < TWO_63
    requires StateAfter(s, n).Sent? && StateAfter(s, n).toServer
    requires InFlight(s, StateAfter(s, n), client, q)
    modifies server`lastTimestampIn, server`lastTimestampOut, server`haves, server`haveNots, server`closed
    ensures StateAfter(s, n + 1).Sent? && !StateAfter(s, n + 1).toServer
    ensures InFlight(s, StateAfter(s, n + 1), client, reply)
  {
    hide Handle, EncodeRanges, Sealed, Reply;
    ghost var st := StateAfter(s, n);
    RunSendable(s, n);
    ReplyOnWire(ServerOf(s), s.hash, st.msg);
    WhoReports(ServerOf(s), s.hash, st.msg);
    var result := server.Reconcile(q);
    reply := result.value;
  }

  /** One reply by the client. */
  method ClientTurn(client: Negentropy, q: seq<byte>, ghost s: Session, ghost n: nat) returns (reply: seq<byte>)
    requires client.Valid() && client.isClient && client.up == s.up && client.down == s.down
    requires client.storage == s.client && client.hash == s.hash
    requires WellFormed(s) && |s.server| < TWO_63
    requires StateAfter(s, n).Sent? && !StateAfter(s, n).toServer
    requires InFlight(s, StateAfter(s, n), client, q)
    modifies client`lastTimestampIn, client`lastTimestampOut, client`haves, client`haveNots, client`closed
    ensures StateAfter(s, n + 1).Sent? ==> StateAfter(s, n + 1).toServer
    ensures InFlight(s, StateAfter(s, n + 1), client, reply)
  {
    hide Handle, EncodeRanges, Sealed, Reply;
    ghost var st := StateAfter(s, n);
    RunSendable(s, n);
    ReplyOnWire(ClientOf(s), s.hash, st.msg);
    EmptyOnWire(Handle(ClientOf(s), s.hash, st.msg).out);
    var result := client.Reconcile(q);
    reply := result.value;
  }

  /**
   Runs the protocol to its end. The loop terminates for any two lists, and unless fingerprints
   collided on the way, the channels hold each missing id exactly once.
   */
  method Synchronise(client: Negentropy, server: Negentropy)
    requires client != server && client.Valid() && server.Valid() && client.hash == server.hash
    requires Comparable(client.storage, server.storage)
    requires client.down && !client.closed && client.haves == [] && client.haveNots == []
    requires client.lastTimestampOut == 0
    requires !server.isClient && !server.up && !server.down
    modifies client, server
    ensures client.closed
    ensures var s := Session(client.storage, server.storage, client.hash, client.up, client.down);
            CollisionFreeRun(s, MessageBound(s)) ==>
              && multiset(client.haveNots) == multiset(IdSet(server.storage) - IdSet(client.storage))
              && multiset(client.haves) ==
                 (if client.up then multiset(IdSet(client.storage) - IdSet(server.storage)) else multiset{})
  {
    hide Handle, EncodeRanges, Sealed, Comparable;
    ghost var s := Session(client.storage, server.storage, client.hash, client.up, client.down);
    ghost var n := 0;
    var q := client.Start();
    while q != []
      modifies client`lastTimestampIn, client`lastTimestampOut, client`haves, client`haveNots, client`closed,
      server`lastTimestampIn, server`lastTimestampOut, server`haves, server`haveNots, server`closed
      invariant n <= MessageBound(s) + 1
      invariant InFlight(s, StateAfter(s, n), client, q)
      invariant StateAfter(s, n).Sent? ==> StateAfter(s, n).toServer
      decreases MessageBound(s) + 1 - n
    {
      if n >= MessageBound(s) {
        RunCloses(s, n);
      }
      q := ServerTurn(client, server, q, s, n);
      q := ClientTurn(client, q, s, n + 1);
      n := n + 2;
    }
    FinalReports(s, n);
  }

  lemma {:induction false} FinalReports(s: Session, n: nat)
    requires WellFormed(s) && s.down && StateAfter(s, n).Closed? && n <= MessageBound(s) + 1
    ensures CollisionFreeRun(s, MessageBound(s)) ==>
              && StateAfter(s, n).haveNots == multiset(IdSet(s.server) - IdSet(s.client))
              && StateAfter(s, n).haves ==
                 (if s.up then multiset(IdSet(s.client) - IdSet(s.server)) else multiset{})
  {
    hide StateAfter, MessageBound, Comparable;
    if CollisionFreeRun(s, MessageBound(s)) {
      RunCloses(s, MessageBound(s));
      ClosedStays(s, MessageBound(s));
      var m := if n <= MessageBound(s) then n else MessageBound(s);
      ClosedRunIsExact(s, m);
    }
  }
}
