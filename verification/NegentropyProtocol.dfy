/**
 The two-party run: the client opens, the parties answer each other in turn, and the client
 closes its channels when it has nothing left to say (negentropy.go `Start`, `Reconcile`).
 */
module NegentropyProtocol {
  import opened ByteStrings
  import opened NegentropyTypes
  import opened NegentropyReconcile
  import opened NegentropySegments
  import opened NegentropyReports

  datatype Session = Session(client: seq<Item>, server: seq<Item>, hash: Hash, up: bool, down: bool)

  datatype RunState =
    | Sent(msg: Message, toServer: bool, haves: multiset<Id>, haveNots: multiset<Id>)
    | Closed(haves: multiset<Id>, haveNots: multiset<Id>)

  function ClientOf(s: Session): Party {
    Party(s.client, true, s.up, s.down)
  }

  function ServerOf(s: Session): Party {
    Party(s.server, false, false, false)
  }

  function Receiver(s: Session, toServer: bool): Party {
    if toServer then ServerOf(s) else ClientOf(s)
  }

  /** The state after message `n` has been answered. */
  function Next(s: Session, n: nat): RunState
    decreases n, 1
  {
    var st := StateAfter(s, n);
    if st.Closed? then st
    else
      var answer := Handle(Receiver(s, st.toServer), s.hash, st.msg);
      var haves, haveNots := st.haves + answer.haves, st.haveNots + answer.haveNots;
      if answer.out == [] && !st.toServer then RunState.Closed(haves, haveNots)
      else Sent(answer.out, !st.toServer, haves, haveNots)
  }

  /** The run after `n` messages have been answered; it is determined by the two lists. */
  function StateAfter(s: Session, n: nat): RunState
    decreases n, 0
  {
    if n == 0 then Sent(Opening(ClientOf(s), s.hash), true, multiset{}, multiset{})
    else Next(s, n - 1)
  }

  ghost predicate NoCollision(s: Session, st: RunState) {
    st.Sent? ==>
      CollisionFree(Receiver(s, st.toServer).items, Receiver(s, !st.toServer).items, s.hash, st.msg)
  }

  /** No fingerprint met in the first `n` messages of this run collides. */
  ghost predicate CollisionFreeRun(s: Session, n: nat) {
    forall k :: 0 <= k < n ==> NoCollision(s, StateAfter(s, k))
  }

  ghost predicate WellFormed(s: Session) {
    Comparable(s.client, s.server)
  }

  /**
   At every point, what the client has reported is exactly what the message in flight
   accounts for: ids in skipped ranges are reported or shared, the rest still open.
   */
  ghost predicate Invariant(s: Session, st: RunState) {
    var mine, theirs := IdSet(s.client), IdSet(s.server);
    match st
    case Sent(msg, toServer, haves, haveNots) =>
      && Honest(Receiver(s, !toServer).items, s.hash, msg)
      && haveNots == Accounted(s.server, mine, msg)
      && haves == if s.up then Accounted(s.client, theirs, msg) else multiset{}
    case Closed(haves, haveNots) =>
      && haveNots == multiset(theirs - mine)
      && haves == if s.up then multiset(mine - theirs) else multiset{}
  }

  /** Only the client reports, and only on the channels it has. */
  lemma {:induction false} WhoReports(p: Party, hash: Hash, msg: Message)
    ensures !p.isClient || !p.up ==> Handle(p, hash, msg).haves == multiset{}
    ensures !p.isClient ==> Handle(p, hash, msg).haveNots == multiset{}
  {
    if msg != [] {
      WhoReports(p, hash, msg[..|msg| - 1]);
    }
  }

  lemma {:induction false} NothingAccounted(items: seq<Item>, other: set<Id>, msg: Message)
    requires NoSkips(msg) && Cut(items, INFINITE_BOUND) == |items|
    requires msg != [] && msg[|msg| - 1].upper == INFINITE_BOUND
    ensures Accounted(items, other, msg) == multiset{}
  {
    ClosedAppendOpen(items, other, [], msg);
    assert [] + msg == msg;
  }

  lemma {:induction false} OpeningInvariant(s: Session)
    requires WellFormed(s)
    ensures Invariant(s, StateAfter(s, 0))
  {
    var n := |s.client|;
    CutInfinite(s.client);
    CutInfinite(s.server);
    SplitHonest(s.client, s.hash, 0, n, INFINITE_BOUND);
    NothingAccounted(s.server, IdSet(s.client), Opening(ClientOf(s), s.hash));
    NothingAccounted(s.client, IdSet(s.server), Opening(ClientOf(s), s.hash));
  }

  /** An empty message skips everything. */
  lemma {:induction false} EmptyAccounts(items: seq<Item>, other: set<Id>)
    requires DistinctIds(items)
    ensures Accounted(items, other, []) == multiset(IdSet(items) - other)
  {
    assert Slice(items, 0, |items|) == items;
    MissingMultiplicity(items, other);
  }

  lemma {:induction false} StepInvariant(s: Session, n: nat)
    requires WellFormed(s) && s.down
    requires Invariant(s, StateAfter(s, n)) && NoCollision(s, StateAfter(s, n))
    ensures Invariant(s, Next(s, n))
  {
    var st := StateAfter(s, n);
    if st.Sent? {
      var p, peer := Receiver(s, st.toServer), Receiver(s, !st.toServer).items;
      AnswerAccounts(p, peer, s.hash, st.msg);
      WhoReports(p, s.hash, st.msg);
      EmptyAccounts(s.server, IdSet(s.client));
      EmptyAccounts(s.client, IdSet(s.server));
    }
  }

  lemma {:induction false} RunInvariant(s: Session, n: nat)
    requires WellFormed(s) && s.down && CollisionFreeRun(s, n)
    ensures Invariant(s, StateAfter(s, n))
  {
    if n == 0 {
      OpeningInvariant(s);
    } else {
      RunInvariant(s, n - 1);
      StepInvariant(s, n - 1);
    }
  }

  /**
   When the client closes its channels it has emitted exactly the ids only it holds and
   exactly the ids only the server holds, each once.
   */
  lemma {:induction false} ClosedRunIsExact(s: Session, n: nat)
    requires WellFormed(s) && s.down && CollisionFreeRun(s, n)
    requires StateAfter(s, n).Closed?
    ensures StateAfter(s, n).haveNots == multiset(IdSet(s.server) - IdSet(s.client))
    ensures s.up ==> StateAfter(s, n).haves == multiset(IdSet(s.client) - IdSet(s.server))
    ensures !s.up ==> StateAfter(s, n).haves == multiset{}
  {
    RunInvariant(s, n);
  }

  /** The hash tells differing contiguous parts of the two lists apart. */
  ghost predicate SeparatesSlices(a: seq<Item>, b: seq<Item>, hash: Hash) {
    forall i, j, k, l :: hash(Ids(Slice(a, i, j))) == hash(Ids(Slice(b, k, l))) ==>
                           Ids(Slice(a, i, j)) == Ids(Slice(b, k, l))
  }

  /** A condition on the lists alone under which no run collides. */
  lemma {:induction false} SeparationIsEnough(s: Session, n: nat)
    requires SeparatesSlices(s.client, s.server, s.hash)
    ensures CollisionFreeRun(s, n)
  {
    hide StateAfter, Cut;
    forall k | 0 <= k < n ensures NoCollision(s, StateAfter(s, k)) {
    }
  }
}
