/**
 The run of an upload-only client that does not close: once the fingerprints are used up, the two
 sides list the same ids to each other for ever.
 */
module NegentropyEndless {
  import opened NegentropyTypes
  import opened NegentropyReconcile
  import opened NegentropySegments
  import opened NegentropyReports
  import opened NegentropyProtocol
  import opened NegentropyTermination

  predicate NoFingerprints(msg: Message) {
    forall i :: 0 <= i < |msg| ==> !msg[i].payload.Fingerprint?
  }

  /** No skip follows another or ends the message. */
  predicate Tight(msg: Message) {
    && (forall i :: 0 < i < |msg| && msg[i].payload.Skip? ==> !msg[i - 1].payload.Skip?)
    && (msg != [] ==> !msg[|msg| - 1].payload.Skip?)
  }

  /** The message with the party's own ids in every list. */
  function Relist(items: seq<Item>, msg: Message): (r: Message)
    ensures |r| == |msg|
  {
    seq(|msg|, i requires 0 <= i < |msg| =>
      Range(msg[i].upper, if msg[i].payload.IdList? then IdList(Ids(Segment(items, msg, i))) else Skip))
  }

  // ---- messages are tight ----

  lemma {:induction false} TightAppend(front: Message, pieces: Message)
    requires NoSkips(pieces) && pieces != []
    requires forall i :: 0 < i < |front| && front[i].payload.Skip? ==> !front[i - 1].payload.Skip?
    ensures Tight(front + pieces)
  {
  }

  /** What a party has written is tight, and so is what is pending but for the skip at its end. */
  lemma {:induction false} WrittenTight(p: Party, hash: Hash, msg: Message)
    ensures Tight(Handle(p, hash, msg).out)
  {
    if msg != [] {
      var before, r := msg[..|msg| - 1], msg[|msg| - 1];
      WrittenTight(p, hash, before);
      var st0 := Handle(p, hash, before);
      StepShape(p, hash, before, r);
      if !StepRange(p, hash, before, r).skipping {
        PiecesNoSkips(p, hash, st0.index, r);
        TightAppend(FinishSkip(st0), Pieces(p, hash, st0.index, r));
      }
    }
  }

  lemma {:induction false} PiecesNoSkips(p: Party, hash: Hash, lower: nat, r: Range)
    requires lower <= |p.items|
    ensures NoSkips(Pieces(p, hash, lower, r)) && Pieces(p, hash, lower, r) != []
  {
  }

  // ---- lists are answered by lists ----

  /** A party that lists again answers a message without fingerprints by its own lists in the same ranges. */
  lemma {:induction false} ListsAgain(p: Party, hash: Hash, msg: Message, k: nat)
    requires Sealed(p.items) && Monotone(msg) && NoFingerprints(msg) && Tight(msg) && Relists(p) && k <= |msg|
    ensures FinishSkip(StateBefore(p, hash, msg, k)) == Relist(p.items, msg)[..k]
    ensures k > 0 ==> (StateBefore(p, hash, msg, k).skipping <==> msg[k - 1].payload.Skip?)
    ensures k == 0 ==> StateBefore(p, hash, msg, k) == START
  {
    if k == 0 {
      assert msg[..k] == [];
    } else {
      var i := k - 1;
      ListsAgain(p, hash, msg, i);
      StateFacts(p, hash, msg, i);
      var st0, st := StateBefore(p, hash, msg, i), StateBefore(p, hash, msg, k);
      StepShape(p, hash, msg[..i], msg[i]);
      WhenSkipped(p, hash, msg[..i], msg[i]);
      RelistAt(p.items, msg, i);
      if msg[i].payload.IdList? {
        OwnSegment(p, hash, msg, i, st0.index);
      } else {
        assert !st0.skipping;
      }
    }
  }

  lemma {:induction false} RelistAt(items: seq<Item>, msg: Message, i: nat)
    requires i < |msg|
    ensures Relist(items, msg)[..i + 1] ==
            Relist(items, msg)[..i]
            + [Range(msg[i].upper, if msg[i].payload.IdList? then IdList(Ids(Segment(items, msg, i))) else Skip)]
  {
  }

  lemma {:induction false} OwnSegment(p: Party, hash: Hash, msg: Message, i: nat, index: nat)
    requires i < |msg| && msg[i].payload.IdList?
    requires index == CutFrom(p.items, 0, msg, i) <= Cut(p.items, msg[i].upper) <= |p.items|
    requires IndexAfter(p.items, index, msg[i].upper) == Cut(p.items, msg[i].upper)
    ensures Pieces(p, hash, index, msg[i]) == [Range(msg[i].upper, IdList(Ids(Segment(p.items, msg, i))))]
  {
  }

  lemma {:induction false} AnswersByLists(p: Party, hash: Hash, msg: Message)
    requires Sealed(p.items) && Monotone(msg) && NoFingerprints(msg) && Tight(msg) && Relists(p)
    ensures Handle(p, hash, msg).out == Relist(p.items, msg)
  {
    ListsAgain(p, hash, msg, |msg|);
    assert msg[..|msg|] == msg && Relist(p.items, msg)[..|msg|] == Relist(p.items, msg);
  }

  /** Listing again and being listed to again gives back an honest message. */
  lemma {:induction false} RelistTwice(items: seq<Item>, other: seq<Item>, hash: Hash, msg: Message)
    requires Honest(items, hash, msg) && NoFingerprints(msg)
    ensures Relist(items, Relist(other, msg)) == msg
  {
    var again := Relist(items, Relist(other, msg));
    forall i | 0 <= i < |msg| ensures again[i] == msg[i] {
      assert HonestAt(items, hash, 0, msg, i);
      assert Segment(items, Relist(other, msg), i) == Segment(items, msg, i);
    }
  }

  lemma {:induction false} RelistShape(items: seq<Item>, msg: Message)
    requires Monotone(msg) && NoFingerprints(msg) && Tight(msg)
    ensures Monotone(Relist(items, msg)) && NoFingerprints(Relist(items, msg)) && Tight(Relist(items, msg))
  {
  }

  // ---- the run ----

  /** The weight after `n` messages: one less each time, down to that of an id list. */
  function WeightLeft(s: Session, n: nat): nat {
    if n + 2 <= Rank(s) then Rank(s) - n else 2
  }

  lemma {:induction false} RankedMore(s: Session, st: RunState, w: nat)
    requires Ranked(s, st, w)
    ensures Ranked(s, st, w + 1)
  {
    if st.Sent? {
      var own, peer := Receiver(s, !st.toServer).items, Receiver(s, st.toServer).items;
      var v := w + 1;
      forall i | 0 <= i < |st.msg| ensures LightAt(own, peer, 0, 0, st.msg, st.toServer, v, i) {
        assert LightAt(own, peer, 0, 0, st.msg, st.toServer, w, i);
      }
    }
  }

  lemma {:induction false} RunWeight(s: Session, n: nat)
    requires WellFormed(s)
    ensures Ranked(s, StateAfter(s, n), WeightLeft(s, n))
  {
    hide Ranked, WellFormed, Next;
    if n == 0 {
      OpeningRanked(s);
    } else {
      RunWeight(s, n - 1);
      if WeightLeft(s, n - 1) == WeightLeft(s, n) {
        RankedMore(s, StateAfter(s, n - 1), WeightLeft(s, n - 1));
      }
      StepRanked(s, n - 1, WeightLeft(s, n));
    }
  }

  lemma {:induction false} LightHasNoFingerprints(s: Session, st: RunState)
    requires Ranked(s, st, 2) && st.Sent?
    ensures NoFingerprints(st.msg)
  {
    var own, peer := Receiver(s, !st.toServer).items, Receiver(s, st.toServer).items;
    forall i | 0 <= i < |st.msg| ensures !st.msg[i].payload.Fingerprint? {
      assert LightAt(own, peer, 0, 0, st.msg, st.toServer, 2, i);
    }
  }

  /** Only lists and skips are left, and they tell the truth about the sender's items. */
  ghost predicate Listing(s: Session, st: RunState) {
    && st.Sent?
    && Honest(Receiver(s, !st.toServer).items, s.hash, st.msg)
    && NoFingerprints(st.msg) && Tight(st.msg)
  }

  /** The next message lists the receiver's items in the same ranges. */
  lemma {:induction false} StepLists(s: Session, n: nat)
    requires WellFormed(s) && !s.down && Listing(s, StateAfter(s, n)) && StateAfter(s, n + 1).Sent?
    ensures var st, next := StateAfter(s, n), StateAfter(s, n + 1);
            && next.toServer == !st.toServer
            && next.msg == Relist(Receiver(s, st.toServer).items, st.msg)
            && Listing(s, next)
  {
    var st := StateAfter(s, n);
    var p := Receiver(s, st.toServer);
    AnswersByLists(p, s.hash, st.msg);
    HandleHonest(p, s.hash, st.msg);
    OutHonest(p, s.hash, st.msg, Handle(p, s.hash, st.msg));
    RelistShape(p.items, st.msg);
  }

  lemma {:induction false} Unclosed(s: Session, n: nat)
    requires WellFormed(s) && !s.down && CollisionFreeRun(s, n)
    requires |s.client| < 2 * BUCKETS || s.client != s.server
    ensures Unsettled(s, StateAfter(s, n))
  {
    OpeningUnsettled(s);
    NeverSettles(s, n);
  }

  lemma {:induction false} LateListing(s: Session, n: nat)
    requires WellFormed(s) && !s.down && CollisionFreeRun(s, n) && n >= Rank(s)
    requires |s.client| < 2 * BUCKETS || s.client != s.server
    ensures Listing(s, StateAfter(s, n))
    ensures exists i :: 0 <= i < |StateAfter(s, n).msg| && StateAfter(s, n).msg[i].payload.IdList?
  {
    var st := StateAfter(s, n);
    Unclosed(s, n);
    RunWeight(s, n);
    LightHasNoFingerprints(s, st);
    Unclosed(s, n - 1);
    var before := StateAfter(s, n - 1);
    WrittenTight(Receiver(s, before.toServer), s.hash, before.msg);
    LiveIsWritten(Receiver(s, st.toServer).items, Receiver(s, !st.toServer).items, st.msg);
  }

  lemma {:induction false} LiveIsWritten(own: seq<Item>, peer: seq<Item>, msg: Message)
    requires Live(own, peer, msg)
    ensures exists i :: 0 <= i < |msg| && !msg[i].payload.Skip?
  {
    var i :| 0 <= i < |msg| && LiveAt(own, peer, 0, 0, msg, i);
    assert !msg[i].payload.Skip?;
  }

  /**
   An upload-only client that does not close ends up in an exchange of two messages that repeats for
   ever: each side lists all its ids in the ranges still open, and gets the other's in return.
   */
  lemma {:induction false} ListsForEver(s: Session, n: nat)
    requires WellFormed(s) && !s.down && CollisionFreeRun(s, n + 2)
    requires |s.client| < 2 * BUCKETS || s.client != s.server
    requires n >= Rank(s)
    ensures var st, again := StateAfter(s, n), StateAfter(s, n + 2);
            && Listing(s, st) && again.Sent? && again.toServer == st.toServer && again.msg == st.msg
            && exists i :: 0 <= i < |st.msg| && st.msg[i].payload.IdList?
  {
    hide StateAfter, Relist, Tight, NoFingerprints, Honest, CollisionFreeRun;
    FreeBefore(s, n);
    LateListing(s, n);
    Unclosed(s, n + 1);
    Unclosed(s, n + 2);
    StepLists(s, n);
    StepLists(s, n + 1);
    var st := StateAfter(s, n);
    RelistTwice(Receiver(s, !st.toServer).items, Receiver(s, st.toServer).items, s.hash, st.msg);
  }

  lemma {:induction false} FreeBefore(s: Session, n: nat)
    requires CollisionFreeRun(s, n + 2)
    ensures CollisionFreeRun(s, n) && CollisionFreeRun(s, n + 1)
  {
  }
}
