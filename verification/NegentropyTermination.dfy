/**
 Every run with a client that accepts ids closes, after a number of messages logarithmic in
 the two lists; and exactly when a run with an upload-only client closes.
 */
module NegentropyTermination {
  import opened NegentropyTypes
  import opened NegentropyReconcile
  import opened NegentropySegments
  import opened NegentropyReports
  import opened NegentropyProtocol

  /** How often `n` items can be divided into sixteen buckets before they are listed. */
  function Depth(n: nat): nat {
    if n < 2 * BUCKETS then 0 else 1 + Depth((n + 15) / 16)
  }

  lemma {:induction false} DepthMonotone(m: nat, n: nat)
    requires m <= n
    ensures Depth(m) <= Depth(n)
  {
    if m >= 2 * BUCKETS {
      DepthMonotone((m + 15) / 16, (n + 15) / 16);
    }
  }

  function Pow16(e: nat): nat {
    if e == 0 then 1 else 16 * Pow16(e - 1)
  }

  /** The depth is logarithmic: a list of depth d + 1 has more than 31 * 16^d items. */
  lemma {:induction false} DepthLogarithmic(n: nat)
    requires Depth(n) > 0
    ensures 31 * Pow16(Depth(n) - 1) < n
  {
    var m := (n + 15) / 16;
    if Depth(m) > 0 {
      DepthLogarithmic(m);
    }
  }

  // ---- weights ----

  /** How many answers a range can still cause, from the sizes of the two segments. */
  function Weight(payload: Payload, sender: nat, receiver: nat, toServer: bool): nat {
    match payload
    case Skip => 0
    case IdList(_) => if toServer then 2 else 1
    case Fingerprint(_) => 3 + Depth(sender) + Depth(receiver)
  }

  ghost predicate LightAt(sender: seq<Item>, receiver: seq<Item>, lowS: nat, lowR: nat,
                          msg: Message, toServer: bool, w: nat, i: nat)
    requires i < |msg|
  {
    Weight(msg[i].payload, |SegmentFrom(sender, lowS, msg, i)|, |SegmentFrom(receiver, lowR, msg, i)|, toServer) <= w
  }

  ghost predicate LightFrom(sender: seq<Item>, receiver: seq<Item>, lowS: nat, lowR: nat,
                            msg: Message, toServer: bool, w: nat)
  {
    forall i :: 0 <= i < |msg| ==> LightAt(sender, receiver, lowS, lowR, msg, toServer, w, i)
  }

  ghost predicate Light(sender: seq<Item>, receiver: seq<Item>, msg: Message, toServer: bool, w: nat) {
    LightFrom(sender, receiver, 0, 0, msg, toServer, w)
  }

  lemma {:induction false} LightAppend(sender: seq<Item>, receiver: seq<Item>, front: Message, pieces: Message,
                                       toServer: bool, w: nat)
    requires Light(sender, receiver, front, toServer, w)
    requires LightFrom(sender, receiver, CutFrom(sender, 0, front, |front|), CutFrom(receiver, 0, front, |front|),
                       pieces, toServer, w)
    ensures Light(sender, receiver, front + pieces, toServer, w)
  {
    var all := front + pieces;
    forall i | 0 <= i < |all| ensures LightAt(sender, receiver, 0, 0, all, toServer, w, i) {
      if i < |front| {
        SegmentPrefix(sender, 0, front, all, i);
        SegmentPrefix(receiver, 0, front, all, i);
        assert LightAt(sender, receiver, 0, 0, front, toServer, w, i);
      } else {
        var j := i - |front|;
        SegmentSuffix(sender, 0, front, pieces, j);
        SegmentSuffix(receiver, 0, front, pieces, j);
        assert LightAt(sender, receiver, CutFrom(sender, 0, front, |front|), CutFrom(receiver, 0, front, |front|),
                       pieces, toServer, w, j);
      }
    }
  }

  lemma {:induction false} LightPrefix(sender: seq<Item>, receiver: seq<Item>, front: Message, all: Message,
                                       toServer: bool, w: nat)
    requires front <= all && Light(sender, receiver, all, toServer, w)
    ensures Light(sender, receiver, front, toServer, w)
  {
    forall i | 0 <= i < |front| ensures LightAt(sender, receiver, 0, 0, front, toServer, w, i) {
      SegmentPrefix(sender, 0, front, all, i);
      SegmentPrefix(receiver, 0, front, all, i);
      assert LightAt(sender, receiver, 0, 0, all, toServer, w, i);
    }
  }

  /** Every bucket is a sixteenth of the splitter's items and no more of the other side's. */
  lemma {:induction false} BucketIsLighter(own: seq<Item>, peer: seq<Item>, hash: Hash, lower: nat, upper: nat,
                                           lowP: nat, bound: Bound, pieces: Message, toServer: bool, w: nat, i: nat)
    requires Bucketed(own, hash, lower, upper, bound, pieces) && Monotone(pieces) && i < BUCKETS
    requires lowP <= Cut(peer, pieces[0].upper)
    requires 2 + Depth(upper - lower) + Depth(|Slice(peer, lowP, Cut(peer, bound))|) <= w
    ensures LightAt(own, peer, lower, lowP, pieces, toServer, w, i)
  {
    assert BucketAt(own, hash, lower, upper, pieces, i);
    if i > 0 {
      assert BucketAt(own, hash, lower, upper, pieces, i - 1);
    }
    BucketSizes(lower, upper - lower, i);
    DepthMonotone(|SegmentFrom(own, lower, pieces, i)|, (upper - lower + 15) / 16);
    PieceEdges(peer, lowP, pieces, i);
    if i < BUCKETS - 1 {
      CutMonotone(peer, pieces[i].upper, bound);
    }
    DepthMonotone(|SegmentFrom(peer, lowP, pieces, i)|, |Slice(peer, lowP, Cut(peer, bound))|);
  }

  lemma {:induction false} PieceEdges(items: seq<Item>, lower: nat, pieces: Message, i: nat)
    requires i < |pieces| && Monotone(pieces) && lower <= Cut(items, pieces[0].upper)
    ensures lower <= CutFrom(items, lower, pieces, i) <= CutFrom(items, lower, pieces, i + 1) <= |items|
  {
    if i > 0 {
      CutMonotone(items, pieces[i - 1].upper, pieces[i].upper);
      if i > 1 {
        CutMonotone(items, pieces[0].upper, pieces[i - 1].upper);
      }
    }
  }

  lemma {:induction false} SplitLighter(own: seq<Item>, peer: seq<Item>, hash: Hash, lower: nat, upper: nat, lowP: nat,
                                        bound: Bound, toServer: bool, w: nat)
    requires Sealed(own) && lower <= upper == Cut(own, bound)
    requires lowP <= Cut(peer, Split(own, hash, lower, upper, bound)[0].upper)
    requires 2 + Depth(upper - lower) + Depth(|Slice(peer, lowP, Cut(peer, bound))|) <= w
    ensures LightFrom(own, peer, lower, lowP, Split(own, hash, lower, upper, bound), toServer, w)
  {
    if upper - lower >= 2 * BUCKETS {
      SplitBucketed(own, hash, lower, upper, bound);
      BucketedLighter(own, peer, hash, lower, upper, lowP, bound, Split(own, hash, lower, upper, bound), toServer, w);
    }
  }

  lemma {:induction false} BucketedLighter(own: seq<Item>, peer: seq<Item>, hash: Hash, lower: nat, upper: nat,
                                           lowP: nat, bound: Bound, pieces: Message, toServer: bool, w: nat)
    requires Bucketed(own, hash, lower, upper, bound, pieces)
    requires lowP <= Cut(peer, pieces[0].upper)
    requires 2 + Depth(upper - lower) + Depth(|Slice(peer, lowP, Cut(peer, bound))|) <= w
    ensures LightFrom(own, peer, lower, lowP, pieces, toServer, w)
  {
    BucketedHonest(own, hash, lower, upper, bound, pieces);
    forall i | 0 <= i < |pieces| ensures LightAt(own, peer, lower, lowP, pieces, toServer, w, i) {
      BucketIsLighter(own, peer, hash, lower, upper, lowP, bound, pieces, toServer, w, i);
    }
  }

  /** The first piece of a split range also starts no earlier than the range in the other list. */
  lemma {:induction false} SplitEdge(own: seq<Item>, peer: seq<Item>, hash: Hash, msg: Message, i: nat)
    requires Sealed(own) && Monotone(msg) && i < |msg|
    requires CutFrom(own, 0, msg, i) <= Cut(own, msg[i].upper)
    ensures CutFrom(peer, 0, msg, i)
         <= Cut(peer, Split(own, hash, CutFrom(own, 0, msg, i), Cut(own, msg[i].upper), msg[i].upper)[0].upper)
  {
    if i > 0 {
      SplitAfter(own, hash, msg[i - 1].upper, Cut(own, msg[i].upper), msg[i].upper);
      CutMonotone(peer, msg[i - 1].upper,
                  Split(own, hash, Cut(own, msg[i - 1].upper), Cut(own, msg[i].upper), msg[i].upper)[0].upper);
    }
  }

  /** What replaces a range weighs less than the range did. */
  lemma {:induction false} PiecesLighter(p: Party, peer: seq<Item>, hash: Hash, msg: Message, i: nat, w: nat)
    requires Sealed(p.items) && Monotone(msg) && i < |msg|
    requires LightAt(peer, p.items, 0, 0, msg, !p.isClient, w + 1, i)
    requires CutFrom(p.items, 0, msg, i) <= Cut(p.items, msg[i].upper)
    requires IndexAfter(p.items, CutFrom(p.items, 0, msg, i), msg[i].upper) == Cut(p.items, msg[i].upper)
    requires msg[i].payload.Fingerprint? || (msg[i].payload.IdList? && (!p.isClient || w >= 2))
    ensures LightFrom(p.items, peer, CutFrom(p.items, 0, msg, i), CutFrom(peer, 0, msg, i),
                      Pieces(p, hash, CutFrom(p.items, 0, msg, i), msg[i]), p.isClient, w)
  {
    if msg[i].payload.Fingerprint? {
      var lower, upper := CutFrom(p.items, 0, msg, i), Cut(p.items, msg[i].upper);
      SplitEdge(p.items, peer, hash, msg, i);
      SplitLighter(p.items, peer, hash, lower, upper, CutFrom(peer, 0, msg, i), msg[i].upper, p.isClient, w);
    }
  }

  /**
   Answering takes at least one off the weight of every range that is left; where id lists are
   listed again, as long as it is above that of an id list.
   */
  lemma {:induction false} HandleLighter(p: Party, peer: seq<Item>, hash: Hash, msg: Message, w: nat, k: nat)
    requires Sealed(p.items) && Monotone(msg) && k <= |msg|
    requires (p.isClient ==> p.down) || w >= 2
    requires Light(peer, p.items, msg, !p.isClient, w + 1)
    ensures Light(p.items, peer, FinishSkip(StateBefore(p, hash, msg, k)), p.isClient, w)
  {
    if k == 0 {
      assert msg[..k] == [];
    } else {
      var i := k - 1;
      HandleLighter(p, peer, hash, msg, w, i);
      StateFacts(p, hash, msg, i);
      var st0 := StateBefore(p, hash, msg, i);
      var st := StepRange(p, hash, msg[..i], msg[i]);
      StepShape(p, hash, msg[..i], msg[i]);
      WhenSkipped(p, hash, msg[..i], msg[i]);
      assert LightAt(peer, p.items, 0, 0, msg, !p.isClient, w + 1, i);
      if !st.skipping {
        PiecesLighter(p, peer, hash, msg, i, w);
      }
      StepLighter(p, peer, hash, msg, i, st0, st, w);
    }
  }

  lemma {:induction false} StepLighter(p: Party, peer: seq<Item>, hash: Hash, msg: Message, i: nat, st0: Progress,
                                       st: Progress, w: nat)
    requires i < |msg| && Shaped(st0, msg[..i])
    requires st0.bound == if i == 0 then Bound(0, []) else msg[i - 1].upper
    requires Light(p.items, peer, FinishSkip(st0), p.isClient, w)
    requires st0.index == CutFrom(p.items, 0, msg, i)
    requires Stepped(p, hash, st0, msg[i], st)
    requires !st.skipping ==>
               LightFrom(p.items, peer, st0.index, CutFrom(peer, 0, msg, i),
                         Pieces(p, hash, st0.index, msg[i]), p.isClient, w)
    ensures Light(p.items, peer, FinishSkip(st), p.isClient, w)
  {
    if st.skipping {
      LightPrefix(p.items, peer, st0.out, FinishSkip(st0), p.isClient, w);
      LightAppend(p.items, peer, st0.out, [Range(st.bound, Skip)], p.isClient, w);
    } else {
      var before := msg[..i];
      assert before != [] ==> before[|before| - 1] == msg[i - 1];
      ReachedCut(p.items, before, st0);
      ReachedCut(peer, before, st0);
      LightAppend(p.items, peer, FinishSkip(st0), Pieces(p, hash, st0.index, msg[i]), p.isClient, w);
    }
  }

  // ---- the run closes ----

  ghost predicate Ranked(s: Session, st: RunState, w: nat) {
    st.Sent? ==>
      && Monotone(st.msg)
      && (st.msg == [] || !st.msg[|st.msg| - 1].payload.Skip?)
      && Light(Receiver(s, !st.toServer).items, Receiver(s, st.toServer).items, st.msg, st.toServer, w)
  }

  function Rank(s: Session): nat {
    Depth(|s.client|) + Depth(|s.server|) + 2
  }

  /** The greatest number of messages answered before the client closes. */
  function MessageBound(s: Session): nat {
    Rank(s) + 1
  }

  lemma {:induction false} OpeningLight(own: seq<Item>, peer: seq<Item>, hash: Hash)
    requires Sealed(own) && Sealed(peer)
    ensures var msg := Split(own, hash, 0, |own|, INFINITE_BOUND);
            && Light(own, peer, msg, true, Depth(|own|) + Depth(|peer|) + 2)
            && Monotone(msg) && NoSkips(msg)
  {
    CutInfinite(own);
    CutInfinite(peer);
    assert Slice(peer, 0, |peer|) == peer;
    SplitHonest(own, hash, 0, |own|, INFINITE_BOUND);
    SplitLighter(own, peer, hash, 0, |own|, 0, INFINITE_BOUND, true, Depth(|own|) + Depth(|peer|) + 2);
  }

  lemma {:induction false} OpeningRanked(s: Session)
    requires WellFormed(s)
    ensures Ranked(s, StateAfter(s, 0), Rank(s))
  {
    OpeningLight(s.client, s.server, s.hash);
  }

  lemma {:induction false} StepRanked(s: Session, n: nat, w: nat)
    requires WellFormed(s) && (s.down || w >= 2) && Ranked(s, StateAfter(s, n), w + 1)
    ensures Ranked(s, Next(s, n), w)
  {
    var st := StateAfter(s, n);
    if st.Sent? {
      var p, peer := Receiver(s, st.toServer), Receiver(s, !st.toServer).items;
      var answer := Handle(p, s.hash, st.msg);
      assert st.msg[..|st.msg|] == st.msg;
      HandleHonest(p, s.hash, st.msg);
      HandleLighter(p, peer, s.hash, st.msg, w, |st.msg|);
      LightPrefix(p.items, peer, answer.out, FinishSkip(answer), p.isClient, w);
      OutHonest(p, s.hash, st.msg, answer);
    }
  }

  /** A message without weight does not exist: it would have to end in a written skip. */
  lemma {:induction false} WeightlessIsEmpty(s: Session, st: RunState)
    requires st.Sent? && Ranked(s, st, 0)
    ensures st.msg == []
  {
    var own, peer := Receiver(s, !st.toServer).items, Receiver(s, st.toServer).items;
    forall i | 0 <= i < |st.msg| ensures st.msg[i].payload.Skip? {
      assert LightAt(own, peer, 0, 0, st.msg, st.toServer, 0, i);
    }
  }

  lemma {:induction false} RunRanked(s: Session, r: nat, n: nat)
    requires WellFormed(s) && s.down && n <= r
    requires Ranked(s, StateAfter(s, 0), r)
    ensures Ranked(s, StateAfter(s, n), r - n)
  {
    hide Ranked, WellFormed;
    if n > 0 {
      RunRanked(s, r, n - 1);
      StepRanked(s, n - 1, r - n);
    }
  }

  lemma {:induction false} ClosedStays(s: Session, n: nat)
    requires StateAfter(s, n).Closed?
    ensures StateAfter(s, n + 1) == StateAfter(s, n)
  {
  }

  lemma {:induction false} ClosedForGood(s: Session, n: nat, m: nat)
    requires n <= m && StateAfter(s, n).Closed?
    ensures StateAfter(s, m).Closed?
  {
    if n < m {
      ClosedForGood(s, n, m - 1);
      ClosedStays(s, m - 1);
    }
  }

  /** Only the server sends an empty message, and the client closes on it. */
  lemma {:induction false} EmptyStep(s: Session, n: nat)
    requires StateAfter(s, n).Sent? && StateAfter(s, n).msg == []
    ensures !StateAfter(s, n).toServer && StateAfter(s, n + 1).Closed?
  {
  }

  /**
   Real termination: whatever the two lists and whatever the fingerprints, the client has
   closed its channels after at most `MessageBound` messages.
   */
  lemma {:induction false} RunCloses(s: Session, n: nat)
    requires WellFormed(s) && s.down && n >= MessageBound(s)
    ensures StateAfter(s, n).Closed?
  {
    var r := Rank(s);
    OpeningRanked(s);
    RunRanked(s, r, r);
    if StateAfter(s, r).Sent? {
      WeightlessIsEmpty(s, StateAfter(s, r));
      EmptyStep(s, r);
      ClosedForGood(s, r + 1, n);
    } else {
      ClosedForGood(s, r, n);
    }
  }

  // ---- an upload-only client ----

  /** The range cannot be settled silently: an id list, or a fingerprint of differing segments. */
  ghost predicate LiveAt(own: seq<Item>, peer: seq<Item>, lowO: nat, lowP: nat, msg: Message, i: nat)
    requires i < |msg|
  {
    match msg[i].payload
    case Skip => false
    case IdList(_) => true
    case Fingerprint(_) => Ids(SegmentFrom(own, lowO, msg, i)) != Ids(SegmentFrom(peer, lowP, msg, i))
  }

  ghost predicate LiveFrom(own: seq<Item>, peer: seq<Item>, lowO: nat, lowP: nat, msg: Message) {
    exists i :: 0 <= i < |msg| && LiveAt(own, peer, lowO, lowP, msg, i)
  }

  ghost predicate Live(own: seq<Item>, peer: seq<Item>, msg: Message) {
    LiveFrom(own, peer, 0, 0, msg)
  }

  lemma {:induction false} LivePrefix(own: seq<Item>, peer: seq<Item>, front: Message, all: Message)
    requires front <= all && Live(own, peer, front)
    ensures Live(own, peer, all)
  {
    var i :| 0 <= i < |front| && LiveAt(own, peer, 0, 0, front, i);
    SegmentPrefix(own, 0, front, all, i);
    SegmentPrefix(peer, 0, front, all, i);
    assert LiveAt(own, peer, 0, 0, all, i);
  }

  lemma {:induction false} LiveSuffix(own: seq<Item>, peer: seq<Item>, front: Message, pieces: Message)
    requires LiveFrom(own, peer, CutFrom(own, 0, front, |front|), CutFrom(peer, 0, front, |front|), pieces)
    ensures Live(own, peer, front + pieces)
  {
    var lowO, lowP := CutFrom(own, 0, front, |front|), CutFrom(peer, 0, front, |front|);
    var j :| 0 <= j < |pieces| && LiveAt(own, peer, lowO, lowP, pieces, j);
    SegmentSuffix(own, 0, front, pieces, j);
    SegmentSuffix(peer, 0, front, pieces, j);
    assert LiveAt(own, peer, 0, 0, front + pieces, |front| + j);
  }

  lemma {:induction false} IdsJoin(items: seq<Item>, lo: nat, mid: nat, hi: nat)
    requires lo <= mid <= hi <= |items|
    ensures Ids(Slice(items, lo, hi)) == Ids(Slice(items, lo, mid)) + Ids(Slice(items, mid, hi))
  {
  }

  /** If no sub-range of a split differs, the range does not. */
  lemma {:induction false} QuietPieces(own: seq<Item>, peer: seq<Item>, lowO: nat, lowP: nat, pieces: Message, k: nat)
    requires k <= |pieces| && Monotone(pieces)
    requires pieces != [] ==> lowO <= Cut(own, pieces[0].upper) && lowP <= Cut(peer, pieces[0].upper)
    requires lowO <= |own| && lowP <= |peer|
    requires forall i :: 0 <= i < |pieces| ==> pieces[i].payload.Fingerprint?
    requires !LiveFrom(own, peer, lowO, lowP, pieces)
    ensures Ids(Slice(own, lowO, CutFrom(own, lowO, pieces, k))) ==
            Ids(Slice(peer, lowP, CutFrom(peer, lowP, pieces, k)))
  {
    if k > 0 {
      var i := k - 1;
      QuietPieces(own, peer, lowO, lowP, pieces, i);
      assert !LiveAt(own, peer, lowO, lowP, pieces, i);
      PieceEdges(own, lowO, pieces, i);
      PieceEdges(peer, lowP, pieces, i);
      IdsJoin(own, lowO, CutFrom(own, lowO, pieces, i), CutFrom(own, lowO, pieces, k));
      IdsJoin(peer, lowP, CutFrom(peer, lowP, pieces, i), CutFrom(peer, lowP, pieces, k));
    }
  }

  /** Splitting a differing range leaves something to settle. */
  lemma {:induction false} SplitLive(own: seq<Item>, peer: seq<Item>, hash: Hash, lower: nat, upper: nat, lowP: nat,
                                     bound: Bound)
    requires Sealed(own) && lower <= upper == Cut(own, bound)
    requires lowP <= Cut(peer, Split(own, hash, lower, upper, bound)[0].upper)
    requires Ids(Slice(own, lower, upper)) != Ids(Slice(peer, lowP, Cut(peer, bound)))
    ensures LiveFrom(own, peer, lower, lowP, Split(own, hash, lower, upper, bound))
  {
    if upper - lower < 2 * BUCKETS {
      assert LiveAt(own, peer, lower, lowP, Split(own, hash, lower, upper, bound), 0);
    } else {
      SplitBucketed(own, hash, lower, upper, bound);
      BucketedLive(own, peer, hash, lower, upper, lowP, bound, Split(own, hash, lower, upper, bound));
    }
  }

  lemma {:induction false} BucketedLive(own: seq<Item>, peer: seq<Item>, hash: Hash, lower: nat, upper: nat, lowP: nat,
                                        bound: Bound, pieces: Message)
    requires Bucketed(own, hash, lower, upper, bound, pieces)
    requires lowP <= Cut(peer, pieces[0].upper)
    requires Ids(Slice(own, lower, upper)) != Ids(Slice(peer, lowP, Cut(peer, bound)))
    ensures LiveFrom(own, peer, lower, lowP, pieces)
  {
    if !LiveFrom(own, peer, lower, lowP, pieces) {
      BucketedHonest(own, hash, lower, upper, bound, pieces);
      BucketedEdges(own, hash, lower, upper, bound, pieces);
      QuietPieces(own, peer, lower, lowP, pieces, BUCKETS);
    }
  }

  lemma {:induction false} BucketedEdges(own: seq<Item>, hash: Hash, lower: nat, upper: nat, bound: Bound,
                                         pieces: Message)
    requires Bucketed(own, hash, lower, upper, bound, pieces)
    ensures lower <= Cut(own, pieces[0].upper)
    ensures forall i :: 0 <= i < |pieces| ==> pieces[i].payload.Fingerprint?
  {
    forall i | 0 <= i < |pieces| ensures pieces[i].payload.Fingerprint? {
      assert BucketAt(own, hash, lower, upper, pieces, i);
    }
    assert BucketAt(own, hash, lower, upper, pieces, 0);
    StartsIncrease(lower, upper - lower, 0, 1);
  }

  /** Which parties answer an id list with an id list: servers, and clients without `HaveNots`. */
  predicate Relists(p: Party) {
    !(p.isClient && p.down)
  }

  /** A live range is answered by live pieces. */
  lemma {:induction false} LiveStep(p: Party, peer: seq<Item>, hash: Hash, msg: Message, i: nat, st0: Progress)
    requires Sealed(p.items) && Honest(peer, hash, msg) && i < |msg| && Relists(p)
    requires st0 == StateBefore(p, hash, msg, i)
    requires CollisionFree(p.items, peer, hash, msg)
    requires LiveAt(p.items, peer, 0, 0, msg, i)
    requires st0.index == CutFrom(p.items, 0, msg, i) <= Cut(p.items, msg[i].upper)
    requires IndexAfter(p.items, st0.index, msg[i].upper) == Cut(p.items, msg[i].upper)
    ensures !StepRange(p, hash, msg[..i], msg[i]).skipping
    ensures LiveFrom(p.items, peer, st0.index, CutFrom(peer, 0, msg, i), Pieces(p, hash, st0.index, msg[i]))
  {
    var upper, lowP := Cut(p.items, msg[i].upper), CutFrom(peer, 0, msg, i);
    var pieces := Pieces(p, hash, st0.index, msg[i]);
    if msg[i].payload.IdList? {
      assert LiveAt(p.items, peer, st0.index, lowP, pieces, 0);
    } else {
      assert HonestAt(peer, hash, 0, msg, i);
      SplitEdge(p.items, peer, hash, msg, i);
      SplitLive(p.items, peer, hash, st0.index, upper, lowP, msg[i].upper);
    }
  }

  /** Once a live piece is in the output it stays there. */
  lemma {:induction false} OutputGrows(p: Party, hash: Hash, msg: Message, i: nat, k: nat)
    requires i <= k <= |msg|
    ensures StateBefore(p, hash, msg, i).out <= StateBefore(p, hash, msg, k).out
  {
    if i < k {
      OutputGrows(p, hash, msg, i, k - 1);
      assert msg[..k][..k - 1] == msg[..k - 1];
      StepShape(p, hash, msg[..k - 1], msg[k - 1]);
    }
  }

  lemma {:induction false} AnswerStaysLive(p: Party, peer: seq<Item>, hash: Hash, msg: Message)
    requires Sealed(p.items) && Honest(peer, hash, msg) && Relists(p)
    requires CollisionFree(p.items, peer, hash, msg)
    requires Live(p.items, peer, msg)
    ensures Live(p.items, peer, Handle(p, hash, msg).out)
  {
    var i :| 0 <= i < |msg| && LiveAt(p.items, peer, 0, 0, msg, i);
    StateFacts(p, hash, msg, i);
    var st0 := StateBefore(p, hash, msg, i);
    LiveStep(p, peer, hash, msg, i, st0);
    StepShape(p, hash, msg[..i], msg[i]);
    LiveOutput(p, peer, hash, msg, i, st0, StepRange(p, hash, msg[..i], msg[i]));
    OutputGrows(p, hash, msg, i + 1, |msg|);
    assert msg[..|msg|] == msg;
    LivePrefix(p.items, peer, StateBefore(p, hash, msg, i + 1).out, Handle(p, hash, msg).out);
  }

  lemma {:induction false} LiveOutput(p: Party, peer: seq<Item>, hash: Hash, msg: Message, i: nat, st0: Progress,
                                      st: Progress)
    requires i < |msg| && Shaped(st0, msg[..i])
    requires st0.bound == if i == 0 then Bound(0, []) else msg[i - 1].upper
    requires st0.index == CutFrom(p.items, 0, msg, i)
    requires Stepped(p, hash, st0, msg[i], st) && !st.skipping
    requires LiveFrom(p.items, peer, st0.index, CutFrom(peer, 0, msg, i), Pieces(p, hash, st0.index, msg[i]))
    ensures Live(p.items, peer, st.out)
  {
    var before := msg[..i];
    assert before != [] ==> before[|before| - 1] == msg[i - 1];
    ReachedCut(p.items, before, st0);
    ReachedCut(peer, before, st0);
    LiveSuffix(p.items, peer, FinishSkip(st0), Pieces(p, hash, st0.index, msg[i]));
  }

  /** Being live does not depend on which of the two parties is called the owner. */
  lemma {:induction false} LiveSymmetric(a: seq<Item>, b: seq<Item>, msg: Message)
    requires Live(a, b, msg)
    ensures Live(b, a, msg)
  {
    var i :| 0 <= i < |msg| && LiveAt(a, b, 0, 0, msg, i);
    assert LiveAt(b, a, 0, 0, msg, i);
  }

  ghost predicate Unsettled(s: Session, st: RunState) {
    && st.Sent?
    && Honest(Receiver(s, !st.toServer).items, s.hash, st.msg)
    && Live(Receiver(s, st.toServer).items, Receiver(s, !st.toServer).items, st.msg)
  }

  lemma {:induction false} StepUnsettled(s: Session, n: nat)
    requires WellFormed(s) && !s.down
    requires Unsettled(s, StateAfter(s, n)) && NoCollision(s, StateAfter(s, n))
    ensures Unsettled(s, StateAfter(s, n + 1))
  {
    var st := StateAfter(s, n);
    var p, peer := Receiver(s, st.toServer), Receiver(s, !st.toServer).items;
    AnswerStaysLive(p, peer, s.hash, st.msg);
    HandleHonest(p, s.hash, st.msg);
    OutHonest(p, s.hash, st.msg, Handle(p, s.hash, st.msg));
    LiveSymmetric(p.items, peer, Handle(p, s.hash, st.msg).out);
  }

  lemma {:induction false} NeverSettles(s: Session, n: nat)
    requires WellFormed(s) && !s.down && CollisionFreeRun(s, n)
    requires Unsettled(s, StateAfter(s, 0))
    ensures Unsettled(s, StateAfter(s, n))
  {
    if n > 0 {
      NeverSettles(s, n - 1);
      StepUnsettled(s, n - 1);
    }
  }

  lemma {:induction false} EqualLists(a: seq<Item>, b: seq<Item>)
    requires SameItems(a, b) && Ids(a) == Ids(b)
    ensures a == b
  {
    assert |a| == |Ids(a)| == |Ids(b)| == |b|;
    forall i | 0 <= i < |a| ensures a[i] == b[i] {
      assert a[i].id == Ids(a)[i] == Ids(b)[i] == b[i].id;
    }
  }

  lemma {:induction false} OpeningUnsettled(s: Session)
    requires WellFormed(s)
    requires |s.client| < 2 * BUCKETS || s.client != s.server
    ensures Unsettled(s, StateAfter(s, 0))
  {
    var n := |s.client|;
    var msg := Opening(ClientOf(s), s.hash);
    CutInfinite(s.client);
    CutInfinite(s.server);
    SplitHonest(s.client, s.hash, 0, n, INFINITE_BOUND);
    if n < 2 * BUCKETS {
      assert LiveAt(s.client, s.server, 0, 0, msg, 0);
    } else {
      if Ids(s.client) == Ids(s.server) {
        EqualLists(s.client, s.server);
      }
      assert Slice(s.client, 0, n) == s.client && Slice(s.server, 0, |s.server|) == s.server;
      SplitLive(s.client, s.server, s.hash, 0, n, 0, INFINITE_BOUND);
    }
    LiveSymmetric(s.client, s.server, msg);
  }

  /** Equal fingerprints all the way: the party has nothing to say. */
  lemma {:induction false} QuietAnswer(p: Party, hash: Hash, msg: Message, k: nat)
    requires Sealed(p.items) && Honest(p.items, hash, msg) && k <= |msg|
    requires forall i :: 0 <= i < |msg| ==> msg[i].payload.Fingerprint?
    ensures StateBefore(p, hash, msg, k).out == []
  {
    hide Split, Compare;
    if k == 0 {
      assert msg[..k] == [];
    } else {
      QuietAnswer(p, hash, msg, k - 1);
      StateFacts(p, hash, msg, k - 1);
      assert HonestAt(p.items, hash, 0, msg, k - 1);
    }
  }

  lemma {:induction false} InSyncCloses(s: Session)
    requires WellFormed(s) && |s.client| >= 2 * BUCKETS && s.client == s.server
    ensures StateAfter(s, 2).Closed?
  {
    var n := |s.client|;
    var msg := Opening(ClientOf(s), s.hash);
    CutInfinite(s.client);
    SplitHonest(s.client, s.hash, 0, n, INFINITE_BOUND);
    QuietAnswer(ServerOf(s), s.hash, msg, |msg|);
    assert msg[..|msg|] == msg;
    EmptyStep(s, 1);
  }

  /**
   An upload-only client closes exactly when there was nothing to reconcile and the list was
   long enough to open with fingerprints.
   */
  lemma {:induction false} UploadOnlyCloses(s: Session)
    requires WellFormed(s) && !s.down
    requires forall n: nat :: CollisionFreeRun(s, n)
    ensures (exists n: nat :: StateAfter(s, n).Closed?) <==> |s.client| >= 2 * BUCKETS && s.client == s.server
  {
    if |s.client| >= 2 * BUCKETS && s.client == s.server {
      InSyncCloses(s);
    } else {
      OpeningUnsettled(s);
      forall n: nat ensures !StateAfter(s, n).Closed? {
        NeverSettles(s, n);
      }
    }
  }
}
