/** Karn's rule on the history of the round-trip estimator (section 3 of RFC 2988): it holds
    each unanswered number once, with the time of its first transmission, flagged exactly
    when it has timed out. */
module RttHistories {
  import opened RttEstimators

  ghost predicate Distinct(h: seq<RttHistory>) {
    forall i, j :: 0 <= i < j < |h| ==> h[i].seqNo != h[j].seqNo
  }

  predicate Holds(h: seq<RttHistory>, q: nat) {
    Position(h, q) < |h|
  }

  /** `firstSent` maps the unanswered numbers to the time each was first sent. */
  ghost predicate EntriesMatch(h: seq<RttHistory>, firstSent: map<nat, real>, timedOut: set<nat>) {
    && (forall i :: 0 <= i < |h| ==>
          && h[i].seqNo in firstSent && h[i].time == firstSent[h[i].seqNo]
          && (h[i].retx <==> h[i].seqNo in timedOut))
    && (forall q: nat :: q in firstSent ==> Holds(h, q))
  }

  ghost predicate HistoryIs(h: seq<RttHistory>, firstSent: map<nat, real>, timedOut: set<nat>) {
    Distinct(h) && EntriesMatch(h, firstSent, timedOut)
  }

  /** Whether an answer to `q` would be measured. */
  predicate Measures(h: seq<RttHistory>, q: nat) {
    Holds(h, q) && !h[Position(h, q)].retx
  }

  /** An answer is measured exactly when its number is unanswered and never timed out, and
      the sample is its age since the first transmission. */
  lemma MeasuredIff(h: seq<RttHistory>, firstSent: map<nat, real>, timedOut: set<nat>, q: nat)
    requires HistoryIs(h, firstSent, timedOut)
    ensures Measures(h, q) <==> q in firstSent && q !in timedOut
    ensures Holds(h, q) <==> q in firstSent
    ensures q in firstSent ==> h[Position(h, q)].time == firstSent[q]
  {
    hide Position;
  }

  lemma HoldsAppend(h: seq<RttHistory>, e: RttHistory, q: nat)
    ensures Holds(h + [e], q) <==> Holds(h, q) || q == e.seqNo
  {
    hide Position;
    var g := h + [e];
    assert g[|h|].seqNo == e.seqNo;
    assert forall k :: 0 <= k < |h| ==> g[k].seqNo == h[k].seqNo;
    if Holds(h, q) {
      assert g[Position(h, q)].seqNo == q;
    }
  }

  lemma SentNew(r: Rtt, firstSent: map<nat, real>, timedOut: set<nat>, q: nat, now: real)
    requires HistoryIs(r.history, firstSent, timedOut)
    requires q !in firstSent && q !in timedOut
    ensures HistoryIs(Sent(r, q, now).history, firstSent[q := now], timedOut)
  {
    hide Position;
    var h := r.history;
    MeasuredIff(h, firstSent, timedOut, q);
    var e := RttHistory(q, now, false);
    assert Sent(r, q, now).history == h + [e];
    forall p: nat | p in firstSent[q := now] ensures Holds(h + [e], p) {
      HoldsAppend(h, e, p);
    }
  }

  /** Sending or timing out an unanswered number flags it. */
  lemma SentOld(r: Rtt, firstSent: map<nat, real>, timedOut: set<nat>, q: nat, now: real)
    requires HistoryIs(r.history, firstSent, timedOut) && q in firstSent
    ensures HistoryIs(Sent(r, q, now).history, firstSent, timedOut + {q})
  {
    hide Position;
    var h := r.history;
    MeasuredIff(h, firstSent, timedOut, q);
    var i := Position(h, q);
    var g := h[i := h[i].(retx := true)];
    assert Sent(r, q, now).history == g;
    assert forall j :: 0 <= j < |h| ==> g[j].seqNo == h[j].seqNo;
    forall p: nat | p in firstSent ensures Holds(g, p) {
      var j := Position(h, p);
      assert g[j].seqNo == p;
    }
  }

  /** The history without its entry `i`. */
  function Removed(h: seq<RttHistory>, i: nat): seq<RttHistory>
    requires i < |h|
  {
    h[..i] + h[i + 1..]
  }

  lemma RemovedIs(h: seq<RttHistory>, i: nat)
    requires i < |h|
    ensures |Removed(h, i)| == |h| - 1
    ensures forall j :: 0 <= j < |h| - 1 ==> Removed(h, i)[j] == h[if j < i then j else j + 1]
  {
  }

  lemma AckedHistory(r: Rtt, q: nat, now: real)
    ensures Acked(r, q, now).history ==
            if Holds(r.history, q) then Removed(r.history, Position(r.history, q)) else r.history
  {
  }

  /** An answer removes its number. */
  lemma AckedRemoves(r: Rtt, firstSent: map<nat, real>, timedOut: set<nat>, q: nat, now: real)
    requires HistoryIs(r.history, firstSent, timedOut)
    ensures HistoryIs(Acked(r, q, now).history, firstSent - {q}, timedOut)
  {
    hide Position, Acked, HistoryIs, Removed;
    var h := r.history;
    MeasuredIff(h, firstSent, timedOut, q);
    AckedHistory(r, q, now);
    if q !in firstSent {
      assert firstSent - {q} == firstSent;
    } else {
      RemovalKeeps(h, firstSent, timedOut, Position(h, q));
    }
  }

  lemma RemovedIsDistinct(h: seq<RttHistory>, i: nat)
    requires Distinct(h) && i < |h|
    ensures Distinct(Removed(h, i))
    ensures forall j :: 0 <= j < |h| - 1 ==> Removed(h, i)[j].seqNo != h[i].seqNo
  {
    hide Removed;
    RemovedIs(h, i);
  }

  lemma RemovedHolds(h: seq<RttHistory>, i: nat, q: nat)
    requires i < |h| && Holds(h, q) && q != h[i].seqNo
    ensures Holds(Removed(h, i), q)
  {
    hide Position, Removed;
    RemovedIs(h, i);
    var j := Position(h, q);
    assert Removed(h, i)[if j < i then j else j - 1].seqNo == q;
  }

  lemma RemovalKeeps(h: seq<RttHistory>, firstSent: map<nat, real>, timedOut: set<nat>, i: nat)
    requires HistoryIs(h, firstSent, timedOut) && i < |h|
    ensures HistoryIs(Removed(h, i), firstSent - {h[i].seqNo}, timedOut)
  {
    hide Position, Removed, Distinct, Holds;
    RemovedIs(h, i);
    RemovedIsDistinct(h, i);
    forall p: nat | p in firstSent && p != h[i].seqNo ensures Holds(Removed(h, i), p) {
      RemovedHolds(h, i, p);
    }
  }
}
