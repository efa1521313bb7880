/** Transactions that delete a user's earlier rows and insert a new one. */
module Supersession {
  // Sign-in challenges (src/lib/db/two-factor.ts:173-188) and reset links (src/lib/db/reset-tokens.ts:4-14)
  // are created this way. The deletion sees what is committed when it runs; both statements take
  // effect together at the commit; and nothing keeps two such transactions apart.

  /** One creation: the instant its deletion reads the table, and the later one at which it commits. */
  datatype Creation = Creation(sweep: nat, commit: nat)

  ghost predicate OwnCommit(cs: seq<Creation>, p: nat)
    requires p < |cs|
  {
    forall q :: 0 <= q < |cs| && q != p ==> cs[q].commit != cs[p].commit
  }

  ghost predicate WellTimed(cs: seq<Creation>) {
    && (forall p :: 0 <= p < |cs| ==> cs[p].sweep < cs[p].commit)
    && (forall p :: 0 <= p < |cs| ==> OwnCommit(cs, p))
  }

  /** The deletion of `q` sees the row of `p`. */
  ghost predicate Sees(cs: seq<Creation>, q: nat, p: nat) {
    p < |cs| && q < |cs| && cs[p].commit <= cs[q].sweep
  }

  /** A row is there from its commit until the commit of a creation that has seen it. */
  ghost predicate Live(cs: seq<Creation>, p: nat, t: nat) {
    && p < |cs| && cs[p].commit <= t
    && forall q: nat :: Sees(cs, q, p) ==> t < cs[q].commit
  }

  ghost predicate OneLiveAt(cs: seq<Creation>, t: nat) {
    forall p: nat, q: nat :: Live(cs, p, t) && Live(cs, q, t) ==> p == q
  }

  /** At no time are two rows there. */
  ghost predicate OneLive(cs: seq<Creation>) {
    forall t: nat :: OneLiveAt(cs, t)
  }

  /** `p` commits between the deletion of `q` and its commit. */
  ghost predicate Overlap(cs: seq<Creation>, p: nat, q: nat) {
    p < |cs| && q < |cs| && cs[q].sweep < cs[p].commit < cs[q].commit
  }

  ghost predicate NoneOverlap(cs: seq<Creation>) {
    forall p: nat, q: nat :: !Overlap(cs, p, q)
  }

  /** Nobody's row outlives the commit of a later creation that does not overlap its own. */
  lemma SeenIsGone(cs: seq<Creation>, p: nat, q: nat, t: nat)
    requires WellTimed(cs) && NoneOverlap(cs) && p < |cs| && q < |cs| && cs[p].commit < cs[q].commit <= t
    ensures !Live(cs, p, t)
  {
    assert !Overlap(cs, p, q);
    assert Sees(cs, q, p);
  }

  /**
   Of two that overlap, or of two in between, both rows are there when the later one has committed:
   whoever could have removed the earlier row by then overlaps the later one more closely.
   */
  lemma {:induction false} OverlapLeavesTwo(cs: seq<Creation>, p: nat, q: nat)
    requires WellTimed(cs) && Overlap(cs, p, q)
    ensures !OneLive(cs)
    decreases cs[q].commit - cs[p].commit
  {
    var t := cs[q].commit;
    assert Live(cs, q, t);
    if Live(cs, p, t) {
      assert !OneLiveAt(cs, t);
    } else {
      var r: nat :| Sees(cs, r, p) && cs[r].commit <= t;
      assert OwnCommit(cs, q);
      assert Overlap(cs, r, q);
      OverlapLeavesTwo(cs, r, q);
    }
  }

  /** However they are timed, a user has at most one row at any time: exactly if no two creations overlap. */
  lemma OneLiveExactly(cs: seq<Creation>)
    requires WellTimed(cs)
    ensures OneLive(cs) <==> NoneOverlap(cs)
  {
    if NoneOverlap(cs) {
      forall t: nat, p: nat, q: nat | Live(cs, p, t) && Live(cs, q, t)
        ensures p == q
      {
        if p != q {
          assert OwnCommit(cs, p);
          if cs[p].commit < cs[q].commit {
            SeenIsGone(cs, p, q, t);
          } else {
            SeenIsGone(cs, q, p, t);
          }
        }
      }
    } else {
      var p: nat, q: nat :| Overlap(cs, p, q);
      OverlapLeavesTwo(cs, p, q);
    }
  }

  /** The row committed last is there, whatever overlaps: a creation never leaves the user without one. */
  lemma LatestIsLive(cs: seq<Creation>, p: nat, t: nat)
    requires WellTimed(cs) && p < |cs| && cs[p].commit <= t
    requires forall q :: 0 <= q < |cs| && cs[q].commit <= t ==> cs[q].commit <= cs[p].commit
    ensures Live(cs, p, t)
  {
  }
}
