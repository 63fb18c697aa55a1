/** Rules that a user of the auto selector can rely on. */
module SelectorRules {
  import opened AutoSelector

  /** When the last test of a member stops to count. */
  function ExpiresAt(p: Profile, s: Settings): int {
    p.latencyAt + 60 * s.resultValidityMins
  }

  /** A test with a time counts up to that second, and no longer; without a validity it never does. */
  lemma ResultsExpire(p: Profile, s: Settings)
    ensures EffectiveLatency(Some(p), s) ==
            if s.resultValidityMins > 0 && p.latencyAt > 0 && s.now <= ExpiresAt(p, s) then p.latency else 0
    ensures p.verdict == Eligible ==>
              (Eligibility(Some(p), s) == Unavailable <==> s.excludeUnavailable && EffectiveLatency(Some(p), s) < 0)
  {}

  /** No failure excludes a member for good. */
  lemma FailureExpires(member: Option<Profile>, landing: Option<Hop>, front: Option<Hop>, s: Settings)
    requires member.Some? && member.value.verdict == Eligible && s.now > ExpiresAt(member.value, s)
    ensures Verdict(member, landing, front, s) != Unavailable
  {
    ResultsExpire(member.value, s);
  }

  /** Only the verdict Eligible lets a member in, or a failed test if there is no eligible member at all. */
  lemma EligibleMeans(sc: Scope, id: int)
    ensures id in EligibleOf(sc) <==>
            && id in sc.g.profiles && id != sc.self
            && (sc.VerdictOf(id) == Eligible
                || (sc.VerdictOf(id) == Unavailable
                    && forall other | other in sc.g.profiles && other != sc.self :: sc.VerdictOf(other) != Eligible))
  {
    hide Verdict;
    var usable := Where(sc, sc.g.profiles, Eligible);
    if usable == [] {
      forall other | other in sc.g.profiles && other != sc.self ensures sc.VerdictOf(other) != Eligible {
        assert other !in usable;
      }
    } else {
      var first := usable[0];
      assert first in usable;
      assert first in sc.g.profiles && first != sc.self && sc.VerdictOf(first) == Eligible;
    }
  }

  /** The members of a group keep their order. */
  lemma {:induction false} WhereKeepsOrder(sc: Scope, ids: seq<int>, verdict: Skip, a: int, b: int)
    requires Precedes(Where(sc, ids, verdict), a, b)
    ensures Precedes(ids, a, b)
    decreases |ids|
  {
    hide Precedes, Verdict;
    PrecedesEarlier(Where(sc, ids, verdict), a, b);
    var init, id := ids[..|ids| - 1], ids[|ids| - 1];
    var before := Where(sc, init, verdict);
    assert ids == init + [id];
    WhereStep(sc, ids, verdict);
    if Precedes(before, a, b) {
      WhereKeepsOrder(sc, init, verdict, a, b);
      PrecedesLonger(init, id, a, b);
    } else {
      PrecedesLast(init, a, b);
    }
  }

  lemma EligibleKeepOrder(sc: Scope, a: int, b: int)
    requires Precedes(EligibleOf(sc), a, b)
    ensures Precedes(sc.g.profiles, a, b)
  {
    hide Precedes, Where;
    var verdict := if Where(sc, sc.g.profiles, Eligible) == [] then Unavailable else Eligible;
    WhereKeepsOrder(sc, sc.g.profiles, verdict, a, b);
  }

  /** The persisted members keep their order. */
  lemma {:induction false} PlacedKeepsOrder(pool: seq<int>, members: seq<int>, a: int, b: int)
    requires Precedes(Placed(pool, members), a, b)
    ensures Precedes(pool, a, b)
    decreases |pool|
  {
    hide Precedes;
    PrecedesEarlier(Placed(pool, members), a, b);
    var init, id := pool[..|pool| - 1], pool[|pool| - 1];
    var before := Placed(init, members);
    assert pool == init + [id];
    if Precedes(before, a, b) {
      PlacedKeepsOrder(init, members, a, b);
      PrecedesLonger(init, id, a, b);
    } else {
      PrecedesLast(init, a, b);
    }
  }

  // ----- the report

  ghost function Places(s: seq<int>, counts: int -> bool): set<int> {
    set i | 0 <= i < |s| && counts(s[i])
  }

  lemma OnePlaceMore(s: seq<int>, counts: int -> bool)
    requires s != []
    ensures var n := |s| - 1;
            |Places(s, counts)| == |Places(s[..n], counts)| + if counts(s[n]) then 1 else 0
  {
    var n := |s| - 1;
    assert Places(s, counts) == Places(s[..n], counts) + if counts(s[n]) then {n} else {};
  }

  /** The plan's counters: members other than the selector itself, and eligible ones with a fresh positive latency. */
  lemma {:induction false} CountersMean(sc: Scope, ids: seq<int>)
    ensures Others(sc, ids) == |Places(ids, id => id != sc.self)|
    ensures Measured(sc, ids) == |Places(ids, id => sc.LatencyOf(id) > 0)|
    decreases |ids|
  {
    if ids == [] {
      assert Places(ids, id => id != sc.self) == {} && Places(ids, id => sc.LatencyOf(id) > 0) == {};
    } else {
      hide EffectiveLatency, Places;
      CountersMean(sc, ids[..|ids| - 1]);
      OnePlaceMore(ids, id => id != sc.self);
      OnePlaceMore(ids, id => sc.LatencyOf(id) > 0);
    }
  }
}
