/** The auto selector's planner: which members of a group it may use, and in which order. */
module AutoSelector {
  const MAX_POOL_CAP: int := 3000
  const MAX_BUILD_LIMIT: int := 500

  datatype Option<T> = None | Some(value: T)

  datatype Skip =
    | Eligible | Missing | MetaType | CoreTransitions | ExtraCore | FullConfig | Malformed | Tailscale
    | ManagementEndpoint | NameFilter | CountryFilter | Unavailable | XrayFullChained

  /** What a hop of a chain runs on. */
  datatype Hop = Hop(xray: bool, xrayFull: bool, extraCore: bool)

  /** A profile as the planner sees it: the verdict of the type checks and filters, and its last test. */
  datatype Profile = Profile(verdict: Skip, hop: Hop, latency: int, latencyAt: int)

  /** The settings of a selector that bear on one member. */
  datatype Settings = Settings(excludeUnavailable: bool, resultValidityMins: int, now: int)

  // ----- one member

  predicate HasFreshResult(p: Profile, s: Settings) {
    p.latency != 0 && s.resultValidityMins > 0 && p.latencyAt > 0 && s.now - p.latencyAt <= s.resultValidityMins * 60
  }

  function Eligibility(member: Option<Profile>, s: Settings): Skip {
    match member
    case None => Missing
    case Some(p) =>
      if p.verdict != Eligible then p.verdict
      else if s.excludeUnavailable && p.latency < 0 && HasFreshResult(p, s) then Unavailable
      else Eligible
  }

  function EffectiveLatency(member: Option<Profile>, s: Settings): int {
    if member.Some? && HasFreshResult(member.value, s) then member.value.latency else 0
  }

  /** How often a chain changes between the two cores; it starts outside Xray. */
  function Transitions(inXray: bool, hops: seq<Option<Hop>>): nat
    decreases |hops|
  {
    if hops == [] then 0
    else if hops[0].None? then Transitions(inXray, hops[1..])
    else (if hops[0].value.xray != inXray then 1 else 0) + Transitions(hops[0].value.xray, hops[1..])
  }

  /** A group's landing and front proxies exclude a member for its core exactly when both run on Xray and the
      member does not. */
  lemma CoreSwitches(landing: Option<Hop>, member: Hop, front: Option<Hop>)
    ensures Transitions(false, [landing, Some(member), front]) > 2 <==>
            landing.Some? && landing.value.xray && !member.xray && front.Some? && front.value.xray
  {
    var hops := [landing, Some(member), front];
    assert hops[1..] == [Some(member), front] && hops[1..][1..] == [front];
    assert Transitions(member.xray, [front]) == if front.Some? && front.value.xray != member.xray then 1 else 0;
  }

  predicate XrayFullConfigFitsChain(landing: Option<Hop>, front: Option<Hop>) {
    front.None? && (landing.None? || (!landing.value.xray && !landing.value.xrayFull && !landing.value.extraCore))
  }

  /** The final verdict on a member in its group. */
  function Verdict(member: Option<Profile>, landing: Option<Hop>, front: Option<Hop>, s: Settings): Skip {
    var skip := Eligibility(member, s);
    if skip != Eligible && skip != Unavailable then skip
    else if member.None? then Missing
    else if member.value.hop.xrayFull then (if XrayFullConfigFitsChain(landing, front) then skip else XrayFullChained)
    else if Transitions(false, [landing, Some(member.value.hop), front]) > 2 then CoreTransitions
    else skip
  }

  // ----- order by latency

  /** Members without a result come after those with one and before failed ones. */
  function LatencyRank(latency: int): nat {
    if latency > 0 then 0 else if latency == 0 then 1 else 2
  }

  predicate Before(left: int, right: int) {
    if LatencyRank(left) != LatencyRank(right) then LatencyRank(left) < LatencyRank(right)
    else LatencyRank(left) == 0 && left < right
  }

  lemma BeforeIsAnOrder(a: int, b: int, c: int)
    ensures !Before(a, a) && (Before(a, b) ==> !Before(b, a))
    ensures Before(a, b) && Before(b, c) ==> Before(a, c)
    ensures !Before(a, b) && !Before(b, c) ==> !Before(a, c)
  {}

  /** Puts x behind all that it does not come before. */
  function Insert(s: seq<int>, x: int, latency: int -> int): (r: seq<int>)
    ensures multiset(r) == multiset(s) + multiset{x}
  {
    if s == [] then [x]
    else
      var last := s[|s| - 1];
      assert s == s[..|s| - 1] + [last];
      if Before(latency(x), latency(last)) then Insert(s[..|s| - 1], x, latency) + [last] else s + [x]
  }

  /** Stable sorting by latency. */
  function StableSorted(s: seq<int>, latency: int -> int): (r: seq<int>)
    ensures multiset(r) == multiset(s) && |r| == |s|
  {
    if s == [] then []
    else
      assert s == s[..|s| - 1] + [s[|s| - 1]];
      var r := Insert(StableSorted(s[..|s| - 1], latency), s[|s| - 1], latency);
      assert |multiset(r)| == |r| && |multiset(s)| == |s|;
      r
  }

  ghost predicate IsSorted(s: seq<int>, latency: int -> int) {
    forall i, j | 0 <= i < j < |s| :: !Before(latency(s[j]), latency(s[i]))
  }

  lemma InSame(s: seq<int>, t: seq<int>, x: int)
    requires multiset(s) == multiset(t)
    ensures x in s <==> x in t
  {
    assert x in s <==> x in multiset(s);
    assert x in t <==> x in multiset(t);
  }

  lemma {:induction false} InsertSorted(s: seq<int>, x: int, latency: int -> int)
    requires IsSorted(s, latency)
    ensures IsSorted(Insert(s, x, latency), latency)
    decreases |s|
  {
    hide Before, IsSorted;
    if s == [] {
      SortedLonger(s, x, latency);
      assert s + [x] == [x];
    } else {
      var init, last := s[..|s| - 1], s[|s| - 1];
      SortedParts(s, latency);
      if Before(latency(x), latency(last)) {
        InsertSorted(init, x, latency);
        var t := Insert(init, x, latency);
        forall i | 0 <= i < |t| ensures !Before(latency(last), latency(t[i])) {
          InSame(t, init + [x], t[i]);
          assert t[i] in init || t[i] == x;
          BeforeIsAnOrder(latency(x), latency(last), latency(x));
        }
        SortedLonger(t, last, latency);
      } else {
        forall i | 0 <= i < |s| ensures !Before(latency(x), latency(s[i])) {
          BeforeIsAnOrder(latency(x), latency(last), latency(s[i]));
        }
        SortedLonger(s, x, latency);
      }
    }
  }

  lemma SortedLonger(s: seq<int>, x: int, latency: int -> int)
    requires IsSorted(s, latency) || s == []
    requires forall i | 0 <= i < |s| :: !Before(latency(x), latency(s[i]))
    ensures IsSorted(s + [x], latency)
  {
    hide Before;
  }

  lemma SortedParts(s: seq<int>, latency: int -> int)
    requires IsSorted(s, latency) && s != []
    ensures IsSorted(s[..|s| - 1], latency)
    ensures forall y | y in s[..|s| - 1] :: !Before(latency(s[|s| - 1]), latency(y))
    ensures forall i | 0 <= i < |s| :: !Before(latency(s[|s| - 1]), latency(s[i]))
  {
    BeforeIsAnOrder(latency(s[|s| - 1]), 0, 0);
    hide Before;
  }

  lemma {:induction false} SortedIsSorted(s: seq<int>, latency: int -> int)
    ensures IsSorted(StableSorted(s, latency), latency)
  {
    if s != [] {
      SortedIsSorted(s[..|s| - 1], latency);
      InsertSorted(StableSorted(s[..|s| - 1], latency), s[|s| - 1], latency);
    }
  }

  /** Positive latencies come first and do not decrease, then come those that are 0, then the negative ones. */
  ghost predicate FastestFirst(s: seq<int>, latency: int -> int) {
    forall i, j | 0 <= i < j < |s| :: NotSlower(latency(s[i]), latency(s[j]))
  }

  /** A measured member is only behind measured ones that are as fast, and an untested one only behind members
      that have not failed. */
  predicate NotSlower(left: int, right: int) {
    (right > 0 ==> 0 < left <= right) && (right == 0 ==> left >= 0)
  }

  lemma SortedMeans(s: seq<int>, latency: int -> int)
    ensures IsSorted(s, latency) <==> FastestFirst(s, latency)
  {
    hide Before, NotSlower, IsSorted, FastestFirst;
    forall a, b ensures !Before(b, a) <==> NotSlower(a, b) {
      BeforeMeans(a, b);
    }
    SortedUnfolded(s, latency);
  }

  lemma BeforeMeans(a: int, b: int)
    ensures !Before(b, a) <==> NotSlower(a, b)
  {}

  lemma SortedUnfolded(s: seq<int>, latency: int -> int)
    requires forall a, b :: !Before(b, a) <==> NotSlower(a, b)
    ensures IsSorted(s, latency) <==> FastestFirst(s, latency)
  {
    hide Before, NotSlower;
  }

  /** Sorting puts the fastest first. */
  lemma SortedByLatency(s: seq<int>, latency: int -> int)
    ensures FastestFirst(StableSorted(s, latency), latency)
  {
    hide FastestFirst, IsSorted, StableSorted;
    SortedIsSorted(s, latency);
    SortedMeans(StableSorted(s, latency), latency);
  }

  /** a is somewhere before b. */
  ghost predicate Precedes(s: seq<int>, a: int, b: int) {
    exists i, j :: 0 <= i < j < |s| && s[i] == a && s[j] == b
  }

  lemma PrecedesLonger(s: seq<int>, x: int, a: int, b: int)
    requires Precedes(s, a, b)
    ensures Precedes(s + [x], a, b)
  {
    var i, j :| 0 <= i < j < |s| && s[i] == a && s[j] == b;
    assert (s + [x])[i] == a && (s + [x])[j] == b;
  }

  lemma PrecedesLast(s: seq<int>, a: int, b: int)
    requires a in s
    ensures Precedes(s + [b], a, b)
  {
    var i :| 0 <= i < |s| && s[i] == a;
    assert (s + [b])[i] == a && (s + [b])[|s|] == b;
  }

  lemma PrecedesEarlier(s: seq<int>, a: int, b: int)
    requires Precedes(s, a, b)
    ensures |s| > 0 && (Precedes(s[..|s| - 1], a, b) || (b == s[|s| - 1] && a in s[..|s| - 1]))
  {
    var i, j :| 0 <= i < j < |s| && s[i] == a && s[j] == b;
    assert s[..|s| - 1][i] == a;
    if j < |s| - 1 {
      assert s[..|s| - 1][j] == b;
    }
  }

  lemma {:induction false} InsertKeepsOrder(s: seq<int>, x: int, latency: int -> int, a: int, b: int)
    requires Precedes(s, a, b)
    ensures Precedes(Insert(s, x, latency), a, b)
    decreases |s|
  {
    hide Precedes, Before;
    PrecedesEarlier(s, a, b);
    var init, last := s[..|s| - 1], s[|s| - 1];
    if Before(latency(x), latency(last)) {
      var t := Insert(init, x, latency);
      if Precedes(init, a, b) {
        InsertKeepsOrder(init, x, latency, a, b);
        PrecedesLonger(t, last, a, b);
      } else {
        InSame(t, init + [x], a);
        PrecedesLast(t, a, b);
      }
    } else {
      PrecedesLonger(s, x, a, b);
    }
  }

  /** What x does not come before stays ahead of x. */
  lemma {:induction false} InsertBehind(s: seq<int>, x: int, latency: int -> int, a: int)
    requires IsSorted(s, latency) && a in s && !Before(latency(x), latency(a))
    ensures Precedes(Insert(s, x, latency), a, x)
    decreases |s|
  {
    hide Precedes, Before;
    var init, last := s[..|s| - 1], s[|s| - 1];
    if Before(latency(x), latency(last)) {
      assert a in init;
      InsertBehind(init, x, latency, a);
      PrecedesLonger(Insert(init, x, latency), last, a, x);
    } else {
      PrecedesLast(s, a, x);
    }
  }

  /** Members that neither is faster than the other keep their order. */
  lemma {:induction false} SortIsStable(s: seq<int>, latency: int -> int, i: nat, j: nat)
    requires i < j < |s| && !Before(latency(s[j]), latency(s[i]))
    ensures Precedes(StableSorted(s, latency), s[i], s[j])
    decreases |s|
  {
    hide Before, Precedes, IsSorted;
    var init := s[..|s| - 1];
    SortedIsSorted(init, latency);
    if j < |init| {
      SortIsStable(init, latency, i, j);
      InsertKeepsOrder(StableSorted(init, latency), s[|s| - 1], latency, s[i], s[j]);
    } else {
      assert init[i] == s[i];
      InSame(init, StableSorted(init, latency), s[i]);
      InsertBehind(StableSorted(init, latency), s[j], latency, s[i]);
    }
  }

  /** Members with the same latency, and failed ones, keep their order. */
  lemma TiesKeepOrder(s: seq<int>, latency: int -> int, i: nat, j: nat)
    requires i < j < |s| && (latency(s[i]) == latency(s[j]) || (latency(s[i]) < 0 && latency(s[j]) < 0))
    ensures Precedes(StableSorted(s, latency), s[i], s[j])
  {
    hide StableSorted, Precedes;
    SortIsStable(s, latency, i, j);
  }

  // ----- the order of the pool

  predicate AreDistinct(s: seq<int>) {
    forall i, j | 0 <= i < j < |s| :: s[i] != s[j]
  }

  /** The persisted members that are still eligible, each once, in their order. */
  function Placed(pool: seq<int>, members: seq<int>): (r: seq<int>)
    ensures forall id :: id in r <==> id in pool && id in members
    ensures AreDistinct(r)
  {
    if pool == [] then []
    else
      var init, id := pool[..|pool| - 1], pool[|pool| - 1];
      assert pool == init + [id];
      var before := Placed(init, members);
      if id in members && id !in before then before + [id] else before
  }

  function Without(s: seq<int>, t: seq<int>): (r: seq<int>)
    ensures forall id :: id in r <==> id in s && id !in t
    ensures AreDistinct(s) ==> AreDistinct(r)
  {
    if s == [] then []
    else
      var init, id := s[..|s| - 1], s[|s| - 1];
      assert s == init + [id];
      if id in t then Without(init, t) else Without(init, t) + [id]
  }

  /** Persisted order first, newcomers by latency behind. */
  function Ordered(members: seq<int>, pool: seq<int>, latency: int -> int): seq<int> {
    var placed := Placed(pool, members);
    placed + StableSorted(Without(members, placed), latency)
  }

  lemma {:induction false} WithoutCounts(s: seq<int>, t: seq<int>, id: int)
    ensures multiset(Without(s, t))[id] == if id in t then 0 else multiset(s)[id]
  {
    if s != [] {
      var init, last := s[..|s| - 1], s[|s| - 1];
      WithoutCounts(init, t, id);
      assert s == init + [last];
      assert Without(s, t) == if last in t then Without(init, t) else Without(init, t) + [last];
    }
  }

  lemma DistinctCounts(s: seq<int>, id: int)
    requires AreDistinct(s)
    ensures multiset(s)[id] == if id in s then 1 else 0
    decreases |s|
  {
    if s != [] {
      var init, last := s[..|s| - 1], s[|s| - 1];
      assert s == init + [last];
      DistinctCounts(init, id);
    }
  }

  /** The order is a permutation of the members. */
  lemma OrderedIsPermutation(members: seq<int>, pool: seq<int>, latency: int -> int)
    requires AreDistinct(members)
    ensures multiset(Ordered(members, pool, latency)) == multiset(members)
    ensures AreDistinct(Ordered(members, pool, latency))
  {
    var placed := Placed(pool, members);
    var newcomers := Without(members, placed);
    var sorted := StableSorted(newcomers, latency);
    forall id ensures multiset(placed + sorted)[id] == multiset(members)[id] {
      WithoutCounts(members, placed, id);
      DistinctCounts(placed, id);
      DistinctCounts(members, id);
    }
    assert multiset(placed + sorted) == multiset(members);
    PermutationDistinct(members, placed + sorted);
  }

  lemma PermutationDistinct(s: seq<int>, t: seq<int>)
    requires AreDistinct(s) && multiset(s) == multiset(t)
    ensures AreDistinct(t)
  {
    forall i, j | 0 <= i < j < |t| ensures t[i] != t[j] {
      if t[i] == t[j] {
        DistinctCounts(s, t[i]);
        Twice(t, i, j);
      }
    }
  }

  lemma Twice(t: seq<int>, i: int, j: int)
    requires 0 <= i < j < |t| && t[i] == t[j]
    ensures multiset(t)[t[i]] >= 2
  {
    assert t == t[..j] + [t[j]] + t[j + 1..];
    assert t[i] in t[..j];
  }

  function Capped(s: seq<int>, cap: nat): seq<int> {
    if |s| > cap then s[..cap] else s
  }

  lemma {:induction false} PlacedAll(pool: seq<int>, members: seq<int>)
    requires AreDistinct(pool) && forall id | id in pool :: id in members
    ensures Placed(pool, members) == pool
  {
    if pool != [] {
      var init := pool[..|pool| - 1];
      assert pool == init + [pool[|pool| - 1]];
      PlacedAll(init, members);
    }
  }

  /** Planning again with the planned pool gives the same pool, whatever the latencies are by then. */
  lemma PoolIsReproduced(members: seq<int>, persisted: seq<int>, latency: int -> int, later: int -> int, cap: nat)
    requires AreDistinct(members)
    ensures var pool := Capped(Ordered(members, persisted, latency), cap);
            Capped(Ordered(members, pool, later), cap) == pool
  {
    hide Ordered, StableSorted, Without, Placed;
    var ordered := Ordered(members, persisted, latency);
    var pool := Capped(ordered, cap);
    OrderedIsPermutation(members, persisted, latency);
    forall id | id in pool ensures id in members {
      InSame(ordered, members, id);
    }
    PlacedAll(pool, members);
    PlacedFirst(members, pool, later);
    if |ordered| <= cap {
      forall id | id in members ensures id in pool {
        InSame(ordered, members, id);
      }
      NoNewcomers(members, pool, later);
    }
  }

  lemma PlacedFirst(members: seq<int>, pool: seq<int>, latency: int -> int)
    requires Placed(pool, members) == pool
    ensures pool <= Ordered(members, pool, latency)
  {}

  lemma {:induction false} NothingLeft(s: seq<int>, t: seq<int>)
    requires forall id | id in s :: id in t
    ensures Without(s, t) == []
  {
    if s != [] {
      assert s[|s| - 1] in s;
      NothingLeft(s[..|s| - 1], t);
    }
  }

  lemma NoNewcomers(members: seq<int>, pool: seq<int>, latency: int -> int)
    requires Placed(pool, members) == pool && forall id | id in members :: id in pool
    ensures Ordered(members, pool, latency) == pool
  {
    NothingLeft(members, pool);
    assert Ordered(members, pool, latency) == pool + StableSorted([], latency);
  }

  /** Behind the persisted members the newcomers stand with the fastest first. */
  lemma NewcomersByLatency(members: seq<int>, pool: seq<int>, latency: int -> int)
    ensures Placed(pool, members) <= Ordered(members, pool, latency)
    ensures FastestFirst(Ordered(members, pool, latency)[|Placed(pool, members)|..], latency)
  {
    hide StableSorted, FastestFirst, Placed, Without;
    var placed := Placed(pool, members);
    SortedByLatency(Without(members, placed), latency);
    assert Ordered(members, pool, latency)[|placed|..] == StableSorted(Without(members, placed), latency);
  }

  /** None of the members that are left out is faster than one that is kept. */
  ghost predicate KeepsFastest(members: seq<int>, kept: seq<int>, latency: int -> int) {
    && (forall k | k in kept :: k in members)
    && (forall d, k | d in members && d !in kept && k in kept :: NotSlower(latency(k), latency(d)))
  }

  lemma BehindPrefix(s: seq<int>, n: nat, j: nat)
    requires n <= |s| && j < |s| && s[j] !in s[..n]
    ensures j >= n
  {}

  lemma CappedIsFastest(members: seq<int>, latency: int -> int, cap: nat)
    ensures KeepsFastest(members, Capped(StableSorted(members, latency), cap), latency)
  {
    hide StableSorted, NotSlower;
    var sorted := StableSorted(members, latency);
    var kept := Capped(sorted, cap);
    SortedByLatency(members, latency);
    forall id ensures id in sorted <==> id in members {
      InSame(sorted, members, id);
    }
    forall d, k | d in members && d !in kept && k in kept ensures NotSlower(latency(k), latency(d)) {
      var i :| 0 <= i < |kept| && kept[i] == k;
      var j :| 0 <= j < |sorted| && sorted[j] == d;
      BehindPrefix(sorted, |kept|, j);
      assert sorted[i] == k;
    }
  }

  /** After a rerank no dropped member comes before a kept one. */
  lemma KeptAreBest(members: seq<int>, latency: int -> int, cap: nat, kept: int, dropped: int)
    requires 0 <= kept < cap <= dropped < |members|
    ensures var sorted := StableSorted(members, latency);
            !Before(latency(sorted[dropped]), latency(sorted[kept])) && Capped(sorted, cap) == sorted[..cap]
  {
    SortedIsSorted(members, latency);
  }

  // ----- eligible members

  datatype Group = Group(profiles: seq<int>, members: map<int, Profile>, landing: Option<Hop>, front: Option<Hop>) {
    function Find(id: int): Option<Profile> {
      if id in members then Some(members[id]) else None
    }
  }

  /** The selector's profile id, its group and its settings, at one reading of the clock. */
  datatype Scope = Scope(self: int, g: Group, s: Settings) {
    function VerdictOf(id: int): Skip {
      Verdict(g.Find(id), g.landing, g.front, s)
    }

    function LatencyOf(id: int): int {
      EffectiveLatency(g.Find(id), s)
    }
  }

  /** The latency of each member when the clock is read again. */
  function LatencyAt(sc: Scope, now: int): int -> int {
    id => sc.(s := sc.s.(now := now)).LatencyOf(id)
  }

  /** The members other than the selector itself with the given verdict. */
  function Where(sc: Scope, ids: seq<int>, verdict: Skip): (r: seq<int>)
    ensures forall id :: id in r <==> id in ids && id != sc.self && sc.VerdictOf(id) == verdict
    ensures AreDistinct(ids) ==> AreDistinct(r)
  {
    if ids == [] then []
    else
      var init, id := ids[..|ids| - 1], ids[|ids| - 1];
      assert ids == init + [id];
      assert AreDistinct(ids) ==> AreDistinct(init) && id !in init;
      var before := Where(sc, init, verdict);
      if id != sc.self && sc.VerdictOf(id) == verdict then before + [id] else before
  }

  function Others(sc: Scope, ids: seq<int>): nat {
    if ids == [] then 0 else Others(sc, ids[..|ids| - 1]) + (if ids[|ids| - 1] != sc.self then 1 else 0)
  }

  /** The eligible members; if there are none, the ones whose last test failed. */
  function EligibleOf(sc: Scope): seq<int> {
    var usable, unavailable := Where(sc, sc.g.profiles, Eligible), Where(sc, sc.g.profiles, Unavailable);
    if usable == [] then unavailable else usable
  }

  lemma EligibleAreDistinct(sc: Scope)
    requires AreDistinct(sc.g.profiles)
    ensures AreDistinct(EligibleOf(sc))
  {}

  /** How many of the members have a fresh positive latency. */
  function Measured(sc: Scope, members: seq<int>): nat {
    if members == [] then 0
    else Measured(sc, members[..|members| - 1]) + (if sc.LatencyOf(members[|members| - 1]) > 0 then 1 else 0)
  }

  function CountOf(m: map<Skip, nat>, k: Skip): nat {
    if k in m then m[k] else 0
  }

  /** The sum over all reasons, as the plan shows it to the user. */
  function SkippedCount(m: map<Skip, nat>): nat {
    CountOf(m, Missing) + CountOf(m, MetaType) + CountOf(m, CoreTransitions) + CountOf(m, ExtraCore)
        + CountOf(m, FullConfig)
    + CountOf(m, Malformed) + CountOf(m, Tailscale) + CountOf(m, ManagementEndpoint) + CountOf(m, NameFilter)
    + CountOf(m, CountryFilter) + CountOf(m, Unavailable) + CountOf(m, XrayFullChained)
  }

  /** The sizes of the classes by verdict, eligible and unavailable ones apart. */
  function ExcludedCount(sc: Scope, ids: seq<int>): nat {
    |Where(sc, ids, Missing)| + |Where(sc, ids, MetaType)| + |Where(sc, ids, CoreTransitions)|
        + |Where(sc, ids, ExtraCore)|
    + |Where(sc, ids, FullConfig)| + |Where(sc, ids, Malformed)| + |Where(sc, ids, Tailscale)|
    + |Where(sc, ids, ManagementEndpoint)| + |Where(sc, ids, NameFilter)| + |Where(sc, ids, CountryFilter)|
    + |Where(sc, ids, XrayFullChained)|
  }

  /** Each member other than the selector itself has exactly one verdict. */
  lemma {:induction false} OthersSplit(sc: Scope, ids: seq<int>)
    ensures Others(sc, ids) == |Where(sc, ids, Eligible)| + |Where(sc, ids, Unavailable)| + ExcludedCount(sc, ids)
  {
    hide Verdict;
    if ids != [] {
      OthersSplit(sc, ids[..|ids| - 1]);
      SplitStep(sc, ids);
    }
  }

  lemma SplitStep(sc: Scope, ids: seq<int>)
    requires ids != []
    ensures var init, id := ids[..|ids| - 1], ids[|ids| - 1];
            ExcludedCount(sc, ids) == ExcludedCount(sc, init) +
              if id != sc.self && sc.VerdictOf(id) != Eligible && sc.VerdictOf(id) != Unavailable then 1 else 0
  {
    hide Verdict, Where;
    var init, id := ids[..|ids| - 1], ids[|ids| - 1];
    forall k
      ensures |Where(sc, ids, k)| == |Where(sc, init, k)| + if id != sc.self && sc.VerdictOf(id) == k then 1 else 0
    {
      WhereStep(sc, ids, k);
    }
  }

  lemma WhereStep(sc: Scope, ids: seq<int>, k: Skip)
    requires ids != []
    ensures var init, id := ids[..|ids| - 1], ids[|ids| - 1];
            Where(sc, ids, k) == Where(sc, init, k) + if id != sc.self && sc.VerdictOf(id) == k then [id] else []
  {
    hide Verdict;
  }

  /** The state of the scan after the members ids. */
  ghost predicate Scanned(sc: Scope, ids: seq<int>, members: seq<int>, unavailable: seq<int>, inGroup: nat, ranked: nat,
                          skips: map<Skip, nat>) {
    && members == Where(sc, ids, Eligible) && unavailable == Where(sc, ids, Unavailable)
    && inGroup == Others(sc, ids) && ranked == Measured(sc, members)
    && CountsAll(sc, ids, skips)
  }

  ghost predicate CountsAll(sc: Scope, ids: seq<int>, skips: map<Skip, nat>) {
    && Eligible !in skips && Unavailable !in skips
    && forall k | k != Eligible && k != Unavailable :: CountOf(skips, k) == |Where(sc, ids, k)|
  }

  lemma CountStep(sc: Scope, ids: seq<int>, id: int, skips: map<Skip, nat>)
    requires CountsAll(sc, ids, skips)
    ensures var k := sc.VerdictOf(id);
            if id == sc.self || k == Eligible || k == Unavailable then CountsAll(sc, ids + [id], skips)
            else CountsAll(sc, ids + [id], skips[k := CountOf(skips, k) + 1])
  {
    hide Verdict, Where;
    assert (ids + [id])[..|ids|] == ids;
    forall k
      ensures Where(sc, ids + [id], k) ==
              Where(sc, ids, k) + if id != sc.self && sc.VerdictOf(id) == k then [id] else []
    {
      WhereStep(sc, ids + [id], k);
    }
  }

  /** One more member keeps the scan's state right when it is put where its verdict says. */
  lemma ScanStep(sc: Scope, ids: seq<int>, id: int, members: seq<int>, unavailable: seq<int>, inGroup: nat, ranked: nat,
                 skips: map<Skip, nat>)
    requires Scanned(sc, ids, members, unavailable, inGroup, ranked, skips)
    ensures id == sc.self ==> Scanned(sc, ids + [id], members, unavailable, inGroup, ranked, skips)
    ensures id != sc.self ==>
              var k := sc.VerdictOf(id);
              if k == Eligible then
                Scanned(sc, ids + [id], members + [id], unavailable, inGroup + 1,
                        if sc.LatencyOf(id) > 0 then ranked + 1 else ranked, skips)
              else if k == Unavailable then
                Scanned(sc, ids + [id], members, unavailable + [id], inGroup + 1, ranked, skips)
              else
                Scanned(sc, ids + [id], members, unavailable, inGroup + 1, ranked, skips[k := CountOf(skips, k) + 1])
  {
    hide Verdict, Where, EffectiveLatency, CountsAll, Others, Measured;
    CountStep(sc, ids, id, skips);
    assert (ids + [id])[..|ids|] == ids;
    WhereStep(sc, ids + [id], Eligible);
    WhereStep(sc, ids + [id], Unavailable);
    OthersStep(sc, ids, id);
    MeasuredStep(sc, members, id);
  }

  lemma OthersStep(sc: Scope, ids: seq<int>, id: int)
    ensures Others(sc, ids + [id]) == Others(sc, ids) + if id != sc.self then 1 else 0
  {
    assert (ids + [id])[..|ids|] == ids;
  }

  lemma MeasuredStep(sc: Scope, members: seq<int>, id: int)
    ensures Measured(sc, members + [id]) == Measured(sc, members) + if sc.LatencyOf(id) > 0 then 1 else 0
  {
    assert (members + [id])[..|members|] == members;
  }

  datatype Counts = Counts(membersInGroup: nat, rankedByTest: nat, keptUnavailable: nat, skips: map<Skip, nat>)

  /** What the scan of the whole group reports. */
  ghost predicate Reports(sc: Scope, counts: Counts) {
    var usable, unavailable := Where(sc, sc.g.profiles, Eligible), Where(sc, sc.g.profiles, Unavailable);
    && counts.membersInGroup == Others(sc, sc.g.profiles) && counts.rankedByTest == Measured(sc, usable)
    && counts.keptUnavailable == (if usable == [] then |unavailable| else 0)
    && CountOf(counts.skips, Unavailable) == (if usable == [] then 0 else |unavailable|)
    && forall k | k != Eligible && k != Unavailable :: CountOf(counts.skips, k) == |Where(sc, sc.g.profiles, k)|
  }

  /** No member is lost: each is eligible or counted under the reason it was skipped for. */
  lemma Conserved(sc: Scope, counts: Counts)
    requires Reports(sc, counts)
    ensures counts.membersInGroup == |EligibleOf(sc)| + SkippedCount(counts.skips)
  {
    hide Where, Others, Measured, Verdict;
    OthersSplit(sc, sc.g.profiles);
  }

  method EligibleMembers(sc: Scope) returns (members: seq<int>, counts: Counts)
    ensures members == EligibleOf(sc)
    ensures Reports(sc, counts)
    ensures counts.membersInGroup == |members| + SkippedCount(counts.skips)
  {
    hide Scanned, Eligibility, EffectiveLatency, Transitions, XrayFullConfigFitsChain, Where, Others, Measured,
        SkippedCount;
    var g, s := sc.g, sc.s;
    var skips: map<Skip, nat> := map[];
    var unavailable: seq<int> := [];
    var inGroup, ranked := 0, 0;
    members := [];
    NothingScanned(sc);
    for i := 0 to |g.profiles|
      invariant inGroup >= 0 && ranked >= 0
      invariant Scanned(sc, g.profiles[..i], members, unavailable, inGroup, ranked, skips)
    {
      var id := g.profiles[i];
      assert g.profiles[..i + 1] == g.profiles[..i] + [id];
      ScanStep(sc, g.profiles[..i], id, members, unavailable, inGroup, ranked, skips);
      if id == sc.self {
        continue;
      }
      var member := g.Find(id);
      inGroup := inGroup + 1;
      var skip := Eligibility(member, s);
      if skip != Eligible && skip != Unavailable {
        skips := skips[skip := CountOf(skips, skip) + 1];
        continue;
      }
      MissingIsSkipped(member, s);
      if member.value.hop.xrayFull {
        if !XrayFullConfigFitsChain(g.landing, g.front) {
          skips := skips[XrayFullChained := CountOf(skips, XrayFullChained) + 1];
          continue;
        }
      } else if Transitions(false, [g.landing, Some(member.value.hop), g.front]) > 2 {
        skips := skips[CoreTransitions := CountOf(skips, CoreTransitions) + 1];
        continue;
      }
      if skip == Unavailable {
        unavailable := unavailable + [id];
        continue;
      }
      members := members + [id];
      if EffectiveLatency(member, s) > 0 {
        ranked := ranked + 1;
      }
    }
    assert g.profiles[..|g.profiles|] == g.profiles;
    ScannedAll(sc, members, unavailable, inGroup, ranked, skips);
    var kept := 0;
    if members == [] && unavailable != [] {
      members := unavailable;
      kept := |unavailable|;
    } else if unavailable != [] {
      skips := skips[Unavailable := CountOf(skips, Unavailable) + |unavailable|];
    }
    counts := Counts(inGroup, ranked, kept, skips);
    Conserved(sc, counts);
  }

  lemma NothingScanned(sc: Scope)
    ensures Scanned(sc, [], [], [], 0, 0, map[])
  {}

  lemma ScannedAll(sc: Scope, members: seq<int>, unavailable: seq<int>, inGroup: nat, ranked: nat,
                   skips: map<Skip, nat>)
    requires Scanned(sc, sc.g.profiles, members, unavailable, inGroup, ranked, skips)
    ensures members == Where(sc, sc.g.profiles, Eligible) && unavailable == Where(sc, sc.g.profiles, Unavailable)
    ensures inGroup == Others(sc, sc.g.profiles) && ranked == Measured(sc, members)
    ensures CountsAll(sc, sc.g.profiles, skips)
  {
    hide Where, Others, Measured, Verdict;
  }

  lemma MissingIsSkipped(member: Option<Profile>, s: Settings)
    requires Eligibility(member, s) == Eligible || Eligibility(member, s) == Unavailable
    ensures member.Some?
  {}

  // ----- planning

  lemma OrderedLength(members: seq<int>, persisted: seq<int>, latency: int -> int)
    requires AreDistinct(members)
    ensures |Ordered(members, persisted, latency)| == |members|
  {
    hide Ordered;
    OrderedIsPermutation(members, persisted, latency);
    assert |multiset(members)| == |members|;
    assert |multiset(Ordered(members, persisted, latency))| == |Ordered(members, persisted, latency)|;
  }

  lemma NothingPlaced(pool: seq<int>, members: seq<int>)
    ensures Placed(pool[..0], members) == [] && forall t :: Without(members[..0], t) == []
  {}

  lemma PlacedStep(pool: seq<int>, members: seq<int>, i: nat)
    requires i < |pool|
    ensures var before, id := Placed(pool[..i], members), pool[i];
            Placed(pool[..i + 1], members) == if id in members && id !in before then before + [id] else before
  {
    assert pool[..i + 1][..i] == pool[..i];
  }

  lemma WithoutStep(s: seq<int>, t: seq<int>, i: nat)
    requires i < |s|
    ensures Without(s[..i + 1], t) == Without(s[..i], t) + if s[i] in t then [] else [s[i]]
  {
    assert s[..i + 1][..i] == s[..i];
  }

  method OrderMembers(members: seq<int>, persisted: seq<int>, latency: int -> int) returns (ordered: seq<int>)
    ensures ordered == Ordered(members, persisted, latency)
    ensures Placed(persisted, members) <= ordered
    ensures FastestFirst(ordered[|Placed(persisted, members)|..], latency)
  {
    hide StableSorted, Before, FastestFirst, Placed, Without;
    NewcomersByLatency(members, persisted, latency);
    NothingPlaced(persisted, members);
    var eligible := set id | id in members;
    var placed: set<int> := {};
    ordered := [];
    for i := 0 to |persisted|
      invariant ordered == Placed(persisted[..i], members)
      invariant placed == set id | id in ordered
    {
      var id := persisted[i];
      PlacedStep(persisted, members, i);
      if id !in eligible || id in placed {
        continue;
      }
      ordered := ordered + [id];
      placed := placed + {id};
    }
    assert persisted[..|persisted|] == persisted;
    var newcomers: seq<int> := [];
    for i := 0 to |members|
      invariant newcomers == Without(members[..i], ordered)
    {
      WithoutStep(members, ordered, i);
      if members[i] !in placed {
        newcomers := newcomers + [members[i]];
      }
    }
    assert members[..|members|] == members;
    ordered := ordered + StableSorted(newcomers, latency);
  }

  datatype Plan = Plan(pool: seq<int>, build: seq<int>, counts: Counts, eligible: nat, truncated: bool,
                       poolCapUsed: int, buildLimitUsed: int, needsRanking: bool, error: string)

  const NULL_PROFILE := "Null profile passed to PlanAutoSelector"
  const NOT_A_SELECTOR := "Profile is not an auto selector, data is corrupted"
  const NO_GROUP := "Auto selector points at a group that no longer exists"
  const NO_MEMBERS := "Auto selector has no usable members"

  function EmptyPlan(poolCap: int, buildLimit: int, error: string): Plan {
    Plan([], [], Counts(0, 0, 0, map[]), 0, false, poolCap, buildLimit, false, error)
  }

  /** The plan for a group: the report, and the pool that enters the configuration in part. */
  ghost predicate IsPlan(sc: Scope, persisted: seq<int>, ordering: int, plan: Plan) {
    && Reports(sc, plan.counts) && plan.eligible == |EligibleOf(sc)|
    && plan.counts.membersInGroup == plan.eligible + SkippedCount(plan.counts.skips)
    && 1 <= plan.buildLimitUsed <= plan.poolCapUsed
    && if EligibleOf(sc) == [] then
         plan == EmptyPlan(plan.poolCapUsed, plan.buildLimitUsed, NO_MEMBERS).(counts := plan.counts)
       else
         && plan.error == "" && IsPool(plan, Ordered(EligibleOf(sc), persisted, LatencyAt(sc, ordering)))
         && BuildsPrefix(plan, LatencyAt(sc, ordering))
  }

  ghost predicate IsPool(plan: Plan, ordered: seq<int>)
    requires plan.poolCapUsed >= 0
  {
    plan.pool == Capped(ordered, plan.poolCapUsed) && (plan.truncated <==> |ordered| > plan.poolCapUsed)
  }

  /** The part of the pool that enters the configuration, and whether it should be tested first. */
  ghost predicate BuildsPrefix(plan: Plan, latency: int -> int) {
    && plan.buildLimitUsed > 0
    && plan.build <= plan.pool
    && |plan.build| == (if |plan.pool| > plan.buildLimitUsed then plan.buildLimitUsed else |plan.pool|)
    && (plan.needsRanking <==> |plan.pool| > plan.buildLimitUsed && exists id :: id in plan.build && latency(id) == 0)
  }

  /** A plan is truncated exactly when there are more eligible members than the pool may have. */
  lemma TruncationMeans(sc: Scope, persisted: seq<int>, ordering: int, plan: Plan)
    requires IsPlan(sc, persisted, ordering, plan) && AreDistinct(sc.g.profiles)
    ensures plan.truncated <==> plan.eligible > plan.poolCapUsed
    ensures |plan.pool| == if plan.truncated then plan.poolCapUsed else plan.eligible
  {
    hide Ordered, EligibleOf, Reports, SkippedCount, BuildsPrefix;
    EligibleAreDistinct(sc);
    OrderedLength(EligibleOf(sc), persisted, LatencyAt(sc, ordering));
  }

  /** Plans for the members of a group; `ordering` is the clock's second reading. */
  method PlanMembers(sc: Scope, persisted: seq<int>, ordering: int, poolCap: int, buildLimit: int) returns (plan: Plan)
    requires 1 <= buildLimit <= poolCap
    ensures IsPlan(sc, persisted, ordering, plan)
    ensures plan.poolCapUsed == poolCap && plan.buildLimitUsed == buildLimit
  {
    hide Reports, EligibleOf, SkippedCount, Ordered;
    var members, counts := EligibleMembers(sc);
    plan := EmptyPlan(poolCap, buildLimit, "").(counts := counts, eligible := |members|);
    if members == [] {
      plan := plan.(error := NO_MEMBERS);
      return;
    }
    var latency := LatencyAt(sc, ordering);
    var ordered := OrderMembers(members, persisted, latency);
    plan := plan.(truncated := |ordered| > poolCap);
    if plan.truncated {
      ordered := ordered[..poolCap];
    }
    var build := ordered[..if |ordered| < buildLimit then |ordered| else buildLimit];
    var unranked := false;
    if |ordered| > buildLimit {
      unranked := exists id :: id in build && latency(id) == 0;
    }
    plan := plan.(pool := ordered, build := build, needsRanking := unranked);
  }

  function AtLeast(x: int, low: int): int {
    if x < low then low else x
  }

  function AtMost(x: int, high: int): int {
    if x > high then high else x
  }

  class Selector {
    var excludeUnavailable: bool
    var poolCap: int
    var buildLimit: int
    var resultValidityMins: int
    var intervalSec: int
    var benchIntervalSec: int
    var watchIntervalSec: int
    var activeSize: int
    var sampling: int
    var toleranceMs: int
    var maxRTTms: int
    var expected: int
    var dialRetries: int
    var balanceMode: string
    var balanceIntervalSec: int
    var pool: seq<int>
    var poolRankedAt: int

    /** A selector with the settings that a new profile has. */
    constructor ()
      ensures pool == [] && poolRankedAt == 0 && poolCap == 1000 && buildLimit == 300 && InRange()
    {
      excludeUnavailable, poolCap, buildLimit, resultValidityMins := true, 1000, 300, 1440;
      intervalSec, benchIntervalSec, watchIntervalSec := 300, 600, 15;
      activeSize, sampling, toleranceMs, maxRTTms, expected, dialRetries := 8, 10, 300, 0, 3, 2;
      balanceMode, balanceIntervalSec := "rotate", 30;
      pool, poolRankedAt := [], 0;
    }

    function SettingsAt(now: int): Settings
      reads this
    {
      Settings(excludeUnavailable, resultValidityMins, now)
    }

    /** The settings that are numbers. */
    function Numbers(): seq<int>
      reads this
    {
      [poolCap, buildLimit, resultValidityMins, intervalSec, benchIntervalSec, watchIntervalSec, activeSize, sampling,
       toleranceMs, maxRTTms, expected, dialRetries, balanceIntervalSec]
    }

    /** No setting is out of range: the build fits in the pool, watching is not slower than the full round nor
        the bench round faster, and the ready set sits inside the closely checked set, inside the build. */
    predicate InRange()
      reads this
    {
      PoolInRange() && TimesInRange() && SetsInRange() && RestInRange()
    }

    predicate PoolInRange()
      reads `poolCap, `buildLimit
    {
      1 <= buildLimit <= 500 && buildLimit <= poolCap <= 3000
    }

    predicate TimesInRange()
      reads `resultValidityMins, `intervalSec, `benchIntervalSec, `watchIntervalSec, `balanceIntervalSec
    {
      && 0 <= resultValidityMins && 10 <= intervalSec <= benchIntervalSec && 5 <= watchIntervalSec <= intervalSec
      && 5 <= balanceIntervalSec
    }

    predicate SetsInRange()
      reads `buildLimit, `activeSize, `expected
    {
      1 <= expected <= activeSize <= buildLimit
    }

    predicate RestInRange()
      reads `sampling, `toleranceMs, `maxRTTms, `dialRetries, `balanceMode
    {
      && 2 <= sampling <= 60 && 0 <= toleranceMs && 0 <= maxRTTms && 0 <= dialRetries <= 5
      && (balanceMode == "connection" || balanceMode == "rotate")
    }

    /** Brings the settings into range; settings in range are left alone. */
    method Normalize()
      modifies this
      ensures InRange()
      ensures old(InRange()) ==> Numbers() == old(Numbers()) && balanceMode == old(balanceMode)
      ensures pool == old(pool) && poolRankedAt == old(poolRankedAt) && excludeUnavailable == old(excludeUnavailable)
      ensures poolCap == AtMost(AtLeast(old(poolCap), 1), 3000)
      ensures buildLimit == AtMost(AtMost(AtLeast(old(buildLimit), 1), 500), poolCap)
      ensures resultValidityMins == AtLeast(old(resultValidityMins), 0)
      ensures intervalSec == AtLeast(old(intervalSec), 10)
      ensures benchIntervalSec == AtLeast(old(benchIntervalSec), intervalSec)
      ensures watchIntervalSec == AtMost(AtLeast(old(watchIntervalSec), 5), intervalSec)
      ensures expected == AtMost(AtLeast(old(expected), 1), buildLimit)
      ensures activeSize == AtMost(AtLeast(old(activeSize), AtLeast(old(expected), 1)), buildLimit)
      ensures sampling == AtMost(AtLeast(old(sampling), 2), 60)
      ensures toleranceMs == AtLeast(old(toleranceMs), 0) && maxRTTms == AtLeast(old(maxRTTms), 0)
      ensures dialRetries == AtMost(AtLeast(old(dialRetries), 0), 5)
      ensures balanceIntervalSec == AtLeast(old(balanceIntervalSec), 5)
      ensures balanceMode == if old(balanceMode) == "connection" then "connection" else "rotate"
    {
      hide PoolInRange, TimesInRange, SetsInRange, RestInRange, AtLeast, AtMost;
      NormalizePool();
      NormalizeTimes();
      NormalizeSets();
      NormalizeRest();
    }

    method NormalizePool()
      modifies `poolCap, `buildLimit
      ensures PoolInRange() && (old(PoolInRange()) ==> poolCap == old(poolCap) && buildLimit == old(buildLimit))
      ensures poolCap == AtMost(AtLeast(old(poolCap), 1), 3000)
      ensures buildLimit == AtMost(AtMost(AtLeast(old(buildLimit), 1), 500), poolCap)
    {
      if poolCap < 1 { poolCap := 1; }
      if poolCap > MAX_POOL_CAP { poolCap := MAX_POOL_CAP; }
      if buildLimit < 1 { buildLimit := 1; }
      if buildLimit > MAX_BUILD_LIMIT { buildLimit := MAX_BUILD_LIMIT; }
      if buildLimit > poolCap { buildLimit := poolCap; }
    }

    method NormalizeTimes()
      modifies `resultValidityMins, `intervalSec, `benchIntervalSec, `watchIntervalSec, `balanceIntervalSec
      ensures TimesInRange()
      ensures old(TimesInRange()) ==>
                && resultValidityMins == old(resultValidityMins) && intervalSec == old(intervalSec)
                && benchIntervalSec == old(benchIntervalSec) && watchIntervalSec == old(watchIntervalSec)
                && balanceIntervalSec == old(balanceIntervalSec)
      ensures resultValidityMins == AtLeast(old(resultValidityMins), 0)
      ensures intervalSec == AtLeast(old(intervalSec), 10)
      ensures benchIntervalSec == AtLeast(old(benchIntervalSec), intervalSec)
      ensures watchIntervalSec == AtMost(AtLeast(old(watchIntervalSec), 5), intervalSec)
      ensures balanceIntervalSec == AtLeast(old(balanceIntervalSec), 5)
    {
      if resultValidityMins < 0 { resultValidityMins := 0; }
      if intervalSec < 10 { intervalSec := 10; }
      if benchIntervalSec < intervalSec { benchIntervalSec := intervalSec; }
      if watchIntervalSec < 5 { watchIntervalSec := 5; }
      // Watching slower than the full round would make it dead weight.
      if watchIntervalSec > intervalSec { watchIntervalSec := intervalSec; }
      if balanceIntervalSec < 5 { balanceIntervalSec := 5; }
    }

    method NormalizeSets()
      requires PoolInRange()
      modifies `activeSize, `expected
      ensures SetsInRange() && (old(SetsInRange()) ==> activeSize == old(activeSize) && expected == old(expected))
      ensures expected == AtMost(AtLeast(old(expected), 1), buildLimit)
      ensures activeSize == AtMost(AtLeast(old(activeSize), AtLeast(old(expected), 1)), buildLimit)
    {
      if activeSize < 1 { activeSize := 1; }
      if expected < 1 { expected := 1; }
      if activeSize < expected { activeSize := expected; }
      if activeSize > buildLimit { activeSize := buildLimit; }
      if expected > buildLimit { expected := buildLimit; }
    }

    method NormalizeRest()
      modifies `sampling, `toleranceMs, `maxRTTms, `dialRetries, `balanceMode
      ensures RestInRange()
      ensures old(RestInRange()) ==>
                && sampling == old(sampling) && toleranceMs == old(toleranceMs) && maxRTTms == old(maxRTTms)
                && dialRetries == old(dialRetries) && balanceMode == old(balanceMode)
      ensures sampling == AtMost(AtLeast(old(sampling), 2), 60)
      ensures toleranceMs == AtLeast(old(toleranceMs), 0) && maxRTTms == AtLeast(old(maxRTTms), 0)
      ensures dialRetries == AtMost(AtLeast(old(dialRetries), 0), 5)
      ensures balanceMode == if old(balanceMode) == "connection" then "connection" else "rotate"
    {
      if sampling < 2 { sampling := 2; }
      if sampling > 60 { sampling := 60; }
      if toleranceMs < 0 { toleranceMs := 0; }
      if maxRTTms < 0 { maxRTTms := 0; }
      if dialRetries < 0 { dialRetries := 0; }
      if dialRetries > 5 { dialRetries := 5; }
      if balanceMode != "connection" { balanceMode := "rotate"; }
    }
  }

  /** The profile that the planner is asked about. */
  datatype Target =
    | NoProfile
    | OtherProfile
    | SelectorProfile(id: int, selector: Selector)
  {
    ghost function Frame(): set<object> {
      if SelectorProfile? then {selector} else {}
    }
  }

  /** The plan for building, from the group's members as they are now; `now` and `ordering` are the readings
      of the clock. */
  method PlanAutoSelector(ent: Target, group: Option<Group>, now: int, ordering: int) returns (plan: Plan)
    modifies ent.Frame()
    ensures ent.NoProfile? ==> plan == EmptyPlan(0, 0, NULL_PROFILE)
    ensures ent.OtherProfile? ==> plan == EmptyPlan(0, 0, NOT_A_SELECTOR)
    ensures ent.SelectorProfile? ==>
              var selector := ent.selector;
              && selector.InRange() && selector.pool == old(selector.pool)
              && plan.poolCapUsed == selector.poolCap && plan.buildLimitUsed == selector.buildLimit
              && (old(selector.InRange()) ==> selector.Numbers() == old(selector.Numbers()))
              && if group.None? then plan == EmptyPlan(selector.poolCap, selector.buildLimit, NO_GROUP)
                 else IsPlan(Scope(ent.id, group.value, selector.SettingsAt(now)), selector.pool, ordering, plan)
  {
    hide IsPlan;
    if ent.NoProfile? {
      return EmptyPlan(0, 0, NULL_PROFILE);
    }
    if ent.OtherProfile? {
      return EmptyPlan(0, 0, NOT_A_SELECTOR);
    }
    var selector := ent.selector;
    selector.Normalize();
    if group.None? {
      return EmptyPlan(selector.poolCap, selector.buildLimit, NO_GROUP);
    }
    plan := PlanMembers(Scope(ent.id, group.value, selector.SettingsAt(now)), selector.pool, ordering,
                        selector.poolCap, selector.buildLimit);
  }

  /** Sorts the eligible members by latency alone and keeps the best as the new pool; `now`, `ordering` and
      `ranked` are the readings of the clock. A negative cap keeps all of them. */
  method RerankAutoSelectorPool(ent: Target, group: Option<Group>, now: int, ordering: int, ranked: int)
    returns (members: seq<int>)
    modifies ent.Frame()
    ensures !ent.SelectorProfile? ==> members == []
    ensures ent.SelectorProfile? ==>
              var selector := ent.selector;
              && selector.pool == members && selector.poolRankedAt == ranked
              && selector.Numbers() == old(selector.Numbers())
              && members == (if group.None? then []
                             else Reranked(Scope(ent.id, group.value, selector.SettingsAt(now)), ordering,
                                           selector.poolCap))
              && (group.Some? ==>
                    var sc := Scope(ent.id, group.value, selector.SettingsAt(now));
                    && FastestFirst(members, LatencyAt(sc, ordering))
                    && KeepsFastest(EligibleOf(sc), members, LatencyAt(sc, ordering)))
  {
    hide EligibleOf, Reranked, FastestFirst, KeepsFastest;
    members := [];
    if !ent.SelectorProfile? {
      return;
    }
    var selector := ent.selector;
    if group.Some? {
      members := BestMembers(Scope(ent.id, group.value, selector.SettingsAt(now)), ordering, selector.poolCap);
    }
    selector.pool := members;
    selector.poolRankedAt := ranked;
  }

  lemma RerankedIsFastest(members: seq<int>, latency: int -> int, cap: int)
    ensures var sorted := StableSorted(members, latency);
            var kept := if cap < 0 then sorted else Capped(sorted, cap);
            FastestFirst(kept, latency) && KeepsFastest(members, kept, latency)
  {
    hide StableSorted, NotSlower;
    var sorted := StableSorted(members, latency);
    SortedByLatency(members, latency);
    CappedIsFastest(members, latency, if cap < 0 then |sorted| else cap);
  }

  method BestMembers(sc: Scope, ordering: int, poolCap: int) returns (members: seq<int>)
    ensures members == Reranked(sc, ordering, poolCap)
    ensures FastestFirst(members, LatencyAt(sc, ordering))
    ensures KeepsFastest(EligibleOf(sc), members, LatencyAt(sc, ordering))
  {
    hide EligibleOf, StableSorted, FastestFirst, KeepsFastest;
    RerankedIsFastest(EligibleOf(sc), LatencyAt(sc, ordering), poolCap);
    var eligible, _ := EligibleMembers(sc);
    members := StableSorted(eligible, LatencyAt(sc, ordering));
    if |members| > poolCap {
      members := Mid(members, poolCap);
    }
  }

  /** The first n elements; a negative number takes all. */
  function Mid(s: seq<int>, n: int): seq<int>
    requires n <= |s|
  {
    if n < 0 then s else s[..n]
  }

  /** The pool of a selector whose cap has not been normalized. */
  ghost function Reranked(sc: Scope, ordering: int, cap: int): seq<int> {
    var sorted := StableSorted(EligibleOf(sc), LatencyAt(sc, ordering));
    if cap < 0 then sorted else Capped(sorted, cap)
  }
}
