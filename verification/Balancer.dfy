/** Endpoint selection (src/router/balancer.rs): the shared round-robin counters, the scan
    that skips banned and tried endpoints, and the weighted pick. */
module Balancer {
  import opened Basics
  import opened Endpoints

  // ---- one scan of the ring ----

  /** Position `x` of a ring of n slots, for x below 2n. */
  function Wrap(x: nat, n: nat): nat {
    if x < n then x else x - n
  }

  lemma MulLess(n: nat, a: nat, b: nat)
    requires a < b
    ensures n * a + n <= n * b
  {
    var k: nat := b - a - 1;
    assert n * k >= 0;
    assert n * b == n * (a + 1 + k) == n * a + n + n * k;
  }

  lemma ModUnique(x: nat, n: nat, q: nat, r: nat)
    requires n > 0 && x == n * q + r && r < n
    ensures x % n == r
  {
    var d, e := x / n, x % n;
    assert x == n * d + e;
    if d < q { MulLess(n, d, q); }
    if q < d { MulLess(n, q, d); }
  }

  lemma WrapIsMod(x: nat, n: nat)
    requires n > 0 && x < 2 * n
    ensures x % n == Wrap(x, n)
  {
    if x < n { ModUnique(x, n, 0, x); } else { ModUnique(x, n, 1, x - n); }
  }

  lemma ModPeriodic(x: nat, n: nat)
    requires n > 0
    ensures (x + n) % n == x % n
  {
    var q, r := x / n, x % n;
    assert n * (q + 1) == n * q + n;
    ModUnique(x + n, n, q + 1, r);
  }

  /** Whether the slot `o` places after `start` is open. */
  predicate OpenAhead(open: seq<bool>, start: nat, o: nat)
    requires start < |open| && o < |open|
  {
    open[Wrap(start + o, |open|)]
  }

  /** The first open slot at `offset` or more slots after `start`. */
  function Scan(open: seq<bool>, start: nat, offset: nat): Option<nat>
    requires start < |open| && offset <= |open|
    decreases |open| - offset
  {
    if offset == |open| then None
    else if OpenAhead(open, start, offset) then Some(Wrap(start + offset, |open|))
    else Scan(open, start, offset + 1)
  }

  /** The scan finds the slot whose distance from `start` is least among the open ones. */
  lemma {:induction false} ScanFinds(open: seq<bool>, start: nat, offset: nat, d: nat)
    requires start < |open| && offset <= d < |open|
    requires forall o :: offset <= o < d ==> !OpenAhead(open, start, o)
    requires OpenAhead(open, start, d)
    ensures Scan(open, start, offset) == Some(Wrap(start + d, |open|))
    decreases d - offset
  {
    if offset < d { ScanFinds(open, start, offset + 1, d); }
  }

  lemma {:induction false} ScanEmpty(open: seq<bool>, start: nat, offset: nat)
    requires start < |open| && offset <= |open|
    ensures Scan(open, start, offset).None? <==> forall o :: offset <= o < |open| ==> !OpenAhead(open, start, o)
    ensures Scan(open, start, offset).Some? ==>
      Scan(open, start, offset).value < |open| && open[Scan(open, start, offset).value]
    decreases |open| - offset
  {
    if offset < |open| { ScanEmpty(open, start, offset + 1); }
  }

  function Pick(open: seq<bool>, start: nat): Option<nat>
    requires start < |open|
  {
    Scan(open, start, 0)
  }

  /** The scan fails exactly when no endpoint is eligible, and picks only eligible ones. */
  lemma PickFailsExactly(open: seq<bool>, start: nat)
    requires start < |open|
    ensures Pick(open, start).None? <==> forall i :: 0 <= i < |open| ==> !open[i]
    ensures Pick(open, start).Some? ==> Pick(open, start).value < |open| && open[Pick(open, start).value]
  {
    ScanEmpty(open, start, 0);
    if Pick(open, start).None? {
      forall i | 0 <= i < |open| ensures !open[i] {
        var o := if i >= start then i - start else i + |open| - start;
        assert !OpenAhead(open, start, o);
      }
    }
  }

  // ---- shares over consecutive calls ----

  ghost function Count(p: nat -> bool, lo: nat, hi: nat): nat
    decreases hi - lo
  {
    if hi <= lo then 0 else Count(p, lo, hi - 1) + (if p(hi - 1) then 1 else 0)
  }

  lemma {:induction false} CountFront(p: nat -> bool, lo: nat, hi: nat)
    requires lo < hi
    ensures Count(p, lo, hi) == (if p(lo) then 1 else 0) + Count(p, lo + 1, hi)
    decreases hi - lo
  {
    if lo + 1 < hi { CountFront(p, lo, hi - 1); }
  }

  lemma {:induction false} CountSplit(p: nat -> bool, lo: nat, mid: nat, hi: nat)
    requires lo <= mid <= hi
    ensures Count(p, lo, hi) == Count(p, lo, mid) + Count(p, mid, hi)
    decreases hi - mid
  {
    if mid < hi { CountSplit(p, lo, mid, hi - 1); }
  }

  lemma {:induction false} CountAll(p: nat -> bool, lo: nat, hi: nat, b: bool)
    requires lo <= hi && forall s :: lo <= s < hi ==> p(s) == b
    ensures Count(p, lo, hi) == if b then hi - lo else 0
    decreases hi - lo
  {
    if lo < hi { CountAll(p, lo, hi - 1, b); }
  }

  /** A period contains the same number of hits wherever it starts. */
  lemma {:induction false} CountPeriod(p: nat -> bool, n: nat, lo: nat)
    requires forall s: nat :: p(s + n) == p(s)
    ensures Count(p, lo, lo + n) == Count(p, 0, n)
  {
    if lo > 0 && n > 0 {
      CountPeriod(p, n, lo - 1);
      CountFront(p, lo - 1, lo - 1 + n);
      assert p(lo - 1 + n) == p(lo - 1);
    }
  }

  /** Whether the slot `d` places before slot i is open. */
  predicate OpenBehind(open: seq<bool>, i: nat, d: nat)
    requires i < |open| && d <= |open|
  {
    open[Wrap(i + |open| - d, |open|)]
  }

  /** How many slots in a row just before slot i are closed. */
  function Gap(open: seq<bool>, i: nat, g: nat): nat
    requires i < |open| && g < |open|
    decreases |open| - g
  {
    if g + 1 < |open| && !OpenBehind(open, i, g + 1) then Gap(open, i, g + 1) else g
  }

  lemma {:induction false} GapMeans(open: seq<bool>, i: nat, g: nat)
    requires i < |open| && g < |open|
    requires forall d :: 1 <= d <= g ==> !OpenBehind(open, i, d)
    ensures g <= Gap(open, i, g) < |open|
    ensures forall d :: 1 <= d <= Gap(open, i, g) ==> !OpenBehind(open, i, d)
    ensures Gap(open, i, g) + 1 < |open| ==> OpenBehind(open, i, Gap(open, i, g) + 1)
    decreases |open| - g
  {
    if g + 1 < |open| && !OpenBehind(open, i, g + 1) { GapMeans(open, i, g + 1); }
  }

  /** The slot where a scan starts that reaches slot i after d steps. */
  function Behind(i: nat, d: nat, n: nat): nat
    requires i < n && d < n
  {
    Wrap(i + n - d, n)
  }

  /** Slots ahead of the start are slots behind slot i. */
  lemma AheadIsBehind(open: seq<bool>, i: nat, d: nat, o: nat)
    requires i < |open| && d < |open| && o <= d
    ensures Behind(i, d, |open|) < |open|
    ensures OpenAhead(open, Behind(i, d, |open|), o) == OpenBehind(open, i, d - o)
    ensures o == d ==> Wrap(Behind(i, d, |open|) + o, |open|) == i
  {}

  /** A scan that starts d slots before slot i picks it exactly when d is within the gap. */
  lemma PickFromBehind(open: seq<bool>, i: nat, d: nat)
    requires i < |open| && d < |open| && open[i]
    ensures Behind(i, d, |open|) < |open|
    ensures Pick(open, Behind(i, d, |open|)) == Some(i) <==> d <= Gap(open, i, 0)
  {
    if d <= Gap(open, i, 0) { WithinGap(open, i, d); } else { BeyondGap(open, i, d); }
  }

  lemma WithinGap(open: seq<bool>, i: nat, d: nat)
    requires i < |open| && d < |open| && d <= Gap(open, i, 0) && open[i]
    ensures Behind(i, d, |open|) < |open| && Pick(open, Behind(i, d, |open|)) == Some(i)
  {
    AheadIsBehind(open, i, d, d);
    forall o | 0 <= o < d ensures !OpenAhead(open, Behind(i, d, |open|), o) {
      GapMeans(open, i, 0);
      AheadIsBehind(open, i, d, o);
    }
    ScanFinds(open, Behind(i, d, |open|), 0, d);
  }

  lemma BeyondGap(open: seq<bool>, i: nat, d: nat)
    requires i < |open| && Gap(open, i, 0) < d < |open|
    ensures Behind(i, d, |open|) < |open| && Pick(open, Behind(i, d, |open|)) != Some(i)
  {
    var g := Gap(open, i, 0);
    assert OpenBehind(open, i, g + 1) by { GapMeans(open, i, 0); }
    AheadIsBehind(open, i, d, d);
    AheadIsBehind(open, i, d, d - g - 1);
    NearerWins(open, Behind(i, d, |open|), 0, d - g - 1, d);
  }

  lemma {:induction false} NearerWins(open: seq<bool>, start: nat, offset: nat, near: nat, far: nat)
    requires start < |open| && offset <= near < far < |open|
    requires OpenAhead(open, start, near)
    ensures Scan(open, start, offset) != Some(Wrap(start + far, |open|))
    decreases near - offset
  {
    if !OpenAhead(open, start, offset) { NearerWins(open, start, offset + 1, near, far); }
  }

  predicate PickedAt(open: seq<bool>, i: nat, counter: nat)
    requires open != []
  {
    Pick(open, counter % |open|) == Some(i)
  }

  ghost function PickedOn(open: seq<bool>, i: nat): (p: nat -> bool)
    requires open != []
    ensures forall s: nat :: p(s) == PickedAt(open, i, s)
  {
    (s: nat) => PickedAt(open, i, s)
  }

  lemma PickedPeriodic(open: seq<bool>, i: nat)
    requires open != []
    ensures forall s: nat :: PickedOn(open, i)(s + |open|) == PickedOn(open, i)(s)
  {
    forall s: nat ensures PickedOn(open, i)(s + |open|) == PickedOn(open, i)(s) { ModPeriodic(s, |open|); }
  }

  lemma PickedBehind(open: seq<bool>, i: nat, counter: nat)
    requires i < |open| && open[i] && i + 1 <= counter < i + 1 + |open|
    ensures PickedAt(open, i, counter) <==> i + |open| - counter <= Gap(open, i, 0)
  {
    WrapIsMod(counter, |open|);
    PickFromBehind(open, i, i + |open| - counter);
  }

  /** MAIN RESULT (shares): over any |open| consecutive values of the counter, an eligible
      endpoint is chosen once for itself and once for every ineligible one just before it. */
  lemma ShareUnderSkipping(open: seq<bool>, i: nat, from: nat)
    requires i < |open| && open[i]
    ensures Count(PickedOn(open, i), from, from + |open|) == 1 + Gap(open, i, 0)
  {
    var p := PickedOn(open, i);
    PickedPeriodic(open, i);
    CountPeriod(p, |open|, from);
    CountPeriod(p, |open|, i + 1);
    ShareUpTo(open, i, p);
  }

  /** The period that ends at slot i. */
  lemma ShareUpTo(open: seq<bool>, i: nat, p: nat -> bool)
    requires i < |open| && open[i] && forall s: nat :: p(s) == PickedAt(open, i, s)
    ensures Count(p, i + 1, i + 1 + |open|) == 1 + Gap(open, i, 0)
  {
    var n, g := |open|, Gap(open, i, 0);
    GapMeans(open, i, 0);
    forall s: nat | i + 1 <= s < i + 1 + n ensures p(s) == (i + n - g <= s) { PickedBehind(open, i, s); }
    CountTail(p, i + 1, i + n - g, i + 1 + n);
  }

  lemma CountTail(p: nat -> bool, lo: nat, mid: nat, hi: nat)
    requires lo <= mid <= hi && forall s: nat | lo <= s < hi :: p(s) == (mid <= s)
    ensures Count(p, lo, hi) == hi - mid
  {
    CountSplit(p, lo, mid, hi);
    CountAll(p, lo, mid, false);
    CountAll(p, mid, hi, true);
  }

  /** What n consecutive calls of SelectAvailable select, from a counter value on. */
  function Selections(open: seq<bool>, counter: nat, n: nat): seq<Option<nat>>
    requires open != []
    decreases n
  {
    if n == 0 then [] else [Pick(open, counter % |open|)] + Selections(open, (counter + 1) % TWO64, n - 1)
  }

  function Times(selected: seq<Option<nat>>, i: nat): nat {
    if selected == [] then 0 else (if selected[0] == Some(i) then 1 else 0) + Times(selected[1..], i)
  }

  lemma {:induction false} TimesIsCount(open: seq<bool>, i: nat, counter: nat, n: nat)
    requires open != [] && counter + n <= TWO64
    ensures Times(Selections(open, counter, n), i) == Count(PickedOn(open, i), counter, counter + n)
    decreases n
  {
    if n > 0 {
      var p, tail := PickedOn(open, i), Selections(open, (counter + 1) % TWO64, n - 1);
      TimesCons(Pick(open, counter % |open|), tail, i);
      CountFront(p, counter, counter + n);
      if n > 1 {
        NextValue(counter);
        TimesIsCount(open, i, counter + 1, n - 1);
      } else {
        assert tail == [] && Times(tail, i) == 0 && Count(p, counter + 1, counter + 1) == 0;
      }
    }
  }

  lemma TimesCons(first: Option<nat>, rest: seq<Option<nat>>, i: nat)
    ensures Times([first] + rest, i) == (if first == Some(i) then 1 else 0) + Times(rest, i)
  {
    assert ([first] + rest)[1..] == rest;
  }

  lemma NextValue(counter: nat)
    requires counter + 1 < TWO64
    ensures (counter + 1) % TWO64 == counter + 1
  {}

  /** The same of calls: in |open| consecutive calls of SelectAvailable, while the counter
      does not wrap, an eligible endpoint is selected once and once more for every
      ineligible one just before it. */
  lemma ShareOfCalls(open: seq<bool>, i: nat, counter: nat)
    requires i < |open| && open[i] && counter + |open| <= TWO64
    ensures Times(Selections(open, counter, |open|), i) == 1 + Gap(open, i, 0)
  {
    TimesIsCount(open, i, counter, |open|);
    ShareUnderSkipping(open, i, counter);
  }

  // ---- weighted pick ----

  function Sum(ws: seq<nat>): nat {
    if ws == [] then 0 else ws[0] + Sum(ws[1..])
  }

  /** The index whose stretch of [0, Sum) contains `pick`. */
  function WeightedIndex(ws: seq<nat>, pick: nat): nat
    requires pick < Sum(ws)
    ensures WeightedIndex(ws, pick) < |ws|
  {
    if pick < ws[0] then 0 else 1 + WeightedIndex(ws[1..], pick - ws[0])
  }

  lemma {:induction false} StretchOf(ws: seq<nat>, pick: nat, i: nat)
    requires pick < Sum(ws) && i < |ws|
    ensures Sum(ws[..i]) + ws[i] <= Sum(ws)
    ensures WeightedIndex(ws, pick) == i <==> Sum(ws[..i]) <= pick < Sum(ws[..i]) + ws[i]
    decreases i
  {
    if i == 0 {
      assert ws[..0] == [];
    } else {
      assert ws[..i][1..] == ws[1..][..i - 1];
      if pick >= ws[0] { StretchOf(ws[1..], pick - ws[0], i - 1); } else { PrefixFits(ws, i); }
    }
  }

  lemma {:induction false} PrefixFits(ws: seq<nat>, i: nat)
    requires i < |ws|
    ensures Sum(ws[..i]) + ws[i] <= Sum(ws)
    ensures i > 0 ==> ws[0] <= Sum(ws[..i])
    decreases i
  {
    if i == 0 {
      assert ws[..0] == [];
    } else {
      assert ws[..i][1..] == ws[1..][..i - 1];
      PrefixFits(ws[1..], i - 1);
    }
  }

  predicate WeightedAt(ws: seq<nat>, i: nat, offset: nat)
    requires Sum(ws) > 0
  {
    WeightedIndex(ws, offset % Sum(ws)) == i
  }

  lemma WeightedPeriodic(ws: seq<nat>, i: nat, offset: nat)
    requires Sum(ws) > 0
    ensures WeightedAt(ws, i, offset + Sum(ws)) == WeightedAt(ws, i, offset)
  {
    ModPeriodic(offset, Sum(ws));
  }

  lemma WeightedInStretch(ws: seq<nat>, i: nat, offset: nat)
    requires i < |ws| && offset < Sum(ws)
    ensures WeightedAt(ws, i, offset) <==> Sum(ws[..i]) <= offset < Sum(ws[..i]) + ws[i]
  {
    WrapIsMod(offset, Sum(ws));
    StretchOf(ws, offset, i);
  }

  /** MAIN RESULT (weights): any block of Sum(ws) consecutive offsets returns endpoint i
      exactly ws[i] times. */
  lemma WeightedShare(ws: seq<nat>, i: nat, from: nat)
    requires i < |ws| && Sum(ws) > 0
    ensures Count((o: nat) => WeightedAt(ws, i, o), from, from + Sum(ws)) == ws[i]
  {
    var W, a := Sum(ws), Sum(ws[..i]);
    var p: nat -> bool := (o: nat) => WeightedAt(ws, i, o);
    PrefixFits(ws, i);
    forall s: nat ensures p(s + W) == p(s) { WeightedPeriodic(ws, i, s); }
    CountPeriod(p, W, from);
    forall o: nat | o < W ensures p(o) == (a <= o < a + ws[i]) { WeightedInStretch(ws, i, o); }
    CountStretch(p, a, a + ws[i], W);
  }

  lemma CountStretch(p: nat -> bool, a: nat, b: nat, n: nat)
    requires a <= b <= n && forall o: nat | o < n :: p(o) == (a <= o < b)
    ensures Count(p, 0, n) == b - a
  {
    CountSplit(p, 0, a, n);
    CountSplit(p, a, b, n);
    CountAll(p, 0, a, false);
    CountAll(p, a, b, true);
    CountAll(p, b, n, false);
  }

  function EffectiveWeights(endpoints: seq<Endpoint>): (ws: seq<nat>)
    ensures |ws| == |endpoints|
    ensures forall i :: 0 <= i < |ws| ==> ws[i] == if endpoints[i].weight == 0 then 1 else endpoints[i].weight
  {
    seq(|endpoints|, i requires 0 <= i < |endpoints| => if endpoints[i].weight == 0 then 1 else endpoints[i].weight)
  }

  lemma {:induction false} SumPositive(ws: seq<nat>)
    requires ws != [] && forall i :: 0 <= i < |ws| ==> ws[i] > 0
    ensures Sum(ws) > 0
  {}

  lemma SumPrefixNext(ws: seq<nat>, i: nat)
    requires i < |ws|
    ensures Sum(ws[..i + 1]) == Sum(ws[..i]) + ws[i]
    decreases i
  {
    if i == 0 {
      assert ws[..0] == [] && ws[..1] == [ws[0]];
    } else {
      assert ws[..i + 1][1..] == ws[1..][..i] && ws[..i][1..] == ws[1..][..i - 1];
      SumPrefixNext(ws[1..], i - 1);
    }
  }

  // ---- the objects ----

  class RoundRobinCounters {
    var counters: map<string, nat>

    constructor ()
      ensures counters == map[]
    {
      counters := map[];
    }

    /** The value the next call on `model` will use. */
    function Current(model: string): nat
      reads this
    {
      if model in counters then counters[model] else 0
    }

    method Next(model: string, total: nat) returns (index: nat)
      requires total > 0
      modifies this
      ensures index == old(Current(model)) % total
      ensures counters == old(counters)[model := (old(Current(model)) + 1) % TWO64]
    {
      var value := if model in counters then counters[model] else 0;
      counters := counters[model := (value + 1) % TWO64];
      index := value % total;
    }
  }

  function OpenSlots(endpoints: seq<Endpoint>, nameOf: Endpoint -> string, banned: set<string>, tried: set<string>): (open: seq<bool>)
    ensures |open| == |endpoints|
    ensures forall i :: 0 <= i < |open| ==>
      open[i] == (nameOf(endpoints[i]) !in banned && nameOf(endpoints[i]) !in tried)
  {
    seq(|endpoints|, i requires 0 <= i < |endpoints| =>
      nameOf(endpoints[i]) !in banned && nameOf(endpoints[i]) !in tried)
  }

  /** The loop over the ring. */
  method ScanRing(endpoints: seq<Endpoint>, nameOf: Endpoint -> string, banned: set<string>, tried: set<string>, start: nat)
    returns (selected: Option<nat>)
    requires start < |endpoints|
    ensures selected == Pick(OpenSlots(endpoints, nameOf, banned, tried), start)
  {
    var total := |endpoints|;
    ghost var open := OpenSlots(endpoints, nameOf, banned, tried);
    for offset := 0 to total
      invariant Pick(open, start) == Scan(open, start, offset)
    {
      WrapIsMod(start + offset, total);
      var idx := (start + offset) % total;
      var name := nameOf(endpoints[idx]);
      assert OpenAhead(open, start, offset) <==> !(name in banned || name in tried);
      if name in banned || name in tried {
        continue;
      }
      return Some(idx);
    }
    return None;
  }

  /** The endpoint `o` places after `start` in ring order. */
  function RingAt(endpoints: seq<Endpoint>, start: nat, o: nat): Endpoint
    requires endpoints != []
  {
    endpoints[(start + o) % |endpoints|]
  }

  /** Endpoint v lies d places after `start`, and is the first whose name is not skipped. */
  ghost predicate FirstAt(endpoints: seq<Endpoint>, nameOf: Endpoint -> string, skipped: set<string>, start: nat, v: nat, d: nat)
    requires endpoints != []
  {
    && d < |endpoints| && v == (start + d) % |endpoints|
    && nameOf(RingAt(endpoints, start, d)) !in skipped
    && forall o :: 0 <= o < d ==> nameOf(RingAt(endpoints, start, o)) in skipped
  }

  ghost predicate IsNearest(endpoints: seq<Endpoint>, nameOf: Endpoint -> string, skipped: set<string>, start: nat, v: nat)
    requires endpoints != []
  {
    exists d: nat :: FirstAt(endpoints, nameOf, skipped, start, v, d)
  }

  lemma {:induction false} ScanDistance(open: seq<bool>, start: nat, offset: nat) returns (d: nat)
    requires start < |open| && offset <= |open| && Scan(open, start, offset).Some?
    ensures offset <= d < |open| && OpenAhead(open, start, d)
    ensures Scan(open, start, offset) == Some(Wrap(start + d, |open|))
    ensures forall o :: offset <= o < d ==> !OpenAhead(open, start, o)
    decreases |open| - offset
  {
    if OpenAhead(open, start, offset) { d := offset; } else { d := ScanDistance(open, start, offset + 1); }
  }

  lemma AheadIsRing(endpoints: seq<Endpoint>, nameOf: Endpoint -> string, banned: set<string>, tried: set<string>, start: nat, o: nat)
    requires start < |endpoints| && o < |endpoints|
    ensures Wrap(start + o, |endpoints|) == (start + o) % |endpoints|
    ensures OpenAhead(OpenSlots(endpoints, nameOf, banned, tried), start, o) <==>
      nameOf(RingAt(endpoints, start, o)) !in banned + tried
  {
    WrapIsMod(start + o, |endpoints|);
  }

  /** The scan selects the nearest endpoint that is neither banned nor tried, and nothing if
      there is none. */
  lemma PickNearest(endpoints: seq<Endpoint>, nameOf: Endpoint -> string, banned: set<string>, tried: set<string>, start: nat)
    requires start < |endpoints|
    ensures var next := Pick(OpenSlots(endpoints, nameOf, banned, tried), start);
      && (next.Some? ==> IsNearest(endpoints, nameOf, banned + tried, start, next.value))
      && (next.None? <==> forall i :: 0 <= i < |endpoints| ==> nameOf(endpoints[i]) in banned + tried)
  {
    var open := OpenSlots(endpoints, nameOf, banned, tried);
    PickFailsExactly(open, start);
    if Pick(open, start).Some? {
      var d := ScanDistance(open, start, 0);
      AheadIsRing(endpoints, nameOf, banned, tried, start, d);
      forall o | 0 <= o < d ensures nameOf(RingAt(endpoints, start, o)) in banned + tried {
        AheadIsRing(endpoints, nameOf, banned, tried, start, o);
      }
      assert FirstAt(endpoints, nameOf, banned + tried, start, Pick(open, start).value, d);
    }
  }

  class ModelRouter {
    const models: map<string, seq<Endpoint>>
    const roundRobin: RoundRobinCounters

    constructor (models: map<string, seq<Endpoint>>)
      ensures this.models == models && fresh(roundRobin) && roundRobin.counters == map[]
    {
      this.models := models;
      roundRobin := new RoundRobinCounters();
    }

    /** One pass over the ring from the counter's slot.  An unknown or empty model selects
        nothing and leaves the counter alone. */
    method SelectAvailable(model: string, nameOf: Endpoint -> string, banned: set<string>, tried: set<string>)
      returns (selected: Option<nat>)
      modifies roundRobin
      ensures model !in models || models[model] == [] ==>
        selected == None && roundRobin.counters == old(roundRobin.counters)
      ensures model in models && models[model] != [] ==>
        && selected == Pick(OpenSlots(models[model], nameOf, banned, tried), old(roundRobin.Current(model)) % |models[model]|)
        && roundRobin.counters == old(roundRobin.counters)[model := (old(roundRobin.Current(model)) + 1) % TWO64]
    {
      if model !in models {
        return None;
      }
      var endpoints := models[model];
      var total := |endpoints|;
      if total == 0 {
        return None;
      }
      var start := roundRobin.Next(model, total);
      selected := ScanRing(endpoints, nameOf, banned, tried, start);
    }

    /** Despite its name the weighted round-robin of the source ignores weights. */
    method SelectEndpoint(model: string) returns (selected: Option<nat>)
      modifies roundRobin
      ensures model !in models || models[model] == [] ==>
        selected == None && roundRobin.counters == old(roundRobin.counters)
      ensures model in models && models[model] != [] ==>
        && selected == Some(old(roundRobin.Current(model)) % |models[model]|)
        && roundRobin.counters == old(roundRobin.counters)[model := (old(roundRobin.Current(model)) + 1) % TWO64]
    {
      if model !in models || models[model] == [] {
        return None;
      }
      var idx := roundRobin.Next(model, |models[model]|);
      selected := Some(idx);
    }
  }

  // ---- weights and the round robin ----

  function AllOpen(n: nat): (open: seq<bool>)
    ensures |open| == n && forall i :: 0 <= i < n ==> open[i]
  {
    seq(n, i => true)
  }

  /** With every endpoint eligible SelectAvailable selects what SelectEndpoint does: the
      counter's slot. */
  lemma AllOpenPick(n: nat, counter: nat)
    requires n > 0
    ensures Pick(AllOpen(n), counter % n) == Some(counter % n)
  {
    assert OpenAhead(AllOpen(n), counter % n, 0);
  }

  lemma OneCycle(n: nat, i: nat, from: nat)
    requires i < n
    ensures Count(PickedOn(AllOpen(n), i), from, from + n) == 1
  {
    ShareUnderSkipping(AllOpen(n), i, from);
    assert n > 1 ==> OpenBehind(AllOpen(n), i, 1);
  }

  lemma {:induction false} CountCycles(p: nat -> bool, n: nat, from: nat, cycles: nat)
    requires (forall s: nat :: p(s + n) == p(s)) && Count(p, 0, n) == 1
    ensures Count(p, from, from + cycles * n) == cycles
    decreases cycles
  {
    if cycles > 0 {
      var done: nat := (cycles - 1) * n;
      CountCycles(p, n, from, cycles - 1);
      CountPeriod(p, n, from + done);
      CountSplit(p, from, from + done, from + done + n);
      OneCycleMore(cycles - 1, n);
    }
  }

  lemma OneCycleMore(k: nat, n: nat)
    ensures (k + 1) * n == k * n + n
  {}

  lemma ManyCycles(n: nat, i: nat, from: nat, cycles: nat)
    requires i < n
    ensures Count(PickedOn(AllOpen(n), i), from, from + cycles * n) == cycles
  {
    PickedPeriodic(AllOpen(n), i);
    OneCycle(n, i, 0);
    CountCycles(PickedOn(AllOpen(n), i), n, from, cycles);
  }

  /** Endpoints get traffic in proportion to their weights: over as many whole cycles as
      their weights add up to, each is selected its weight times the number of endpoints. */
  ghost predicate Proportional(ws: seq<nat>)
    requires ws != []
  {
    forall i: nat, counter: nat :: i < |ws| && counter + Sum(ws) * |ws| <= TWO64 ==>
      Times(Selections(AllOpen(|ws|), counter, Sum(ws) * |ws|), i) == |ws| * ws[i]
  }

  lemma {:induction false} EqualSum(ws: seq<nat>, w: nat)
    requires forall i :: 0 <= i < |ws| ==> ws[i] == w
    ensures Sum(ws) == |ws| * w
  {
    if ws != [] {
      EqualSum(ws[1..], w);
      assert |ws| * w == w + (|ws| - 1) * w;
    }
  }

  lemma SameMultiple(n: nat, x: nat, y: nat)
    requires n > 0 && n * x == n * y
    ensures x == y
  {
    if x < y { MulLess(n, x, y); }
    if y < x { MulLess(n, y, x); }
  }

  /** MAIN RESULT (exact condition): the round robin of SelectAvailable and SelectEndpoint
      serves endpoints in proportion to their weights if and only if all their effective
      weights are equal.  Otherwise it gives each the same share all the same. */
  lemma WeightsIgnoredExactly(endpoints: seq<Endpoint>)
    requires endpoints != []
    requires Sum(EffectiveWeights(endpoints)) * |endpoints| <= TWO64
    ensures var ws := EffectiveWeights(endpoints);
      Proportional(ws) <==> forall i, j :: 0 <= i < j < |ws| ==> ws[i] == ws[j]
  {
    var ws := EffectiveWeights(endpoints);
    forall i: nat, counter: nat | i < |ws| && counter + Sum(ws) * |ws| <= TWO64
      ensures Times(Selections(AllOpen(|ws|), counter, Sum(ws) * |ws|), i) == Sum(ws)
    {
      TimesIsCount(AllOpen(|ws|), i, counter, Sum(ws) * |ws|);
      ManyCycles(|ws|, i, counter, Sum(ws));
    }
    if Proportional(ws) {
      forall i, j | 0 <= i < j < |ws| ensures ws[i] == ws[j] {
        assert 0 + Sum(ws) * |ws| <= TWO64;
        assert Times(Selections(AllOpen(|ws|), 0, Sum(ws) * |ws|), i) == |ws| * ws[i];
        assert Times(Selections(AllOpen(|ws|), 0, Sum(ws) * |ws|), j) == |ws| * ws[j];
        SameMultiple(|ws|, ws[i], ws[j]);
      }
    }
    if forall i, j :: 0 <= i < j < |ws| ==> ws[i] == ws[j] {
      forall i | 0 <= i < |ws| ensures ws[i] == ws[0] {}
      EqualSum(ws, ws[0]);
    }
  }

  /** The loop of the weighted pick; its fallback after the loop is unreachable. */
  method PickWeightedWithOffset(endpoints: seq<Endpoint>, offset: nat) returns (selected: Option<nat>)
    ensures endpoints == [] ==> selected == None
    ensures endpoints != [] ==>
      var ws := EffectiveWeights(endpoints);
      Sum(ws) > 0 && selected == Some(WeightedIndex(ws, offset % Sum(ws)))
  {
    if |endpoints| == 0 {
      return None;
    }
    var ws := EffectiveWeights(endpoints);
    SumPositive(ws);
    var totalWeight := Sum(ws);
    var pick := offset % totalWeight;
    var cumulative := 0;
    assert ws[..0] == [] && ws[..|ws|] == ws;
    for i := 0 to |ws|
      invariant cumulative == Sum(ws[..i]) <= pick
    {
      SumPrefixNext(ws, i);
      cumulative := cumulative + ws[i];
      if pick < cumulative {
        StretchOf(ws, pick, i);
        return Some(i);
      }
    }
    assert false;
  }
}
