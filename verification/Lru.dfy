/** Least-recently-used replacement on values: what a set-associative cache should hit on, with
    no cache in sight. Traces are sequences of line numbers. */
module Lru {
  import opened Arith

  datatype Config = Config(assoc: nat, numLines: nat, lineBytes: nat)

  datatype Stats = Stats(accesses: nat, hits: nat, misses: nat, evictions: nat)

  const MAX_LINES: nat := 1024

  /** Configurations the simulator refuses: it reports no accesses at all. */
  predicate Degenerate(cfg: Config) {
    cfg.assoc == 0 || cfg.numLines == 0 || cfg.assoc > cfg.numLines
  }

  /** What a configuration comes down to: sets of `assoc` lines each, in an array cut off at `cap`. */
  datatype Geometry = Geometry(sets: nat, assoc: nat, cap: nat)

  function Shape(cfg: Config): (geo: Geometry)
    requires !Degenerate(cfg)
    ensures geo.sets > 0 && geo.assoc == cfg.assoc > 0
    ensures geo.sets * cfg.assoc <= cfg.numLines < (geo.sets + 1) * cfg.assoc
    ensures geo.cap <= MAX_LINES && geo.cap <= cfg.numLines && (geo.cap == MAX_LINES || geo.cap == cfg.numLines)
  {
    Geometry(cfg.numLines / cfg.assoc, cfg.assoc, if cfg.numLines <= MAX_LINES then cfg.numLines else MAX_LINES)
  }

  /** The lines set `i` really has. */
  function Ways(geo: Geometry, i: nat): nat {
    if geo.cap <= i * geo.assoc then 0
    else if geo.assoc <= geo.cap - i * geo.assoc then geo.assoc
    else geo.cap - i * geo.assoc
  }

  /** Up to 1024 lines, every set has all its ways. */
  lemma FullWays(cfg: Config, i: nat)
    requires !Degenerate(cfg) && cfg.numLines <= MAX_LINES && i < Shape(cfg).sets
    ensures Ways(Shape(cfg), i) == cfg.assoc
  {
    MulMono(i + 1, Shape(cfg).sets, cfg.assoc);
    assert (i + 1) * cfg.assoc == i * cfg.assoc + cfg.assoc;
  }

  // ---- Recency ----

  function Remove(s: seq<nat>, x: nat): (r: seq<nat>)
    ensures |r| <= |s|
  {
    if s == [] then [] else if s[0] == x then Remove(s[1..], x) else [s[0]] + Remove(s[1..], x)
  }

  /** The lines of set `i` in the trace, most recently used first. */
  function Stack(ls: seq<nat>, sets: nat, i: nat): seq<nat>
    requires sets > 0
  {
    if ls == [] then []
    else
      var l, before := ls[|ls| - 1], Stack(ls[..|ls| - 1], sets, i);
      if l % sets == i then [l] + Remove(before, l) else before
  }

  /** One more than the position of the last use of `x`; zero if there is none. */
  function Last(ls: seq<nat>, x: nat): (t: nat)
    ensures t <= |ls| && (t == 0 <==> x !in ls)
  {
    if ls == [] then 0 else if ls[|ls| - 1] == x then |ls| else Last(ls[..|ls| - 1], x)
  }

  predicate Distinct(s: seq<nat>) {
    forall a, b :: 0 <= a < b < |s| ==> s[a] != s[b]
  }

  lemma {:induction false} RemoveIs(s: seq<nat>, x: nat)
    requires Distinct(s)
    ensures forall y :: y in Remove(s, x) <==> y in s && y != x
    ensures Distinct(Remove(s, x))
  {
    if s != [] {
      assert Distinct(s[1..]) && s[0] !in s[1..];
      RemoveIs(s[1..], x);
      assert s == [s[0]] + s[1..];
    }
  }

  /** Removing at position `p` leaves what is in front of it. */
  lemma {:induction false} RemovePrefix(s: seq<nat>, x: nat, p: nat)
    requires p <= |s| && x !in s[..p]
    ensures p <= |Remove(s, x)| && Remove(s, x)[..p] == s[..p]
  {
    if p > 0 {
      assert s[1..][..p - 1] == s[1..p];
      assert s[0] in s[..p];
      forall y | y in s[1..p] ensures y in s[..p] {
      }
      RemovePrefix(s[1..], x, p - 1);
      assert Remove(s, x)[..p] == [s[0]] + Remove(s[1..], x)[..p - 1];
    }
  }

  /** Removing keeps any order by a strictly falling measure. */
  predicate Falling(s: seq<nat>, ls: seq<nat>) {
    forall a, b :: 0 <= a < b < |s| ==> Last(ls, s[a]) > Last(ls, s[b])
  }

  lemma {:induction false} RemoveFalling(s: seq<nat>, x: nat, ls: seq<nat>)
    requires Falling(s, ls)
    ensures Falling(Remove(s, x), ls)
  {
    if s != [] {
      assert forall a :: 0 <= a < |s[1..]| ==> s[1..][a] == s[a + 1];
      assert forall y :: y in s[1..] ==> Last(ls, s[0]) > Last(ls, y);
      RemoveFalling(s[1..], x, ls);
      RemoveMembers(s[1..], x);
    }
  }

  lemma {:induction false} RemoveMembers(s: seq<nat>, x: nat)
    ensures forall y :: y in Remove(s, x) ==> y in s && y != x
  {
    if s != [] {
      RemoveMembers(s[1..], x);
      assert s == [s[0]] + s[1..];
    }
  }

  lemma LastSnoc(ls: seq<nat>, l: nat, y: nat)
    ensures Last(ls + [l], y) == if y == l then |ls| + 1 else Last(ls, y)
  {
  }

  lemma FallingSnoc(s: seq<nat>, ls: seq<nat>, l: nat)
    requires Falling(s, ls) && l !in s
    ensures Falling(s, ls + [l])
  {
  }

  /** The stack holds exactly the lines of its set that were used, each once, in falling order of last use. */
  lemma {:induction false} StackIs(ls: seq<nat>, sets: nat, i: nat)
    requires sets > 0
    ensures Distinct(Stack(ls, sets, i)) && Falling(Stack(ls, sets, i), ls)
    ensures forall y :: y in Stack(ls, sets, i) <==> y in ls && y % sets == i
  {
    if ls != [] {
      var prev, l := ls[..|ls| - 1], ls[|ls| - 1];
      StackIs(prev, sets, i);
      assert ls == prev + [l];
      var s := Stack(prev, sets, i);
      if l % sets == i {
        RemoveIs(s, l);
        RemoveFalling(s, l, prev);
        FallingSnoc(Remove(s, l), prev, l);
        FrontFalling(Remove(s, l), prev, l);
      } else {
        FallingSnoc(s, prev, l);
      }
    }
  }

  lemma FrontFalling(s: seq<nat>, ls: seq<nat>, l: nat)
    requires Falling(s, ls + [l]) && l !in s
    ensures Falling([l] + s, ls + [l])
  {
  }

  // ---- Hits ----

  function Min(a: nat, b: nat): nat { if a <= b then a else b }

  /** The lines a set of `w` ways should hold. */
  function Kept(ls: seq<nat>, sets: nat, i: nat, w: nat): seq<nat>
    requires sets > 0
  {
    Stack(ls, sets, i)[..Min(w, |Stack(ls, sets, i)|)]
  }

  /** The next access to `l` hits. */
  predicate Hits(geo: Geometry, ls: seq<nat>, l: nat)
    requires geo.sets > 0
  {
    l in Kept(ls, geo.sets, l % geo.sets, Ways(geo, l % geo.sets))
  }

  /** The lines of the same set used more recently than `l`. */
  function MoreRecent(ls: seq<nat>, sets: nat, l: nat): set<nat>
    requires sets > 0
  {
    set y | y in ls && y % sets == l % sets && Last(ls, y) > Last(ls, l)
  }

  function Elements(s: seq<nat>): set<nat> {
    set y | y in s
  }

  lemma {:induction false} DistinctCount(s: seq<nat>)
    requires Distinct(s)
    ensures |Elements(s)| == |s|
  {
    if s != [] {
      assert Distinct(s[1..]) && s[0] !in s[1..];
      DistinctCount(s[1..]);
      assert Elements(s) == Elements(s[1..]) + {s[0]};
    }
  }

  lemma RecentArePrefix(ls: seq<nat>, sets: nat, l: nat, p: nat)
    requires sets > 0 && p < |Stack(ls, sets, l % sets)| && Stack(ls, sets, l % sets)[p] == l
    ensures |MoreRecent(ls, sets, l)| == p
  {
    var s := Stack(ls, sets, l % sets);
    StackIs(ls, sets, l % sets);
    forall y ensures y in MoreRecent(ls, sets, l) <==> y in s[..p] {
      if y in s {
        var q :| 0 <= q < |s| && s[q] == y;
        assert y in s[..p] ==> q < p;
      }
    }
    assert MoreRecent(ls, sets, l) == Elements(s[..p]);
    DistinctCount(s[..p]);
  }

  /** An access hits exactly when its line was used before and fewer than the set's ways of other
      lines of that set have been used since. */
  lemma HitExact(geo: Geometry, ls: seq<nat>, l: nat)
    requires geo.sets > 0
    ensures Hits(geo, ls, l) <==> l in ls && |MoreRecent(ls, geo.sets, l)| < Ways(geo, l % geo.sets)
  {
    var s := Stack(ls, geo.sets, l % geo.sets);
    StackIs(ls, geo.sets, l % geo.sets);
    if l in s {
      var p :| 0 <= p < |s| && s[p] == l;
      RecentArePrefix(ls, geo.sets, l, p);
      var w := Min(Ways(geo, l % geo.sets), |s|);
      assert p < w ==> s[..w][p] == l;
      if l in s[..w] {
        var q :| 0 <= q < w && s[q] == l;
        assert q == p;
      }
    }
  }

  // ---- The counters of a whole trace ----

  /** An access that misses a set with all its ways taken evicts. */
  predicate Evicts(geo: Geometry, ls: seq<nat>, l: nat)
    requires geo.sets > 0
  {
    var i := l % geo.sets;
    !Hits(geo, ls, l) && 0 < Ways(geo, i) <= |Stack(ls, geo.sets, i)|
  }

  function Count(geo: Geometry, ls: seq<nat>): (r: Stats)
    requires geo.sets > 0
    ensures r.accesses == |ls| && r.hits + r.misses == r.accesses
  {
    if ls == [] then Stats(0, 0, 0, 0)
    else
      var prev, l := ls[..|ls| - 1], ls[|ls| - 1];
      var r := Count(geo, prev);
      if Hits(geo, prev, l) then Stats(r.accesses + 1, r.hits + 1, r.misses, r.evictions)
      else Stats(r.accesses + 1, r.hits, r.misses + 1, r.evictions + if Evicts(geo, prev, l) then 1 else 0)
  }

  /** The lines resident in sets below `n`. */
  function Resident(geo: Geometry, ls: seq<nat>, n: nat): nat
    requires geo.sets > 0
  {
    if n == 0 then 0
    else Resident(geo, ls, n - 1) + Min(Ways(geo, n - 1), |Stack(ls, geo.sets, n - 1)|)
  }

  /** Accesses to sets the truncated array has no line for. */
  function Bypassed(geo: Geometry, ls: seq<nat>): nat
    requires geo.sets > 0
  {
    if ls == [] then 0
    else Bypassed(geo, ls[..|ls| - 1]) + if Ways(geo, ls[|ls| - 1] % geo.sets) == 0 then 1 else 0
  }

  /** How one access changes the resident lines of the sets below `n`. */
  lemma {:induction false} ResidentStep(geo: Geometry, ls: seq<nat>, l: nat, n: nat)
    requires geo.sets > 0
    ensures var i := l % geo.sets; var s := Stack(ls, geo.sets, i);
            Resident(geo, ls + [l], n) == Resident(geo, ls, n) + if i < n && l !in s && |s| < Ways(geo, i) then 1 else 0
  {
    if n > 0 {
      ResidentStep(geo, ls, l, n - 1);
      var i, s := l % geo.sets, Stack(ls, geo.sets, n - 1);
      assert (ls + [l])[..|ls|] == ls;
      if i == n - 1 {
        StackIs(ls, geo.sets, i);
        RemoveLength(s, l);
      }
    }
  }

  lemma {:induction false} RemoveLength(s: seq<nat>, x: nat)
    requires Distinct(s)
    ensures |Remove(s, x)| == |s| - if x in s then 1 else 0
  {
    if s != [] {
      assert Distinct(s[1..]);
      RemoveLength(s[1..], x);
      assert s == [s[0]] + s[1..];
    }
  }

  /** Every miss either evicts, or leaves one more line resident, or fell on a set without lines. */
  lemma {:induction false} MissesBalance(geo: Geometry, ls: seq<nat>)
    requires geo.sets > 0
    ensures Count(geo, ls).misses == Count(geo, ls).evictions + Resident(geo, ls, geo.sets) + Bypassed(geo, ls)
  {
    if ls == [] {
      EmptyResident(geo, geo.sets);
    } else {
      var prev, l := ls[..|ls| - 1], ls[|ls| - 1];
      assert ls == prev + [l];
      MissesBalance(geo, prev);
      ResidentStep(geo, prev, l, geo.sets);
      var s, w := Stack(prev, geo.sets, l % geo.sets), Ways(geo, l % geo.sets);
      if |s| < w {
        assert s[..Min(w, |s|)] == s;
      }
    }
  }

  lemma {:induction false} EmptyResident(geo: Geometry, n: nat)
    requires geo.sets > 0
    ensures Resident(geo, [], n) == 0
  {
    if n > 0 {
      EmptyResident(geo, n - 1);
    }
  }

  lemma {:induction false} NothingBypassed(cfg: Config, ls: seq<nat>)
    requires !Degenerate(cfg) && cfg.numLines <= MAX_LINES
    ensures Bypassed(Shape(cfg), ls) == 0
  {
    if ls != [] {
      NothingBypassed(cfg, ls[..|ls| - 1]);
      FullWays(cfg, ls[|ls| - 1] % Shape(cfg).sets);
    }
  }

  /** With at most 1024 lines, misses are evictions plus resident lines. */
  lemma MissesAreEvictionsAndResidents(cfg: Config, ls: seq<nat>)
    requires !Degenerate(cfg) && cfg.numLines <= MAX_LINES
    ensures var geo := Shape(cfg);
            Count(geo, ls).misses == Count(geo, ls).evictions + Resident(geo, ls, geo.sets)
  {
    MissesBalance(Shape(cfg), ls);
    NothingBypassed(cfg, ls);
  }

  // ---- Inclusion ----

  ghost predicate MoreWays(a: Geometry, b: Geometry) {
    a.sets == b.sets && forall i: nat :: i < a.sets ==> Ways(a, i) <= Ways(b, i)
  }

  /** What fits in fewer ways fits in more, access by access. */
  lemma {:induction false} MoreWaysHitMore(a: Geometry, b: Geometry, ls: seq<nat>)
    requires a.sets > 0 && MoreWays(a, b)
    ensures Count(a, ls).hits <= Count(b, ls).hits
    ensures forall l: nat :: Hits(a, ls, l) ==> Hits(b, ls, l)
  {
    forall l: nat | Hits(a, ls, l) ensures Hits(b, ls, l) {
      HitExact(a, ls, l);
      HitExact(b, ls, l);
      assert l % a.sets < a.sets;
    }
    if ls != [] {
      MoreWaysHitMore(a, b, ls[..|ls| - 1]);
    }
  }

  /** For a fixed number of sets and at most 1024 lines, raising associativity never loses a hit. */
  lemma Inclusion(a: Config, b: Config, ls: seq<nat>)
    requires !Degenerate(a) && !Degenerate(b) && a.numLines <= MAX_LINES && b.numLines <= MAX_LINES
    requires Shape(a).sets == Shape(b).sets && a.assoc <= b.assoc
    ensures Count(Shape(a), ls).hits <= Count(Shape(b), ls).hits
  {
    forall i: nat | i < Shape(a).sets ensures Ways(Shape(a), i) <= Ways(Shape(b), i) {
      FullWays(a, i);
      FullWays(b, i);
    }
    MoreWaysHitMore(Shape(a), Shape(b), ls);
  }

  // ---- When inclusion fails ----

  /** The line `k` rounds after `i` in the same set. */
  function Round(sets: nat, i: nat, k: nat): (l: nat)
    requires i < sets
    ensures l % sets == i && (k == 0 ==> l == i)
  {
    if k == 0 then i else
      ModTurn(Round(sets, i, k - 1), sets);
      Round(sets, i, k - 1) + sets
  }

  /** `k` lines of set `i`, one after the other. */
  function Sweep(sets: nat, i: nat, k: nat): (ls: seq<nat>)
    requires i < sets
    ensures |ls| == k
  {
    if k == 0 then [] else Sweep(sets, i, k - 1) + [Round(sets, i, k - 1)]
  }

  /** A sweep's next line is new. */
  lemma {:induction false} SweepBelow(sets: nat, i: nat, k: nat)
    requires i < sets
    ensures forall y :: y in Sweep(sets, i, k) ==> y < Round(sets, i, k)
  {
    if k > 0 {
      SweepBelow(sets, i, k - 1);
    }
  }

  /** The lines of a sweep stack up in reverse. */
  lemma {:induction false} SweepStacks(sets: nat, i: nat, k: nat)
    requires i < sets
    ensures |Stack(Sweep(sets, i, k), sets, i)| == k
    ensures k > 0 ==> Stack(Sweep(sets, i, k), sets, i)[k - 1] == i
  {
    if k > 0 {
      SweepStacks(sets, i, k - 1);
      SweepBelow(sets, i, k - 1);
      var before, l := Sweep(sets, i, k - 1), Round(sets, i, k - 1);
      StackNew(before, sets, i, l);
    }
  }

  lemma StackNew(ls: seq<nat>, sets: nat, i: nat, l: nat)
    requires sets > 0 && l % sets == i && l !in ls
    ensures Stack(ls + [l], sets, i) == [l] + Stack(ls, sets, i)
  {
    assert (ls + [l])[..|ls|] == ls;
    StackIs(ls, sets, i);
    var s := Stack(ls, sets, i);
    RemovePrefix(s, l, |s|);
    assert s[..|s|] == s;
    RemoveLength(s, l);
    assert Remove(s, l)[..|s|] == Remove(s, l);
  }

  lemma SweepDepth(sets: nat, i: nat, k: nat)
    requires i < sets && k > 0
    ensures i in Sweep(sets, i, k) && |MoreRecent(Sweep(sets, i, k), sets, i)| == k - 1
  {
    SweepStacks(sets, i, k);
    var ls := Sweep(sets, i, k);
    assert i == Round(sets, i, 0) && i % sets == i;
    RecentArePrefix(ls, sets, i, k - 1);
    StackIs(ls, sets, i);
    assert i in Stack(ls, sets, i);
  }

  lemma {:induction false} SweepNeverHits(geo: Geometry, i: nat, k: nat)
    requires i < geo.sets
    ensures Count(geo, Sweep(geo.sets, i, k)).hits == 0
  {
    if k > 0 {
      var sets := geo.sets;
      SweepNeverHits(geo, i, k - 1);
      SweepBelow(sets, i, k - 1);
      var before, l := Sweep(sets, i, k - 1), Round(sets, i, k - 1);
      assert (before + [l])[..k - 1] == before;
      HitExact(geo, before, l);
    }
  }

  /** A sweep of `w` lines and the first line again: a hit exactly if the set has `w` ways. */
  lemma SweepAgain(geo: Geometry, i: nat, w: nat)
    requires i < geo.sets && w > 0
    ensures Count(geo, Sweep(geo.sets, i, w) + [i]).hits == if w <= Ways(geo, i) then 1 else 0
  {
    var sets, ls := geo.sets, Sweep(geo.sets, i, w);
    SweepNeverHits(geo, i, w);
    SweepDepth(sets, i, w);
    assert (ls + [i])[..w] == ls;
    assert i == Round(sets, i, 0) && i % sets == i;
    HitExact(geo, ls, i);
  }

  /** Inclusion, exactly: over the same sets, the second cache never loses a hit on any trace if
      and only if each of its sets has at least as many lines in the truncated array. */
  lemma InclusionIff(a: Geometry, b: Geometry)
    requires a.sets == b.sets > 0
    ensures (forall ls :: Count(a, ls).hits <= Count(b, ls).hits) <==> MoreWays(a, b)
  {
    if MoreWays(a, b) {
      forall ls ensures Count(a, ls).hits <= Count(b, ls).hits {
        MoreWaysHitMore(a, b, ls);
      }
    } else {
      var i: nat :| i < a.sets && Ways(a, i) > Ways(b, i);
      SweepAgain(a, i, Ways(a, i));
      SweepAgain(b, i, Ways(a, i));
    }
  }

  /** More associativity can lose hits once the array is truncated: 1024 sets of two ways instead
      of one leave set 600 without a line. */
  lemma TruncationLosesHits()
    ensures var a, b := Config(1, 1024, 64), Config(2, 2048, 64);
            && Shape(a).sets == Shape(b).sets && a.assoc < b.assoc
            && Count(Shape(a), [600, 600]).hits > Count(Shape(b), [600, 600]).hits
  {
  }

  // ---- Read off the configuration ----

  /** The lines of the 1024-line array that belong to set `i`. */
  ghost function SetLines(cfg: Config, i: nat): set<nat>
    requires cfg.assoc > 0
  {
    set k: nat | k < cfg.numLines && k < 1024 && k / cfg.assoc == i
  }

  /** The other lines of the set that were used after access `a` and before access `t`. */
  ghost function UsedBetween(ls: seq<nat>, a: nat, t: nat, sets: nat): set<nat>
    requires sets > 0 && t < |ls|
  {
    set k: nat | a < k < t && ls[k] % sets == ls[t] % sets && ls[k] != ls[t] :: ls[k]
  }

  /** Access `t` should hit: since some earlier access to its line, fewer other lines of its set were used
      than the array has lines for the set. */
  ghost predicate HitAt(cfg: Config, ls: seq<nat>, t: nat)
    requires !Degenerate(cfg) && t < |ls|
  {
    var sets := cfg.numLines / cfg.assoc;
    sets > 0 && exists a :: 0 <= a < t && ls[a] == ls[t] && |UsedBetween(ls, a, t, sets)| < |SetLines(cfg, ls[t] % sets)|
  }

  /** Access `t` should evict: it misses a set that has lines, all of them taken. */
  ghost predicate EvictAt(cfg: Config, ls: seq<nat>, t: nat)
    requires !Degenerate(cfg) && t < |ls|
  {
    var sets := cfg.numLines / cfg.assoc;
    && !HitAt(cfg, ls, t) && sets > 0
    && 0 < |SetLines(cfg, ls[t] % sets)| <= |UsedLines(ls, t, sets)|
  }

  /** The lines of the set of access `t` used before it. */
  ghost function UsedLines(ls: seq<nat>, t: nat, sets: nat): set<nat>
    requires sets > 0 && t < |ls|
  {
    set k: nat | k < t && ls[k] % sets == ls[t] % sets :: ls[k]
  }

  ghost function Range(a: nat, b: nat): (s: set<nat>)
    requires a <= b
    ensures forall k :: k in s <==> a <= k < b
    ensures |s| == b - a
    decreases b
  {
    if a == b then {} else Range(a, b - 1) + {b - 1}
  }

  lemma DivRange(k: nat, i: nat, n: nat, start: nat)
    requires n > 0 && start == i * n
    ensures k / n == i <==> start <= k < start + n
  {
    if start <= k < start + n {
      DivModUnique(k, i, k - start, n);
    }
  }

  lemma SetLinesRange(cfg: Config, i: nat, start: nat, w: nat)
    requires cfg.assoc > 0 && start == i * cfg.assoc
    requires var cap := if cfg.numLines <= 1024 then cfg.numLines else 1024;
             w == if cap <= start then 0 else Min(cfg.assoc, cap - start)
    ensures |SetLines(cfg, i)| == w
  {
    forall k: nat ensures k in SetLines(cfg, i) <==> start <= k < start + w {
      DivRange(k, i, cfg.assoc, start);
    }
    assert SetLines(cfg, i) == Range(start, start + w);
  }

  /** Up to the cut-off a set has `assoc` lines of the array; past it fewer, or none. */
  lemma SetLinesCount(cfg: Config, i: nat)
    requires !Degenerate(cfg)
    ensures |SetLines(cfg, i)| == Ways(Shape(cfg), i)
  {
    SetLinesRange(cfg, i, i * cfg.assoc, Ways(Shape(cfg), i));
  }

  /** `Last` is one more than the last position. */
  lemma {:induction false} LastIs(ls: seq<nat>, x: nat)
    ensures Last(ls, x) > 0 ==> ls[Last(ls, x) - 1] == x
    ensures forall k :: Last(ls, x) <= k < |ls| ==> ls[k] != x
  {
    if ls != [] && ls[|ls| - 1] != x {
      LastIs(ls[..|ls| - 1], x);
    }
  }

  /** After its last use, the lines used since are the more recent ones. */
  lemma RecentIsBetween(ls: seq<nat>, t: nat, sets: nat)
    requires sets > 0 && t < |ls| && ls[t] in ls[..t]
    ensures UsedBetween(ls, Last(ls[..t], ls[t]) - 1, t, sets) == MoreRecent(ls[..t], sets, ls[t])
  {
    var prev, l := ls[..t], ls[t];
    var a := Last(prev, l) - 1;
    LastIs(prev, l);
    forall y ensures y in UsedBetween(ls, a, t, sets) <==> y in MoreRecent(prev, sets, l) {
      LastIs(prev, y);
      if y in UsedBetween(ls, a, t, sets) {
        var k: nat :| a < k < t && ls[k] % sets == l % sets && ls[k] != l && ls[k] == y;
        assert prev[k] == y;
      }
      if y in MoreRecent(prev, sets, l) {
        var k := Last(prev, y) - 1;
        assert prev[k] == y && a < k < t && ls[k] == y;
      }
    }
  }

  lemma BetweenShrinks(ls: seq<nat>, a: nat, b: nat, t: nat, sets: nat)
    requires sets > 0 && a <= b && t < |ls|
    ensures |UsedBetween(ls, b, t, sets)| <= |UsedBetween(ls, a, t, sets)|
  {
    SubsetCount(UsedBetween(ls, b, t, sets), UsedBetween(ls, a, t, sets));
  }

  lemma {:induction false} SubsetCount(a: set<nat>, b: set<nat>)
    requires a <= b
    ensures |a| <= |b|
  {
    if a != {} {
      var x :| x in a;
      SubsetCount(a - {x}, b - {x});
    }
  }

  /** The recency stack hits exactly where the configuration says. */
  lemma HitAtIff(cfg: Config, ls: seq<nat>, t: nat)
    requires !Degenerate(cfg) && t < |ls|
    ensures HitAt(cfg, ls, t) <==> Hits(Shape(cfg), ls[..t], ls[t])
  {
    var geo, prev, l := Shape(cfg), ls[..t], ls[t];
    HitExact(geo, prev, l);
    SetLinesCount(cfg, l % geo.sets);
    LastIs(prev, l);
    if l in prev {
      var a := Last(prev, l) - 1;
      RecentIsBetween(ls, t, geo.sets);
      assert ls[a] == l && a < t;
      if b :| 0 <= b < t && ls[b] == l && |UsedBetween(ls, b, t, geo.sets)| < |SetLines(cfg, l % geo.sets)| {
        assert prev[b] == l;
        BetweenShrinks(ls, b, a, t, geo.sets);
      }
    } else {
      forall b | 0 <= b < t ensures ls[b] != l {
        assert prev[b] == ls[b];
      }
    }
  }

  lemma EvictAtIff(cfg: Config, ls: seq<nat>, t: nat)
    requires !Degenerate(cfg) && t < |ls|
    ensures EvictAt(cfg, ls, t) <==> Evicts(Shape(cfg), ls[..t], ls[t])
  {
    var geo, prev, l := Shape(cfg), ls[..t], ls[t];
    HitAtIff(cfg, ls, t);
    SetLinesCount(cfg, l % geo.sets);
    var s := Stack(prev, geo.sets, l % geo.sets);
    StackIs(prev, geo.sets, l % geo.sets);
    DistinctCount(s);
    forall y ensures y in UsedLines(ls, t, geo.sets) <==> y in Elements(s) {
      if y in Elements(s) {
        var k :| 0 <= k < |prev| && prev[k] == y;
        assert ls[k] == y;
      }
      if y in UsedLines(ls, t, geo.sets) {
        var k: nat :| k < t && ls[k] % geo.sets == l % geo.sets && ls[k] == y;
        assert prev[k] == y;
      }
    }
    assert UsedLines(ls, t, geo.sets) == Elements(s);
  }

  /** The accesses before `n` that should hit. */
  ghost function HitTimes(cfg: Config, ls: seq<nat>, n: nat): (r: set<nat>)
    requires !Degenerate(cfg) && n <= |ls|
    ensures forall t :: t in r <==> 0 <= t < n && HitAt(cfg, ls, t)
  {
    if n == 0 then {}
    else if HitAt(cfg, ls, n - 1) then HitTimes(cfg, ls, n - 1) + {n - 1}
    else HitTimes(cfg, ls, n - 1)
  }

  ghost function EvictTimes(cfg: Config, ls: seq<nat>, n: nat): (r: set<nat>)
    requires !Degenerate(cfg) && n <= |ls|
    ensures forall t :: t in r <==> 0 <= t < n && EvictAt(cfg, ls, t)
  {
    if n == 0 then {}
    else if EvictAt(cfg, ls, n - 1) then EvictTimes(cfg, ls, n - 1) + {n - 1}
    else EvictTimes(cfg, ls, n - 1)
  }

  lemma TimesGrow(cfg: Config, ls: seq<nat>, n: nat, hit: bool, evict: bool)
    requires !Degenerate(cfg) && n < |ls| && hit == HitAt(cfg, ls, n) && evict == EvictAt(cfg, ls, n)
    ensures |HitTimes(cfg, ls, n + 1)| == |HitTimes(cfg, ls, n)| + if hit then 1 else 0
    ensures |EvictTimes(cfg, ls, n + 1)| == |EvictTimes(cfg, ls, n)| + if evict then 1 else 0
  {
    assert n !in HitTimes(cfg, ls, n) && n !in EvictTimes(cfg, ls, n);
  }

  lemma CountSnoc(geo: Geometry, ls: seq<nat>, n: nat, hit: bool, evict: bool)
    requires geo.sets > 0 && n < |ls| && hit == Hits(geo, ls[..n], ls[n]) && evict == Evicts(geo, ls[..n], ls[n])
    ensures var r, r' := Count(geo, ls[..n]), Count(geo, ls[..n + 1]);
            && r'.hits == r.hits + (if hit then 1 else 0)
            && r'.evictions == r.evictions + (if evict then 1 else 0)
  {
    assert ls[..n + 1][..n] == ls[..n];
  }

  lemma CountAndTimes(cfg: Config, ls: seq<nat>, n: nat)
    requires !Degenerate(cfg) && n < |ls|
    requires Count(Shape(cfg), ls[..n]).hits == |HitTimes(cfg, ls, n)|
    requires Count(Shape(cfg), ls[..n]).evictions == |EvictTimes(cfg, ls, n)|
    ensures Count(Shape(cfg), ls[..n + 1]).hits == |HitTimes(cfg, ls, n + 1)|
    ensures Count(Shape(cfg), ls[..n + 1]).evictions == |EvictTimes(cfg, ls, n + 1)|
  {
    HitAtIff(cfg, ls, n);
    EvictAtIff(cfg, ls, n);
    var hit, evict := HitAt(cfg, ls, n), EvictAt(cfg, ls, n);
    TimesGrow(cfg, ls, n, hit, evict);
    CountSnoc(Shape(cfg), ls, n, hit, evict);
  }

  /** The counters count exactly the accesses that should hit and those that should evict. */
  lemma {:induction false} CountTimes(cfg: Config, ls: seq<nat>, n: nat)
    requires !Degenerate(cfg) && n <= |ls|
    ensures Count(Shape(cfg), ls[..n]).hits == |HitTimes(cfg, ls, n)|
    ensures Count(Shape(cfg), ls[..n]).evictions == |EvictTimes(cfg, ls, n)|
  {
    if n > 0 {
      CountTimes(cfg, ls, n - 1);
      CountAndTimes(cfg, ls, n - 1);
    }
  }

  /** With at most 1024 lines, an access hits if and only if its line was used before and fewer than
      `assoc` other lines congruent to it modulo `numLines / assoc` were used since. */
  lemma HitOnConfig(cfg: Config, ls: seq<nat>, t: nat)
    requires !Degenerate(cfg) && cfg.numLines <= MAX_LINES && t < |ls|
    ensures var sets := cfg.numLines / cfg.assoc;
            sets > 0 && (HitAt(cfg, ls, t) <==> exists a :: 0 <= a < t && ls[a] == ls[t] && |UsedBetween(ls, a, t, sets)| < cfg.assoc)
  {
    var sets := Shape(cfg).sets;
    FullWays(cfg, ls[t] % sets);
    SetLinesCount(cfg, ls[t] % sets);
  }
}
