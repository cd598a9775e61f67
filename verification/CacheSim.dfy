/** `simulate_cache`: the line array with its LRU counter, proved to count exactly the hits, misses
    and evictions of least-recently-used replacement. */
module CacheSim {
  import opened Arith
  import opened Core
  import opened Lru

  datatype Line = Line(valid: bool, tag: nat, lru: nat)

  // ---- How one access changes what a set keeps ----

  lemma {:induction false} RemoveAt(s: seq<nat>, x: nat, p: nat)
    requires Distinct(s) && p < |s| && s[p] == x
    ensures Remove(s, x) == s[..p] + s[p + 1..]
  {
    if p == 0 {
      assert x !in s[1..];
      RemovePrefix(s[1..], x, |s| - 1);
      RemoveLength(s[1..], x);
      assert s[1..][..|s| - 1] == s[1..];
    } else {
      RemoveAt(s[1..], x, p - 1);
    }
  }

  lemma StackSnoc(ls: seq<nat>, sets: nat, i: nat, l: nat)
    requires sets > 0 && l % sets == i
    ensures Stack(ls + [l], sets, i) == [l] + Remove(Stack(ls, sets, i), l)
  {
  }

  /** Moving position `p` to the front keeps the first `m` elements together. */
  lemma MovedToFront(s: seq<nat>, m: nat, p: nat, l: nat)
    requires p < m <= |s| && s[p] == l
    ensures var s' := [l] + (s[..p] + s[p + 1..]);
            |s'| == |s| && forall y :: y in s'[..m] <==> y in s[..m]
  {
    var s' := [l] + (s[..p] + s[p + 1..]);
    assert s'[..m] == [l] + (s[..p] + s[p + 1..m]);
    assert s[..m] == s[..p] + [l] + s[p + 1..m];
  }

  /** A hit keeps the same lines. */
  lemma KeptHit(ls: seq<nat>, sets: nat, i: nat, w: nat, l: nat)
    requires sets > 0 && l % sets == i && l in Kept(ls, sets, i, w)
    ensures |Kept(ls + [l], sets, i, w)| == |Kept(ls, sets, i, w)|
    ensures forall y :: y in Kept(ls + [l], sets, i, w) <==> y in Kept(ls, sets, i, w)
  {
    var s := Stack(ls, sets, i);
    var m := Min(w, |s|);
    StackIs(ls, sets, i);
    StackSnoc(ls, sets, i, l);
    var p :| 0 <= p < m && s[p] == l;
    RemoveAt(s, l, p);
    MovedToFront(s, m, p, l);
  }

  /** A miss with room adds the line. */
  lemma KeptFill(ls: seq<nat>, sets: nat, i: nat, w: nat, l: nat)
    requires sets > 0 && l % sets == i && l !in Kept(ls, sets, i, w) && |Stack(ls, sets, i)| < w
    ensures Kept(ls, sets, i, w) == Stack(ls, sets, i) && Kept(ls + [l], sets, i, w) == [l] + Kept(ls, sets, i, w)
  {
    var s := Stack(ls, sets, i);
    assert s[..|s|] == s;
    StackIs(ls, sets, i);
    StackNew(ls, sets, i, l);
  }

  /** A miss without room drops the line used longest ago. */
  lemma KeptEvict(ls: seq<nat>, sets: nat, i: nat, w: nat, l: nat)
    requires sets > 0 && l % sets == i && l !in Kept(ls, sets, i, w) && 0 < w <= |Stack(ls, sets, i)|
    ensures Kept(ls + [l], sets, i, w) == [l] + Stack(ls, sets, i)[..w - 1]
  {
    var s := Stack(ls, sets, i);
    StackSnoc(ls, sets, i, l);
    forall y | y in s[..w - 1] ensures y in s[..w] {
    }
    RemovePrefix(s, l, w - 1);
    assert ([l] + Remove(s, l))[..w] == [l] + Remove(s, l)[..w - 1];
  }

  // ---- One set of the array ----

  /** The segment `seg` of the array holds exactly the lines its set should keep; `held` says which
      line each entry stands for. */
  ghost predicate SegOk(seg: seq<Line>, held: seq<nat>, ls: seq<nat>, sets: nat, i: nat)
    requires sets > 0
  {
    var kept := Kept(ls, sets, i, |seg|);
    && |held| == |seg|
    && (forall k :: 0 <= k < |seg| ==> (seg[k].valid <==> k < |kept|))
    && (forall k :: 0 <= k < |kept| ==> held[k] in kept && seg[k].lru == Last(ls, held[k]))
    && (forall x :: x in kept ==> x in held[..|kept|])
    && (forall a, b :: 0 <= a < b < |kept| ==> held[a] != held[b])
  }

  /** Entries are labelled with the tags of the lines they stand for. */
  ghost predicate TagsOk(seg: seq<Line>, held: seq<nat>, sets: nat)
    requires sets > 0
  {
    |held| == |seg| && forall k :: 0 <= k < |seg| && seg[k].valid ==> seg[k].tag == held[k] / sets
  }

  lemma TagsUpdate(seg: seq<Line>, held: seq<nat>, sets: nat, k: nat, x: Line, y: nat)
    requires sets > 0 && TagsOk(seg, held, sets) && k < |seg| && x.tag == y / sets
    ensures TagsOk(seg[k := x], held[k := y], sets)
  {
  }

  /** An entry with the right tag is the line itself. */
  lemma SameLine(a: nat, b: nat, n: nat)
    requires n > 0 && a / n == b / n && a % n == b % n
    ensures a == b
  {
  }

  /** Probing for a tag finds an entry exactly when the line is kept. */
  lemma SegProbe(seg: seq<Line>, held: seq<nat>, ls: seq<nat>, sets: nat, i: nat, l: nat, tag: nat)
    requires sets > 0 && SegOk(seg, held, ls, sets, i) && TagsOk(seg, held, sets) && i == l % sets && tag == l / sets
    ensures forall k :: 0 <= k < |seg| && seg[k].valid && seg[k].tag == tag ==> held[k] == l
    ensures l in Kept(ls, sets, i, |seg|) <==> exists k :: 0 <= k < |seg| && seg[k].valid && seg[k].tag == tag
  {
    var kept := Kept(ls, sets, i, |seg|);
    StackIs(ls, sets, i);
    forall k | 0 <= k < |seg| && seg[k].valid && seg[k].tag == tag ensures held[k] == l {
      SameLine(held[k], l, sets);
    }
    if l in kept {
      var k :| 0 <= k < |kept| && held[k] == l;
      assert seg[k].valid && seg[k].tag == tag;
    }
  }

  lemma LastOthers(ls: seq<nat>, l: nat, held: seq<nat>, m: nat)
    requires m <= |held|
    ensures forall k :: 0 <= k < m ==> Last(ls + [l], held[k]) == if held[k] == l then |ls| + 1 else Last(ls, held[k])
  {
  }

  lemma SegHit(seg: seq<Line>, held: seq<nat>, ls: seq<nat>, sets: nat, i: nat, l: nat, k: nat, x: Line)
    requires sets > 0 && i == l % sets && SegOk(seg, held, ls, sets, i)
    requires k < |seg| && seg[k].valid && held[k] == l && x.valid && x.lru == |ls| + 1
    ensures SegOk(seg[k := x], held, ls + [l], sets, i)
  {
    KeptHit(ls, sets, i, |seg|, l);
    LastOthers(ls, l, held, |held|);
  }

  lemma SegFill(seg: seq<Line>, held: seq<nat>, ls: seq<nat>, sets: nat, i: nat, l: nat, k: nat, x: Line)
    requires sets > 0 && i == l % sets && SegOk(seg, held, ls, sets, i) && l !in Kept(ls, sets, i, |seg|)
    requires k < |seg| && !seg[k].valid && forall j :: 0 <= j < k ==> seg[j].valid
    requires x.valid && x.lru == |ls| + 1
    ensures |Stack(ls, sets, i)| < |seg|
    ensures SegOk(seg[k := x], held[k := l], ls + [l], sets, i)
  {
    var kept := Kept(ls, sets, i, |seg|);
    assert k > 0 ==> seg[k - 1].valid;
    assert k == |kept|;
    KeptFill(ls, sets, i, |seg|, l);
    LastOthers(ls, l, held, k);
    LastSnoc(ls, l, l);
    assert held[k := l][..k + 1] == held[..k] + [l];
  }

  /** With every entry valid, the one with the least counter is the line used longest ago. */
  lemma SegOldest(seg: seq<Line>, held: seq<nat>, ls: seq<nat>, sets: nat, i: nat, k: nat)
    requires sets > 0 && SegOk(seg, held, ls, sets, i) && k < |seg|
    requires forall j :: 0 <= j < |seg| ==> seg[j].valid && seg[k].lru <= seg[j].lru
    ensures |seg| <= |Stack(ls, sets, i)| && held[k] == Stack(ls, sets, i)[|seg| - 1]
  {
    var kept, w := Kept(ls, sets, i, |seg|), |seg|;
    assert seg[w - 1].valid && w == |kept|;
    StackIs(ls, sets, i);
    assert kept[w - 1] in held[..w];
    var j :| 0 <= j < w && held[j] == kept[w - 1];
    var a :| 0 <= a < w && kept[a] == held[k];
    assert seg[k].lru <= seg[j].lru;
  }

  lemma SegEvict(seg: seq<Line>, held: seq<nat>, ls: seq<nat>, sets: nat, i: nat, l: nat, k: nat, x: Line)
    requires sets > 0 && i == l % sets && SegOk(seg, held, ls, sets, i) && l !in Kept(ls, sets, i, |seg|)
    requires k < |seg| && forall j :: 0 <= j < |seg| ==> seg[j].valid && seg[k].lru <= seg[j].lru
    requires x.valid && x.lru == |ls| + 1
    ensures |seg| <= |Stack(ls, sets, i)|
    ensures SegOk(seg[k := x], held[k := l], ls + [l], sets, i)
  {
    var s, w := Stack(ls, sets, i), |seg|;
    SegOldest(seg, held, ls, sets, i, k);
    StackIs(ls, sets, i);
    KeptEvict(ls, sets, i, w, l);
    LastOthers(ls, l, held, w);
    LastSnoc(ls, l, l);
    EvictMembers(held, s, w, k, l, held[k := l], [l] + s[..w - 1]);
  }

  /** Replacing the oldest line in the entries replaces it in the stack. */
  lemma EvictMembers(held: seq<nat>, s: seq<nat>, w: nat, k: nat, l: nat, held': seq<nat>, kept': seq<nat>)
    requires |held| == w <= |s| && k < w && held[k] == s[w - 1] && l !in s[..w] && Distinct(s)
    requires forall a :: 0 <= a < w ==> held[a] in s[..w]
    requires forall x :: x in s[..w] ==> x in held[..w]
    requires forall a, b :: 0 <= a < b < w ==> held[a] != held[b]
    requires held' == held[k := l] && kept' == [l] + s[..w - 1]
    ensures forall a :: 0 <= a < w ==> held'[a] in kept'
    ensures forall x :: x in kept' ==> x in held'[..w]
    ensures forall a, b :: 0 <= a < b < w ==> held'[a] != held'[b]
  {
    assert s[..w] == s[..w - 1] + [s[w - 1]];
    forall x | x in kept' ensures x in held'[..w] {
      if x == l {
        assert held'[k] == l;
      } else {
        assert x in held[..w];
        var a :| 0 <= a < w && held[a] == x;
        assert held'[a] == x;
      }
    }
  }

  /** An access to another set changes nothing here. */
  lemma SegOther(seg: seq<Line>, held: seq<nat>, ls: seq<nat>, sets: nat, i: nat, l: nat)
    requires sets > 0 && SegOk(seg, held, ls, sets, i) && l % sets != i
    ensures SegOk(seg, held, ls + [l], sets, i)
  {
    assert (ls + [l])[..|ls|] == ls;
    StackIs(ls, sets, i);
    LastOthers(ls, l, held, |held|);
  }

  // ---- The whole array ----

  /** The `w` entries from `start`; a set without lines has none, wherever it would start. */
  function Segment<T>(c: seq<T>, start: nat, w: nat): (seg: seq<T>)
    requires w > 0 ==> start + w <= |c|
    ensures |seg| == w && forall k :: 0 <= k < w ==> seg[k] == c[start + k]
  {
    if w == 0 then [] else c[start..start + w]
  }

  function Start(geo: Geometry, i: nat): nat {
    i * geo.assoc
  }

  /** Where the entries of set `i` lie. */
  lemma WaysFit(geo: Geometry, i: nat)
    requires geo.assoc > 0 && geo.cap <= MAX_LINES
    ensures var start, w := Start(geo, i), Ways(geo, i);
            && w <= geo.assoc && (w == 0 <==> geo.cap <= start)
            && (w > 0 ==> start + w <= geo.cap) && (w < geo.assoc ==> geo.cap <= start + w)
  {
  }

  /** The segments of different sets do not meet. */
  lemma Apart(geo: Geometry, i: nat, j: nat)
    requires i < j
    ensures Start(geo, i) + geo.assoc <= Start(geo, j)
  {
    MulMono(i + 1, j, geo.assoc);
    assert (i + 1) * geo.assoc == i * geo.assoc + geo.assoc;
  }

  ghost predicate SetOk(c: seq<Line>, held: seq<nat>, geo: Geometry, ls: seq<nat>, i: nat) {
    && geo.sets > 0 && |c| == |held| == MAX_LINES && (Ways(geo, i) > 0 ==> Start(geo, i) + Ways(geo, i) <= MAX_LINES)
    && SegOk(Segment(c, Start(geo, i), Ways(geo, i)), Segment(held, Start(geo, i), Ways(geo, i)), ls, geo.sets, i)
    && TagsOk(Segment(c, Start(geo, i), Ways(geo, i)), Segment(held, Start(geo, i), Ways(geo, i)), geo.sets)
  }

  ghost predicate CacheOk(c: seq<Line>, held: seq<nat>, geo: Geometry, ls: seq<nat>) {
    forall i: nat :: i < geo.sets ==> SetOk(c, held, geo, ls, i)
  }

  ghost predicate SameBut<T>(c: seq<T>, c': seq<T>, start: nat, w: nat) {
    |c| == |c'| && forall k :: 0 <= k < |c| && !(start <= k < start + w) ==> c[k] == c'[k]
  }

  /** One access, given what it did to its own set. */
  lemma AccessOk(c: seq<Line>, held: seq<nat>, c': seq<Line>, held': seq<nat>, geo: Geometry, ls: seq<nat>, l: nat, i: nat)
    requires geo.sets > 0 && geo.assoc > 0 && geo.cap <= MAX_LINES && CacheOk(c, held, geo, ls) && i == l % geo.sets
    requires SameBut(c, c', Start(geo, i), Ways(geo, i)) && SameBut(held, held', Start(geo, i), Ways(geo, i))
    requires SetOk(c', held', geo, ls + [l], i)
    ensures CacheOk(c', held', geo, ls + [l])
  {
    forall j: nat | j < geo.sets ensures SetOk(c', held', geo, ls + [l], j) {
      if j != i {
        assert SetOk(c, held, geo, ls, j);
        WaysFit(geo, i);
        WaysFit(geo, j);
        if j < i {
          Apart(geo, j, i);
        } else {
          Apart(geo, i, j);
        }
        assert Segment(c', Start(geo, j), Ways(geo, j)) == Segment(c, Start(geo, j), Ways(geo, j));
        assert Segment(held', Start(geo, j), Ways(geo, j)) == Segment(held, Start(geo, j), Ways(geo, j));
        SegOther(Segment(c, Start(geo, j), Ways(geo, j)), Segment(held, Start(geo, j), Ways(geo, j)), ls, geo.sets, j, l);
      }
    }
  }

  /** Set `i` lies at `start` with `w` ways and is in order. */
  ghost predicate Here(c: seq<Line>, held: seq<nat>, ls: seq<nat>, sets: nat, i: nat, start: nat, w: nat) {
    && sets > 0 && |c| == |held| && (w > 0 ==> start + w <= |c|)
    && SegOk(Segment(c, start, w), Segment(held, start, w), ls, sets, i)
    && TagsOk(Segment(c, start, w), Segment(held, start, w), sets)
  }

  /** Updating one entry updates the segment there. */
  lemma SegmentUpdate<T>(c: seq<T>, start: nat, w: nat, at: nat, x: T)
    requires start <= at < start + w <= |c|
    ensures Segment(c[at := x], start, w) == Segment(c, start, w)[at - start := x]
  {
  }

  lemma HitCase(c: seq<Line>, held: seq<nat>, ls: seq<nat>, sets: nat, i: nat, l: nat, tag: nat, start: nat, w: nat, at: nat, x: Line)
    requires Here(c, held, ls, sets, i, start, w) && start <= at < start + w && i == l % sets && tag == l / sets
    requires c[at].valid && c[at].tag == tag && x == c[at].(lru := |ls| + 1)
    ensures l in Kept(ls, sets, i, w)
    ensures Here(c[at := x], held, ls + [l], sets, i, start, w)
  {
    var seg, hs, k := Segment(c, start, w), Segment(held, start, w), at - start;
    assert seg[k] == c[at];
    SegProbe(seg, hs, ls, sets, i, l, tag);
    SegHit(seg, hs, ls, sets, i, l, k, x);
    TagsUpdate(seg, hs, sets, k, x, l);
    assert hs[k := l] == hs;
    SegmentUpdate(c, start, w, at, x);
  }

  lemma MissCase(c: seq<Line>, held: seq<nat>, ls: seq<nat>, sets: nat, i: nat, l: nat, tag: nat, start: nat, w: nat)
    requires Here(c, held, ls, sets, i, start, w) && i == l % sets && tag == l / sets
    requires forall at :: start <= at < start + w ==> !(c[at].valid && c[at].tag == tag)
    ensures l !in Kept(ls, sets, i, w)
  {
  }

  lemma FillCase(c: seq<Line>, held: seq<nat>, ls: seq<nat>, sets: nat, i: nat, l: nat, start: nat, w: nat, at: nat, x: Line)
    requires Here(c, held, ls, sets, i, start, w) && start <= at < start + w && i == l % sets
    requires l !in Kept(ls, sets, i, w) && !c[at].valid && forall k :: start <= k < at ==> c[k].valid
    requires x.valid && x.tag == l / sets && x.lru == |ls| + 1
    ensures |Stack(ls, sets, i)| < w && Here(c[at := x], held[at := l], ls + [l], sets, i, start, w)
  {
    var seg, hs, k := Segment(c, start, w), Segment(held, start, w), at - start;
    assert seg[k] == c[at];
    SegFill(seg, hs, ls, sets, i, l, k, x);
    TagsUpdate(seg, hs, sets, k, x, l);
    SegmentUpdate(c, start, w, at, x);
    SegmentUpdate(held, start, w, at, l);
  }

  lemma EvictCase(c: seq<Line>, held: seq<nat>, ls: seq<nat>, sets: nat, i: nat, l: nat, start: nat, w: nat, at: nat, x: Line)
    requires Here(c, held, ls, sets, i, start, w) && start <= at < start + w && i == l % sets
    requires l !in Kept(ls, sets, i, w) && forall k :: start <= k < start + w ==> c[k].valid && c[at].lru <= c[k].lru
    requires x.valid && x.tag == l / sets && x.lru == |ls| + 1
    ensures w <= |Stack(ls, sets, i)| && Here(c[at := x], held[at := l], ls + [l], sets, i, start, w)
  {
    var seg, hs, k := Segment(c, start, w), Segment(held, start, w), at - start;
    assert seg[k] == c[at];
    SegEvict(seg, hs, ls, sets, i, l, k, x);
    TagsUpdate(seg, hs, sets, k, x, l);
    SegmentUpdate(c, start, w, at, x);
    SegmentUpdate(held, start, w, at, l);
  }

  /** Counters never run ahead of the trace. */
  lemma CountersBounded(c: seq<Line>, held: seq<nat>, ls: seq<nat>, sets: nat, i: nat, start: nat, w: nat)
    requires Here(c, held, ls, sets, i, start, w)
    ensures forall at :: start <= at < start + w && c[at].valid ==> c[at].lru <= |ls|
  {
  }

  // ---- The simulator ----

  /** The first matching entry of the set. */
  method Probe(cache: array<Line>, start: nat, end: nat, cap: nat, tag: nat) returns (at: Option<nat>)
    requires cap <= cache.Length && start <= end
    ensures at.Some? ==> start <= at.value < end && at.value < cap && cache[at.value].valid && cache[at.value].tag == tag
    ensures at.None? ==> forall k :: start <= k < end && k < cap ==> !(cache[k].valid && cache[k].tag == tag)
  {
    for idx := start to end
      invariant forall k :: start <= k < idx && k < cap ==> !(cache[k].valid && cache[k].tag == tag)
    {
      if idx < cap && cache[idx].valid && cache[idx].tag == tag {
        return Some(idx);
      }
    }
    at := None;
  }

  /** The first empty entry of the set, or the entry with the least counter. */
  method Victim(cache: array<Line>, start: nat, end: nat, cap: nat) returns (empty: Option<nat>, oldest: nat)
    requires cap <= cache.Length && start <= end
    requires forall k :: start <= k < end && k < cap && cache[k].valid ==> cache[k].lru < U64_MAX
    ensures empty.Some? ==>
              && start <= empty.value < end && empty.value < cap && !cache[empty.value].valid
              && forall k :: start <= k < empty.value ==> cache[k].valid
    ensures empty.None? ==>
              && (start < end && start < cap ==> start <= oldest < end && oldest < cap)
              && (end <= start || cap <= start ==> oldest == start)
              && forall k :: start <= k < end && k < cap ==> cache[k].valid && cache[oldest].lru <= cache[k].lru
  {
    oldest, empty := start, None;
    var least := U64_MAX;
    for idx := start to end
      invariant empty.None?
      invariant forall k :: start <= k < idx && k < cap ==> cache[k].valid && least <= cache[k].lru
      invariant least <= U64_MAX
      invariant least < U64_MAX ==> start <= oldest < idx && oldest < cap && cache[oldest].lru == least
      invariant least == U64_MAX ==> oldest == start && !(start < idx && start < cap)
    {
      if idx < cap {
        if !cache[idx].valid {
          return Some(idx), oldest;
        } else if cache[idx].lru < least {
          least := cache[idx].lru;
          oldest := idx;
        }
      }
    }
  }

  /** The line numbers of a sequence of addresses. */
  function LinesOf(addrs: seq<nat>, lineBytes: nat): (ls: seq<nat>)
    requires lineBytes > 0
    ensures |ls| == |addrs| && forall t :: 0 <= t < |ls| ==> ls[t] == addrs[t] / lineBytes
  {
    seq(|addrs|, t requires 0 <= t < |addrs| => addrs[t] / lineBytes)
  }

  /** One access on the array. */
  method Access(cache: array<Line>, ghost held: seq<nat>, geo: Geometry, ghost ls: seq<nat>, l: nat, counter: nat)
      returns (hit: bool, evicted: bool, ghost held': seq<nat>)
    requires geo.sets > 0 && geo.assoc > 0 && geo.cap <= MAX_LINES && cache.Length == MAX_LINES
    requires CacheOk(cache[..], held, geo, ls) && counter == |ls| + 1 < U64_MAX
    modifies cache
    ensures CacheOk(cache[..], held', geo, ls + [l])
    ensures hit == Hits(geo, ls, l) && evicted == Evicts(geo, ls, l)
  {
    ghost var c := cache[..];
    var i := l % geo.sets;
    assert SetOk(c, held, geo, ls, i);
    WaysFit(geo, i);
    hit, evicted, held' := AccessSet(cache, held, geo, ls, i, l, l / geo.sets, counter, Start(geo, i), Ways(geo, i));
    AccessOk(c, held, cache[..], held', geo, ls, l, i);
  }

  /** The entries of a set that lie inside the truncated array. */
  predicate Fits(geo: Geometry, start: nat, w: nat) {
    && w <= geo.assoc && (w == 0 <==> geo.cap <= start)
    && (w > 0 ==> start + w <= geo.cap) && (w < geo.assoc ==> geo.cap <= start + w)
  }

  /** One access within the set at `start`, of which the array has `w` entries. */
  method AccessSet(cache: array<Line>, ghost held: seq<nat>, geo: Geometry, ghost ls: seq<nat>,
                   ghost i: nat, ghost l: nat, tag: nat, counter: nat, start: nat, ghost w: nat)
      returns (hit: bool, evicted: bool, ghost held': seq<nat>)
    requires Here(cache[..], held, ls, geo.sets, i, start, w) && geo.cap <= cache.Length && Fits(geo, start, w)
    requires counter == |ls| + 1 < U64_MAX && i == l % geo.sets && tag == l / geo.sets
    modifies cache
    ensures SameBut(old(cache[..]), cache[..], start, w) && SameBut(held, held', start, w)
    ensures Here(cache[..], held', ls + [l], geo.sets, i, start, w)
    ensures hit == (l in Kept(ls, geo.sets, i, w)) && evicted == (!hit && 0 < w <= |Stack(ls, geo.sets, i)|)
  {
    var at := Probe(cache, start, start + geo.assoc, geo.cap, tag);
    if at.Some? {
      hit, evicted, held' := true, false, held;
      Refresh(cache, held, geo, ls, i, l, tag, counter, start, w, at.value);
    } else {
      MissCase(cache[..], held, ls, geo.sets, i, l, tag, start, w);
      hit := false;
      evicted, held' := Replace(cache, held, geo, ls, i, l, tag, counter, start, w);
    }
  }

  /** What a hit does: stamp the entry with the counter. */
  method Refresh(cache: array<Line>, ghost held: seq<nat>, ghost geo: Geometry, ghost ls: seq<nat>,
                 ghost i: nat, ghost l: nat, ghost tag: nat, counter: nat, ghost start: nat, ghost w: nat, at: nat)
    requires Here(cache[..], held, ls, geo.sets, i, start, w) && start <= at < start + w
    requires counter == |ls| + 1 && i == l % geo.sets && tag == l / geo.sets && cache[at].valid && cache[at].tag == tag
    modifies cache
    ensures SameBut(old(cache[..]), cache[..], start, w) && Here(cache[..], held, ls + [l], geo.sets, i, start, w)
    ensures l in Kept(ls, geo.sets, i, w)
  {
    ghost var c := cache[..];
    HitCase(c, held, ls, geo.sets, i, l, tag, start, w, at, c[at].(lru := counter));
    cache[at] := cache[at].(lru := counter);
    assert cache[..] == c[at := cache[at]];
  }

  /** What a miss does: take an empty entry, else the one used longest ago, else nothing. */
  method Replace(cache: array<Line>, ghost held: seq<nat>, geo: Geometry, ghost ls: seq<nat>,
                 ghost i: nat, ghost l: nat, tag: nat, counter: nat, start: nat, ghost w: nat)
      returns (evicted: bool, ghost held': seq<nat>)
    requires Here(cache[..], held, ls, geo.sets, i, start, w) && geo.cap <= cache.Length && Fits(geo, start, w)
    requires counter == |ls| + 1 < U64_MAX && i == l % geo.sets && tag == l / geo.sets && l !in Kept(ls, geo.sets, i, w)
    modifies cache
    ensures SameBut(old(cache[..]), cache[..], start, w) && SameBut(held, held', start, w)
    ensures Here(cache[..], held', ls + [l], geo.sets, i, start, w)
    ensures evicted == (0 < w <= |Stack(ls, geo.sets, i)|)
  {
    ghost var c := cache[..];
    CountersBounded(c, held, ls, geo.sets, i, start, w);
    held', evicted := held, false;
    var empty, oldest := Victim(cache, start, start + geo.assoc, geo.cap);
    if empty.Some? {
      FillCase(c, held, ls, geo.sets, i, l, start, w, empty.value, Line(true, tag, counter));
      cache[empty.value] := Line(true, tag, counter);
      held' := held[empty.value := l];
      assert cache[..] == c[empty.value := cache[empty.value]];
    } else if oldest < geo.cap {
      EvictCase(c, held, ls, geo.sets, i, l, start, w, oldest, c[oldest].(tag := tag, lru := counter));
      cache[oldest] := cache[oldest].(tag := tag, lru := counter);
      held' := held[oldest := l];
      evicted := true;
      assert cache[..] == c[oldest := cache[oldest]];
    }
  }

  /** `simulate_cache`: its counters are those of least-recently-used replacement. A zero line size
      divides by zero as soon as there is an address to look up. */
  method SimulateCache(cfg: Config, addrs: seq<nat>) returns (stats: Stats)
    requires cfg.lineBytes > 0 || Degenerate(cfg) || addrs == []
    requires |addrs| + 1 < U64_MAX
    ensures Degenerate(cfg) || addrs == [] ==> stats == Stats(0, 0, 0, 0)
    ensures stats.accesses == if cfg.assoc == 0 || cfg.numLines == 0 || cfg.assoc > cfg.numLines then 0 else |addrs|
    ensures !Degenerate(cfg) && addrs != [] ==> stats == Count(Shape(cfg), LinesOf(addrs, cfg.lineBytes))
    ensures !Degenerate(cfg) && addrs != [] ==>
              var ls := LinesOf(addrs, cfg.lineBytes);
              && stats.accesses == |addrs| && stats.hits + stats.misses == |addrs|
              && stats.hits == |HitTimes(cfg, ls, |ls|)| && stats.evictions == |EvictTimes(cfg, ls, |ls|)|
  {
    stats := Stats(0, 0, 0, 0);
    if !Degenerate(cfg) && addrs != [] {
      ghost var ls := LinesOf(addrs, cfg.lineBytes);
      CountTimes(cfg, ls, |ls|);
      assert ls[..|ls|] == ls;
      stats := Simulate(Shape(cfg), cfg.lineBytes, addrs);
    }
  }

  method Simulate(geo: Geometry, lineBytes: nat, addrs: seq<nat>) returns (stats: Stats)
    requires geo.sets > 0 && geo.assoc > 0 && geo.cap <= MAX_LINES && lineBytes > 0 && |addrs| + 1 < U64_MAX
    ensures stats == Count(geo, LinesOf(addrs, lineBytes))
  {
    stats := Stats(0, 0, 0, 0);
    var cache := new Line[MAX_LINES](_ => Line(false, 0, 0));
    ghost var held := seq(MAX_LINES, _ => 0);
    ghost var ls := LinesOf(addrs, lineBytes);
    EmptyOk(cache[..], held, geo);
    assert ls[..0] == [];
    for t := 0 to |addrs|
      invariant CacheOk(cache[..], held, geo, ls[..t]) && stats == Count(geo, ls[..t])
    {
      var hit, evicted;
      hit, evicted, held := Access(cache, held, geo, ls[..t], addrs[t] / lineBytes, t + 1);
      CountStep(geo, ls, t);
      stats := if hit then Stats(stats.accesses + 1, stats.hits + 1, stats.misses, stats.evictions)
      else Stats(stats.accesses + 1, stats.hits, stats.misses + 1, stats.evictions + if evicted then 1 else 0);
    }
    assert ls[..|addrs|] == ls;
  }

  lemma CountStep(geo: Geometry, ls: seq<nat>, t: nat)
    requires geo.sets > 0 && t < |ls|
    ensures ls[..t + 1] == ls[..t] + [ls[t]]
    ensures var r := Count(geo, ls[..t]);
            Count(geo, ls[..t + 1]) ==
            if Hits(geo, ls[..t], ls[t]) then Stats(r.accesses + 1, r.hits + 1, r.misses, r.evictions)
            else Stats(r.accesses + 1, r.hits, r.misses + 1, r.evictions + if Evicts(geo, ls[..t], ls[t]) then 1 else 0)
  {
  }

  lemma EmptyOk(c: seq<Line>, held: seq<nat>, geo: Geometry)
    requires geo.sets > 0 && geo.assoc > 0 && geo.cap <= MAX_LINES
    requires |c| == |held| == MAX_LINES && forall k :: 0 <= k < |c| ==> !c[k].valid
    ensures CacheOk(c, held, geo, [])
  {
  }
}
