/** The fixed tables of the distribution layer: key-value slots taken from the front, searched from
    the front, overwritten in place and never given back. */
module Slots {
  import opened Core

  /** A table of optional key-value slots, searched from the front. */
  type Entries<+T> = seq<Option<(nat, T)>>

  function Find<T>(es: Entries<T>, key: nat): Option<T> {
    if es == [] then None
    else if es[0].Some? && es[0].value.0 == key then Some(es[0].value.1)
    else Find(es[1..], key)
  }

  ghost predicate HasFree<T>(es: Entries<T>) {
    exists i :: 0 <= i < |es| && es[i].None?
  }

  /** Slots are taken from the front and never given back. */
  ghost predicate Compact<T>(es: Entries<T>) {
    forall i, j :: 0 <= i < j < |es| && es[j].Some? ==> es[i].Some?
  }

  /** No key sits in two slots. */
  ghost predicate OneEach<T>(es: Entries<T>) {
    forall i, j :: 0 <= i < j < |es| && es[i].Some? && es[j].Some? ==> es[i].value.0 != es[j].value.0
  }

  /** `host`: take the first free slot; with none free the value is dropped. */
  function Fill<T>(es: Entries<T>, key: nat, v: T): (r: Entries<T>)
    ensures |r| == |es|
  {
    if es == [] then []
    else if es[0].None? then es[0 := Some((key, v))]
    else [es[0]] + Fill(es[1..], key, v)
  }

  /** Overwriting the first slot of a key. */
  function Overwrite<T>(es: Entries<T>, key: nat, v: T): (r: Entries<T>)
    ensures |r| == |es|
  {
    if es == [] then []
    else if es[0].Some? && es[0].value.0 == key then es[0 := Some((key, v))]
    else [es[0]] + Overwrite(es[1..], key, v)
  }

  /** `ServiceRegistry::set`. */
  function Set<T>(es: Entries<T>, key: nat, v: T): Entries<T> {
    if Find(es, key).Some? then Overwrite(es, key, v) else Fill(es, key, v)
  }

  lemma {:induction false} FreeFindsNone<T>(es: Entries<T>, k: nat)
    requires forall i :: 0 <= i < |es| ==> es[i].None?
    ensures Find(es, k) == None
  {
    if es != [] {
      FreeFindsNone(es[1..], k);
    }
  }

  lemma {:induction false} FoundIn<T>(es: Entries<T>, k: nat)
    ensures Find(es, k).Some? <==> exists i :: 0 <= i < |es| && es[i].Some? && es[i].value.0 == k
  {
    if es != [] {
      FoundIn(es[1..], k);
      assert forall i :: 0 <= i < |es[1..]| ==> es[1..][i] == es[i + 1];
      if Find(es, k).Some? && !(es[0].Some? && es[0].value.0 == k) {
        var i :| 0 <= i < |es[1..]| && es[1..][i].Some? && es[1..][i].value.0 == k;
        assert es[i + 1].value.0 == k;
      }
      if i :| 0 <= i < |es| && es[i].Some? && es[i].value.0 == k {
        assert i > 0 ==> es[1..][i - 1] == es[i];
      }
    }
  }

  /** Filling a slot: an earlier entry for the key keeps winning; a new key is found exactly if a
      slot was free; other keys are as before. */
  lemma {:induction false} FillFinds<T>(es: Entries<T>, key: nat, v: T, k: nat)
    requires Compact(es)
    ensures Compact(Fill(es, key, v))
    ensures Find(Fill(es, key, v), k) ==
            if k == key && Find(es, key).None? && HasFree(es) then Some(v) else Find(es, k)
  {
    if es != [] {
      assert forall i :: 0 <= i < |es[1..]| ==> es[1..][i] == es[i + 1];
      if es[0].None? {
        assert es[0 := Some((key, v))][1..] == es[1..];
        FreeFindsNone(es, k);
        FreeFindsNone(es, key);
        FreeFindsNone(es[1..], k);
      } else {
        FillFinds(es[1..], key, v, k);
        var rest := Fill(es[1..], key, v);
        assert ([es[0]] + rest)[1..] == rest;
        HasFreeTail(es);
      }
    }
  }

  /** Filling touches at most one slot. */
  lemma {:induction false} FillSlot<T>(es: Entries<T>, key: nat, v: T, i: nat)
    requires i < |es|
    ensures Fill(es, key, v)[i] == es[i] || Fill(es, key, v)[i] == Some((key, v))
  {
    if es[0].Some? && i > 0 {
      FillSlot(es[1..], key, v, i - 1);
    }
  }

  lemma HasFreeTail<T>(es: Entries<T>)
    requires es != [] && es[0].Some?
    ensures HasFree(es) <==> HasFree(es[1..])
  {
  }

  lemma {:induction false} OverwriteFinds<T>(es: Entries<T>, key: nat, v: T, k: nat)
    ensures Find(Overwrite(es, key, v), k) == if k == key && Find(es, key).Some? then Some(v) else Find(es, k)
    ensures forall i :: 0 <= i < |es| ==> var o := Overwrite(es, key, v)[i];
              (o.Some? <==> es[i].Some?) && (o.Some? ==> o.value.0 == es[i].value.0)
  {
    if es != [] {
      OverwriteFinds(es[1..], key, v, k);
      if es[0].Some? && es[0].value.0 == key {
        assert es[0 := Some((key, v))][1..] == es[1..];
      } else {
        assert ([es[0]] + Overwrite(es[1..], key, v))[1..] == Overwrite(es[1..], key, v);
      }
    }
  }

  lemma {:induction false} FillOneEach<T>(es: Entries<T>, key: nat, v: T)
    requires OneEach(es) && Find(es, key).None?
    ensures OneEach(Fill(es, key, v))
    ensures forall i :: 0 <= i < |es| ==> var o := Fill(es, key, v)[i]; o == es[i] || (o.Some? && o.value.0 == key)
  {
    FoundIn(es, key);
    if es != [] && es[0].Some? {
      assert forall i :: 0 <= i < |es[1..]| ==> es[1..][i] == es[i + 1];
      FoundIn(es[1..], key);
      FillOneEach(es[1..], key, v);
    }
  }

  /** After `set`, the service resolves to the new location exactly when it was registered before
      or a slot was free; other services are as before, and no service is entered twice. */
  lemma SetFinds<T>(es: Entries<T>, key: nat, v: T, k: nat)
    requires Compact(es) && OneEach(es)
    ensures Compact(Set(es, key, v)) && OneEach(Set(es, key, v)) && |Set(es, key, v)| == |es|
    ensures Find(Set(es, key, v), k) ==
            if k == key && (Find(es, key).Some? || HasFree(es)) then Some(v) else Find(es, k)
  {
    if Find(es, key).Some? {
      OverwriteFinds(es, key, v, k);
    } else {
      FillFinds(es, key, v, k);
      FillOneEach(es, key, v);
    }
  }
}
