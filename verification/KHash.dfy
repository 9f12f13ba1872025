/** The open-addressing hash table behind every table of the library
    (paxos/include/khash.h): integer keys, tombstones, triangular probing and
    an in-place rehash that kicks entries out of their old buckets. */
module KHash {
  import opened Probing
  import opened Types

  /** The two flag bits of a bucket. */
  datatype Flag = Empty | Deleted | Live

  /** The load bound `(khint_t)(n * 0.77 + 0.5)`. */
  function UpperBound(n: nat): nat {
    (77 * n + 50) / 100
  }

  /** That is 0.77 of the buckets, rounded to the nearest integer. */
  lemma LoadIsRounded(n: nat)
    ensures -0.5 < UpperBound(n) as real - 0.77 * n as real <= 0.5
  {
    var x := 77 * n + 50;
    assert x == 100 * (x / 100) + x % 100;
    assert x as real == 100.0 * (x / 100) as real + (x % 100) as real;
  }

  /** A table at its load bound is more than half full and still has an empty bucket. */
  lemma UpperBoundRange(n: nat)
    requires 4 <= n
    ensures n / 2 < UpperBound(n) < n
    ensures n + 1 < UpperBound(2 * n)
  {
  }

  /** `kroundup32`: the least power of two not below `x` (and 0 for 0). */
  function RoundUp(x: nat): (r: nat)
    ensures x == 0 ==> r == 0
    ensures 0 < x ==> IsPow2(r) && x <= r < 2 * x
  {
    if x <= 1 then x else 2 * RoundUp((x + 1) / 2)
  }

  /** The bucket count kh_resize settles on for a requested count. */
  function NewBuckets(request: nat): (n: nat)
    ensures IsPow2(n) && 4 <= n && request <= n
  {
    var r := RoundUp(request);
    if r < 4 then
      assert IsPow2(4) by { assert IsPow2(2) by { assert IsPow2(1); } }
      4
    else r
  }

  lemma {:induction false} Pow2Gap(a: nat, b: nat)
    requires IsPow2(a) && IsPow2(b) && a < b
    ensures 2 * a <= b
  {
    if a != 1 {
      Pow2Gap(a / 2, b / 2);
    }
  }

  /** The two requests kh_put makes: one less keeps the bucket count, one more doubles it. */
  lemma ResizeRequests(n: nat)
    requires n == 0 || (4 <= n && IsPow2(n))
    ensures n == 0 ==> NewBuckets(1) == 4 && 0 < UpperBound(4)
    ensures n != 0 ==> NewBuckets(n - 1) == n && NewBuckets(n + 1) == 2 * n
    ensures n != 0 ==> n / 2 < UpperBound(n) < n && n < UpperBound(2 * n)
  {
    hide IsPow2, RoundUp;
    assert NewBuckets(1) == 4 by { assert RoundUp(1) <= 1; }
    if n != 0 {
      UpperBoundRange(n);
      Pow2Double(n);
      RoundUpUnique(n - 1, n);
      RoundUpUnique(n + 1, 2 * n);
    }
  }

  /** The doubling range above `x` holds only one power of two. */
  lemma RoundUpUnique(x: nat, r: nat)
    requires 0 < x && IsPow2(r) && x <= r < 2 * x
    ensures RoundUp(x) == r
  {
    hide RoundUp, IsPow2;
    if RoundUp(x) < r {
      Pow2Gap(RoundUp(x), r);
    } else if r < RoundUp(x) {
      Pow2Gap(r, RoundUp(x));
    }
  }

  // ---------- What a table of buckets means ----------

  /** Every probe before step `s` hits a used bucket. */
  ghost predicate NoGap(fs: seq<Flag>, key: nat, s: nat)
    requires 0 < |fs|
  {
    forall t: nat :: t < s ==> fs[Probe(key, t, |fs|)] != Empty
  }

  /** A search for `key` gets to bucket `i` without meeting an empty bucket. */
  ghost predicate Reachable(fs: seq<Flag>, key: nat, i: nat)
    requires 0 < |fs|
  {
    exists s: nat :: s < |fs| && Probe(key, s, |fs|) == i && NoGap(fs, key, s)
  }

  ghost predicate LiveAt(fs: seq<Flag>, i: int) {
    0 <= i < |fs| && fs[i] == Live
  }

  ghost predicate AllReachable(fs: seq<Flag>, ks: seq<nat>)
    requires |fs| <= |ks|
  {
    forall i :: LiveAt(fs, i) ==> Reachable(fs, ks[i], i)
  }

  /** `loc` is the inverse of the live buckets: each key sits in exactly one of them. */
  ghost predicate Located(fs: seq<Flag>, ks: seq<nat>, loc: map<nat, nat>)
    requires |fs| <= |ks|
  {
    && (forall i :: LiveAt(fs, i) ==> ks[i] in loc && loc[ks[i]] == i)
    && (forall k :: k in loc ==> LiveAt(fs, loc[k]) && ks[loc[k]] == k)
  }

  ghost predicate ValuesAt<V>(vs: seq<V>, loc: map<nat, nat>, m: map<nat, V>) {
    loc.Keys == m.Keys && forall k :: k in m ==> loc[k] < |vs| && vs[loc[k]] == m[k]
  }

  /** The live buckets hold exactly the finite map `m`, each key once and reachable. */
  ghost predicate Represents<V>(fs: seq<Flag>, ks: seq<nat>, vs: seq<V>, loc: map<nat, nat>, m: map<nat, V>) {
    && |fs| == |ks| == |vs|
    && Located(fs, ks, loc)
    && ValuesAt(vs, loc, m)
    && AllReachable(fs, ks)
    && |m| == multiset(fs)[Live]
  }

  lemma ReachableMonotone(fs: seq<Flag>, gs: seq<Flag>, key: nat, i: nat)
    requires 0 < |fs| == |gs| && Reachable(fs, key, i)
    requires forall j :: 0 <= j < |fs| && fs[j] != Empty ==> gs[j] != Empty
    ensures Reachable(gs, key, i)
  {
    var s: nat :| s < |fs| && Probe(key, s, |fs|) == i && NoGap(fs, key, s);
    assert NoGap(gs, key, s);
  }

  lemma AllReachablePlace(fs: seq<Flag>, ks: seq<nat>, x: nat, key: nat)
    requires x < |fs| <= |ks| && AllReachable(fs, ks) && Reachable(fs, key, x)
    ensures AllReachable(fs[x := Live], ks[x := key])
  {
    var gs, ls := fs[x := Live], ks[x := key];
    forall i | LiveAt(gs, i) ensures Reachable(gs, ls[i], i) {
      assert i != x ==> LiveAt(fs, i);
      ReachableMonotone(fs, gs, ls[i], i);
    }
  }

  lemma AllReachableDelete(fs: seq<Flag>, ks: seq<nat>, x: nat)
    requires x < |fs| <= |ks| && AllReachable(fs, ks) && fs[x] == Live
    ensures AllReachable(fs[x := Deleted], ks)
  {
    var gs := fs[x := Deleted];
    forall i | LiveAt(gs, i) ensures Reachable(gs, ks[i], i) {
      assert LiveAt(fs, i);
      ReachableMonotone(fs, gs, ks[i], i);
    }
  }

  // ---------- Searching ----------

  /** The first `s` probes met no empty bucket and no live bucket holding `key`. */
  ghost predicate Missed(fs: seq<Flag>, ks: seq<nat>, key: nat, s: nat)
    requires 0 < |fs| == |ks|
  {
    forall t: nat :: t < s ==>
      var i := Probe(key, t, |fs|); fs[i] != Empty && !(fs[i] == Live && ks[i] == key)
  }

  /** Stopping at an empty bucket, or after all buckets, proves the key absent. */
  lemma AbsentAfterMisses(fs: seq<Flag>, ks: seq<nat>, loc: map<nat, nat>, key: nat, s: nat)
    requires 0 < |fs| == |ks| && Located(fs, ks, loc) && AllReachable(fs, ks) && Missed(fs, ks, key, s)
    requires |fs| <= s || fs[Probe(key, s, |fs|)] == Empty
    ensures key !in loc
  {
    hide AllReachable, Probe;
    if key in loc {
      var t := PathTo(fs, ks, loc, key);
      assert fs[Probe(key, t, |fs|)] == Live;
    }
  }

  lemma PathTo(fs: seq<Flag>, ks: seq<nat>, loc: map<nat, nat>, key: nat) returns (t: nat)
    requires 0 < |fs| == |ks| && Located(fs, ks, loc) && AllReachable(fs, ks) && key in loc
    ensures t < |fs| && Probe(key, t, |fs|) == loc[key] && NoGap(fs, key, t)
  {
    assert Reachable(fs, ks[loc[key]], loc[key]);
    t :| t < |fs| && Probe(key, t, |fs|) == loc[key] && NoGap(fs, key, t);
  }

  // ---------- Changing one bucket ----------

  ghost function Empties(fs: seq<Flag>): nat {
    multiset(fs)[Empty]
  }

  lemma EmptiesOccupied(fs: seq<Flag>, x: nat)
    requires x < |fs| && fs[x] != Live
    ensures Empties(fs[x := Live]) == if fs[x] == Empty then Empties(fs) - 1 else Empties(fs)
  {
  }

  lemma RepresentsInsert<V>(fs: seq<Flag>, ks: seq<nat>, vs: seq<V>, loc: map<nat, nat>, m: map<nat, V>, key: nat, x: nat)
    requires Represents(fs, ks, vs, loc, m) && x < |fs| && fs[x] != Live
    requires key !in m && Reachable(fs, key, x)
    ensures Represents(fs[x := Live], ks[x := key], vs, loc[key := x], m[key := vs[x]])
  {
    hide AllReachable, Reachable, Located;
    AllReachablePlace(fs, ks, x, key);
    LocatedInsert(fs, ks, loc, key, x);
  }

  lemma LocatedInsert(fs: seq<Flag>, ks: seq<nat>, loc: map<nat, nat>, key: nat, x: nat)
    requires |fs| <= |ks| && Located(fs, ks, loc) && x < |fs| && fs[x] != Live && key !in loc
    ensures Located(fs[x := Live], ks[x := key], loc[key := x])
  {
    assert forall i :: LiveAt(fs[x := Live], i) ==> i == x || LiveAt(fs, i);
  }

  lemma RepresentsDelete<V>(fs: seq<Flag>, ks: seq<nat>, vs: seq<V>, loc: map<nat, nat>, m: map<nat, V>, x: nat)
    requires Represents(fs, ks, vs, loc, m) && LiveAt(fs, x)
    ensures Represents(fs[x := Deleted], ks, vs, loc - {ks[x]}, m - {ks[x]})
    ensures |m - {ks[x]}| == |m| - 1
  {
    hide AllReachable, Located;
    LiveEntry(fs, ks, vs, loc, m, x);
    assert |m - {ks[x]}| == |m| - 1 by { assert m.Keys == (m - {ks[x]}).Keys + {ks[x]}; }
    AllReachableDelete(fs, ks, x);
    LocatedDelete(fs, ks, loc, x);
  }

  lemma LocatedDelete(fs: seq<Flag>, ks: seq<nat>, loc: map<nat, nat>, x: nat)
    requires |fs| <= |ks| && Located(fs, ks, loc) && LiveAt(fs, x)
    ensures Located(fs[x := Deleted], ks, loc - {ks[x]})
  {
    assert forall i :: LiveAt(fs[x := Deleted], i) ==> LiveAt(fs, i);
  }

  lemma RepresentsAssign<V>(fs: seq<Flag>, ks: seq<nat>, vs: seq<V>, loc: map<nat, nat>, m: map<nat, V>, x: nat, v: V)
    requires Represents(fs, ks, vs, loc, m) && LiveAt(fs, x)
    ensures Represents(fs, ks, vs[x := v], loc, m[ks[x] := v])
  {
    assert m[ks[x] := v].Keys == m.Keys;
  }

  // ---------- The rehash, with old and new flags over shared arrays ----------

  ghost predicate Held(before: seq<Flag>, after: seq<Flag>, i: int) {
    LiveAt(before, i) || LiveAt(after, i)
  }

  ghost predicate Shared(before: seq<Flag>, after: seq<Flag>, ks: seq<nat>, loc: map<nat, nat>)
    requires |before| <= |ks| && |after| <= |ks|
  {
    && (forall i :: Held(before, after, i) ==> ks[i] in loc && loc[ks[i]] == i)
    && (forall k :: k in loc ==> Held(before, after, loc[k]) && ks[loc[k]] == k)
  }

  /** Between kick-outs: entries still under the old flags and entries already placed
      under the new flags share the arrays and together hold exactly `m`. */
  ghost predicate Stored<V>(before: seq<Flag>, after: seq<Flag>, ks: seq<nat>, vs: seq<V>, loc: map<nat, nat>, m: map<nat, V>) {
    && |before| <= |ks| == |vs|
    && 0 < |after| <= |ks|
    && Deleted !in after
    && (forall i :: LiveAt(after, i) ==> !LiveAt(before, i))
    && Shared(before, after, ks, loc)
    && ValuesAt(vs, loc, m)
    && AllReachable(after, ks)
    && |m| == multiset(before)[Live] + multiset(after)[Live]
  }

  lemma StoredStart<V>(fs: seq<Flag>, after: seq<Flag>, ks: seq<nat>, vs: seq<V>, loc: map<nat, nat>, m: map<nat, V>)
    requires |fs| <= |ks| == |vs| && 0 < |after| <= |ks|
    requires Represents(fs, ks[..|fs|], vs[..|fs|], loc, m)
    requires forall i :: 0 <= i < |after| ==> after[i] == Empty
    ensures Stored(fs, after, ks, vs, loc, m)
  {
    assert Live !in after;
  }

  lemma StoredTakeOut<V>(before: seq<Flag>, after: seq<Flag>, ks: seq<nat>, vs: seq<V>, loc: map<nat, nat>, m: map<nat, V>, j: nat)
    requires Stored(before, after, ks, vs, loc, m) && LiveAt(before, j)
    ensures Stored(before[j := Deleted], after, ks, vs, loc - {ks[j]}, m - {ks[j]})
  {
    assert |m - {ks[j]}| == |m| - 1 by { assert m.Keys == (m - {ks[j]}).Keys + {ks[j]}; }
    SharedTakeOut(before, after, ks, loc, j);
  }

  lemma SharedTakeOut(before: seq<Flag>, after: seq<Flag>, ks: seq<nat>, loc: map<nat, nat>, j: nat)
    requires |before| <= |ks| && |after| <= |ks| && Shared(before, after, ks, loc)
    requires LiveAt(before, j) && !LiveAt(after, j)
    ensures Shared(before[j := Deleted], after, ks, loc - {ks[j]})
  {
    var before' := before[j := Deleted];
    assert Held(before, after, j);
    assert forall i :: Held(before', after, i) ==> Held(before, after, i) && i != j;
    assert forall i :: Held(before, after, i) && i != j ==> Held(before', after, i);
  }

  lemma StoredPlace<V>(before: seq<Flag>, after: seq<Flag>, ks: seq<nat>, vs: seq<V>, loc: map<nat, nat>, m: map<nat, V>,
                       i: nat, key: nat, val: V)
    requires Stored(before, after, ks, vs, loc, m) && i < |after| && after[i] == Empty && !LiveAt(before, i)
    requires key !in m && Reachable(after, key, i)
    ensures Stored(before, after[i := Live], ks[i := key], vs[i := val], loc[key := i], m[key := val])
  {
    AllReachablePlace(after, ks, i, key);
    SharedPlace(before, after, ks, loc, i, key);
  }

  lemma SharedPlace(before: seq<Flag>, after: seq<Flag>, ks: seq<nat>, loc: map<nat, nat>, i: nat, key: nat)
    requires |before| <= |ks| && |after| <= |ks| && Shared(before, after, ks, loc)
    requires i < |after| && !Held(before, after, i) && key !in loc
    ensures Shared(before, after[i := Live], ks[i := key], loc[key := i])
  {
    var after' := after[i := Live];
    assert forall j :: Held(before, after', j) ==> j == i || Held(before, after, j);
    assert forall j :: Held(before, after, j) ==> Held(before, after', j) && j != i;
    assert Held(before, after', i);
  }

  /** One kick: the entry in bucket `i` gives way to the entry in hand. */
  lemma StoredKick<V>(before: seq<Flag>, after: seq<Flag>, ks: seq<nat>, vs: seq<V>, loc: map<nat, nat>, m: map<nat, V>,
                      i: nat, key: nat, val: V)
    requires key in m && m[key] == val && Stored(before, after, ks, vs, loc, m - {key})
    requires i < |after| && after[i] == Empty && LiveAt(before, i) && Reachable(after, key, i)
    ensures ks[i] in m && m[ks[i]] == vs[i]
    ensures Stored(before[i := Deleted], after[i := Live], ks[i := key], vs[i := val], (loc - {ks[i]})[key := i], m - {ks[i]})
  {
    assert Held(before, after, i);
    StoredTakeOut(before, after, ks, vs, loc, m - {key}, i);
    StoredPlace(before[i := Deleted], after, ks, vs, loc - {ks[i]}, m - {key} - {ks[i]}, i, key, val);
    assert (m - {key} - {ks[i]})[key := val] == m - {ks[i]};
  }

  lemma StoredDone<V>(before: seq<Flag>, after: seq<Flag>, ks: seq<nat>, vs: seq<V>, loc: map<nat, nat>, m: map<nat, V>)
    requires Stored(before, after, ks, vs, loc, m) && Live !in before
    ensures Represents(after, ks[..|after|], vs[..|after|], loc, m)
  {
    var ls := ks[..|after|];
    assert forall i :: Held(before, after, i) <==> LiveAt(after, i);
    assert forall i :: LiveAt(after, i) ==> ls[i] == ks[i];
  }

  lemma StoredEntry<V>(before: seq<Flag>, after: seq<Flag>, ks: seq<nat>, vs: seq<V>, loc: map<nat, nat>, m: map<nat, V>, j: nat)
    requires Stored(before, after, ks, vs, loc, m) && LiveAt(before, j)
    ensures ks[j] in m && m[ks[j]] == vs[j]
  {
    assert Held(before, after, j);
  }

  lemma RepresentsSize<V>(fs: seq<Flag>, ks: seq<nat>, vs: seq<V>, loc: map<nat, nat>, m: map<nat, V>)
    requires Represents(fs, ks, vs, loc, m)
    ensures |m| == multiset(fs)[Live]
  {
  }

  lemma {:induction false} LiveAmongUsed(fs: seq<Flag>)
    ensures multiset(fs)[Live] + Empties(fs) <= |fs|
  {
    if fs != [] {
      assert fs == [fs[0]] + fs[1..];
      LiveAmongUsed(fs[1..]);
    }
  }

  lemma LiveEntry<V>(fs: seq<Flag>, ks: seq<nat>, vs: seq<V>, loc: map<nat, nat>, m: map<nat, V>, x: nat)
    requires Represents(fs, ks, vs, loc, m) && x < |fs| && fs[x] == Live
    ensures ks[x] in m && m[ks[x]] == vs[x]
  {
    assert LiveAt(fs, x);
  }

  /** Without tombstones, the used buckets are the live ones. */
  lemma {:induction false} UsedAreLive(fs: seq<Flag>)
    requires Deleted !in fs
    ensures multiset(fs)[Live] + Empties(fs) == |fs|
  {
    if fs != [] {
      assert fs == [fs[0]] + fs[1..];
      assert fs[0] in fs && fs[0] != Deleted;
      UsedAreLive(fs[1..]);
    }
  }

  /** While something is still in hand, the new table has an empty bucket. */
  lemma StoredRoom<V>(before: seq<Flag>, after: seq<Flag>, ks: seq<nat>, vs: seq<V>, loc: map<nat, nat>, m: map<nat, V>, key: nat)
    requires key in m && |m| <= |after| && Stored(before, after, ks, vs, loc, m - {key})
    ensures Empty in after
  {
    assert |m - {key}| == |m| - 1 by { assert m.Keys == (m - {key}).Keys + {key}; }
    RoomLeft(after);
  }

  lemma RoomLeft(fs: seq<Flag>)
    requires multiset(fs)[Live] < |fs| && Deleted !in fs
    ensures Empty in fs
  {
    if Empty !in fs {
      forall i | 0 <= i < |fs| ensures fs[i] == Live {
        assert fs[i] in fs;
      }
      AllLive(fs);
    }
  }

  lemma {:induction false} AllLive(fs: seq<Flag>)
    requires forall i :: 0 <= i < |fs| ==> fs[i] == Live
    ensures multiset(fs)[Live] == |fs|
  {
    if fs != [] {
      AllLive(fs[1..]);
      assert fs == [fs[0]] + fs[1..];
    }
  }

  lemma Overwrite<V>(m: map<nat, V>, k: nat, a: V, b: V)
    ensures m[k := a][k := b] == m[k := b]
  {
  }

  // ---------- Deleting while walking over the buckets ----------

  /** The keys of `drop` that sit before bucket `k`. */
  ghost function Passed(drop: set<nat>, loc: map<nat, nat>, k: nat): set<nat> {
    set x | x in drop && x in loc && loc[x] < k
  }

  ghost function Restrict<V>(m: map<nat, V>, s: set<nat>): map<nat, V> {
    map x | x in m && x in s :: m[x]
  }

  /** Walking past bucket `k` removes its key if that is to be dropped. */
  lemma PassedStep<V>(m: map<nat, V>, drop: set<nat>, loc: map<nat, nat>, k: nat, key: nat)
    requires forall x :: x in loc && loc[x] == k ==> x == key
    ensures var kept := m - Passed(drop, loc, k);
            m - Passed(drop, loc, k + 1) == if key in loc && loc[key] == k && key in drop then kept - {key} else kept
    ensures var gone := Restrict(m, Passed(drop, loc, k));
            if key in loc && loc[key] == k && key in drop && key in m
            then key !in gone && Restrict(m, Passed(drop, loc, k + 1)) == gone[key := m[key]]
            else Restrict(m, Passed(drop, loc, k + 1)) == gone
  {
  }

  lemma PassedNone<V>(m: map<nat, V>, drop: set<nat>, loc: map<nat, nat>)
    ensures m - Passed(drop, loc, 0) == m && Restrict(m, Passed(drop, loc, 0)) == map[]
  {
  }

  lemma PassedAll(drop: set<nat>, loc: map<nat, nat>, n: nat)
    requires drop <= loc.Keys && forall x :: x in loc ==> loc[x] < n
    ensures Passed(drop, loc, n) == drop
  {
  }

  // ---------- The table ----------

  class Table<V(0)> {
    var nBuckets: nat
    var size: nat
    var nOccupied: nat
    var upperBound: nat
    var flags: array<Flag>
    var keys: array<nat>
    var vals: array<V>

    /** The finite map the table stands for, and the bucket of each of its keys. */
    ghost var Map: map<nat, V>
    ghost var Loc: map<nat, nat>
    ghost var Repr: set<object>

    ghost predicate Valid()
      reads this, Repr
      ensures Valid() ==> this in Repr && flags in Repr && keys in Repr && vals in Repr
      ensures Valid() ==> flags.Length == keys.Length == vals.Length == nBuckets && size == |Map|
      ensures Valid() ==> Separate(flags, keys, vals)
    {
      && Repr == {this, flags, keys, vals}
      && Separate(flags, keys, vals)
      && flags.Length == keys.Length == vals.Length == nBuckets
      && (nBuckets != 0 ==> 4 <= nBuckets && IsPow2(nBuckets))
      && upperBound == UpperBound(nBuckets)
      && size == |Map|
      && nOccupied + Empties(flags[..]) == nBuckets
      && nOccupied <= upperBound
      && Represents(flags[..], keys[..], vals[..], Loc, Map)
    }

    static ghost predicate Separate(flags: array<Flag>, keys: array<nat>, vals: array<V>) {
      flags as object != keys && flags as object != vals && keys as object != vals
    }

    constructor ()
      ensures Valid() && fresh(Repr)
      ensures Map == map[] && nBuckets == 0
    {
      nBuckets, size, nOccupied, upperBound := 0, 0, 0, 0;
      var f, k, v := new Flag[0], new nat[0], new V[0];
      flags, keys, vals := f, k, v;
      Map, Loc := map[], map[];
      Repr := {this, f, k, v};
      new;
      assert flags[..] == [] && keys[..] == [] && vals[..] == [];
    }

    /** Live buckets and entries correspond one to one. */
    lemma Bucketwise()
      requires Valid()
      ensures Loc.Keys == Map.Keys
      ensures forall i :: 0 <= i < nBuckets && flags[i] == Live ==>
                keys[i] in Map && Loc[keys[i]] == i && Map[keys[i]] == vals[i]
      ensures forall k :: k in Map ==> Loc[k] < nBuckets && flags[Loc[k]] == Live && keys[Loc[k]] == k
    {
      forall i | 0 <= i < nBuckets && flags[i] == Live ensures keys[i] in Map && Loc[keys[i]] == i && Map[keys[i]] == vals[i] {
        assert LiveAt(flags[..], i);
      }
    }

    /** What bucket `k` holds in the middle of a walk over the buckets that deletes the keys in `drop`. */
    lemma WalkFacts(m: map<nat, V>, loc: map<nat, nat>, drop: set<nat>, k: nat)
      requires Valid() && k < nBuckets && m.Keys == loc.Keys
      requires Map == m - Passed(drop, loc, k) && Loc == loc - Passed(drop, loc, k)
      ensures forall x :: x in loc && loc[x] == k ==> x == keys[k] && flags[k] == Live
      ensures flags[k] == Live ==> keys[k] in loc && loc[keys[k]] == k && m[keys[k]] == vals[k]
    {
      hide Valid;
      Bucketwise();
      forall x | x in loc && loc[x] == k ensures x == keys[k] && flags[k] == Live {
        assert x in Loc;
      }
    }

    /** kh_get: the bucket of the key, or kh_end when the key is absent. */
    method Get(key: nat) returns (x: nat)
      requires Valid()
      ensures x <= nBuckets
      ensures x == nBuckets <==> key !in Map
      ensures x < nBuckets ==> flags[x] == Live && keys[x] == key && vals[x] == Map[key]
    {
      if nBuckets == 0 {
        return 0;
      }
      x := Search(flags, keys, nBuckets, key, Loc);
      assert x < nBuckets ==> LiveAt(flags[..], x);
    }

    /** The probe loop of kh_get. */
    static method Search(flags: array<Flag>, keys: array<nat>, n: nat, key: nat, ghost loc: map<nat, nat>) returns (x: nat)
      requires flags.Length == keys.Length == n && IsPow2(n)
      requires Located(flags[..], keys[..], loc) && AllReachable(flags[..], keys[..])
      ensures x <= n
      ensures x == n <==> key !in loc
      ensures x < n ==> flags[x] == Live && keys[x] == key
    {
      ghost var fs, ks := flags[..], keys[..];
      var i, step := key % n, 0;
      var last := i;
      while flags[i] != Empty && (flags[i] == Deleted || keys[i] != key)
        invariant step < 2 * n - 1
        invariant i == Probe(key, step, n)
        invariant Missed(fs, ks, key, step)
        decreases 2 * n - step
      {
        ProbeNext(key, step, n);
        step := step + 1;
        i := (i + step) % n;
        if i == last {
          ReturnsLate(key, step, n);
          AbsentAfterMisses(fs, ks, loc, key, step);
          return n;
        }
        assert step != 2 * n - 1 by { ReturnsEventually(key, n); }
      }
      if flags[i] == Empty {
        AbsentAfterMisses(fs, ks, loc, key, step);
        return n;
      }
      assert LiveAt(fs, i);
      x := i;
    }

    /** The probe loop of kh_put: the key's bucket, or else where to insert it. */
    static method FindSlot(flags: array<Flag>, keys: array<nat>, n: nat, key: nat, ghost loc: map<nat, nat>) returns (x: nat)
      requires flags.Length == keys.Length == n && IsPow2(n) && Empty in flags[..]
      requires Located(flags[..], keys[..], loc) && AllReachable(flags[..], keys[..])
      ensures x < n
      ensures key in loc ==> flags[x] == Live && keys[x] == key
      ensures key !in loc ==> flags[x] != Live && Reachable(flags[..], key, x)
    {
      ghost var fs, ks := flags[..], keys[..];
      ghost var hole :| 0 <= hole < n && fs[hole] == Empty;
      ghost var end := ProbesCover(key, n, hole);
      x := n;
      var i, step := key % n, 0;
      var site: nat := n;
      if flags[i] == Empty {
        x := i;
      } else {
        var last := i;
        while flags[i] != Empty && (flags[i] == Deleted || keys[i] != key)
          invariant step <= end && x == n
          invariant i == Probe(key, step, n)
          invariant Missed(fs, ks, key, step)
          invariant site <= n && (site < n ==> flags[site] == Deleted && Reachable(fs, key, site))
          decreases end - step
        {
          if flags[i] == Deleted {
            site := i;
          }
          ProbeNext(key, step, n);
          step := step + 1;
          i := (i + step) % n;
          if i == last {
            ReturnsLate(key, step, n);
            assert false;
            x := site;
            break;
          }
        }
        if x == n {
          if flags[i] == Empty && site != n {
            x := site;
          } else {
            x := i;
          }
        }
      }
      assert NoGap(fs, key, step);
      if flags[i] == Empty {
        AbsentAfterMisses(fs, ks, loc, key, step);
      } else {
        assert LiveAt(fs, i);
      }
    }

    /** The probe loop of the rehash: the first bucket on the key's path still empty in the new flags. */
    static method FreeBucket(flags: array<Flag>, key: nat) returns (i: nat)
      requires IsPow2(flags.Length) && Empty in flags[..]
      ensures i < flags.Length && flags[i] == Empty && Reachable(flags[..], key, i)
    {
      var n := flags.Length;
      ghost var fs := flags[..];
      ghost var hole :| 0 <= hole < n && fs[hole] == Empty;
      ghost var end := ProbesCover(key, n, hole);
      var step := 0;
      i := key % n;
      while flags[i] != Empty
        invariant step <= end && i == Probe(key, step, n)
        invariant NoGap(fs, key, step)
        decreases end - step
      {
        ProbeNext(key, step, n);
        step := step + 1;
        i := (i + step) % n;
      }
    }

    /** One round of the kick-out loop: the entry in hand goes to its free bucket; if that bucket
        still holds an entry of the old table, that entry is the next one in hand. */
    static method PlaceEntry(before: array<Flag>, after: array<Flag>, keys: array<nat>, vals: array<V>,
                             key0: nat, val0: V, ghost loc0: map<nat, nat>, ghost m: map<nat, V>)
      returns (placed: bool, key: nat, val: V, ghost loc: map<nat, nat>)
      requires before != after && Separate(before, keys, vals) && Separate(after, keys, vals)
      requires IsPow2(after.Length) && Empty in after[..]
      requires key0 in m && m[key0] == val0
      requires Stored(before[..], after[..], keys[..], vals[..], loc0, m - {key0})
      modifies before, after, keys, vals
      ensures placed ==> before[..] == old(before[..]) && Stored(before[..], after[..], keys[..], vals[..], loc, m)
      ensures !placed ==> key in m && m[key] == val && Stored(before[..], after[..], keys[..], vals[..], loc, m - {key})
      ensures !placed ==> exists i :: LiveAt(old(before[..]), i) && before[..] == old(before[..])[i := Deleted]
    {
      hide Reachable, AllReachable, Shared, ValuesAt;
      key, val := key0, val0;
      ghost var bs, cs, ks, vs := before[..], after[..], keys[..], vals[..];
      var i := FreeBucket(after, key);
      after[i] := Live;
      if i < before.Length && before[i] == Live {
        StoredKick(bs, cs, ks, vs, loc0, m, i, key, val);
        loc := (loc0 - {keys[i]})[key := i];
        key, keys[i] := keys[i], key;
        val, vals[i] := vals[i], val;
        before[i] := Deleted;
        placed := false;
        assert LiveAt(bs, i) && before[..] == bs[i := Deleted];
      } else {
        StoredPlace(bs, cs, ks, vs, loc0, m - {key}, i, key, val);
        loc := loc0[key := i];
        keys[i], vals[i] := key, val;
        placed := true;
        assert before[..] == bs && m == (m - {key})[key := val];
      }
      assert after[..] == cs[i := Live] && keys[..] == ks[i := key0] && vals[..] == vs[i := val0];
    }

    /** The kick-out chain: place an entry, and then each entry it displaces. */
    static method KickOut(before: array<Flag>, after: array<Flag>, keys: array<nat>, vals: array<V>,
                          key0: nat, val0: V, ghost loc0: map<nat, nat>, ghost m: map<nat, V>)
      returns (ghost loc: map<nat, nat>)
      requires before != after && Separate(before, keys, vals) && Separate(after, keys, vals)
      requires IsPow2(after.Length) && |m| <= after.Length
      requires key0 in m && m[key0] == val0
      requires Stored(before[..], after[..], keys[..], vals[..], loc0, m - {key0})
      modifies before, after, keys, vals
      ensures Stored(before[..], after[..], keys[..], vals[..], loc, m)
      ensures forall j :: 0 <= j < before.Length && before[j] == Live ==> old(before[j]) == Live
    {
      hide Stored;
      var key, val := key0, val0;
      loc := loc0;
      var placed := false;
      while !placed
        invariant placed ==> Stored(before[..], after[..], keys[..], vals[..], loc, m)
        invariant !placed ==> key in m && m[key] == val && Stored(before[..], after[..], keys[..], vals[..], loc, m - {key})
        invariant forall j :: 0 <= j < before.Length && before[j] == Live ==> old(before[j]) == Live
        decreases !placed, multiset(before[..])[Live]
      {
        StoredRoom(before[..], after[..], keys[..], vals[..], loc, m, key);
        placed, key, val, loc := PlaceEntry(before, after, keys, vals, key, val, loc, m);
      }
    }

    /** The outer rehash loop: every entry moves from the old flags to the new ones. */
    static method Rehash(before: array<Flag>, after: array<Flag>, keys: array<nat>, vals: array<V>,
                         ghost loc0: map<nat, nat>, ghost m: map<nat, V>)
      returns (ghost loc: map<nat, nat>)
      requires before != after && Separate(before, keys, vals) && Separate(after, keys, vals)
      requires IsPow2(after.Length) && |m| <= after.Length
      requires Stored(before[..], after[..], keys[..], vals[..], loc0, m)
      modifies before, after, keys, vals
      ensures Stored(before[..], after[..], keys[..], vals[..], loc, m)
      ensures Live !in before[..] && Deleted !in after[..]
    {
      hide Reachable, AllReachable, Shared, ValuesAt;
      loc := loc0;
      var j := 0;
      while j != before.Length
        invariant 0 <= j <= before.Length
        invariant Stored(before[..], after[..], keys[..], vals[..], loc, m)
        invariant forall i :: 0 <= i < j ==> before[i] != Live
      {
        if before[j] == Live {
          var key, val := keys[j], vals[j];
          ghost var bs := before[..];
          before[j] := Deleted;
          assert before[..] == bs[j := Deleted];
          StoredEntry(bs, after[..], keys[..], vals[..], loc, m, j);
          StoredTakeOut(bs, after[..], keys[..], vals[..], loc, m, j);
          loc := KickOut(before, after, keys, vals, key, val, loc - {key}, m);
        }
        j := j + 1;
      }
    }

    /** krealloc of the key and value arrays: the common prefix survives. */
    static method Reallocate(keys: array<nat>, vals: array<V>, n: nat) returns (ks: array<nat>, vs: array<V>)
      requires keys.Length == vals.Length
      ensures fresh(ks) && fresh(vs) && ks as object != vs && ks.Length == vs.Length == n
      ensures forall i :: 0 <= i < n && i < keys.Length ==> ks[i] == keys[i] && vs[i] == vals[i]
    {
      ks, vs := new nat[n], new V[n];
      var i := 0;
      while i < n && i < keys.Length
        invariant 0 <= i <= n && i <= keys.Length
        invariant forall j :: 0 <= j < i ==> ks[j] == keys[j] && vs[j] == vals[j]
      {
        ks[i], vs[i] := keys[i], vals[i];
        i := i + 1;
      }
    }

    static method Enlarge(keys: array<nat>, vals: array<V>, n: nat) returns (ks: array<nat>, vs: array<V>)
      requires keys.Length == vals.Length && keys as object != vals
      ensures ks as object != vs && (ks == keys || fresh(ks)) && (vs == vals || fresh(vs))
      ensures ks.Length == vs.Length == if keys.Length < n then n else keys.Length
      ensures ks[..][..keys.Length] == keys[..] && vs[..][..keys.Length] == vals[..]
    {
      ks, vs := keys, vals;
      if keys.Length < n {
        ks, vs := Reallocate(keys, vals, n);
      }
    }

    static method Shrink(keys: array<nat>, vals: array<V>, n: nat) returns (ks: array<nat>, vs: array<V>)
      requires n <= keys.Length == vals.Length && keys as object != vals
      ensures ks as object != vs && (ks == keys || fresh(ks)) && (vs == vals || fresh(vs))
      ensures ks[..] == keys[..][..n] && vs[..] == vals[..][..n]
    {
      ks, vs := keys, vals;
      if n < keys.Length {
        ks, vs := Reallocate(keys, vals, n);
      }
    }

    /** The rehashing part of kh_resize: enlarge the arrays if needed, move every entry, shrink if needed. */
    static method RehashInto(flags: array<Flag>, keys: array<nat>, vals: array<V>, n: nat,
                             ghost loc0: map<nat, nat>, ghost m: map<nat, V>)
      returns (newFlags: array<Flag>, newKeys: array<nat>, newVals: array<V>, ghost loc: map<nat, nat>)
      requires Separate(flags, keys, vals) && flags.Length == keys.Length == vals.Length && IsPow2(n) && |m| <= n
      requires Represents(flags[..], keys[..], vals[..], loc0, m)
      modifies flags, keys, vals
      ensures fresh(newFlags) && (newKeys == keys || fresh(newKeys)) && (newVals == vals || fresh(newVals))
      ensures Separate(newFlags, newKeys, newVals)
      ensures newFlags.Length == newKeys.Length == newVals.Length == n
      ensures Represents(newFlags[..], newKeys[..], newVals[..], loc, m) && Deleted !in newFlags[..]
    {
      assert 0 < n;
      hide Represents, Stored, IsPow2;
      newFlags := new Flag[n](_ => Empty);
      newKeys, newVals := Enlarge(keys, vals, n);
      StoredStart(flags[..], newFlags[..], newKeys[..], newVals[..], loc0, m);
      loc := Rehash(flags, newFlags, newKeys, newVals, loc0, m);
      StoredDone(flags[..], newFlags[..], newKeys[..], newVals[..], loc, m);
      newKeys, newVals := Shrink(newKeys, newVals, n);
      assert newKeys.Length == |newKeys[..]| && newVals.Length == |newVals[..]|;
    }

    /** The end of kh_resize: the rehashed arrays replace the old ones. */
    method Adopt(f: array<Flag>, k: array<nat>, v: array<V>, ghost loc: map<nat, nat>)
      requires Separate(f, k, v) && f.Length == k.Length == v.Length && IsPow2(f.Length) && 4 <= f.Length
      requires Represents(f[..], k[..], v[..], loc, Map) && Deleted !in f[..]
      requires size == |Map| < UpperBound(f.Length)
      modifies this
      ensures Valid() && Map == old(Map) && size == old(size)
      ensures flags == f && keys == k && vals == v && Repr == {this, f, k, v}
      ensures nBuckets == f.Length && nOccupied == size
    {
      hide Represents, IsPow2, UpperBound;
      UsedAreLive(f[..]);
      RepresentsSize(f[..], k[..], v[..], loc, Map);
      flags, keys, vals, Loc := f, k, v, loc;
      nBuckets, nOccupied, upperBound := f.Length, size, UpperBound(f.Length);
      Repr := {this, f, k, v};
    }

    /** kh_resize: rehash into the rounded-up bucket count, unless that is too small for the entries. */
    method Resize(request: nat, memory: bool) returns (rc: int)
      requires Valid()
      modifies Repr
      ensures Valid() && fresh(Repr - old(Repr))
      ensures Map == old(Map) && size == old(size)
      ensures rc == if old(size) < UpperBound(NewBuckets(request)) && !memory then -1 else 0
      ensures if rc == 0 && size < UpperBound(NewBuckets(request))
              then nBuckets == NewBuckets(request) && nOccupied == size && Deleted !in flags[..]
              else unchanged(this) && unchanged(old(Repr))
    {
      hide Represents, IsPow2, NewBuckets, UpperBound;
      var n := NewBuckets(request);
      UpperBoundRange(n);
      if UpperBound(n) <= size {
        return 0;
      }
      if !memory {
        return -1;
      }
      var f, k, v, loc := RehashInto(flags, keys, vals, n, Loc, Map);
      Adopt(f, k, v, loc);
      rc := 0;
    }

    /** The resize at the head of kh_put: clear tombstones when at most half the buckets hold entries, else double. */
    method MakeRoom(memory: bool) returns (rc: int)
      requires Valid() && nOccupied == upperBound
      modifies Repr
      ensures Valid() && fresh(Repr - old(Repr))
      ensures Map == old(Map) && size == old(size)
      ensures rc == if memory then 0 else -1
      ensures rc == 0 ==> nOccupied < upperBound && Deleted !in flags[..]
      ensures rc == 0 ==> nBuckets == (if old(nBuckets) == 0 then 4 else if 2 * size < old(nBuckets) then old(nBuckets) else 2 * old(nBuckets))
      ensures rc < 0 ==> unchanged(this) && unchanged(old(Repr))
    {
      hide Represents, NewBuckets, UpperBound, RoundUp;
      RepresentsSize(flags[..], keys[..], vals[..], Loc, Map);
      LiveAmongUsed(flags[..]);
      ResizeRequests(nBuckets);
      if 2 * size < nBuckets {
        rc := Resize(nBuckets - 1, memory);
      } else {
        rc := Resize(nBuckets + 1, memory);
      }
    }

    /** The last part of kh_put: take over an empty bucket (returning 1) or a tombstone (returning 2). */
    method Occupy(x: nat, key: nat) returns (ret: int)
      requires Valid() && nOccupied < upperBound
      requires x < nBuckets && flags[x] != Live && key !in Map && Reachable(flags[..], key, x)
      modifies this`size, this`nOccupied, this`Map, this`Loc, flags, keys
      ensures Valid()
      ensures flags[x] == Live && keys[x] == key && Map == old(Map)[key := vals[x]]
      ensures ret == if old(flags[x]) == Empty then 1 else 2
    {
      hide Reachable, Represents, IsPow2, UpperBound, Empties;
      ghost var fs, ks, vs := flags[..], keys[..], vals[..];
      EmptiesOccupied(fs, x);
      RepresentsInsert(fs, ks, vs, Loc, Map, key, x);
      if flags[x] == Empty {
        nOccupied := nOccupied + 1;
        ret := 1;
      } else {
        ret := 2;
      }
      keys[x] := key;
      flags[x] := Live;
      size := size + 1;
      Map, Loc := Map[key := vals[x]], Loc[key := x];
      assert flags[..] == fs[x := Live] && keys[..] == ks[x := key];
    }

    /** The second half of kh_put, once the load is below its bound. */
    method Insert(key: nat) returns (x: nat, ret: int)
      requires Valid() && nOccupied < upperBound
      modifies this`size, this`nOccupied, this`Map, this`Loc, flags, keys
      ensures Valid()
      ensures x < nBuckets && flags[x] == Live && keys[x] == key && key in Map && vals[x] == Map[key]
      ensures if key in old(Map) then ret == 0 && Map == old(Map)
              else ret == (if old(flags[x]) == Empty then 1 else 2) && Map == old(Map)[key := vals[x]]
    {
      assert nBuckets != 0;
      hide Reachable, AllReachable, Located, IsPow2, UpperBound;
      UpperBoundRange(nBuckets);
      assert Empty in multiset(flags[..]);
      x := FindSlot(flags, keys, nBuckets, key, Loc);
      if flags[x] == Live {
        LiveEntry(flags[..], keys[..], vals[..], Loc, Map, x);
        ret := 0;
      } else {
        ret := Occupy(x, key);
      }
    }

    /** kh_put: make room if the load bound is reached, then insert the key unless present. */
    method Put(key: nat, memory: bool) returns (x: nat, ret: int)
      requires Valid()
      modifies Repr
      ensures Valid() && fresh(Repr - old(Repr))
      ensures ret in {-1, 0, 1, 2} && (ret == -1 ==> !memory)
      ensures ret == -1 ==> x == nBuckets && Map == old(Map)
      ensures 0 <= ret ==> x < nBuckets && flags[x] == Live && keys[x] == key && key in Map && vals[x] == Map[key]
      ensures 0 <= ret ==> (0 < ret <==> key !in old(Map)) && Map == old(Map)[key := Map[key]]
      ensures ret == 0 ==> Map == old(Map)
    {
      hide Represents, UpperBound, IsPow2;
      if upperBound <= nOccupied {
        var rc := MakeRoom(memory);
        if rc < 0 {
          return nBuckets, -1;
        }
      }
      x, ret := Insert(key);
    }

    /** Assignment through kh_value. */
    method Assign(x: nat, v: V)
      requires Valid() && x < nBuckets && flags[x] == Live
      modifies this`Map, vals
      ensures Valid() && Map == old(Map)[keys[x] := v] && Map.Keys == old(Map).Keys
      ensures vals[..] == old(vals[..])[x := v]
    {
      hide AllReachable, IsPow2, UpperBound;
      assert LiveAt(flags[..], x);
      RepresentsAssign(flags[..], keys[..], vals[..], Loc, Map, x, v);
      ghost var vs := vals[..];
      Map := Map[keys[x] := v];
      vals[x] := v;
      assert vals[..] == vs[x := v];
    }

    /** kh_put followed by assignment through kh_value, as every table user does. */
    method Enter(key: nat, v: V, memory: bool) returns (ret: int)
      requires Valid()
      modifies Repr
      ensures Valid() && fresh(Repr - old(Repr))
      ensures ret in {-1, 0, 1, 2} && (ret == -1 ==> !memory)
      ensures 0 <= ret ==> (0 < ret <==> key !in old(Map))
      ensures Map == if ret == -1 then old(Map) else old(Map)[key := v]
    {
      hide Valid;
      var x;
      x, ret := Put(key, memory);
      if ret != -1 {
        Overwrite(old(Map), key, Map[key], v);
        Assign(x, v);
      }
    }

    /** kh_del: a live bucket becomes a tombstone; kh_end and dead buckets are ignored. */
    method Delete(x: nat)
      requires Valid() && x <= nBuckets
      modifies this`size, this`Map, this`Loc, flags
      ensures Valid()
      ensures Map == if x < nBuckets && old(flags[x]) == Live then old(Map) - {keys[x]} else old(Map)
      ensures Loc == if x < nBuckets && old(flags[x]) == Live then old(Loc) - {keys[x]} else old(Loc)
      ensures flags[..] == if x < nBuckets && old(flags[x]) == Live then old(flags[..])[x := Deleted] else old(flags[..])
    {
      hide Represents, IsPow2, UpperBound;
      if x != nBuckets && flags[x] == Live {
        ghost var fs := flags[..];
        assert LiveAt(fs, x);
        RepresentsDelete(fs, keys[..], vals[..], Loc, Map, x);
        Map, Loc := Map - {keys[x]}, Loc - {keys[x]};
        flags[x] := Deleted;
        size := size - 1;
        assert flags[..] == fs[x := Deleted];
      }
    }
  }

  // ---------- Any sequence of operations ----------

  datatype Op<V> = Lookup(key: nat) | Store(key: nat, v: V) | Remove(key: nat)

  /** What an operation reports: the value found, whether the key was new, whether the key was there. */
  datatype Answer<V> = Found(r: Option<V>) | Inserted(isNew: bool) | Removed(was: bool)

  /** The same operation on a finite map. */
  function OnMap<V>(m: map<nat, V>, op: Op<V>): (map<nat, V>, Answer<V>) {
    match op
    case Lookup(k) => (m, Found(if k in m then Some(m[k]) else None))
    case Store(k, v) => (m[k := v], Inserted(k !in m))
    case Remove(k) => (m - {k}, Removed(k in m))
  }

  function RunOnMap<V>(ops: seq<Op<V>>): (map<nat, V>, seq<Answer<V>>) {
    if ops == [] then (map[], [])
    else
      var (m, answers) := RunOnMap(ops[..|ops| - 1]);
      var (m', a) := OnMap(m, ops[|ops| - 1]);
      (m', answers + [a])
  }

  /** One operation on a table; the answer comes from the buckets and return codes alone. */
  method OnTable<V(0)>(t: Table<V>, op: Op<V>) returns (a: Answer<V>)
    requires t.Valid()
    modifies t.Repr
    ensures t.Valid() && fresh(t.Repr - old(t.Repr))
    ensures (t.Map, a) == OnMap(old(t.Map), op)
  {
    hide Table.Valid;
    match op
    case Lookup(k) =>
      var x := t.Get(k);
      a := Found(if x == t.nBuckets then None else Some(t.vals[x]));
    case Store(k, v) =>
      var ret := t.Enter(k, v, true);
      a := Inserted(0 < ret);
    case Remove(k) =>
      var x := t.Get(k);
      a := Removed(x != t.nBuckets);
      t.Delete(x);
      assert k !in old(t.Map) ==> old(t.Map) - {k} == old(t.Map);
  }

  /** From an empty table, every sequence of operations answers exactly as a finite map does. */
  method Replay<V(0)>(ops: seq<Op<V>>) returns (answers: seq<Answer<V>>)
    ensures answers == RunOnMap(ops).1
  {
    hide Table.Valid;
    var t := new Table<V>();
    answers := [];
    var i := 0;
    while i < |ops|
      invariant 0 <= i <= |ops|
      invariant t.Valid() && fresh(t.Repr)
      invariant (t.Map, answers) == RunOnMap(ops[..i])
    {
      assert ops[..i + 1][..i] == ops[..i];
      var a := OnTable(t, ops[i]);
      answers := answers + [a];
      i := i + 1;
    }
    assert ops[..i] == ops;
  }
}
