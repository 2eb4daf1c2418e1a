/** The renumberings of the object map: representatives first, or objects first. */
module ObjectMaps {
  import opened Basics
  import opened Seals
  import UF = UnionFind

  /** Ids below this are the same in every map. */
  const NUM_DEFAULT_OBJS: nat := 5

  // ---- Representatives first ----

  predicate IsRep(R: seq<nat>, i: nat) {
    i < |R| && R[i] == i
  }

  function RepsBelow(R: seq<nat>, i: nat): (n: nat)
    ensures n <= i
  {
    if i == 0 then 0 else RepsBelow(R, i - 1) + (if IsRep(R, i - 1) then 1 else 0)
  }

  /** Where lowerUsed sends i: representatives count representatives, the others come after all of them. */
  function LowUsed(R: seq<nat>, i: nat): nat {
    if IsRep(R, i) then RepsBelow(R, i) else RepsBelow(R, |R|) + i - RepsBelow(R, i)
  }

  lemma {:induction false} RepsBelowGrows(R: seq<nat>, i: nat, j: nat)
    requires i <= j
    ensures RepsBelow(R, i) <= RepsBelow(R, j) <= RepsBelow(R, i) + j - i
  {
    if i < j { RepsBelowGrows(R, i, j - 1); }
  }

  /** Representatives come first, and both groups keep their order. */
  lemma LowUsedOrder(R: seq<nat>, i: nat, j: nat)
    requires i < |R| && j < |R|
    ensures LowUsed(R, i) < |R|
    ensures IsRep(R, i) <==> LowUsed(R, i) < RepsBelow(R, |R|)
    ensures i < j && IsRep(R, i) == IsRep(R, j) ==> LowUsed(R, i) < LowUsed(R, j)
  {
    RepsBelowGrows(R, i + 1, |R|);
    RepsBelowGrows(R, i, |R|);
    if i < j { RepsBelowGrows(R, i + 1, j); }
  }

  /** If the representatives are the ids below k, nothing moves. */
  lemma {:induction false} LowUsedFixed(R: seq<nat>, k: nat, i: nat)
    requires k <= |R| && i <= |R| && forall j: nat :: j < |R| ==> (IsRep(R, j) <==> j < k)
    ensures RepsBelow(R, i) == if i <= k then i else k
  {
    if i > 0 { LowUsedFixed(R, k, i - 1); }
  }

  predicate IsLowUsed(R: seq<nat>, p: seq<nat>) {
    |p| == |R| && forall i :: 0 <= i < |R| ==> p[i] == LowUsed(R, i)
  }

  lemma LowUsedPermutes(R: seq<nat>, p: seq<nat>)
    requires IsLowUsed(R, p)
    ensures UF.Permutes(p)
  {
    forall i | 0 <= i < |p| ensures p[i] < |p| {
      LowUsedOrder(R, i, i);
    }
    forall i, j | 0 <= i < j < |p| ensures p[i] != p[j] {
      LowUsedOrder(R, i, j);
      LowUsedOrder(R, j, j);
    }
  }

  /** After lowerUsed the representatives are exactly the first ids, and a second lowerUsed moves nothing. */
  lemma LowUsedIdempotent(R: seq<nat>, p: seq<nat>, R': seq<nat>)
    requires IsLowUsed(R, p) && UF.Commutes(R, p, R')
    ensures forall y: nat :: y < |R'| ==> (IsRep(R', y) <==> y < RepsBelow(R, |R|))
    ensures forall y: nat :: y < |R'| ==> LowUsed(R', y) == y
  {
    var k := RepsBelow(R, |R|);
    forall y: nat | y < |R'| ensures IsRep(R', y) <==> y < k {
      var x := UF.Reaches(p, y);
      assert R'[p[x]] == p[R[x]];
      if R[x] != x { assert p[R[x]] != p[x]; }
      LowUsedOrder(R, x, x);
    }
    RepsBelowGrows(R, 0, |R|);
    forall y: nat | y < |R'| ensures LowUsed(R', y) == y {
      LowUsedFixed(R', k, y);
      LowUsedFixed(R', k, |R'|);
    }
  }

  /** The first loop of lowerUsed, before id i. */
  ghost predicate RepPass(R: seq<nat>, p: seq<nat>, i: nat, next: nat) {
    forall k {:trigger Unfold(RepPassSeal, k)} :: Unfold(RepPassSeal, k) ==>
      && |p| == |R| && i <= |R| && next == RepsBelow(R, i)
      && forall j {:trigger p[j]} :: 0 <= j < i && IsRep(R, j) ==> p[j] == RepsBelow(R, j)
  }

  lemma RepPassStart(R: seq<nat>, p: seq<nat>)
    requires |p| == |R|
    ensures RepPass(R, p, 0, 0)
  {
  }

  lemma RepPassStep(R: seq<nat>, p: seq<nat>, i: nat, next: nat)
    requires i < |R| == |p| && RepPass(R, p, i, next)
    ensures if R[i] == i then RepPass(R, p[i := next], i + 1, next + 1) else RepPass(R, p, i + 1, next)
  {
    assert Unfold(RepPassSeal, 0);
  }

  /** The second loop, before id i. */
  ghost predicate OtherPass(R: seq<nat>, p: seq<nat>, i: nat, next: nat) {
    forall k {:trigger Unfold(OtherPassSeal, k)} :: Unfold(OtherPassSeal, k) ==>
      && |p| == |R| && i <= |R| && next == RepsBelow(R, |R|) + i - RepsBelow(R, i)
      && forall j {:trigger p[j]} :: 0 <= j < |R| && (j < i || IsRep(R, j)) ==> p[j] == LowUsed(R, j)
  }

  lemma OtherPassStart(R: seq<nat>, p: seq<nat>, next: nat)
    requires RepPass(R, p, |R|, next)
    ensures |p| == |R| && OtherPass(R, p, 0, next)
  {
    assert Unfold(RepPassSeal, 0);
  }

  lemma OtherPassStep(R: seq<nat>, p: seq<nat>, i: nat, next: nat)
    requires i < |R| == |p| && OtherPass(R, p, i, next)
    ensures if R[i] != i then OtherPass(R, p[i := next], i + 1, next + 1) else OtherPass(R, p, i + 1, next)
  {
    assert Unfold(OtherPassSeal, 0);
  }

  lemma OtherPassDone(R: seq<nat>, p: seq<nat>, next: nat)
    requires OtherPass(R, p, |R|, next)
    ensures IsLowUsed(R, p)
  {
    assert Unfold(OtherPassSeal, 0);
  }

  // ---- Objects first ----

  predicate IsSpecial(i: nat) {
    i < NUM_DEFAULT_OBJS
  }

  predicate Ascending(objs: seq<nat>, n: nat) {
    && (forall k :: 0 <= k < |objs| ==> objs[k] < n)
    && (forall j, k :: 0 <= j < k < |objs| ==> objs[j] < objs[k])
  }

  /** How many of the ids below i are neither special nor objects. */
  function OthersBelow(objs: seq<nat>, i: nat): (n: nat)
    ensures n <= i
  {
    if i == 0 then 0 else OthersBelow(objs, i - 1) + (if IsSpecial(i - 1) || i - 1 in objs then 0 else 1)
  }

  /** Special ids stay, objects follow them in order, then everything else in order. */
  predicate IsLowObjects(objs: seq<nat>, n: nat, p: seq<nat>) {
    && |p| == n
    && (forall i {:trigger p[i]} :: 0 <= i < n && IsSpecial(i) ==> p[i] == i)
    && (forall k :: 0 <= k < |objs| && objs[k] < n ==> p[objs[k]] == NUM_DEFAULT_OBJS + k)
    && (forall i {:trigger p[i]} :: 0 <= i < n && !IsSpecial(i) && i !in objs ==>
        p[i] == NUM_DEFAULT_OBJS + |objs| + OthersBelow(objs, i))
  }

  /** The ids below i are the special ones, the objects and the others, objects that are special counting twice. */
  function ObjsBelow(objs: seq<nat>, i: nat): nat {
    if i == 0 then 0 else ObjsBelow(objs, i - 1) + (if i - 1 in objs then 1 else 0)
  }

  function SpecialObjs(objs: seq<nat>, i: nat): nat {
    if i == 0 then 0 else SpecialObjs(objs, i - 1) + (if IsSpecial(i - 1) && i - 1 in objs then 1 else 0)
  }

  lemma {:induction false} CountAll(objs: seq<nat>, i: nat)
    ensures OthersBelow(objs, i) + ObjsBelow(objs, i) + (if i <= NUM_DEFAULT_OBJS then i else NUM_DEFAULT_OBJS)
            == i + SpecialObjs(objs, i)
    ensures SpecialObjs(objs, i) == 0 <==> forall j: nat :: j < i && j in objs ==> !IsSpecial(j)
  {
    if i > 0 { CountAll(objs, i - 1); }
  }

  /** An ascending list has as many members as there are ids in it. */
  lemma {:induction false} CountUpTo(objs: seq<nat>, n: nat)
    requires Ascending(objs, n)
    ensures ObjsBelow(objs, n) == |objs|
    decreases |objs|, n
  {
    if n == 0 {
    } else if objs != [] && objs[|objs| - 1] == n - 1 {
      var front := objs[..|objs| - 1];
      CountUpTo(front, n - 1);
      ObjsSame(front, objs, n - 1);
    } else {
      if n - 1 in objs { assert false; }
      CountUpTo(objs, n - 1);
    }
  }

  lemma {:induction false} ObjsSame(a: seq<nat>, b: seq<nat>, n: nat)
    requires forall i: nat :: i < n ==> (i in a <==> i in b)
    ensures ObjsBelow(a, n) == ObjsBelow(b, n)
  {
    if n > 0 { ObjsSame(a, b, n - 1); }
  }

  lemma {:induction false} OthersGrow(objs: seq<nat>, i: nat, j: nat)
    requires i <= j
    ensures OthersBelow(objs, i) <= OthersBelow(objs, j)
    ensures i < j && !IsSpecial(i) && i !in objs ==> OthersBelow(objs, i) < OthersBelow(objs, j)
  {
    if i + 1 < j { OthersGrow(objs, i, j - 1); }
  }

  /** The new ids run to the end of the map exactly when no special id is an object. */
  lemma LowObjectsFill(objs: seq<nat>, n: nat)
    requires Ascending(objs, n) && NUM_DEFAULT_OBJS <= n
    ensures n <= NUM_DEFAULT_OBJS + |objs| + OthersBelow(objs, n)
    ensures NUM_DEFAULT_OBJS + |objs| + OthersBelow(objs, n) == n
            <==> forall k :: 0 <= k < |objs| ==> !IsSpecial(objs[k])
  {
    CountAll(objs, n);
    CountUpTo(objs, n);
    if SpecialObjs(objs, n) == 0 {
      forall k | 0 <= k < |objs| ensures !IsSpecial(objs[k]) {
        assert objs[k] in objs;
      }
    }
  }

  lemma LowObjectsPermutes(objs: seq<nat>, n: nat, p: seq<nat>)
    requires Ascending(objs, n) && NUM_DEFAULT_OBJS <= n && IsLowObjects(objs, n, p)
    requires forall k :: 0 <= k < |objs| ==> !IsSpecial(objs[k])
    ensures UF.Permutes(p)
  {
    LowObjectsFill(objs, n);
    forall i | 0 <= i < n ensures LowSpot(objs, n, p, i) && p[i] < n {
      LowSpotAt(objs, n, p, i);
    }
    forall i, j | 0 <= i < j < n ensures p[i] != p[j] {
      assert LowSpot(objs, n, p, i) && LowSpot(objs, n, p, j);
      if !IsSpecial(i) && i !in objs && !IsSpecial(j) && j !in objs { OthersGrow(objs, i, j); }
    }
  }

  /** The special ids stay, the objects follow them, and then the rest, in the old order within each group. */
  lemma LowObjectsOrder(objs: seq<nat>, n: nat, p: seq<nat>, i: nat, j: nat)
    requires Ascending(objs, n) && NUM_DEFAULT_OBJS <= n && IsLowObjects(objs, n, p)
    requires (forall k :: 0 <= k < |objs| ==> !IsSpecial(objs[k])) && i < n && j < n
    ensures i < 5 ==> p[i] == i
    ensures i in objs && j >= 5 && j !in objs ==> 5 <= p[i] < p[j]
    ensures i in objs && j in objs && i < j ==> 5 <= p[i] < p[j]
    ensures i >= 5 && j >= 5 && i !in objs && j !in objs && i < j ==> p[i] < p[j]
  {
    LowObjectsFill(objs, n);
    LowSpotAt(objs, n, p, i);
    LowSpotAt(objs, n, p, j);
    if i < j { OthersGrow(objs, i, j); }
  }

  /** The range that an id of each kind is sent to. */
  predicate LowSpot(objs: seq<nat>, n: nat, p: seq<nat>, i: nat)
    requires i < n == |p|
  {
    if IsSpecial(i) then p[i] == i
    else if i in objs then
      NUM_DEFAULT_OBJS <= p[i] < NUM_DEFAULT_OBJS + |objs| <= n && objs[p[i] - NUM_DEFAULT_OBJS] == i
    else p[i] == NUM_DEFAULT_OBJS + |objs| + OthersBelow(objs, i) < n
  }

  lemma LowSpotAt(objs: seq<nat>, n: nat, p: seq<nat>, i: nat)
    requires i < n && IsLowObjects(objs, n, p) && NUM_DEFAULT_OBJS + |objs| + OthersBelow(objs, n) == n
    ensures LowSpot(objs, n, p, i)
  {
    if IsSpecial(i) {
    } else if i in objs {
      var k :| 0 <= k < |objs| && objs[k] == i;
      assert p[objs[k]] == NUM_DEFAULT_OBJS + k;
    } else {
      OthersGrow(objs, i, n);
    }
  }

  /** After the first two loops of lowerObjects. */
  predicate ObjsPlaced(objs: seq<nat>, n: nat, p: seq<nat>) {
    && |p| == n
    && (forall i {:trigger p[i]} :: 0 <= i < n && IsSpecial(i) && i !in objs ==> p[i] == i)
    && (forall k :: 0 <= k < |objs| && objs[k] < n ==> p[objs[k]] == NUM_DEFAULT_OBJS + k)
  }

  /** The third loop, before id i; last is the id set last. */
  ghost predicate OthersPass(objs: seq<nat>, n: nat, p: seq<nat>, i: nat, next: nat, last: nat) {
    forall k {:trigger Unfold(LastPassSeal, k)} :: Unfold(LastPassSeal, k) ==>
      && ObjsPlaced(objs, n, p) && Ascending(objs, n) && i <= n && last < n && p[last] == next - 1
      && next == NUM_DEFAULT_OBJS + |objs| + OthersBelow(objs, i)
      && (last < i || last in objs || last < NUM_DEFAULT_OBJS)
      && forall j {:trigger p[j]} :: 0 <= j < i && !IsSpecial(j) && j !in objs ==>
           p[j] == NUM_DEFAULT_OBJS + |objs| + OthersBelow(objs, j)
  }

  lemma OthersPassStep(objs: seq<nat>, n: nat, p: seq<nat>, i: nat, next: nat, last: nat)
    requires i < n == |p| && OthersPass(objs, n, p, i, next, last)
    ensures if IsSpecial(i) || i in objs then OthersPass(objs, n, p, i + 1, next, last)
            else OthersPass(objs, n, p[i := next], i + 1, next + 1, i)
  {
    assert Unfold(LastPassSeal, 0);
    if !(IsSpecial(i) || i in objs) {
      assert forall k :: 0 <= k < |objs| ==> objs[k] in objs;
      assert ObjsPlaced(objs, n, p[i := next]);
    }
  }

  lemma OthersPassDone(objs: seq<nat>, n: nat, p: seq<nat>, next: nat, last: nat)
    requires OthersPass(objs, n, p, n, next, last)
    ensures |p| == n && next == NUM_DEFAULT_OBJS + |objs| + OthersBelow(objs, n)
    ensures (forall k :: 0 <= k < |objs| ==> !IsSpecial(objs[k])) ==> IsLowObjects(objs, n, p)
    ensures next > n ==> !UF.Permutes(p)
  {
    assert Unfold(LastPassSeal, 0);
  }

  // ---- Renaming ----

  /** m' is m with every key renamed. */
  ghost predicate RenamedKeys<V(!new)>(m: map<nat, V>, p: seq<nat>, m': map<nat, V>) {
    forall k {:trigger Unfold(KeysSeal, k)} :: Unfold(KeysSeal, k) ==>
      && (forall i :: i in m ==> i < |p| && p[i] in m' && m'[p[i]] == m[i])
      && (forall j :: j in m' ==> exists i :: i in m && i < |p| && p[i] == j)
  }

  /** m' is m with every value renamed. */
  ghost predicate RenamedValues(m: map<nat, nat>, p: seq<nat>, m': map<nat, nat>) {
    forall k {:trigger Unfold(ValuesSeal, k)} :: Unfold(ValuesSeal, k) ==>
      m.Keys == m'.Keys && forall v :: v in m ==> m[v] < |p| && m'[v] == p[m[v]]
  }

  ghost predicate RenamedBoth(m: map<nat, nat>, p: seq<nat>, m': map<nat, nat>) {
    exists mid :: RenamedValues(m, p, mid) && RenamedKeys(mid, p, m')
  }

  /** The ids of s, renamed. */
  function RenamedIds(s: seq<nat>, p: seq<nat>): (r: seq<nat>)
    requires forall k :: 0 <= k < |s| ==> s[k] < |p|
    ensures |r| == |s| && forall k :: 0 <= k < |s| ==> r[k] == p[s[k]]
  {
    seq(|s|, k requires 0 <= k < |s| => p[s[k]])
  }

  predicate ListsInside(m: map<nat, seq<nat>>, n: nat) {
    forall i :: i in m ==> i < n && forall k :: 0 <= k < |m[i]| ==> m[i][k] < n
  }

  ghost predicate RenamedLists(m: map<nat, seq<nat>>, p: seq<nat>, m': map<nat, seq<nat>>) {
    ListsInside(m, |p|) && RenamedKeys(map i | i in m :: RenamedIds(m[i], p), p, m')
  }

  ghost predicate Inverse(vals: map<nat, nat>, ids: map<nat, nat>) {
    forall v :: v in vals ==> vals[v] in ids && ids[vals[v]] == v
  }

  lemma RenamedInverse(vals: map<nat, nat>, ids: map<nat, nat>, p: seq<nat>, vals': map<nat, nat>, ids': map<nat, nat>)
    requires RenamedValues(vals, p, vals') && RenamedKeys(ids, p, ids') && Inverse(vals, ids)
    ensures Inverse(vals', ids')
  {
    assert Unfold(KeysSeal, 0) && Unfold(ValuesSeal, 0);
  }

  ghost predicate KeysInside<V>(m: map<nat, V>, n: nat) {
    forall i :: i in m ==> i < n
  }

  ghost predicate ValuesInside(m: map<nat, nat>, n: nat) {
    forall i :: i in m ==> m[i] < n
  }

  lemma RenamedKeysInside(m: map<nat, nat>, p: seq<nat>, m': map<nat, nat>)
    requires UF.Permutes(p) && RenamedKeys(m, p, m')
    ensures KeysInside(m', |p|) && (ValuesInside(m, |p|) ==> ValuesInside(m', |p|))
  {
    assert Unfold(KeysSeal, 0);
  }

  lemma RenamedListsInside(m: map<nat, seq<nat>>, p: seq<nat>, m': map<nat, seq<nat>>)
    requires UF.Permutes(p) && RenamedLists(m, p, m')
    ensures ListsInside(m', |p|)
  {
    assert Unfold(KeysSeal, 0);
    forall j | j in m' ensures j < |p| && forall k :: 0 <= k < |m'[j]| ==> m'[j][k] < |p| {
      var i :| i in m && i < |p| && p[i] == j;
      assert m'[p[i]] == RenamedIds(m[i], p);
    }
  }

  // ---- The tables of the map ----

  /** From values and names to ids. */
  datatype ToIds = ToIds(vals: map<nat, nat>, objs: map<nat, nat>, rets: map<nat, nat>, varargs: map<nat, nat>,
                         consts: map<nat, nat>, names: map<nat, nat>, objNames: map<nat, nat>)

  /** From ids to values and names; structs has the number of fields from an id on. */
  datatype FromIds = FromIds(vals: map<nat, nat>, objs: map<nat, nat>, rets: map<nat, nat>, varargs: map<nat, nat>,
                             names: map<nat, nat>, objNames: map<nat, nat>, structs: map<nat, nat>)

  datatype Tables = Tables(toIds: ToIds, fromIds: FromIds, aliasToObjs: map<nat, nat>,
                           objToAliases: map<nat, seq<nat>>, functions: seq<(nat, nat)>, functionSet: set<nat>)

  ghost predicate ToInside(a: ToIds, n: nat) {
    && ValuesInside(a.vals, n) && ValuesInside(a.objs, n) && ValuesInside(a.rets, n) && ValuesInside(a.varargs, n)
    && ValuesInside(a.consts, n) && ValuesInside(a.names, n) && ValuesInside(a.objNames, n)
  }

  ghost predicate FromInside(b: FromIds, n: nat) {
    && KeysInside(b.vals, n) && KeysInside(b.objs, n) && KeysInside(b.rets, n) && KeysInside(b.varargs, n)
    && KeysInside(b.names, n) && KeysInside(b.objNames, n) && KeysInside(b.structs, n)
  }

  /** Only ids below n are mentioned. */
  ghost predicate Inside(t: Tables, n: nat) {
    && ToInside(t.toIds, n) && FromInside(t.fromIds, n)
    && KeysInside(t.aliasToObjs, n) && ValuesInside(t.aliasToObjs, n) && ListsInside(t.objToAliases, n)
    && (forall k :: 0 <= k < |t.functions| ==> t.functions[k].0 < n) && forall i :: i in t.functionSet ==> i < n
  }

  ghost predicate ToRenamed(a: ToIds, p: seq<nat>, a': ToIds) {
    && RenamedValues(a.vals, p, a'.vals) && RenamedValues(a.objs, p, a'.objs) && RenamedValues(a.rets, p, a'.rets)
    && RenamedValues(a.varargs, p, a'.varargs) && RenamedValues(a.consts, p, a'.consts)
    && RenamedValues(a.names, p, a'.names) && RenamedValues(a.objNames, p, a'.objNames)
  }

  ghost predicate FromRenamed(b: FromIds, p: seq<nat>, b': FromIds) {
    && RenamedKeys(b.vals, p, b'.vals) && RenamedKeys(b.objs, p, b'.objs) && RenamedKeys(b.rets, p, b'.rets)
    && RenamedKeys(b.varargs, p, b'.varargs) && RenamedKeys(b.names, p, b'.names)
    && RenamedKeys(b.objNames, p, b'.objNames) && RenamedKeys(b.structs, p, b'.structs)
  }

  /** The functions in their order, and the set of their ids. */
  ghost predicate FunctionsRenamed(t: Tables, p: seq<nat>, t': Tables) {
    && |t'.functions| == |t.functions|
    && (forall k :: 0 <= k < |t.functions| ==>
          t.functions[k].0 < |p| && t'.functions[k] == (p[t.functions[k].0], t.functions[k].1))
    && t'.functionSet == set i | i in t.functionSet && i < |p| :: p[i]
  }

  ghost predicate Renamed(t: Tables, p: seq<nat>, t': Tables) {
    && ToRenamed(t.toIds, p, t'.toIds) && FromRenamed(t.fromIds, p, t'.fromIds)
    && RenamedBoth(t.aliasToObjs, p, t'.aliasToObjs) && RenamedLists(t.objToAliases, p, t'.objToAliases)
    && FunctionsRenamed(t, p, t')
  }

  /** What has a value's or name's id before has the id's new place after, table by table. */
  lemma ToMoved(a: ToIds, p: seq<nat>, a': ToIds, v: nat)
    requires ToRenamed(a, p, a') && ToInside(a, |p|)
    ensures v in a'.vals <==> v in a.vals
    ensures v in a.vals ==> a'.vals[v] == p[a.vals[v]]
    ensures v in a'.objs <==> v in a.objs
    ensures v in a.objs ==> a'.objs[v] == p[a.objs[v]]
    ensures v in a'.rets <==> v in a.rets
    ensures v in a.rets ==> a'.rets[v] == p[a.rets[v]]
    ensures v in a'.varargs <==> v in a.varargs
    ensures v in a.varargs ==> a'.varargs[v] == p[a.varargs[v]]
    ensures v in a'.consts <==> v in a.consts
    ensures v in a.consts ==> a'.consts[v] == p[a.consts[v]]
    ensures v in a'.names <==> v in a.names
    ensures v in a.names ==> a'.names[v] == p[a.names[v]]
    ensures v in a'.objNames <==> v in a.objNames
    ensures v in a.objNames ==> a'.objNames[v] == p[a.objNames[v]]
  {
    assert Unfold(ValuesSeal, 0);
  }

  /** What an id had before its new place has after, table by table. */
  lemma FromMoved(b: FromIds, p: seq<nat>, b': FromIds, i: nat)
    requires FromRenamed(b, p, b') && UF.Permutes(p) && i < |p|
    ensures p[i] in b'.vals <==> i in b.vals
    ensures i in b.vals ==> b'.vals[p[i]] == b.vals[i]
    ensures p[i] in b'.objs <==> i in b.objs
    ensures i in b.objs ==> b'.objs[p[i]] == b.objs[i]
    ensures p[i] in b'.rets <==> i in b.rets
    ensures i in b.rets ==> b'.rets[p[i]] == b.rets[i]
    ensures p[i] in b'.varargs <==> i in b.varargs
    ensures i in b.varargs ==> b'.varargs[p[i]] == b.varargs[i]
    ensures p[i] in b'.names <==> i in b.names
    ensures i in b.names ==> b'.names[p[i]] == b.names[i]
    ensures p[i] in b'.objNames <==> i in b.objNames
    ensures i in b.objNames ==> b'.objNames[p[i]] == b.objNames[i]
    ensures p[i] in b'.structs <==> i in b.structs
    ensures i in b.structs ==> b'.structs[p[i]] == b.structs[i]
  {
    hide RenamedKeys;
    KeyMoved(b.vals, p, b'.vals, i);
    KeyMoved(b.objs, p, b'.objs, i);
    KeyMoved(b.rets, p, b'.rets, i);
    KeyMoved(b.varargs, p, b'.varargs, i);
    KeyMoved(b.names, p, b'.names, i);
    KeyMoved(b.objNames, p, b'.objNames, i);
    KeyMoved(b.structs, p, b'.structs, i);
  }

  lemma KeyMoved<V(!new)>(m: map<nat, V>, p: seq<nat>, m': map<nat, V>, i: nat)
    requires RenamedKeys(m, p, m') && UF.Permutes(p) && i < |p|
    ensures p[i] in m' <==> i in m
    ensures i in m ==> m'[p[i]] == m[i]
  {
    assert Unfold(KeysSeal, 0);
  }

  /** Aliases move with the objects they stand for and are listed under, functions with their ids. */
  lemma OthersMoved(t: Tables, p: seq<nat>, t': Tables, i: nat)
    requires Renamed(t, p, t') && Inside(t, |p|) && UF.Permutes(p) && i < |p|
    ensures p[i] in t'.aliasToObjs <==> i in t.aliasToObjs
    ensures i in t.aliasToObjs ==> t'.aliasToObjs[p[i]] == p[t.aliasToObjs[i]]
    ensures p[i] in t'.objToAliases <==> i in t.objToAliases
    ensures i in t.objToAliases ==>
              && |t'.objToAliases[p[i]]| == |t.objToAliases[i]|
              && forall k :: 0 <= k < |t.objToAliases[i]| ==> t'.objToAliases[p[i]][k] == p[t.objToAliases[i][k]]
    ensures p[i] in t'.functionSet <==> i in t.functionSet
    ensures |t'.functions| == |t.functions|
    ensures forall k :: 0 <= k < |t.functions| ==>
              t'.functions[k].0 == p[t.functions[k].0] && t'.functions[k].1 == t.functions[k].1
  {
    hide RenamedKeys, RenamedValues;
    var mid :| RenamedValues(t.aliasToObjs, p, mid) && RenamedKeys(mid, p, t'.aliasToObjs);
    KeyMoved(mid, p, t'.aliasToObjs, i);
    ValuesKeys(t.aliasToObjs, p, mid);
    if i in mid { ValueThere(t.aliasToObjs, p, mid, i); }
    KeyMoved(map o | o in t.objToAliases :: RenamedIds(t.objToAliases[o], p), p, t'.objToAliases, i);
  }

  lemma ValuesKeys(m: map<nat, nat>, p: seq<nat>, m': map<nat, nat>)
    requires RenamedValues(m, p, m')
    ensures m'.Keys == m.Keys
  {
    assert Unfold(ValuesSeal, 0);
  }

  /** Where every value or name was found again under its id, it still is. */
  ghost predicate KeepsInverse(a: ToIds, b: FromIds, a': ToIds, b': FromIds) {
    && (Inverse(a.vals, b.vals) ==> Inverse(a'.vals, b'.vals))
    && (Inverse(a.objs, b.objs) ==> Inverse(a'.objs, b'.objs))
    && (Inverse(a.rets, b.rets) ==> Inverse(a'.rets, b'.rets))
    && (Inverse(a.varargs, b.varargs) ==> Inverse(a'.varargs, b'.varargs))
    && (Inverse(a.names, b.names) ==> Inverse(a'.names, b'.names))
    && (Inverse(a.objNames, b.objNames) ==> Inverse(a'.objNames, b'.objNames))
  }

  lemma InverseKept(a: ToIds, b: FromIds, p: seq<nat>, a': ToIds, b': FromIds)
    requires ToRenamed(a, p, a') && FromRenamed(b, p, b')
    ensures KeepsInverse(a, b, a', b')
  {
    hide RenamedKeys, RenamedValues, Inverse;
    StillInverse(a.vals, b.vals, p, a'.vals, b'.vals);
    StillInverse(a.objs, b.objs, p, a'.objs, b'.objs);
    StillInverse(a.rets, b.rets, p, a'.rets, b'.rets);
    StillInverse(a.varargs, b.varargs, p, a'.varargs, b'.varargs);
    StillInverse(a.names, b.names, p, a'.names, b'.names);
    StillInverse(a.objNames, b.objNames, p, a'.objNames, b'.objNames);
  }

  lemma StillInverse(vals: map<nat, nat>, ids: map<nat, nat>, p: seq<nat>, vals': map<nat, nat>, ids': map<nat, nat>)
    requires RenamedValues(vals, p, vals') && RenamedKeys(ids, p, ids')
    ensures Inverse(vals, ids) ==> Inverse(vals', ids')
  {
    if Inverse(vals, ids) { RenamedInverse(vals, ids, p, vals', ids'); }
  }

  /** An alias is listed under the object it stands for. */
  ghost predicate AliasesListed(objs: map<nat, nat>, aliases: map<nat, seq<nat>>) {
    forall a :: a in objs ==> objs[a] in aliases && a in aliases[objs[a]]
  }

  lemma AliasesRenamed(objs: map<nat, nat>, aliases: map<nat, seq<nat>>, p: seq<nat>,
                       objs': map<nat, nat>, aliases': map<nat, seq<nat>>)
    requires RenamedBoth(objs, p, objs') && RenamedLists(aliases, p, aliases') && AliasesListed(objs, aliases)
    ensures AliasesListed(objs', aliases')
  {
    hide RenamedKeys, RenamedValues;
    var mid :| RenamedValues(objs, p, mid) && RenamedKeys(mid, p, objs');
    forall b | b in objs' ensures objs'[b] in aliases' && b in aliases'[objs'[b]] {
      var a := KeyBack(mid, p, objs', b);
      ValueThere(objs, p, mid, a);
      var o := objs[a];
      KeyThere(map i | i in aliases :: RenamedIds(aliases[i], p), p, aliases', o);
      var k :| 0 <= k < |aliases[o]| && aliases[o][k] == a;
      assert RenamedIds(aliases[o], p)[k] == b;
    }
  }

  lemma KeyBack<V(!new)>(m: map<nat, V>, p: seq<nat>, m': map<nat, V>, j: nat) returns (i: nat)
    requires RenamedKeys(m, p, m') && j in m'
    ensures i in m && i < |p| && p[i] == j && m'[j] == m[i]
  {
    assert Unfold(KeysSeal, 0);
    i :| i in m && i < |p| && p[i] == j;
  }

  lemma KeyThere<V(!new)>(m: map<nat, V>, p: seq<nat>, m': map<nat, V>, i: nat)
    requires RenamedKeys(m, p, m') && i in m
    ensures i < |p| && p[i] in m' && m'[p[i]] == m[i]
  {
    assert Unfold(KeysSeal, 0);
  }

  lemma ValueThere(m: map<nat, nat>, p: seq<nat>, m': map<nat, nat>, v: nat)
    requires RenamedValues(m, p, m') && v in m'
    ensures v in m && m[v] < |p| && m'[v] == p[m[v]]
  {
    assert Unfold(ValuesSeal, 0);
  }

  /** The set has exactly the ids of the listed functions. */
  ghost predicate FunctionsListed(functions: seq<(nat, nat)>, ids: set<nat>) {
    (forall k :: 0 <= k < |functions| ==> functions[k].0 in ids)
    && forall i :: i in ids ==> exists k :: 0 <= k < |functions| && functions[k].0 == i
  }

  lemma FunctionsStayListed(t: Tables, p: seq<nat>, t': Tables)
    requires FunctionsRenamed(t, p, t') && FunctionsListed(t.functions, t.functionSet)
    ensures FunctionsListed(t'.functions, t'.functionSet)
  {
    forall j | j in t'.functionSet ensures exists k :: 0 <= k < |t'.functions| && t'.functions[k].0 == j {
      var i :| i in t.functionSet && i < |p| && p[i] == j;
      var k :| 0 <= k < |t.functions| && t.functions[k].0 == i;
      assert t'.functions[k].0 == j;
    }
  }

  /** What the tables agreed on, they still agree on. */
  ghost predicate KeepsAgreement(t: Tables, t': Tables) {
    && KeepsInverse(t.toIds, t.fromIds, t'.toIds, t'.fromIds)
    && (AliasesListed(t.aliasToObjs, t.objToAliases) ==> AliasesListed(t'.aliasToObjs, t'.objToAliases))
    && (FunctionsListed(t.functions, t.functionSet) ==> FunctionsListed(t'.functions, t'.functionSet))
  }

  lemma AgreementKept(t: Tables, p: seq<nat>, t': Tables)
    requires Renamed(t, p, t')
    ensures KeepsAgreement(t, t')
  {
    hide ToRenamed, FromRenamed, RenamedBoth, RenamedLists, FunctionsRenamed, KeepsInverse, AliasesListed,
        FunctionsListed;
    InverseKept(t.toIds, t.fromIds, p, t'.toIds, t'.fromIds);
    if AliasesListed(t.aliasToObjs, t.objToAliases) {
      AliasesRenamed(t.aliasToObjs, t.objToAliases, p, t'.aliasToObjs, t'.objToAliases);
    }
    if FunctionsListed(t.functions, t.functionSet) {
      FunctionsStayListed(t, p, t');
    }
  }

  // ---- The map ----

  class ObjectMap {
    var mapping: seq<nat>           // the value of each id, 0 for a null pointer
    var strong: seq<bool>
    var toIds: ToIds
    var fromIds: FromIds
    var aliasToObjs: map<nat, nat>
    var objToAliases: map<nat, seq<nat>>
    var functions: seq<(nat, nat)>
    var functionSet: set<nat>
    var objSet: seq<nat>            // in the order of iteration, which is ascending
    var maxObj: int
    const reps: UF.UnionFind

    ghost predicate Valid()
      reads this, reps
    {
      && reps.Valid() && |mapping| == |strong| == |reps.ids| && NUM_DEFAULT_OBJS <= |mapping|
      && Ascending(objSet, |mapping|) && Inside(Now(), |mapping|)
    }

    ghost function Reps(): (R: seq<nat>)
      requires Valid()
      reads this, reps
      ensures |R| == |mapping|
    {
      reps.Reps()
    }

    ghost function Now(): Tables
      reads this
    {
      Tables(toIds, fromIds, aliasToObjs, objToAliases, functions, functionSet)
    }

    /** The state has moved along with p; the strong flags come from the values. */
    ghost predicate Updated(mapping0: seq<nat>, t0: Tables, p: seq<nat>)
      reads this
    {
      && |mapping| == |strong| == |p| == |mapping0|
      && (forall i :: 0 <= i < |p| ==> p[i] < |p| && mapping[p[i]] == mapping0[i] && strong[p[i]] == (mapping0[i] != 0))
      && Renamed(t0, p, Now()) && KeepsAgreement(t0, Now())
    }

    constructor ()
      ensures Valid() && fresh(reps)
    {
      mapping, strong := seq(NUM_DEFAULT_OBJS, i => 0), seq(NUM_DEFAULT_OBJS, i => false);
      toIds := ToIds(map[], map[], map[], map[], map[], map[], map[]);
      fromIds := FromIds(map[], map[], map[], map[], map[], map[], map[]);
      aliasToObjs, objToAliases, functions, functionSet, objSet, maxObj := map[], map[], [], {}, [], -1;
      reps := new UF.UnionFind(NUM_DEFAULT_OBJS);
    }

    method UpdateInternal(p: seq<nat>)
      requires Valid() && |p| == |mapping| && UF.Permutes(p)
      modifies this, reps
      ensures Valid() && |mapping| == |p| && objSet == old(objSet) && maxObj == old(maxObj)
      ensures Updated(old(mapping), old(Now()), p)
      ensures forall i :: 0 <= i < |p| ==>
                && p[i] < |p| && mapping[p[i]] == old(mapping)[i] && (strong[p[i]] <==> old(mapping)[i] != 0)
                && old(Reps())[i] < |p| && Reps()[p[i]] == p[old(Reps())[i]]
      ensures UF.Commutes(old(Reps()), p, Reps())
    {
      hide Renamed, KeepsAgreement, Inside, Ascending, UF.Forest;
      UpdateTables(p);
      reps.Remap(p);
    }

    /** Everything but the representatives. */
    method UpdateTables(p: seq<nat>)
      requires |p| == |mapping| == |strong| && UF.Permutes(p) && Inside(Now(), |p|)
      modifies `strong, `mapping, `toIds, `fromIds, `aliasToObjs, `objToAliases, `functions, `functionSet
      ensures Inside(Now(), |p|) && Updated(old(mapping), old(Now()), p)
    {
      hide Renamed, KeepsAgreement, Inside;
      UpdateIds(p);
      UpdateValues(p);
    }

    /** The new strong flags are taken from the old mapping. */
    method UpdateValues(p: seq<nat>)
      requires |p| == |mapping| && UF.Permutes(p)
      modifies `strong, `mapping
      ensures |mapping| == |strong| == |p|
      ensures forall i :: 0 <= i < |p| ==> mapping[p[i]] == old(mapping)[i] && strong[p[i]] == (old(mapping)[i] != 0)
      ensures Now() == old(Now())
    {
      var m := mapping;
      strong := Moved(seq(|m|, i requires 0 <= i < |m| => m[i] != 0), p, false);
      mapping := Moved(m, p, 0);
    }

    /** The tables from and to ids. */
    method UpdateIds(p: seq<nat>)
      requires UF.Permutes(p) && Inside(Now(), |p|)
      modifies `toIds, `fromIds, `aliasToObjs, `objToAliases, `functions, `functionSet
      ensures Inside(Now(), |p|) && Renamed(old(Now()), p, Now())
      ensures KeepsAgreement(old(Now()), Now())
    {
      hide ToInside, FromInside, KeysInside, ValuesInside, ListsInside, ToRenamed, FromRenamed, RenamedBoth,
           RenamedLists, KeepsAgreement;
      ghost var t := Now();
      toIds := RenameToIds(toIds, p);
      fromIds := RenameFromIds(fromIds, p);
      objToAliases := RenameLists(objToAliases, p);
      aliasToObjs := RenameBoth(aliasToObjs, p);
      var fs := functions;
      functions := seq(|fs|, k requires 0 <= k < |fs| && fs[k].0 < |p| => (p[fs[k].0], fs[k].1));
      functionSet := set i | i in functionSet && i < |p| :: p[i];
      AgreementKept(t, p, Now());
    }

    /** Lowers the representatives to the first ids. */
    method LowerUsed() returns (remap: seq<nat>)
      requires Valid()
      modifies this, reps
      ensures Valid() && IsLowUsed(old(Reps()), remap) && UF.Permutes(remap)
      ensures UF.Commutes(old(Reps()), remap, Reps())
      ensures Updated(old(mapping), old(Now()), remap)
      ensures objSet == old(objSet) && maxObj == old(maxObj)
    {
      ghost var R := Reps();
      remap := LowUsedMap();
      LowUsedPermutes(R, remap);
      UpdateInternal(remap);
    }

    /** The renumbering that lowerUsed builds: one loop for the representatives, one for the others. */
    method LowUsedMap() returns (remap: seq<nat>)
      requires reps.Valid() && |reps.ids| == |mapping|
      modifies reps`ids
      ensures reps.Valid() && |reps.ids| == |mapping| && reps.Reps() == old(reps.Reps())
      ensures IsLowUsed(reps.Reps(), remap)
    {
      var remapId;
      remap, remapId := RepsFirst();
      OtherPassStart(reps.Reps(), remap, remapId);
      remap, remapId := OthersNext(remap, remapId);
      OtherPassDone(reps.Reps(), remap, remapId);
    }

    method RepsFirst() returns (remap: seq<nat>, remapId: nat)
      requires reps.Valid() && |reps.ids| == |mapping|
      modifies reps`ids
      ensures reps.Valid() && |reps.ids| == |mapping| && reps.Reps() == old(reps.Reps())
      ensures RepPass(reps.Reps(), remap, |mapping|, remapId)
    {
      hide RepPass;
      ghost var R := reps.Reps();
      remap := seq(|mapping|, i => 0);
      remapId := 0;
      RepPassStart(R, remap);
      for i := 0 to |mapping|
        invariant reps.Valid() && |reps.ids| == |mapping| == |remap| && reps.Reps() == R
            && RepPass(R, remap, i, remapId)
      {
        RepPassStep(R, remap, i, remapId);
        var r := reps.Find(i);
        if r == i {
          remap := remap[i := remapId];
          remapId := remapId + 1;
        }
      }
    }

    method OthersNext(remap1: seq<nat>, next: nat) returns (remap: seq<nat>, remapId: nat)
      requires reps.Valid() && |reps.ids| == |mapping| == |remap1| && OtherPass(reps.Reps(), remap1, 0, next)
      modifies reps`ids
      ensures reps.Valid() && |reps.ids| == |mapping| && reps.Reps() == old(reps.Reps())
      ensures OtherPass(reps.Reps(), remap, |mapping|, remapId)
    {
      hide OtherPass;
      ghost var R := reps.Reps();
      remap, remapId := remap1, next;
      for i := 0 to |mapping|
        invariant reps.Valid() && |reps.ids| == |mapping| == |remap| && reps.Reps() == R
            && OtherPass(R, remap, i, remapId)
      {
        OtherPassStep(R, remap, i, remapId);
        var r := reps.Find(i);
        if r != i {
          remap := remap[i := remapId];
          remapId := remapId + 1;
        }
      }
    }

    /** Lowers the objects to the ids after the special ones. The result is None where the source's assertion fails. */
    method LowerObjects() returns (remap: Option<seq<nat>>)
      requires Valid()
      modifies this, reps
      ensures Valid()
      ensures remap.Some? <==> forall k :: 0 <= k < |old(objSet)| ==> !IsSpecial(old(objSet)[k])
      ensures remap.Some? ==>
                && IsLowObjects(old(objSet), |mapping|, remap.value) && UF.Permutes(remap.value)
                && UF.Commutes(old(Reps()), remap.value, Reps())
                && Updated(old(mapping), old(Now()), remap.value)
                && objSet == []
      ensures remap.None? ==> unchanged(`mapping, `strong, `objSet) && Now() == old(Now()) && Reps() == old(Reps())
      ensures maxObj == NUM_DEFAULT_OBJS + |old(objSet)|
    {
      var p, next := LowMap(|mapping|, objSet);
      maxObj := NUM_DEFAULT_OBJS + |objSet|;
      LowObjectsFill(objSet, |mapping|);
      if next != |mapping| {
        return None;
      }
      LowObjectsPermutes(objSet, |mapping|, p);
      objSet := [];
      UpdateInternal(p);
      return Some(p);
    }
  }

  /** The special ids, then the objects: the first two loops of lowerObjects. last is the id set last. */
  method LowObjs(n: nat, objs: seq<nat>) returns (p: seq<nat>, next: nat, ghost last: nat)
    requires NUM_DEFAULT_OBJS <= n && Ascending(objs, n)
    ensures |p| == n && next == NUM_DEFAULT_OBJS + |objs| && last < n && p[last] == next - 1
    ensures last in objs || last < NUM_DEFAULT_OBJS
    ensures forall j {:trigger p[j]} :: 0 <= j < n && IsSpecial(j) && j !in objs ==> p[j] == j
    ensures forall j :: 0 <= j < |objs| ==> p[objs[j]] == NUM_DEFAULT_OBJS + j
  {
    p := seq(n, i => 0);
    next := 0;
    for i := 0 to NUM_DEFAULT_OBJS
      invariant |p| == n && next == i && forall j :: 0 <= j < i ==> p[j] == j
    {
      p := p[i := next];
      next := next + 1;
    }
    last := NUM_DEFAULT_OBJS - 1;
    for k := 0 to |objs|
      invariant |p| == n && next == NUM_DEFAULT_OBJS + k && last < n && p[last] == next - 1
      invariant last in objs || last < NUM_DEFAULT_OBJS
      invariant forall j {:trigger p[j]} :: 0 <= j < n && IsSpecial(j) && j !in objs ==> p[j] == j
      invariant forall j :: 0 <= j < k ==> p[objs[j]] == NUM_DEFAULT_OBJS + j
    {
      p := p[objs[k] := next];
      last := objs[k];
      next := next + 1;
    }
  }

  /** The renumbering that lowerObjects builds, and the first id it leaves free. */
  method LowMap(n: nat, objs: seq<nat>) returns (p: seq<nat>, next: nat)
    requires NUM_DEFAULT_OBJS <= n && Ascending(objs, n)
    ensures |p| == n && next == NUM_DEFAULT_OBJS + |objs| + OthersBelow(objs, n)
    ensures (forall k :: 0 <= k < |objs| ==> !IsSpecial(objs[k])) ==> IsLowObjects(objs, n, p)
    ensures next > n ==> !UF.Permutes(p)
  {
    ghost var last: nat;
    p, next, last := LowObjs(n, objs);
    assert ObjsPlaced(objs, n, p);
    for i := 0 to n
      invariant |p| == n && OthersPass(objs, n, p, i, next, last)
    {
      OthersPassStep(objs, n, p, i, next, last);
      if IsSpecial(i) || i in objs {
        continue;
      }
      p := p[i := next];
      last := i;
      next := next + 1;
    }
    OthersPassDone(objs, n, p, next, last);
  }

  /** The elements of s, each at its new place. */
  method Moved<T>(s: seq<T>, p: seq<nat>, filler: T) returns (t: seq<T>)
    requires |p| == |s| && UF.Permutes(p)
    ensures |t| == |s| && forall i :: 0 <= i < |s| ==> t[p[i]] == s[i]
  {
    t := seq(|s|, i => filler);
    for i := 0 to |s|
      invariant |t| == |s| && forall j :: 0 <= j < i ==> t[p[j]] == s[j]
    {
      t := t[p[i] := s[i]];
    }
  }

  method RenameValues(m: map<nat, nat>, p: seq<nat>) returns (m': map<nat, nat>)
    requires UF.Permutes(p) && ValuesInside(m, |p|)
    ensures RenamedValues(m, p, m') && ValuesInside(m', |p|) && m'.Keys == m.Keys
  {
    m' := map v | v in m :: p[m[v]];
  }

  method RenameKeys<V(!new)>(m: map<nat, V>, p: seq<nat>) returns (m': map<nat, V>)
    requires UF.Permutes(p) && KeysInside(m, |p|)
    ensures RenamedKeys(m, p, m') && KeysInside(m', |p|)
  {
    m' := map[];
    var left := m.Keys;
    while left != {}
      invariant left <= m.Keys
      invariant forall i :: i in m && i !in left ==> p[i] in m' && m'[p[i]] == m[i]
      invariant forall j :: j in m' ==> exists i :: i in m && i !in left && p[i] == j
    {
      var i :| i in left;
      m' := m'[p[i] := m[i]];
      left := left - {i};
      assert p[i] in m';
    }
  }

  method RenameBoth(m: map<nat, nat>, p: seq<nat>) returns (m': map<nat, nat>)
    requires UF.Permutes(p) && KeysInside(m, |p|) && ValuesInside(m, |p|)
    ensures RenamedBoth(m, p, m') && KeysInside(m', |p|) && ValuesInside(m', |p|)
  {
    hide RenamedKeys, RenamedValues;
    var mid := RenameValues(m, p);
    m' := RenameKeys(mid, p);
    RenamedKeysInside(mid, p, m');
  }

  method RenameLists(m: map<nat, seq<nat>>, p: seq<nat>) returns (m': map<nat, seq<nat>>)
    requires UF.Permutes(p) && ListsInside(m, |p|)
    ensures RenamedLists(m, p, m') && ListsInside(m', |p|)
  {
    hide RenamedKeys;
    m' := RenameKeys(map i | i in m :: RenamedIds(m[i], p), p);
    RenamedListsInside(m, p, m');
  }

  method RenameToIds(a: ToIds, p: seq<nat>) returns (a': ToIds)
    requires UF.Permutes(p) && ToInside(a, |p|)
    ensures ToRenamed(a, p, a') && ToInside(a', |p|)
  {
    hide RenamedValues, ValuesInside;
    var vals := RenameValues(a.vals, p);
    var objs := RenameValues(a.objs, p);
    var rets := RenameValues(a.rets, p);
    var varargs := RenameValues(a.varargs, p);
    var consts := RenameValues(a.consts, p);
    var names := RenameValues(a.names, p);
    var objNames := RenameValues(a.objNames, p);
    a' := ToIds(vals, objs, rets, varargs, consts, names, objNames);
  }

  method RenameFromIds(b: FromIds, p: seq<nat>) returns (b': FromIds)
    requires UF.Permutes(p) && FromInside(b, |p|)
    ensures FromRenamed(b, p, b') && FromInside(b', |p|)
  {
    hide RenamedKeys, KeysInside;
    var vals := RenameKeys(b.vals, p);
    var objs := RenameKeys(b.objs, p);
    var rets := RenameKeys(b.rets, p);
    var varargs := RenameKeys(b.varargs, p);
    var names := RenameKeys(b.names, p);
    var objNames := RenameKeys(b.objNames, p);
    var structs := RenameKeys(b.structs, p);
    b' := FromIds(vals, objs, rets, varargs, names, objNames, structs);
  }

  /** The strong flags come from the mapping, so they survive exactly when they said which ids have a value. */
  lemma StrongSurvives(strong: seq<bool>, mapping: seq<nat>, p: seq<nat>, strong': seq<bool>)
    requires |strong| == |mapping| == |p| == |strong'| && UF.Permutes(p)
    requires forall i :: 0 <= i < |p| ==> strong'[p[i]] == (mapping[i] != 0)
    ensures (forall i :: 0 <= i < |p| ==> strong'[p[i]] == strong[i])
        <==> forall i :: 0 <= i < |p| ==> strong[i] == (mapping[i] != 0)
  {
  }

  /** The first id after the default ones has a value and is not strong: whatever its new id, it becomes strong. */
  lemma WeakBecomesStrong(strong: seq<bool>, mapping: seq<nat>, p: seq<nat>, strong': seq<bool>)
    requires strong == [false, false, false, false, false, false] && mapping == [0, 0, 0, 0, 0, 7]
    requires |p| == |strong'| == 6 && UF.Permutes(p) && forall i :: 0 <= i < |p| ==> strong'[p[i]] == (mapping[i] != 0)
    ensures strong'[p[5]] && !strong[5]
  {
    assert strong'[p[5]] == (mapping[5] != 0);
  }

  // ---- What lowerUsed leaves as it was ----

  /** The new ids of the objects. */
  function NewIds(p: seq<nat>, objs: set<nat>): set<nat> {
    set o | o in objs && o < |p| :: p[o]
  }

  /** The object set, which lowerUsed does not rename, still names the objects exactly when it has the id of every
      place that an object moves to. */
  lemma ObjSetStillNames(R: seq<nat>, p: seq<nat>, objs: set<nat>)
    requires IsLowUsed(R, p) && forall o :: o in objs ==> o < |R|
    ensures NewIds(p, objs) == objs <==> forall o :: o in objs ==> LowUsed(R, o) in objs
  {
    if forall o :: o in objs ==> LowUsed(R, o) in objs {
      LowUsedPermutes(R, p);
      NewIdsSize(p, objs);
      assert NewIds(p, objs) <= objs;
      UF.SubsetOfSameSize(NewIds(p, objs), objs);
    } else {
      var o :| o in objs && LowUsed(R, o) !in objs;
      assert p[o] in NewIds(p, objs);
    }
  }

  lemma {:induction false} NewIdsSize(p: seq<nat>, objs: set<nat>)
    requires UF.Permutes(p) && forall o :: o in objs ==> o < |p|
    ensures |NewIds(p, objs)| == |objs|
  {
    if objs != {} {
      var o :| o in objs;
      NewIdsSize(p, objs - {o});
      assert NewIds(p, objs) == NewIds(p, objs - {o}) + {p[o]};
      assert p[o] !in NewIds(p, objs - {o});
    }
  }

  /** An object limit m, below which lowerObjects has put all objects, is still one after lowerUsed exactly when all
      ids below it are representatives or none from it on is. */
  lemma LimitStillBounds(R: seq<nat>, p: seq<nat>, m: nat)
    requires IsLowUsed(R, p) && m <= |R|
    ensures (forall i :: 0 <= i < m ==> p[i] < m)
            <==> (forall i :: 0 <= i < m ==> IsRep(R, i)) || (forall i :: m <= i < |R| ==> !IsRep(R, i))
  {
    if forall i :: 0 <= i < m ==> IsRep(R, i) {
    } else if forall i :: m <= i < |R| ==> !IsRep(R, i) {
      NoRepsBetween(R, m, |R|);
      forall i | 0 <= i < m ensures p[i] < m {
        RepsBelowGrows(R, i + 1, m);
        LowUsedOrder(R, i, i);
      }
    } else {
      var i := LastOther(R, m);
      var j :| m <= j < |R| && IsRep(R, j);
      RepsBelowGrows(R, m, j);
      RepsBelowGrows(R, j + 1, |R|);
      assert p[i] >= m;
    }
  }

  lemma {:induction false} NoRepsBetween(R: seq<nat>, i: nat, j: nat)
    requires i <= j && forall k :: i <= k < j ==> !IsRep(R, k)
    ensures RepsBelow(R, j) == RepsBelow(R, i)
  {
    if i < j { NoRepsBetween(R, i, j - 1); }
  }

  /** The last id below m that is no representative, and how many representatives there are before it. */
  lemma {:induction false} LastOther(R: seq<nat>, m: nat) returns (i: nat)
    requires m <= |R| && exists k :: 0 <= k < m && !IsRep(R, k)
    ensures i < m && !IsRep(R, i) && RepsBelow(R, m) == RepsBelow(R, i) + m - i - 1
  {
    if IsRep(R, m - 1) {
      i := LastOther(R, m - 1);
    } else {
      i := m - 1;
    }
  }

  /** Of the two ids after the default ones, merged, the second represents both. The first, an object below the
      object limit 6, becomes id 6, which the object set does not name and the limit does not bound. */
  lemma ObjSetGoesStale(p: seq<nat>)
    requires IsLowUsed([0, 1, 2, 3, 4, 6, 6], p)
    ensures p == [0, 1, 2, 3, 4, 6, 5] && NewIds(p, {5}) == {6} && !(forall i :: 0 <= i < 6 ==> p[i] < 6)
  {
    var R: seq<nat> := [0, 1, 2, 3, 4, 6, 6];
    assert forall i: nat :: i < 5 ==> IsRep(R, i);
    assert RepsBelow(R, 5) == 5 by { RepsOnly(R, 5); }
    forall i: nat | i < 5 ensures p[i] == i { RepsOnly(R, i); }
    assert !IsRep(R, 5) && IsRep(R, 6) && RepsBelow(R, 6) == 5 && RepsBelow(R, 7) == 6;
    assert p[5] == 6 && p[6] == 5;
  }

  lemma {:induction false} RepsOnly(R: seq<nat>, i: nat)
    requires forall j: nat :: j < i ==> IsRep(R, j)
    ensures RepsBelow(R, i) == i
  {
    if i > 0 { RepsOnly(R, i - 1); }
  }

  /** With the special id 0 an object, the loops of lowerObjects give out one id more than there are. The input is only
      conceivable: the object map marks new ids alone as objects, and these are not special. */
  lemma SpecialObjectOverruns()
    ensures var objs := [0];
            Ascending(objs, NUM_DEFAULT_OBJS) && IsSpecial(objs[0])
            && NUM_DEFAULT_OBJS + |objs| + OthersBelow(objs, NUM_DEFAULT_OBJS) == NUM_DEFAULT_OBJS + 1
  {
    OthersOfSpecial([0], NUM_DEFAULT_OBJS);
  }

  lemma {:induction false} OthersOfSpecial(objs: seq<nat>, i: nat)
    requires i <= NUM_DEFAULT_OBJS
    ensures OthersBelow(objs, i) == 0
  {
    if i > 0 { OthersOfSpecial(objs, i - 1); }
  }
}
