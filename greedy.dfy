/** Greedy single-pass clustering, the scheme of `mergeNearbyLines`: each
    item not yet consumed becomes a seed, in order; every later unconsumed
    item that is near the value accumulated so far is merged into it and
    consumed. The scheme is stated for any item type, merge function and
    nearness test, so that the proofs about it do not depend on geometry. */
module Greedy {
  import opened Common

  /** Strictly increasing. */
  predicate Ascending(g: seq<nat>) {
    forall a, b :: 0 <= a < b < |g| ==> g[a] < g[b]
  }

  /** Every entry of `g` is below `n`. */
  predicate Below(g: seq<nat>, n: nat) {
    forall a :: 0 <= a < |g| ==> g[a] < n
  }

  /** A cluster of `items`: a non-empty ascending list of its indices. */
  predicate IsGroup<T>(items: seq<T>, g: seq<nat>) {
    g != [] && Ascending(g) && Below(g, |items|)
  }

  /** The length of the longest prefix of `g` whose entries are below `j`. */
  function CountBelow(g: seq<nat>, j: nat): (c: nat)
    ensures c <= |g| && Below(g[..c], j)
    ensures c < |g| ==> g[c] >= j
    decreases |g|
  {
    if g == [] || g[0] >= j then 0 else 1 + CountBelow(g[1..], j)
  }

  /** The members of the ascending group `g` that come before index `j`. */
  function Before(g: seq<nat>, j: nat): (r: seq<nat>)
    ensures |r| <= |g| && r == g[..|r|] && Below(r, j)
    ensures |r| < |g| ==> g[|r|] >= j
  {
    g[..CountBelow(g, j)]
  }

  /** A group whose members all precede `j` is entirely before `j`, and a
      member at or past `j` added at the end changes nothing before `j`. */
  lemma BeforeAll(g: seq<nat>, x: nat, j: nat)
    ensures Below(g, j) ==> Before(g, j) == g
    ensures x >= j ==> Before(g + [x], j) == Before(g, j)
  {
    if Below(g, j) {
      CountBelowAll(g, j);
    }
    if x >= j {
      CountBelowSnoc(g, x, j);
      var c := CountBelow(g, j);
      assert (g + [x])[..c] == g[..c];
    }
  }

  lemma {:induction false} CountBelowAll(g: seq<nat>, j: nat)
    requires Below(g, j)
    ensures CountBelow(g, j) == |g|
    decreases |g|
  {
    if g != [] {
      assert Below(g[1..], j);
      CountBelowAll(g[1..], j);
    }
  }

  lemma {:induction false} CountBelowSnoc(g: seq<nat>, x: nat, j: nat)
    requires x >= j
    ensures CountBelow(g + [x], j) == CountBelow(g, j)
    decreases |g|
  {
    if g != [] && g[0] < j {
      assert (g + [x])[1..] == g[1..] + [x];
      CountBelowSnoc(g[1..], x, j);
    }
  }

  /** The value a group accumulates: its first item, merged in turn with
      each later member. */
  function Fold<T>(items: seq<T>, g: seq<nat>, merge: (T, T) -> T): T
    requires g != [] && Below(g, |items|)
    decreases |g|
  {
    if |g| == 1 then items[g[0]]
    else merge(Fold(items, DropLast(g), merge), items[Last(g)])
  }

  /** Adding a member at the end merges its item into the group's value. */
  lemma FoldSnoc<T>(items: seq<T>, g: seq<nat>, j: nat, merge: (T, T) -> T)
    requires g != [] && Below(g, |items|) && j < |items|
    ensures Below(g + [j], |items|)
    ensures Fold(items, g + [j], merge) == merge(Fold(items, g, merge), items[j])
  {
    assert DropLast(g + [j]) == g;
  }

  /** Where an index went: the group that consumed it and its position there. */
  datatype Slot = Slot(group: nat, position: nat)

  /** Index `j` belongs to group `k`. */
  predicate Claimed(owner: map<nat, Slot>, j: nat, k: nat) {
    j in owner && owner[j].group == k
  }

  /** Index `j` was still unconsumed when group `k` was formed. */
  predicate Open(owner: map<nat, Slot>, j: nat, k: nat) {
    j !in owner || owner[j].group >= k
  }

  /** The slot `owner` gives index `j` exists in `groups` and holds `j`. */
  predicate InSlot(groups: seq<seq<nat>>, owner: map<nat, Slot>, j: nat)
    requires j in owner
  {
    owner[j].group < |groups| && owner[j].position < |groups[owner[j].group]| && groups[owner[j].group][owner[j].position] == j
  }

  /** Index `j`, after the seed of group `g`, is near the value the group
      had accumulated from its members before `j`. */
  ghost predicate Absorbs<T>(items: seq<T>, g: seq<nat>, j: nat, merge: (T, T) -> T, near: (T, T) -> bool)
    requires IsGroup(items, g) && g[0] < j < |items|
  {
    near(Fold(items, Before(g, j), merge), items[j])
  }

  /** The absorption rule for group `g` with index `k`, for indices below
      `upTo`: an index after its seed that was unconsumed when the group was
      formed joins it exactly when it is near the value the group had
      accumulated from the members before it. */
  ghost predicate GreedyGroup<T>(items: seq<T>, g: seq<nat>, k: nat, owner: map<nat, Slot>, upTo: nat, merge: (T, T) -> T, near: (T, T) -> bool)
    requires IsGroup(items, g) && upTo <= |items|
  {
    forall j :: g[0] < j < upTo && Open(owner, j, k) ==> (Claimed(owner, j, k) <==> Absorbs(items, g, j, merge, near))
  }

  /** `merged` is the outcome of the greedy single-pass clustering of
      `items`: `groups[k]` lists the indices folded into `merged[k]` and
      `owner` gives each index its group and position, so that
      - every index of `items` is consumed by exactly one group;
      - each group starts at its seed, the first index no earlier group took,
        and seeds increase;
      - each later index joins the first group whose accumulated value it is
        near when its turn comes. */
  ghost predicate GreedyMerge<T>(items: seq<T>, merged: seq<T>, groups: seq<seq<nat>>, owner: map<nat, Slot>, merge: (T, T) -> T, near: (T, T) -> bool) {
    && |merged| == |groups|
    && (forall k :: 0 <= k < |groups| ==> IsGroup(items, groups[k]) && merged[k] == Fold(items, groups[k], merge))
    && (forall j: nat :: j in owner <==> j < |items|)
    && (forall j :: j in owner ==> InSlot(groups, owner, j))
    && (forall k, m :: 0 <= k < |groups| && 0 <= m < |groups[k]| ==> groups[k][m] in owner && owner[groups[k][m]] == Slot(k, m))
    && (forall k, k' :: 0 <= k < k' < |groups| ==> groups[k][0] < groups[k'][0])
    && (forall k, j :: 0 <= k < |groups| && 0 <= j < groups[k][0] ==> j in owner && owner[j].group < k)
    && (forall k :: 0 <= k < |groups| ==> GreedyGroup(items, groups[k], k, owner, |items|, merge, near))
  }

  /** Extending `owner` with indices that go to other groups leaves the
      absorption rule of group `k` intact. */
  lemma GreedyGroupExtend<T>(items: seq<T>, g: seq<nat>, k: nat, owner: map<nat, Slot>, owner': map<nat, Slot>, upTo: nat,
                             merge: (T, T) -> T, near: (T, T) -> bool)
    requires IsGroup(items, g) && upTo <= |items| && GreedyGroup(items, g, k, owner, upTo, merge, near)
    requires forall j :: j in owner ==> j in owner' && owner'[j] == owner[j]
    requires forall j :: j in owner' && j !in owner ==> owner'[j].group != k
    ensures GreedyGroup(items, g, k, owner', upTo, merge, near)
  {
    forall j | g[0] < j < upTo && Open(owner', j, k)
      ensures Claimed(owner', j, k) <==> Absorbs(items, g, j, merge, near)
    {
      assert Open(owner, j, k);
      assert Claimed(owner', j, k) == Claimed(owner, j, k);
    }
  }

  /** Absorbing the next index `j` into a group that has accounted for every
      index before `j` extends the absorption rule to `j`. */
  lemma GreedyGroupAbsorb<T>(items: seq<T>, g: seq<nat>, k: nat, owner: map<nat, Slot>, j: nat, merge: (T, T) -> T, near: (T, T) -> bool)
    requires IsGroup(items, g) && Below(g, j) && g[0] < j < |items| && j !in owner
    requires GreedyGroup(items, g, k, owner, j, merge, near)
    requires near(Fold(items, g, merge), items[j])
    ensures IsGroup(items, g + [j])
    ensures GreedyGroup(items, g + [j], k, owner[j := Slot(k, |g|)], j + 1, merge, near)
  {
    GroupSnoc(items, g, j);
    var g', owner' := g + [j], owner[j := Slot(k, |g|)];
    forall j' | g'[0] < j' < j + 1 && Open(owner', j', k)
      ensures Claimed(owner', j', k) <==> Absorbs(items, g', j', merge, near)
    {
      if j' < j {
        AbsorbKeepsEarlier(items, g, k, owner, j, j', merge, near);
      } else {
        BeforeAll(g, j, j);
        assert Before(g', j) == g;
      }
    }
  }

  /** Absorbing `j` changes neither the claim on an earlier index nor what
      the group had accumulated when that index's turn came. */
  lemma AbsorbKeepsEarlier<T>(items: seq<T>, g: seq<nat>, k: nat, owner: map<nat, Slot>, j: nat, j': nat, merge: (T, T) -> T, near: (T, T) -> bool)
    requires IsGroup(items, g) && Below(g, j) && g[0] < j' < j < |items| && j !in owner
    requires IsGroup(items, g + [j])
    ensures Claimed(owner[j := Slot(k, |g|)], j', k) == Claimed(owner, j', k)
    ensures Open(owner[j := Slot(k, |g|)], j', k) == Open(owner, j', k)
    ensures Absorbs(items, g + [j], j', merge, near) == Absorbs(items, g, j', merge, near)
  {
    BeforeAll(g, j, j');
  }

  /** Appending an index past every member, within range, keeps a group a group. */
  lemma GroupSnoc<T>(items: seq<T>, g: seq<nat>, j: nat)
    requires IsGroup(items, g) && Below(g, j) && j < |items|
    ensures IsGroup(items, g + [j])
  {
  }

  /** Passing over the next index `j`, because an earlier group took it or
      because it is not near, extends the absorption rule to `j`. */
  lemma GreedyGroupSkip<T>(items: seq<T>, g: seq<nat>, k: nat, owner: map<nat, Slot>, j: nat, merge: (T, T) -> T, near: (T, T) -> bool)
    requires IsGroup(items, g) && Below(g, j) && g[0] < j < |items|
    requires GreedyGroup(items, g, k, owner, j, merge, near)
    requires (j in owner && owner[j].group < k) || (j !in owner && !near(Fold(items, g, merge), items[j]))
    ensures GreedyGroup(items, g, k, owner, j + 1, merge, near)
  {
    BeforeAll(g, 0, j);
  }

  /** `owner'` extends `owner` with exactly the members of the group `g`
      being formed as group number `k`, each in its own position. */
  ghost predicate Extends(owner: map<nat, Slot>, owner': map<nat, Slot>, g: seq<nat>, k: nat) {
    && (forall j :: j in owner ==> j in owner' && owner'[j] == owner[j])
    && (forall j :: j in owner' && j !in owner ==> owner'[j].group == k && owner'[j].position < |g| && g[owner'[j].position] == j)
    && (forall a :: 0 <= a < |g| ==> g[a] in owner' && owner'[g[a]] == Slot(k, a))
  }

  /** Claiming the seed starts the group. */
  lemma ExtendsSeed(owner: map<nat, Slot>, i: nat, k: nat)
    requires i !in owner
    ensures Extends(owner, owner[i := Slot(k, 0)], [i], k)
  {
  }

  /** Claiming a further unclaimed index appends it to the group. */
  lemma ExtendsSnoc(owner: map<nat, Slot>, owner': map<nat, Slot>, g: seq<nat>, k: nat, j: nat)
    requires Extends(owner, owner', g, k) && j !in owner'
    ensures Extends(owner, owner'[j := Slot(k, |g|)], g + [j], k)
  {
    var owner'', g' := owner'[j := Slot(k, |g|)], g + [j];
    forall a | 0 <= a < |g'|
      ensures g'[a] in owner'' && owner''[g'[a]] == Slot(k, a)
    {
      if a < |g| {
        assert g'[a] == g[a] && g[a] in owner';
      }
    }
  }

  /** The inner loop of the clustering (of `mergeNearbyLines`) for the seed
      `i`, unused so far, forming group number `k`: scan the later unused
      indices in order and absorb each one near the value accumulated so
      far. `used` is the source's set of consumed indices; the ghost map
      `owner` records where each went. */
  method GrowGroup<T>(items: seq<T>, i: nat, ghost k: nat, used: set<nat>, ghost owner: map<nat, Slot>, merge: (T, T) -> T, near: (T, T) -> bool)
    returns (current: T, used': set<nat>, ghost g: seq<nat>, ghost owner': map<nat, Slot>)
    requires i < |items| && used == owner.Keys && i !in used
    requires forall j :: j in owner ==> owner[j].group < k
    ensures IsGroup(items, g) && g[0] == i && current == Fold(items, g, merge)
    ensures used' == owner'.Keys
    ensures Extends(owner, owner', g, k)
    ensures GreedyGroup(items, g, k, owner', |items|, merge, near)
  {
    current := items[i];
    used' := used + {i};
    g := [i];
    ExtendsSeed(owner, i, k);
    owner' := owner[i := Slot(k, 0)];
    for j := i + 1 to |items|
      invariant Growing(items, owner, k, g, owner', current, j, merge, near)
      invariant g[0] == i && used' == owner'.Keys
    {
      current, used', g, owner' := GrowStep(items, j, k, used', owner, g, owner', current, merge, near);
    }
  }

  /** One pass of the inner loop, at index `j`: skip it if used, absorb it
      if near the accumulated value, pass over it otherwise. */
  method GrowStep<T>(items: seq<T>, j: nat, ghost k: nat, used: set<nat>, ghost owner: map<nat, Slot>, ghost g: seq<nat>, ghost owner': map<nat, Slot>,
                     current: T, merge: (T, T) -> T, near: (T, T) -> bool)
    returns (current': T, used': set<nat>, ghost g': seq<nat>, ghost owner'': map<nat, Slot>)
    requires Growing(items, owner, k, g, owner', current, j, merge, near) && j < |items| && used == owner'.Keys
    requires forall x :: x in owner ==> owner[x].group < k
    ensures Growing(items, owner, k, g', owner'', current', j + 1, merge, near)
    ensures g'[0] == g[0] && used' == owner''.Keys
  {
    if j in used {
      GrowingSkip(items, owner, k, g, owner', current, j, merge, near);
      return current, used, g, owner';
    }
    if near(current, items[j]) {
      GrowingAbsorb(items, owner, k, g, owner', current, j, merge, near);
      return merge(current, items[j]), used + {j}, g + [j], owner'[j := Slot(k, |g|)];
    }
    GrowingSkip(items, owner, k, g, owner', current, j, merge, near);
    return current, used, g, owner';
  }

  /** The inner loop's invariant before index `j`: `g` is the group grown
      so far, `current` its accumulated value, `owner'` the claims
      including it, and the absorption rule holds up to `j`. */
  ghost predicate Growing<T>(items: seq<T>, owner: map<nat, Slot>, k: nat, g: seq<nat>, owner': map<nat, Slot>, current: T, j: nat,
                             merge: (T, T) -> T, near: (T, T) -> bool) {
    && j <= |items| && IsGroup(items, g) && Below(g, j) && g[0] < j
    && current == Fold(items, g, merge)
    && Extends(owner, owner', g, k)
    && GreedyGroup(items, g, k, owner', j, merge, near)
  }

  /** Passing over index `j`, taken already or not near, keeps the inner
      loop's invariant. */
  lemma GrowingSkip<T>(items: seq<T>, owner: map<nat, Slot>, k: nat, g: seq<nat>, owner': map<nat, Slot>, current: T, j: nat,
                       merge: (T, T) -> T, near: (T, T) -> bool)
    requires Growing(items, owner, k, g, owner', current, j, merge, near) && j < |items|
    requires forall x :: x in owner ==> owner[x].group < k
    requires j in owner' || !near(current, items[j])
    ensures Growing(items, owner, k, g, owner', current, j + 1, merge, near)
  {
    ExtendsBelow(owner, owner', g, k, j);
    GreedyGroupSkip(items, g, k, owner', j, merge, near);
  }

  /** Absorbing index `j`, unclaimed and near, keeps the inner loop's invariant. */
  lemma GrowingAbsorb<T>(items: seq<T>, owner: map<nat, Slot>, k: nat, g: seq<nat>, owner': map<nat, Slot>, current: T, j: nat,
                         merge: (T, T) -> T, near: (T, T) -> bool)
    requires Growing(items, owner, k, g, owner', current, j, merge, near) && j < |items|
    requires j !in owner' && near(current, items[j])
    ensures Growing(items, owner, k, g + [j], owner'[j := Slot(k, |g|)], merge(current, items[j]), j + 1, merge, near)
  {
    GreedyGroupAbsorb(items, g, k, owner', j, merge, near);
    FoldSnoc(items, g, j, merge);
    ExtendsSnoc(owner, owner', g, k, j);
  }

  /** The indices the group being formed has claimed all precede `j`. */
  lemma ExtendsBelow(owner: map<nat, Slot>, owner': map<nat, Slot>, g: seq<nat>, k: nat, j: nat)
    requires Extends(owner, owner', g, k) && Below(g, j)
    ensures forall x :: x in owner' && x !in owner ==> x < j
  {
    forall x | x in owner' && x !in owner
      ensures x < j
    {
      assert g[owner'[x].position] == x;
    }
  }

  /** What the outer loop keeps true once the seeds below `i` have been
      handled: the greedy clustering of `items`, except that only the
      indices below `i` need have been consumed. */
  ghost predicate MergedUpTo<T>(items: seq<T>, merged: seq<T>, groups: seq<seq<nat>>, owner: map<nat, Slot>, i: nat,
                                merge: (T, T) -> T, near: (T, T) -> bool) {
    && i <= |items|
    && |merged| == |groups|
    && (forall k :: 0 <= k < |groups| ==> IsGroup(items, groups[k]) && merged[k] == Fold(items, groups[k], merge))
    && (forall j :: j in owner ==> j < |items| && InSlot(groups, owner, j))
    && (forall j: nat :: j < i ==> j in owner)
    && (forall k, m :: 0 <= k < |groups| && 0 <= m < |groups[k]| ==> groups[k][m] in owner && owner[groups[k][m]] == Slot(k, m))
    && (forall k :: 0 <= k < |groups| ==> groups[k][0] < i)
    && (forall k, k' :: 0 <= k < k' < |groups| ==> groups[k][0] < groups[k'][0])
    && (forall k, j :: 0 <= k < |groups| && 0 <= j < groups[k][0] ==> j in owner && owner[j].group < k)
    && (forall k :: 0 <= k < |groups| ==> GreedyGroup(items, groups[k], k, owner, |items|, merge, near))
  }

  /** Emitting the group grown from the unconsumed seed `i` keeps the outer
      loop's invariant for the next seed. */
  lemma MergedUpToGrow<T>(items: seq<T>, merged: seq<T>, groups: seq<seq<nat>>, owner: map<nat, Slot>, i: nat,
                          value: T, g: seq<nat>, owner': map<nat, Slot>, merge: (T, T) -> T, near: (T, T) -> bool)
    requires MergedUpTo(items, merged, groups, owner, i, merge, near) && i < |items| && i !in owner
    requires IsGroup(items, g) && g[0] == i && value == Fold(items, g, merge)
    requires Extends(owner, owner', g, |groups|)
    requires GreedyGroup(items, g, |groups|, owner', |items|, merge, near)
    ensures MergedUpTo(items, merged + [value], groups + [g], owner', i + 1, merge, near)
  {
    GrowSlots(items, merged, groups, owner, i, g, owner', merge, near);
    GrowSeeds(groups, owner, i, g, owner');
    GrowRules(items, merged, groups, owner, i, g, owner', merge, near);
  }

  /** The slots after emitting group `g`: every owned index sits in its slot. */
  lemma GrowSlots<T>(items: seq<T>, merged: seq<T>, groups: seq<seq<nat>>, owner: map<nat, Slot>, i: nat,
                     g: seq<nat>, owner': map<nat, Slot>, merge: (T, T) -> T, near: (T, T) -> bool)
    requires MergedUpTo(items, merged, groups, owner, i, merge, near) && i < |items| && i !in owner
    requires IsGroup(items, g) && g[0] == i
    requires Extends(owner, owner', g, |groups|)
    ensures var groups' := groups + [g];
      && (forall j :: j in owner' ==> j < |items| && InSlot(groups', owner', j))
      && (forall k, m :: 0 <= k < |groups'| && 0 <= m < |groups'[k]| ==> groups'[k][m] in owner' && owner'[groups'[k][m]] == Slot(k, m))
  {
    var groups' := groups + [g];
    forall j | j in owner'
      ensures j < |items| && InSlot(groups', owner', j)
    {
      if j in owner {
        assert groups'[owner[j].group] == groups[owner[j].group];
      } else {
        assert g[owner'[j].position] < |items|;
      }
    }
    forall k, m | 0 <= k < |groups'| && 0 <= m < |groups'[k]|
      ensures groups'[k][m] in owner' && owner'[groups'[k][m]] == Slot(k, m)
    {
      if k < |groups| {
        assert groups'[k] == groups[k];
      }
    }
  }

  /** The seeds after emitting group `g`: they still increase, and every
      index before a seed belongs to an earlier group. */
  lemma GrowSeeds(groups: seq<seq<nat>>, owner: map<nat, Slot>, i: nat, g: seq<nat>, owner': map<nat, Slot>)
    requires forall k :: 0 <= k < |groups| ==> |groups[k]| > 0 && groups[k][0] < i
    requires forall k, k' :: 0 <= k < k' < |groups| ==> groups[k][0] < groups[k'][0]
    requires forall k, j :: 0 <= k < |groups| && 0 <= j < groups[k][0] ==> j in owner && owner[j].group < k
    requires forall j: nat :: j < i ==> j in owner
    requires forall j :: j in owner ==> owner[j].group < |groups|
    requires |g| > 0 && g[0] == i && i in owner' && owner'[i].group == |groups|
    requires forall j :: j in owner ==> j in owner' && owner'[j] == owner[j]
    ensures var groups' := groups + [g];
      && (forall j: nat :: j < i + 1 ==> j in owner')
      && (forall k :: 0 <= k < |groups'| ==> groups'[k][0] < i + 1)
      && (forall k, k' :: 0 <= k < k' < |groups'| ==> groups'[k][0] < groups'[k'][0])
      && (forall k, j :: 0 <= k < |groups'| && 0 <= j < groups'[k][0] ==> j in owner' && owner'[j].group < k)
  {
    var groups' := groups + [g];
    forall k | 0 <= k < |groups'|
      ensures groups'[k][0] < i + 1
    {
      if k < |groups| {
        assert groups'[k] == groups[k];
      }
    }
    forall k, k' | 0 <= k < k' < |groups'|
      ensures groups'[k][0] < groups'[k'][0]
    {
      assert groups'[k] == groups[k];
      if k' < |groups| {
        assert groups'[k'] == groups[k'];
      }
    }
    forall k, j | 0 <= k < |groups'| && 0 <= j < groups'[k][0]
      ensures j in owner' && owner'[j].group < k
    {
      if k < |groups| {
        assert groups'[k] == groups[k];
      }
    }
  }

  /** The absorption rules after emitting group `g`: the earlier groups'
      rules survive, since `g` claimed only indices no earlier group took. */
  lemma GrowRules<T>(items: seq<T>, merged: seq<T>, groups: seq<seq<nat>>, owner: map<nat, Slot>, i: nat,
                     g: seq<nat>, owner': map<nat, Slot>, merge: (T, T) -> T, near: (T, T) -> bool)
    requires MergedUpTo(items, merged, groups, owner, i, merge, near)
    requires Extends(owner, owner', g, |groups|)
    ensures forall k :: 0 <= k < |groups| ==> GreedyGroup(items, groups[k], k, owner', |items|, merge, near)
  {
    forall k | 0 <= k < |groups|
      ensures GreedyGroup(items, groups[k], k, owner', |items|, merge, near)
    {
      GreedyGroupExtend(items, groups[k], k, owner, owner', |items|, merge, near);
    }
  }

  /** An index consumed by an earlier group is not a seed: passing over it
      keeps the outer loop's invariant. */
  lemma MergedUpToSkip<T>(items: seq<T>, merged: seq<T>, groups: seq<seq<nat>>, owner: map<nat, Slot>, i: nat,
                          merge: (T, T) -> T, near: (T, T) -> bool)
    requires MergedUpTo(items, merged, groups, owner, i, merge, near) && i < |items| && i in owner
    ensures MergedUpTo(items, merged, groups, owner, i + 1, merge, near)
  {
  }

  /** Once every seed is handled, the outer loop's invariant is the greedy
      clustering. */
  lemma MergedUpToDone<T>(items: seq<T>, merged: seq<T>, groups: seq<seq<nat>>, owner: map<nat, Slot>, merge: (T, T) -> T, near: (T, T) -> bool)
    requires MergedUpTo(items, merged, groups, owner, |items|, merge, near)
    ensures GreedyMerge(items, merged, groups, owner, merge, near)
  {
  }

  /** The clustering never yields more values than it was given. */
  lemma MergeShrinks<T>(items: seq<T>, merged: seq<T>, groups: seq<seq<nat>>, owner: map<nat, Slot>, merge: (T, T) -> T, near: (T, T) -> bool)
    requires GreedyMerge(items, merged, groups, owner, merge, near)
    ensures |merged| <= |items|
  {
    var seeds := seq(|groups|, k requires 0 <= k < |groups| => groups[k][0]);
    AscendingBounded(seeds, |items|);
  }

  /** A strictly increasing sequence of naturals below `n` has at most `n` elements. */
  lemma {:induction false} AscendingBounded(s: seq<nat>, n: nat)
    requires Ascending(s) && Below(s, n)
    ensures |s| <= n
    decreases n
  {
    if s != [] {
      var s' := DropLast(s);
      assert Below(s', Last(s));
      AscendingBounded(s', n - 1);
    }
  }

  /** A seed that absorbed nothing is emitted unchanged. */
  lemma LoneSeedUnchanged<T>(items: seq<T>, merged: seq<T>, groups: seq<seq<nat>>, owner: map<nat, Slot>, k: nat,
                             merge: (T, T) -> T, near: (T, T) -> bool)
    requires GreedyMerge(items, merged, groups, owner, merge, near)
    requires k < |groups| && |groups[k]| == 1
    ensures merged[k] == items[groups[k][0]]
  {
  }
}
