/**
  The order in which a replay plan records its actions
  (pytests/tests/test_replay_acceptance.py).
 */
module ActionOrder {
  import opened Wrappers

  datatype PlanError = UnknownAction(id: string)

  /** The dictionary from action ids to indices; a repeated id keeps its last index. */
  function Indices(ids: seq<string>): (m: map<string, nat>)
    ensures forall id :: id in m ==> m[id] < |ids|
    ensures m.Keys == set id | id in ids
  {
    if ids == [] then map[]
    else
      assert ids == ids[..|ids| - 1] + [ids[|ids| - 1]];
      Indices(ids[..|ids| - 1])[ids[|ids| - 1] := |ids| - 1]
  }

  lemma NoIndices()
    ensures Indices([]) == map[]
  {
  }

  lemma IndicesNext(ids: seq<string>)
    requires ids != []
    ensures Indices(ids) == Indices(ids[..|ids| - 1])[ids[|ids| - 1] := |ids| - 1]
  {
  }

  /** An id stands for the last action that has it. */
  lemma {:induction false} LastIndex(ids: seq<string>, id: string)
    requires id in ids
    ensures id in Indices(ids)
    ensures var x := Indices(ids)[id]; ids[x] == id && forall k :: x < k < |ids| ==> ids[k] != id
  {
    var init, last := ids[..|ids| - 1], ids[|ids| - 1];
    assert ids == init + [last];
    if id != last {
      LastIndex(init, id);
    }
  }

  /** The action indices the steps name, in order. */
  function Named(ids: seq<string>, steps: seq<string>): (r: seq<nat>)
    requires forall s :: s in steps ==> s in Indices(ids)
    ensures |r| == |steps| && forall x :: x in r ==> x < |ids|
  {
    var r: seq<nat> := seq(|steps|, k requires 0 <= k < |steps| => Indices(ids)[steps[k]]);
    assert forall k :: 0 <= k < |r| ==> steps[k] in Indices(ids) && r[k] == Indices(ids)[steps[k]];
    r
  }

  function First(named: seq<nat>, x: nat): (k: nat)
    ensures k <= |named| && (k < |named| ==> named[k] == x) && forall i :: 0 <= i < k ==> named[i] != x
  {
    if named == [] || named[0] == x then 0 else 1 + First(named[1..], x)
  }

  /** Actions rank by the first step that names them; unnamed ones follow, by index. */
  function Rank(named: seq<nat>, x: nat): nat {
    if First(named, x) < |named| then First(named, x) else |named| + x
  }

  /** `order` lists exactly the indices below `n`, each once, by ascending rank. */
  ghost predicate IsOrder(order: seq<nat>, named: seq<nat>, n: nat) {
    && (forall x :: x in order <==> 0 <= x < n)
    && Ranked(order, named)
  }

  predicate Ranked(order: seq<nat>, named: seq<nat>) {
    forall i, j :: 0 <= i < j < |order| ==> Rank(named, order[i]) < Rank(named, order[j])
  }

  /** Step `k` is the first to name action `x`; of actions with the same id, the last one is meant. */
  ghost predicate Mentions(ids: seq<string>, steps: seq<string>, x: nat, k: nat) {
    && x < |ids| && k < |steps| && steps[k] == ids[x]
    && (forall j :: 0 <= j < k ==> steps[j] != ids[x])
    && (forall y :: x < y < |ids| ==> ids[y] != ids[x])
  }

  /** Step `k` is the first to name no action. */
  predicate IsFirstUnknown(ids: seq<string>, steps: seq<string>, k: nat) {
    k < |steps| && steps[k] !in ids && forall j :: 0 <= j < k ==> steps[j] in ids
  }

  ghost predicate Mentioned(ids: seq<string>, steps: seq<string>, x: nat) {
    exists k: nat :: Mentions(ids, steps, x, k)
  }

  /** Action `x` comes before `y`: by their first mentions, and unmentioned ones last, by index. */
  ghost predicate Precedes(ids: seq<string>, steps: seq<string>, x: nat, y: nat) {
    if Mentioned(ids, steps, x) then
      Mentioned(ids, steps, y) ==>
        forall k: nat, l: nat :: Mentions(ids, steps, x, k) && Mentions(ids, steps, y, l) ==> k < l
    else !Mentioned(ids, steps, y) && x < y
  }

  /** `order` lists the actions by what the ids say, each exactly once. */
  ghost predicate IsPlanOrder(order: seq<nat>, ids: seq<string>, steps: seq<string>) {
    && |order| == |ids|
    && (forall x :: x in order <==> 0 <= x < |ids|)
    && (forall i, j :: 0 <= i < j < |order| ==> order[i] != order[j] && Precedes(ids, steps, order[i], order[j]))
  }

  /** An action ranks by its first mention, if there is one. */
  lemma MentionRank(ids: seq<string>, steps: seq<string>, x: nat)
    requires x < |ids| && forall s :: s in steps ==> s in Indices(ids)
    ensures var k := First(Named(ids, steps), x);
      if k < |steps| then forall l: nat :: Mentions(ids, steps, x, l) <==> l == k else !Mentioned(ids, steps, x)
  {
    var named, m := Named(ids, steps), Indices(ids);
    assert forall k :: 0 <= k < |steps| ==> steps[k] in m && named[k] == m[steps[k]];
    var k := First(named, x);
    forall j | 0 <= j < |steps|
      ensures named[j] == x <==> steps[j] == ids[x] && forall y :: x < y < |ids| ==> ids[y] != ids[x]
    {
      LastIndex(ids, steps[j]);
    }
  }

  /** The ranks order the actions as the ids say. */
  lemma OrderByIds(order: seq<nat>, ids: seq<string>, steps: seq<string>)
    requires forall s :: s in steps ==> s in Indices(ids)
    requires IsOrder(order, Named(ids, steps), |ids|)
    ensures IsPlanOrder(order, ids, steps)
  {
    var named := Named(ids, steps);
    OrderLength(order, named, |ids|);
    forall i, j | 0 <= i < j < |order| ensures order[i] != order[j] && Precedes(ids, steps, order[i], order[j]) {
      var x, y := order[i], order[j];
      assert x in order && y in order;
      assert Rank(named, x) < Rank(named, y);
      MentionRank(ids, steps, x);
      MentionRank(ids, steps, y);
      var k, l := First(named, x), First(named, y);
      assert k < |steps| ==> Mentions(ids, steps, x, k);
      assert l < |steps| ==> Mentions(ids, steps, y, l);
    }
  }

  method OrderedIndices(ids: seq<string>, steps: seq<string>) returns (r: Result<seq<nat>, PlanError>)
    ensures r.Ok? <==> forall s :: s in steps ==> s in ids
    ensures r.Ok? ==> IsOrder(r.value, Named(ids, steps), |ids|) && IsPlanOrder(r.value, ids, steps)
    ensures r.Err? ==> exists k :: 0 <= k < |steps| && IsFirstUnknown(ids, steps, k) && r.error.id == steps[k]
  {
    hide Indices, Rank, IsPlanOrder, Mentions, Precedes;
    var indices: map<string, nat> := map[];
    NoIndices();
    for k := 0 to |ids|
      invariant indices == Indices(ids[..k])
    {
      assert ids[..k + 1][..k] == ids[..k];
      IndicesNext(ids[..k + 1]);
      indices := indices[ids[k] := k];
    }
    assert ids[..|ids|] == ids;
    var ordered: seq<nat> := [];
    var seen: set<nat> := {};
    ghost var named: seq<nat> := [];
    for k := 0 to |steps|
      invariant |named| == k
      invariant forall i :: 0 <= i < k ==> steps[i] in indices && named[i] == indices[steps[i]]
      invariant forall x :: x in seen <==> x in named
      invariant forall x :: x in ordered <==> x in named
      invariant Ranked(ordered, named)
    {
      if steps[k] !in indices {
        assert forall j :: 0 <= j < k ==> steps[j] in indices;
        assert IsFirstUnknown(ids, steps, k);
        return Err(UnknownAction(steps[k]));
      }
      var index := indices[steps[k]];
      RankedNext(ordered, named, index);
      named := named + [index];
      if index !in seen {
        seen := seen + {index};
        ordered := ordered + [index];
      }
    }
    assert forall s :: s in steps ==> s in indices;
    assert named == Named(ids, steps);
    assert forall x :: x in named ==> x < |ids|;
    for index := 0 to |ids|
      invariant forall x :: x in seen <==> x in named
      invariant forall x :: x in ordered <==> x in named || 0 <= x < index
      invariant Ranked(ordered, named)
    {
      if index !in seen {
        RankedLast(ordered, named, index);
        ordered := ordered + [index];
      }
    }
    OrderByIds(ordered, ids, steps);
    return Ok(ordered);
  }

  datatype PlanAction = PlanAction(id: string, kind: string)
  datatype Recorded = Recorded(index: nat, kind: string)

  function Ids(actions: seq<PlanAction>): (r: seq<string>)
    ensures |r| == |actions| && forall k :: 0 <= k < |r| ==> r[k] == actions[k].id
  {
    seq(|actions|, k requires 0 <= k < |actions| => actions[k].id)
  }

  function IndicesOf(recorded: seq<Recorded>): (r: seq<nat>)
    ensures |r| == |recorded| && forall k :: 0 <= k < |r| ==> r[k] == recorded[k].index
  {
    seq(|recorded|, k requires 0 <= k < |recorded| => recorded[k].index)
  }

  lemma IdsOfActions(actions: seq<PlanAction>)
    ensures forall s :: s in Ids(actions) <==> exists a :: a in actions && a.id == s
  {
    var ids := Ids(actions);
    forall s ensures s in ids <==> exists a :: a in actions && a.id == s {
      if s in ids {
        var k :| 0 <= k < |ids| && ids[k] == s;
        assert actions[k] in actions && actions[k].id == s;
      }
      if a :| a in actions && a.id == s {
        var k :| 0 <= k < |actions| && actions[k] == a;
        assert ids[k] == s;
      }
    }
  }

  /** `_recorded_action_order`: the ordered indices, each with the kind of its action. */
  method RecordedActionOrder(actions: seq<PlanAction>, steps: seq<string>)
    returns (r: Result<seq<Recorded>, PlanError>)
    ensures r.Ok? <==> forall s :: s in steps ==> exists a :: a in actions && a.id == s
    ensures r.Ok? ==> IsPlanOrder(IndicesOf(r.value), Ids(actions), steps)
    ensures r.Ok? ==> forall a :: a in r.value ==> a.index < |actions| && a.kind == actions[a.index].kind
    ensures r.Err? ==>
      exists k :: 0 <= k < |steps| && IsFirstUnknown(Ids(actions), steps, k) && r.error.id == steps[k]
  {
    var found := OrderedIndices(Ids(actions), steps);
    IdsOfActions(actions);
    if found.Err? {
      return Err(found.error);
    }
    var ordered := found.value;
    assert forall x :: x in ordered ==> x < |actions|;
    assert forall k :: 0 <= k < |ordered| ==> ordered[k] in ordered;
    var recorded := seq(|ordered|, k requires 0 <= k < |ordered| => Recorded(ordered[k], actions[ordered[k]].kind));
    assert IndicesOf(recorded) == ordered;
    return Ok(recorded);
  }

  lemma {:induction false} FirstIn(named: seq<nat>, x: nat)
    ensures First(named, x) < |named| <==> x in named
  {
  }

  lemma {:induction false} FirstAppend(named: seq<nat>, y: nat, x: nat)
    ensures x in named ==> First(named + [y], x) == First(named, x)
    ensures x !in named ==> First(named + [y], x) == if x == y then |named| else |named| + 1
  {
    FirstIn(named, x);
    var k := First(named + [y], x);
    FirstIn(named + [y], x);
    if x in named {
      assert named[First(named, x)] == (named + [y])[First(named, x)];
      assert k < |named| ==> named[k] == x;
    } else if x == y {
      assert (named + [y])[|named|] == x;
    }
  }

  lemma RankedNext(ordered: seq<nat>, named: seq<nat>, y: nat)
    requires Ranked(ordered, named) && forall x :: x in ordered <==> x in named
    ensures Ranked(ordered, named + [y])
    ensures y !in ordered ==> Ranked(ordered + [y], named + [y])
  {
    forall x ensures x in ordered ==> Rank(named + [y], x) == Rank(named, x) < |named| {
      FirstIn(named, x);
      FirstAppend(named, y, x);
    }
    FirstAppend(named, y, y);
    forall i | 0 <= i < |ordered| ensures Rank(named + [y], ordered[i]) == Rank(named, ordered[i]) < |named| {
      assert ordered[i] in ordered;
    }
  }

  lemma RankedLast(ordered: seq<nat>, named: seq<nat>, index: nat)
    requires Ranked(ordered, named) && forall x :: x in ordered <==> x in named || 0 <= x < index
    requires index !in named
    ensures Ranked(ordered + [index], named)
  {
    FirstIn(named, index);
    forall i | 0 <= i < |ordered| ensures Rank(named, ordered[i]) < Rank(named, index) {
      assert ordered[i] in ordered;
      FirstIn(named, ordered[i]);
    }
  }

  /** The order is a permutation of the actions, and the only one with ascending ranks. */
  lemma {:induction false} OrderIsUnique(a: seq<nat>, b: seq<nat>, named: seq<nat>, n: nat)
    requires IsOrder(a, named, n) && IsOrder(b, named, n)
    ensures a == b && |a| == n
  {
    OrderLength(a, named, n);
    OrderLength(b, named, n);
    forall k | 0 <= k < n ensures a[k] == b[k] {
      SamePlace(a, b, named, n, k);
    }
  }

  lemma OrderLength(a: seq<nat>, named: seq<nat>, n: nat)
    requires IsOrder(a, named, n)
    ensures |a| == n
  {
    assert Elements(a) == Below(n);
    forall i, j | 0 <= i < j < |a| ensures a[i] != a[j] {
      assert Rank(named, a[i]) < Rank(named, a[j]);
    }
    DistinctLength(a);
  }

  function Below(n: nat): (r: set<nat>)
    ensures |r| == n && forall x :: x in r <==> 0 <= x < n
  {
    if n == 0 then {} else Below(n - 1) + {n - 1}
  }

  function Elements(a: seq<nat>): set<nat> {
    set x | x in a
  }

  lemma {:induction false} DistinctLength(a: seq<nat>)
    requires forall i, j :: 0 <= i < j < |a| ==> a[i] != a[j]
    ensures |Elements(a)| == |a|
  {
    if a != [] {
      var init, last := a[..|a| - 1], a[|a| - 1];
      DistinctLength(init);
      assert a == init + [last];
      assert last !in init;
      assert last !in Elements(init) && Elements(a) == Elements(init) + {last};
    }
  }

  lemma {:induction false} SamePlace(a: seq<nat>, b: seq<nat>, named: seq<nat>, n: nat, k: nat)
    requires IsOrder(a, named, n) && IsOrder(b, named, n) && |a| == |b| == n && k < n
    ensures a[k] == b[k]
    decreases k
  {
    assert a[k] in a && a[k] in b && b[k] in b && b[k] in a;
    var i :| 0 <= i < n && b[i] == a[k];
    var j :| 0 <= j < n && a[j] == b[k];
    if i < k {
      SamePlace(a, b, named, n, i);
    }
    if j < k {
      SamePlace(a, b, named, n, j);
    }
  }
}
