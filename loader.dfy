/** The bulk loader of js/mDB.js (mDBquery and mDBloaded), stated on values:
    the passes of a load, the collaborator call each cursor value leads to,
    and what a finished pass does next. Lifecycle.Session drives it from the
    cursor events and is proved against these functions. */
module Loader {
  import opened Types

  /** A key of mDBloaded: one pass of a bulk load. ShareKeys ("f_sk") is a
      pass over the nodes store that only installs share keys. */
  datatype Pass = OutKeys | Users | ShareKeys | Nodes | Shares
  {
    /** The pass's position in LoadOrder. */
    function Index(): (i: nat)
      ensures i < |LoadOrder| && LoadOrder[i] == this
    {
      match this
      case OutKeys => 0
      case Users => 1
      case ShareKeys => 2
      case Nodes => 3
      case Shares => 4
    }
  }

  /** The key under which mDBloaded records the pass. */
  function Key(p: Pass): (k: string)
    ensures p != ShareKeys ==> IsStore(k)
  {
    match p
    case OutKeys => OutKeysStore
    case Users => UsersStore
    case ShareKeys => "f_sk"
    case Nodes => NodesStore
    case Shares => SharesStore
  }

  /** The keys of mDBloaded in insertion order, which `for .. in` follows. */
  const LoadOrder: seq<Pass> := [OutKeys, Users, ShareKeys, Nodes, Shares]

  /** mDBloaded has a key for every pass. */
  lemma EveryPassLoads()
    ensures forall t: Pass :: t in LoadOrder
  {
    forall t: Pass
      ensures t in LoadOrder
    {
      assert LoadOrder[t.Index()] == t;
    }
  }

  /** The object store pass p reads (`if (t == 'f_sk') dt='f'`). */
  function StoreOf(p: Pass): (r: string)
    ensures IsStore(r)
    ensures p != ShareKeys ==> r == Key(p)
    ensures p == ShareKeys ==> r == NodesStore
  {
    if p == ShareKeys then NodesStore else Key(p)
  }

  /** The effects that stand for calls into the file manager's model. */
  predicate IsHydration(e: Effect)
  {
    e.ProcessOk? || e.AddNode? || e.ShareKey? || e.AddUser? || e.NodeShare?
  }

  /** The pass whose records lead to a hydration call. */
  function PassOf(e: Effect): Pass
    requires IsHydration(e)
  {
    match e
    case ProcessOk(_) => OutKeys
    case AddNode(_) => Nodes
    case ShareKey(_) => ShareKeys
    case AddUser(_) => Users
    case NodeShare(_) => Shares
  }

  /** The call one defined cursor value leads to in pass p: process_ok for
      outgoing keys, M.addNode for nodes, the share key of a node that has
      one, M.addUser for users and M.nodeShare for shares. */
  function Hydrate(p: Pass, v: Record): (r: seq<Effect>)
    ensures |r| <= 1
    ensures |r| == 1 ==> IsHydration(r[0]) && PassOf(r[0]) == p && r[0].rec == v
    ensures p != ShareKeys ==> |r| == 1
    ensures p == ShareKeys ==> (|r| == 1 <==> Truthy(v, "sk"))
  {
    match p
    case OutKeys => [ProcessOk(v)]
    case Nodes => [AddNode(v)]
    case ShareKeys => if Truthy(v, "sk") then [ShareKey(v)] else []
    case Users => [AddUser(v)]
    case Shares => [NodeShare(v)]
  }

  /** The number of defined values among the cursor's records. */
  function Defined(c: seq<Option<Record>>): nat
  {
    if c == [] then 0
    else Defined(c[..|c| - 1]) + (if c[|c| - 1].Some? then 1 else 0)
  }

  /** Whether some record's value was undefined (`fr = true`). */
  predicate HasUndefined(c: seq<Option<Record>>)
  {
    exists i :: 0 <= i < |c| && c[i].None?
  }

  /** The calls a pass makes over the records its cursor visited, in cursor
      order; an undefined value makes none. */
  function Hydrations(t: Pass, c: seq<Option<Record>>): (r: seq<Effect>)
    ensures forall i :: 0 <= i < |r| ==> IsHydration(r[i]) && PassOf(r[i]) == t
    ensures t != ShareKeys ==> |r| == Defined(c)
    ensures |r| <= Defined(c)
  {
    if c == [] then []
    else
      var rest := Hydrations(t, c[..|c| - 1]);
      rest + (if c[|c| - 1].Some? then Hydrate(t, c[|c| - 1].value) else [])
  }

  /** Hydrations of a cursor that visited `c` and then `v`. */
  lemma HydrationsStep(t: Pass, c: seq<Option<Record>>, v: Option<Record>)
    ensures Hydrations(t, c + [v]) == Hydrations(t, c) + (if v.Some? then Hydrate(t, v.value) else [])
    ensures HasUndefined(c + [v]) <==> HasUndefined(c) || v.None?
  {
    assert (c + [v])[..|c|] == c;
    if HasUndefined(c) {
      var i :| 0 <= i < |c| && c[i].None?;
      assert (c + [v])[i] == c[i];
    }
    if HasUndefined(c + [v]) && !v.None? {
      var i :| 0 <= i < |c + [v]| && (c + [v])[i].None?;
      assert i < |c| && c[i] == (c + [v])[i];
    }
  }

  /** Defined values are hydrated in cursor order: the calls of a pass over
      nodes are M.addNode of each defined value, and nothing else. */
  lemma {:induction false} NodePassAddsEachNode(c: seq<Option<Record>>, i: nat)
    requires i < |c| && c[i].Some?
    ensures AddNode(c[i].value) in Hydrations(Nodes, c)
  {
    var last := |c| - 1;
    if i < last {
      assert c[..last][i] == c[i];
      NodePassAddsEachNode(c[..last], i);
    }
  }

  /** The first key of `keys` that is not yet loaded. */
  function FirstUnloaded(keys: seq<Pass>, loaded: set<Pass>): (r: Option<Pass>)
    ensures r.Some? ==> r.value in keys && r.value !in loaded
    ensures r.None? ==> forall t :: t in keys ==> t in loaded
  {
    if keys == [] then None
    else if keys[0] !in loaded then Some(keys[0])
    else FirstUnloaded(keys[1..], loaded)
  }

  /** `for (var dbt in mDBloaded) if (mDBloaded[dbt] == 0)`: the next pass. */
  function NextUnloaded(loaded: set<Pass>): (r: Option<Pass>)
    ensures r.Some? ==> r.value !in loaded
    ensures r.None? ==> forall t: Pass :: t in loaded
  {
    EveryPassLoads();
    FirstUnloaded(LoadOrder, loaded)
  }

  /** The passes before pass i. */
  function Before(i: nat): set<Pass>
    requires i <= |LoadOrder|
  {
    set j | 0 <= j < i :: LoadOrder[j]
  }

  lemma {:induction false} FirstUnloadedAt(keys: seq<Pass>, loaded: set<Pass>, i: nat)
    requires i < |keys| && keys[i] !in loaded
    requires forall j :: 0 <= j < i ==> keys[j] in loaded
    ensures FirstUnloaded(keys, loaded) == Some(keys[i])
  {
    if i > 0 {
      FirstUnloadedAt(keys[1..], loaded, i - 1);
    }
  }

  /** Starting from nothing loaded, each finished pass is followed by the
      next one in the order ok, u, f_sk, f, s, and none after s. */
  lemma LoadsInOrder(i: nat)
    requires i < |LoadOrder|
    ensures NextUnloaded(Before(i)) == Some(LoadOrder[i])
    ensures Before(i) + {LoadOrder[i]} == Before(i + 1)
    ensures i + 1 < |LoadOrder| ==> NextUnloaded(Before(i + 1)) == Some(LoadOrder[i + 1])
    ensures i + 1 == |LoadOrder| ==> NextUnloaded(Before(i + 1)).None?
  {
    assert forall j :: 0 <= j < |LoadOrder| ==> LoadOrder[j].Index() == j;
    assert LoadOrder[i] !in Before(i);
    FirstUnloadedAt(LoadOrder, Before(i), i);
    if i + 1 < |LoadOrder| {
      assert LoadOrder[i + 1] !in Before(i + 1);
      FirstUnloadedAt(LoadOrder, Before(i + 1), i + 1);
    } else {
      forall t | t in LoadOrder ensures t in Before(i + 1) {
        var j :| 0 <= j < |LoadOrder| && LoadOrder[j] == t;
      }
    }
  }

  /** What the cursor's last `onsuccess` leads to. */
  datatype Outcome =
    | ForcedReload        // an undefined value was seen: mDBreload()
    | Next(pass: Pass)    // mDBquery(dbt) for the next unloaded pass
    | Reload              // all loaded, but no maxaction or M.d empty: mDBreload()
    | CatchUp             // all loaded: getsc(1)

  /** The end of pass t: a forced reload when a value was undefined; else t
      is marked loaded and the next unloaded pass runs; once none is left,
      incremental catch-up needs both a stored maxaction and a non-empty
      in-memory node dictionary, and otherwise the store is rebuilt. */
  function AfterPass(t: Pass, forced: bool, loaded: set<Pass>, maxaction: bool, hasNodes: bool): (o: Outcome)
    ensures o == ForcedReload <==> forced
    ensures o.Next? <==> !forced && NextUnloaded(loaded + {t}).Some?
    ensures o.Next? ==> o.pass !in loaded + {t}
    ensures o == CatchUp <==> !forced && NextUnloaded(loaded + {t}).None? && maxaction && hasNodes
    ensures o == CatchUp ==> forall p: Pass :: p in loaded + {t}
  {
    if forced then ForcedReload
    else match NextUnloaded(loaded + {t})
      case Some(n) => Next(n)
      case None => if maxaction && hasNodes then CatchUp else Reload
  }
}
