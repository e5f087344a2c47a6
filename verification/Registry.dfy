/** The pane registry as a value: what each Manager method does to the pane map, the
    registration order and the id counter, and what holds over every run. */
module Registry {
  import opened Decimal

  datatype Info = Info(
    id: string,
    tty: string,
    active: bool,
    width: int,
    height: int,
    pid: int,
    path: string
  )

  datatype Reg = Reg(panes: map<string, Info>, order: seq<string>, next: int)

  /** What Save writes and Load reads. */
  datatype Saved = Saved(panes: seq<Info>, next: int)

  function New(): Reg { Reg(map[], [], 0) }

  function NextId(r: Reg): (Reg, string) {
    (r.(next := r.next + 1), Itoa(r.next))
  }

  /** The pane Register creates: the first one of an empty registry is active. */
  function NewPane(r: Reg, tty: string): Info {
    Info(Itoa(r.next), tty, |r.panes| == 0, 0, 0, 0, "")
  }

  function Register(r: Reg, tty: string): Reg {
    var p := NewPane(r, tty);
    Reg(r.panes[p.id := p], r.order + [p.id], r.next + 1)
  }

  /** `order` without the first occurrence of `id`. */
  function Remove(order: seq<string>, id: string): seq<string> {
    if order == [] then []
    else if order[0] == id then order[1..]
    else [order[0]] + Remove(order[1..], id)
  }

  /** The new registry, and whether the pane was found. */
  function Unregister(r: Reg, id: string): (Reg, bool) {
    if id !in r.panes then (r, false)
    else (r.(panes := r.panes - {id}, order := Remove(r.order, id)), true)
  }

  function SetActive(r: Reg, id: string): (Reg, bool) {
    if id !in r.panes then (r, false)
    else (r.(panes := map k | k in r.panes :: r.panes[k].(active := r.panes[k].id == id)), true)
  }

  /** Position of the first occurrence, or -1. */
  function IndexOf(order: seq<string>, id: string): int {
    if order == [] then -1
    else if order[0] == id then 0
    else
      var i := IndexOf(order[1..], id);
      if i < 0 then -1 else i + 1
  }

  /** The panes in registration order, skipping ids without a pane. */
  function Listed(panes: map<string, Info>, order: seq<string>): seq<Info> {
    if order == [] then []
    else Listed(panes, order[..|order| - 1])
         + (if order[|order| - 1] in panes then [panes[order[|order| - 1]]] else [])
  }

  function List(r: Reg): seq<Info> { Listed(r.panes, r.order) }

  function Save(r: Reg): Saved { Saved(List(r), r.next) }

  function LoadedPanes(infos: seq<Info>): map<string, Info> {
    if infos == [] then map[]
    else LoadedPanes(infos[..|infos| - 1])[infos[|infos| - 1].id := infos[|infos| - 1]]
  }

  function Ids(infos: seq<Info>): (ids: seq<string>)
    ensures |ids| == |infos| && forall i | 0 <= i < |ids| :: ids[i] == infos[i].id
  {
    if infos == [] then [] else Ids(infos[..|infos| - 1]) + [infos[|infos| - 1].id]
  }

  function Load(saved: Saved): Reg {
    Reg(LoadedPanes(saved.panes), Ids(saved.panes), saved.next)
  }

  // ----- the invariant of every run

  ghost predicate KeyedById(r: Reg) {
    forall k | k in r.panes :: r.panes[k].id == k
  }

  /** `id` is the rendering of a number below `next`. */
  predicate Issued(id: string, next: int) {
    0 <= Value(id) < next && id == Itoa(Value(id))
  }

  ghost predicate Increasing(order: seq<string>) {
    forall i, j | 0 <= i < j < |order| :: Value(order[i]) < Value(order[j])
  }

  ghost predicate AtMostOneActive(r: Reg) {
    forall a, b | a in r.panes && b in r.panes && r.panes[a].active && r.panes[b].active :: a == b
  }

  ghost predicate Inv(r: Reg) {
    && KeyedById(r)
    && r.next >= 0
    && (forall id :: id in r.panes <==> id in r.order)
    && (forall i | 0 <= i < |r.order| :: Issued(r.order[i], r.next))
    && Increasing(r.order)
    && AtMostOneActive(r)
  }

  /** The order slice holds no pane twice. */
  lemma NoDuplicates(order: seq<string>, i: nat, j: nat)
    requires Increasing(order) && i < |order| && j < |order|
    ensures order[i] == order[j] ==> i == j
  {
    var a, b := Value(order[i]), Value(order[j]);
  }

  /** No number from the counter on names a pane yet. */
  lemma UnissuedIsUnused(r: Reg, n: int)
    requires Inv(r) && n >= r.next
    ensures Itoa(n) !in r.panes && Itoa(n) !in r.order
  {
    ItoaValue(n);
  }

  lemma InvRegister(r: Reg, tty: string)
    requires Inv(r)
    ensures Inv(Register(r, tty))
  {
    hide Itoa, Value;
    UnissuedIsUnused(r, r.next);
    ItoaValue(r.next);
    var p := NewPane(r, tty);
    if p.active {
      assert r.panes == map[];
    }
  }

  /** What Register adds: a pane under the counter's rendering, at the end, with the given
      terminal and nothing else known, active exactly when it is the only pane. */
  lemma RegisterAdds(r: Reg, tty: string)
    requires Inv(r)
    ensures var s, id := Register(r, tty), Itoa(r.next);
            && s.order == r.order + [id] && s.next == r.next + 1
            && s.panes.Keys == r.panes.Keys + {id} && id !in r.panes
            && s.panes[id] == Info(id, tty, r.panes == map[], 0, 0, 0, "")
            && (forall k | k in r.panes :: s.panes[k] == r.panes[k])
            && (r.panes == map[] ==> forall k | k in s.panes :: s.panes[k].active <==> k == id)
            && (r.panes != map[] ==> !s.panes[id].active)
  {
    hide Increasing, Issued;
    UnissuedIsUnused(r, r.next);
    assert |r.panes| == 0 <==> r.panes == map[];
  }

  /** What SetActive changes: the flags and nothing else; an unknown id changes nothing. */
  lemma SetActiveChanges(r: Reg, id: string)
    requires KeyedById(r)
    ensures SetActive(r, id).1 <==> id in r.panes
    ensures var s := SetActive(r, id).0;
            && s.order == r.order && s.next == r.next && s.panes.Keys == r.panes.Keys
            && (id !in r.panes ==> s == r)
            && (id in r.panes ==> forall k | k in r.panes :: s.panes[k] == r.panes[k].(active := k == id))
  {
  }

  /** What Unregister changes: one pane less and its id out of the order; an unknown id
      changes nothing. */
  lemma UnregisterChanges(r: Reg, id: string)
    requires Inv(r)
    ensures Unregister(r, id).1 <==> id in r.panes
    ensures var s := Unregister(r, id).0;
            && s.next == r.next && s.panes == r.panes - {id}
            && (id !in r.panes ==> s == r)
            && (id in r.panes ==>
                  exists k :: 0 <= k < |r.order| && r.order[k] == id && s.order == r.order[..k] + r.order[k + 1..])
  {
    if id in r.panes {
      RemoveAt(r.order, id);
      var k := IndexOf(r.order, id);
      forall j | 0 <= j < k ensures r.order[j] != id {
        NoDuplicates(r.order, j, k);
      }
      RemoveFirst(r.order, id, k);
    }
  }

  lemma {:induction false} RemoveAt(order: seq<string>, id: string)
    requires id in order
    ensures 0 <= IndexOf(order, id) < |order| && order[IndexOf(order, id)] == id
    ensures |Remove(order, id)| == |order| - 1
    ensures forall i | 0 <= i < |order| - 1 ::
              Remove(order, id)[i] == order[if i < IndexOf(order, id) then i else i + 1]
  {
    if order[0] != id {
      RemoveAt(order[1..], id);
    }
  }

  /** What a scan for the first occurrence tells: `i` is where it is, or the end. */
  lemma {:induction false} RemoveFirst(order: seq<string>, id: string, i: nat)
    requires i <= |order| && forall j | 0 <= j < i :: order[j] != id
    requires i < |order| ==> order[i] == id
    ensures Remove(order, id) == if i < |order| then order[..i] + order[i + 1..] else order
  {
    if i == 0 {
    } else {
      RemoveFirst(order[1..], id, i - 1);
    }
  }

  lemma RemoveMembers(order: seq<string>, id: string, x: string)
    requires Increasing(order) && id in order
    ensures x in Remove(order, id) <==> x in order && x != id
  {
    RemoveAt(order, id);
    var k, s := IndexOf(order, id), Remove(order, id);
    if x in s {
      var i :| 0 <= i < |s| && s[i] == x;
      NoDuplicates(order, k, if i < k then i else i + 1);
    }
    if x in order && x != id {
      var i :| 0 <= i < |order| && order[i] == x;
      assert s[if i < k then i else i - 1] == x;
    }
  }

  lemma InvUnregister(r: Reg, id: string)
    requires Inv(r)
    ensures Inv(Unregister(r, id).0)
  {
    if id in r.panes {
      var s := Unregister(r, id).0;
      forall x ensures x in s.panes <==> x in s.order {
        RemoveMembers(r.order, id, x);
      }
      RemoveAt(r.order, id);
    }
  }

  lemma InvSetActive(r: Reg, id: string)
    requires Inv(r)
    ensures Inv(SetActive(r, id).0)
    ensures id in r.panes ==> forall k :: k in r.panes ==> (SetActive(r, id).0.panes[k].active <==> k == id)
  {
  }

  /** One operation on the registry. */
  datatype Op =
    | OpRegister(tty: string)
    | OpUnregister(id: string)
    | OpSetActive(id: string)
    | OpNextId

  function Apply(r: Reg, op: Op): Reg {
    match op
    case OpRegister(tty) => Register(r, tty)
    case OpUnregister(id) => Unregister(r, id).0
    case OpSetActive(id) => SetActive(r, id).0
    case OpNextId => NextId(r).0
  }

  function Run(r: Reg, ops: seq<Op>): Reg
    decreases |ops|
  {
    if ops == [] then r else Run(Apply(r, ops[0]), ops[1..])
  }

  /** The ids handed out along a run. */
  function Handed(r: Reg, ops: seq<Op>): seq<string>
    decreases |ops|
  {
    if ops == [] then []
    else (if ops[0].OpRegister? then [NewPane(r, ops[0].tty).id]
          else if ops[0].OpNextId? then [NextId(r).1]
          else [])
         + Handed(Apply(r, ops[0]), ops[1..])
  }

  lemma InvApply(r: Reg, op: Op)
    requires Inv(r)
    ensures Inv(Apply(r, op))
  {
    match op
    case OpRegister(tty) => InvRegister(r, tty);
    case OpUnregister(id) => InvUnregister(r, id);
    case OpSetActive(id) => InvSetActive(r, id);
    case OpNextId =>
  }

  /** Every registry a run reaches keeps the invariant. */
  lemma {:induction false} InvRun(r: Reg, ops: seq<Op>)
    requires Inv(r)
    ensures Inv(Run(r, ops))
    decreases |ops|
  {
    if ops != [] {
      InvApply(r, ops[0]);
      InvRun(Apply(r, ops[0]), ops[1..]);
    }
  }

  ghost predicate Reachable(r: Reg) {
    exists ops :: r == Run(New(), ops)
  }

  lemma {:induction false} RunConcat(r: Reg, a: seq<Op>, b: seq<Op>)
    ensures Run(r, a + b) == Run(Run(r, a), b)
    decreases |a|
  {
    if a == [] {
      assert a + b == b;
    } else {
      assert (a + b)[1..] == a[1..] + b;
      RunConcat(Apply(r, a[0]), a[1..], b);
    }
  }

  lemma ReachableRun(r: Reg, ops: seq<Op>)
    requires Reachable(r)
    ensures Reachable(Run(r, ops))
  {
    var before :| r == Run(New(), before);
    RunConcat(New(), before, ops);
  }

  lemma ReachableInv(r: Reg)
    requires Reachable(r)
    ensures Inv(r)
  {
    var ops :| r == Run(New(), ops);
    InvRun(New(), ops);
  }

  lemma {:induction false} HandedInOrder(r: Reg, ops: seq<Op>)
    ensures Run(r, ops).next == r.next + |Handed(r, ops)|
    ensures forall i | 0 <= i < |Handed(r, ops)| :: Handed(r, ops)[i] == Itoa(r.next + i)
    decreases |ops|
  {
    if ops != [] {
      HandedInOrder(Apply(r, ops[0]), ops[1..]);
    }
  }

  /** No id is handed out twice in a run, removals or not, nor one that names a pane
      registered before the run began. */
  lemma NeverReissued(r: Reg, ops: seq<Op>, i: nat, j: nat)
    requires Inv(r) && i < |Handed(r, ops)| && j < |Handed(r, ops)|
    ensures Handed(r, ops)[i] == Handed(r, ops)[j] ==> i == j
    ensures Handed(r, ops)[i] !in r.panes
  {
    hide *;
    HandedInOrder(r, ops);
    ItoaValue(r.next + i);
    ItoaValue(r.next + j);
    UnissuedIsUnused(r, r.next + i);
  }

  lemma FateStep(r: Reg, op: Op, id: string)
    requires Inv(r) && Issued(id, r.next)
    ensures id in Apply(r, op).panes <==> id in r.panes && op != OpUnregister(id)
    ensures Issued(id, Apply(r, op).next)
  {
    ItoaValue(r.next);
  }

  /** An id already handed out names its pane until that pane is unregistered, and
      from then on no pane, along every run. */
  lemma {:induction false} IdFate(r: Reg, ops: seq<Op>, id: string)
    requires Inv(r) && Issued(id, r.next)
    ensures Inv(Run(r, ops))
    ensures id in Run(r, ops).panes <==> id in r.panes && OpUnregister(id) !in ops
    decreases |ops|
  {
    if ops != [] {
      InvApply(r, ops[0]);
      FateStep(r, ops[0], id);
      IdFate(Apply(r, ops[0]), ops[1..], id);
      assert ops == [ops[0]] + ops[1..];
    }
  }

  /** Removing the pane just registered restores everything but the counter. */
  lemma UnregisterLast(r: Reg, tty: string)
    requires Itoa(r.next) !in r.panes && Itoa(r.next) !in r.order
    ensures Unregister(Register(r, tty), Itoa(r.next)) == (r.(next := r.next + 1), true)
  {
    var id := Itoa(r.next);
    var order := r.order + [id];
    RemoveFirst(order, id, |r.order|);
    assert order[..|r.order|] + order[|r.order| + 1..] == r.order;
    assert Register(r, tty).panes - {id} == r.panes;
  }

  // ----- agreement of the three views

  lemma {:induction false} IndexOfFinds(order: seq<string>, id: string)
    ensures IndexOf(order, id) == -1 <==> id !in order
    ensures id in order ==> 0 <= IndexOf(order, id) < |order| && order[IndexOf(order, id)] == id
  {
    if order != [] {
      IndexOfFinds(order[1..], id);
    }
  }

  lemma {:induction false} ListedAll(panes: map<string, Info>, order: seq<string>)
    requires forall id | id in order :: id in panes
    ensures |Listed(panes, order)| == |order|
    ensures forall i | 0 <= i < |order| :: Listed(panes, order)[i] == panes[order[i]]
  {
    if order != [] {
      ListedAll(panes, order[..|order| - 1]);
    }
  }

  /** IndexOf, List and OrderedList agree: the pane listed at position i is the one
      whose id is at position i of the order, and that is where IndexOf finds it. */
  lemma ViewsAgree(r: Reg, i: nat)
    requires Inv(r) && i < |r.order|
    ensures |List(r)| == |r.order| == |r.panes|
    ensures List(r)[i].id == r.order[i] && List(r)[i] == r.panes[r.order[i]]
    ensures IndexOf(r.order, r.order[i]) == i
  {
    ListedAll(r.panes, r.order);
    IndexOfFinds(r.order, r.order[i]);
    NoDuplicates(r.order, i, IndexOf(r.order, r.order[i]));
    OrderCountsPanes(r.order, r.panes.Keys);
  }

  lemma {:induction false} OrderCountsPanes(order: seq<string>, ids: set<string>)
    requires Increasing(order) && forall id :: id in ids <==> id in order
    ensures |order| == |ids|
  {
    if order == [] {
      assert ids == {};
    } else {
      var n := |order| - 1;
      assert forall i | 0 <= i < n :: Value(order[i]) < Value(order[n]);
      forall id ensures id in ids - {order[n]} <==> id in order[..n] {
        if id in order[..n] {
          var i :| 0 <= i < n && order[i] == id;
        }
      }
      OrderCountsPanes(order[..n], ids - {order[n]});
    }
  }

  /** The ids of the listed panes are the order. */
  lemma ListedIds(r: Reg)
    requires Inv(r)
    ensures Ids(List(r)) == r.order
  {
    ListedAll(r.panes, r.order);
  }

  lemma ReachableListed(r: Reg)
    requires Reachable(r)
    ensures Ids(List(r)) == r.order
  {
    ReachableInv(r);
    ListedIds(r);
  }

  lemma OrderShifts(order: seq<string>, id: string, other: string)
    requires Increasing(order) && id in order && other in order && other != id
    ensures var k, i := IndexOf(order, id), IndexOf(order, other);
            IndexOf(Remove(order, id), other) == if i < k then i else i - 1
    ensures IndexOf(Remove(order, id), id) == -1
  {
    hide Increasing;
    var k, i, s := IndexOf(order, id), IndexOf(order, other), Remove(order, id);
    RemoveAt(order, id);
    IndexOfFinds(order, other);
    RemoveMembers(order, id, id);
    RemoveMembers(order, id, other);
    IndexOfFinds(s, id);
    IndexOfFinds(s, other);
    var j := IndexOf(s, other);
    NoDuplicates(order, i, if j < k then j else j + 1);
  }

  /** In-place removal shifts exactly the later panes down by one. */
  lemma RemovalShifts(r: Reg, id: string, other: string)
    requires Inv(r) && id in r.panes && other in r.panes && other != id
    ensures var k, i := IndexOf(r.order, id), IndexOf(r.order, other);
            IndexOf(Unregister(r, id).0.order, other) == if i < k then i else i - 1
    ensures IndexOf(Unregister(r, id).0.order, id) == -1
    ensures Unregister(r, id).0.panes[other] == r.panes[other]
  {
    OrderShifts(r.order, id, other);
  }

  // ----- persistence

  lemma {:induction false} LoadListed(panes: map<string, Info>, order: seq<string>)
    requires forall k | k in panes :: panes[k].id == k
    ensures forall id :: id in LoadedPanes(Listed(panes, order)) <==> id in order && id in panes
    ensures forall id | id in LoadedPanes(Listed(panes, order)) :: LoadedPanes(Listed(panes, order))[id] == panes[id]
  {
    if order != [] {
      var n := |order| - 1;
      LoadListed(panes, order[..n]);
      var before := Listed(panes, order[..n]);
      assert order == order[..n] + [order[n]];
      if order[n] in panes {
        assert (before + [panes[order[n]]])[..|before|] == before;
      } else {
        assert before + [] == before;
      }
    }
  }

  lemma {:induction false} IdsListed(panes: map<string, Info>, order: seq<string>)
    requires forall k | k in panes :: panes[k].id == k
    ensures |Ids(Listed(panes, order))| <= |order|
    ensures (forall id | id in order :: id in panes) <==> Ids(Listed(panes, order)) == order
    ensures |Ids(Listed(panes, order))| == |order| ==> Ids(Listed(panes, order)) == order
  {
    if order != [] {
      var n := |order| - 1;
      IdsListed(panes, order[..n]);
      var before := Listed(panes, order[..n]);
      assert order == order[..n] + [order[n]];
      if order[n] in panes {
        assert (before + [panes[order[n]]])[..|before|] == before;
        assert Ids(before + [panes[order[n]]]) == Ids(before) + [order[n]];
        if Ids(Listed(panes, order)) == order {
          assert Ids(before) == order[..n];
        }
      } else {
        assert before + [] == before;
      }
    }
  }

  /** Loading what was saved restores the registry, pane for pane, if and only if the
      order and the map name the same panes. */
  lemma SaveLoadIff(r: Reg)
    requires KeyedById(r)
    ensures Load(Save(r)) == r <==> forall id :: id in r.panes <==> id in r.order
  {
    LoadListed(r.panes, r.order);
    IdsListed(r.panes, r.order);
    var s := Load(Save(r));
    assert forall id :: id in s.panes <==> id in r.order && id in r.panes;
    if forall id :: id in r.panes <==> id in r.order {
      assert s.panes == r.panes;
    }
  }

  /** What is written for a reachable registry: its panes in order, and the counter. */
  lemma SavedInOrder(r: Reg, i: nat)
    requires Inv(r) && i < |r.order|
    ensures Save(r).next == r.next && |Save(r).panes| == |r.order|
    ensures Save(r).panes[i] == r.panes[r.order[i]]
  {
    ViewsAgree(r, i);
  }

  lemma {:induction false} LoadedIds(infos: seq<Info>, id: string)
    ensures id in LoadedPanes(infos) <==> id in Ids(infos)
  {
    if infos != [] {
      LoadedIds(infos[..|infos| - 1], id);
    }
  }

  /** What any file loads to: the ids in its order, repetitions included, each naming the
      last pane of that id. */
  lemma {:induction false} LoadedFrom(infos: seq<Info>, i: nat)
    requires i < |infos|
    ensures Ids(infos)[i] == infos[i].id
    ensures forall id :: id in LoadedPanes(infos) <==> id in Ids(infos)
    ensures (forall j | i < j < |infos| :: infos[j].id != infos[i].id) ==>
              infos[i].id in LoadedPanes(infos) && LoadedPanes(infos)[infos[i].id] == infos[i]
  {
    forall id ensures id in LoadedPanes(infos) <==> id in Ids(infos) {
      LoadedIds(infos, id);
    }
    if i < |infos| - 1 {
      LoadedFrom(infos[..|infos| - 1], i);
    }
  }

  lemma ReloadRestores(r: Reg)
    requires Reachable(r)
    ensures Load(Save(r)) == r && Inv(r)
  {
    ReachableInv(r);
    SaveLoadIff(r);
  }

  /** From any reachable registry, a saved and reloaded copy is in lockstep with the
      original: the same operations hand out the same ids and reach the same state. */
  lemma ReloadedInLockstep(r: Reg, ops: seq<Op>)
    requires Reachable(r)
    ensures Inv(Load(Save(r)))
    ensures Run(Load(Save(r)), ops) == Run(r, ops)
    ensures Handed(Load(Save(r)), ops) == Handed(r, ops)
  {
    ReloadRestores(r);
  }
}
