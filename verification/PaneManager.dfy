/** The Manager object: a map of mutable panes, an order slice edited in place and an
    id counter. Every method is proved against the value-level Registry. */
module PaneManager {
  import D = Decimal
  import R = Registry

  class Pane {
    const id: string
    var tty: string
    var active: bool
    var width: int
    var height: int
    var pid: int
    var currentPath: string

    constructor (info: R.Info)
      ensures Info() == info
    {
      id, tty, active := info.id, info.tty, info.active;
      width, height, pid, currentPath := info.width, info.height, info.pid, info.path;
    }

    function Info(): R.Info
      reads this
    {
      R.Info(id, tty, active, width, height, pid, currentPath)
    }
  }

  /** What the state file's path leads to. */
  datatype Content = Missing | Garbage | Stored(saved: R.Saved)

  /** The first file operation of Save that fails, if any. */
  datatype SaveFault = NoFault | CreateFails | WriteFails | CloseFails | RenameFails

  class StateFile {
    var content: Content
    var temporaries: nat  // temporary files lying beside it
  }

  lemma NoneListed(r: R.Reg)
    ensures R.Listed(r.panes, r.order[..0]) == []
  {
  }

  lemma ListedOneMore(r: R.Reg, i: nat)
    requires i < |r.order|
    ensures R.Listed(r.panes, r.order[..i + 1]) ==
            R.Listed(r.panes, r.order[..i]) + (if r.order[i] in r.panes then [r.panes[r.order[i]]] else [])
  {
    assert r.order[..i + 1][..i] == r.order[..i];
  }

  lemma LoadNothing()
    ensures R.LoadedPanes([]) == map[] && R.Ids([]) == []
  {
  }

  lemma LoadOneMore(infos: seq<R.Info>, i: nat)
    requires i < |infos|
    ensures R.LoadedPanes(infos[..i + 1]) == R.LoadedPanes(infos[..i])[infos[i].id := infos[i]]
    ensures R.Ids(infos[..i + 1]) == R.Ids(infos[..i]) + [infos[i].id]
  {
    assert infos[..i + 1][..i] == infos[..i];
  }

  class Manager {
    var panes: map<string, Pane>
    var order: seq<string>
    var nextPaneID: int

    /** Each pane is filed under its own id, so no two keys share a pane object. */
    ghost predicate Valid()
      reads this
    {
      forall k | k in panes :: panes[k].id == k
    }

    /** The registry this object represents. */
    ghost function State(): R.Reg
      reads this, panes.Values
    {
      R.Reg(map k | k in panes :: panes[k].Info(), order, nextPaneID)
    }

    constructor ()
      ensures Valid() && State() == R.New()
      ensures panes == map[]
    {
      panes, order, nextPaneID := map[], [], 0;
    }

    method NextID() returns (id: string)
      requires Valid()
      modifies this
      ensures Valid() && panes == old(panes)
      ensures State() == R.NextId(old(State())).0 && id == R.NextId(old(State())).1
    {
      id := D.Itoa(nextPaneID);
      nextPaneID := nextPaneID + 1;
    }

    /** Files a new pane object at the end of the order. */
    method Insert(info: R.Info) returns (p: Pane)
      requires Valid()
      modifies this`panes, this`order
      ensures Valid() && fresh(p) && p.Info() == info
      ensures panes == old(panes)[info.id := p]
      ensures State() ==
              R.Reg(old(State()).panes[info.id := info], old(order) + [info.id], nextPaneID)
    {
      p := new Pane(info);
      panes := panes[p.id := p];
      order := order + [p.id];
    }

    method Register(tty: string) returns (p: Pane)
      requires Valid()
      modifies this
      ensures Valid() && fresh(p)
      ensures panes == old(panes)[p.id := p]
      ensures p.Info() == R.NewPane(old(State()), tty)
      ensures State() == R.Register(old(State()), tty)
    {
      assert State().panes.Keys == panes.Keys;
      var isFirst := |panes| == 0;
      var id := NextID();
      p := Insert(R.Info(id, tty, isFirst, 0, 0, 0, ""));
    }

    method Unregister(id: string) returns (ok: bool)
      requires Valid()
      modifies this
      ensures Valid()
      ensures State() == R.Unregister(old(State()), id).0 && ok == R.Unregister(old(State()), id).1
      ensures panes == old(panes) - {id}
    {
      if id !in panes {
        return false;
      }
      panes := panes - {id};
      var i := 0;
      while i < |order|
        invariant i <= |order| && order == old(order)
        invariant forall j | 0 <= j < i :: order[j] != id
      {
        if order[i] == id {
          break;
        }
        i := i + 1;
      }
      R.RemoveFirst(order, id, i);
      if i < |order| {
        order := order[..i] + order[i + 1..];
      }
      ok := true;
    }

    method Get(id: string) returns (p: Pane?)
      requires Valid()
      ensures p == null <==> id !in panes
      ensures p != null ==> p == panes[id]
    {
      p := if id in panes then panes[id] else null;
    }

    method List() returns (result: seq<Pane>)
      requires Valid()
      ensures forall p | p in result :: p in panes.Values
      ensures |result| == |R.List(State())|
      ensures forall i | 0 <= i < |result| :: result[i].Info() == R.List(State())[i]
    {
      result := [];
      for i := 0 to |order|
        invariant forall p | p in result :: p in panes.Values
        invariant |result| == |R.Listed(State().panes, order[..i])|
        invariant forall j | 0 <= j < |result| :: result[j].Info() == R.Listed(State().panes, order[..i])[j]
      {
        assert order[..i + 1][..i] == order[..i];
        if order[i] in panes {
          result := result + [panes[order[i]]];
        }
      }
      assert order[..|order|] == order;
    }

    method IndexOf(id: string) returns (index: int)
      requires Valid()
      ensures index == R.IndexOf(order, id)
    {
      var i := 0;
      while i < |order|
        invariant i <= |order|
        invariant R.IndexOf(order, id) ==
                  (if R.IndexOf(order[i..], id) < 0 then -1 else i + R.IndexOf(order[i..], id))
      {
        if order[i] == id {
          return i;
        }
        i := i + 1;
      }
      index := -1;
    }

    method OrderedList() returns (ids: seq<string>)
      requires Valid()
      ensures ids == order
    {
      ids := order;
    }

    /** Any active pane; with at most one active, the active pane. */
    method GetActive() returns (p: Pane?)
      requires Valid()
      ensures p == null <==> forall k | k in panes :: !panes[k].active
      ensures p != null ==> p in panes.Values && p.active
    {
      var rest := panes.Keys;
      while rest != {}
        invariant rest <= panes.Keys
        invariant forall k | k in panes && k !in rest :: !panes[k].active
        decreases rest
      {
        var k :| k in rest;
        if panes[k].active {
          return panes[k];
        }
        rest := rest - {k};
      }
      p := null;
    }

    method SetActive(id: string) returns (ok: bool)
      requires Valid()
      modifies panes.Values
      ensures Valid()
      ensures State() == R.SetActive(old(State()), id).0 && ok == R.SetActive(old(State()), id).1
    {
      if id !in panes {
        return false;
      }
      var rest := panes.Keys;
      while rest != {}
        invariant rest <= panes.Keys
        invariant forall k | k in rest :: panes[k].Info() == old(panes[k].Info())
        invariant forall k | k in panes && k !in rest ::
                    panes[k].Info() == old(panes[k].Info()).(active := k == id)
        decreases rest
      {
        var k :| k in rest;
        panes[k].active := panes[k].id == id;
        rest := rest - {k};
      }
      assert State().panes == R.SetActive(old(State()), id).0.panes;
      ok := true;
    }

    /** The panes in order, copied. */
    method Snapshot() returns (infos: seq<R.Info>)
      requires Valid()
      ensures infos == R.List(State())
    {
      hide R.Listed;
      infos := [];
      NoneListed(State());
      for i := 0 to |order|
        invariant infos == R.Listed(State().panes, order[..i])
      {
        ListedOneMore(State(), i);
        if order[i] in panes {
          infos := infos + [panes[order[i]].Info()];
        }
      }
      assert order[..|order|] == order;
    }

    /** Writes a snapshot through a temporary file and a rename: the state file holds
        either the whole snapshot or what it held before. A temporary is left exactly
        when a step after its creation fails and its removal, whose result is ignored,
        fails too. */
    method Save(file: StateFile, fault: SaveFault, removed: bool) returns (ok: bool)
      requires Valid()
      modifies file
      ensures ok <==> fault == NoFault
      ensures file.content == if ok then Stored(R.Save(State())) else old(file.content)
      ensures file.temporaries ==
              old(file.temporaries) + (if fault in {WriteFails, CloseFails, RenameFails} && !removed then 1 else 0)
    {
      var infos := Snapshot();
      if fault == CreateFails {
        return false;
      }
      file.temporaries := file.temporaries + 1;
      if fault == WriteFails || fault == CloseFails || fault == RenameFails {
        if removed {
          file.temporaries := file.temporaries - 1;
        }
        return false;
      }
      file.temporaries := file.temporaries - 1;
      file.content := Stored(R.Saved(infos, nextPaneID));
      ok := true;
    }

    method Load(file: StateFile) returns (ok: bool)
      requires Valid()
      modifies this
      ensures Valid()
      ensures ok <==> file.content.Stored?
      ensures State() == if ok then R.Load(file.content.saved) else old(State())
      ensures ok ==> forall k | k in panes :: fresh(panes[k])
    {
      if !file.content.Stored? {
        return false;
      }
      hide R.LoadedPanes, R.Ids;
      var saved := file.content.saved;
      panes, order := map[], [];
      assert saved.panes[..0] == [];
      LoadNothing();
      for i := 0 to |saved.panes|
        invariant Valid()
        invariant forall k | k in panes :: fresh(panes[k])
        invariant State().panes == R.LoadedPanes(saved.panes[..i])
        invariant order == R.Ids(saved.panes[..i])
      {
        var info := saved.panes[i];
        LoadOneMore(saved.panes, i);
        var _ := Insert(info);
      }
      assert saved.panes[..|saved.panes|] == saved.panes;
      nextPaneID := saved.next;
      ok := true;
    }
  }

  /** Save then Load into another object: the copy represents the same registry, and
      so issues the same next id, whenever the original was reached by a run. */
  method SaveAndReload(m: Manager, file: StateFile) returns (copy: Manager)
    requires m.Valid() && R.Reachable(m.State())
    modifies file
    ensures fresh(copy) && copy.Valid()
    ensures copy.State() == m.State() == old(m.State()) && R.Inv(copy.State())
    ensures copy.panes.Values !! m.panes.Values
  {
    hide R.Inv, R.Reachable, R.Load, R.Save;
    R.ReloadRestores(m.State());
    var _ := m.Save(file, NoFault, true);
    copy := new Manager();
    var _ := copy.Load(file);
  }
}
