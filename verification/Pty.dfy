/** The PTY handle table and the descriptor remembered for SIGWINCH. The kernel's
    answers are parameters; descriptors it hands out are not open at that time. */
module Pty {
  import opened Basics

  /** `slave` is -1 after a spawn. */
  datatype PtyState = PtyState(master: int, slave: int)

  type Table = seq<Option<PtyState>>

  predicate Live(table: Table, i: int) {
    0 <= i < |table| && table[i].Some?
  }

  function FdsOf(entry: Option<PtyState>): set<int> {
    match entry
    case None => {}
    case Some(s) => if s.slave >= 0 then {s.master, s.slave} else {s.master}
  }

  /** The descriptors the table's live entries hold. */
  function Held(table: Table): set<int> {
    if table == [] then {} else Held(table[..|table| - 1]) + FdsOf(table[|table| - 1])
  }

  /** Each entry's descriptors are its own. */
  ghost predicate Separate(table: Table) {
    && (forall i | Live(table, i) :: table[i].value.master >= 0 && table[i].value.slave >= -1
                                     && table[i].value.master != table[i].value.slave)
    && (forall i, j | Live(table, i) && Live(table, j) && i != j :: FdsOf(table[i]) !! FdsOf(table[j]))
  }

  lemma {:induction false} HeldIff(table: Table, fd: int)
    ensures fd in Held(table) <==> exists i :: Live(table, i) && fd in FdsOf(table[i])
  {
    if table != [] {
      var n := |table| - 1;
      HeldIff(table[..n], fd);
      if fd in Held(table[..n]) {
        var i :| Live(table[..n], i) && fd in FdsOf(table[..n][i]);
        assert Live(table, i);
      }
      if i :| Live(table, i) && fd in FdsOf(table[i]) {
        if i < n { assert Live(table[..n], i); }
      }
    }
  }

  /** Replacing a live entry by one that holds less releases exactly the difference. */
  lemma HeldAfter(table: Table, i: nat, entry: Option<PtyState>)
    requires Separate(table) && Live(table, i) && FdsOf(entry) <= FdsOf(table[i])
    ensures Held(table[i := entry]) == Held(table) - (FdsOf(table[i]) - FdsOf(entry))
  {
    var after := table[i := entry];
    forall fd ensures fd in Held(after) <==> fd in Held(table) && fd !in FdsOf(table[i]) - FdsOf(entry) {
      HeldIff(table, fd);
      HeldIff(after, fd);
      if j :| Live(table, j) && fd in FdsOf(table[j]) {
        if j != i { assert Live(after, j); } else if fd in FdsOf(entry) { assert Live(after, i); }
      }
      if j :| Live(after, j) && fd in FdsOf(after[j]) {
        assert Live(table, j);
      }
    }
  }

  /** Appending an entry with descriptors of its own. */
  lemma HeldAppend(table: Table, s: PtyState)
    requires Separate(table) && s.master >= 0 && s.slave >= 0 && s.master != s.slave
    requires s.master !in Held(table) && s.slave !in Held(table)
    ensures Held(table + [Some(s)]) == Held(table) + {s.master, s.slave}
    ensures Separate(table + [Some(s)])
  {
    var after := table + [Some(s)];
    assert after[..|table|] == table;
    forall i | Live(table, i) ensures s.master !in FdsOf(table[i]) && s.slave !in FdsOf(table[i]) {
      HeldIff(table, s.master);
      HeldIff(table, s.slave);
    }
    assert forall i | Live(after, i) && i < |table| :: Live(table, i);
  }

  /** The remembered descriptor is none or a live entry's master. */
  ghost predicate WinchIn(table: Table, winch: int) {
    winch == -1 || exists i :: Live(table, i) && table[i].value.master == winch
  }

  lemma WinchKept(table: Table, after: Table, winch: int)
    requires WinchIn(table, winch)
    requires forall i | Live(table, i) && table[i].value.master == winch ::
               Live(after, i) && after[i].value.master == winch
    ensures WinchIn(after, winch)
  {
    if winch != -1 {
      var i :| Live(table, i) && table[i].value.master == winch;
      assert Live(after, i);
    }
  }

  lemma WinchNone(table: Table)
    ensures WinchIn(table, -1)
  {
  }

  lemma WinchAppended(table: Table, entry: Option<PtyState>, winch: int)
    requires WinchIn(table, winch)
    ensures WinchIn(table + [entry], winch)
  {
    WinchKept(table, table + [entry], winch);
  }

  lemma SeparateAfter(table: Table, i: nat, entry: Option<PtyState>)
    requires Separate(table) && Live(table, i) && FdsOf(entry) <= FdsOf(table[i])
    requires entry.Some? ==> entry.value == table[i].value.(slave := -1)
    ensures Separate(table[i := entry])
    ensures {table[i].value.master} <= FdsOf(table[i]) <= Held(table)
    ensures table[i].value.slave >= 0 ==> table[i].value.slave in FdsOf(table[i])
    ensures table[i].value.master != table[i].value.slave
  {
    forall fd | fd in FdsOf(table[i]) ensures fd in Held(table) {
      HeldIff(table, fd);
    }
    assert forall j | Live(table[i := entry], j) :: Live(table, j);
  }

  /** What a successful call does to the table. */
  datatype Call = Opened(entry: PtyState) | Spawned(handle: nat) | Closed(handle: nat)

  function After(table: Table, c: Call): Table {
    match c
    case Opened(entry) => table + [Some(entry)]
    case Spawned(h) => if Live(table, h) then table[h := Some(table[h].value.(slave := -1))] else table
    case Closed(h) => if Live(table, h) then table[h := None] else table
  }

  class PtyTable {
    var table: Table
    var winch: int

    // Descriptors openpty handed to the table and not yet closed, those of them no live
    // entry knows any more, and closes of anything else.
    ghost var open: set<int>
    ghost var leaked: set<int>
    ghost var strayCloses: nat

    ghost predicate Valid()
      reads this
    {
      && Separate(table)
      && open == Held(table) + leaked
      && Held(table) !! leaked
      && strayCloses == 0
    }

    ghost predicate WinchLive()
      reads this
    {
      WinchIn(table, winch)
    }

    constructor ()
      ensures Valid() && WinchLive() && table == [] && leaked == {}
    {
      table, winch := [], -1;
      open, leaked, strayCloses := {}, {}, 0;
    }

    /** close(2) by this module. */
    method CloseFd(fd: int)
      modifies this`open, this`strayCloses
      ensures open == old(open) - {fd}
      ensures strayCloses == old(strayCloses) + (if fd in old(open) then 0 else 1)
    {
      strayCloses := strayCloses + (if fd in open then 0 else 1);
      open := open - {fd};
    }

    /** shimux_pty_open; `pair` is what openpty answers, `resized` whether the window
        size could be set. A handle is an index never used before. */
    method Open(pair: Option<PtyState>, resized: bool) returns (handle: int)
      requires Valid()
      requires pair.Some? ==> pair.value.master >= 0 && pair.value.slave >= 0 && pair.value.master != pair.value.slave
      requires pair.Some? ==> pair.value.master !in open && pair.value.slave !in open
      modifies this
      ensures Valid() && (old(WinchLive()) ==> WinchLive()) && winch == old(winch)
      ensures leaked == old(leaked)
      ensures pair.Some? && resized ==>
                handle == |old(table)| && table == After(old(table), Opened(pair.value)) == old(table) + [pair]
      ensures !(pair.Some? && resized) ==> handle == -1 && table == old(table) && open == old(open)
    {
      hide Separate, Held, WinchIn, Live;
      if pair.None? {
        return -1;
      }
      open := open + {pair.value.master, pair.value.slave};
      if !resized {
        CloseFd(pair.value.master);
        CloseFd(pair.value.slave);
        assert open == old(open);
        return -1;
      }
      HeldAppend(table, pair.value);
      handle := |table|;
      table := table + [pair];
      if old(WinchLive()) { WinchAppended(old(table), pair, winch); }
    }

    /** shimux_pty_spawn; `spawned` is the child's pid unless some step failed. The
        parent's slave descriptor is closed on the first success and never again. */
    method Spawn(handle: int, emptyCommand: bool, spawned: Option<int>) returns (pid: int)
      requires Valid()
      modifies this
      ensures Valid() && (old(WinchLive()) ==> WinchLive()) && winch == old(winch)
      ensures leaked == old(leaked)
      ensures var can := !emptyCommand && Live(old(table), handle) && old(table)[handle].value.slave >= 0;
              if can && spawned.Some? then
                && pid == spawned.value
                && table == After(old(table), Spawned(handle))
                && table == old(table)[handle := Some(PtyState(old(table)[handle].value.master, -1))]
                && open == old(open) - {old(table)[handle].value.slave}
              else pid == -1 && table == old(table) && open == old(open)
    {
      hide Separate, Held, WinchIn;
      if emptyCommand || !Live(table, handle) || table[handle].value.slave < 0 {
        return -1;
      }
      var slave := table[handle].value.slave;
      if spawned.None? {
        return -1;
      }
      var entry := Some(table[handle].value.(slave := -1));
      HeldAfter(table, handle, entry);
      SeparateAfter(table, handle, entry);
      assert FdsOf(table[handle]) - FdsOf(entry) == {slave};
      CloseFd(slave);
      table := table[handle := entry];
      assert forall i :: Live(table, i) <==> Live(old(table), i);
      if old(WinchLive()) { WinchKept(old(table), table, winch); }
      pid := spawned.value;
    }

    /** shimux_pty_master_fd */
    method MasterFd(handle: int) returns (fd: int)
      requires Valid()
      ensures fd == if Live(table, handle) then table[handle].value.master else -1
    {
      fd := if Live(table, handle) then table[handle].value.master else -1;
    }

    /** shimux_pty_close. The handle is dead from then on; the remembered SIGWINCH
        descriptor is dropped if it was this one's; and a slave that was never handed
        to a child stays open with no entry to close it. */
    method Close(handle: int, closeOk: bool) returns (ret: int)
      requires Valid()
      modifies this
      ensures Valid() && (old(WinchLive()) ==> WinchLive())
      ensures ret == if Live(old(table), handle) && closeOk then 0 else -1
      ensures !Live(old(table), handle) ==> table == old(table) && leaked == old(leaked) && winch == old(winch)
      ensures Live(old(table), handle) ==>
                var entry := old(table)[handle].value;
                && table == After(old(table), Closed(handle)) == old(table)[handle := None]
                && winch == (if old(winch) == entry.master then -1 else old(winch))
                && leaked == old(leaked) + (if entry.slave >= 0 then {entry.slave} else {})
    {
      hide Separate, Held, WinchIn;
      if !Live(table, handle) {
        return -1;
      }
      var entry := table[handle].value;
      HeldAfter(table, handle, None);
      SeparateAfter(table, handle, None);
      table := table[handle := None];
      CloseFd(entry.master);
      leaked := leaked + (if entry.slave >= 0 then {entry.slave} else {});
      if winch == entry.master {
        winch := -1;
      }
      assert forall i :: Live(table, i) <==> Live(old(table), i) && i != handle;
      assert open == Held(table) + leaked;
      WinchNone(table);
      if old(WinchLive()) && winch != -1 { WinchKept(old(table), table, winch); }
      ret := if closeOk then 0 else -1;
    }

    /** shimux_sig_setup_winch: the remembered descriptor is live afterwards exactly when
        the one given is, or the handler could not be installed. */
    method SetupWinch(fd: int, installed: bool) returns (ret: int)
      requires Valid()
      modifies this`winch
      ensures Valid()
      ensures ret == (if installed then 0 else -1) && winch == (if installed then fd else -1)
      ensures WinchLive() <==>
              !installed || fd == -1 || exists i :: Live(table, i) && table[i].value.master == fd
    {
      winch := fd;
      if !installed {
        winch := -1;
        return -1;
      }
      ret := 0;
    }
  }

  // ----- whole runs

  function AfterAll(table: Table, calls: seq<Call>): Table
    decreases |calls|
  {
    if calls == [] then table else AfterAll(After(table, calls[0]), calls[1..])
  }

  /** Along every run a closed handle stays dead, and a live handle keeps denoting the
      PTY it was opened for. */
  lemma {:induction false} HandlesNeverReused(table: Table, calls: seq<Call>, h: nat)
    requires h < |table|
    ensures h < |AfterAll(table, calls)|
    ensures !Live(table, h) ==> !Live(AfterAll(table, calls), h)
    ensures Live(AfterAll(table, calls), h) ==>
              Live(table, h) && AfterAll(table, calls)[h].value.master == table[h].value.master
    decreases |calls|
  {
    if calls != [] {
      HandlesNeverReused(After(table, calls[0]), calls[1..], h);
    }
  }
}
