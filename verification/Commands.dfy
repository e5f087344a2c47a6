/** The tmux commands: what Execute does to the pane registry, the outputs and the
    terminal controller. The controller and the socket client are oracles that
    succeed or fail. */
module Commands {
  import opened Basics
  import D = Decimal
  import F = Format
  import K = Keys
  import P = Parser
  import R = Registry
  import M = PaneManager

  /** A call made to the Ghostty controller. */
  datatype SurfaceCall = NewSplit(direction: string) | CloseSurface

  /** Text handed to the socket client of a pane. */
  datatype Sent = Sent(pane: string, text: string)

  datatype World = World(
    reg: R.Reg,
    session: string,
    stdout: string,
    stderr: string,
    surface: seq<SurfaceCall>,
    sent: seq<Sent>
  )

  // ----- targets

  /** strings.LastIndex(s, "%") */
  function LastPercent(s: string): (r: int)
    ensures -1 <= r < |s|
    ensures r >= 0 ==> s[r] == '%'
    ensures forall j | r < j < |s| :: s[j] != '%'
  {
    if s == "" then -1
    else if s[|s| - 1] == '%' then |s| - 1
    else LastPercent(s[..|s| - 1])
  }

  function LeadingDigits(s: string): string {
    if s == "" || !D.IsDigit(s[0]) then "" else [s[0]] + LeadingDigits(s[1..])
  }

  function PaneIdOf(target: string): string {
    var idx := LastPercent(target);
    if idx < 0 then "" else LeadingDigits(target[idx + 1..])
  }

  method ExtractPaneID(target: string) returns (id: string)
    ensures id == PaneIdOf(target)
  {
    if target == "" {
      return "";
    }
    var idx := LastPercent(target);
    if idx < 0 {
      return "";
    }
    var rest := target[idx + 1..];
    if rest == "" {
      return "";
    }
    id := "";
    var i := 0;
    while i < |rest|
      invariant i <= |rest|
      invariant id + LeadingDigits(rest[i..]) == LeadingDigits(rest)
    {
      assert rest[i..][1..] == rest[i + 1..];
      if !D.IsDigit(rest[i]) {
        break;
      }
      id := id + [rest[i]];
      i := i + 1;
    }
  }

  lemma {:induction false} LeadingDigitsOf(digits: string, rest: string)
    requires forall i | 0 <= i < |digits| :: D.IsDigit(digits[i])
    requires rest == "" || !D.IsDigit(rest[0])
    ensures LeadingDigits(digits + rest) == digits
  {
    if digits == "" {
      assert digits + rest == rest;
    } else {
      assert (digits + rest)[1..] == digits[1..] + rest;
      LeadingDigitsOf(digits[1..], rest);
    }
  }

  lemma {:induction false} LastPercentAt(before: string, after: string)
    requires forall i | 0 <= i < |after| :: after[i] != '%'
    ensures LastPercent(before + "%" + after) == |before|
  {
    var s := before + "%" + after;
    if after == "" {
      assert s == before + "%";
    } else {
      var n := |after| - 1;
      assert s[..|s| - 1] == before + "%" + after[..n];
      assert s[|s| - 1] == after[n];
      LastPercentAt(before, after[..n]);
    }
  }

  /** The id's decimal text is recovered from `%id` after any prefix whatever, and
      before any suffix without a digit in front or a percent sign. */
  lemma PaneIdRecovered(before: string, n: nat, after: string)
    requires after == "" || !D.IsDigit(after[0])
    requires forall i | 0 <= i < |after| :: after[i] != '%'
    ensures PaneIdOf(before + "%" + (D.Itoa(n) + after)) == D.Itoa(n)
  {
    D.DigitsOnly(n);
    var digits := D.Itoa(n);
    assert forall i | 0 <= i < |digits| :: digits[i] != '%';
    LastPercentAt(before, digits + after);
    assert (before + "%" + (digits + after))[|before| + 1..] == digits + after;
    LeadingDigitsOf(digits, after);
  }

  // ----- the handlers, on values

  function FormatContext(w: World, p: R.Info): F.Context {
    var idx := R.IndexOf(w.reg.order, p.id);
    F.Context(w.session, "$0", "0", "@0", w.session, "%" + p.id, if idx >= 0 then D.Itoa(idx) else "0",
              p.pid, p.tty, p.path, p.width, p.height, p.active)
  }

  function FormatOrDefault(format: string): string {
    if format == "" then "#{pane_id}" else format
  }

  /** One pane in a format, as a line. */
  function Line(w: World, p: R.Info, format: string): string {
    F.Expand(FormatOrDefault(format), F.Lookup(FormatContext(w, p))) + "\n"
  }

  /** The controller's direction: anything else than right, left and up is down. */
  function SplitDirection(direction: string): string {
    if direction in {"right", "left", "up"} then direction else "down"
  }

  function SplitWindow(w: World, opts: P.SplitWindowOptions, controllerOk: bool): (World, int) {
    var called := w.(surface := w.surface + [NewSplit(SplitDirection(opts.direction))]);
    if !controllerOk then (called, 1)
    else
      var registered := called.(reg := R.Register(w.reg, ""));
      if opts.printAfter then
        (registered.(stdout := w.stdout + Line(registered, R.NewPane(w.reg, ""), opts.format)), 0)
      else (registered, 0)
  }

  function KillPane(w: World, target: string, controllerOk: bool): (World, int) {
    var called := w.(surface := w.surface + [CloseSurface]);
    if !controllerOk then (called, 1)
    else if PaneIdOf(target) == "" then (called, 0)
    else
      var (reg, found) := R.Unregister(w.reg, PaneIdOf(target));
      (called.(reg := reg), if found then 0 else 1)
  }

  function Lines(w: World, panes: seq<R.Info>, format: string): string {
    if panes == [] then ""
    else Lines(w, panes[..|panes| - 1], format) + Line(w, panes[|panes| - 1], format)
  }

  function ListPanes(w: World, opts: P.ListPanesOptions): World {
    w.(stdout := w.stdout + Lines(w, R.List(w.reg), opts.format))
  }

  /** What GetActive may return: some active pane, or none when there is none. */
  ghost predicate ActiveChoice(reg: R.Reg, active: Option<R.Info>) {
    match active
    case None => forall k | k in reg.panes :: !reg.panes[k].active
    case Some(p) => p.active && exists k :: k in reg.panes && reg.panes[k] == p
  }

  function DisplayMessage(w: World, opts: P.DisplayMessageOptions, active: Option<R.Info>): World {
    if !opts.show then w
    else
      var fctx := match active
        case Some(p) => FormatContext(w, p)
        case None => F.Context(w.session, "", "", "", "", "", "", 0, "", "", 0, 0, false);
      w.(stdout := w.stdout + F.Expand(opts.format, F.Lookup(fctx)) + "\n")
  }

  function SendKeys(w: World, opts: P.SendKeysOptions, active: Option<R.Info>, sendOk: bool): (World, int) {
    var text := K.SendKeysData(opts.keys, opts.literal);
    if text == "" then (w, 0)
    else
      var id := PaneIdOf(opts.target);
      var pane := if id == "" && active.Some? then active.value.id else id;
      if pane == "" then (w, 1)
      else (w.(sent := w.sent + [Sent(pane, text)]), if sendOk then 0 else 1)
  }

  datatype Command =
    | HasSession | SwitchClient | NewSession | ShowOptions | SplitWindowCommand
    | SendKeysCommand | SelectPane | KillPaneCommand | ListPanesCommand | DisplayMessageCommand
    | Unsupported

  function CommandOf(name: string): Command {
    match name
    case "has-session" => HasSession
    case "switch-client" => SwitchClient
    case "new-session" => NewSession
    case "show-options" => ShowOptions
    case "split-window" => SplitWindowCommand
    case "send-keys" => SendKeysCommand
    case "select-pane" => SelectPane
    case "kill-pane" => KillPaneCommand
    case "list-panes" => ListPanesCommand
    case "display-message" => DisplayMessageCommand
    case _ => Unsupported
  }

  /** Execute: the world after one command and its exit code. */
  function Exec(w: World, command: string, args: seq<string>, active: Option<R.Info>, controllerOk: bool, sendOk: bool)
    : (World, int)
  {
    match CommandOf(command)
    case HasSession =>
      var r := P.TargetOf(args);
      (w, if r.Ok? && r.value == w.session then 0 else 1)
    case SwitchClient => (w, 0)
    case NewSession => (w, 0)
    case ShowOptions =>
      var opts := P.ShowOptionsOf(args);
      (if opts.global && opts.option == "prefix" then w.(stdout := w.stdout + "prefix C-b\n") else w, 0)
    case SplitWindowCommand =>
      var r := P.SplitWindowOf(args);
      if r.Ok? then SplitWindow(w, r.value, controllerOk) else (w, 1)
    case SendKeysCommand =>
      var r := P.SendKeysOf(args);
      if r.Ok? then SendKeys(w, r.value, active, sendOk) else (w, 1)
    case SelectPane => (w, if P.SelectPaneOf(args).Ok? then 0 else 1)
    case KillPaneCommand =>
      var r := P.TargetOf(args);
      if r.Ok? then KillPane(w, r.value, controllerOk) else (w, 1)
    case ListPanesCommand =>
      var r := P.ListPanesOf(args);
      if r.Ok? then (ListPanes(w, r.value), 0) else (w, 1)
    case DisplayMessageCommand =>
      var r := P.DisplayMessageOf(args);
      if r.Ok? then (DisplayMessage(w, r.value, active), 0) else (w, 1)
    case Unsupported => (w.(stderr := w.stderr + "shimux: unsupported tmux command: " + command + "\n"), 0)
  }

  // ----- the handlers, on objects

  class CommandContext {
    const manager: M.Manager
    const session: string
    var stdout: string
    var stderr: string
    var surface: seq<SurfaceCall>
    var sent: seq<Sent>

    constructor (manager: M.Manager, session: string)
      requires manager.Valid()
      ensures this.manager == manager
      ensures State() == World(manager.State(), session, "", "", [], [])
    {
      this.manager, this.session := manager, session;
      stdout, stderr, surface, sent := "", "", [], [];
    }

    ghost function State(): World
      reads this, manager, manager.panes.Values
    {
      World(manager.State(), session, stdout, stderr, surface, sent)
    }

    method BuildFormatContext(p: M.Pane) returns (fctx: F.Context)
      requires manager.Valid()
      ensures fctx == FormatContext(State(), p.Info())
    {
      var idx := manager.IndexOf(p.id);
      var paneIndex := "0";
      if idx >= 0 {
        paneIndex := D.Itoa(idx);
      }
      fctx := F.Context(session, "$0", "0", "@0", session, "%" + p.id, paneIndex,
                        p.pid, p.tty, p.currentPath, p.width, p.height, p.active);
    }

    /** The line a pane's format expands to. */
    method PrintPane(p: M.Pane, format: string)
      requires manager.Valid()
      modifies this`stdout
      ensures State() == old(State()).(stdout := old(stdout) + Line(old(State()), p.Info(), format))
    {
      var fctx := BuildFormatContext(p);
      var expanded := F.ExpandFormat(FormatOrDefault(format), fctx);
      stdout := stdout + (expanded + "\n");
    }

    method HandleSplitWindow(opts: P.SplitWindowOptions, controllerOk: bool) returns (code: int)
      requires manager.Valid()
      modifies this, manager
      ensures manager.Valid()
      ensures State() == SplitWindow(old(State()), opts, controllerOk).0
      ensures code == SplitWindow(old(State()), opts, controllerOk).1
    {
      var direction := match opts.direction
        case "right" => "right"
        case "left" => "left"
        case "up" => "up"
        case _ => "down";
      surface := surface + [NewSplit(direction)];
      if !controllerOk {
        return 1;
      }
      var p := manager.Register("");
      if opts.printAfter {
        PrintPane(p, opts.format);
      }
      code := 0;
    }

    method HandleKillPane(target: string, controllerOk: bool) returns (code: int)
      requires manager.Valid()
      modifies this, manager
      ensures manager.Valid()
      ensures State() == KillPane(old(State()), target, controllerOk).0
      ensures code == KillPane(old(State()), target, controllerOk).1
    {
      surface := surface + [CloseSurface];
      if !controllerOk {
        return 1;
      }
      var id := ExtractPaneID(target);
      if id != "" {
        var ok := manager.Unregister(id);
        if !ok {
          return 1;
        }
      }
      code := 0;
    }

    method HandleListPanes(opts: P.ListPanesOptions)
      requires manager.Valid()
      modifies this
      ensures State() == ListPanes(old(State()), opts)
    {
      hide Line, R.Listed;
      var panes := manager.List();
      ghost var w, infos := State(), R.List(manager.State());
      for i := 0 to |panes|
        invariant State() == w.(stdout := stdout)
        invariant |infos| == |panes| && forall j | 0 <= j < |panes| :: panes[j].Info() == infos[j]
        invariant stdout == w.stdout + Lines(w, infos[..i], opts.format)
      {
        assert infos[..i + 1][..i] == infos[..i];
        LineIgnoresOutput(State(), w, panes[i].Info(), opts.format);
        LinesOneMore(w, infos, i, opts.format);
        PrintPane(panes[i], opts.format);
      }
      assert infos[..|infos|] == infos;
    }

    method HandleDisplayMessage(opts: P.DisplayMessageOptions) returns (ghost active: Option<R.Info>)
      requires manager.Valid()
      modifies this
      ensures ActiveChoice(old(State()).reg, active)
      ensures State() == DisplayMessage(old(State()), opts, active)
    {
      hide F.Expand, F.Lookup, FormatContext, ActiveChoice;
      active := Unasked();
      if !opts.show {
        return;
      }
      var p := manager.GetActive();
      active := Choice(p);
      var fctx := F.Context(session, "", "", "", "", "", "", 0, "", "", 0, 0, false);
      if p != null {
        fctx := BuildFormatContext(p);
      }
      var expanded := F.ExpandFormat(opts.format, fctx);
      stdout := stdout + expanded + "\n";
    }

    /** What GetActive's answer means for the registry. */
    ghost function Choice(p: M.Pane?): (active: Option<R.Info>)
      requires p == null <==> forall k | k in manager.panes :: !manager.panes[k].active
      requires p != null ==> p in manager.panes.Values && p.active
      reads this, manager, manager.panes.Values
      ensures ActiveChoice(State().reg, active)
      ensures p == null <==> active.None?
      ensures p != null ==> active == Some(p.Info())
    {
      if p == null then None
      else
        var k :| k in manager.panes && manager.panes[k] == p;
        assert k in State().reg.panes;
        Some(p.Info())
    }

    /** An answer GetActive could give, for commands that do not ask. */
    ghost function Unasked(): (active: Option<R.Info>)
      reads this, manager, manager.panes.Values
      ensures ActiveChoice(State().reg, active)
    {
      if exists k :: k in manager.panes && manager.panes[k].active then
        var k :| k in manager.panes && manager.panes[k].active;
        Choice(manager.panes[k])
      else Choice(null)
    }

    method HandleSendKeys(opts: P.SendKeysOptions, sendOk: bool)
      returns (code: int, ghost active: Option<R.Info>)
      requires manager.Valid()
      modifies this
      ensures ActiveChoice(old(State()).reg, active)
      ensures State() == SendKeys(old(State()), opts, active, sendOk).0
      ensures code == SendKeys(old(State()), opts, active, sendOk).1
    {
      hide K.SendKeysData, PaneIdOf, ActiveChoice, M.Manager.State, M.Manager.Valid;
      active := Unasked();
      var text := K.BuildSendKeysData(opts.keys, opts.literal);
      if text == "" {
        return 0, active;
      }
      var id := ExtractPaneID(opts.target);
      if id == "" {
        var p := manager.GetActive();
        active := Choice(p);
        if p != null {
          id := p.id;
        }
      }
      if id == "" {
        return 1, active;
      }
      sent := sent + [Sent(id, text)];
      code := if sendOk then 0 else 1;
    }

    method Execute(command: string, args: seq<string>, controllerOk: bool, sendOk: bool)
      returns (code: int, ghost active: Option<R.Info>)
      requires manager.Valid()
      modifies this, manager
      ensures manager.Valid()
      ensures ActiveChoice(old(State()).reg, active)
      ensures State() == Exec(old(State()), command, args, active, controllerOk, sendOk).0
      ensures code == Exec(old(State()), command, args, active, controllerOk, sendOk).1
    {
      hide SplitWindow, KillPane, ListPanes, SendKeys, DisplayMessage, ActiveChoice;
      hide M.Manager.State, M.Manager.Valid;
      hide P.TargetOf, P.SplitWindowOf, P.SendKeysOf, P.SelectPaneOf, P.ListPanesOf, P.DisplayMessageOf, P.ShowOptionsOf;
      active := Unasked();
      code := 0;
      match CommandOf(command)
      case HasSession =>
        var r := P.ParseTarget(args);
        code := if r.Ok? && r.value == session then 0 else 1;
      case SwitchClient =>
      case NewSession =>
      case ShowOptions =>
        var opts := P.ParseShowOptions(args);
        if opts.global && opts.option == "prefix" {
          stdout := stdout + "prefix C-b\n";
        }
      case SplitWindowCommand =>
        var r := P.ParseSplitWindow(args);
        if r.Ok? { code := HandleSplitWindow(r.value, controllerOk); } else { code := 1; }
      case SendKeysCommand =>
        var r := P.ParseSendKeys(args);
        if r.Ok? { code, active := HandleSendKeys(r.value, sendOk); } else { code := 1; }
      case SelectPane =>
        var r := P.ParseSelectPane(args);
        code := if r.Ok? then 0 else 1;
      case KillPaneCommand =>
        var r := P.ParseTarget(args);
        if r.Ok? { code := HandleKillPane(r.value, controllerOk); } else { code := 1; }
      case ListPanesCommand =>
        var r := P.ParseListPanes(args);
        if r.Ok? { HandleListPanes(r.value); } else { code := 1; }
      case DisplayMessageCommand =>
        var r := P.ParseDisplayMessage(args);
        if r.Ok? { active := HandleDisplayMessage(r.value); } else { code := 1; }
      case Unsupported =>
        stderr := stderr + "shimux: unsupported tmux command: " + command + "\n";
    }
  }

  lemma LinesOneMore(w: World, panes: seq<R.Info>, i: nat, format: string)
    requires i < |panes|
    ensures w.stdout + Lines(w, panes[..i + 1], format) ==
            (w.stdout + Lines(w, panes[..i], format)) + Line(w, panes[i], format)
  {
    assert panes[..i + 1][..i] == panes[..i];
  }

  /** What a pane's line says does not depend on what was printed before. */
  lemma LineIgnoresOutput(v: World, w: World, p: R.Info, format: string)
    requires v.reg == w.reg && v.session == w.session
    ensures Line(v, p, format) == Line(w, p, format)
  {
    assert FormatContext(v, p) == FormatContext(w, p);
  }

  // ----- an id printed by one command, given to another

  /** A format that ends in the pane id, the default one included. */
  ghost predicate EndsInPaneId(format: string, before: string) {
    F.Closed(before) && FormatOrDefault(format) == before + "#{pane_id}"
  }

  lemma PaneIdLine(w: World, p: R.Info, format: string, before: string)
    requires EndsInPaneId(format, before)
    ensures Line(w, p, format) ==
            F.Expand(before, F.Lookup(FormatContext(w, p))) + "%" + p.id + "\n"
  {
    hide F.Expand, F.Closed;
    var lookup := F.Lookup(FormatContext(w, p));
    var ref := "#{" + "pane_id" + "}";
    assert ref == "#{pane_id}";
    assert F.FindClose("pane_id") < 0;
    F.ExpandReference("pane_id", lookup);
    F.ExpandConcat(before, ref, lookup);
    assert lookup("pane_id") == "%" + p.id;
    var x := F.Expand(before, lookup);
    assert x + ("%" + p.id) == x + "%" + p.id;
  }

  /** What split-window -P prints, as the line read back without its newline. */
  lemma SplitPrints(w: World, opts: P.SplitWindowOptions, before: string) returns (x: string)
    requires opts.printAfter && EndsInPaneId(opts.format, before)
    ensures SplitWindow(w, opts, true) ==
            (w.(surface := w.surface + [NewSplit(SplitDirection(opts.direction))], reg := R.Register(w.reg, ""),
                stdout := w.stdout + (x + "%" + D.Itoa(w.reg.next) + "\n")), 0)
  {
    var p := R.NewPane(w.reg, "");
    var called := w.(surface := w.surface + [NewSplit(SplitDirection(opts.direction))], reg := R.Register(w.reg, ""));
    PaneIdLine(called, p, opts.format, before);
    x := F.Expand(before, F.Lookup(FormatContext(called, p)));
  }

  lemma KillTarget(target: string)
    ensures P.TargetOf(["-t", target]) == P.Ok(target)
  {
    var args := ["-t", target];
    assert args[2..] == [];
    assert P.Scan({"-t"}, args[2..]) == P.Ok([]);
    assert [P.Opt("-t", target)] + [] == [P.Opt("-t", target)];
    assert P.Scan({"-t"}, args) == P.Ok([P.Opt("-t", target)]);
  }

  /** Killing the pane just registered, by its id behind any prefix. */
  lemma KillUndoesRegister(v: World, reg: R.Reg, x: string)
    requires R.Reachable(reg) && v.reg == R.Register(reg, "")
    ensures KillPane(v, x + "%" + D.Itoa(reg.next), true) ==
            (v.(reg := reg.(next := reg.next + 1), surface := v.surface + [CloseSurface]), 0)
  {
    assert reg.next >= 0 && D.Itoa(reg.next) !in reg.panes && D.Itoa(reg.next) !in reg.order by {
      R.ReachableInv(reg);
      R.UnissuedIsUnused(reg, reg.next);
    }
    var id := D.Itoa(reg.next);
    PaneIdRecovered(x, reg.next, "");
    assert id + "" == id;
    D.DigitsOnly(reg.next);
    R.UnregisterLast(reg, "");
  }

  /** The line split-window -P prints, in the default format or any format ending in
      the pane id, whatever else it expands to, given back to kill-pane as its target:
      the pane just created is unregistered, and nothing else changes but the counter. */
  lemma SplitThenKill(w: World, args: seq<string>, before: string, active: Option<R.Info>, active': Option<R.Info>)
    returns (line: string)
    requires R.Reachable(w.reg)
    requires P.SplitWindowOf(args).Ok? && P.SplitWindowOf(args).value.printAfter
    requires EndsInPaneId(P.SplitWindowOf(args).value.format, before)
    ensures var (v, code) := Exec(w, "split-window", args, active, true, true);
            && code == 0
            && v.reg == R.Register(w.reg, "")
            && v.stdout == w.stdout + (line + "\n")
            && Exec(v, "kill-pane", ["-t", line], active', true, true) ==
               (v.(reg := w.reg.(next := w.reg.next + 1), surface := v.surface + [CloseSurface]), 0)
  {
    hide F.Expand, P.Scan, Line, LastPercent, PaneIdOf;
    var opts := P.SplitWindowOf(args).value;
    var x := SplitPrints(w, opts, before);
    line := x + "%" + D.Itoa(w.reg.next);
    var v := SplitWindow(w, opts, true).0;
    assert Exec(w, "split-window", args, active, true, true) == SplitWindow(w, opts, true);
    KillTarget(line);
    assert Exec(v, "kill-pane", ["-t", line], active', true, true) == KillPane(v, line, true);
    KillUndoesRegister(v, w.reg, x);
  }

  /** However the registry is used in between, the printed id still names that pane,
      or, once it has been removed, no pane at all: kill-pane with it then fails and
      leaves the registry as it is. */
  lemma PrintedIdNeverRetargets(w: World, ops: seq<R.Op>, before: string)
    requires R.Reachable(w.reg)
    ensures var id := D.Itoa(w.reg.next);
            var later := w.(reg := R.Run(R.Register(w.reg, ""), ops));
            var (v, code) := KillPane(later, before + "%" + id, true);
            && (R.OpUnregister(id) !in ops ==> id in later.reg.panes && code == 0)
            && (R.OpUnregister(id) in ops ==> id !in later.reg.panes && code == 1 && v.reg == later.reg)
            && id !in v.reg.panes
            && (forall k | k != id :: k in later.reg.panes <==> k in v.reg.panes)
            && (forall k | k in v.reg.panes :: v.reg.panes[k] == later.reg.panes[k])
  {
    R.ReachableInv(w.reg);
    var id := D.Itoa(w.reg.next);
    D.DigitsOnly(w.reg.next);
    PaneIdRecovered(before, w.reg.next, "");
    assert id + "" == id;
    R.InvRegister(w.reg, "");
    D.ItoaValue(w.reg.next);
    R.IdFate(R.Register(w.reg, ""), ops, id);
  }

  // ----- sequences of commands

  /** One command with what its surroundings do. */
  datatype Invocation = Invocation(
    command: string,
    args: seq<string>,
    active: Option<R.Info>,
    controllerOk: bool,
    sendOk: bool
  )

  function ExecAll(w: World, invocations: seq<Invocation>): World
    decreases |invocations|
  {
    if invocations == [] then w
    else
      var v := invocations[0];
      ExecAll(Exec(w, v.command, v.args, v.active, v.controllerOk, v.sendOk).0, invocations[1..])
  }

  /** A kill-pane of this id whose surface is closed. */
  predicate Kills(v: Invocation, id: string) {
    && CommandOf(v.command) == KillPaneCommand && v.controllerOk
    && P.TargetOf(v.args).Ok? && id != "" && PaneIdOf(P.TargetOf(v.args).value) == id
  }

  /** What a command does to the registry is one registry operation or nothing, and it
      is a removal exactly for kill-pane. */
  lemma ExecRegistry(w: World, v: Invocation) returns (ops: seq<R.Op>)
    ensures |ops| <= 1
    ensures forall id :: R.OpUnregister(id) in ops <==> Kills(v, id)
    ensures Exec(w, v.command, v.args, v.active, v.controllerOk, v.sendOk).0.reg == R.Run(w.reg, ops)
  {
    hide P.SplitWindowOf, P.SendKeysOf, P.TargetOf, P.SelectPaneOf, P.ListPanesOf, P.DisplayMessageOf, P.ShowOptionsOf;
    hide R.Register, R.Unregister, Line, Lines, PaneIdOf, F.Expand, F.Lookup, FormatContext, K.SendKeysData;
    ops := [];
    match CommandOf(v.command)
    case SplitWindowCommand =>
      if v.controllerOk && P.SplitWindowOf(v.args).Ok? { ops := [R.OpRegister("")]; }
    case KillPaneCommand =>
      var r := P.TargetOf(v.args);
      if v.controllerOk && r.Ok? && PaneIdOf(r.value) != "" { ops := [R.OpUnregister(PaneIdOf(r.value))]; }
    case _ =>
  }

  lemma {:induction false} ExecAllRegistry(w: World, invocations: seq<Invocation>) returns (ops: seq<R.Op>)
    ensures ExecAll(w, invocations).reg == R.Run(w.reg, ops)
    ensures forall id :: R.OpUnregister(id) in ops <==> exists v :: v in invocations && Kills(v, id)
    decreases |invocations|
  {
    hide Exec, R.Run, Kills;
    if invocations == [] {
      ops := [];
      RunNothing(w.reg);
    } else {
      var v := invocations[0];
      var first := ExecRegistry(w, v);
      var rest := ExecAllRegistry(Exec(w, v.command, v.args, v.active, v.controllerOk, v.sendOk).0, invocations[1..]);
      R.RunConcat(w.reg, first, rest);
      ops := first + rest;
      assert forall x :: x in invocations <==> x == v || x in invocations[1..];
    }
  }

  lemma RunNothing(reg: R.Reg)
    ensures R.Run(reg, []) == reg
  {
  }

  /** Every sequence of commands, failing ones included, keeps the registry's invariant. */
  lemma CommandsKeepInv(w: World, invocations: seq<Invocation>)
    requires R.Reachable(w.reg)
    ensures R.Reachable(ExecAll(w, invocations).reg) && R.Inv(ExecAll(w, invocations).reg)
  {
    hide ExecAll, R.Inv, R.Reachable;
    var ops := ExecAllRegistry(w, invocations);
    R.ReachableRun(w.reg, ops);
    R.ReachableInv(ExecAll(w, invocations).reg);
  }

  lemma KillByLine(u: World, x: string, n: nat)
    ensures var id := D.Itoa(n);
            var (reg, found) := R.Unregister(u.reg, id);
            KillPane(u, x + "%" + id, true) ==
            (u.(reg := reg, surface := u.surface + [CloseSurface]), if found then 0 else 1)
  {
    hide R.Unregister, LastPercent, LeadingDigits;
    var id := D.Itoa(n);
    PaneIdRecovered(x, n, "");
    assert id + "" == id;
    D.DigitsOnly(n);
  }

  /** The same round trip with any commands in between, other splits and kills
      included: the id was free before the split and is the new pane's after it.
      kill-pane with the printed line succeeds if and only if none of the commands in
      between was a kill of that id, and removes exactly it; else it fails and leaves
      the registry alone. */
  lemma SplitAnythingKill(w: World, args: seq<string>, before: string, active: Option<R.Info>,
                          between: seq<Invocation>, active': Option<R.Info>)
    returns (line: string)
    requires R.Reachable(w.reg)
    requires P.SplitWindowOf(args).Ok? && P.SplitWindowOf(args).value.printAfter
    requires EndsInPaneId(P.SplitWindowOf(args).value.format, before)
    ensures var (v, code) := Exec(w, "split-window", args, active, true, true);
            && code == 0 && v.stdout == w.stdout + (line + "\n")
    ensures var v := Exec(w, "split-window", args, active, true, true).0;
            var u := ExecAll(v, between);
            var id := D.Itoa(w.reg.next);
            var (reg, found) := R.Unregister(u.reg, id);
            && id !in w.reg.panes && id in v.reg.panes
            && R.Inv(u.reg) && R.Inv(reg)
            && (found <==> forall x :: x in between ==> !Kills(x, id))
            && Exec(u, "kill-pane", ["-t", line], active', true, true) ==
               (u.(reg := reg, surface := u.surface + [CloseSurface]), if found then 0 else 1)
  {
    hide F.Expand, P.Scan, Line, LastPercent, PaneIdOf, ExecAll, R.Inv, R.Unregister, R.Reachable;
    line := SplitLine(w, args, before, active);
    var v := Exec(w, "split-window", args, active, true, true).0;
    var u := ExecAll(v, between);
    SplitReachable(w);
    CommandsKeepInv(v, between);
    R.InvUnregister(u.reg, D.Itoa(w.reg.next));
    SplitFate(w, v, between);
    KillTarget(line);
    var x := line[..|line| - |D.Itoa(w.reg.next)| - 1];
    KillByLine(u, x, w.reg.next);
  }

  /** The new pane is there after the commands unless one of them killed it. */
  lemma SplitFate(w: World, v: World, between: seq<Invocation>)
    requires R.Reachable(w.reg) && v.reg == R.Register(w.reg, "")
    ensures var id := D.Itoa(w.reg.next);
            R.Unregister(ExecAll(v, between).reg, id).1 <==> forall x :: x in between ==> !Kills(x, id)
  {
    hide ExecAll, Kills, R.Reachable;
    var id := D.Itoa(w.reg.next);
    R.ReachableInv(w.reg);
    R.InvRegister(w.reg, "");
    D.ItoaValue(w.reg.next);
    var ops := ExecAllRegistry(v, between);
    R.IdFate(v.reg, ops, id);
  }

  lemma SplitReachable(w: World)
    requires R.Reachable(w.reg)
    ensures w.reg.next >= 0
    ensures R.Reachable(R.Register(w.reg, ""))
    ensures D.Itoa(w.reg.next) !in w.reg.panes && D.Itoa(w.reg.next) in R.Register(w.reg, "").panes
  {
    R.ReachableRun(w.reg, [R.OpRegister("")]);
    assert [R.OpRegister("")][1..] == [];
    assert R.Run(w.reg, [R.OpRegister("")]) == R.Register(w.reg, "");
    R.ReachableInv(w.reg);
    R.UnissuedIsUnused(w.reg, w.reg.next);
  }

  lemma SplitLine(w: World, args: seq<string>, before: string, active: Option<R.Info>) returns (line: string)
    requires P.SplitWindowOf(args).Ok? && P.SplitWindowOf(args).value.printAfter
    requires EndsInPaneId(P.SplitWindowOf(args).value.format, before)
    ensures var (v, code) := Exec(w, "split-window", args, active, true, true);
            code == 0 && v.reg == R.Register(w.reg, "") && v.stdout == w.stdout + (line + "\n")
    ensures var id := D.Itoa(w.reg.next);
            |line| > |id| && line == line[..|line| - |id| - 1] + "%" + id
  {
    hide F.Expand, P.Scan, Line, EndsInPaneId;
    var opts := P.SplitWindowOf(args).value;
    var x := SplitPrints(w, opts, before);
    line := x + "%" + D.Itoa(w.reg.next);
    assert line[..|x|] == x;
    assert Exec(w, "split-window", args, active, true, true) == SplitWindow(w, opts, true);
  }

  // ----- the commands one by one

  lemma ExecSplit(w: World, args: seq<string>, active: Option<R.Info>, controllerOk: bool)
    requires P.SplitWindowOf(args).Ok?
    ensures Exec(w, "split-window", args, active, controllerOk, true) ==
            SplitWindow(w, P.SplitWindowOf(args).value, controllerOk)
  {
    hide P.SplitWindowOf, SplitWindow;
  }

  lemma SplitSurface(w: World, opts: P.SplitWindowOptions, controllerOk: bool)
    ensures SplitWindow(w, opts, controllerOk).0.surface == w.surface + [NewSplit(SplitDirection(opts.direction))]
    ensures !controllerOk ==>
              SplitWindow(w, opts, controllerOk) ==
              (w.(surface := SplitWindow(w, opts, controllerOk).0.surface), 1)
  {
    hide Line, R.Register;
  }

  /** split-window asks the controller for the direction of the last direction flag in
      option position, down without one; a failing controller ends it there. */
  lemma SplitAsksController(w: World, args: seq<string>, i: nat, active: Option<R.Info>, controllerOk: bool)
    requires P.SplitWindowOf(args).Ok?
    ensures P.LastDirectionAt(args, i) ==>
              Exec(w, "split-window", args, active, controllerOk, true).0.surface ==
              w.surface + [NewSplit(if args[i] in ["-h", "--right"] then "right"
                                    else if args[i] == "--left" then "left"
                                    else if args[i] == "--up" then "up"
                                    else "down")]
    ensures (forall j: nat :: !P.DirectionAt(args, j)) ==>
              Exec(w, "split-window", args, active, controllerOk, true).0.surface == w.surface + [NewSplit("down")]
    ensures !controllerOk ==>
              Exec(w, "split-window", args, active, controllerOk, true).1 == 1
              && Exec(w, "split-window", args, active, controllerOk, true).0 ==
                 w.(surface := Exec(w, "split-window", args, active, controllerOk, true).0.surface)
  {
    hide Exec, SplitWindow, P.SplitWindowOf, P.DirectionAt;
    ExecSplit(w, args, active, controllerOk);
    SplitSurface(w, P.SplitWindowOf(args).value, controllerOk);
    P.SplitWindowMeans(args);
    if P.LastDirectionAt(args, i) { FlagDirection(args, i); }
  }

  lemma FlagDirection(args: seq<string>, i: nat)
    requires P.LastDirectionAt(args, i)
    ensures P.DirectionFlag(args[i]) ==
            if args[i] in ["-h", "--right"] then "right"
            else if args[i] == "--left" then "left"
            else if args[i] == "--up" then "up"
            else "down"
  {
    assert P.DirectionAt(args, i);
    P.DirectionFlags(args[i]);
  }

  /** split-window without -P registers a pane and prints nothing. */
  lemma SplitQuietly(w: World, args: seq<string>, active: Option<R.Info>)
    requires P.SplitWindowOf(args).Ok? && !P.SplitWindowOf(args).value.printAfter
    ensures var (v, code) := Exec(w, "split-window", args, active, true, true);
            code == 0 && v == w.(surface := v.surface, reg := R.Register(w.reg, ""))
  {
    hide P.SplitWindowOf, Line, R.Register;
  }

  /** kill-pane closes a surface whatever its target; a failing controller ends it there,
      and so does, successfully, a target that names no pane. */
  lemma KillWithoutPane(w: World, target: string, active: Option<R.Info>, controllerOk: bool)
    requires !controllerOk || NamesNoPane(target)
    ensures Exec(w, "kill-pane", ["-t", target], active, controllerOk, true) ==
            (w.(surface := w.surface + [CloseSurface]), if controllerOk then 0 else 1)
  {
    KillTarget(target);
    PaneIdEmptyIff(target);
    hide P.TargetOf, PaneIdOf, NamesNoPane, R.Unregister;
  }

  /** has-session tells whether its target is the session. */
  lemma HasSessionTells(w: World, args: seq<string>, active: Option<R.Info>)
    ensures Exec(w, "has-session", args, active, true, true) ==
            (w, if P.TargetOf(args) == P.Ok(w.session) then 0 else 1)
  {
    hide P.TargetOf;
  }

  /** show-options answers one question, always successfully. */
  lemma ShowOptionsAnswers(w: World, active: Option<R.Info>)
    ensures Exec(w, "show-options", ["-g", "prefix"], active, true, true) ==
            (w.(stdout := w.stdout + "prefix C-b\n"), 0)
    ensures Exec(w, "show-options", ["prefix"], active, true, true) == (w, 0)
    ensures Exec(w, "show-options", ["-g"], active, true, true) == (w, 0)
  {
    hide P.ShowOptionsOf;
    P.ShowOptionsExamples();
  }

  /** The commands that do nothing, and the ones that are not supported. */
  lemma NoOps(w: World, name: string, args: seq<string>, active: Option<R.Info>)
    ensures Exec(w, "switch-client", args, active, true, true) == (w, 0)
    ensures Exec(w, "new-session", args, active, true, true) == (w, 0)
    ensures Exec(w, "select-pane", args, active, true, true) == (w, if P.SelectPaneOf(args).Ok? then 0 else 1)
    ensures name !in ["has-session", "switch-client", "new-session", "show-options", "split-window", "send-keys",
                      "select-pane", "kill-pane", "list-panes", "display-message"] ==>
              Exec(w, name, args, active, true, true) ==
              (w.(stderr := w.stderr + "shimux: unsupported tmux command: " + name + "\n"), 0)
  {
    hide P.SelectPaneOf, P.SplitWindowOf, P.SendKeysOf, P.TargetOf, P.ListPanesOf, P.DisplayMessageOf, P.ShowOptionsOf;
  }

  /** display-message with -p prints its format for the active pane, or with nothing but
      the session known; without -p it prints nothing. */
  lemma DisplayMessagePrints(w: World, args: seq<string>, active: Option<R.Info>)
    requires P.DisplayMessageOf(args).Ok?
    ensures var opts := P.DisplayMessageOf(args).value;
            && (!opts.show ==> Exec(w, "display-message", args, active, true, true) == (w, 0))
            && (opts.show && active.Some? ==>
                  Exec(w, "display-message", args, active, true, true) ==
                  (w.(stdout := w.stdout + F.Expand(opts.format, F.Lookup(FormatContext(w, active.value))) + "\n"), 0))
            && (opts.show && active.None? ==>
                  var bare := F.Context(w.session, "", "", "", "", "", "", 0, "", "", 0, 0, false);
                  Exec(w, "display-message", args, active, true, true) ==
                  (w.(stdout := w.stdout + F.Expand(opts.format, F.Lookup(bare)) + "\n"), 0))
  {
    hide P.DisplayMessageOf, F.Expand, F.Lookup, FormatContext;
  }

  /** Arguments a parser refuses: nothing happens and the exit code is 1. */
  lemma BadArguments(w: World, args: seq<string>, active: Option<R.Info>)
    ensures !P.TargetOf(args).Ok? ==>
              Exec(w, "has-session", args, active, true, true) == Exec(w, "kill-pane", args, active, true, true) == (w, 1)
    ensures !P.SplitWindowOf(args).Ok? ==> Exec(w, "split-window", args, active, true, true) == (w, 1)
    ensures !P.SendKeysOf(args).Ok? ==> Exec(w, "send-keys", args, active, true, true) == (w, 1)
    ensures !P.ListPanesOf(args).Ok? ==> Exec(w, "list-panes", args, active, true, true) == (w, 1)
    ensures !P.DisplayMessageOf(args).Ok? ==> Exec(w, "display-message", args, active, true, true) == (w, 1)
  {
    hide SplitWindow, KillPane, ListPanes, SendKeys, DisplayMessage;
    hide P.SplitWindowOf, P.SendKeysOf, P.TargetOf, P.ListPanesOf, P.DisplayMessageOf;
  }

  /** What the names in a format stand for when it is expanded for the pane at `i`. */
  lemma PaneValues(w: World, i: nat)
    requires R.Reachable(w.reg) && i < |w.reg.order|
    ensures w.reg.order[i] in w.reg.panes
    ensures var p := w.reg.panes[w.reg.order[i]];
            var lookup := F.Lookup(FormatContext(w, p));
            && lookup("pane_id") == "%" + w.reg.order[i] && lookup("pane_index") == D.Itoa(i)
            && lookup("session_name") == w.session == lookup("window_name")
            && lookup("session_id") == "$0" && lookup("window_index") == "0" && lookup("window_id") == "@0"
            && lookup("pane_pid") == D.Itoa(p.pid) && lookup("pane_tty") == p.tty
            && lookup("pane_current_path") == p.path
            && lookup("pane_width") == D.Itoa(p.width) && lookup("pane_height") == D.Itoa(p.height)
            && lookup("pane_active") == if p.active then "1" else "0"
  {
    R.ReachableInv(w.reg);
    R.ViewsAgree(w.reg, i);
    F.NamedValues(FormatContext(w, w.reg.panes[w.reg.order[i]]));
    hide F.LookupVar, D.Itoa, R.Reachable, R.Inv, R.IndexOf;
  }

  /** list-panes prints a line for every pane in order, and changes nothing else. */
  lemma ListPanesLines(w: World, args: seq<string>, active: Option<R.Info>)
    requires R.Reachable(w.reg) && P.ListPanesOf(args).Ok?
    ensures Exec(w, "list-panes", args, active, true, true) ==
            (w.(stdout := w.stdout + PaneLines(w, P.ListPanesOf(args).value.format, |w.reg.order|)), 0)
  {
    hide P.ListPanesOf, Lines, PaneLines, R.Listed, R.Reachable, R.Inv;
    R.ReachableInv(w.reg);
    LinesAreLines(w, P.ListPanesOf(args).value.format, |w.reg.order|);
    assert w.reg.order[..|w.reg.order|] == w.reg.order;
  }

  /** The lines of the first `n` panes, the format's default being the pane id. */
  function PaneLines(w: World, format: string, n: nat): string
    requires n <= |w.reg.order|
  {
    if n == 0 then ""
    else if w.reg.order[n - 1] !in w.reg.panes then PaneLines(w, format, n - 1)
    else
      PaneLines(w, format, n - 1)
      + (F.Expand(if format == "" then "#{pane_id}" else format,
                  F.Lookup(FormatContext(w, w.reg.panes[w.reg.order[n - 1]])))
         + "\n")
  }

  lemma {:induction false} LinesAreLines(w: World, format: string, n: nat)
    requires R.Inv(w.reg) && n <= |w.reg.order|
    ensures Lines(w, R.Listed(w.reg.panes, w.reg.order[..n]), format) == PaneLines(w, format, n)
  {
    hide F.Expand, F.Lookup, FormatContext, R.Increasing, R.Issued;
    if n == 0 {
      assert w.reg.order[..0] == [];
    } else {
      LinesAreLines(w, format, n - 1);
      assert w.reg.order[..n][..n - 1] == w.reg.order[..n - 1];
      var before := R.Listed(w.reg.panes, w.reg.order[..n - 1]);
      var p := w.reg.panes[w.reg.order[n - 1]];
      assert (before + [p])[..|before|] == before;
    }
  }

  // ----- sending keys

  /** GetActive ranges over a map in any order; on a reachable registry its answer is
      nevertheless determined, and with it every command's outcome. */
  lemma ActiveIsDetermined(reg: R.Reg, a: Option<R.Info>, b: Option<R.Info>)
    requires R.Reachable(reg) && ActiveChoice(reg, a) && ActiveChoice(reg, b)
    ensures a == b
  {
    R.ReachableInv(reg);
    if a.Some? && b.Some? {
      var i :| i in reg.panes && reg.panes[i] == a.value;
      var j :| j in reg.panes && reg.panes[j] == b.value;
    }
  }

  function Joined(keys: seq<string>): string {
    if keys == [] then "" else keys[0] + Joined(keys[1..])
  }

  lemma {:induction false} LiteralIsJoined(keys: seq<string>)
    ensures K.SendKeysData(keys, true) == Joined(keys)
  {
    if keys != [] {
      LiteralIsJoined(keys[1..]);
    }
  }

  lemma SendToPane(w: World, before: string, n: nat, literal: bool, keys: seq<string>, active: Option<R.Info>, sendOk: bool)
    requires K.SendKeysData(keys, literal) != ""
    ensures SendKeys(w, P.SendKeysOptions(before + "%" + D.Itoa(n), literal, keys), active, sendOk) ==
            (w.(sent := w.sent + [Sent(D.Itoa(n), K.SendKeysData(keys, literal))]), if sendOk then 0 else 1)
  {
    hide PaneIdOf, K.SendKeysData;
    PaneIdRecovered(before, n, "");
    assert D.Itoa(n) + "" == D.Itoa(n);
    D.DigitsOnly(n);
  }

  /** A target without a pane id: no percent sign, or no digit right after the last one. */
  ghost predicate NamesNoPane(target: string) {
    || '%' !in target
    || exists k :: LastPercentIs(target, k) && (k + 1 == |target| || !('0' <= target[k + 1] <= '9'))
  }

  predicate LastPercentIs(target: string, k: int) {
    0 <= k < |target| && target[k] == '%' && forall i | k < i < |target| :: target[i] != '%'
  }

  lemma PaneIdEmptyIff(target: string)
    ensures PaneIdOf(target) == "" <==> NamesNoPane(target)
  {
    var idx := LastPercent(target);
    if idx >= 0 {
      assert LastPercentIs(target, idx);
      if PaneIdOf(target) != "" {
        assert target[idx + 1..][0] == target[idx + 1];
      }
    }
  }

  /** send-keys without a pane id in its target, from the raw arguments: the active pane,
      if there is one, gets exactly the data, and the exit code is the client's success;
      without an active pane nothing is sent and the code is 1. */
  lemma SendKeysToActive(w: World, items: seq<P.SendItem>, keys: seq<string>, active: Option<R.Info>, sendOk: bool)
    requires R.Reachable(w.reg) && ActiveChoice(w.reg, active)
    requires NamesNoPane(P.FinalTarget("", items))
    requires K.SendKeysData(keys, P.Literal in items) != ""
    ensures var args := P.SpellSend(items) + (["--"] + keys);
            var data := K.SendKeysData(keys, P.Literal in items);
            && (forall k | k in w.reg.panes && w.reg.panes[k].active ::
                  Exec(w, "send-keys", args, active, true, sendOk) ==
                  (w.(sent := w.sent + [Sent(k, data)]), if sendOk then 0 else 1))
            && ((forall k | k in w.reg.panes :: !w.reg.panes[k].active) ==>
                  Exec(w, "send-keys", args, active, true, sendOk) == (w, 1))
  {
    hide P.SpellSend, P.FinalTarget, K.SendKeysData, PaneIdOf, NamesNoPane;
    var target := P.FinalTarget("", items);
    P.SendKeysReads("", false, items, ["--"] + keys);
    assert (["--"] + keys)[1..] == keys;
    PaneIdEmptyIff(target);
    ActiveIs(w.reg, active);
  }

  /** On a reachable registry GetActive's answer is the pane marked active, under its own
      id, which is not empty; or none. */
  lemma ActiveIs(reg: R.Reg, active: Option<R.Info>)
    requires R.Reachable(reg) && ActiveChoice(reg, active)
    ensures forall k | k in reg.panes && reg.panes[k].active ::
              active == Some(reg.panes[k]) && reg.panes[k].id == k && k != ""
    ensures (forall k | k in reg.panes :: !reg.panes[k].active) ==> active.None?
  {
    R.ReachableInv(reg);
    forall k | k in reg.panes && reg.panes[k].active
      ensures active == Some(reg.panes[k]) && reg.panes[k].id == k && k != ""
    {
      ActiveIsDetermined(reg, active, Some(reg.panes[k]));
      var i :| 0 <= i < |reg.order| && reg.order[i] == k;
      OrderIssued(reg, i);
      D.DigitsOnly(D.Value(k));
    }
  }

  /** A whole send-keys command line through both parser stages and the handler: the
      pane the target names, and no other, gets the keys' expansions in order, or with
      -l the keys themselves put together. */
  lemma SendKeysDelivers(w: World, globals: seq<P.GlobalItem>, before: string, n: nat, literal: bool,
                         keys: seq<string>, active: Option<R.Info>, sendOk: bool)
    requires forall i | 0 <= i < |globals| :: P.IsGlobal(globals[i])
    requires K.SendKeysData(keys, literal) != ""
    ensures var args := P.SpellSendKeys(before + "%" + D.Itoa(n), literal, keys);
            var parsed := P.ParseFrom(P.NO_GLOBAL, P.SpellGlobals(globals) + (["send-keys"] + args));
            && parsed.Ok?
            && Exec(w, parsed.value.command, parsed.value.args, active, true, sendOk) ==
               (w.(sent := w.sent + [Sent(D.Itoa(n), K.SendKeysData(keys, literal))]), if sendOk then 0 else 1)
    ensures literal ==> K.SendKeysData(keys, literal) == Joined(keys)
  {
    hide P.ParseFrom, P.SendKeysOf, P.SpellSendKeys, P.SpellGlobals, P.LastGlobal, SendKeys, K.SendKeysData, D.Itoa;
    P.CommandLineRoundTrip(globals, before + "%" + D.Itoa(n), literal, keys);
    SendToPane(w, before, n, literal, keys, active, sendOk);
    if literal { LiteralIsJoined(keys); }
  }

  /** list-panes in the default format prints every pane's id in registration order. */
  lemma {:induction false} ListedIds(w: World, panes: seq<R.Info>)
    ensures Lines(w, panes, "") == IdLines(R.Ids(panes))
  {
    hide Line;
    if panes != [] {
      var n := |panes| - 1;
      ListedIds(w, panes[..n]);
      assert F.Closed("") by {
        assert F.Tokenize("") == [];
      }
      PaneIdLine(w, panes[n], "", "");
      assert F.Expand("", F.Lookup(FormatContext(w, panes[n]))) == "";
      assert R.Ids(panes)[..n] == R.Ids(panes[..n]);
    }
  }

  function IdLines(ids: seq<string>): string {
    if ids == [] then "" else IdLines(ids[..|ids| - 1]) + ("%" + ids[|ids| - 1] + "\n")
  }

  lemma OrderIssued(reg: R.Reg, i: nat)
    requires R.Reachable(reg) && i < |reg.order|
    ensures D.Value(reg.order[i]) >= 0 && reg.order[i] == D.Itoa(D.Value(reg.order[i]))
  {
    R.ReachableInv(reg);
    assert R.Issued(reg.order[i], reg.next);
  }

  lemma NoListArguments()
    ensures P.ListPanesOf([]) == P.Ok(P.ListPanesOptions("", ""))
  {
  }

  lemma ListPanesPrints(w: World, active: Option<R.Info>)
    requires R.Reachable(w.reg)
    ensures Exec(w, "list-panes", [], active, true, true) == (w.(stdout := w.stdout + IdLines(w.reg.order)), 0)
  {
    hide Lines, R.List, R.Ids, IdLines, P.ListPanesOf, R.Reachable;
    NoListArguments();
    R.ReachableListed(w.reg);
    ListedIds(w, R.List(w.reg));
  }

  lemma ListPanesNamesAll(w: World, active: Option<R.Info>)
    requires R.Reachable(w.reg)
    ensures Exec(w, "list-panes", [], active, true, true) == (w.(stdout := w.stdout + IdLines(w.reg.order)), 0)
    ensures forall i | 0 <= i < |w.reg.order| :: PaneIdOf("%" + w.reg.order[i]) == w.reg.order[i]
  {
    ListPanesPrints(w, active);
    hide *;
    forall i | 0 <= i < |w.reg.order| ensures PaneIdOf("%" + w.reg.order[i]) == w.reg.order[i] {
      var id := w.reg.order[i];
      OrderIssued(w.reg, i);
      PaneIdRecovered("", D.Value(id), "");
      assert "" + "%" + (id + "") == "%" + id;
    }
  }

  /** A fresh manager numbers from zero: the first pane that any tmux-mode process
      creates is printed as %0, so ids do repeat from process to process. */
  lemma FreshManagerPrintsZero(w: World, args: seq<string>, active: Option<R.Info>)
    requires w.reg == R.New()
    requires P.SplitWindowOf(args).Ok?
    requires P.SplitWindowOf(args).value.printAfter && P.SplitWindowOf(args).value.format == ""
    ensures Exec(w, "split-window", args, active, true, true).0.stdout == w.stdout + "%0\n"
  {
    hide F.Expand, P.Scan, Line;
    var opts := P.SplitWindowOf(args).value;
    assert Exec(w, "split-window", args, active, true, true) == SplitWindow(w, opts, true);
    var p := R.NewPane(w.reg, "");
    var called := w.(surface := w.surface + [NewSplit(SplitDirection(opts.direction))], reg := R.Register(w.reg, ""));
    NothingExpands(FormatContext(called, p));
    PaneIdLine(called, p, "", "");
    assert D.Itoa(0) == "0";
    assert "" + "%" + p.id + "\n" == "%0\n";
  }

  lemma NothingExpands(fctx: F.Context)
    ensures F.Closed("") && F.Expand("", F.Lookup(fctx)) == ""
  {
    assert F.Tokenize("") == [];
  }

  /** With a fresh manager, as each tmux-mode process makes one without loading the
      state file, kill-pane of any pane id fails, after the surface was closed. */
  lemma FreshManagerCannotKill(w: World, target: string)
    requires w.reg == R.New() && PaneIdOf(target) != ""
    ensures KillPane(w, target, true) == (w.(surface := w.surface + [CloseSurface]), 1)
  {
  }
}
