/** The three-stage argument parser. The command-specific parsers are loops over one
    kind of argument list; their common meaning is `Scan`, which divides the list
    into flags and options with values. */
module Parser {

  datatype Result<+T> = Ok(value: T) | Missing(option: string) | NoCommand | EmptyCommand

  /** A piece of an argument list. */
  datatype Tok = Flag(arg: string) | Opt(name: string, value: string)

  /** `args` read from the left: an option in `valued` takes the next argument. */
  function Scan(valued: set<string>, args: seq<string>): Result<seq<Tok>> {
    if args == [] then Ok([])
    else if args[0] in valued then
      if |args| == 1 then Missing(args[0]) else After([Opt(args[0], args[1])], Scan(valued, args[2..]))
    else After([Flag(args[0])], Scan(valued, args[1..]))
  }

  function After(done: seq<Tok>, r: Result<seq<Tok>>): Result<seq<Tok>> {
    if r.Ok? then Ok(done + r.value) else r
  }

  /** Position `i` of `args` is read as an option, not as an option's value. */
  predicate OptionPosition(valued: set<string>, args: seq<string>, i: nat)
    decreases i
  {
    i == 0
    || (args != [] &&
        if args[0] in valued then |args| >= 2 && i >= 2 && OptionPosition(valued, args[2..], i - 2)
        else OptionPosition(valued, args[1..], i - 1))
  }

  function Spelled(toks: seq<Tok>): seq<string> {
    if toks == [] then []
    else (match toks[0] case Flag(a) => [a] case Opt(n, v) => [n, v]) + Spelled(toks[1..])
  }

  predicate Fits(valued: set<string>, t: Tok) {
    if t.Flag? then t.arg !in valued else t.name in valued
  }

  /** A scan that succeeds loses nothing: its tokens spell the arguments. */
  lemma {:induction false} ScanThenSpell(valued: set<string>, args: seq<string>)
    ensures Scan(valued, args).Ok? ==>
              && Spelled(Scan(valued, args).value) == args
              && forall t | t in Scan(valued, args).value :: Fits(valued, t)
    decreases |args|
  {
    if args == [] {
    } else if args[0] in valued {
      if |args| > 1 {
        ScanThenSpell(valued, args[2..]);
        var r := Scan(valued, args[2..]);
        if r.Ok? {
          assert ([Opt(args[0], args[1])] + r.value)[1..] == r.value;
          assert args == [args[0], args[1]] + args[2..];
        }
      }
    } else {
      ScanThenSpell(valued, args[1..]);
      var r := Scan(valued, args[1..]);
      if r.Ok? {
        assert ([Flag(args[0])] + r.value)[1..] == r.value;
        assert args == [args[0]] + args[1..];
      }
    }
  }

  /** Any list of fitting tokens scans back to itself. */
  lemma {:induction false} SpellThenScan(valued: set<string>, toks: seq<Tok>)
    requires forall t | t in toks :: Fits(valued, t)
    ensures Scan(valued, Spelled(toks)) == Ok(toks)
  {
    if toks != [] {
      SpellThenScan(valued, toks[1..]);
      var rest := Spelled(toks[1..]);
      assert toks == [toks[0]] + toks[1..];
      assert Fits(valued, toks[0]);
      match toks[0]
      case Flag(a) => assert ([a] + rest)[1..] == rest;
      case Opt(n, v) => assert ([n, v] + rest)[2..] == rest;
    }
  }

  /** The scan fails exactly when a value-taking option is last in option position. */
  lemma {:induction false} ScanFailsIff(valued: set<string>, args: seq<string>)
    ensures Scan(valued, args).Ok? || Scan(valued, args).Missing?
    ensures Scan(valued, args).Missing? <==>
            args != [] && args[|args| - 1] in valued && OptionPosition(valued, args, |args| - 1)
    ensures Scan(valued, args).Missing? ==> args != [] && Scan(valued, args).option == args[|args| - 1]
    decreases |args|
  {
    if args != [] {
      if args[0] in valued {
        if |args| >= 2 { ScanFailsIff(valued, args[2..]); }
      } else {
        ScanFailsIff(valued, args[1..]);
      }
    }
  }

  // ----- what the loops keep

  /** The loop has read `done` from the first `i` arguments. */
  ghost predicate ReadTo(valued: set<string>, args: seq<string>, i: nat, done: seq<Tok>) {
    i <= |args| && Scan(valued, args) == After(done, Scan(valued, args[i..]))
  }

  lemma ReadNothing(valued: set<string>, args: seq<string>)
    ensures ReadTo(valued, args, 0, [])
  {
    assert args[0..] == args;
    ScanFailsIff(valued, args);
    if Scan(valued, args).Ok? {
      assert [] + Scan(valued, args).value == Scan(valued, args).value;
    }
  }

  lemma ReadFlag(valued: set<string>, args: seq<string>, i: nat, done: seq<Tok>)
    requires ReadTo(valued, args, i, done) && i < |args| && args[i] !in valued
    ensures ReadTo(valued, args, i + 1, done + [Flag(args[i])])
  {
    assert args[i..][1..] == args[i + 1..];
    var r := Scan(valued, args[i + 1..]);
    if r.Ok? {
      assert done + ([Flag(args[i])] + r.value) == (done + [Flag(args[i])]) + r.value;
    }
  }

  lemma ReadOpt(valued: set<string>, args: seq<string>, i: nat, done: seq<Tok>)
    requires ReadTo(valued, args, i, done) && i + 1 < |args| && args[i] in valued
    ensures ReadTo(valued, args, i + 2, done + [Opt(args[i], args[i + 1])])
  {
    assert args[i..][2..] == args[i + 2..];
    var r := Scan(valued, args[i + 2..]);
    if r.Ok? {
      assert done + ([Opt(args[i], args[i + 1])] + r.value) == (done + [Opt(args[i], args[i + 1])]) + r.value;
    }
  }

  lemma ReadMissing(valued: set<string>, args: seq<string>, i: nat, done: seq<Tok>)
    requires ReadTo(valued, args, i, done) && i + 1 == |args| && args[i] in valued
    ensures Scan(valued, args) == Missing(args[i])
  {
  }

  lemma ReadAll(valued: set<string>, args: seq<string>, done: seq<Tok>)
    requires ReadTo(valued, args, |args|, done)
    ensures Scan(valued, args) == Ok(done)
  {
    assert args[|args|..] == [];
    assert done + [] == done;
  }

  // ----- the meaning of tokens

  /** The value of the last `name` option, or "". */
  function LastValue(toks: seq<Tok>, name: string): string {
    if toks == [] then ""
    else
      var t := toks[|toks| - 1];
      if t.Opt? && t.name == name then t.value else LastValue(toks[..|toks| - 1], name)
  }

  predicate Names(t: Tok, name: string) { t.Opt? && t.name == name }

  lemma {:induction false} LastValueIsLast(toks: seq<Tok>, name: string)
    ensures (forall i | 0 <= i < |toks| :: !Names(toks[i], name)) ==> LastValue(toks, name) == ""
    ensures forall i | 0 <= i < |toks| ::
              Names(toks[i], name) && (forall j | i < j < |toks| :: !Names(toks[j], name)) ==>
              LastValue(toks, name) == toks[i].value
  {
    if toks != [] && !Names(toks[|toks| - 1], name) {
      LastValueIsLast(toks[..|toks| - 1], name);
    }
  }

  /** The last value given, by position: what the lists below mean by it. */
  ghost predicate LastGiven(toks: seq<Tok>, name: string, value: string) {
    || (value == "" && forall i | 0 <= i < |toks| :: !Names(toks[i], name))
    || (exists i | 0 <= i < |toks| ::
          Names(toks[i], name) && toks[i].value == value && forall j | i < j < |toks| :: !Names(toks[j], name))
  }

  lemma {:induction false} LastValueIsGiven(toks: seq<Tok>, name: string)
    ensures LastGiven(toks, name, LastValue(toks, name))
  {
    if toks != [] {
      var n := |toks| - 1;
      if Names(toks[n], name) {
        assert toks[n].value == LastValue(toks, name);
      } else {
        LastValueIsGiven(toks[..n], name);
        if i :| 0 <= i < n && Names(toks[..n][i], name) && toks[..n][i].value == LastValue(toks, name)
                && forall j | i < j < n :: !Names(toks[..n][j], name) {
          assert Names(toks[i], name) && forall j | i < j < |toks| :: !Names(toks[j], name) by {
            forall j | i < j < |toks| ensures !Names(toks[j], name) {
              if j < n { assert !Names(toks[..n][j], name); }
            }
          }
        } else {
          forall i | 0 <= i < |toks| ensures !Names(toks[i], name) {
            if i < n { assert !Names(toks[..n][i], name); }
          }
        }
      }
    }
  }

  function DirectionFlag(arg: string): string {
    if arg == "-h" || arg == "--right" then "right"
    else if arg == "-v" || arg == "--down" then "down"
    else if arg == "--left" then "left"
    else if arg == "--up" then "up"
    else ""
  }

  predicate IsDirection(t: Tok) { t.Flag? && DirectionFlag(t.arg) != "" }

  /** The direction of the last direction flag, or "". */
  function LastDirection(toks: seq<Tok>): string {
    if toks == [] then ""
    else
      var t := toks[|toks| - 1];
      if IsDirection(t) then DirectionFlag(t.arg) else LastDirection(toks[..|toks| - 1])
  }

  function DirectionOrDown(direction: string): string {
    if direction == "" then "down" else direction
  }

  /** The last flag other than `flag`, or "". */
  function LastOther(toks: seq<Tok>, flag: string): string {
    if toks == [] then ""
    else
      var t := toks[|toks| - 1];
      if t.Flag? && t.arg != flag then t.arg else LastOther(toks[..|toks| - 1], flag)
  }

  /** The format of display-message: the last of the -F values and positionals. */
  function LastFormat(toks: seq<Tok>): string {
    if toks == [] then ""
    else
      var t := toks[|toks| - 1];
      if t.Flag? && t.arg != "-p" then t.arg
      else if t.Opt? && t.name == "-F" then t.value
      else LastFormat(toks[..|toks| - 1])
  }

  // ----- split-window

  datatype SplitWindowOptions = SplitWindowOptions(
    horizontal: bool,
    direction: string,
    target: string,
    size: string,
    printAfter: bool,
    format: string
  )

  function SplitValued(): set<string> { {"-t", "-l", "-F"} }

  function SplitWindowMeaning(toks: seq<Tok>): SplitWindowOptions {
    SplitWindowOptions(
      LastDirection(toks) == "right",
      DirectionOrDown(LastDirection(toks)),
      LastValue(toks, "-t"),
      LastValue(toks, "-l"),
      Flag("-P") in toks,
      LastValue(toks, "-F"))
  }

  function SplitWindowOf(args: seq<string>): Result<SplitWindowOptions> {
    match Scan(SplitValued(), args)
    case Ok(toks) => Ok(SplitWindowMeaning(toks))
    case Missing(o) => Missing(o)
    case _ => NoCommand
  }

  /** One more token, field by field. */
  lemma SplitWindowOneMore(done: seq<Tok>, t: Tok)
    ensures var was, now := SplitWindowMeaning(done), SplitWindowMeaning(done + [t]);
            && now.direction == (if IsDirection(t) then DirectionFlag(t.arg) else was.direction)
            && now.horizontal == (if IsDirection(t) then DirectionFlag(t.arg) == "right" else was.horizontal)
            && now.target == (if t.Opt? && t.name == "-t" then t.value else was.target)
            && now.size == (if t.Opt? && t.name == "-l" then t.value else was.size)
            && now.format == (if t.Opt? && t.name == "-F" then t.value else was.format)
            && now.printAfter == (t == Flag("-P") || was.printAfter)
  {
    assert (done + [t])[..|done|] == done;
  }

  method ParseSplitWindow(args: seq<string>) returns (r: Result<SplitWindowOptions>)
    ensures r == SplitWindowOf(args)
  {
    var opts := SplitWindowOptions(false, "down", "", "", false, "");
    ghost var done: seq<Tok> := [];
    ReadNothing(SplitValued(), args);
    var i := 0;
    while i < |args|
      invariant ReadTo(SplitValued(), args, i, done)
      invariant opts == SplitWindowMeaning(done)
    {
      var arg := args[i];
      if arg == "-t" || arg == "-l" || arg == "-F" {
        if i + 1 >= |args| {
          ReadMissing(SplitValued(), args, i, done);
          return Missing(arg);
        }
        ReadOpt(SplitValued(), args, i, done);
        SplitWindowOneMore(done, Opt(arg, args[i + 1]));
        done := done + [Opt(arg, args[i + 1])];
        i := i + 1;
        if arg == "-t" {
          opts := opts.(target := args[i]);
        } else if arg == "-l" {
          opts := opts.(size := args[i]);
        } else {
          opts := opts.(format := args[i]);
        }
      } else {
        ReadFlag(SplitValued(), args, i, done);
        SplitWindowOneMore(done, Flag(arg));
        done := done + [Flag(arg)];
        if arg == "-h" || arg == "--right" {
          opts := opts.(horizontal := true, direction := "right");
        } else if arg == "-v" || arg == "--down" {
          opts := opts.(horizontal := false, direction := "down");
        } else if arg == "--left" {
          opts := opts.(horizontal := false, direction := "left");
        } else if arg == "--up" {
          opts := opts.(horizontal := false, direction := "up");
        } else if arg == "-P" {
          opts := opts.(printAfter := true);
        }
      }
      i := i + 1;
    }
    ReadAll(SplitValued(), args, done);
    r := Ok(opts);
  }

  /** A direction flag at `i`, in option position. */
  predicate DirectionAt(args: seq<string>, i: nat) {
    i < |args| && args[i] !in SplitValued() && OptionPosition(SplitValued(), args, i) && DirectionFlag(args[i]) != ""
  }

  ghost predicate LastDirectionAt(args: seq<string>, i: nat) {
    DirectionAt(args, i) && forall j: nat :: DirectionAt(args, j) ==> j <= i
  }

  lemma {:induction false} LastDirectionCons(t: Tok, toks: seq<Tok>)
    ensures LastDirection([t] + toks) ==
            if LastDirection(toks) != "" then LastDirection(toks)
            else if IsDirection(t) then DirectionFlag(t.arg) else ""
  {
    if toks == [] {
      assert [t] + toks == [t] && [t][..0] == [];
    } else {
      var n := |toks| - 1;
      assert ([t] + toks)[..n + 1] == [t] + toks[..n];
      LastDirectionCons(t, toks[..n]);
    }
  }

  /** Positions of the remaining arguments, after `w` of them have been read. */
  lemma DirectionShift(args: seq<string>, w: nat, j: nat)
    requires args != [] && w == (if args[0] in SplitValued() then 2 else 1) && w <= |args|
    ensures DirectionAt(args[w..], j) <==> DirectionAt(args, j + w)
    ensures DirectionAt(args, j) ==> j == 0 || j >= w
  {
  }

  /** The last direction flag in option position is the last one among the tokens. */
  lemma {:induction false} LocateDirection(args: seq<string>) returns (i: int)
    requires Scan(SplitValued(), args).Ok?
    ensures i >= -1
    ensures i >= 0 ==> LastDirectionAt(args, i)
                       && LastDirection(Scan(SplitValued(), args).value) == DirectionFlag(args[i])
    ensures i < 0 ==> LastDirection(Scan(SplitValued(), args).value) == ""
                      && forall j: nat :: !DirectionAt(args, j)
    decreases |args|
  {
    if args == [] {
      return -1;
    }
    var w := if args[0] in SplitValued() then 2 else 1;
    var first := if args[0] in SplitValued() then Opt(args[0], args[1]) else Flag(args[0]);
    var r := LocateDirection(args[w..]);
    LastDirectionCons(first, Scan(SplitValued(), args[w..]).value);
    i := if r >= 0 then r + w else if IsDirection(first) then 0 else -1;
    forall j: nat | DirectionAt(args, j) ensures 0 <= i && j <= i {
      DirectionShift(args, w, j);
      if j >= w { DirectionShift(args, w, j - w); }
    }
    if r >= 0 { DirectionShift(args, w, r); }
  }

  /** split-window's arguments fail exactly when -t, -l or -F is last in option
      position; otherwise the direction is that of the last direction flag in option
      position, down by default, and Horizontal holds exactly for "right". */
  lemma SplitWindowMeans(args: seq<string>)
    ensures SplitWindowOf(args).Missing? <==>
            args != [] && args[|args| - 1] in SplitValued()
            && OptionPosition(SplitValued(), args, |args| - 1)
    ensures !SplitWindowOf(args).Missing? ==> SplitWindowOf(args).Ok?
    ensures SplitWindowOf(args).Ok? ==>
              var opts := SplitWindowOf(args).value;
              && (opts.horizontal <==> opts.direction == "right")
              && (forall i: nat :: LastDirectionAt(args, i) ==> opts.direction == DirectionFlag(args[i]))
              && ((forall i: nat :: !DirectionAt(args, i)) ==> opts.direction == "down")
  {
    ScanFailsIff(SplitValued(), args);
    if Scan(SplitValued(), args).Ok? {
      var i := LocateDirection(args);
      forall j: nat | LastDirectionAt(args, j) ensures j == i {
      }
    }
  }

  /** The six direction flags, and that there are no others. */
  lemma DirectionFlags(arg: string)
    ensures DirectionFlag("-h") == DirectionFlag("--right") == "right"
    ensures DirectionFlag("-v") == DirectionFlag("--down") == "down"
    ensures DirectionFlag("--left") == "left" && DirectionFlag("--up") == "up"
    ensures DirectionFlag(arg) != "" ==> arg in ["-h", "--right", "-v", "--down", "--left", "--up"]
  {
  }

  /** split-window's options by name: any flags and options in any order, written out,
      give each option's last value to its own field. */
  lemma SplitWindowReads(toks: seq<Tok>)
    requires forall t | t in toks :: if t.Flag? then t.arg !in ["-t", "-l", "-F"] else t.name in ["-t", "-l", "-F"]
    ensures SplitWindowOf(Spelled(toks)).Ok?
    ensures var opts := SplitWindowOf(Spelled(toks)).value;
            && LastGiven(toks, "-t", opts.target)
            && LastGiven(toks, "-l", opts.size)
            && LastGiven(toks, "-F", opts.format)
            && (opts.printAfter <==> Flag("-P") in toks)
  {
    SpellThenScan(SplitValued(), toks);
    LastValueIsGiven(toks, "-t");
    LastValueIsGiven(toks, "-l");
    LastValueIsGiven(toks, "-F");
    hide LastGiven, LastValue, Scan, Spelled;
  }

  // ----- the other option parsers

  function TargetOf(args: seq<string>): Result<string> {
    match Scan({"-t"}, args)
    case Ok(toks) => Ok(LastValue(toks, "-t"))
    case Missing(o) => Missing(o)
    case _ => NoCommand
  }

  /** ParseKillPane and ParseHasSession. */
  method ParseTarget(args: seq<string>) returns (r: Result<string>)
    ensures r == TargetOf(args)
  {
    var target := "";
    ghost var done: seq<Tok> := [];
    ReadNothing({"-t"}, args);
    var i := 0;
    while i < |args|
      invariant ReadTo({"-t"}, args, i, done)
      invariant target == LastValue(done, "-t")
    {
      if args[i] == "-t" {
        if i + 1 >= |args| {
          ReadMissing({"-t"}, args, i, done);
          return Missing(args[i]);
        }
        ReadOpt({"-t"}, args, i, done);
        done := done + [Opt(args[i], args[i + 1])];
        i := i + 1;
        target := args[i];
      } else {
        ReadFlag({"-t"}, args, i, done);
        done := done + [Flag(args[i])];
      }
      i := i + 1;
    }
    ReadAll({"-t"}, args, done);
    r := Ok(target);
  }

  /** kill-pane's and has-session's target: the last -t. */
  lemma TargetReads(toks: seq<Tok>)
    requires forall t | t in toks :: if t.Flag? then t.arg != "-t" else t.name == "-t"
    ensures TargetOf(Spelled(toks)).Ok? && LastGiven(toks, "-t", TargetOf(Spelled(toks)).value)
  {
    SpellThenScan({"-t"}, toks);
    LastValueIsGiven(toks, "-t");
  }

  datatype ListPanesOptions = ListPanesOptions(format: string, target: string)

  function ListPanesOf(args: seq<string>): Result<ListPanesOptions> {
    match Scan({"-F", "-t"}, args)
    case Ok(toks) => Ok(ListPanesOptions(LastValue(toks, "-F"), LastValue(toks, "-t")))
    case Missing(o) => Missing(o)
    case _ => NoCommand
  }

  method ParseListPanes(args: seq<string>) returns (r: Result<ListPanesOptions>)
    ensures r == ListPanesOf(args)
  {
    var opts := ListPanesOptions("", "");
    ghost var done: seq<Tok> := [];
    ReadNothing({"-F", "-t"}, args);
    var i := 0;
    while i < |args|
      invariant ReadTo({"-F", "-t"}, args, i, done)
      invariant opts == ListPanesOptions(LastValue(done, "-F"), LastValue(done, "-t"))
    {
      var arg := args[i];
      if arg == "-F" || arg == "-t" {
        if i + 1 >= |args| {
          ReadMissing({"-F", "-t"}, args, i, done);
          return Missing(arg);
        }
        ReadOpt({"-F", "-t"}, args, i, done);
        done := done + [Opt(arg, args[i + 1])];
        i := i + 1;
        opts := if arg == "-F" then opts.(format := args[i]) else opts.(target := args[i]);
      } else {
        ReadFlag({"-F", "-t"}, args, i, done);
        done := done + [Flag(arg)];
      }
      i := i + 1;
    }
    ReadAll({"-F", "-t"}, args, done);
    r := Ok(opts);
  }

  lemma ListPanesReads(toks: seq<Tok>)
    requires forall t | t in toks :: if t.Flag? then t.arg !in ["-F", "-t"] else t.name in ["-F", "-t"]
    ensures ListPanesOf(Spelled(toks)).Ok?
    ensures LastGiven(toks, "-F", ListPanesOf(Spelled(toks)).value.format)
    ensures LastGiven(toks, "-t", ListPanesOf(Spelled(toks)).value.target)
  {
    SpellThenScan({"-F", "-t"}, toks);
    LastValueIsGiven(toks, "-F");
    LastValueIsGiven(toks, "-t");
  }

  datatype DisplayMessageOptions = DisplayMessageOptions(show: bool, format: string, target: string)

  function DisplayMessageMeaning(toks: seq<Tok>): DisplayMessageOptions {
    DisplayMessageOptions(Flag("-p") in toks, LastFormat(toks), LastValue(toks, "-t"))
  }

  function DisplayMessageOf(args: seq<string>): Result<DisplayMessageOptions> {
    match Scan({"-t", "-F"}, args)
    case Ok(toks) => Ok(DisplayMessageMeaning(toks))
    case Missing(o) => Missing(o)
    case _ => NoCommand
  }

  lemma DisplayMessageOneMore(done: seq<Tok>, t: Tok)
    ensures var was, now := DisplayMessageMeaning(done), DisplayMessageMeaning(done + [t]);
            && now.show == (t == Flag("-p") || was.show)
            && now.target == (if t.Opt? && t.name == "-t" then t.value else was.target)
            && now.format == (if t.Flag? && t.arg != "-p" then t.arg
                              else if t.Opt? && t.name == "-F" then t.value else was.format)
  {
    assert (done + [t])[..|done|] == done;
  }

  method ParseDisplayMessage(args: seq<string>) returns (r: Result<DisplayMessageOptions>)
    ensures r == DisplayMessageOf(args)
  {
    var opts := DisplayMessageOptions(false, "", "");
    ghost var done: seq<Tok> := [];
    ReadNothing({"-t", "-F"}, args);
    var i := 0;
    while i < |args|
      invariant ReadTo({"-t", "-F"}, args, i, done)
      invariant opts == DisplayMessageMeaning(done)
    {
      hide LastValue, LastFormat;
      var arg := args[i];
      if arg == "-t" || arg == "-F" {
        if i + 1 >= |args| {
          ReadMissing({"-t", "-F"}, args, i, done);
          return Missing(arg);
        }
        ReadOpt({"-t", "-F"}, args, i, done);
        DisplayMessageOneMore(done, Opt(arg, args[i + 1]));
        done := done + [Opt(arg, args[i + 1])];
        i := i + 1;
        opts := if arg == "-t" then opts.(target := args[i]) else opts.(format := args[i]);
      } else {
        ReadFlag({"-t", "-F"}, args, i, done);
        DisplayMessageOneMore(done, Flag(arg));
        done := done + [Flag(arg)];
        opts := if arg == "-p" then opts.(show := true) else opts.(format := arg);
      }
      i := i + 1;
    }
    ReadAll({"-t", "-F"}, args, done);
    r := Ok(opts);
  }

  /** display-message's format is the last argument that is neither -p nor -t's value, an
      -F before it left out. */
  lemma DisplayMessageReads(toks: seq<Tok>)
    requires forall t | t in toks :: if t.Flag? then t.arg !in ["-t", "-F"] else t.name in ["-t", "-F"]
    ensures DisplayMessageOf(Spelled(toks)).Ok?
    ensures var opts := DisplayMessageOf(Spelled(toks)).value;
            && (opts.show <==> Flag("-p") in toks)
            && LastGiven(toks, "-t", opts.target)
            && LastFormatGiven(toks, opts.format)
  {
    SpellThenScan({"-t", "-F"}, toks);
    LastValueIsGiven(toks, "-t");
    LastFormatIsGiven(toks);
    hide LastGiven, LastValue, Scan, Spelled, LastFormat, LastFormatGiven;
  }

  predicate GivesFormat(t: Tok) {
    if t.Flag? then t.arg != "-p" else t.name == "-F"
  }

  ghost predicate LastFormatGiven(toks: seq<Tok>, format: string) {
    || (format == "" && forall i | 0 <= i < |toks| :: !GivesFormat(toks[i]))
    || (exists i | 0 <= i < |toks| ::
          GivesFormat(toks[i]) && format == (if toks[i].Flag? then toks[i].arg else toks[i].value)
          && forall j | i < j < |toks| :: !GivesFormat(toks[j]))
  }

  lemma {:induction false} LastFormatIsGiven(toks: seq<Tok>)
    ensures LastFormatGiven(toks, LastFormat(toks))
  {
    if toks != [] {
      var n := |toks| - 1;
      if GivesFormat(toks[n]) {
        assert LastFormat(toks) == if toks[n].Flag? then toks[n].arg else toks[n].value;
      } else {
        LastFormatIsGiven(toks[..n]);
        if i :| 0 <= i < n && GivesFormat(toks[..n][i])
                && LastFormat(toks) == (if toks[..n][i].Flag? then toks[..n][i].arg else toks[..n][i].value)
                && forall j | i < j < n :: !GivesFormat(toks[..n][j]) {
          forall j | i < j < |toks| ensures !GivesFormat(toks[j]) {
            if j < n { assert !GivesFormat(toks[..n][j]); }
          }
          assert GivesFormat(toks[i]);
        } else {
          forall i | 0 <= i < |toks| ensures !GivesFormat(toks[i]) {
            if i < n { assert !GivesFormat(toks[..n][i]); }
          }
        }
      }
    }
  }

  datatype SelectPaneOptions = SelectPaneOptions(target: string, style: string, title: string)

  function SelectPaneMeaning(toks: seq<Tok>): SelectPaneOptions {
    SelectPaneOptions(LastValue(toks, "-t"), LastValue(toks, "-P"), LastValue(toks, "-T"))
  }

  function SelectPaneOf(args: seq<string>): Result<SelectPaneOptions> {
    match Scan({"-t", "-P", "-T"}, args)
    case Ok(toks) => Ok(SelectPaneMeaning(toks))
    case Missing(o) => Missing(o)
    case _ => NoCommand
  }

  method ParseSelectPane(args: seq<string>) returns (r: Result<SelectPaneOptions>)
    ensures r == SelectPaneOf(args)
  {
    var opts := SelectPaneOptions("", "", "");
    ghost var done: seq<Tok> := [];
    ReadNothing({"-t", "-P", "-T"}, args);
    var i := 0;
    while i < |args|
      invariant ReadTo({"-t", "-P", "-T"}, args, i, done)
      invariant opts == SelectPaneMeaning(done)
    {
      var arg := args[i];
      if arg == "-t" || arg == "-P" || arg == "-T" {
        if i + 1 >= |args| {
          ReadMissing({"-t", "-P", "-T"}, args, i, done);
          return Missing(arg);
        }
        ReadOpt({"-t", "-P", "-T"}, args, i, done);
        done := done + [Opt(arg, args[i + 1])];
        i := i + 1;
        opts := if arg == "-t" then opts.(target := args[i])
                else if arg == "-P" then opts.(style := args[i])
                else opts.(title := args[i]);
      } else {
        ReadFlag({"-t", "-P", "-T"}, args, i, done);
        done := done + [Flag(arg)];
      }
      i := i + 1;
    }
    ReadAll({"-t", "-P", "-T"}, args, done);
    r := Ok(opts);
  }

  lemma SelectPaneReads(toks: seq<Tok>)
    requires forall t | t in toks :: if t.Flag? then t.arg !in ["-t", "-P", "-T"] else t.name in ["-t", "-P", "-T"]
    ensures SelectPaneOf(Spelled(toks)).Ok?
    ensures var opts := SelectPaneOf(Spelled(toks)).value;
            LastGiven(toks, "-t", opts.target) && LastGiven(toks, "-P", opts.style) && LastGiven(toks, "-T", opts.title)
  {
    SpellThenScan({"-t", "-P", "-T"}, toks);
    LastValueIsGiven(toks, "-t");
    LastValueIsGiven(toks, "-P");
    LastValueIsGiven(toks, "-T");
    hide LastGiven, LastValue, Scan, Spelled;
  }

  datatype ShowOptionsOptions = ShowOptionsOptions(global: bool, option: string)

  function ShowOptionsOf(args: seq<string>): ShowOptionsOptions {
    var toks := seq(|args|, i requires 0 <= i < |args| => Flag(args[i]));
    ShowOptionsOptions("-g" in args, LastOther(toks, "-g"))
  }

  method ParseShowOptions(args: seq<string>) returns (opts: ShowOptionsOptions)
    ensures opts == ShowOptionsOf(args)
  {
    opts := ShowOptionsOptions(false, "");
    ghost var toks := seq(|args|, i requires 0 <= i < |args| => Flag(args[i]));
    for i := 0 to |args|
      invariant opts.global <==> "-g" in args[..i]
      invariant opts.option == LastOther(toks[..i], "-g")
    {
      assert toks[..i + 1][..i] == toks[..i];
      assert args[..i + 1] == args[..i] + [args[i]];
      if args[i] == "-g" {
        opts := opts.(global := true);
      } else {
        opts := opts.(option := args[i]);
      }
    }
    assert toks[..|args|] == toks && args[..|args|] == args;
  }

  /** show-options: whether -g occurs, and the last argument that is not -g. */
  lemma {:induction false} ShowOptionsReads(args: seq<string>, option: string)
    requires option != "-g"
    ensures ShowOptionsOf(args).global <==> "-g" in args
    ensures ShowOptionsOf(args + [option]).option == option
    ensures ShowOptionsOf(args + ["-g"]).option == ShowOptionsOf(args).option && ShowOptionsOf([]).option == ""
  {
    var toks := seq(|args|, i requires 0 <= i < |args| => Flag(args[i]));
    var more := args + [option];
    var moreToks := seq(|more|, i requires 0 <= i < |more| => Flag(more[i]));
    assert moreToks == toks + [Flag(option)] && moreToks[..|toks|] == toks;
    var last := args + ["-g"];
    var lastToks := seq(|last|, i requires 0 <= i < |last| => Flag(last[i]));
    assert lastToks == toks + [Flag("-g")] && lastToks[..|toks|] == toks;
  }

  /** Which argument lists the simpler parsers refuse: an option without its value at the
      end, in option position. They accept all others. */
  lemma MissingValues(args: seq<string>)
    ensures TargetOf(args).Missing? <==>
            args != [] && args[|args| - 1] == "-t" && OptionPosition({"-t"}, args, |args| - 1)
    ensures ListPanesOf(args).Missing? <==>
            args != [] && args[|args| - 1] in ["-F", "-t"] && OptionPosition({"-F", "-t"}, args, |args| - 1)
    ensures DisplayMessageOf(args).Missing? <==>
            args != [] && args[|args| - 1] in ["-F", "-t"] && OptionPosition({"-t", "-F"}, args, |args| - 1)
    ensures SelectPaneOf(args).Missing? <==>
            args != [] && args[|args| - 1] in ["-t", "-P", "-T"] && OptionPosition({"-t", "-P", "-T"}, args, |args| - 1)
    ensures TargetOf(args).Missing? || TargetOf(args).Ok?
    ensures ListPanesOf(args).Missing? || ListPanesOf(args).Ok?
    ensures DisplayMessageOf(args).Missing? || DisplayMessageOf(args).Ok?
    ensures SelectPaneOf(args).Missing? || SelectPaneOf(args).Ok?
  {
    ScanFailsIff({"-t"}, args);
    ScanFailsIff({"-F", "-t"}, args);
    ScanFailsIff({"-t", "-F"}, args);
    ScanFailsIff({"-t", "-P", "-T"}, args);
    hide Scan, OptionPosition;
  }

  lemma ShowOptionsExamples()
    ensures ShowOptionsOf(["-g", "prefix"]) == ShowOptionsOptions(true, "prefix")
    ensures ShowOptionsOf(["prefix"]) == ShowOptionsOptions(false, "prefix")
    ensures ShowOptionsOf(["-g"]) == ShowOptionsOptions(true, "")
  {
    ShowOptionsReads(["-g"], "prefix");
    ShowOptionsReads([], "prefix");
    ShowOptionsReads(["-g", "prefix"], "");
    ShowOptionsReads(["prefix"], "");
    ShowOptionsReads(["-g"], "");
    hide ShowOptionsOf;
    assert ["-g"] + ["prefix"] == ["-g", "prefix"] && [] + ["prefix"] == ["prefix"] && [] + ["-g"] == ["-g"];
  }

  // ----- send-keys

  datatype SendKeysOptions = SendKeysOptions(target: string, literal: bool, keys: seq<string>)

  function SendKeysFrom(target: string, literal: bool, args: seq<string>): Result<SendKeysOptions>
    decreases |args|
  {
    if args == [] then Ok(SendKeysOptions(target, literal, []))
    else if args[0] == "--" then Ok(SendKeysOptions(target, literal, args[1..]))
    else if args[0] == "-t" then
      if |args| == 1 then Missing("-t") else SendKeysFrom(args[1], literal, args[2..])
    else if args[0] == "-l" then SendKeysFrom(target, true, args[1..])
    else Ok(SendKeysOptions(target, literal, args))
  }

  function SendKeysOf(args: seq<string>): Result<SendKeysOptions> {
    SendKeysFrom("", false, args)
  }

  method ParseSendKeys(args: seq<string>) returns (r: Result<SendKeysOptions>)
    ensures r == SendKeysOf(args)
  {
    var opts := SendKeysOptions("", false, []);
    var i := 0;
    while i < |args|
      invariant i <= |args| && opts.keys == []
      invariant SendKeysOf(args) == SendKeysFrom(opts.target, opts.literal, args[i..])
    {
      var arg := args[i];
      if arg == "--" {
        assert args[i..][1..] == args[i + 1..];
        i := i + 1;
        assert opts.keys + args[i..] == args[i..];
        opts := opts.(keys := opts.keys + args[i..]);
        return Ok(opts);
      }
      if arg == "-t" {
        assert i + 1 < |args| ==> args[i..][2..] == args[i + 2..];
        i := i + 1;
        if i >= |args| {
          return Missing("-t");
        }
        opts := opts.(target := args[i]);
      } else if arg == "-l" {
        assert args[i..][1..] == args[i + 1..];
        opts := opts.(literal := true);
      } else {
        assert opts.keys + args[i..] == args[i..];
        opts := opts.(keys := opts.keys + args[i..]);
        return Ok(opts);
      }
      i := i + 1;
    }
    r := Ok(opts);
  }

  /** An option of send-keys. */
  datatype SendItem = Target(t: string) | Literal

  function SpellSend(items: seq<SendItem>): seq<string> {
    if items == [] then []
    else (if items[0].Target? then ["-t", items[0].t] else ["-l"]) + SpellSend(items[1..])
  }

  function FinalTarget(target: string, items: seq<SendItem>): string
    decreases |items|
  {
    if items == [] then target
    else FinalTarget(if items[0].Target? then items[0].t else target, items[1..])
  }

  /** What can follow the options: nothing, `--` and keys, a first key that is no
      option, or a -t without its value. */
  function Remainder(target: string, literal: bool, rest: seq<string>): Result<SendKeysOptions>
    requires rest == [] || rest[0] != "-l"
    requires rest != [] && rest[0] == "-t" ==> |rest| == 1
  {
    if rest == [] then Ok(SendKeysOptions(target, literal, []))
    else if rest[0] == "-t" then Missing("-t")
    else Ok(SendKeysOptions(target, literal, if rest[0] == "--" then rest[1..] else rest))
  }

  lemma SendTargetStep(target: string, literal: bool, t: string, more: seq<string>)
    ensures SendKeysFrom(target, literal, ["-t", t] + more) == SendKeysFrom(t, literal, more)
  {
    assert (["-t", t] + more)[2..] == more;
  }

  lemma SendLiteralStep(target: string, literal: bool, more: seq<string>)
    ensures SendKeysFrom(target, literal, ["-l"] + more) == SendKeysFrom(target, true, more)
  {
    assert (["-l"] + more)[1..] == more;
  }

  lemma SendNothing(target: string, literal: bool, rest: seq<string>)
    requires rest == [] || rest[0] != "-l"
    requires rest != [] && rest[0] == "-t" ==> |rest| == 1
    ensures SendKeysFrom(target, literal, rest) == Remainder(target, literal, rest)
  {
  }

  /** send-keys reads any options, then one of the four remainders. */
  lemma {:induction false} SendKeysReads(target: string, literal: bool, items: seq<SendItem>, rest: seq<string>)
    requires rest == [] || rest[0] != "-l"
    requires rest != [] && rest[0] == "-t" ==> |rest| == 1
    ensures SendKeysFrom(target, literal, SpellSend(items) + rest) ==
            Remainder(FinalTarget(target, items), literal || Literal in items, rest)
    decreases |items|
  {
    hide Remainder, SendKeysFrom;
    SendNothing(target, literal, rest);
    if items == [] {
      assert [] + rest == rest;
    } else {
      var more := SpellSend(items[1..]) + rest;
      assert items == [items[0]] + items[1..];
      match items[0] {
        case Target(t) =>
          SendKeysReads(t, literal, items[1..], rest);
          SendTargetStep(target, literal, t, more);
          assert SpellSend(items) + rest == ["-t", t] + more;
        case Literal =>
          SendKeysReads(target, true, items[1..], rest);
          SendLiteralStep(target, literal, more);
          assert SpellSend(items) + rest == ["-l"] + more;
      }
    }
  }

  /** Every argument list is options followed by one of those remainders, so the two
      lemmas together say what send-keys does on every input. */
  lemma {:induction false} SendKeysDivides(args: seq<string>) returns (items: seq<SendItem>, rest: seq<string>)
    ensures args == SpellSend(items) + rest
    ensures rest == [] || rest[0] != "-l"
    ensures rest != [] && rest[0] == "-t" ==> |rest| == 1
    decreases |args|
  {
    if args != [] && args[0] == "-l" {
      var more, tail := SendKeysDivides(args[1..]);
      items, rest := [Literal] + more, tail;
      assert items[1..] == more;
      assert args == ["-l"] + args[1..];
    } else if |args| > 1 && args[0] == "-t" {
      var more, tail := SendKeysDivides(args[2..]);
      items, rest := [Target(args[1])] + more, tail;
      assert items[1..] == more;
      assert args == ["-t", args[1]] + args[2..];
    } else {
      items, rest := [], args;
    }
  }

  /** For every input the keys are a suffix of the arguments. */
  lemma {:induction false} KeysAreSuffix(target: string, literal: bool, args: seq<string>)
    ensures SendKeysFrom(target, literal, args).Ok? ==>
              var keys := SendKeysFrom(target, literal, args).value.keys;
              |keys| <= |args| && keys == args[|args| - |keys|..]
    decreases |args|
  {
    if args == [] || args[0] == "--" {
    } else if args[0] == "-t" {
      if |args| > 1 { KeysAreSuffix(args[1], literal, args[2..]); }
    } else if args[0] == "-l" {
      KeysAreSuffix(target, true, args[1..]);
    }
  }

  // ----- the global stage

  datatype Global = Global(socketName: string, socketPath: string, configFile: string, version: bool)

  datatype Parsed = Parsed(global: Global, command: string, args: seq<string>)

  const NO_GLOBAL := Global("", "", "", false)

  function SetGlobal(g: Global, option: string, value: string): Global {
    if option == "-L" then g.(socketName := value)
    else if option == "-S" then g.(socketPath := value)
    else g.(configFile := value)
  }

  function ParseFrom(g: Global, args: seq<string>): Result<Parsed>
    decreases |args|
  {
    if args == [] then NoCommand
    else if args[0] == "-V" then Ok(Parsed(g.(version := true), "", []))
    else if args[0] == "-L" || args[0] == "-S" || args[0] == "-f" then
      if |args| == 1 then Missing(args[0]) else ParseFrom(SetGlobal(g, args[0], args[1]), args[2..])
    else if args[0] == "" then EmptyCommand
    else Ok(Parsed(g, args[0], args[1..]))
  }

  method Parse(args: seq<string>) returns (r: Result<Parsed>)
    ensures r == ParseFrom(NO_GLOBAL, args)
  {
    if |args| == 0 {
      return NoCommand;
    }
    var g := NO_GLOBAL;
    var i := 0;
    while i < |args|
      invariant i <= |args| && !g.version
      invariant ParseFrom(NO_GLOBAL, args) == ParseFrom(g, args[i..])
    {
      var arg := args[i];
      if arg == "-V" {
        return Ok(Parsed(g.(version := true), "", []));
      }
      if arg != "-L" && arg != "-S" && arg != "-f" {
        break;
      }
      assert i + 1 < |args| ==> args[i..][2..] == args[i + 2..];
      i := i + 1;
      if i >= |args| {
        return Missing(arg);
      }
      g := SetGlobal(g, arg, args[i]);
      i := i + 1;
    }
    if i >= |args| {
      return NoCommand;
    }
    var cmd := args[i];
    if cmd == "" {
      return EmptyCommand;
    }
    assert args[i..][1..] == args[i + 1..];
    r := Ok(Parsed(g, cmd, args[i + 1..]));
  }

  /** A global option with its value. */
  datatype GlobalItem = GlobalItem(option: string, value: string)

  /** The three global options that take a value. */
  predicate IsGlobal(item: GlobalItem)
    ensures IsGlobal(item) <==> item.option == "-L" || item.option == "-S" || item.option == "-f"
  {
    item.option in {"-L", "-S", "-f"}
  }

  function SpellGlobals(items: seq<GlobalItem>): seq<string> {
    if items == [] then [] else [items[0].option, items[0].value] + SpellGlobals(items[1..])
  }

  function FinalGlobal(g: Global, items: seq<GlobalItem>): Global
    decreases |items|
  {
    if items == [] then g else FinalGlobal(SetGlobal(g, items[0].option, items[0].value), items[1..])
  }

  /** The value the last `option` among the items gives, or `otherwise`. */
  function LastGlobal(items: seq<GlobalItem>, option: string, otherwise: string): string {
    if items == [] then otherwise
    else
      var n := |items| - 1;
      if items[n].option == option then items[n].value else LastGlobal(items[..n], option, otherwise)
  }

  lemma {:induction false} LastGlobalCons(item: GlobalItem, items: seq<GlobalItem>, option: string, otherwise: string)
    ensures LastGlobal([item] + items, option, otherwise) ==
            LastGlobal(items, option, if item.option == option then item.value else otherwise)
  {
    if items == [] {
      assert [item] + items == [item] && [item][..0] == [];
    } else {
      var n := |items| - 1;
      assert ([item] + items)[..n + 1] == [item] + items[..n];
      LastGlobalCons(item, items[..n], option, otherwise);
    }
  }

  /** Repeated global options: the last of each kind wins, whatever their order. */
  lemma {:induction false} LastGlobalWins(g: Global, items: seq<GlobalItem>)
    requires forall i | 0 <= i < |items| :: IsGlobal(items[i])
    ensures FinalGlobal(g, items) ==
            Global(LastGlobal(items, "-L", g.socketName), LastGlobal(items, "-S", g.socketPath),
                   LastGlobal(items, "-f", g.configFile), g.version)
    decreases |items|
  {
    if items != [] {
      assert IsGlobal(items[0]);
      assert items == [items[0]] + items[1..];
      LastGlobalWins(SetGlobal(g, items[0].option, items[0].value), items[1..]);
      LastGlobalCons(items[0], items[1..], "-L", g.socketName);
      LastGlobalCons(items[0], items[1..], "-S", g.socketPath);
      LastGlobalCons(items[0], items[1..], "-f", g.configFile);
    }
  }

  lemma {:induction false} ParseReads(g: Global, items: seq<GlobalItem>, rest: seq<string>)
    requires forall i | 0 <= i < |items| :: IsGlobal(items[i])
    ensures ParseFrom(g, SpellGlobals(items) + rest) == ParseFrom(FinalGlobal(g, items), rest)
    decreases |items|
  {
    if items == [] {
      assert [] + rest == rest;
    } else {
      ParseReads(SetGlobal(g, items[0].option, items[0].value), items[1..], rest);
      assert IsGlobal(items[0]);
      assert (SpellGlobals(items) + rest)[2..] == SpellGlobals(items[1..]) + rest;
    }
  }

  /** What can follow the global options, and what it leads to: nothing, -V, an option
      without its value, an empty command name, or a command with its arguments. */
  lemma AfterGlobals(items: seq<GlobalItem>, rest: seq<string>)
    requires forall i | 0 <= i < |items| :: IsGlobal(items[i])
    requires |rest| >= 2 ==> rest[0] != "-L" && rest[0] != "-S" && rest[0] != "-f"
    ensures ParseFrom(NO_GLOBAL, SpellGlobals(items) + rest) ==
            var g := Global(LastGlobal(items, "-L", ""), LastGlobal(items, "-S", ""), LastGlobal(items, "-f", ""), false);
            if rest == [] then NoCommand
            else if rest[0] == "-V" then Ok(Parsed(g.(version := true), "", []))
            else if rest[0] == "-L" || rest[0] == "-S" || rest[0] == "-f" then Missing(rest[0])
            else if rest[0] == "" then EmptyCommand
            else Ok(Parsed(g, rest[0], rest[1..]))
  {
    ParseReads(NO_GLOBAL, items, rest);
    LastGlobalWins(NO_GLOBAL, items);
  }

  /** Every command line is global options followed by one of those. */
  lemma {:induction false} GlobalsDivide(args: seq<string>) returns (items: seq<GlobalItem>, rest: seq<string>)
    ensures args == SpellGlobals(items) + rest
    ensures forall i | 0 <= i < |items| :: IsGlobal(items[i])
    ensures |rest| >= 2 ==> rest[0] != "-L" && rest[0] != "-S" && rest[0] != "-f"
    decreases |args|
  {
    if |args| >= 2 && (args[0] == "-L" || args[0] == "-S" || args[0] == "-f") {
      var more, tail := GlobalsDivide(args[2..]);
      items, rest := [GlobalItem(args[0], args[1])] + more, tail;
      assert items[1..] == more;
      assert args == [args[0], args[1]] + args[2..];
    } else {
      items, rest := [], args;
    }
  }

  /** The arguments of a send-keys command, written out in full. */
  function SpellSendKeys(target: string, literal: bool, keys: seq<string>): seq<string> {
    SpellSend([Target(target)] + (if literal then [Literal] else [])) + (["--"] + keys)
  }

  lemma SendKeysRoundTrip(target: string, literal: bool, keys: seq<string>)
    ensures SendKeysOf(SpellSendKeys(target, literal, keys)) == Ok(SendKeysOptions(target, literal, keys))
    ensures SpellSendKeys(target, literal, keys) ==
            ["-t", target] + (if literal then ["-l"] else []) + ["--"] + keys
  {
    var items := [Target(target)] + (if literal then [Literal] else []);
    SendKeysReads("", false, items, ["--"] + keys);
    assert (["--"] + keys)[1..] == keys;
    if literal {
      assert items[1..] == [Literal] && [Literal][1..] == [];
    } else {
      assert items[1..] == [];
    }
  }

  /** A whole send-keys command line, written out and parsed back: the global options,
      the command, the target, the literal flag and any keys after `--` return. */
  lemma CommandLineRoundTrip(globals: seq<GlobalItem>, target: string, literal: bool, keys: seq<string>)
    requires forall i | 0 <= i < |globals| :: IsGlobal(globals[i])
    ensures var args := SpellSendKeys(target, literal, keys);
            && ParseFrom(NO_GLOBAL, SpellGlobals(globals) + (["send-keys"] + args)) ==
               Ok(Parsed(Global(LastGlobal(globals, "-L", ""), LastGlobal(globals, "-S", ""),
                                LastGlobal(globals, "-f", ""), false),
                         "send-keys", args))
            && SendKeysOf(args) == Ok(SendKeysOptions(target, literal, keys))
  {
    var args := SpellSendKeys(target, literal, keys);
    ParseReads(NO_GLOBAL, globals, ["send-keys"] + args);
    LastGlobalWins(NO_GLOBAL, globals);
    assert (["send-keys"] + args)[1..] == args;
    SendKeysRoundTrip(target, literal, keys);
  }
}
