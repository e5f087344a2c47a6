/** tmux format templates: `#{name}` references expanded against a context. The
    expansion loop is proved against a tokenisation of the template. */
module Format {
  import opened Decimal

  datatype Context = Context(
    sessionName: string,
    sessionId: string,
    windowIndex: string,
    windowId: string,
    windowName: string,
    paneId: string,
    paneIndex: string,
    panePid: int,
    paneTty: string,
    panePath: string,
    paneWidth: int,
    paneHeight: int,
    paneActive: bool
  )

  predicate Known(name: string) {
    name in {"session_name", "session_id", "window_index", "window_id", "window_name", "pane_id", "pane_index",
             "pane_pid", "pane_tty", "pane_current_path", "pane_width", "pane_height", "pane_active"}
  }

  /** lookupVar: an unknown name stands for its own reference. */
  function LookupVar(name: string, ctx: Context): string {
    if name == "session_name" then ctx.sessionName
    else if name == "session_id" then ctx.sessionId
    else if name == "window_index" then ctx.windowIndex
    else if name == "window_id" then ctx.windowId
    else if name == "window_name" then ctx.windowName
    else if name == "pane_id" then ctx.paneId
    else if name == "pane_index" then ctx.paneIndex
    else if name == "pane_pid" then Itoa(ctx.panePid)
    else if name == "pane_tty" then ctx.paneTty
    else if name == "pane_current_path" then ctx.panePath
    else if name == "pane_width" then Itoa(ctx.paneWidth)
    else if name == "pane_height" then Itoa(ctx.paneHeight)
    else if name == "pane_active" then (if ctx.paneActive then "1" else "0")
    else "#{" + name + "}"
  }

  predicate OpensAt(s: string, i: int) {
    0 <= i && i + 1 < |s| && s[i] == '#' && s[i + 1] == '{'
  }

  /** strings.Index(s, "#{") */
  function FindOpen(s: string): (r: int)
    ensures -1 <= r < |s|
    ensures r >= 0 ==> OpensAt(s, r)
    ensures forall j :: 0 <= j < (if r >= 0 then r else |s|) ==> !OpensAt(s, j)
  {
    if |s| < 2 then -1
    else if OpensAt(s, 0) then 0
    else
      var i := FindOpen(s[1..]);
      assert forall j :: j > 0 ==> (OpensAt(s, j) <==> OpensAt(s[1..], j - 1));
      if i < 0 then -1 else i + 1
  }

  predicate ClosesAt(s: string, i: int) {
    0 <= i < |s| && s[i] == '}'
  }

  /** strings.IndexByte(s, '}') */
  function FindClose(s: string): (r: int)
    ensures -1 <= r < |s|
    ensures r >= 0 ==> ClosesAt(s, r)
    ensures forall j :: 0 <= j < (if r >= 0 then r else |s|) ==> !ClosesAt(s, j)
  {
    if s == "" then -1
    else if s[0] == '}' then 0
    else
      var i := FindClose(s[1..]);
      assert forall j :: j > 0 ==> (ClosesAt(s, j) <==> ClosesAt(s[1..], j - 1));
      if i < 0 then -1 else i + 1
  }

  /** A piece of a template: literal text, a closed reference, or an unclosed rest. */
  datatype Token = Lit(text: string) | Var(name: string) | Tail(text: string)

  function Text(t: Token): string {
    match t
    case Lit(text) => text
    case Var(name) => "#{" + name + "}"
    case Tail(text) => text
  }

  /** The lookup of a context, as a function of the name alone. */
  function Lookup(ctx: Context): string -> string {
    name => LookupVar(name, ctx)
  }

  function Render(t: Token, lookup: string -> string): string {
    match t
    case Lit(text) => text
    case Var(name) => lookup(name)
    case Tail(text) => text
  }

  function Unparse(tokens: seq<Token>): string {
    if tokens == [] then "" else Text(tokens[0]) + Unparse(tokens[1..])
  }

  function RenderAll(tokens: seq<Token>, lookup: string -> string): string {
    if tokens == [] then "" else Render(tokens[0], lookup) + RenderAll(tokens[1..], lookup)
  }

  function Literal(s: string): seq<Token> {
    if s == "" then [] else [Lit(s)]
  }

  function Tokenize(template: string): seq<Token>
    decreases |template|, 1
  {
    var idx := FindOpen(template);
    if idx < 0 then Literal(template)
    else Literal(template[..idx]) + FromReference(template[idx..])
  }

  /** The tokens of a template that begins with a reference opening. */
  function FromReference(s: string): seq<Token>
    requires OpensAt(s, 0)
    decreases |s|, 0
  {
    var rest := s[2..];
    var end := FindClose(rest);
    if end < 0 then [Tail(s)] else [Var(rest[..end])] + Tokenize(rest[end + 1..])
  }

  /** What the tokens of a template are: literals are nonempty, open no reference and
      are never adjacent; names are closed by their own brace; a tail comes last. */
  ghost predicate WellFormed(tokens: seq<Token>) {
    tokens == []
    || (&& WellFormed(tokens[1..])
        && match tokens[0]
           case Lit(text) => text != "" && FindOpen(text) < 0 && (|tokens| > 1 ==> !tokens[1].Lit?)
           case Var(name) => FindClose(name) < 0
           case Tail(text) => |tokens| == 1 && OpensAt(text, 0) && FindClose(text[2..]) < 0)
  }

  /** Each token rendered once, in order. */
  function Expand(template: string, lookup: string -> string): string {
    RenderAll(Tokenize(template), lookup)
  }

  lemma {:induction false} UnparseConcat(a: seq<Token>, b: seq<Token>)
    ensures Unparse(a + b) == Unparse(a) + Unparse(b)
  {
    if a == [] {
      assert a + b == b;
    } else {
      assert (a + b)[1..] == a[1..] + b;
      UnparseConcat(a[1..], b);
    }
  }

  lemma {:induction false} RenderConcat(a: seq<Token>, b: seq<Token>, lookup: string -> string)
    ensures RenderAll(a + b, lookup) == RenderAll(a, lookup) + RenderAll(b, lookup)
  {
    if a == [] {
      assert a + b == b;
    } else {
      assert (a + b)[1..] == a[1..] + b;
      RenderConcat(a[1..], b, lookup);
    }
  }

  lemma LiteralText(s: string, lookup: string -> string)
    ensures Unparse(Literal(s)) == s && RenderAll(Literal(s), lookup) == s
  {
    if s != "" {
      assert [Lit(s)][1..] == [];
    }
  }

  /** Expansion unfolded along the scan: up to the first opening ... */
  lemma ExpandUnfolds(template: string, lookup: string -> string)
    ensures var idx := FindOpen(template);
            Expand(template, lookup) ==
            if idx < 0 then template else template[..idx] + RenderAll(FromReference(template[idx..]), lookup)
  {
    var idx := FindOpen(template);
    if idx < 0 {
      LiteralText(template, lookup);
    } else {
      LiteralText(template[..idx], lookup);
      RenderConcat(Literal(template[..idx]), FromReference(template[idx..]), lookup);
    }
  }

  /** ... and through the reference opened there. */
  lemma ReferenceUnfolds(s: string, lookup: string -> string)
    requires OpensAt(s, 0)
    ensures var end := FindClose(s[2..]);
            RenderAll(FromReference(s), lookup) ==
            if end < 0 then s else lookup(s[2..][..end]) + Expand(s[2..][end + 1..], lookup)
  {
    var end := FindClose(s[2..]);
    if end < 0 {
      assert [Tail(s)][1..] == [];
    } else {
      var more := Tokenize(s[2..][end + 1..]);
      assert ([Var(s[2..][..end])] + more)[1..] == more;
    }
  }

  lemma Assoc4(a: string, b: string, c: string, d: string)
    ensures a + (b + (c + d)) == ((a + b) + c) + d
  {
  }

  /** What one turn of the scanning loop adds to its output. */
  lemma LoopStep(out: string, left: string, idx: nat, lookup: string -> string)
    requires idx == FindOpen(left)
    ensures var rest := left[idx + 2..];
            var end := FindClose(rest);
            out + Expand(left, lookup) ==
            if end < 0 then (out + left[..idx]) + left[idx..]
            else ((out + left[..idx]) + lookup(rest[..end])) + Expand(rest[end + 1..], lookup)
  {
    var rest := left[idx + 2..];
    var end := FindClose(rest);
    ExpandUnfolds(left, lookup);
    ReferenceUnfolds(left[idx..], lookup);
    assert left[idx..][2..] == rest;
    if end < 0 {
      Assoc4(out, left[..idx], left[idx..], "");
    } else {
      Assoc4(out, left[..idx], lookup(rest[..end]), Expand(rest[end + 1..], lookup));
    }
  }

  /** ExpandFormat, the scanning loop. */
  method ExpandFormat(template: string, ctx: Context) returns (out: string)
    ensures out == Expand(template, Lookup(ctx))
  {
    ghost var lookup := Lookup(ctx);
    out := "";
    var left := template;
    while true
      invariant out + Expand(left, lookup) == Expand(template, lookup)
      decreases |left|
    {
      var idx := FindOpen(left);
      if idx < 0 {
        ExpandUnfolds(left, lookup);
        out := out + left;
        break;
      }
      LoopStep(out, left, idx, lookup);
      out := out + left[..idx];
      var rest := left[idx + 2..];
      var end := FindClose(rest);
      if end < 0 {
        out := out + left[idx..];
        break;
      }
      var name := rest[..end];
      assert lookup(name) == LookupVar(name, ctx);
      out := out + LookupVar(name, ctx);
      left := rest[end + 1..];
    }
  }

  // ----- the tokenisation is the template

  lemma ReferenceSpelled(s: string)
    requires OpensAt(s, 0)
    ensures var end := FindClose(s[2..]);
            end >= 0 ==> s == "#{" + s[2..][..end] + "}" + s[2..][end + 1..]
  {
  }

  lemma {:induction false} TokensSpellTemplate(template: string)
    ensures Unparse(Tokenize(template)) == template
    decreases |template|, 1
  {
    var idx := FindOpen(template);
    if idx < 0 {
      LiteralText(template, s => s);
    } else {
      LiteralText(template[..idx], s => s);
      TokensSpellReference(template[idx..]);
      UnparseConcat(Literal(template[..idx]), FromReference(template[idx..]));
      assert template == template[..idx] + template[idx..];
    }
  }

  lemma {:induction false} TokensSpellReference(s: string)
    requires OpensAt(s, 0)
    ensures Unparse(FromReference(s)) == s
    decreases |s|, 0
  {
    var end := FindClose(s[2..]);
    if end < 0 {
      assert [Tail(s)][1..] == [];
    } else {
      TokensSpellTemplate(s[2..][end + 1..]);
      ReferenceSpelled(s);
      var more := Tokenize(s[2..][end + 1..]);
      assert ([Var(s[2..][..end])] + more)[1..] == more;
    }
  }

  lemma PrefixOpensNothing(s: string, idx: nat)
    requires idx == FindOpen(s)
    ensures FindOpen(s[..idx]) < 0
  {
    forall j | 0 <= j < idx ensures !OpensAt(s[..idx], j) {
      assert !OpensAt(s, j);
    }
  }

  lemma LiteralBefore(text: string, more: seq<Token>)
    requires FindOpen(text) < 0
    requires WellFormed(more) && more != [] && !more[0].Lit?
    ensures WellFormed(Literal(text) + more)
  {
    if text == "" {
      assert Literal(text) + more == more;
    } else {
      assert (Literal(text) + more)[1..] == more;
    }
  }

  lemma PrefixClosesNothing(s: string, end: nat)
    requires end == FindClose(s)
    ensures FindClose(s[..end]) < 0
  {
    forall j | 0 <= j < end ensures !ClosesAt(s[..end], j) {
      assert !ClosesAt(s, j);
    }
  }

  lemma {:induction false} TokensWellFormed(template: string)
    ensures WellFormed(Tokenize(template))
    decreases |template|, 1
  {
    var idx := FindOpen(template);
    if idx >= 0 {
      PrefixOpensNothing(template, idx);
      ReferenceWellFormed(template[idx..]);
      LiteralBefore(template[..idx], FromReference(template[idx..]));
    } else if template != "" {
      assert [Lit(template)][1..] == [];
    }
  }

  lemma {:induction false} ReferenceWellFormed(s: string)
    requires OpensAt(s, 0)
    ensures WellFormed(FromReference(s))
    ensures FromReference(s) != [] && !FromReference(s)[0].Lit?
    decreases |s|, 0
  {
    var end := FindClose(s[2..]);
    if end < 0 {
      assert [Tail(s)][1..] == [];
    } else {
      PrefixClosesNothing(s[2..], end);
      TokensWellFormed(s[2..][end + 1..]);
      var more := Tokenize(s[2..][end + 1..]);
      assert ([Var(s[2..][..end])] + more)[1..] == more;
    }
  }

  /** Every template is the concatenation of its tokens, and these are well formed. */
  lemma TokenizeThenUnparse(template: string)
    ensures Unparse(Tokenize(template)) == template
    ensures WellFormed(Tokenize(template))
  {
    TokensSpellTemplate(template);
    TokensWellFormed(template);
  }

  lemma FirstOpenAfter(a: string, b: string)
    requires FindOpen(a) < 0 && OpensAt(b, 0)
    ensures FindOpen(a + b) == |a|
  {
    assert OpensAt(a + b, |a|);
    forall j | 0 <= j < |a| ensures !OpensAt(a + b, j) {
      assert !OpensAt(a, j);
    }
  }

  lemma FirstCloseAfter(a: string, b: string)
    requires FindClose(a) < 0
    ensures FindClose(a + "}" + b) == |a|
  {
    var s := a + "}" + b;
    assert ClosesAt(s, |a|);
    forall j | 0 <= j < |a| ensures !ClosesAt(s, j) {
      assert !ClosesAt(a, j);
    }
  }

  lemma Cut(a: string, b: string)
    ensures (a + b)[..|a|] == a && (a + b)[|a|..] == b
  {
  }

  lemma TokenizeOpening(s: string)
    requires OpensAt(s, 0)
    ensures Tokenize(s) == FromReference(s)
  {
    assert FindOpen(s) == 0;
    assert s[..0] == "" && s[0..] == s;
  }

  lemma TokenizeLiteral(text: string, b: string)
    requires text != "" && FindOpen(text) < 0 && OpensAt(b, 0)
    ensures Tokenize(text + b) == [Lit(text)] + Tokenize(b)
  {
    FirstOpenAfter(text, b);
    Cut(text, b);
    TokenizeOpening(b);
  }

  lemma TokenizeReference(name: string, after: string)
    requires FindClose(name) < 0
    ensures Tokenize("#{" + name + "}" + after) == [Var(name)] + Tokenize(after)
  {
    var whole := "#{" + name + "}" + after;
    var rest := name + "}" + after;
    hide Tokenize, FindClose;
    assert OpensAt(whole, 0);
    TokenizeOpening(whole);
    assert whole[2..] == rest;
    FirstCloseAfter(name, after);
    assert rest[..|name|] == name && rest[|name| + 1..] == after;
  }

  lemma TokenizeTail(text: string)
    requires OpensAt(text, 0) && FindClose(text[2..]) < 0
    ensures Tokenize(text) == [Tail(text)]
  {
    TokenizeOpening(text);
  }

  lemma EmptyTemplate()
    ensures Tokenize("") == []
  {
  }

  lemma TokenizePlain(text: string)
    requires text != "" && FindOpen(text) < 0
    ensures Tokenize(text) == [Lit(text)]
  {
  }

  lemma OpensWithReference(tokens: seq<Token>)
    requires WellFormed(tokens) && tokens != [] && !tokens[0].Lit?
    ensures OpensAt(Unparse(tokens), 0)
  {
  }

  /** Well-formed token lists and templates correspond one to one. */
  lemma {:induction false} UnparseThenTokenize(tokens: seq<Token>)
    requires WellFormed(tokens)
    ensures Tokenize(Unparse(tokens)) == tokens
    decreases |tokens|
  {
    hide Tokenize, FindOpen, FindClose;
    EmptyTemplate();
    if tokens != [] {
      UnparseThenTokenize(tokens[1..]);
      var after := Unparse(tokens[1..]);
      assert tokens == [tokens[0]] + tokens[1..];
      match tokens[0]
      case Lit(text) =>
        if |tokens| == 1 {
          assert text + after == text;
          TokenizePlain(text);
        } else {
          OpensWithReference(tokens[1..]);
          TokenizeLiteral(text, after);
        }
      case Var(name) => TokenizeReference(name, after);
      case Tail(text) =>
        assert text + after == text;
        TokenizeTail(text);
    }
  }

  // ----- the names

  /** What each name stands for. */
  lemma NamedValues(ctx: Context)
    ensures LookupVar("session_name", ctx) == ctx.sessionName && LookupVar("session_id", ctx) == ctx.sessionId
    ensures LookupVar("window_index", ctx) == ctx.windowIndex && LookupVar("window_id", ctx) == ctx.windowId
    ensures LookupVar("window_name", ctx) == ctx.windowName
    ensures LookupVar("pane_id", ctx) == ctx.paneId && LookupVar("pane_index", ctx) == ctx.paneIndex
    ensures LookupVar("pane_pid", ctx) == Itoa(ctx.panePid) && LookupVar("pane_tty", ctx) == ctx.paneTty
    ensures LookupVar("pane_current_path", ctx) == ctx.panePath
    ensures LookupVar("pane_width", ctx) == Itoa(ctx.paneWidth) && LookupVar("pane_height", ctx) == Itoa(ctx.paneHeight)
    ensures LookupVar("pane_active", ctx) == if ctx.paneActive then "1" else "0"
  {
  }

  /** Every other name stands for its own reference. */
  lemma OtherNames(name: string, ctx: Context)
    requires name !in ["session_name", "session_id", "window_index", "window_id", "window_name", "pane_id", "pane_index",
                       "pane_pid", "pane_tty", "pane_current_path", "pane_width", "pane_height", "pane_active"]
    ensures LookupVar(name, ctx) == "#{" + name + "}" && !Known(name)
  {
  }

  // ----- which templates are fixed

  predicate NamesKnown(tokens: seq<Token>) {
    exists i | 0 <= i < |tokens| :: tokens[i].Var? && Known(tokens[i].name)
  }

  lemma {:induction false} UnknownIsVerbatim(tokens: seq<Token>, ctx: Context)
    requires !NamesKnown(tokens)
    ensures RenderAll(tokens, Lookup(ctx)) == Unparse(tokens)
  {
    if tokens != [] {
      assert forall i | 0 <= i < |tokens| - 1 :: tokens[1..][i] == tokens[i + 1];
      assert !(tokens[0].Var? && Known(tokens[0].name));
      UnknownIsVerbatim(tokens[1..], ctx);
    }
  }

  /** A context in which every value is shorter than any reference to it. */
  function Terse(): Context {
    Context("", "", "", "", "", "", "", 0, "", "", 0, 0, false)
  }

  lemma TerseIsShort(name: string)
    ensures |LookupVar(name, Terse())| <= |name| + 3
    ensures Known(name) ==> |LookupVar(name, Terse())| < |name| + 3
  {
    assert |Itoa(0)| == 1;
  }

  lemma {:induction false} TerseShrinks(tokens: seq<Token>)
    ensures |RenderAll(tokens, Lookup(Terse()))| <= |Unparse(tokens)|
    ensures NamesKnown(tokens) ==> |RenderAll(tokens, Lookup(Terse()))| < |Unparse(tokens)|
  {
    if tokens != [] {
      TerseShrinks(tokens[1..]);
      if tokens[0].Var? { TerseIsShort(tokens[0].name); }
      if NamesKnown(tokens) && !(tokens[0].Var? && Known(tokens[0].name)) {
        var i :| 0 <= i < |tokens| && tokens[i].Var? && Known(tokens[i].name);
        assert tokens[1..][i - 1] == tokens[i];
      }
    }
  }

  /** A template comes out unchanged in every context if and only if it references no
      known name. */
  lemma FixedIff(template: string)
    ensures (forall ctx :: Expand(template, Lookup(ctx)) == template) <==> !NamesKnown(Tokenize(template))
  {
    TokenizeThenUnparse(template);
    TerseShrinks(Tokenize(template));
    if !NamesKnown(Tokenize(template)) {
      forall ctx ensures Expand(template, Lookup(ctx)) == template {
        UnknownIsVerbatim(Tokenize(template), ctx);
      }
    } else {
      assert Expand(template, Lookup(Terse())) != template;
    }
  }

  // ----- compositionality

  /** The scan of `s` ends with no unclosed reference. */
  predicate Closed(s: string) {
    forall i | 0 <= i < |Tokenize(s)| :: !Tokenize(s)[i].Tail?
  }

  /** Putting `a` before `b` forms no reference opening across the join. */
  predicate NoJoin(a: string, b: string) {
    !(a != "" && b != "" && a[|a| - 1] == '#' && b[0] == '{')
  }

  lemma FindOpenJoin(a: string, b: string)
    requires NoJoin(a, b)
    ensures FindOpen(a) >= 0 ==> FindOpen(a + b) == FindOpen(a)
    ensures FindOpen(a) < 0 && FindOpen(b) >= 0 ==> FindOpen(a + b) == |a| + FindOpen(b)
    ensures FindOpen(a) < 0 && FindOpen(b) < 0 ==> FindOpen(a + b) < 0
  {
    forall j | 0 <= j < |a| ensures OpensAt(a + b, j) <==> OpensAt(a, j) {
    }
    forall j | 0 <= j < |b| ensures OpensAt(a + b, |a| + j) <==> OpensAt(b, j) {
    }
    var r := FindOpen(a + b);
    if r >= |a| {
      assert OpensAt(b, r - |a|);
    }
    if FindOpen(a) < 0 && FindOpen(b) >= 0 {
      assert OpensAt(a + b, |a| + FindOpen(b));
    }
  }

  /** The tokens of two templates put together: literals that meet become one. */
  function Merge(a: seq<Token>, b: seq<Token>): seq<Token> {
    if a == [] then b
    else if |a| == 1 && a[0].Lit? && b != [] && b[0].Lit? then [Lit(a[0].text + b[0].text)] + b[1..]
    else [a[0]] + Merge(a[1..], b)
  }

  lemma Assoc(a: string, b: string, c: string)
    ensures a + (b + c) == (a + b) + c
  {
  }

  lemma {:induction false} MergeText(a: seq<Token>, b: seq<Token>, lookup: string -> string)
    ensures Unparse(Merge(a, b)) == Unparse(a) + Unparse(b)
    ensures RenderAll(Merge(a, b), lookup) == RenderAll(a, lookup) + RenderAll(b, lookup)
  {
    if a == [] {
    } else if |a| == 1 && a[0].Lit? && b != [] && b[0].Lit? {
      assert a[1..] == [];
      assert Unparse(a) == a[0].text && RenderAll(a, lookup) == a[0].text;
      var merged := Lit(a[0].text + b[0].text);
      assert ([merged] + b[1..])[1..] == b[1..];
      Assoc(a[0].text, b[0].text, Unparse(b[1..]));
      Assoc(a[0].text, b[0].text, RenderAll(b[1..], lookup));
    } else {
      MergeText(a[1..], b, lookup);
      assert ([a[0]] + Merge(a[1..], b))[1..] == Merge(a[1..], b);
      Assoc(Text(a[0]), Unparse(a[1..]), Unparse(b));
      Assoc(Render(a[0], lookup), RenderAll(a[1..], lookup), RenderAll(b, lookup));
    }
  }

  lemma SuffixNoJoin(x: string, a: string, b: string)
    requires NoJoin(x + a, b)
    ensures NoJoin(a, b)
  {
    assert a != "" ==> (x + a)[|x + a| - 1] == a[|a| - 1];
  }

  lemma PrefixNoJoin(a: string, b: string, y: string)
    requires NoJoin(a, b + y)
    ensures NoJoin(a, b)
  {
    assert b != "" ==> (b + y)[0] == b[0];
  }

  lemma {:induction false} MergeWellFormed(a: seq<Token>, b: seq<Token>)
    requires WellFormed(a) && WellFormed(b) && NoJoin(Unparse(a), Unparse(b))
    requires forall i | 0 <= i < |a| :: !a[i].Tail?
    ensures WellFormed(Merge(a, b))
    ensures a != [] ==> Merge(a, b) != [] && (Merge(a, b)[0].Lit? <==> a[0].Lit?)
  {
    if a == [] {
    } else if |a| == 1 && a[0].Lit? && b != [] && b[0].Lit? {
      var x, y := a[0].text, b[0].text;
      assert Unparse(a) == x + Unparse(a[1..]) && a[1..] == [];
      assert x + "" == x;
      PrefixNoJoin(x, y, Unparse(b[1..]));
      FindOpenJoin(x, y);
      assert ([Lit(x + y)] + b[1..])[1..] == b[1..];
    } else {
      SuffixNoJoin(Text(a[0]), Unparse(a[1..]), Unparse(b));
      MergeWellFormed(a[1..], b);
      assert ([a[0]] + Merge(a[1..], b))[1..] == Merge(a[1..], b);
    }
  }

  /** Expansion is compositional: a template whose scan ends closed can be expanded
      apart from what follows it. */
  lemma ExpandConcat(a: string, b: string, lookup: string -> string)
    requires Closed(a) && NoJoin(a, b)
    ensures Expand(a + b, lookup) == Expand(a, lookup) + Expand(b, lookup)
  {
    TokenizeThenUnparse(a);
    TokenizeThenUnparse(b);
    MergeWellFormed(Tokenize(a), Tokenize(b));
    MergeText(Tokenize(a), Tokenize(b), lookup);
    UnparseThenTokenize(Merge(Tokenize(a), Tokenize(b)));
  }

  /** One reference on its own. */
  lemma ExpandReference(name: string, lookup: string -> string)
    requires FindClose(name) < 0
    ensures Expand("#{" + name + "}", lookup) == lookup(name)
    ensures Closed("#{" + name + "}")
  {
    var ref := "#{" + name + "}";
    assert ref + "" == ref;
    TokenizeReference(name, "");
    assert Tokenize(ref) == [Var(name)];
    assert [Var(name)][1..] == [];
    assert RenderAll([Var(name)], lookup) == lookup(name) + RenderAll([], lookup);
  }

  /** A substituted value is final: whatever it contains, even references of its own,
      it appears verbatim between the expansions of its surroundings. */
  lemma SubstitutedOnce(before: string, name: string, after: string, lookup: string -> string)
    requires Closed(before) && FindClose(name) < 0
    ensures Expand(before + ("#{" + name + "}" + after), lookup)
            == Expand(before, lookup) + (lookup(name) + Expand(after, lookup))
  {
    var ref := "#{" + name + "}";
    ExpandReference(name, lookup);
    ExpandConcat(ref, after, lookup);
    ExpandConcat(before, ref + after, lookup);
  }
}
