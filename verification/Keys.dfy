/** tmux key names and the byte sequences they stand for. A string's characters are
    the bytes of the Go string. */
module Keys {
  import opened Basics

  // ----- the tables

  /** Named keys other than function keys, C0 names and keypad keys. */
  function BasicKey(key: string): (r: Option<string>)
    ensures r.Some? ==> |key| >= 2 && key[1] != '-'
  {
    if key == "Enter" then Some("\r")
    else if key == "Escape" then Some("\U{1b}")
    else if key == "Tab" then Some("\t")
    else if key == "Space" then Some(" ")
    else if key == "BSpace" then Some("\U{7f}")
    else if key == "BTab" then Some("\U{1b}[Z")
    else if key == "Up" then Some("\U{1b}[A")
    else if key == "Down" then Some("\U{1b}[B")
    else if key == "Right" then Some("\U{1b}[C")
    else if key == "Left" then Some("\U{1b}[D")
    else if key == "DC" || key == "Delete" then Some("\U{1b}[3~")
    else if key == "End" then Some("\U{1b}[F")
    else if key == "Home" then Some("\U{1b}[H")
    else if key == "IC" || key == "Insert" then Some("\U{1b}[2~")
    else if key == "NPage" || key == "PageDown" || key == "PgDn" then Some("\U{1b}[6~")
    else if key == "PPage" || key == "PageUp" || key == "PgUp" then Some("\U{1b}[5~")
    else None
  }

  function FunctionKey(key: string): (r: Option<string>)
    ensures r.Some? ==> |key| >= 2 && key[1] != '-'
  {
    if key == "F1" then Some("\U{1b}OP")
    else if key == "F2" then Some("\U{1b}OQ")
    else if key == "F3" then Some("\U{1b}OR")
    else if key == "F4" then Some("\U{1b}OS")
    else if key == "F5" then Some("\U{1b}[15~")
    else if key == "F6" then Some("\U{1b}[17~")
    else if key == "F7" then Some("\U{1b}[18~")
    else if key == "F8" then Some("\U{1b}[19~")
    else if key == "F9" then Some("\U{1b}[20~")
    else if key == "F10" then Some("\U{1b}[21~")
    else if key == "F11" then Some("\U{1b}[23~")
    else if key == "F12" then Some("\U{1b}[24~")
    else None
  }

  /** tmux's bracketed names of C0 control characters. */
  function LowControlName(key: string): (r: Option<string>)
    ensures r.Some? ==> |key| >= 2 && key[1] != '-'
  {
    if key == "[NUL]" then Some("\U{00}")
    else if key == "[SOH]" then Some("\U{01}")
    else if key == "[STX]" then Some("\U{02}")
    else if key == "[ETX]" then Some("\U{03}")
    else if key == "[EOT]" then Some("\U{04}")
    else if key == "[ENQ]" then Some("\U{05}")
    else if key == "[ASC]" then Some("\U{06}")
    else if key == "[BEL]" then Some("\U{07}")
    else if key == "[BS]" then Some("\U{08}")
    else if key == "[LF]" then Some("\U{0a}")
    else if key == "[VT]" then Some("\U{0b}")
    else if key == "[FF]" then Some("\U{0c}")
    else if key == "[SO]" then Some("\U{0e}")
    else if key == "[SI]" then Some("\U{0f}")
    else None
  }

  function MiddleControlName(key: string): (r: Option<string>)
    ensures r.Some? ==> |key| >= 2 && key[1] != '-'
  {
    if key == "[DLE]" then Some("\U{10}")
    else if key == "[DC1]" then Some("\U{11}")
    else if key == "[DC2]" then Some("\U{12}")
    else if key == "[DC3]" then Some("\U{13}")
    else if key == "[DC4]" then Some("\U{14}")
    else if key == "[NAK]" then Some("\U{15}")
    else if key == "[SYN]" then Some("\U{16}")
    else if key == "[ETB]" then Some("\U{17}")
    else None
  }

  function HighControlName(key: string): (r: Option<string>)
    ensures r.Some? ==> |key| >= 2 && key[1] != '-'
  {
    if key == "[CAN]" then Some("\U{18}")
    else if key == "[EM]" then Some("\U{19}")
    else if key == "[SUB]" then Some("\U{1a}")
    else if key == "[FS]" then Some("\U{1c}")
    else if key == "[GS]" then Some("\U{1d}")
    else if key == "[RS]" then Some("\U{1e}")
    else if key == "[US]" then Some("\U{1f}")
    else None
  }

  function ControlName(key: string): (r: Option<string>)
    ensures r.Some? ==> |key| >= 2 && key[1] != '-'
  {
    if LowControlName(key).Some? then LowControlName(key)
    else if MiddleControlName(key).Some? then MiddleControlName(key)
    else HighControlName(key)
  }

  function KeypadKey(key: string): (r: Option<string>)
    ensures r.Some? ==> |key| >= 2 && key[1] != '-'
  {
    if key == "KPEnter" then Some("\r")
    else if |key| == 3 && key[0] == 'K' && key[1] == 'P' && key[2] in "/*-+.0123456789" then Some([key[2]])
    else None
  }

  /** The specialKeys table. No name in it looks modified. */
  function SpecialKey(key: string): (r: Option<string>)
    ensures r.Some? ==> |key| >= 2 && key[1] != '-'
  {
    if BasicKey(key).Some? then BasicKey(key)
    else if FunctionKey(key).Some? then FunctionKey(key)
    else if ControlName(key).Some? then ControlName(key)
    else KeypadKey(key)
  }

  /** How a key takes an xterm modifier parameter. */
  datatype Style = CsiTilde(num: string) | CsiLetter(letter: char) | Ss3ToCsi(letter: char)

  function CursorStyle(key: string): (r: Option<Style>)
    ensures r.Some? ==> |key| >= 2 && key[1] != '-'
  {
    if key == "Up" then Some(CsiLetter('A'))
    else if key == "Down" then Some(CsiLetter('B'))
    else if key == "Right" then Some(CsiLetter('C'))
    else if key == "Left" then Some(CsiLetter('D'))
    else if key == "Home" then Some(CsiLetter('H'))
    else if key == "End" then Some(CsiLetter('F'))
    else None
  }

  function EditingStyle(key: string): (r: Option<Style>)
    ensures r.Some? ==> |key| >= 2 && key[1] != '-'
  {
    if key == "IC" || key == "Insert" then Some(CsiTilde("2"))
    else if key == "DC" || key == "Delete" then Some(CsiTilde("3"))
    else if key == "PPage" || key == "PageUp" || key == "PgUp" then Some(CsiTilde("5"))
    else if key == "NPage" || key == "PageDown" || key == "PgDn" then Some(CsiTilde("6"))
    else None
  }

  function FunctionStyle(key: string): (r: Option<Style>)
    ensures r.Some? ==> |key| >= 2 && key[1] != '-' && key[0] == 'F'
  {
    if key == "F1" then Some(Ss3ToCsi('P'))
    else if key == "F2" then Some(Ss3ToCsi('Q'))
    else if key == "F3" then Some(Ss3ToCsi('R'))
    else if key == "F4" then Some(Ss3ToCsi('S'))
    else if key == "F5" then Some(CsiTilde("15"))
    else if key == "F6" then Some(CsiTilde("17"))
    else if key == "F7" then Some(CsiTilde("18"))
    else if key == "F8" then Some(CsiTilde("19"))
    else if key == "F9" then Some(CsiTilde("20"))
    else if key == "F10" then Some(CsiTilde("21"))
    else if key == "F11" then Some(CsiTilde("23"))
    else if key == "F12" then Some(CsiTilde("24"))
    else None
  }

  /** The modifiableKeys table. */
  function Modifiable(key: string): (r: Option<Style>)
    ensures r.Some? ==> |key| >= 2 && key[1] != '-'
  {
    if CursorStyle(key).Some? then CursorStyle(key)
    else if EditingStyle(key).Some? then EditingStyle(key)
    else FunctionStyle(key)
  }

  // ----- modifiers

  datatype Mods = Mods(ctrl: bool, meta: bool, shift: bool)

  const NO_MODS := Mods(false, false, false)

  predicate IsModLetter(c: char) { c in {'C', 'c', 'M', 'm', 'S', 's'} }

  predicate StartsModified(s: string) {
    |s| >= 2 && s[1] == '-' && IsModLetter(s[0])
  }

  function AddMod(m: Mods, c: char): Mods {
    if c == 'C' || c == 'c' then m.(ctrl := true)
    else if c == 'M' || c == 'm' then m.(meta := true)
    else if c == 'S' || c == 's' then m.(shift := true)
    else m
  }

  /** The modifiers in front of a key name, and the name that remains. */
  function Parsed(m: Mods, s: string): (Mods, string)
    decreases |s|
  {
    if StartsModified(s) then Parsed(AddMod(m, s[0]), s[2..]) else (m, s)
  }

  method ParseModifiers(key: string) returns (m: Mods, base: string)
    ensures (m, base) == Parsed(NO_MODS, key)
  {
    m, base := NO_MODS, key;
    while |base| >= 2 && base[1] == '-'
      invariant Parsed(m, base) == Parsed(NO_MODS, key)
      decreases |base|
    {
      var c := base[0];
      if c == 'C' || c == 'c' {
        m := m.(ctrl := true);
      } else if c == 'M' || c == 'm' {
        m := m.(meta := true);
      } else if c == 'S' || c == 's' {
        m := m.(shift := true);
      } else {
        return;
      }
      base := base[2..];
    }
  }

  method XtermModParam(m: Mods) returns (param: int)
    ensures param == ModParam(m)
  {
    param := 1;
    if m.shift { param := param + 1; }
    if m.meta { param := param + 2; }
    if m.ctrl { param := param + 4; }
  }

  function ModParam(m: Mods): (r: int)
    ensures 1 <= r <= 8
    ensures m != NO_MODS ==> r >= 2
  {
    1 + (if m.shift then 1 else 0) + (if m.meta then 2 else 0) + (if m.ctrl then 4 else 0)
  }

  /** A one-digit modifier parameter. */
  function ParamChar(p: int): char
    requires 1 <= p <= 8
  {
    '0' + p as char
  }

  function BuildModifiedSequence(style: Style, param: int): string
    requires 1 <= param <= 8
  {
    match style
    case CsiTilde(num) => "\U{1b}[" + num + ";" + [ParamChar(param)] + "~"
    case CsiLetter(letter) => "\U{1b}[1;" + [ParamChar(param)] + [letter]
    case Ss3ToCsi(letter) => "\U{1b}[1;" + [ParamChar(param)] + [letter]
  }

  // ----- expansion

  function RebuildKeyName(m: Mods, base: string): string {
    (if m.ctrl then "C-" else "") + ((if m.meta then "M-" else "") + ((if m.shift then "S-" else "") + base))
  }

  /** Go's string(rune): a byte of 0x80 and above becomes its two-byte UTF-8 form. */
  function RuneString(ch: char): string {
    if '\U{80}' <= ch <= '\U{ff}' then
      [(0xc0 + ch as int / 0x40) as char, (0x80 + ch as int % 0x40) as char]
    else [ch]
  }

  function Upper(ch: char): char {
    if 'a' <= ch <= 'z' then ch - 'a' + 'A' else ch
  }

  /** A single byte under Shift and Ctrl. */
  function Char(ch: char, m: Mods): string {
    var shifted := if m.shift then Upper(ch) else ch;
    if !m.ctrl then RuneString(shifted)
    else if 'A' <= Upper(shifted) <= 'Z' then [Upper(shifted) - 'A' + '\U{1}']
    else if shifted == '@' then "\U{0}"
    else RuneString(shifted)
  }

  /** A base key with no named expansion and more than one character. */
  predicate Unresolvable(base: string) {
    SpecialKey(base).None? && |base| != 1
  }

  function ExpandedBase(base: string, m: Mods): string {
    if Unresolvable(base) then RebuildKeyName(m, base)
    else
      (if m.meta then "\U{1b}" else "")
      + (if SpecialKey(base).Some? then SpecialKey(base).value else Char(base[0], m))
  }

  /** expandBaseKey, with its consumed flags. */
  method ExpandBaseKey(base: string, ctrl: bool, meta: bool, shift: bool) returns (result: string)
    ensures result == ExpandedBase(base, Mods(ctrl, meta, shift))
  {
    if SpecialKey(base).Some? {
      result := SpecialKey(base).value;
    } else if |base| == 1 {
      var ch := base[0];
      if shift && 'a' <= ch <= 'z' {
        ch := ch - 'a' + 'A';
      }
      if ctrl {
        var upper := ch;
        if 'a' <= upper <= 'z' {
          upper := upper - 'a' + 'A';
        }
        if 'A' <= upper <= 'Z' {
          result := [upper - 'A' + '\U{1}'];
        } else if upper == '@' {
          result := "\U{0}";
        } else {
          result := RuneString(ch);
        }
      } else {
        result := RuneString(ch);
      }
    } else {
      result := RebuildKeyName(Mods(ctrl, meta, shift), base);
      return;
    }
    if meta {
      result := "\U{1b}" + result;
    }
  }

  /** A base key under at least one modifier. */
  function Modified(base: string, m: Mods): string {
    if Modifiable(base).Some? then BuildModifiedSequence(Modifiable(base).value, ModParam(m))
    else ExpandedBase(base, m)
  }

  function Expanded(key: string): string {
    if SpecialKey(key).Some? then SpecialKey(key).value
    else
      var (m, base) := Parsed(NO_MODS, key);
      if m == NO_MODS then key else Modified(base, m)
  }

  method ExpandSpecialKey(key: string) returns (result: string)
    ensures result == Expanded(key)
  {
    if SpecialKey(key).Some? {
      return SpecialKey(key).value;
    }
    var m, base := ParseModifiers(key);
    if !(m.ctrl || m.meta || m.shift) {
      return key;
    }
    if Modifiable(base).Some? {
      var param := XtermModParam(m);
      return BuildModifiedSequence(Modifiable(base).value, param);
    }
    result := ExpandBaseKey(base, m.ctrl, m.meta, m.shift);
  }

  function SendKeysData(args: seq<string>, literal: bool): string {
    if args == [] then "" else (if literal then args[0] else Expanded(args[0])) + SendKeysData(args[1..], literal)
  }

  method BuildSendKeysData(args: seq<string>, literal: bool) returns (data: string)
    ensures data == SendKeysData(args, literal)
  {
    data := "";
    var i := 0;
    while i < |args|
      invariant i <= |args|
      invariant data + SendKeysData(args[i..], literal) == SendKeysData(args, literal)
    {
      assert args[i..][1..] == args[i + 1..];
      if literal {
        data := data + args[i];
      } else {
        var expanded := ExpandSpecialKey(args[i]);
        data := data + expanded;
      }
      i := i + 1;
    }
  }

  // ----- canonical forms

  /** Modifier prefixes in any order, case and number. */
  function Prefixed(prefixes: seq<char>, base: string): string {
    if prefixes == [] then base else [prefixes[0], '-'] + Prefixed(prefixes[1..], base)
  }

  function ModsOf(m: Mods, prefixes: seq<char>): Mods
    decreases |prefixes|
  {
    if prefixes == [] then m else ModsOf(AddMod(m, prefixes[0]), prefixes[1..])
  }

  /** Prefix letters: C, M and S in either case, and no others. */
  predicate AllModLetters(prefixes: seq<char>)
    ensures AllModLetters(prefixes) <==>
            forall i | 0 <= i < |prefixes| :: prefixes[i] in ['C', 'c', 'M', 'm', 'S', 's']
  {
    forall i | 0 <= i < |prefixes| :: IsModLetter(prefixes[i])
  }

  /** Which modifiers a list of prefixes names, as a set. */
  lemma {:induction false} ModsOfIsSet(m: Mods, prefixes: seq<char>)
    ensures ModsOf(m, prefixes).ctrl <==> m.ctrl || 'C' in prefixes || 'c' in prefixes
    ensures ModsOf(m, prefixes).meta <==> m.meta || 'M' in prefixes || 'm' in prefixes
    ensures ModsOf(m, prefixes).shift <==> m.shift || 'S' in prefixes || 's' in prefixes
    decreases |prefixes|
  {
    if prefixes != [] {
      ModsOfIsSet(AddMod(m, prefixes[0]), prefixes[1..]);
      assert prefixes == [prefixes[0]] + prefixes[1..];
    }
  }

  /** Parsing takes the prefixes off and leaves the base. */
  lemma {:induction false} ParsedPrefixed(m: Mods, prefixes: seq<char>, base: string)
    requires AllModLetters(prefixes) && !StartsModified(base)
    ensures Parsed(m, Prefixed(prefixes, base)) == (ModsOf(m, prefixes), base)
    decreases |prefixes|
  {
    if prefixes != [] {
      ParsedPrefixed(AddMod(m, prefixes[0]), prefixes[1..], base);
      assert Prefixed(prefixes, base)[2..] == Prefixed(prefixes[1..], base);
    }
  }

  /** A key's expansion depends only on the set of its modifiers and its base key:
      permuting, repeating and re-casing prefixes changes nothing. */
  lemma ExpansionCanonical(p: seq<char>, q: seq<char>, base: string)
    requires AllModLetters(p) && AllModLetters(q) && !StartsModified(base)
    requires 'C' in p || 'c' in p <==> 'C' in q || 'c' in q
    requires 'M' in p || 'm' in p <==> 'M' in q || 'm' in q
    requires 'S' in p || 's' in p <==> 'S' in q || 's' in q
    ensures Expanded(Prefixed(p, base)) == Expanded(Prefixed(q, base))
    ensures p != [] ==> Expanded(Prefixed(p, base)) == Modified(base, ModsOf(NO_MODS, p))
  {
    ModsOfIsSet(NO_MODS, p);
    ModsOfIsSet(NO_MODS, q);
    ParsedPrefixed(NO_MODS, p, base);
    ParsedPrefixed(NO_MODS, q, base);
    assert p != [] ==> p[0] in p && IsModLetter(p[0]) && Prefixed(p, base)[1] == '-';
    assert q != [] ==> q[0] in q && IsModLetter(q[0]) && Prefixed(q, base)[1] == '-';
  }

  /** The prefixes rebuildKeyName writes. */
  function ModPrefixes(m: Mods): seq<char> {
    (if m.ctrl then ['C'] else []) + (if m.meta then ['M'] else []) + (if m.shift then ['S'] else [])
  }

  lemma OnePrefix(x: char, s: string)
    ensures Prefixed([x], s) == [x, '-'] + s && Prefixed([], s) == s
  {
    assert [x][1..] == [];
  }

  lemma RebuildIsPrefixed(m: Mods, base: string)
    ensures RebuildKeyName(m, base) == Prefixed(ModPrefixes(m), base)
    ensures ModsOf(NO_MODS, ModPrefixes(m)) == m
    ensures AllModLetters(ModPrefixes(m))
  {
    hide Prefixed, ModsOf;
    RebuildSpelled(m, base);
    ModsOfIsSet(NO_MODS, ModPrefixes(m));
  }

  lemma RebuildSpelled(m: Mods, base: string)
    ensures RebuildKeyName(m, base) == Prefixed(ModPrefixes(m), base)
  {
    hide Prefixed;
    var c := if m.ctrl then ['C'] else [];
    var mm := if m.meta then ['M'] else [];
    var s := if m.shift then ['S'] else [];
    PrefixedConcat(c, mm + s, base);
    PrefixedConcat(mm, s, base);
    assert c + (mm + s) == ModPrefixes(m);
    OnePrefix('C', Prefixed(mm + s, base));
    OnePrefix('M', Prefixed(s, base));
    OnePrefix('S', base);
  }

  lemma {:induction false} PrefixedConcat(p: seq<char>, q: seq<char>, base: string)
    ensures Prefixed(p + q, base) == Prefixed(p, Prefixed(q, base))
  {
    if p == [] {
      assert p + q == q;
    } else {
      assert (p + q)[1..] == p[1..] + q;
      PrefixedConcat(p[1..], q, base);
    }
  }

  /** parseModifiers undoes rebuildKeyName if and only if the base key does not begin
      with a modifier prefix itself; every base it returns is such. */
  lemma ParseUndoesRebuild(m: Mods, base: string)
    ensures Parsed(NO_MODS, RebuildKeyName(m, base)) == (m, base) <==> !StartsModified(base)
  {
    RebuildIsPrefixed(m, base);
    if !StartsModified(base) {
      ParsedPrefixed(NO_MODS, ModPrefixes(m), base);
    } else {
      ParsedBaseStops(NO_MODS, RebuildKeyName(m, base));
    }
  }

  lemma {:induction false} ParsedBaseStops(m: Mods, s: string)
    ensures !StartsModified(Parsed(m, s).1)
    ensures |Parsed(m, s).1| <= |s|
    decreases |s|
  {
    if StartsModified(s) {
      ParsedBaseStops(AddMod(m, s[0]), s[2..]);
    }
  }

  /** A modified multi-character name that nothing resolves comes out with its
      modifiers in canonical order, and expanding it again changes nothing. */
  lemma UnresolvableIdempotent(p: seq<char>, base: string)
    requires p != [] && AllModLetters(p) && !StartsModified(base)
    requires Unresolvable(base) && Modifiable(base).None?
    ensures Expanded(Prefixed(p, base)) == RebuildKeyName(ModsOf(NO_MODS, p), base)
    ensures Expanded(Expanded(Prefixed(p, base))) == Expanded(Prefixed(p, base))
  {
    var m := ModsOf(NO_MODS, p);
    ExpansionCanonical(p, p, base);
    RebuildIsPrefixed(m, base);
    var q := ModPrefixes(m);
    ModsOfIsSet(NO_MODS, p);
    assert p[0] in p && IsModLetter(p[0]);
    assert q != [];
    ExpansionCanonical(q, q, base);
  }

  /** C- and a letter give the letter's code modulo 32, in either case and under Shift. */
  lemma CtrlLetter(c: char, shift: bool)
    requires 'a' <= c <= 'z' || 'A' <= c <= 'Z'
    ensures Modified([c], Mods(true, false, shift)) == [(c as int % 32) as char]
  {
    assert Modifiable([c]).None? && SpecialKey([c]).None?;
  }

  /** A style's sequence without the parameters. */
  function Unparameterized(style: Style): string {
    match style
    case CsiTilde(num) => "\U{1b}[" + num + "~"
    case CsiLetter(letter) => "\U{1b}[" + [letter]
    case Ss3ToCsi(letter) => "\U{1b}O" + [letter]
  }

  lemma CursorForm(base: string)
    requires CursorStyle(base).Some?
    ensures BasicKey(base).Some? && BasicKey(base).value == Unparameterized(CursorStyle(base).value)
  {
  }

  lemma EditingForm(base: string)
    requires EditingStyle(base).Some?
    ensures BasicKey(base).Some? && BasicKey(base).value == Unparameterized(EditingStyle(base).value)
  {
  }

  lemma FunctionForm(base: string)
    requires FunctionStyle(base).Some?
    ensures FunctionKey(base).Some? && FunctionKey(base).value == Unparameterized(FunctionStyle(base).value)
  {
  }

  lemma NotBasic(base: string)
    requires base != "" && base[0] == 'F'
    ensures BasicKey(base).None?
  {
  }

  /** The two tables agree: an unmodified key is its modified form without the
      parameters, F1 to F4 in their SS3 form. */
  lemma UnmodifiedForm(base: string)
    requires Modifiable(base).Some?
    ensures Expanded(base) == Unparameterized(Modifiable(base).value)
  {
    hide BasicKey, FunctionKey, ControlName, KeypadKey, CursorStyle, EditingStyle, FunctionStyle;
    hide Parsed, Modified, Unparameterized;
    if CursorStyle(base).Some? {
      CursorForm(base);
    } else if EditingStyle(base).Some? {
      EditingForm(base);
    } else {
      FunctionForm(base);
      NotBasic(base);
    }
  }

  /** Meta puts one ESC in front of whatever the key stands for without it. */
  lemma MetaPrependsEscape(base: string, m: Mods)
    requires m.meta && !Unresolvable(base) && Modifiable(base).None?
    ensures Modified(base, m) == "\U{1b}" + Modified(base, m.(meta := false))
  {
    hide SpecialKey, Modifiable, RuneString;
  }

  /** A key in no table and without a modifier prefix stands for itself. */
  lemma PlainText(key: string)
    requires SpecialKey(key).None? && !StartsModified(key)
    ensures Expanded(key) == key
  {
  }

  /** Several keys stand for what each stands for, one after another. */
  lemma {:induction false} KeysInOrder(a: seq<string>, b: seq<string>, key: string, literal: bool)
    ensures SendKeysData(a + b, literal) == SendKeysData(a, literal) + SendKeysData(b, literal)
    ensures SendKeysData([key], literal) == (if literal then key else Expanded(key)) && SendKeysData([], literal) == ""
  {
    hide Expanded;
    assert [key][1..] == [];
    if a == [] {
      assert a + b == b;
    } else {
      assert (a + b)[1..] == a[1..] + b;
      KeysInOrder(a[1..], b, key, literal);
    }
  }

  // ----- the bytes of keys

  /** The byte before the last of a modified key: one more than 1 for Shift plus 2 for
      Meta plus 4 for Control, as a digit after a semicolon. */
  lemma ModifierDigit(base: string, m: Mods)
    requires Modifiable(base).Some? && m != NO_MODS
    ensures |Modified(base, m)| >= 6
    ensures var bytes := Modified(base, m);
            var d := bytes[|bytes| - 2] as int - '1' as int;
            && bytes[|bytes| - 3] == ';' && 1 <= d <= 7
            && (d % 2 == 1 <==> m.shift)
            && (d / 2 % 2 == 1 <==> m.meta)
            && (d / 4 % 2 == 1 <==> m.ctrl)
  {
    StyleNamesKey(base);
    hide Modifiable, KeyOf, CanonicalKey;
    BeforeFinal(Modifiable(base).value, ModParam(m));
  }

  lemma BeforeFinal(style: Style, param: int)
    requires InTable(style) && 1 <= param <= 8
    ensures var bytes := BuildModifiedSequence(style, param);
            |bytes| >= 6 && bytes[|bytes| - 3] == ';' && bytes[|bytes| - 2] == ParamChar(param)
  {
  }

  /** A modifiable key behind one prefix. */
  lemma OneModified(c: char, base: string)
    requires c in ['C', 'c', 'M', 'm', 'S', 's'] && Modifiable(base).Some?
    ensures Expanded([c, '-'] + base) ==
            BuildModifiedSequence(Modifiable(base).value, ModParam(AddMod(NO_MODS, c)))
  {
    hide Modifiable, SpecialKey, BuildModifiedSequence;
    OnePrefix(c, base);
    ParsedPrefixed(NO_MODS, [c], base);
    assert ModsOf(NO_MODS, [c]) == AddMod(NO_MODS, c) by {
      assert [c][1..] == [];
    }
  }

  /** Literally: Control-Up, Shift-F5 and Meta-Delete. */
  lemma ModifiedExamples()
    ensures Expanded("C-Up") == "\U{1b}[1;5A"
    ensures Expanded("S-F5") == "\U{1b}[15;2~"
    ensures Expanded("M-Delete") == "\U{1b}[3;3~"
  {
    hide Expanded, Modifiable;
    CursorTable();
    EditingTable();
    FunctionTable();
    OneModified('C', "Up");
    OneModified('S', "F5");
    OneModified('M', "Delete");
    assert ['C', '-'] + "Up" == "C-Up" && ['S', '-'] + "F5" == "S-F5" && ['M', '-'] + "Delete" == "M-Delete";
    assert ParamChar(5) == '5' && ParamChar(2) == '2' && ParamChar(3) == '3';
  }

  /** The final byte of every cursor key, ... */
  lemma CursorTable()
    ensures Modifiable("Up") == Some(CsiLetter('A')) && Modifiable("Down") == Some(CsiLetter('B'))
    ensures Modifiable("Right") == Some(CsiLetter('C')) && Modifiable("Left") == Some(CsiLetter('D'))
    ensures Modifiable("Home") == Some(CsiLetter('H')) && Modifiable("End") == Some(CsiLetter('F'))
  {
    hide EditingStyle, FunctionStyle;
  }

  lemma NotCursor(key: string)
    requires EditingStyle(key).Some? || FunctionStyle(key).Some?
    ensures CursorStyle(key).None?
  {
  }

  lemma NotEditing(key: string)
    requires FunctionStyle(key).Some?
    ensures EditingStyle(key).None?
  {
  }

  /** ... the number of every editing key, ... */
  lemma EditingTable()
    ensures Modifiable("IC") == Modifiable("Insert") == Some(CsiTilde("2"))
    ensures Modifiable("DC") == Modifiable("Delete") == Some(CsiTilde("3"))
    ensures Modifiable("PPage") == Modifiable("PageUp") == Modifiable("PgUp") == Some(CsiTilde("5"))
    ensures Modifiable("NPage") == Modifiable("PageDown") == Modifiable("PgDn") == Some(CsiTilde("6"))
  {
    hide CursorStyle, FunctionStyle;
    forall key | EditingStyle(key).Some? ensures CursorStyle(key).None? {
      NotCursor(key);
    }
  }

  /** ... and the letter or number of every function key. */
  lemma FunctionTable()
    ensures Modifiable("F1") == Some(Ss3ToCsi('P')) && Modifiable("F2") == Some(Ss3ToCsi('Q'))
    ensures Modifiable("F3") == Some(Ss3ToCsi('R')) && Modifiable("F4") == Some(Ss3ToCsi('S'))
    ensures Modifiable("F5") == Some(CsiTilde("15")) && Modifiable("F6") == Some(CsiTilde("17"))
    ensures Modifiable("F7") == Some(CsiTilde("18")) && Modifiable("F8") == Some(CsiTilde("19"))
    ensures Modifiable("F9") == Some(CsiTilde("20")) && Modifiable("F10") == Some(CsiTilde("21"))
    ensures Modifiable("F11") == Some(CsiTilde("23")) && Modifiable("F12") == Some(CsiTilde("24"))
  {
    hide CursorStyle, EditingStyle;
    forall key | FunctionStyle(key).Some? ensures CursorStyle(key).None? && EditingStyle(key).None? {
      NotCursor(key);
      NotEditing(key);
    }
  }

  /** The keys that take no modifier parameter. */
  lemma PlainKeys()
    ensures Expanded("Enter") == [13 as char] == Expanded("KPEnter")
    ensures Expanded("Escape") == [27 as char] && Expanded("Tab") == [9 as char]
    ensures Expanded("Space") == [32 as char] && Expanded("BSpace") == [127 as char]
    ensures Expanded("BTab") == [27 as char, '[', 'Z']
  {
  }

  predicate ControlByte(name: string, code: nat)
    requires code < 32
  {
    ControlName(name).Some? && ControlName(name).value == [code as char]
  }

  /** tmux's names of the C0 characters stand for their codes, the ones with key names of
      their own aside. */
  lemma LowControlNames()
    ensures ControlByte("[NUL]", 0) && ControlByte("[SOH]", 1) && ControlByte("[STX]", 2) && ControlByte("[ETX]", 3)
    ensures ControlByte("[EOT]", 4) && ControlByte("[ENQ]", 5) && ControlByte("[ASC]", 6) && ControlByte("[BEL]", 7)
    ensures ControlByte("[BS]", 8) && ControlByte("[LF]", 10) && ControlByte("[VT]", 11) && ControlByte("[FF]", 12)
    ensures ControlByte("[SO]", 14) && ControlByte("[SI]", 15)
  {
  }

  lemma NotLow(key: string)
    requires MiddleControlName(key).Some?
    ensures LowControlName(key).None?
  {
  }

  lemma NotLowOrMiddle(key: string)
    requires HighControlName(key).Some?
    ensures LowControlName(key).None? && MiddleControlName(key).None?
  {
  }

  /** From 16 to 23. */
  lemma MiddleControlNames()
    ensures ControlByte("[DLE]", 16) && ControlByte("[DC1]", 17) && ControlByte("[DC2]", 18) && ControlByte("[DC3]", 19)
    ensures ControlByte("[DC4]", 20) && ControlByte("[NAK]", 21) && ControlByte("[SYN]", 22) && ControlByte("[ETB]", 23)
  {
    hide LowControlName, HighControlName;
    forall key | MiddleControlName(key).Some? ensures LowControlName(key).None? {
      NotLow(key);
    }
  }

  /** From 24 on. */
  lemma HighControlNames()
    ensures ControlByte("[CAN]", 24) && ControlByte("[EM]", 25) && ControlByte("[SUB]", 26) && ControlByte("[FS]", 28)
    ensures ControlByte("[GS]", 29) && ControlByte("[RS]", 30) && ControlByte("[US]", 31)
  {
    hide LowControlName, MiddleControlName;
    forall key | HighControlName(key).Some? ensures LowControlName(key).None? && MiddleControlName(key).None? {
      NotLowOrMiddle(key);
    }
  }

  /** Such a name is no key of the other tables, so it expands to its code. */
  lemma ControlNameExpands(key: string)
    requires ControlName(key).Some?
    ensures Expanded(key) == ControlName(key).value
  {
    assert key != "" && key[0] == '[';
    BracketIsNoKey(key);
    hide BasicKey, FunctionKey, KeypadKey, Parsed, Modified;
  }

  lemma BracketIsNoKey(key: string)
    requires key != "" && key[0] == '['
    ensures BasicKey(key).None? && FunctionKey(key).None?
  {
  }

  /** Keypad keys stand for the character they show. */
  lemma KeypadExpands(c: char)
    requires c in "/*-+.0123456789"
    ensures Expanded(['K', 'P', c]) == [c]
  {
    hide Parsed, Modified;
  }

  /** A single byte under modifiers other than Control on a letter: Shift raises a
      lower-case letter, Control-@ is NUL, any other Control is dropped, and a byte of
      128 and above becomes the two bytes whose payloads make it up. */
  lemma CharacterBytes(c: char, m: Mods)
    requires c as int < 256 && !m.meta && m != NO_MODS && SpecialKey([c]).None?
    requires m.ctrl ==> !('a' <= c <= 'z' || 'A' <= c <= 'Z')
    ensures var bytes := Modified([c], m);
            if m.ctrl && c == '@' then bytes == [0 as char]
            else if c as int < 128 then
              bytes == [if m.shift && 'a' <= c <= 'z' then (c as int - 32) as char else c]
            else
              && |bytes| == 2 && 192 <= bytes[0] as int < 196 && 128 <= bytes[1] as int < 192
              && (bytes[0] as int - 192) * 64 + (bytes[1] as int - 128) == c as int
  {
    assert Modifiable([c]).None?;
  }

  // ----- unique decodability of modified keys

  predicate ParameterByte(c: char) { '0' <= c <= '?' }

  predicate IntermediateByte(c: char) { ' ' <= c <= '/' }

  predicate FinalByte(c: char) { '@' <= c <= '~' }

  /** Parameter bytes up to position `k`, then intermediate bytes up to the last byte. */
  predicate BodySplitsAt(s: string, k: int) {
    && 2 <= k < |s|
    && (forall i | 2 <= i < k :: ParameterByte(s[i]))
    && (forall i | k <= i < |s| - 1 :: IntermediateByte(s[i]))
  }

  /** A control sequence as section 5.4 of ECMA-48 defines it: CSI, parameter bytes,
      intermediate bytes, one final byte. */
  ghost predicate ControlSequence(s: string) {
    && |s| >= 3 && s[0] == '\U{1b}' && s[1] == '['
    && FinalByte(s[|s| - 1])
    && exists k :: BodySplitsAt(s, k)
  }

  lemma BodyIsNotFinal(s: string, i: nat)
    requires ControlSequence(s) && 2 <= i
    ensures i < |s| && FinalByte(s[i]) ==> i == |s| - 1
  {
    var k :| BodySplitsAt(s, k);
    if i < k { assert ParameterByte(s[i]); } else if i < |s| - 1 { assert IntermediateByte(s[i]); }
  }

  lemma NotShorter(a: string, b: string, x: string, y: string)
    requires ControlSequence(a) && ControlSequence(b) && a + x == b + y
    ensures |a| >= |b|
  {
    var i := |a| - 1;
    assert (a + x)[i] == a[i];
    assert i < |b| ==> (b + y)[i] == b[i];
    BodyIsNotFinal(b, i);
  }

  /** Control sequences delimit themselves: none is a proper prefix of another. */
  lemma SelfDelimiting(a: string, b: string, x: string, y: string)
    requires ControlSequence(a) && ControlSequence(b) && a + x == b + y
    ensures a == b && x == y
  {
    NotShorter(a, b, x, y);
    NotShorter(b, a, y, x);
    assert a == (a + x)[..|a|] && b == (b + y)[..|b|];
    assert x == (a + x)[|a|..] && y == (b + y)[|b|..];
  }

  /** A key name with at least one modifier on a base that takes xterm parameters. */
  predicate ModifiedKey(key: string) {
    Parsed(NO_MODS, key).0 != NO_MODS && Modifiable(Parsed(NO_MODS, key).1).Some?
  }

  /** The first of a modifiable key's names. */
  function CanonicalKey(base: string): string {
    if base == "Insert" then "IC"
    else if base == "Delete" then "DC"
    else if base == "PageUp" || base == "PgUp" then "PPage"
    else if base == "PageDown" || base == "PgDn" then "NPage"
    else base
  }

  /** The key a style belongs to. */
  function KeyOf(style: Style): string {
    match style
    case CsiLetter(c) =>
      if c == 'A' then "Up" else if c == 'B' then "Down" else if c == 'C' then "Right"
      else if c == 'D' then "Left" else if c == 'H' then "Home" else "End"
    case Ss3ToCsi(c) => if c == 'P' then "F1" else if c == 'Q' then "F2" else if c == 'R' then "F3" else "F4"
    case CsiTilde(n) =>
      if |n| == 1 then
        (if n[0] == '2' then "IC" else if n[0] == '3' then "DC" else if n[0] == '5' then "PPage" else "NPage")
      else if |n| == 2 && n[0] == '1' then
        (if n[1] == '5' then "F5" else if n[1] == '7' then "F6" else if n[1] == '8' then "F7" else "F8")
      else if |n| == 2 then
        (if n[1] == '0' then "F9" else if n[1] == '1' then "F10" else if n[1] == '3' then "F11" else "F12")
      else ""
  }

  predicate InTable(style: Style) {
    match style
    case CsiLetter(c) => c in {'A', 'B', 'C', 'D', 'H', 'F'}
    case Ss3ToCsi(c) => c in {'P', 'Q', 'R', 'S'}
    case CsiTilde(n) => n != "" && forall i | 0 <= i < |n| :: '0' <= n[i] <= '9'
  }

  lemma CursorNames(base: string)
    requires CursorStyle(base).Some?
    ensures var style := CursorStyle(base).value;
            KeyOf(style) == CanonicalKey(base) && CursorStyle(CanonicalKey(base)) == Some(style) && InTable(style)
  {
  }

  lemma EditingNames(base: string)
    requires EditingStyle(base).Some?
    ensures var style := EditingStyle(base).value;
            KeyOf(style) == CanonicalKey(base) && EditingStyle(CanonicalKey(base)) == Some(style) && InTable(style)
    ensures CursorStyle(CanonicalKey(base)).None?
  {
  }

  lemma FunctionNames(base: string)
    requires FunctionStyle(base).Some?
    ensures var style := FunctionStyle(base).value;
            KeyOf(style) == CanonicalKey(base) && CanonicalKey(base) == base && InTable(style)
  {
  }

  /** Styles identify keys up to aliases. */
  lemma StyleNamesKey(base: string)
    requires Modifiable(base).Some?
    ensures KeyOf(Modifiable(base).value) == CanonicalKey(base)
    ensures Modifiable(CanonicalKey(base)) == Modifiable(base)
    ensures InTable(Modifiable(base).value)
  {
    hide CursorStyle, EditingStyle, FunctionStyle, KeyOf, CanonicalKey, InTable;
    if CursorStyle(base).Some? {
      CursorNames(base);
    } else if EditingStyle(base).Some? {
      EditingNames(base);
    } else {
      FunctionNames(base);
    }
  }

  lemma SequenceShape(style: Style, param: int)
    requires InTable(style) && 1 <= param <= 8
    ensures ControlSequence(BuildModifiedSequence(style, param))
  {
    var s := BuildModifiedSequence(style, param);
    assert BodySplitsAt(s, |s| - 1);
  }

  lemma SequenceInjective(a: Style, p: int, b: Style, q: int)
    requires InTable(a) && InTable(b) && 1 <= p <= 8 && 1 <= q <= 8
    requires BuildModifiedSequence(a, p) == BuildModifiedSequence(b, q)
    ensures a == b && p == q
  {
    var s, t := BuildModifiedSequence(a, p), BuildModifiedSequence(b, q);
    assert s[|s| - 1] == t[|t| - 1];
    assert s[|s| - 2] == t[|t| - 2];
    if a.CsiTilde? {
      assert b.CsiTilde?;
      assert s[|s| - 2] == ParamChar(p) && t[|t| - 2] == ParamChar(q);
      assert s[2..|s| - 3] == a.num && t[2..|t| - 3] == b.num;
    }
  }

  lemma ParamInjective(m: Mods, n: Mods)
    ensures ModParam(m) == ModParam(n) <==> m == n
  {
  }

  lemma ExpandedModifiedKey(key: string)
    requires ModifiedKey(key)
    ensures var (m, base) := Parsed(NO_MODS, key);
            Expanded(key) == BuildModifiedSequence(Modifiable(base).value, ModParam(m))
    ensures ControlSequence(Expanded(key))
  {
    assert StartsModified(key);
    StyleNamesKey(Parsed(NO_MODS, key).1);
    SequenceShape(Modifiable(Parsed(NO_MODS, key).1).value, ModParam(Parsed(NO_MODS, key).0));
  }

  /** The same modifiers on the same key, up to the key's aliases. */
  predicate SameKey(a: string, b: string) {
    && Parsed(NO_MODS, a).0 == Parsed(NO_MODS, b).0
    && CanonicalKey(Parsed(NO_MODS, a).1) == CanonicalKey(Parsed(NO_MODS, b).1)
  }

  /** One modified key: same bytes, same key, in both directions. */
  lemma SameBytesIffSameKey(a: string, b: string)
    requires ModifiedKey(a) && ModifiedKey(b)
    ensures Expanded(a) == Expanded(b) <==> SameKey(a, b)
  {
    ExpandedModifiedKey(a);
    ExpandedModifiedKey(b);
    var (m, x) := Parsed(NO_MODS, a);
    var (n, y) := Parsed(NO_MODS, b);
    StyleNamesKey(x);
    StyleNamesKey(y);
    ParamInjective(m, n);
    if Expanded(a) == Expanded(b) {
      SequenceInjective(Modifiable(x).value, ModParam(m), Modifiable(y).value, ModParam(n));
    }
  }

  /** Unique decodability: two lists of modified keys give the same bytes if and only
      if they have the same length and name the same keys position by position. */
  lemma {:induction false} UniquelyDecodable(a: seq<string>, b: seq<string>)
    requires forall i | 0 <= i < |a| :: ModifiedKey(a[i])
    requires forall i | 0 <= i < |b| :: ModifiedKey(b[i])
    ensures SendKeysData(a, false) == SendKeysData(b, false) <==>
            |a| == |b| && forall i | 0 <= i < |a| :: SameKey(a[i], b[i])
  {
    hide Parsed, Modifiable, CanonicalKey, Expanded, SameKey, ModifiedKey;
    if a == [] || b == [] {
      if a != [] { ExpandedModifiedKey(a[0]); }
      if b != [] { ExpandedModifiedKey(b[0]); }
    } else {
      UniquelyDecodable(a[1..], b[1..]);
      SameBytesIffSameKey(a[0], b[0]);
      ExpandedModifiedKey(a[0]);
      ExpandedModifiedKey(b[0]);
      var x, y := SendKeysData(a[1..], false), SendKeysData(b[1..], false);
      if Expanded(a[0]) + x == Expanded(b[0]) + y {
        SelfDelimiting(Expanded(a[0]), Expanded(b[0]), x, y);
        SameTail(a, b);
      }
      if |a| == |b| && forall i | 0 <= i < |a| :: SameKey(a[i], b[i]) {
        assert forall i | 0 <= i < |a| - 1 :: a[1..][i] == a[i + 1] && b[1..][i] == b[i + 1];
      }
    }
  }

  lemma SameTail(a: seq<string>, b: seq<string>)
    requires |a| == |b| > 0 && SameKey(a[0], b[0])
    requires forall i | 0 <= i < |a| - 1 :: SameKey(a[1..][i], b[1..][i])
    ensures forall i | 0 <= i < |a| :: SameKey(a[i], b[i])
  {
    forall i | 0 <= i < |a| ensures SameKey(a[i], b[i]) {
      if i > 0 { assert a[i] == a[1..][i - 1] && b[i] == b[1..][i - 1]; }
    }
  }
}
