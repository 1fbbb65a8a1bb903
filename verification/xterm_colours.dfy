/**
 * Colour and attribute escapes for xterm-like terminals: `Colorize`
 * wraps a text in one SGR sequence (`ESC [ code ; code ... m`, section
 * 8.3.117 of ECMA-48) and a closing reset, and `ColouredBuffer`
 * accumulates texts, emitting codes only where the look changes.
 *
 * Python's `str(Data)` is taken as already done: texts are strings.
 * Attribute values are booleans; colours are `None`, an integer, or
 * something else (a type error).
 */
module XtermColours {
  import opened Wrappers
  import opened Decimal

  const ESC: char := 27 as char

  /** `PREFIX`, the control sequence introducer `ESC [`. */
  const Prefix: string := [ESC, '[']

  /** `SUFFIX`, the final byte of an SGR sequence. */
  const Suffix: string := "m"

  /** `FOREGROUND` and `BACKGROUND`: the 256-colour palette selectors. */
  const ForegroundTag: string := "38:5:"
  const BackgroundTag: string := "48:5:"

  /** `MIN_INDEX` and `MAX_INDEX`: both bounds are accepted. */
  const MinIndex: int := 0
  const MaxIndex: int := 256

  // ---------------------------------------------------------------------
  // Attributes

  /** The `Attributes` enumeration, in declaration order. */
  datatype Attribute = BOLD | FAINT | ITALIC | UNDERLINE | INVERSE | HIDE | STRIKE | DOUBLE

  function AttributeCode(a: Attribute): (n: nat)
    ensures n >= 1
  {
    match a
    case BOLD => 1
    case FAINT => 2
    case ITALIC => 3
    case UNDERLINE => 4
    case INVERSE => 7
    case HIDE => 8
    case STRIKE => 9
    case DOUBLE => 21
  }

  function AttributeName(a: Attribute): string {
    match a
    case BOLD => "BOLD"
    case FAINT => "FAINT"
    case ITALIC => "ITALIC"
    case UNDERLINE => "UNDERLINE"
    case INVERSE => "INVERSE"
    case HIDE => "HIDE"
    case STRIKE => "STRIKE"
    case DOUBLE => "DOUBLE"
  }

  /** `ALL_ATTRIBUTES` as members, in enumeration order. */
  const AllAttributes: seq<Attribute> := [BOLD, FAINT, ITALIC, UNDERLINE, INVERSE, HIDE, STRIKE, DOUBLE]

  /** `Attributes[Name]`, or nothing for a name that is not in `ALL_ATTRIBUTES`. */
  function AttributeNamed(name: string): (r: Option<Attribute>)
    ensures r.Some? ==> AttributeName(r.value) == name
    ensures r.None? ==> forall a: Attribute :: AttributeName(a) != name
  {
    if name == "BOLD" then Some(BOLD)
    else if name == "FAINT" then Some(FAINT)
    else if name == "ITALIC" then Some(ITALIC)
    else if name == "UNDERLINE" then Some(UNDERLINE)
    else if name == "INVERSE" then Some(INVERSE)
    else if name == "HIDE" then Some(HIDE)
    else if name == "STRIKE" then Some(STRIKE)
    else if name == "DOUBLE" then Some(DOUBLE)
    else None
  }

  /** The enumeration member with a given value. */
  function AttributeWithCode(n: nat): (r: Option<Attribute>)
    ensures r.Some? ==> AttributeCode(r.value) == n
    ensures r.None? ==> forall a: Attribute :: AttributeCode(a) != n
  {
    if n == 1 then Some(BOLD)
    else if n == 2 then Some(FAINT)
    else if n == 3 then Some(ITALIC)
    else if n == 4 then Some(UNDERLINE)
    else if n == 7 then Some(INVERSE)
    else if n == 8 then Some(HIDE)
    else if n == 9 then Some(STRIKE)
    else if n == 21 then Some(DOUBLE)
    else None
  }

  /** Names and values identify the members: both lookups invert the enumeration. */
  lemma AttributeLookupsInvert(a: Attribute)
    ensures AttributeNamed(AttributeName(a)) == Some(a)
    ensures AttributeWithCode(AttributeCode(a)) == Some(a)
  {
  }

  // ---------------------------------------------------------------------
  // Codes and their text

  /** One entry of `Codes`: the reset `0`, an attribute's value, or a palette colour. */
  datatype Code = ResetCode | AttrCode(attr: Attribute) | FgCode(colour: nat) | BgCode(colour: nat)

  /** `str` of one entry. */
  function CodeText(c: Code): string {
    match c
    case ResetCode => "0"
    case AttrCode(a) => NatToString(AttributeCode(a))
    case FgCode(n) => ForegroundTag + NatToString(n)
    case BgCode(n) => BackgroundTag + NatToString(n)
  }

  /** `SEPARATOR.join(map(str, Codes))`. */
  function JoinCodes(cs: seq<Code>): string {
    if cs == [] then ""
    else if |cs| == 1 then CodeText(cs[0])
    else CodeText(cs[0]) + ";" + JoinCodes(cs[1..])
  }

  /** The SGR sequence selecting the codes. */
  function Sgr(cs: seq<Code>): string {
    Prefix + JoinCodes(cs) + Suffix
  }

  /** `PREFIX + str(RESET) + SUFFIX`, the sequence returning to the plain look. */
  const ResetSequence: string := Prefix + "0" + Suffix

  /** The text emitted for a chunk: the codes' sequence (if any codes) then the text. */
  function Chunk(cs: seq<Code>, text: string): (r: string)
    ensures cs == [] ==> r == text
    ensures cs != [] ==> r == Sgr(cs) + text
  {
    if cs == [] then text else Sgr(cs) + text
  }

  // ---------------------------------------------------------------------
  // Reading codes back

  predicate CodeChar(c: char) {
    IsDigit(c) || c == ':'
  }

  predicate CodeChars(s: string) {
    forall i | 0 <= i < |s| :: CodeChar(s[i])
  }

  lemma CodeTextChars(c: Code)
    ensures CodeChars(CodeText(c))
    ensures |CodeText(c)| >= 1
  {
    match c
    case ResetCode =>
    case AttrCode(a) =>
    case FgCode(n) =>
      var t := CodeText(c);
      forall i | 0 <= i < |t| ensures CodeChar(t[i]) {
        if i >= 5 {
          assert t[i] == NatToString(n)[i - 5];
        }
      }
    case BgCode(n) =>
      var t := CodeText(c);
      forall i | 0 <= i < |t| ensures CodeChar(t[i]) {
        if i >= 5 {
          assert t[i] == NatToString(n)[i - 5];
        }
      }
  }

  /** Splits a string at every `;`. */
  function SplitAtSemicolons(s: string): (parts: seq<string>)
    ensures |parts| >= 1
    decreases |s|
  {
    if s == [] then [""]
    else
      var rest := SplitAtSemicolons(s[1..]);
      if s[0] == ';' then [""] + rest else [[s[0]] + rest[0]] + rest[1..]
  }

  lemma {:induction false} SplitPiece(t: string, u: string)
    requires CodeChars(t)
    ensures SplitAtSemicolons(t) == [t]
    ensures SplitAtSemicolons(t + ";" + u) == [t] + SplitAtSemicolons(u)
    decreases |t|
  {
    if t == [] {
      assert t + ";" + u == [';'] + u;
      assert (t + ";" + u)[1..] == u;
    } else {
      assert CodeChar(t[0]);
      assert CodeChars(t[1..]) by {
        forall i | 0 <= i < |t[1..]| ensures CodeChar(t[1..][i]) {
          assert t[1..][i] == t[i + 1];
        }
      }
      SplitPiece(t[1..], u);
      assert (t + ";" + u)[1..] == t[1..] + ";" + u;
      assert [t[0]] + t[1..] == t;
    }
  }

  /** The texts of the codes, one per code. */
  function CodeTexts(cs: seq<Code>): (ts: seq<string>)
    ensures |ts| == |cs|
  {
    if cs == [] then [] else [CodeText(cs[0])] + CodeTexts(cs[1..])
  }

  /** Splitting the joined codes at `;` gives back each code's text. */
  lemma {:induction false} SplitJoinedCodes(cs: seq<Code>)
    requires cs != []
    ensures SplitAtSemicolons(JoinCodes(cs)) == CodeTexts(cs)
  {
    CodeTextChars(cs[0]);
    if |cs| == 1 {
      SplitPiece(CodeText(cs[0]), "");
      assert cs[1..] == [];
    } else {
      SplitPiece(CodeText(cs[0]), JoinCodes(cs[1..]));
      SplitJoinedCodes(cs[1..]);
    }
  }

  /** Reads one code's text. */
  function ParseCode(s: string): Option<Code> {
    if s == "0" then Some(ResetCode)
    else if |s| > 5 && s[..5] == ForegroundTag && AllDigits(s[5..]) then Some(FgCode(DigitsValue(s[5..])))
    else if |s| > 5 && s[..5] == BackgroundTag && AllDigits(s[5..]) then Some(BgCode(DigitsValue(s[5..])))
    else if |s| >= 1 && AllDigits(s) then
      match AttributeWithCode(DigitsValue(s))
      case Some(a) => Some(AttrCode(a))
      case None => None
    else None
  }

  lemma ParseCodeText(c: Code)
    ensures ParseCode(CodeText(c)) == Some(c)
  {
    match c
    case ResetCode =>
    case AttrCode(a) => ParseAttributeText(a);
    case FgCode(n) => ParseForegroundText(n);
    case BgCode(n) => ParseBackgroundText(n);
  }

  lemma ParseAttributeText(a: Attribute)
    ensures ParseCode(CodeText(AttrCode(a))) == Some(AttrCode(a))
  {
    var s := CodeText(AttrCode(a));
    NatToStringRoundTrip(AttributeCode(a));
    assert s[0] != '0';
    DigitsUpToHundred(AttributeCode(a));
    AttributeLookupsInvert(a);
  }

  lemma ParseForegroundText(n: nat)
    ensures ParseCode(CodeText(FgCode(n))) == Some(FgCode(n))
  {
    var s := CodeText(FgCode(n));
    assert s[..5] == ForegroundTag && s[5..] == NatToString(n);
    NatToStringRoundTrip(n);
  }

  lemma ParseBackgroundText(n: nat)
    ensures ParseCode(CodeText(BgCode(n))) == Some(BgCode(n))
  {
    var s := CodeText(BgCode(n));
    assert s[..5] == BackgroundTag && s[5..] == NatToString(n);
    assert s[..5] != ForegroundTag by {
      assert s[0] == '4';
    }
    NatToStringRoundTrip(n);
  }

  function ParseCodes(parts: seq<string>): (r: Option<seq<Code>>)
    ensures r.Some? ==> |r.value| == |parts|
  {
    if parts == [] then Some([])
    else
      match ParseCode(parts[0])
      case None => None
      case Some(c) =>
        match ParseCodes(parts[1..])
        case None => None
        case Some(cs) => Some([c] + cs)
  }

  lemma {:induction false} ParseCodeTexts(cs: seq<Code>)
    ensures ParseCodes(CodeTexts(cs)) == Some(cs)
  {
    if cs != [] {
      ParseCodeText(cs[0]);
      assert CodeTexts(cs)[1..] == CodeTexts(cs[1..]);
      ParseCodeTexts(cs[1..]);
      assert [cs[0]] + cs[1..] == cs;
    }
  }

  /** The position of the first `c` in `s`. */
  function IndexOf(s: string, c: char): (r: Option<nat>)
    ensures r.Some? ==> r.value < |s| && s[r.value] == c
  {
    if s == [] then None
    else if s[0] == c then Some(0)
    else
      match IndexOf(s[1..], c)
      case None => None
      case Some(k) => Some(k + 1)
  }

  lemma {:induction false} IndexOfFirst(t: string, c: char, u: string)
    requires forall i | 0 <= i < |t| :: t[i] != c
    ensures IndexOf(t + [c] + u, c) == Some(|t|)
  {
    if t != [] {
      assert (t + [c] + u)[1..] == t[1..] + [c] + u;
      IndexOfFirst(t[1..], c, u);
    }
  }

  /**
   * Reads a coloured text back: one SGR sequence, the text, and the
   * closing reset sequence.
   */
  function ParseColorized(s: string): Option<(seq<Code>, string)> {
    if |s| < 2 || s[..2] != Prefix then None
    else
      match IndexOf(s[2..], 'm')
      case None => None
      case Some(k) =>
        var tail := s[2 + k + 1..];
        if |tail| < |ResetSequence| || tail[|tail| - |ResetSequence|..] != ResetSequence then None
        else
          match ParseCodes(SplitAtSemicolons(s[2..2 + k]))
          case None => None
          case Some(cs) => Some((cs, tail[..|tail| - |ResetSequence|]))
  }

  /** The characters a joined code list is written with: digits, `:` and `;`. */
  predicate CodeListChars(s: string) {
    forall i | 0 <= i < |s| :: CodeChar(s[i]) || s[i] == ';'
  }

  lemma CodeListCharsAppend(a: string, b: string)
    requires CodeListChars(a) && CodeListChars(b)
    ensures CodeListChars(a + b)
  {
    forall i | 0 <= i < |a + b| ensures CodeChar((a + b)[i]) || (a + b)[i] == ';' {
      if i < |a| {
        assert (a + b)[i] == a[i];
      } else {
        assert (a + b)[i] == b[i - |a|];
      }
    }
  }

  lemma {:induction false} JoinedCodeChars(cs: seq<Code>)
    ensures CodeListChars(JoinCodes(cs))
  {
    if cs != [] {
      var t := CodeText(cs[0]);
      assert CodeListChars(t) by {
        CodeTextChars(cs[0]);
      }
      if |cs| > 1 {
        JoinedCodeChars(cs[1..]);
        CodeListCharsAppend(t, ";");
        CodeListCharsAppend(t + ";", JoinCodes(cs[1..]));
      }
    }
  }

  /** The reset sequence is the SGR sequence of the reset code alone. */
  lemma ResetSequenceIsSgr()
    ensures ResetSequence == Sgr([ResetCode])
  {
  }

  /** A prefix, a code list without `m`, then `m`: the sequence's parts are found where they were put. */
  lemma FramedParts(j: string, rest: string)
    requires CodeListChars(j)
    ensures var s := Prefix + j + "m" + rest;
      && |s| >= 2 + |j| + 1
      && s[..2] == Prefix
      && IndexOf(s[2..], 'm') == Some(|j|)
      && s[2..2 + |j|] == j
      && s[2 + |j| + 1..] == rest
  {
    var s := Prefix + j + "m" + rest;
    assert s[2..] == j + ['m'] + rest;
    IndexOfFirst(j, 'm', rest);
    assert s[2..2 + |j|] == s[2..][..|j|];
    assert s[2 + |j| + 1..] == s[2..][|j| + 1..];
  }

  /** A text followed by the reset sequence splits back into the two. */
  lemma ClosedTail(text: string)
    ensures var tail := text + ResetSequence;
      && |tail| >= |ResetSequence|
      && tail[|tail| - |ResetSequence|..] == ResetSequence
      && tail[..|tail| - |ResetSequence|] == text
  {
  }

  /** A non-empty code list and a text, wrapped and closed, read back as themselves. */
  lemma SgrRoundTrip(cs: seq<Code>, text: string)
    requires cs != []
    ensures ParseColorized(Sgr(cs) + text + ResetSequence) == Some((cs, text))
  {
    var j := JoinCodes(cs);
    var rest := text + ResetSequence;
    assert Sgr(cs) + text + ResetSequence == Prefix + j + "m" + rest;
    assert ParseCodes(SplitAtSemicolons(j)) == Some(cs) by {
      SplitJoinedCodes(cs);
      ParseCodeTexts(cs);
    }
    JoinedCodeChars(cs);
    FramedParts(j, rest);
    ClosedTail(text);
  }

  // ---------------------------------------------------------------------
  // The look a terminal takes on

  /** The attributes and colours a terminal currently draws with. */
  datatype Look = Look(attributes: set<Attribute>, foreground: Option<nat>, background: Option<nat>)

  const Plain: Look := Look({}, None, None)

  /** How a terminal applies one code. */
  function ApplyCode(l: Look, c: Code): Look {
    match c
    case ResetCode => Plain
    case AttrCode(a) => Look(l.attributes + {a}, l.foreground, l.background)
    case FgCode(n) => Look(l.attributes, Some(n), l.background)
    case BgCode(n) => Look(l.attributes, l.foreground, Some(n))
  }

  /** How a terminal applies an SGR sequence: the codes left to right. */
  function ApplyCodes(l: Look, cs: seq<Code>): Look
    decreases |cs|
  {
    if cs == [] then l else ApplyCodes(ApplyCode(l, cs[0]), cs[1..])
  }

  lemma {:induction false} ApplyCodesAppend(l: Look, a: seq<Code>, b: seq<Code>)
    ensures ApplyCodes(l, a + b) == ApplyCodes(ApplyCodes(l, a), b)
    decreases |a|
  {
    if a == [] {
      assert a + b == b;
    } else {
      assert (a + b)[0] == a[0];
      assert (a + b)[1..] == a[1..] + b;
      ApplyCodesAppend(ApplyCode(l, a[0]), a[1..], b);
    }
  }

  /** Attribute codes only add their attributes. */
  function AttrCodes(attrs: seq<Attribute>): (cs: seq<Code>)
    ensures |cs| == |attrs|
    ensures forall i | 0 <= i < |cs| :: cs[i] == AttrCode(attrs[i])
  {
    if attrs == [] then [] else [AttrCode(attrs[0])] + AttrCodes(attrs[1..])
  }

  /** The attributes occurring in a list. */
  function Members(attrs: seq<Attribute>): set<Attribute> {
    set a: Attribute | a in attrs
  }

  lemma {:induction false} ApplyAttrCodes(l: Look, attrs: seq<Attribute>)
    ensures ApplyCodes(l, AttrCodes(attrs)) == Look(l.attributes + Members(attrs), l.foreground, l.background)
    decreases |attrs|
  {
    if attrs != [] {
      assert AttrCodes(attrs)[1..] == AttrCodes(attrs[1..]);
      ApplyAttrCodes(ApplyCode(l, AttrCode(attrs[0])), attrs[1..]);
      assert attrs == [attrs[0]] + attrs[1..];
      assert Members(attrs) == {attrs[0]} + Members(attrs[1..]);
    } else {
      assert Members(attrs) == {};
    }
  }

  // ---------------------------------------------------------------------
  // Colorize

  datatype ColourError = KeyError(name: string) | TypeError | ValueError

  /** A `Foreground` or `Background` argument. */
  datatype ColourArg = NoColour | Colour(n: int) | NotAnInt

  /** The checks on a colour argument: `None` passes, an integer must lie in `[0, 256]`. */
  function ColourValue(arg: ColourArg): (r: Result<Option<nat>, ColourError>)
    ensures arg.NoColour? ==> r == Success(None)
    ensures arg.NotAnInt? ==> r == Failure(TypeError)
    ensures arg.Colour? ==> (r.Success? <==> MinIndex <= arg.n <= MaxIndex)
    ensures arg.Colour? && r.Success? ==> r.value == Some(arg.n)
    ensures arg.Colour? && r.Failure? ==> r.error == ValueError
  {
    match arg
    case NoColour => Success(None)
    case NotAnInt => Failure(TypeError)
    case Colour(n) => if MinIndex <= n <= MaxIndex then Success(Some(n)) else Failure(ValueError)
  }

  /** The keyword attributes, in argument order. */
  type Settings = seq<(string, bool)>

  /** The first argument name that is not an attribute. */
  function FirstUnknown(kwargs: Settings): Option<string> {
    if kwargs == [] then None
    else if AttributeNamed(kwargs[0].0).None? then Some(kwargs[0].0)
    else FirstUnknown(kwargs[1..])
  }

  /**
   * The arguments before the first unknown name: the ones `put`'s loop
   * has already stored when it raises the KeyError (all of them when
   * every name is known).
   */
  function KnownPrefix(kwargs: Settings): (p: Settings)
    ensures |p| <= |kwargs| && p == kwargs[..|p|]
    ensures FirstUnknown(p).None?
    ensures FirstUnknown(kwargs).None? <==> p == kwargs
    ensures FirstUnknown(kwargs).Some? ==> |p| < |kwargs| && kwargs[|p|].0 == FirstUnknown(kwargs).value
  {
    if kwargs == [] then []
    else if AttributeNamed(kwargs[0].0).None? then []
    else [kwargs[0]] + KnownPrefix(kwargs[1..])
  }

  /** The attributes switched on by the arguments, in argument order (all names known). */
  function Truthy(kwargs: Settings): seq<Attribute>
    requires FirstUnknown(kwargs).None?
  {
    if kwargs == [] then []
    else
      var rest := Truthy(kwargs[1..]);
      if kwargs[0].1 then [AttributeNamed(kwargs[0].0).value] + rest else rest
  }

  /** `Colorize`'s first loop: the values of the truthy attributes, failing at the first unknown name. */
  function AttributeCodes(kwargs: Settings): (r: Result<seq<Code>, ColourError>)
    ensures r.Failure? <==> FirstUnknown(kwargs).Some?
    ensures r.Failure? ==> r.error == KeyError(FirstUnknown(kwargs).value)
    ensures r.Success? ==> r.value == AttrCodes(Truthy(kwargs))
  {
    if kwargs == [] then Success([])
    else
      match AttributeNamed(kwargs[0].0)
      case None => Failure(KeyError(kwargs[0].0))
      case Some(a) =>
        var rest :- AttributeCodes(kwargs[1..]);
        Success(if kwargs[0].1 then [AttrCode(a)] + rest else rest)
  }

  /** The codes selecting some attributes in order, then the colours given. */
  function SelectionCodes(attrs: seq<Attribute>, fg: Option<nat>, bg: Option<nat>): seq<Code> {
    AttrCodes(attrs) + (if fg.Some? then [FgCode(fg.value)] else []) + (if bg.Some? then [BgCode(bg.value)] else [])
  }

  /** A selection's codes take a plain terminal to exactly the selected attributes and colours. */
  lemma SelectionSetsTheLook(attrs: seq<Attribute>, fg: Option<nat>, bg: Option<nat>)
    ensures ApplyCodes(Plain, SelectionCodes(attrs, fg, bg)) == Look(Members(attrs), fg, bg)
  {
    var codes := AttrCodes(attrs);
    var fgs: seq<Code> := if fg.Some? then [FgCode(fg.value)] else [];
    var bgs: seq<Code> := if bg.Some? then [BgCode(bg.value)] else [];
    assert ApplyCodes(Plain, codes) == Look(Members(attrs), None, None) by {
      ApplyAttrCodes(Plain, attrs);
    }
    assert ApplyCodes(Plain, codes + fgs) == Look(Members(attrs), fg, None) by {
      ApplyCodesAppend(Plain, codes, fgs);
      if fg.Some? {
        ApplySingle(Look(Members(attrs), None, None), FgCode(fg.value));
      }
    }
    ApplyCodesAppend(Plain, codes + fgs, bgs);
    if bg.Some? {
      ApplySingle(Look(Members(attrs), fg, None), BgCode(bg.value));
    }
  }

  /**
   * The codes `Colorize` emits: the truthy attributes in argument order,
   * then the foreground, then the background. An unknown attribute name
   * is reported before any colour error, and the foreground before the
   * background.
   */
  function ColorizeCodes(kwargs: Settings, fg: ColourArg, bg: ColourArg): (r: Result<seq<Code>, ColourError>)
    ensures FirstUnknown(kwargs).Some? ==> r == Failure(KeyError(FirstUnknown(kwargs).value))
    ensures FirstUnknown(kwargs).None? && ColourValue(fg).Failure? ==> r == Failure(ColourValue(fg).error)
    ensures FirstUnknown(kwargs).None? && ColourValue(fg).Success? && ColourValue(bg).Failure? ==>
      r == Failure(ColourValue(bg).error)
    ensures r.Success? <==> FirstUnknown(kwargs).None? && ColourValue(fg).Success? && ColourValue(bg).Success?
    ensures r.Success? ==> r.value == SelectionCodes(Truthy(kwargs), ColourValue(fg).value, ColourValue(bg).value)
  {
    var attrs :- AttributeCodes(kwargs);
    var fv :- ColourValue(fg);
    var bv :- ColourValue(bg);
    Success(attrs + (if fv.Some? then [FgCode(fv.value)] else []) + (if bv.Some? then [BgCode(bv.value)] else []))
  }

  /**
   * `Colorize`: the text alone when there is nothing to select; otherwise
   * the text between the codes' sequence and the reset sequence.
   */
  function Colorize(text: string, fg: ColourArg, bg: ColourArg, kwargs: Settings): (r: Result<string, ColourError>)
    ensures r.Success? <==> ColorizeCodes(kwargs, fg, bg).Success?
    ensures r.Failure? ==> r.error == ColorizeCodes(kwargs, fg, bg).error
    ensures r.Success? && ColorizeCodes(kwargs, fg, bg).value == [] ==> r.value == text
    ensures r.Success? && ColorizeCodes(kwargs, fg, bg).value != [] ==>
      r.value == Sgr(ColorizeCodes(kwargs, fg, bg).value) + text + ResetSequence
  {
    var codes :- ColorizeCodes(kwargs, fg, bg);
    if codes == [] then Success(text) else Success(Sgr(codes) + text + ResetSequence)
  }

  /** The text comes back unchanged exactly when no attribute is truthy and no colour is given. */
  lemma ColorizeUnchangedWhenNothingSelected(text: string, fg: ColourArg, bg: ColourArg, kwargs: Settings)
    requires ColorizeCodes(kwargs, fg, bg).Success?
    ensures ColorizeCodes(kwargs, fg, bg).value == [] <==> Truthy(kwargs) == [] && fg.NoColour? && bg.NoColour?
  {
  }

  /**
   * A coloured text reads back as its codes and the text, the codes put
   * a plain terminal into the requested look, and the closing sequence
   * returns it to plain.
   */
  lemma ColorizeRoundTrip(text: string, fg: ColourArg, bg: ColourArg, kwargs: Settings)
    requires ColorizeCodes(kwargs, fg, bg).Success?
    requires ColorizeCodes(kwargs, fg, bg).value != []
    ensures ParseColorized(Colorize(text, fg, bg, kwargs).value) == Some((ColorizeCodes(kwargs, fg, bg).value, text))
    ensures ApplyCodes(Plain, ColorizeCodes(kwargs, fg, bg).value) ==
      Look(Members(Truthy(kwargs)), ColourValue(fg).value, ColourValue(bg).value)
    ensures ApplyCodes(ApplyCodes(Plain, ColorizeCodes(kwargs, fg, bg).value), [ResetCode]) == Plain
  {
    var cs := ColorizeCodes(kwargs, fg, bg).value;
    assert ParseColorized(Sgr(cs) + text + ResetSequence) == Some((cs, text)) by {
      SgrRoundTrip(cs, text);
    }
    assert ApplyCodes(Plain, cs) == Look(Members(Truthy(kwargs)), ColourValue(fg).value, ColourValue(bg).value) by {
      SelectionSetsTheLook(Truthy(kwargs), ColourValue(fg).value, ColourValue(bg).value);
    }
    ApplySingle(ApplyCodes(Plain, cs), ResetCode);
  }

  // ---------------------------------------------------------------------
  // ColouredBuffer

  /** `ColouredBuffer`'s state; `attributes` holds the names whose flag is true. */
  datatype Buffer = Buffer(
    foreground: Option<nat>,
    background: Option<nat>,
    attributes: set<Attribute>,
    data: string,
    last: string)

  function LookOf(b: Buffer): Look {
    Look(b.attributes, b.foreground, b.background)
  }

  /**
   * `_reset` (and so `__init__`): no colours, no attributes, empty
   * buffers; the look any terminal is in after a reset, and nothing to
   * print but the reset sequence itself.
   */
  function NewBuffer(): (b: Buffer)
    ensures LookOf(b) == Plain
    ensures forall l: Look :: ApplyCodes(l, [ResetCode]) == LookOf(b)
    ensures b.data == "" && b.last == ""
    ensures Data(b) == ResetSequence
  {
    assert [ResetCode][1..] == [];
    Buffer(None, None, {}, "", "")
  }

  /** `Data`: the accumulated text, closed by the reset sequence. */
  function Data(b: Buffer): (s: string)
    ensures |s| == |b.data| + |ResetSequence|
    ensures s[..|b.data|] == b.data
    ensures s[|b.data|..] == ResetSequence
  {
    b.data + ResetSequence
  }

  /**
   * `print`: the data it writes (Python's `print` adds a newline after
   * it, which is not part of the result), and the buffer reset to its
   * initial state.
   */
  function Print(b: Buffer): (r: (string, Buffer))
    ensures r.0 == Data(b)
    ensures r.1 == NewBuffer() && LookOf(r.1) == Plain
    ensures ApplyCodes(LookOf(b), [ResetCode]) == LookOf(r.1)
  {
    assert [ResetCode][1..] == [];
    (Data(b), NewBuffer())
  }

  /** The last setting of an attribute in the arguments, if it is named at all. */
  function LastSetting(kwargs: Settings, a: Attribute): Option<bool> {
    if kwargs == [] then None
    else
      var later := LastSetting(kwargs[1..], a);
      if later.Some? then later
      else if kwargs[0].0 == AttributeName(a) then Some(kwargs[0].1)
      else None
  }

  /** The attribute loop's running state: the flags, the codes so far, and whether a reset is due. */
  datatype Scan = Scan(attributes: set<Attribute>, codes: seq<Code>, reset: bool)

  /**
   * `put`'s first loop: each named attribute whose value differs from its
   * flag emits its value when switched on and calls for a reset when
   * switched off; the flag takes the value. An unknown name stops the loop
   * with the flags set so far.
   */
  function ScanSettings(kwargs: Settings, s: Scan): (r: (Scan, Option<ColourError>))
    ensures r.1.Some? <==> FirstUnknown(kwargs).Some?
    ensures r.1.Some? ==> r.1.value == KeyError(FirstUnknown(kwargs).value)
  {
    if kwargs == [] then (s, None)
    else
      match AttributeNamed(kwargs[0].0)
      case None => (s, Some(KeyError(kwargs[0].0)))
      case Some(a) =>
        var value := kwargs[0].1;
        if value != (a in s.attributes) then
          var next :=
            if value then Scan(s.attributes + {a}, s.codes + [AttrCode(a)], s.reset)
            else Scan(s.attributes - {a}, s.codes, true);
          ScanSettings(kwargs[1..], next)
        else ScanSettings(kwargs[1..], s)
  }

  /**
   * Each flag of `attrs` is its last setting in `kwargs`, or its value in
   * `before` when `kwargs` does not name it.
   */
  predicate SettledBy(attrs: set<Attribute>, kwargs: Settings, before: set<Attribute>) {
    forall a: Attribute :: a in attrs <==> if LastSetting(kwargs, a).Some? then LastSetting(kwargs, a).value else a in before
  }

  /**
   * After the loop, whether it finishes or stops at an unknown name, a
   * flag named before that point is its last setting there; the others
   * keep theirs.
   */
  lemma {:induction false} ScanSettles(kwargs: Settings, s: Scan, a: Attribute)
    ensures var r := ScanSettings(kwargs, s).0; var known := KnownPrefix(kwargs);
      a in r.attributes <==> if LastSetting(known, a).Some? then LastSetting(known, a).value else a in s.attributes
    ensures FirstUnknown(kwargs).None? ==> var r := ScanSettings(kwargs, s).0;
      a in r.attributes <==> if LastSetting(kwargs, a).Some? then LastSetting(kwargs, a).value else a in s.attributes
  {
    if kwargs != [] && AttributeNamed(kwargs[0].0).Some? {
      var b := AttributeNamed(kwargs[0].0).value;
      var value := kwargs[0].1;
      var next :=
        if value != (b in s.attributes) then
          (if value then Scan(s.attributes + {b}, s.codes + [AttrCode(b)], s.reset)
           else Scan(s.attributes - {b}, s.codes, true))
        else s;
      assert ScanSettings(kwargs, s) == ScanSettings(kwargs[1..], next);
      ScanSettles(kwargs[1..], next, a);
      KnownLastSetting(kwargs, a);
      NamedFlag(kwargs[0].0, b, a);
    } else {
      assert KnownPrefix(kwargs) == [] && ScanSettings(kwargs, s).0 == s;
    }
  }

  /** The last setting within the known prefix, one argument at a time. */
  lemma KnownLastSetting(kwargs: Settings, a: Attribute)
    requires kwargs != [] && AttributeNamed(kwargs[0].0).Some?
    ensures var later := LastSetting(KnownPrefix(kwargs[1..]), a);
      LastSetting(KnownPrefix(kwargs), a) ==
        if later.Some? then later else if kwargs[0].0 == AttributeName(a) then Some(kwargs[0].1) else None
  {
    assert KnownPrefix(kwargs)[1..] == KnownPrefix(kwargs[1..]);
  }

  /** A known name names exactly its attribute. */
  lemma NamedFlag(name: string, b: Attribute, a: Attribute)
    requires AttributeNamed(name) == Some(b)
    ensures name == AttributeName(a) <==> b == a
  {
    AttributeLookupsInvert(a);
  }

  /**
   * The loop only appends codes; and unless it calls for a reset, its
   * codes take a terminal from the old flags to the new ones.
   */
  lemma {:induction false} ScanCodesTrackFlags(kwargs: Settings, s: Scan, l: Look)
    requires FirstUnknown(kwargs).None?
    requires l.attributes == s.attributes
    ensures var r := ScanSettings(kwargs, s).0;
      && |s.codes| <= |r.codes| && r.codes[..|s.codes|] == s.codes
      && (!r.reset ==> ApplyCodes(l, r.codes[|s.codes|..]) == Look(r.attributes, l.foreground, l.background))
  {
    var r := ScanSettings(kwargs, s).0;
    if kwargs == [] {
      assert r.codes[|s.codes|..] == [];
    } else {
      var b := AttributeNamed(kwargs[0].0).value;
      var value := kwargs[0].1;
      if value != (b in s.attributes) {
        if value {
          var next := Scan(s.attributes + {b}, s.codes + [AttrCode(b)], s.reset);
          var l' := ApplyCode(l, AttrCode(b));
          assert ScanSettings(kwargs, s) == ScanSettings(kwargs[1..], next);
          ScanCodesTrackFlags(kwargs[1..], next, l');
          assert r.codes[..|next.codes|] == next.codes;
          assert r.codes[..|s.codes|] == r.codes[..|next.codes|][..|s.codes|];
          var tail := r.codes[|s.codes|..];
          assert tail[0] == AttrCode(b);
          assert tail[1..] == r.codes[|next.codes|..];
        } else {
          var next := Scan(s.attributes - {b}, s.codes, true);
          assert ScanSettings(kwargs, s) == ScanSettings(kwargs[1..], next);
          ScanStaysReset(kwargs[1..], next);
          ScanCodesTrackFlags(kwargs[1..], next, Look(next.attributes, l.foreground, l.background));
        }
      } else {
        ScanCodesTrackFlags(kwargs[1..], s, l);
      }
    }
  }

  lemma {:induction false} ScanStaysReset(kwargs: Settings, s: Scan)
    requires s.reset
    ensures ScanSettings(kwargs, s).0.reset
  {
    if kwargs != [] && AttributeNamed(kwargs[0].0).Some? {
      var b := AttributeNamed(kwargs[0].0).value;
      var value := kwargs[0].1;
      if value != (b in s.attributes) {
        ScanStaysReset(kwargs[1..], if value then Scan(s.attributes + {b}, s.codes + [AttrCode(b)], s.reset)
                                    else Scan(s.attributes - {b}, s.codes, true));
      } else {
        ScanStaysReset(kwargs[1..], s);
      }
    }
  }

  /** The loop's codes are attribute values only: never the reset `0`. */
  lemma {:induction false} ScanCodesAreAttributes(kwargs: Settings, s: Scan)
    requires forall i | 0 <= i < |s.codes| :: s.codes[i].AttrCode?
    ensures forall i | 0 <= i < |ScanSettings(kwargs, s).0.codes| :: ScanSettings(kwargs, s).0.codes[i].AttrCode?
  {
    if kwargs != [] && AttributeNamed(kwargs[0].0).Some? {
      var b := AttributeNamed(kwargs[0].0).value;
      var value := kwargs[0].1;
      if value != (b in s.attributes) {
        ScanCodesAreAttributes(kwargs[1..], if value then Scan(s.attributes + {b}, s.codes + [AttrCode(b)], s.reset)
                                           else Scan(s.attributes - {b}, s.codes, true));
      } else {
        ScanCodesAreAttributes(kwargs[1..], s);
      }
    }
  }

  /** The attributes named in the arguments. */
  function Named(kwargs: Settings): set<Attribute> {
    set a: Attribute | LastSetting(kwargs, a).Some?
  }

  /** The attributes whose last setting in the arguments is true. */
  function Requested(kwargs: Settings): set<Attribute> {
    set a: Attribute | LastSetting(kwargs, a) == Some(true)
  }

  /**
   * The test `put` makes before a dropped colour calls for a reset:
   * `(len(Codes) and Codes[0] != 0) or not len(Codes)`.
   */
  predicate DroppedColourResets(codes: seq<Code>) {
    (|codes| > 0 && codes[0] != ResetCode) || |codes| == 0
  }

  /** The reset path's codes: `0`, the flags set in enumeration order, then the colours. */
  function ResetCodes(attributes: set<Attribute>, fg: Option<nat>, bg: Option<nat>): seq<Code> {
    [ResetCode] + SelectionCodes(ActiveInOrder(attributes), fg, bg)
  }

  /** Every member of the enumeration is listed in `ALL_ATTRIBUTES`. */
  lemma AllAttributesListed(a: Attribute)
    ensures a in AllAttributes
  {
    var i := match a
      case BOLD => 0 case FAINT => 1 case ITALIC => 2 case UNDERLINE => 3
      case INVERSE => 4 case HIDE => 5 case STRIKE => 6 case DOUBLE => 7;
    assert AllAttributes[i] == a;
  }

  /** The attributes of a set, in enumeration order. */
  function ActiveInOrder(attributes: set<Attribute>): (r: seq<Attribute>)
    ensures Members(r) == attributes
  {
    var r := Filter(AllAttributes, attributes);
    assert Members(r) == attributes by {
      FilterMembers(AllAttributes, attributes);
      forall a: Attribute ensures a in AllAttributes {
        AllAttributesListed(a);
      }
    }
    r
  }

  function Filter(xs: seq<Attribute>, keep: set<Attribute>): seq<Attribute> {
    if xs == [] then [] else (if xs[0] in keep then [xs[0]] else []) + Filter(xs[1..], keep)
  }

  lemma {:induction false} FilterMembers(xs: seq<Attribute>, keep: set<Attribute>)
    ensures Members(Filter(xs, keep)) == Members(xs) * keep
  {
    if xs != [] {
      FilterMembers(xs[1..], keep);
      assert xs == [xs[0]] + xs[1..];
      assert Members(xs) == {xs[0]} + Members(xs[1..]);
      var head: seq<Attribute> := if xs[0] in keep then [xs[0]] else [];
      assert Members(head + Filter(xs[1..], keep)) == Members(head) + Members(Filter(xs[1..], keep));
    } else {
      assert Members(xs) == {};
    }
  }

  // ---------------------------------------------------------------------
  // ColouredBuffer.put

  /** Every attribute is named among the arguments. */
  predicate AllNamed(kwargs: Settings) {
    forall a: Attribute :: LastSetting(kwargs, a).Some?
  }

  function ColourCode(foreground: bool, n: nat): Code {
    if foreground then FgCode(n) else BgCode(n)
  }

  /**
   * `put`'s handling of one colour: a given colour emits its code unless
   * it is the current one; dropping a current colour calls for a reset
   * when the test on the codes so far says so.
   */
  function ColourStep(foreground: bool, current: Option<nat>, wanted: Option<nat>, codes: seq<Code>, reset: bool)
    : (r: (seq<Code>, bool))
  {
    if wanted.Some? then
      (if current.None? || wanted.value != current.value then codes + [ColourCode(foreground, wanted.value)] else codes, reset)
    else if current.Some? then
      (codes, reset || DroppedColourResets(codes))
    else
      (codes, reset)
  }

  /** What `put` decides before it writes: the new flags and colours, the codes, and any error. */
  datatype PutPlan = PutPlan(
    attributes: set<Attribute>,
    foreground: Option<nat>,
    background: Option<nat>,
    codes: seq<Code>,
    error: Option<ColourError>)

  /**
   * The decisions of `put`, in the source's order: the attribute loop
   * (stopping at an unknown name), the unnamed attributes switched off
   * with a reset, the foreground (checked, then stored), the background
   * (checked, then stored), and on a reset the full list of codes.
   */
  function PlanPut(b: Buffer, fg: ColourArg, bg: ColourArg, kwargs: Settings): (p: PutPlan)
    ensures p.error.None? <==> ColorizeCodes(kwargs, fg, bg).Success?
    ensures p.error.Some? ==> p.error.value == ColorizeCodes(kwargs, fg, bg).error && p.codes == []
    ensures FirstUnknown(kwargs).Some? ==> p.foreground == b.foreground && p.background == b.background
    ensures FirstUnknown(kwargs).Some? ==> SettledBy(p.attributes, KnownPrefix(kwargs), b.attributes)
    ensures FirstUnknown(kwargs).None? ==>
      && p.attributes == Requested(kwargs)
      && p.foreground == (if ColourValue(fg).Success? then ColourValue(fg).value else b.foreground)
      && p.background == (if p.error.None? then ColourValue(bg).value else b.background)
  {
    FlagsAfterLoops(b, kwargs);
    FlagsBeforeUnknown(kwargs, Scan(b.attributes, [], false));
    var scanned := ScanSettings(kwargs, Scan(b.attributes, [], false));
    var scan := scanned.0;
    if scanned.1.Some? then
      PutPlan(scan.attributes, b.foreground, b.background, [], scanned.1)
    else
      var attributes := scan.attributes * Named(kwargs);
      var reset := scan.reset || !AllNamed(kwargs);
      var fv := ColourValue(fg);
      if fv.Failure? then
        PutPlan(attributes, b.foreground, b.background, [], Some(fv.error))
      else
        var afterFg := ColourStep(true, b.foreground, fv.value, scan.codes, reset);
        var bv := ColourValue(bg);
        if bv.Failure? then
          PutPlan(attributes, fv.value, b.background, [], Some(bv.error))
        else
          var afterBg := ColourStep(false, b.background, bv.value, afterFg.0, afterFg.1);
          var codes := if afterBg.1 then ResetCodes(attributes, fv.value, bv.value) else afterBg.0;
          PutPlan(attributes, fv.value, bv.value, codes, None)
  }

  /** The flags after the first loop, as far as it went. */
  lemma FlagsBeforeUnknown(kwargs: Settings, s: Scan)
    ensures SettledBy(ScanSettings(kwargs, s).0.attributes, KnownPrefix(kwargs), s.attributes)
  {
    forall a: Attribute {
      ScanSettles(kwargs, s, a);
    }
  }

  /** The flags after the attribute loops are the requested ones. */
  lemma FlagsAfterLoops(b: Buffer, kwargs: Settings)
    ensures FirstUnknown(kwargs).None? ==>
      ScanSettings(kwargs, Scan(b.attributes, [], false)).0.attributes * Named(kwargs) == Requested(kwargs)
  {
    var s := Scan(b.attributes, [], false);
    forall a: Attribute | FirstUnknown(kwargs).None?
      ensures a in ScanSettings(kwargs, s).0.attributes * Named(kwargs) <==> a in Requested(kwargs)
    {
      ScanSettles(kwargs, s, a);
    }
  }

  /**
   * `put`: on success the buffer's text grows by the chunk (the codes'
   * sequence, if any, then the text), the flags are the requested ones
   * and the colours are the given ones. On an error the text is
   * unchanged, and the state holds whatever `put` had already stored
   * when it raised.
   */
  function Put(b: Buffer, text: string, fg: ColourArg, bg: ColourArg, kwargs: Settings): (r: (Buffer, Option<ColourError>))
    ensures r.1.None? <==> ColorizeCodes(kwargs, fg, bg).Success?
    ensures r.1.Some? ==> r.1.value == ColorizeCodes(kwargs, fg, bg).error
    ensures r.1.Some? ==> r.0.data == b.data && r.0.last == b.last
    ensures r.1.Some? && FirstUnknown(kwargs).Some? ==>
      r.0.foreground == b.foreground && r.0.background == b.background
    ensures r.1.Some? && FirstUnknown(kwargs).Some? ==> SettledBy(r.0.attributes, KnownPrefix(kwargs), b.attributes)
    ensures r.1.Some? && FirstUnknown(kwargs).None? ==>
      && r.0.attributes == Requested(kwargs)
      && r.0.background == b.background
      && r.0.foreground == (if ColourValue(fg).Success? then ColourValue(fg).value else b.foreground)
    ensures r.1.None? ==>
      && |b.data| + |text| <= |r.0.data|
      && r.0.data[..|b.data|] == b.data
      && r.0.data[|r.0.data| - |text|..] == text
      && r.0.last == text
      && r.0.attributes == Requested(kwargs)
      && r.0.foreground == ColourValue(fg).value
      && r.0.background == ColourValue(bg).value
  {
    var p := PlanPut(b, fg, bg, kwargs);
    if p.error.Some? then
      (Buffer(p.foreground, p.background, p.attributes, b.data, b.last), p.error)
    else
      var chunk := Chunk(p.codes, text);
      ChunkEndsWithText(p.codes, text);
      AppendEndingWith(b.data, chunk, text);
      (Buffer(p.foreground, p.background, p.attributes, b.data + chunk, text), None)
  }

  lemma ChunkEndsWithText(cs: seq<Code>, text: string)
    ensures |text| <= |Chunk(cs, text)|
    ensures Chunk(cs, text)[|Chunk(cs, text)| - |text|..] == text
  {
  }

  /**
   * A chunk followed by the reset sequence reads back as the codes and
   * the text it was made of; without codes nothing is added to the text.
   */
  lemma ChunkReadsBack(cs: seq<Code>, text: string)
    ensures |text| <= |Chunk(cs, text)| && Chunk(cs, text)[|Chunk(cs, text)| - |text|..] == text
    ensures cs == [] ==> Chunk(cs, text) == text
    ensures cs != [] ==> ParseColorized(Chunk(cs, text) + ResetSequence) == Some((cs, text))
  {
    if cs != [] {
      SgrRoundTrip(cs, text);
    }
  }

  /** Appending a piece that ends with a text keeps the old contents in front and ends with that text. */
  lemma AppendEndingWith(data: string, piece: string, text: string)
    requires |text| <= |piece| && piece[|piece| - |text|..] == text
    ensures |data| + |text| <= |data + piece|
    ensures (data + piece)[..|data|] == data
    ensures (data + piece)[|data + piece| - |text|..] == text
  {
    assert (data + piece)[|data + piece| - |text|..] == piece[|piece| - |text|..];
  }

  /** The appended chunk: the planned codes' sequence and the text, which read back as themselves. */
  lemma PutChunkReadsBack(b: Buffer, text: string, fg: ColourArg, bg: ColourArg, kwargs: Settings)
    requires Put(b, text, fg, bg, kwargs).1.None?
    ensures var codes := PlanPut(b, fg, bg, kwargs).codes;
      && Put(b, text, fg, bg, kwargs).0.data == b.data + Chunk(codes, text)
      && (codes != [] ==> ParseColorized(Chunk(codes, text) + ResetSequence) == Some((codes, text)))
  {
    var codes := PlanPut(b, fg, bg, kwargs).codes;
    if codes != [] {
      SgrRoundTrip(codes, text);
    }
  }

  lemma ApplySingle(l: Look, c: Code)
    ensures ApplyCodes(l, [c]) == ApplyCode(l, c)
  {
    assert [c][1..] == [];
  }

  /** The reset path's codes take any look to exactly the given flags and colours. */
  lemma ResetCodesSetTheLook(l: Look, attributes: set<Attribute>, fg: Option<nat>, bg: Option<nat>)
    ensures ApplyCodes(l, ResetCodes(attributes, fg, bg)) == Look(attributes, fg, bg)
  {
    var rest := SelectionCodes(ActiveInOrder(attributes), fg, bg);
    ApplyCodesAppend(l, [ResetCode], rest);
    ApplySingle(l, ResetCode);
    SelectionSetsTheLook(ActiveInOrder(attributes), fg, bg);
  }

  function WithColour(l: Look, foreground: bool, c: Option<nat>): Look {
    if foreground then Look(l.attributes, c, l.background) else Look(l.attributes, l.foreground, c)
  }

  /** Without a reset, one colour step moves the terminal's colour from the current one to the wanted one. */
  lemma ColourStepTracks(l: Look, foreground: bool, current: Option<nat>, wanted: Option<nat>, codes: seq<Code>, reset: bool)
    requires (if foreground then ApplyCodes(l, codes).foreground else ApplyCodes(l, codes).background) == current
    requires DroppedColourResets(codes)
    requires !ColourStep(foreground, current, wanted, codes, reset).1
    ensures ApplyCodes(l, ColourStep(foreground, current, wanted, codes, reset).0) ==
      WithColour(ApplyCodes(l, codes), foreground, wanted)
  {
    var m := ApplyCodes(l, codes);
    if wanted.Some? && (current.None? || wanted.value != current.value) {
      ApplyCodesAppend(l, codes, [ColourCode(foreground, wanted.value)]);
      ApplySingle(m, ColourCode(foreground, wanted.value));
    }
  }

  /** The colour codes leave the flags alone and never include the reset. */
  lemma ColourStepKeeps(foreground: bool, current: Option<nat>, wanted: Option<nat>, codes: seq<Code>, reset: bool)
    ensures var r := ColourStep(foreground, current, wanted, codes, reset);
      && r.0[..|codes|] == codes
      && forall i | |codes| <= i < |r.0| :: r.0[i] == ColourCode(foreground, wanted.value)
  {
  }

  /**
   * The emitted codes keep the terminal in step with the buffer: applied
   * to the buffer's look before `put`, they give its look after.
   */
  lemma PutTracksTheTerminal(b: Buffer, text: string, fg: ColourArg, bg: ColourArg, kwargs: Settings)
    requires Put(b, text, fg, bg, kwargs).1.None?
    ensures ApplyCodes(LookOf(b), PlanPut(b, fg, bg, kwargs).codes) == LookOf(Put(b, text, fg, bg, kwargs).0)
  {
    var s0 := Scan(b.attributes, [], false);
    var scan := ScanSettings(kwargs, s0).0;
    var attributes := scan.attributes * Named(kwargs);
    var reset := scan.reset || !AllNamed(kwargs);
    var fv := ColourValue(fg).value;
    var bv := ColourValue(bg).value;
    var afterFg := ColourStep(true, b.foreground, fv, scan.codes, reset);
    var afterBg := ColourStep(false, b.background, bv, afterFg.0, afterFg.1);
    var p := PlanPut(b, fg, bg, kwargs);
    assert p.attributes == attributes && p.foreground == fv && p.background == bv;
    if afterBg.1 {
      ResetCodesSetTheLook(LookOf(b), attributes, fv, bv);
    } else {
      assert !afterFg.1 && !reset;
      ScanCodesTrackFlags(kwargs, s0, LookOf(b));
      ScanCodesAreAttributes(kwargs, s0);
      ColourStepKeeps(true, b.foreground, fv, scan.codes, reset);
      assert scan.codes[0..] == scan.codes;
      assert attributes == scan.attributes;
      var l1 := ApplyCodes(LookOf(b), scan.codes);
      assert l1 == Look(scan.attributes, b.foreground, b.background);
      ColourStepTracks(LookOf(b), true, b.foreground, fv, scan.codes, reset);
      var l2 := ApplyCodes(LookOf(b), afterFg.0);
      assert l2 == Look(scan.attributes, fv, b.background);
      assert DroppedColourResets(afterFg.0) by {
        if |afterFg.0| > 0 {
          if |scan.codes| > 0 {
            assert afterFg.0[0] == afterFg.0[..|scan.codes|][0];
          }
        }
      }
      ColourStepTracks(LookOf(b), false, b.background, bv, afterFg.0, afterFg.1);
    }
  }

  /**
   * Whenever `put` resets, its codes are `0`, then the flags set in
   * enumeration order, then the foreground, then the background; and a
   * reset happens whenever some attribute goes unnamed.
   */
  lemma PutResetLayout(b: Buffer, text: string, fg: ColourArg, bg: ColourArg, kwargs: Settings)
    requires Put(b, text, fg, bg, kwargs).1.None?
    ensures var p := PlanPut(b, fg, bg, kwargs);
      ResetCode in p.codes ==> p.codes == ResetCodes(p.attributes, p.foreground, p.background)
    ensures !AllNamed(kwargs) ==>
      var p := PlanPut(b, fg, bg, kwargs);
      p.codes == ResetCodes(p.attributes, p.foreground, p.background) && p.codes[0] == ResetCode
  {
    var s0 := Scan(b.attributes, [], false);
    var scan := ScanSettings(kwargs, s0).0;
    var reset := scan.reset || !AllNamed(kwargs);
    var fv := ColourValue(fg).value;
    var bv := ColourValue(bg).value;
    var afterFg := ColourStep(true, b.foreground, fv, scan.codes, reset);
    var afterBg := ColourStep(false, b.background, bv, afterFg.0, afterFg.1);
    ScanCodesAreAttributes(kwargs, s0);
    ColourStepKeeps(true, b.foreground, fv, scan.codes, reset);
    ColourStepKeeps(false, b.background, bv, afterFg.0, afterFg.1);
    if !afterBg.1 {
      forall i | 0 <= i < |afterBg.0| ensures afterBg.0[i] != ResetCode {
        if i < |afterFg.0| {
          assert afterBg.0[i] == afterBg.0[..|afterFg.0|][i];
          if i < |scan.codes| {
            assert afterFg.0[i] == afterFg.0[..|scan.codes|][i];
          }
        }
      }
    }
  }

  /**
   * A colour dropped from the arguments always takes the reset path: the
   * codes gathered before the colour checks never start with `0`, so the
   * test on them is always true.
   */
  lemma DroppedColourAlwaysResets(b: Buffer, text: string, fg: ColourArg, bg: ColourArg, kwargs: Settings)
    requires Put(b, text, fg, bg, kwargs).1.None?
    requires || (ColourValue(fg).value.None? && b.foreground.Some?)
             || (ColourValue(bg).value.None? && b.background.Some?)
    ensures var p := PlanPut(b, fg, bg, kwargs);
      p.codes == ResetCodes(p.attributes, p.foreground, p.background)
  {
    var s0 := Scan(b.attributes, [], false);
    var scan := ScanSettings(kwargs, s0).0;
    var reset := scan.reset || !AllNamed(kwargs);
    var fv := ColourValue(fg).value;
    var afterFg := ColourStep(true, b.foreground, fv, scan.codes, reset);
    ScanCodesAreAttributes(kwargs, s0);
    ColourStepKeeps(true, b.foreground, fv, scan.codes, reset);
    assert DroppedColourResets(scan.codes);
    assert DroppedColourResets(afterFg.0) by {
      if |afterFg.0| > 0 && |scan.codes| > 0 {
        assert afterFg.0[0] == afterFg.0[..|scan.codes|][0];
      }
    }
  }

  /** The module's demonstration: a plain first `put` still begins with a reset. */
  lemma PlainPutStartsWithReset()
    ensures Put(NewBuffer(), "Hello, ", NoColour, NoColour, []) ==
      (Buffer(None, None, {}, Sgr([ResetCode]) + "Hello, ", "Hello, "), None)
  {
    PlainPlan();
    var chunk := Chunk([ResetCode], "Hello, ");
    assert chunk == Sgr([ResetCode]) + "Hello, ";
  }

  /**
   * A KeyError part-way through the arguments: `BOLD=True` is stored
   * before `BLINK` is found unknown, so the buffer keeps bold while its
   * data stays empty.
   */
  lemma KeyErrorKeepsEarlierFlags()
    ensures var r := Put(NewBuffer(), "x", NoColour, NoColour, [("BOLD", true), ("BLINK", true)]);
      r.1 == Some(KeyError("BLINK")) && r.0.attributes == {BOLD} && r.0.data == ""
  {
    var kwargs: Settings := [("BOLD", true), ("BLINK", true)];
    assert AttributeNamed("BLINK").None?;
    assert FirstUnknown(kwargs) == Some("BLINK");
    assert KnownPrefix(kwargs) == [("BOLD", true)];
    assert LastSetting([("BOLD", true)], BOLD) == Some(true);
    forall a: Attribute | a != BOLD
      ensures LastSetting([("BOLD", true)], a).None?
    {
      NamedFlag("BOLD", BOLD, a);
    }
  }

  /** The plan of a plain first `put`: nothing requested, but a reset all the same. */
  lemma PlainPlan()
    ensures PlanPut(NewBuffer(), NoColour, NoColour, []) == PutPlan({}, None, None, [ResetCode], None)
  {
    var b := NewBuffer();
    assert b == Buffer(None, None, {}, "", "");
    var scanned := ScanSettings([], Scan({}, [], false));
    assert scanned == (Scan({}, [], false), None);
    NothingNamed();
    var attributes: set<Attribute> := scanned.0.attributes * Named([]);
    assert attributes == {};
    assert ColourValue(NoColour) == Success(None);
    var afterFg := ColourStep(true, None, None, [], true);
    assert afterFg == ([], true);
    var afterBg := ColourStep(false, None, None, [], true);
    assert afterBg == ([], true);
    NoneActive();
  }

  /** No attribute is named in empty arguments, so not all of them are. */
  lemma NothingNamed()
    ensures Named([]) == {} && !AllNamed([])
  {
    assert LastSetting([], BOLD).None?;
  }

  /** With no flag set, the reset path's codes are the reset alone. */
  lemma NoneActive()
    ensures ResetCodes({}, None, None) == [ResetCode]
  {
    assert ActiveInOrder({}) == [] by {
      assert Members(ActiveInOrder({})) == {};
    }
  }

}
