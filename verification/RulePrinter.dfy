/**
  The logic line of a rule (`_expression_to_logic`, `_fmt_expected` in
  scripts/docs/generate_rule_logic_docs.py), as the tokens it is made of, and a parser for it.
 */
module RulePrinter {
  import opened Basics
  import opened Text
  import opened BatchRecord
  import opened RuleExpression

  // --- JSON strings, as `json.dumps(value, ensure_ascii=False)` writes them ---

  function EscapeChar(c: char): (r: string)
    ensures r != ""
    ensures '"' in r ==> r == "\\\""
  {
    if c == '"' then "\\\""
    else if c == '\\' then "\\\\"
    else if c == '\n' then "\\n"
    else if c == '\r' then "\\r"
    else if c == '\t' then "\\t"
    else if c == 8 as char then "\\b"
    else if c == 12 as char then "\\f"
    else if c < ' ' then ['\\', 'u', '0', '0', HexDigit(c as nat / 16), HexDigit(c as nat % 16)]
    else [c]
  }

  function Escape(s: string): string {
    if s == "" then "" else EscapeChar(s[0]) + Escape(s[1..])
  }

  function Quote(s: string): string {
    "\"" + Escape(s) + "\""
  }

  function UnescapeOne(s: string): (r: Option<(char, nat)>)
    ensures r.Some? ==> 1 <= r.value.1 <= |s|
  {
    if s == "" then None
    else if s[0] != '\\' then Some((s[0], 1))
    else if |s| == 1 then None
    else match s[1]
      case '"' => Some(('"', 2))
      case '\\' => Some(('\\', 2))
      case 'n' => Some(('\n', 2))
      case 'r' => Some(('\r', 2))
      case 't' => Some(('\t', 2))
      case 'b' => Some((8 as char, 2))
      case 'f' => Some((12 as char, 2))
      case 'u' =>
        if |s| < 6 || s[2] != '0' || s[3] != '0' then None
        else (match (HexValue(s[4]), HexValue(s[5]))
              case (Some(hi), Some(lo)) => Some(((16 * hi + lo) as char, 6))
              case _ => None)
      case _ => None
  }

  function Unescape(s: string): Option<string> {
    if s == "" then Some("") else
      match UnescapeOne(s)
      case None => None
      case Some((c, n)) =>
        match Unescape(s[n..])
        case None => None
        case Some(rest) => Some([c] + rest)
  }

  lemma UnescapeFirst(c: char, rest: string)
    ensures UnescapeOne(EscapeChar(c) + rest) == Some((c, |EscapeChar(c)|))
  {
    if c < ' ' {
      var hi, lo := c as nat / 16, c as nat % 16;
      assert 16 * hi + lo == c as nat;
    }
  }

  lemma {:induction false} UnescapeEscaped(s: string)
    ensures Unescape(Escape(s)) == Some(s)
  {
    if s != "" {
      var one := EscapeChar(s[0]);
      UnescapeFirst(s[0], Escape(s[1..]));
      assert Escape(s)[|one|..] == Escape(s[1..]);
      UnescapeEscaped(s[1..]);
      assert s == [s[0]] + s[1..];
    }
  }

  function FmtExpected(v: Scalar): string {
    match v
    case Str(s) => Quote(s)
    case Missing => "null"
    case Null => "null"
    case Bool(b) => if b then "true" else "false"
    case Other(t) => t
  }

  function ReadExpected(text: string): Option<Scalar> {
    if text == "" then None
    else if text == "null" then Some(Null)
    else if text == "true" then Some(Bool(true))
    else if text == "false" then Some(Bool(false))
    else if text[0] != '"' then Some(Other(text))
    else if |text| == 1 then None
    else match Unescape(text[1..|text| - 1])
      case Some(s) => Some(Str(s))
      case None => None
  }

  /** The printed value determines the expected value. */
  lemma ReadFormatted(v: Scalar)
    ensures ReadExpected(FmtExpected(v)) == Some(Present(v))
  {
    if v.Str? {
      UnescapeEscaped(v.s);
      assert Quote(v.s)[1..|Quote(v.s)| - 1] == Escape(v.s);
    }
  }

  // --- The printer ---

  datatype Token =
    | LPar | RPar
    | Sep(conjunctive: bool)
    | NotWord
    | Empty(conjunctive: bool)
    | Atom(name: string, op: string, expected: string)
    | Garbled(text: string)

  function Print(e: Expr): seq<Token>
    decreases e, 1
  {
    if e.NotMapping? then [Garbled("?")]
    else match e.kind
      case Compare => [Atom(Display(e.name), Display(e.op), FmtExpected(e.expected))]
      case Junction(conj) =>
        if e.children.NotList? || e.children.items == [] then [Empty(conj)]
        else
          var items := e.children.items;
          if |items| > 1 then [LPar] + Print(items[0]) + PrintRest(items[1..], conj) + [RPar]
          else Print(items[0])
      case Not => [NotWord, LPar] + Print(e.child) + [RPar]
      case Unknown(text) => [Garbled("<" + (if text == "" then "unknown" else text) + ">")]
  }

  /** The parts after the first, each after a separator. */
  function PrintRest(es: seq<Expr>, conj: bool): seq<Token>
    decreases es, 0
  {
    if es == [] then [] else [Sep(conj)] + Print(es[0]) + PrintRest(es[1..], conj)
  }

  // --- Expressions with singleton AND and OR collapsed ---

  datatype Logic =
    | Leaf(name: string, op: string, expected: Scalar)
    | Group(conjunctive: bool, parts: seq<Logic>)
    | Negation(inner: Logic)

  function Collapse(e: Expr): Logic
    requires WellFormed(e)
    decreases e, 1
  {
    match e.kind
    case Compare => Leaf(e.name.s, Display(e.op), Present(e.expected))
    case Junction(conj) =>
      if |e.children.items| == 1 then Collapse(e.children.items[0])
      else Group(conj, CollapseAll(e.children.items))
    case Not => Negation(Collapse(e.child))
  }

  function CollapseAll(es: seq<Expr>): (r: seq<Logic>)
    requires forall c :: c in es ==> WellFormed(c)
    ensures |r| == |es|
    decreases es, 0
  {
    if es == [] then [] else [Collapse(es[0])] + CollapseAll(es[1..])
  }

  lemma {:induction false} CollapseAllAt(es: seq<Expr>, i: nat)
    requires (forall c :: c in es ==> WellFormed(c)) && i < |es|
    ensures CollapseAll(es)[i] == Collapse(es[i])
  {
    if i > 0 { CollapseAllAt(es[1..], i - 1); }
  }

  function LogicTruth(l: Logic, holds: Comparison, env: Signals): bool {
    match l
    case Leaf(name, op, expected) => holds(env(Strip(name)), op, expected)
    case Negation(inner) => !LogicTruth(inner, holds, env)
    case Group(conj, parts) =>
      if conj
      then forall i :: 0 <= i < |parts| ==> LogicTruth(parts[i], holds, env)
      else exists i :: 0 <= i < |parts| && LogicTruth(parts[i], holds, env)
  }

  /** Collapsing keeps the meaning. */
  lemma {:induction false} CollapseKeepsTruth(e: Expr, holds: Comparison, env: Signals)
    requires WellFormed(e)
    ensures LogicTruth(Collapse(e), holds, env) == Truth(e, holds, env)
    decreases e
  {
    match e.kind
    case Compare =>
    case Not => CollapseKeepsTruth(e.child, holds, env);
    case Junction(conj) =>
      var items := e.children.items;
      forall i | 0 <= i < |items|
        ensures LogicTruth(Collapse(items[i]), holds, env) == Truth(items[i], holds, env)
        ensures CollapseAll(items)[i] == Collapse(items[i])
      {
        CollapseKeepsTruth(items[i], holds, env);
        CollapseAllAt(items, i);
      }
      if |items| == 1 {
        assert items == [items[0]];
      } else if conj {
        assert Truth(e, holds, env) == forall i :: 0 <= i < |items| ==> Truth(items[i], holds, env);
      } else {
        assert Truth(e, holds, env) == exists i :: 0 <= i < |items| && Truth(items[i], holds, env);
      }
  }

  // --- A parser for the line ---

  datatype Parsed<T> = Fails | Parses(value: T, rest: seq<Token>)

  function ParseLogic(ts: seq<Token>): (r: Parsed<Logic>)
    ensures r.Parses? ==> |r.rest| < |ts|
    decreases |ts|, 1
  {
    if ts == [] then Fails
    else match ts[0]
      case Atom(name, op, expected) =>
        (match ReadExpected(expected)
         case Some(v) => Parses(Leaf(name, op, v), ts[1..])
         case None => Fails)
      case Empty(conj) => Parses(Group(conj, []), ts[1..])
      case NotWord =>
        if |ts| < 2 || ts[1] != LPar then Fails
        else (match ParseLogic(ts[2..])
              case Parses(inner, rest) =>
                if rest != [] && rest[0] == RPar then Parses(Negation(inner), rest[1..]) else Fails
              case Fails => Fails)
      case LPar =>
        (match ParseLogic(ts[1..])
         case Parses(first, rest) =>
           if rest == [] || !rest[0].Sep? then Fails
           else (match ParseRest(rest, rest[0].conjunctive)
                 case Parses(more, rest') => Parses(Group(rest[0].conjunctive, [first] + more), rest')
                 case Fails => Fails)
         case Fails => Fails)
      case _ => Fails
  }

  function ParseRest(ts: seq<Token>, conj: bool): (r: Parsed<seq<Logic>>)
    ensures r.Parses? ==> |r.rest| < |ts|
    decreases |ts|, 0
  {
    if ts == [] then Fails
    else if ts[0] == RPar then Parses([], ts[1..])
    else if ts[0] != Sep(conj) then Fails
    else match ParseLogic(ts[1..])
      case Parses(first, rest) =>
        (match ParseRest(rest, conj)
         case Parses(more, rest') => Parses([first] + more, rest')
         case Fails => Fails)
      case Fails => Fails
  }

  lemma ParseAtom(name: string, op: string, expected: Scalar, tail: seq<Token>)
    ensures ParseLogic([Atom(name, op, FmtExpected(expected))] + tail)
        == Parses(Leaf(name, op, Present(expected)), tail)
  {
    ReadFormatted(expected);
    assert ([Atom(name, op, FmtExpected(expected))] + tail)[1..] == tail;
  }

  lemma ParseNegation(inner: seq<Token>, tail: seq<Token>, value: Logic)
    requires ParseLogic(inner + ([RPar] + tail)) == Parses(value, [RPar] + tail)
    ensures ParseLogic([NotWord, LPar] + inner + [RPar] + tail) == Parses(Negation(value), tail)
  {
    var ts := [NotWord, LPar] + inner + [RPar] + tail;
    assert ts[2..] == inner + ([RPar] + tail);
    assert ([RPar] + tail)[1..] == tail;
  }

  /** Parsing the printed line of a well-formed rule gives back the rule, singletons collapsed. */
  lemma {:induction false} ParsePrinted(e: Expr, tail: seq<Token>)
    requires WellFormed(e)
    ensures ParseLogic(Print(e) + tail) == Parses(Collapse(e), tail)
    decreases e, 1
  {
    match e.kind
    case Compare => ParseAtom(e.name.s, Display(e.op), e.expected, tail);
    case Not =>
      ParsePrinted(e.child, [RPar] + tail);
      ParseNegation(Print(e.child), tail, Collapse(e.child));
    case Junction(conj) =>
      var items := e.children.items;
      if items == [] {
        assert ([Empty(conj)] + tail)[1..] == tail;
      } else if |items| == 1 {
        ParsePrinted(items[0], tail);
      } else {
        ParsePrintedGroup(items, conj, tail);
      }
  }

  lemma {:induction false} ParsePrintedGroup(items: seq<Expr>, conj: bool, tail: seq<Token>)
    requires |items| > 1 && forall c :: c in items ==> WellFormed(c)
    ensures ParseLogic([LPar] + Print(items[0]) + PrintRest(items[1..], conj) + [RPar] + tail)
         == Parses(Group(conj, CollapseAll(items)), tail)
    decreases items, 0
  {
    var ts := [LPar] + Print(items[0]) + PrintRest(items[1..], conj) + [RPar] + tail;
    var after := PrintRest(items[1..], conj) + [RPar] + tail;
    assert ts[1..] == Print(items[0]) + after;
    ParsePrinted(items[0], after);
    assert after[0] == Sep(conj);
    ParsePrintedRest(items[1..], conj, tail);
  }

  lemma {:induction false} ParsePrintedRest(es: seq<Expr>, conj: bool, tail: seq<Token>)
    requires forall c :: c in es ==> WellFormed(c)
    ensures ParseRest(PrintRest(es, conj) + [RPar] + tail, conj) == Parses(CollapseAll(es), tail)
    decreases es, 0
  {
    var ts := PrintRest(es, conj) + [RPar] + tail;
    if es == [] {
      assert ts[1..] == tail;
    } else {
      var after := PrintRest(es[1..], conj) + [RPar] + tail;
      assert ts[1..] == Print(es[0]) + after;
      ParsePrinted(es[0], after);
      ParsePrintedRest(es[1..], conj, tail);
    }
  }

  /** Rules with equal lines agree for every comparison and all signals. */
  lemma EqualLinesEquivalent(e: Expr, e': Expr, holds: Comparison, env: Signals)
    requires WellFormed(e) && WellFormed(e')
    requires Print(e) == Print(e')
    ensures Truth(e, holds, env) == Truth(e', holds, env)
  {
    ParsePrinted(e, []);
    ParsePrinted(e', []);
    CollapseKeepsTruth(e, holds, env);
    CollapseKeepsTruth(e', holds, env);
  }

  // --- The line says no more than the collapsed expression ---

  function Render(l: Logic): seq<Token>
    decreases l, 1
  {
    match l
    case Leaf(name, op, expected) => [Atom(name, op, FmtExpected(expected))]
    case Negation(inner) => [NotWord, LPar] + Render(inner) + [RPar]
    case Group(conj, parts) =>
      if parts == [] then [Empty(conj)]
      else [LPar] + Render(parts[0]) + RenderRest(parts[1..], conj) + [RPar]
  }

  function RenderRest(ls: seq<Logic>, conj: bool): seq<Token>
    decreases ls, 0
  {
    if ls == [] then [] else [Sep(conj)] + Render(ls[0]) + RenderRest(ls[1..], conj)
  }

  lemma {:induction false} PrintIsRender(e: Expr)
    requires WellFormed(e)
    ensures Print(e) == Render(Collapse(e))
    decreases e, 1
  {
    match e.kind
    case Compare =>
    case Not => PrintIsRender(e.child);
    case Junction(conj) =>
      var items := e.children.items;
      if items != [] {
        PrintIsRender(items[0]);
        PrintRestIsRender(items[1..], conj);
        assert |items| > 1 ==> CollapseAll(items)[1..] == CollapseAll(items[1..]);
      }
  }

  lemma {:induction false} PrintRestIsRender(es: seq<Expr>, conj: bool)
    requires forall c :: c in es ==> WellFormed(c)
    ensures PrintRest(es, conj) == RenderRest(CollapseAll(es), conj)
    decreases es, 0
  {
    if es != [] {
      PrintIsRender(es[0]);
      PrintRestIsRender(es[1..], conj);
      assert CollapseAll(es)[1..] == CollapseAll(es[1..]);
    }
  }

  /** Two well-formed rules print the same line exactly when they collapse to the same expression. */
  lemma EqualLinesExactly(e: Expr, e': Expr)
    requires WellFormed(e) && WellFormed(e')
    ensures Print(e) == Print(e') <==> Collapse(e) == Collapse(e')
  {
    ParsePrinted(e, []);
    ParsePrinted(e', []);
    PrintIsRender(e);
    PrintIsRender(e');
  }
}
