/**
  The logic line as text (`_expression_to_logic` in scripts/docs/generate_rule_logic_docs.py): signal names, operators
  and plain values are printed without quotes, so different rules can share a text. A reader for the text shows
  which rules the text does identify.
 */
module RuleText {
  import opened Basics
  import opened Text
  import opened BatchRecord
  import opened RuleExpression
  import opened RulePrinter

  function TokenText(t: Token): string {
    match t
    case LPar => "("
    case RPar => ")"
    case Sep(conj) => if conj then " AND " else " OR "
    case NotWord => "NOT "
    case Empty(conj) => if conj then "(empty AND)" else "(empty OR)"
    case Atom(name, op, expected) => name + " " + op + " " + expected
    case Garbled(text) => text
  }

  /** The line as written to the page. */
  function LineText(ts: seq<Token>): string {
    if ts == [] then "" else TokenText(ts[0]) + LineText(ts[1..])
  }

  lemma LineTextCons(t: Token, ts: seq<Token>)
    ensures LineText([t] + ts) == TokenText(t) + LineText(ts)
  {
    assert ([t] + ts)[1..] == ts;
  }

  // --- A text that two rules share ---

  function Comparing(name: string, op: Scalar, expected: Scalar): Expr {
    Mapping(Compare, Str(name), op, expected, NotList, NotMapping)
  }

  function AllOf(items: seq<Expr>): Expr {
    Mapping(Junction(true), Missing, Missing, Missing, Items(items), NotMapping)
  }

  function TestText(op: Scalar, x: Scalar): string {
    " " + Display(op) + " " + FmtExpected(x)
  }

  function AtomOf(name: string, op: Scalar, x: Scalar): Token {
    Atom(name, Display(op), FmtExpected(x))
  }

  lemma GroupTest(name: string, op: string, x: string)
    ensures name + " " + op + " " + x == name + (" " + op + " " + x)
  {
  }

  lemma AtomText(name: string, op: Scalar, x: Scalar, rest: seq<Token>)
    ensures LineText([AtomOf(name, op, x)] + rest) == name + TestText(op, x) + LineText(rest)
  {
    LineTextCons(AtomOf(name, op, x), rest);
    GroupTest(name, Display(op), FmtExpected(x));
  }

  lemma RegroupText(a: string, b: string, test: string, tail: string)
    ensures (a + test + " AND " + b) + test + tail == a + test + (" AND " + (b + test + tail))
  {
  }

  lemma ImitatedText(a: string, b: string, op: Scalar, x: Scalar, rest: seq<Token>)
    ensures LineText([AtomOf(a + TestText(op, x) + " AND " + b, op, x)] + rest)
         == LineText([AtomOf(a, op, x)] + ([Sep(true)] + ([AtomOf(b, op, x)] + rest)))
  {
    var test, last := TestText(op, x), [AtomOf(b, op, x)] + rest;
    calc {
      LineText([AtomOf(a + test + " AND " + b, op, x)] + rest);
      { AtomText(a + test + " AND " + b, op, x, rest); }
      (a + test + " AND " + b) + test + LineText(rest);
      { RegroupText(a, b, test, LineText(rest)); }
      a + test + (" AND " + (b + test + LineText(rest)));
      { AtomText(b, op, x, rest); LineTextCons(Sep(true), last); }
      a + test + LineText([Sep(true)] + last);
      { AtomText(a, op, x, [Sep(true)] + last); }
      LineText([AtomOf(a, op, x)] + ([Sep(true)] + last));
    }
  }

  lemma PrintTwo(a: string, b: string, op: Scalar, x: Scalar)
    ensures Print(AllOf([Comparing(a, op, x), Comparing(b, op, x)]))
         == [LPar] + ([AtomOf(a, op, x)] + ([Sep(true)] + ([AtomOf(b, op, x)] + [RPar])))
  {
    var e, f := Comparing(a, op, x), Comparing(b, op, x);
    assert [e, f][1..] == [f] && [f][1..] == [];
    assert PrintRest([f], true) == [Sep(true), AtomOf(b, op, x)];
  }

  lemma PrintThree(a: string, b: string, c: string, op: Scalar, x: Scalar)
    ensures Print(AllOf([Comparing(a, op, x), Comparing(b, op, x), Comparing(c, op, x)]))
         == [LPar] + ([AtomOf(a, op, x)] + ([Sep(true)] + ([AtomOf(b, op, x)] + ([Sep(true), AtomOf(c, op, x), RPar]))))
  {
    var e, f, g := Comparing(a, op, x), Comparing(b, op, x), Comparing(c, op, x);
    assert [e, f, g][1..] == [f, g] && [f, g][1..] == [g] && [g][1..] == [];
    assert PrintRest([g], true) == [Sep(true), AtomOf(c, op, x)];
    assert PrintRest([f, g], true) == [Sep(true), AtomOf(b, op, x), Sep(true), AtomOf(c, op, x)];
  }

  /** A name that spells a comparison, " AND " and another name. */
  function Imitation(a: string, b: string, op: Scalar, x: Scalar): string {
    a + TestText(op, x) + " AND " + b
  }

  lemma ImitationNamed(a: string, b: string, op: Scalar, x: Scalar)
    requires a != "" && b != "" && Stripped(a) && Stripped(b)
    ensures Strip(Imitation(a, b, op, x)) == Imitation(a, b, op, x) && Imitation(a, b, op, x) != a
  {
    var name := Imitation(a, b, op, x);
    assert name[0] == a[0] && name[|name| - 1] == b[|b| - 1];
    StripKeepsStripped(name);
  }

  /** The rule of two comparisons, both on the signal whose name imitates a comparison on a. */
  function TwoParts(a: string, b: string, op: Scalar, x: Scalar): Expr {
    var n := Comparing(Imitation(a, b, op, x), op, x);
    AllOf([n, n])
  }

  /** The rule of three: on a, on b, and on the imitating signal. */
  function ThreeParts(a: string, b: string, op: Scalar, x: Scalar): Expr {
    AllOf([Comparing(a, op, x), Comparing(b, op, x), Comparing(Imitation(a, b, op, x), op, x)])
  }

  /**
    For all names, operators and values, a rule of two and a rule of three comparisons are well-formed and have one
    text, and there are signals under which the first holds and the second does not.
   */
  lemma NamesCanImitateConnectives(a: string, b: string, op: Scalar, x: Scalar)
    returns (holds: Comparison, env: Signals)
    requires a != "" && b != "" && Stripped(a) && Stripped(b)
    ensures WellFormed(TwoParts(a, b, op, x)) && WellFormed(ThreeParts(a, b, op, x))
    ensures LineText(Print(TwoParts(a, b, op, x))) == LineText(Print(ThreeParts(a, b, op, x)))
    ensures Truth(TwoParts(a, b, op, x), holds, env) && !Truth(ThreeParts(a, b, op, x), holds, env)
  {
    ImitationNamed(a, b, op, x);
    StripKeepsStripped(a);
    StripKeepsStripped(b);
    holds, env := (v: Scalar, _, _) => v == Null, s => if s == a then Missing else Null;
    assert Comparing(a, op, x) in ThreeParts(a, b, op, x).children.items;
    SharedText(a, b, op, x);
  }

  lemma SharedText(a: string, b: string, op: Scalar, x: Scalar)
    ensures LineText(Print(TwoParts(a, b, op, x))) == LineText(Print(ThreeParts(a, b, op, x)))
  {
    var name := Imitation(a, b, op, x);
    var rest := [Sep(true), AtomOf(name, op, x), RPar];
    PrintTwo(name, name, op, x);
    PrintThree(a, b, name, op, x);
    assert [Sep(true)] + ([AtomOf(name, op, x)] + [RPar]) == rest;
    ImitatedText(a, b, op, x, rest);
    LineTextCons(LPar, [AtomOf(name, op, x)] + rest);
    LineTextCons(LPar, [AtomOf(a, op, x)] + ([Sep(true)] + ([AtomOf(b, op, x)] + rest)));
  }

  // --- A reader for the text ---

  /** The length of a quoted string after its opening quote, the closing quote included. */
  function QuoteEnd(s: string): (r: Option<nat>)
    ensures r.Some? ==> 1 <= r.value <= |s|
  {
    if s == "" then None
    else if s[0] == '"' then Some(1)
    else if s[0] == '\\' then
      if |s| == 1 then None else match QuoteEnd(s[2..]) case Some(n) => Some(n + 2) case None => None
    else match QuoteEnd(s[1..]) case Some(n) => Some(n + 1) case None => None
  }

  /** The length of a value that is not quoted: up to a space, a closing parenthesis or the end. */
  function PlainEnd(s: string): (n: nat)
    ensures n <= |s|
  {
    if s == "" || s[0] == ' ' || s[0] == ')' then 0 else 1 + PlainEnd(s[1..])
  }

  predicate Opens(c: char) {
    c == '[' || c == '{'
  }

  predicate Closes(c: char) {
    c == ']' || c == '}'
  }

  /** The length of a list or mapping: up to where its brackets are closed again. */
  function ListEnd(s: string, depth: nat): (r: Option<nat>)
    ensures r.Some? ==> r.value <= |s|
  {
    if s == "" then None
    else if Closes(s[0]) && depth <= 1 then Some(1)
    else
      var deeper := if Opens(s[0]) then depth + 1 else if Closes(s[0]) then depth - 1 else depth;
      match ListEnd(s[1..], deeper) case Some(n) => Some(n + 1) case None => None
  }

  function ValueEnd(s: string): (r: Option<nat>)
    ensures r.Some? ==> r.value <= |s|
  {
    if s != "" && Opens(s[0]) then ListEnd(s, 0)
    else if s == "" || s[0] != '"' then Some(PlainEnd(s))
    else match QuoteEnd(s[1..]) case Some(n) => Some(n + 1) case None => None
  }

  /** Name, operator and value, and the length of all three. */
  function ReadAtom(s: string): (r: Option<(Token, nat)>)
    ensures r.Some? ==> 1 <= r.value.1 <= |s|
  {
    match IndexOf(s, ' ')
    case None => None
    case Some(i) =>
      match IndexOf(s[i + 1..], ' ')
      case None => None
      case Some(j) =>
        var value := s[i + 1..][j + 1..];
        match ValueEnd(value)
        case None => None
        case Some(n) => Some((Atom(s[..i], s[i + 1..][..j], value[..n]), i + 1 + j + 1 + n))
  }

  const EMPTY_AND := "(empty AND)"
  const EMPTY_OR := "(empty OR)"

  function ReadToken(s: string): (r: Option<(Token, nat)>)
    requires s != ""
    ensures r.Some? ==> 1 <= r.value.1 <= |s|
  {
    if s[0] == ' ' then
      if " AND " <= s then Some((Sep(true), 5)) else if " OR " <= s then Some((Sep(false), 4)) else None
    else if s[0] == '(' then
      if EMPTY_AND <= s then Some((Empty(true), 11))
      else if EMPTY_OR <= s then Some((Empty(false), 10))
      else Some((LPar, 1))
    else if s[0] == ')' then Some((RPar, 1))
    else if "NOT " <= s then Some((NotWord, 4))
    else ReadAtom(s)
  }

  function ReadLine(s: string): Option<seq<Token>> {
    if s == "" then Some([]) else
      match ReadToken(s)
      case None => None
      case Some((t, n)) =>
        match ReadLine(s[n..])
        case None => None
        case Some(ts) => Some([t] + ts)
  }

  // --- Lines that it reads back ---

  predicate CleanName(name: string) {
    name != "" && ' ' !in name && name[0] != '(' && name[0] != ')' && name != "NOT"
  }

  predicate CleanOp(op: string) {
    ' ' !in op && ')' !in op
  }

  /** A string, or a word, or a list or mapping whose brackets are closed at its end and not before. */
  predicate CleanValue(v: Scalar) {
    v.Other? ==>
      if Opens(v.text[0]) then ListEnd(v.text, 0) == Some(|v.text|) else ' ' !in v.text && ')' !in v.text
  }

  /** Names and operators are single words that look like no connective, and values end where they seem to. */
  predicate CleanRule(e: Expr)
    requires WellFormed(e)
    decreases e
  {
    match e.kind
    case Compare => CleanName(e.name.s) && CleanOp(Display(e.op)) && CleanValue(e.expected)
    case Not => CleanRule(e.child)
    case Junction(_) => forall c :: c in e.children.items ==> CleanRule(c)
  }

  /** The text after a value cannot run on into it. */
  predicate EndsValue(s: string) {
    s == "" || s[0] == ' ' || s[0] == ')'
  }

  ghost predicate CleanToken(t: Token) {
    match t
    case Atom(name, op, expected) =>
      CleanName(name) && CleanOp(op) && exists v :: CleanValue(v) && expected == FmtExpected(v)
    case Garbled(_) => false
    case _ => true
  }

  predicate EndsAtom(ts: seq<Token>) {
    ts == [] || ts[0].Sep? || ts[0].RPar?
  }

  ghost predicate CleanLine(ts: seq<Token>) {
    ts != [] ==> CleanToken(ts[0]) && (ts[0].Atom? ==> EndsAtom(ts[1..])) && CleanLine(ts[1..])
  }

  lemma {:induction false} SplitAtFirst(a: string, c: char, b: string)
    requires c !in a
    ensures IndexOf(a + [c] + b, c) == Some(|a|)
    ensures (a + [c] + b)[..|a|] == a && (a + [c] + b)[|a| + 1..] == b
  {
    if a == "" {
      assert (a + [c] + b)[0] == c;
    } else {
      assert (a + [c] + b)[1..] == a[1..] + [c] + b;
      SplitAtFirst(a[1..], c, b);
    }
  }

  lemma {:induction false} PlainEndAt(v: string, rest: string)
    requires ' ' !in v && ')' !in v && EndsValue(rest)
    ensures PlainEnd(v + rest) == |v|
  {
    if v == "" {
      assert v + rest == rest;
    } else {
      assert (v + rest)[1..] == v[1..] + rest;
      PlainEndAt(v[1..], rest);
    }
  }

  lemma {:induction false} ListEndAt(v: string, depth: nat, rest: string)
    requires ListEnd(v, depth) == Some(|v|)
    ensures ListEnd(v + rest, depth) == Some(|v|)
  {
    assert (v + rest)[1..] == v[1..] + rest;
    if !(Closes(v[0]) && depth <= 1) {
      ListEndAt(v[1..], if Opens(v[0]) then depth + 1 else if Closes(v[0]) then depth - 1 else depth, rest);
    }
  }

  function Longer(r: Option<nat>, n: nat): Option<nat> {
    match r case Some(m) => Some(m + n) case None => None
  }

  lemma QuoteSkips(c: char, s: string)
    requires c != '"' && c != '\\'
    ensures QuoteEnd([c] + s) == Longer(QuoteEnd(s), 1)
  {
    assert ([c] + s)[1..] == s;
  }

  lemma QuoteSkipsEscaped(c: char, s: string)
    ensures QuoteEnd(['\\', c] + s) == Longer(QuoteEnd(s), 2)
  {
    assert (['\\', c] + s)[2..] == s;
  }

  lemma QuoteSkipsTwo(a: char, b: char, s: string)
    requires a != '"' && a != '\\' && b != '"' && b != '\\'
    ensures QuoteEnd([a, b] + s) == Longer(QuoteEnd(s), 2)
  {
    QuoteSkips(b, s);
    QuoteSkips(a, [b] + s);
    assert [a, b] + s == [a] + ([b] + s);
  }

  lemma QuoteSkipsHex(a: char, b: char, s: string)
    requires a != '"' && a != '\\' && b != '"' && b != '\\'
    ensures QuoteEnd(['\\', 'u', '0', '0', a, b] + s) == Longer(QuoteEnd(s), 6)
  {
    var t := [a, b] + s;
    QuoteSkipsTwo(a, b, s);
    QuoteSkipsTwo('0', '0', t);
    QuoteSkipsEscaped('u', ['0', '0'] + t);
    assert ['\\', 'u', '0', '0', a, b] + s == ['\\', 'u'] + (['0', '0'] + t);
  }

  lemma EscapeShape(c: char)
    ensures var r := EscapeChar(c);
            || (c != '"' && c != '\\' && r == [c])
            || (|r| == 2 && r == ['\\', r[1]])
            || (|r| == 6 && r == ['\\', 'u', '0', '0', r[4], r[5]]
                && r[4] != '"' && r[4] != '\\' && r[5] != '"' && r[5] != '\\')
  {
  }

  lemma QuoteSkipsChar(c: char, r: string, s: string)
    requires r == EscapeChar(c)
    ensures QuoteEnd(r + s) == Longer(QuoteEnd(s), |r|)
  {
    EscapeShape(c);
    if |r| == 1 {
      QuoteSkips(c, s);
    } else if |r| == 2 {
      QuoteSkipsEscaped(r[1], s);
    } else {
      QuoteSkipsHex(r[4], r[5], s);
    }
  }

  lemma QuoteEndStep(c: char, one: string, more: string, rest: string)
    requires one == EscapeChar(c) && QuoteEnd(more + "\"" + rest) == Some(|more| + 1)
    ensures QuoteEnd((one + more) + "\"" + rest) == Some(|one + more| + 1)
  {
    RegroupEscape(one, more, rest);
    QuoteSkipsChar(c, one, more + "\"" + rest);
  }

  lemma {:induction false} QuoteEndAt(v: string, rest: string)
    ensures QuoteEnd(Escape(v) + "\"" + rest) == Some(|Escape(v)| + 1)
  {
    if v == "" {
      assert Escape(v) + "\"" + rest == "\"" + rest;
    } else {
      var one, more := EscapeChar(v[0]), Escape(v[1..]);
      QuoteEndAt(v[1..], rest);
      QuoteEndStep(v[0], one, more, rest);
      assert Escape(v) == one + more;
    }
  }

  lemma RegroupEscape(one: string, more: string, rest: string)
    ensures (one + more) + "\"" + rest == one + (more + "\"" + rest)
  {
  }

  lemma StringEndAt(x: string, rest: string)
    ensures ValueEnd(Quote(x) + rest) == Some(|Quote(x)|)
  {
    QuoteEndAt(x, rest);
    assert (Quote(x) + rest)[1..] == Escape(x) + "\"" + rest;
    assert (Quote(x) + rest)[0] == '"';
  }

  lemma ListValueEndAt(text: string, rest: string)
    requires text != "" && Opens(text[0]) && ListEnd(text, 0) == Some(|text|)
    ensures ValueEnd(text + rest) == Some(|text|)
  {
    ListEndAt(text, 0, rest);
    assert (text + rest)[0] == text[0];
  }

  lemma PlainValueEndAt(text: string, rest: string)
    requires text != "" && text[0] != '"' && !Opens(text[0]) && ' ' !in text && ')' !in text && EndsValue(rest)
    ensures ValueEnd(text + rest) == Some(|text|)
  {
    PlainEndAt(text, rest);
    assert (text + rest)[0] == text[0];
  }

  lemma ValueEndAt(v: Scalar, rest: string)
    requires CleanValue(v) && EndsValue(rest)
    ensures ValueEnd(FmtExpected(v) + rest) == Some(|FmtExpected(v)|)
  {
    if v.Str? {
      StringEndAt(v.s, rest);
    } else if v.Other? && Opens(v.text[0]) {
      ListValueEndAt(v.text, rest);
    } else {
      PlainText(v);
      PlainValueEndAt(FmtExpected(v), rest);
    }
  }

  lemma PlainText(v: Scalar)
    requires CleanValue(v) && !v.Str? && !(v.Other? && Opens(v.text[0]))
    ensures var text := FmtExpected(v);
            text != "" && text[0] != '"' && !Opens(text[0]) && ' ' !in text && ')' !in text
  {
  }

  lemma RegroupAtom(name: string, op: string, value: string, rest: string)
    ensures name + " " + op + " " + value + rest == name + [' '] + (op + [' '] + (value + rest))
  {
  }

  lemma ReadParts(s: string, name: string, op: string, x: string, value: string)
    requires ' ' !in name && ' ' !in op && s == name + [' '] + (op + [' '] + value)
    requires ValueEnd(value) == Some(|x|) && x <= value
    ensures ReadAtom(s) == Some((Atom(name, op, x), |name| + 1 + |op| + 1 + |x|))
  {
    var t := op + [' '] + value;
    SplitAtFirst(name, ' ', t);
    SplitAtFirst(op, ' ', value);
    assert IndexOf(s, ' ') == Some(|name|) && s[..|name|] == name && s[|name| + 1..] == t;
    assert IndexOf(t, ' ') == Some(|op|) && t[..|op|] == op && t[|op| + 1..] == value;
    assert value[..|x|] == x;
  }

  lemma ReadAtomText(name: string, op: string, x: string, rest: string)
    requires ' ' !in name && ' ' !in op && ValueEnd(x + rest) == Some(|x|)
    ensures ReadAtom(TokenText(Atom(name, op, x)) + rest) == Some((Atom(name, op, x), |TokenText(Atom(name, op, x))|))
  {
    RegroupAtom(name, op, x, rest);
    ReadParts(TokenText(Atom(name, op, x)) + rest, name, op, x, x + rest);
  }

  // --- Each token of a clean line is read back ---

  lemma EmptyGroupChars(s: string)
    ensures EMPTY_AND <= s ==>
              |s| > 10 && s[6] == ' ' && s[10] == ')' && ' ' !in s[1..6] && ' ' !in s[7..10] && ')' !in s[1..10]
    ensures EMPTY_OR <= s ==>
              |s| > 9 && s[6] == ' ' && s[9] == ')' && ' ' !in s[1..6] && ' ' !in s[7..9] && ')' !in s[1..9]
  {
    if EMPTY_AND <= s { assert s[..11] == EMPTY_AND && s[1..10] == EMPTY_AND[1..10] == "empty AND"; }
    if EMPTY_OR <= s { assert s[..10] == EMPTY_OR && s[1..9] == EMPTY_OR[1..9] == "empty OR"; }
  }

  /** An opening parenthesis before a clean token is not mistaken for an empty group. */
  lemma NotEmptyGroup(s: string, name: string, op: string, rest: string)
    requires CleanName(name) && CleanOp(op) && s == "(" + (name + [' '] + (op + [' '] + rest))
    ensures !(EMPTY_AND <= s) && !(EMPTY_OR <= s)
  {
    var n, m := |name|, |op|;
    assert s[1 + n] == ' ' && s[2 + n + m] == ' ';
    assert forall i :: 0 <= i < n ==> s[1 + i] == name[i] && s[1 + i] != ' ';
    assert forall i :: 0 <= i < m ==> s[2 + n + i] == op[i] && s[2 + n + i] != ' ' && s[2 + n + i] != ')';
    EmptyGroupChars(s);
  }

  lemma NotWordChars(s: string)
    ensures "NOT " <= s ==> |s| > 3 && s[0] == 'N' && s[1] == 'O' && s[2] == 'T' && s[3] == ' '
  {
  }

  lemma NotTheWordNot(name: string, rest: string)
    requires CleanName(name)
    ensures !("NOT " <= name + [' '] + rest)
  {
    var s := name + [' '] + rest;
    assert forall i :: 0 <= i < |name| ==> s[i] == name[i];
    assert s[|name|] == ' ';
    assert |name| == 3 ==> name == [s[0], s[1], s[2]];
    NotWordChars(s);
  }

  /** How a clean line goes on. */
  lemma FirstChar(ts: seq<Token>)
    requires CleanLine(ts) && ts != []
    ensures LineText(ts) != "" && TokenText(ts[0]) != "" && LineText(ts)[0] == TokenText(ts[0])[0]
  {
  }

  lemma ReadOpening(ts: seq<Token>)
    requires CleanLine(ts)
    ensures ReadToken("(" + LineText(ts)) == Some((LPar, 1))
  {
    var s := "(" + LineText(ts);
    if ts == [] {
      assert |s| == 1;
    } else if ts[0].Atom? {
      var Atom(name, op, x) := ts[0];
      RegroupAtom(name, op, x, LineText(ts[1..]));
      NotEmptyGroup(s, name, op, x + LineText(ts[1..]));
    } else {
      FirstChar(ts);
      assert s[1] == LineText(ts)[0];
      assert s[1] != 'e';
    }
  }

  lemma ReadCleanAtom(t: Token, rest: string)
    requires t.Atom? && CleanToken(t) && EndsValue(rest)
    ensures ReadToken(TokenText(t) + rest) == Some((t, |TokenText(t)|))
  {
    var Atom(name, op, x) := t;
    var v :| CleanValue(v) && x == FmtExpected(v);
    RegroupAtom(name, op, x, rest);
    NotTheWordNot(name, op + [' '] + (x + rest));
    ValueEndAt(v, rest);
    ReadAtomText(name, op, x, rest);
    assert (TokenText(t) + rest)[0] == name[0];
  }

  lemma ReadFixedText(t: Token, rest: string)
    requires t.RPar? || t.Sep? || t.NotWord? || t.Empty?
    ensures ReadToken(TokenText(t) + rest) == Some((t, |TokenText(t)|))
  {
    var s := TokenText(t) + rest;
    assert TokenText(t) <= s;
    assert s[0] == TokenText(t)[0];
    if t == Sep(false) { assert s[1] == 'O'; }
    if t == Empty(false) { assert s[7] == 'O'; }
  }

  lemma ReadFirst(ts: seq<Token>)
    requires CleanLine(ts) && ts != []
    ensures ReadToken(LineText(ts)) == Some((ts[0], |TokenText(ts[0])|))
  {
    var t, rest := ts[0], LineText(ts[1..]);
    if t.LPar? {
      ReadOpening(ts[1..]);
    } else if t.Atom? {
      if ts[1..] != [] { FirstChar(ts[1..]); }
      ReadCleanAtom(t, rest);
    } else {
      ReadFixedText(t, rest);
    }
  }

  lemma DropText(ts: seq<Token>)
    requires ts != []
    ensures LineText(ts)[|TokenText(ts[0])|..] == LineText(ts[1..])
  {
  }

  lemma ReadLineCons(s: string, t: Token, n: nat, ts: seq<Token>)
    requires s != "" && ReadToken(s) == Some((t, n)) && ReadLine(s[n..]) == Some(ts)
    ensures ReadLine(s) == Some([t] + ts)
  {
  }

  lemma ReadLineStep(ts: seq<Token>)
    requires CleanLine(ts) && ts != [] && ReadLine(LineText(ts[1..])) == Some(ts[1..])
    ensures ReadLine(LineText(ts)) == Some(ts)
  {
    FirstChar(ts);
    ReadFirst(ts);
    DropText(ts);
    ReadLineCons(LineText(ts), ts[0], |TokenText(ts[0])|, ts[1..]);
    assert ts == [ts[0]] + ts[1..];
  }

  /** Reading the text of a clean line gives back its tokens. */
  lemma {:induction false} ReadLineText(ts: seq<Token>)
    requires CleanLine(ts)
    ensures ReadLine(LineText(ts)) == Some(ts)
  {
    if ts != [] {
      ReadLineText(ts[1..]);
      ReadLineStep(ts);
    }
  }

  // --- Clean rules print clean lines ---

  lemma {:induction false} CleanLinesJoin(xs: seq<Token>, ys: seq<Token>)
    requires CleanLine(xs) && CleanLine(ys) && EndsAtom(ys)
    ensures CleanLine(xs + ys)
  {
    if xs == [] {
      assert xs + ys == ys;
    } else {
      CleanLinesJoin(xs[1..], ys);
      assert (xs + ys)[1..] == xs[1..] + ys;
    }
  }

  lemma CleanCons(t: Token, ts: seq<Token>)
    requires CleanToken(t) && !t.Atom? && CleanLine(ts)
    ensures CleanLine([t] + ts)
  {
    assert ([t] + ts)[1..] == ts;
  }

  lemma CleanLeaf(name: string, op: string, v: Scalar)
    requires CleanName(name) && CleanOp(op) && CleanValue(v)
    ensures CleanLine([Atom(name, op, FmtExpected(v))])
  {
    assert [Atom(name, op, FmtExpected(v))][1..] == [];
  }

  lemma Closing()
    ensures CleanLine([RPar]) && EndsAtom([RPar])
  {
    assert [RPar][1..] == [];
  }

  lemma CleanNegation(inner: seq<Token>)
    requires CleanLine(inner)
    ensures CleanLine([NotWord, LPar] + inner + [RPar])
  {
    Closing();
    CleanLinesJoin(inner, [RPar]);
    CleanCons(LPar, inner + [RPar]);
    CleanCons(NotWord, [LPar] + (inner + [RPar]));
    assert [NotWord, LPar] + inner + [RPar] == [NotWord] + ([LPar] + (inner + [RPar]));
  }

  lemma {:induction false} CleanRulePrintsClean(e: Expr)
    requires WellFormed(e) && CleanRule(e)
    ensures CleanLine(Print(e))
    decreases e, 1
  {
    match e.kind
    case Compare => CleanLeaf(e.name.s, Display(e.op), e.expected);
    case Not =>
      CleanRulePrintsClean(e.child);
      CleanNegation(Print(e.child));
    case Junction(conj) =>
      var items := e.children.items;
      if items == [] {
        CleanCons(Empty(conj), []);
      } else if |items| == 1 {
        CleanRulePrintsClean(items[0]);
      } else {
        CleanGroup(items, conj);
      }
  }

  lemma {:induction false} CleanGroup(items: seq<Expr>, conj: bool)
    requires |items| > 1 && forall c :: c in items ==> WellFormed(c) && CleanRule(c)
    ensures CleanLine([LPar] + Print(items[0]) + PrintRest(items[1..], conj) + [RPar])
    decreases items, 0
  {
    var first, rest := Print(items[0]), PrintRest(items[1..], conj);
    CleanRulePrintsClean(items[0]);
    CleanRest(items[1..], conj);
    Closing();
    CleanLinesJoin(rest, [RPar]);
    CleanLinesJoin(first, rest + [RPar]);
    CleanCons(LPar, first + (rest + [RPar]));
    assert [LPar] + first + rest + [RPar] == [LPar] + (first + (rest + [RPar]));
  }

  lemma {:induction false} CleanRest(es: seq<Expr>, conj: bool)
    requires forall c :: c in es ==> WellFormed(c) && CleanRule(c)
    ensures CleanLine(PrintRest(es, conj)) && EndsAtom(PrintRest(es, conj))
    decreases es, 0
  {
    if es != [] {
      var rest := PrintRest(es[1..], conj);
      CleanRulePrintsClean(es[0]);
      CleanRest(es[1..], conj);
      CleanLinesJoin(Print(es[0]), rest);
      CleanCons(Sep(conj), Print(es[0]) + rest);
      assert PrintRest(es, conj) == [Sep(conj)] + (Print(es[0]) + rest);
    }
  }

  /** The text of a clean rule gives back its tokens, and from them the rule, singletons collapsed. */
  lemma ReadCleanRule(e: Expr)
    requires WellFormed(e) && CleanRule(e)
    ensures ReadLine(LineText(Print(e))) == Some(Print(e))
    ensures ParseLogic(ReadLine(LineText(Print(e))).value) == Parses(Collapse(e), [])
  {
    CleanRulePrintsClean(e);
    ReadLineText(Print(e));
    ParsePrinted(e, []);
    assert Print(e) + [] == Print(e);
  }

  /** Clean rules have one text exactly when they collapse to one expression, and then they agree everywhere. */
  lemma EqualTextsExactly(e: Expr, e': Expr, holds: Comparison, env: Signals)
    requires WellFormed(e) && WellFormed(e') && CleanRule(e) && CleanRule(e')
    ensures LineText(Print(e)) == LineText(Print(e')) <==> Collapse(e) == Collapse(e')
    ensures LineText(Print(e)) == LineText(Print(e')) ==> Truth(e, holds, env) == Truth(e', holds, env)
  {
    ReadCleanRule(e);
    ReadCleanRule(e');
    EqualLinesExactly(e, e');
    if Print(e) == Print(e') { EqualLinesEquivalent(e, e', holds, env); }
  }

  // --- Only rules that are not clean can imitate a clean one ---

  predicate CleanLogic(l: Logic) {
    match l
    case Leaf(name, op, expected) => CleanName(name) && CleanOp(op) && CleanValue(expected)
    case Negation(inner) => CleanLogic(inner)
    case Group(_, parts) => forall i :: 0 <= i < |parts| ==> CleanLogic(parts[i])
  }

  lemma {:induction false} CleanCollapsed(e: Expr)
    requires WellFormed(e)
    ensures CleanRule(e) <==> CleanLogic(Collapse(e))
    decreases e
  {
    match e.kind
    case Compare =>
    case Not => CleanCollapsed(e.child);
    case Junction(_) =>
      var items := e.children.items;
      forall i | 0 <= i < |items|
        ensures CleanRule(items[i]) <==> CleanLogic(Collapse(items[i]))
        ensures CollapseAll(items)[i] == Collapse(items[i])
      {
        CleanCollapsed(items[i]);
        CollapseAllAt(items, i);
      }
      if |items| == 1 {
        assert items == [items[0]];
      } else {
        assert CleanRule(e) == forall i :: 0 <= i < |items| ==> CleanRule(items[i]);
      }
  }

  /** A rule with the text of a clean rule says the same exactly when it is clean itself. */
  lemma TextIdentifiesExactly(e: Expr, e': Expr)
    requires WellFormed(e) && WellFormed(e') && CleanRule(e)
    requires LineText(Print(e)) == LineText(Print(e'))
    ensures Collapse(e) == Collapse(e') <==> CleanRule(e')
  {
    CleanCollapsed(e);
    CleanCollapsed(e');
    if CleanRule(e') {
      ReadCleanRule(e);
      ReadCleanRule(e');
    }
  }
}
