/**
  The logic line as the program builds it, text by text (`_expression_to_logic` in
  scripts/docs/generate_rule_logic_docs.py), for every tree: also for one with faults, whose record and page are
  written all the same.
 */
module RuleLogic {
  import opened Basics
  import opened RuleExpression
  import opened RulePrinter
  import opened RuleText

  /** `sep.join(parts)` */
  function Join(sep: string, parts: seq<string>): string {
    if parts == [] then "" else if |parts| == 1 then parts[0] else parts[0] + sep + Join(sep, parts[1..])
  }

  function LogicText(e: Expr): string
    decreases e, 1
  {
    if e.NotMapping? then "?"
    else match e.kind
      case Compare => Display(e.name) + " " + Display(e.op) + " " + FmtExpected(e.expected)
      case Junction(conj) =>
        if e.children.NotList? || e.children.items == [] then (if conj then "(empty AND)" else "(empty OR)")
        else
          var parts := LogicTexts(e.children.items);
          var joined := Join(if conj then " AND " else " OR ", parts);
          if |parts| > 1 then "(" + joined + ")" else parts[0]
      case Not => "NOT (" + LogicText(e.child) + ")"
      case Unknown(text) => "<" + (if text != "" then text else "unknown") + ">"
  }

  /** How a name or an operator stands in a line: a missing one as "?", anything else as Python spells it. */
  lemma DisplayExactly(v: Scalar, text: string)
    ensures Display(v) == text <==>
              || v == Str(text)
              || (v.Other? && v.text == text)
              || (v, text) in {(Missing, "?"), (Null, "None"), (Bool(true), "True"), (Bool(false), "False")}
  {
  }

  function LogicTexts(es: seq<Expr>): (r: seq<string>)
    ensures |r| == |es|
    decreases es, 0
  {
    if es == [] then [] else [LogicText(es[0])] + LogicTexts(es[1..])
  }

  // --- The tokens spell that text ---

  lemma {:induction false} LineTextJoins(a: seq<Token>, b: seq<Token>)
    ensures LineText(a + b) == LineText(a) + LineText(b)
  {
    if a == [] {
      assert a + b == b;
    } else {
      assert (a + b)[1..] == a[1..] + b;
      LineTextJoins(a[1..], b);
    }
  }

  lemma LineTextOne(t: Token)
    ensures LineText([t]) == TokenText(t)
  {
    assert [t][1..] == [];
    assert LineText([]) == "";
  }

  lemma NegationText(inner: seq<Token>)
    ensures LineText([NotWord, LPar] + inner + [RPar]) == "NOT (" + LineText(inner) + ")"
  {
    LineTextJoins([NotWord, LPar] + inner, [RPar]);
    LineTextJoins([NotWord, LPar], inner);
    LineTextJoins([NotWord], [LPar]);
    LineTextOne(NotWord);
    LineTextOne(LPar);
    LineTextOne(RPar);
    assert [NotWord] + [LPar] == [NotWord, LPar];
    assert "NOT " + "(" == "NOT (";
  }

  lemma GroupText(first: seq<Token>, rest: seq<Token>)
    ensures LineText([LPar] + first + rest + [RPar]) == "(" + (LineText(first) + LineText(rest)) + ")"
  {
    assert [LPar] + first + rest + [RPar] == [LPar] + (first + rest + [RPar]);
    LineTextCons(LPar, first + rest + [RPar]);
    LineTextJoins(first + rest, [RPar]);
    LineTextJoins(first, rest);
    LineTextOne(RPar);
    SeqAssociative(TokenText(LPar), LineText(first) + LineText(rest), TokenText(RPar));
  }

  function SepText(conj: bool): string {
    if conj then " AND " else " OR "
  }

  /** The separators and parts after the first, as they follow it in the joined text. */
  function Following(sep: string, parts: seq<string>): string {
    if parts == [] then "" else sep + parts[0] + Following(sep, parts[1..])
  }

  lemma {:induction false} JoinFollowing(sep: string, parts: seq<string>)
    requires parts != []
    ensures Join(sep, parts) == parts[0] + Following(sep, parts[1..])
  {
    if |parts| > 1 {
      var more := parts[1..];
      JoinFollowing(sep, more);
      var after := Following(sep, more[1..]);
      assert parts[0] + sep + (more[0] + after) == parts[0] + (sep + more[0] + after);
    }
  }

  /** For every tree the tokens of the printer, one after the other, are the text that the program builds. */
  lemma {:induction false} TokensSpellText(e: Expr)
    ensures LineText(Print(e)) == LogicText(e)
    decreases e, 1
  {
    if e.NotMapping? {
      LineTextOne(Garbled("?"));
    } else {
      match e.kind
      case Compare => LineTextOne(Atom(Display(e.name), Display(e.op), FmtExpected(e.expected)));
      case Unknown(text) => LineTextOne(Garbled("<" + (if text == "" then "unknown" else text) + ">"));
      case Not =>
        TokensSpellText(e.child);
        NegationText(Print(e.child));
      case Junction(conj) =>
        if e.children.NotList? || e.children.items == [] {
          LineTextOne(Empty(conj));
        } else if |e.children.items| == 1 {
          TokensSpellText(e.children.items[0]);
        } else {
          TokensSpellGroup(e.children.items, conj);
        }
    }
  }

  lemma {:induction false} TokensSpellGroup(items: seq<Expr>, conj: bool)
    requires |items| > 1
    ensures LineText([LPar] + Print(items[0]) + PrintRest(items[1..], conj) + [RPar])
         == "(" + Join(SepText(conj), LogicTexts(items)) + ")"
    decreases items, 0
  {
    TokensSpellText(items[0]);
    TokensSpellRest(items[1..], conj);
    GroupText(Print(items[0]), PrintRest(items[1..], conj));
    JoinFollowing(SepText(conj), LogicTexts(items));
    assert LogicTexts(items)[1..] == LogicTexts(items[1..]);
  }

  lemma {:induction false} TokensSpellRest(es: seq<Expr>, conj: bool)
    ensures LineText(PrintRest(es, conj)) == Following(SepText(conj), LogicTexts(es))
    decreases es, 0
  {
    if es != [] {
      TokensSpellText(es[0]);
      TokensSpellRest(es[1..], conj);
      LineTextJoins([Sep(conj)] + Print(es[0]), PrintRest(es[1..], conj));
      LineTextJoins([Sep(conj)], Print(es[0]));
      LineTextOne(Sep(conj));
      assert LogicTexts(es)[1..] == LogicTexts(es[1..]);
    }
  }

  // --- Which nodes a line shows ---

  /** What a node shows by itself: a comparison, an empty junction, or the mark of a fault. */
  predicate Shows(e: Expr, t: Token) {
    if e.NotMapping? then t == Garbled("?")
    else match e.kind
      case Compare =>
        t.Atom? && t.name == Display(e.name) && t.op == Display(e.op) && t.expected == FmtExpected(e.expected)
      case Junction(conj) => (e.children.NotList? || e.children.items == []) && t == Empty(conj)
      case Not => false
      case Unknown(text) => t == Garbled(if text == "" then "<unknown>" else "<" + text + ">")
  }

  predicate IsMark(t: Token) {
    t.Atom? || t.Empty? || t.Garbled?
  }

  ghost predicate ShownAt(e: Expr, t: Token, p: Path) {
    Leads(e, p) && Shows(NodeAt(e, p), t)
  }

  ghost predicate ShownBelow(es: seq<Expr>, first: nat, t: Token, p: Path) {
    IntoChild(es, first, p) && ShownAt(es[p[0].i - first], t, p[1..])
  }

  lemma ShownAtEnd(e: Expr, t: Token)
    requires Ends(e)
    ensures (exists p: Path :: ShownAt(e, t, p)) <==> Shows(e, t)
  {
    if p: Path :| ShownAt(e, t, p) { EndsLead(e, p); }
    if Shows(e, t) { assert ShownAt(e, t, []); }
  }

  lemma ShownUnderNot(e: Expr, t: Token)
    requires e.Mapping? && e.kind == Not
    ensures (exists p: Path :: ShownAt(e, t, p)) <==> exists p: Path :: ShownAt(e.child, t, p)
  {
    if p: Path :| ShownAt(e.child, t, p) {
      assert ([Child] + p)[1..] == p;
      assert ShownAt(e, t, [Child] + p);
    }
    if p: Path :| ShownAt(e, t, p) { assert ShownAt(e.child, t, p[1..]); }
  }

  lemma ShownUnderJunction(e: Expr, t: Token)
    requires e.Mapping? && e.kind.Junction? && e.children.Items? && e.children.items != []
    ensures (exists p: Path :: ShownAt(e, t, p)) <==> exists p: Path :: ShownBelow(e.children.items, 0, t, p)
  {
    if p: Path :| ShownBelow(e.children.items, 0, t, p) { assert ShownAt(e, t, p); }
    if p: Path :| ShownAt(e, t, p) { assert ShownBelow(e.children.items, 0, t, p); }
  }

  lemma ShownInHead(es: seq<Expr>, first: nat, t: Token, p: Path)
    requires es != [] && ShownAt(es[0], t, p)
    ensures ShownBelow(es, first, t, [ChildAt(first)] + p)
  {
    assert ([ChildAt(first)] + p)[1..] == p;
  }

  lemma ShownInTail(es: seq<Expr>, first: nat, next: nat, t: Token, p: Path)
    requires es != [] && next == first + 1
    ensures ShownBelow(es[1..], next, t, p) <==> ShownBelow(es, first, t, p) && p[0].i != first
  {
    if p != [] && p[0].ChildAt? && first < p[0].i < first + |es| {
      assert es[1..][p[0].i - next] == es[p[0].i - first];
    }
  }

  lemma ShownInSome(es: seq<Expr>, first: nat, next: nat, t: Token)
    requires es != [] && next == first + 1
    ensures (exists p: Path :: ShownBelow(es, first, t, p)) <==>
              || (exists p: Path :: ShownAt(es[0], t, p))
              || (exists p: Path :: ShownBelow(es[1..], next, t, p))
  {
    if p: Path :| ShownAt(es[0], t, p) { ShownInHead(es, first, t, p); }
    if p: Path :| ShownBelow(es[1..], next, t, p) { ShownInTail(es, first, next, t, p); }
    if p: Path :| ShownBelow(es, first, t, p) {
      ShownInTail(es, first, next, t, p);
      if p[0].i == first { assert ShownAt(es[0], t, p[1..]); }
    }
  }

  lemma ShownByEmpty(e: Expr, t: Token)
    requires e.Mapping? && e.kind.Junction? && e.children == Items([])
    ensures (exists p: Path :: ShownAt(e, t, p)) <==> t == Empty(e.kind.conjunctive)
  {
    if t == Empty(e.kind.conjunctive) { assert ShownAt(e, t, []); }
    if p: Path :| ShownAt(e, t, p) { assert p == []; }
  }

  /**
    The line of any tree, however deep or faulty, shows a comparison, an empty junction or the mark of a fault exactly
    when there is such a node: so "?" and "<...>" stand in the line for every fault of these two kinds and for nothing
    else.
   */
  lemma {:induction false} LineShowsExactly(e: Expr, t: Token)
    requires IsMark(t)
    ensures t in Print(e) <==> exists p: Path :: ShownAt(e, t, p)
    decreases e, 1
  {
    if Ends(e) {
      ShownAtEnd(e, t);
      assert "<" + "unknown" + ">" == "<unknown>";
    } else if e.kind == Not {
      LineShowsExactly(e.child, t);
      ShownUnderNot(e, t);
    } else if e.children.items == [] {
      ShownByEmpty(e, t);
    } else {
      LineShowsGroup(e.children.items, e.kind.conjunctive, t);
      ShownUnderJunction(e, t);
    }
  }

  lemma {:induction false} LineShowsGroup(items: seq<Expr>, conj: bool, t: Token)
    requires IsMark(t) && items != []
    ensures t in [LPar] + Print(items[0]) + PrintRest(items[1..], conj) + [RPar] <==>
              exists p: Path :: ShownBelow(items, 0, t, p)
    ensures |items| == 1 ==> (t in Print(items[0]) <==> exists p: Path :: ShownBelow(items, 0, t, p))
    decreases items, 0
  {
    LineShowsExactly(items[0], t);
    LineShowsRest(items[1..], conj, 1, t);
    ShownInSome(items, 0, 1, t);
  }

  lemma {:induction false} LineShowsRest(es: seq<Expr>, conj: bool, first: nat, t: Token)
    requires IsMark(t)
    ensures t in PrintRest(es, conj) <==> exists p: Path :: ShownBelow(es, first, t, p)
    decreases es, 0
  {
    if es != [] {
      LineShowsExactly(es[0], t);
      LineShowsRest(es[1..], conj, first + 1, t);
      ShownInSome(es, first, first + 1, t);
    }
  }
}
