/**
  Compiler-style rule expressions and the signal extractor
  (scripts/docs/generate_rule_logic_docs.py).

  `Expr` is a parsed YAML node seen through the keys the code looks up; `child` of a node without
  one is `NotMapping`, which is what `None` is to the code.
 */
module RuleExpression {
  import opened Text

  const MAX_EXPR_DEPTH := 96

  /** How Python spells a value that is neither a string nor None nor a truth value. */
  type Plain = t: string | t != "" && t[0] != '"' && t !in {"null", "true", "false"} witness "0"

  /** A YAML scalar; `Other` is a number or any other value that the code only ever stringifies. */
  datatype Scalar = Missing | Null | Bool(b: bool) | Str(s: string) | Other(text: Plain)

  datatype Children = NotList | Items(items: seq<Expr>)

  /** The text of `kind`, stripped and in lower case: "compare_signal", "and" or "or", "not", or anything else. */
  datatype Kind = Compare | Junction(conjunctive: bool) | Not | Unknown(text: string)

  datatype Expr =
    | NotMapping
    | Mapping(kind: Kind, name: Scalar, op: Scalar, expected: Scalar, children: Children, child: Expr)

  predicate Named(v: Scalar) {
    v.Str? && Strip(v.s) != ""
  }

  // --- What the extractor should accept, and what an expression means ---

  predicate WellFormed(e: Expr)
    decreases e
  {
    e.Mapping? &&
    match e.kind
    case Compare => Named(e.name)
    case Not => WellFormed(e.child)
    case Unknown(_) => false
    case Junction(_) => e.children.Items? && forall c :: c in e.children.items ==> WellFormed(c)
  }

  function Max(a: nat, b: nat): nat {
    if a < b then b else a
  }

  function Height(e: Expr): (h: nat)
    ensures h >= 1
    decreases e
  {
    if e.NotMapping? then 1
    else match e.kind
      case Not => 1 + Height(e.child)
      case Compare => 1
      case Unknown(_) => 1
      case Junction(_) => if e.children.Items? then 1 + TallestOf(e.children.items) else 1
  }

  function TallestOf(es: seq<Expr>): nat
    decreases es
  {
    if es == [] then 0 else Max(Height(es[0]), TallestOf(es[1..]))
  }

  /** What the signals are worth: a value per name, and how an operator compares a value. */
  type Signals = string -> Scalar
  type Comparison = (Scalar, string, Scalar) -> bool

  /** An f-string of `expr.get(key, "?")`. */
  function Display(v: Scalar): string {
    match v
    case Missing => "?"
    case Null => "None"
    case Bool(b) => if b then "True" else "False"
    case Str(s) => s
    case Other(t) => t
  }

  /** `expr.get("expected")` does not tell a missing key from a null. */
  function Present(v: Scalar): Scalar {
    if v.Missing? then Null else v
  }

  function Truth(e: Expr, holds: Comparison, env: Signals): bool
    requires WellFormed(e)
    decreases e
  {
    match e.kind
    case Compare => holds(env(Strip(e.name.s)), Display(e.op), Present(e.expected))
    case Not => !Truth(e.child, holds, env)
    case Junction(conjunctive) =>
      if conjunctive
      then forall c :: c in e.children.items ==> Truth(c, holds, env)
      else exists c :: c in e.children.items && Truth(c, holds, env)
  }

  /** The signal names at the leaves. */
  function LeafNames(e: Expr): set<string>
    requires WellFormed(e)
    decreases e
  {
    match e.kind
    case Compare => {Strip(e.name.s)}
    case Not => LeafNames(e.child)
    case Junction(_) => LeafNamesOf(e.children.items)
  }

  function LeafNamesOf(es: seq<Expr>): set<string>
    requires forall c :: c in es ==> WellFormed(c)
    decreases es
  {
    if es == [] then {} else LeafNames(es[0]) + LeafNamesOf(es[1..])
  }

  lemma {:induction false} LeafNamesInclude(es: seq<Expr>, c: Expr)
    requires forall d :: d in es ==> WellFormed(d)
    requires c in es
    ensures LeafNames(c) <= LeafNamesOf(es)
  {
    if c != es[0] { LeafNamesInclude(es[1..], c); }
  }

  // --- The extractor ---

  datatype Step = Child | ChildAt(i: nat)
  type Path = seq<Step>

  datatype Error =
    | TooDeep(path: Path)
    | ExpectedMapping(path: Path)
    | MissingSignalName(path: Path)
    | ChildrenNotList(path: Path)
    | UnknownKind(path: Path)
    | RuleNotMapping(index: nat)
    | MissingId(index: nat)
    | DuplicateId(id: string)
    | MissingExpression(id: string)

  function Extract(e: Expr, path: Path, depth: nat): (seq<string>, seq<Error>)
    decreases e, 1
  {
    if depth > MAX_EXPR_DEPTH then ([], [TooDeep(path)])
    else if e.NotMapping? then ([], [ExpectedMapping(path)])
    else match e.kind
      case Compare =>
        if Named(e.name) then ([Strip(e.name.s)], []) else ([], [MissingSignalName(path)])
      case Not => Extract(e.child, path + [Child], depth + 1)
      case Unknown(_) => ([], [UnknownKind(path)])
      case Junction(_) =>
        if e.children.Items? then ExtractAll(e.children.items, path, 0, depth + 1)
        else ([], [ChildrenNotList(path)])
  }

  /** The children from number `first` on. */
  function ExtractAll(es: seq<Expr>, path: Path, first: nat, depth: nat): (seq<string>, seq<Error>)
    decreases es, 0
  {
    if es == [] then ([], []) else
      var (s, err) := Extract(es[0], path + [ChildAt(first)], depth);
      var (ss, errs) := ExtractAll(es[1..], path, first + 1, depth);
      (s + ss, err + errs)
  }

  class ErrorLog {
    var errors: seq<Error>

    constructor ()
      ensures errors == []
    {
      errors := [];
    }

    method Add(e: Error)
      modifies this
      ensures errors == old(errors) + [e]
    {
      errors := errors + [e];
    }
  }

  lemma {:induction false} ExtractAllSnoc(es: seq<Expr>, c: Expr, path: Path, first: nat, depth: nat)
    ensures ExtractAll(es + [c], path, first, depth)
         == (ExtractAll(es, path, first, depth).0 + Extract(c, path + [ChildAt(first + |es|)], depth).0,
             ExtractAll(es, path, first, depth).1 + Extract(c, path + [ChildAt(first + |es|)], depth).1)
  {
    if es == [] {
      assert es + [c] == [c] && [c][1..] == [];
      var (s, err) := Extract(c, path + [ChildAt(first)], depth);
      assert s + [] == s == [] + s && err + [] == err == [] + err;
    } else {
      assert (es + [c])[1..] == es[1..] + [c];
      ExtractAllSnoc(es[1..], c, path, first + 1, depth);
      var (s, err) := Extract(es[0], path + [ChildAt(first)], depth);
      var (ss, errs) := ExtractAll(es[1..], path, first + 1, depth);
      var (s', err') := Extract(c, path + [ChildAt(first + |es|)], depth);
      assert s + (ss + s') == s + ss + s' && err + (errs + err') == err + errs + err';
    }
  }

  /** The recursive walk, appending to one shared error list, is the value-level extractor. */
  method SignalsFromExpression(e: Expr, log: ErrorLog, path: Path, depth: nat) returns (out: seq<string>)
    modifies log
    ensures out == Extract(e, path, depth).0
    ensures log.errors == old(log.errors) + Extract(e, path, depth).1
    decreases e
  {
    if depth > MAX_EXPR_DEPTH {
      log.Add(TooDeep(path));
      return [];
    }
    if e.NotMapping? {
      log.Add(ExpectedMapping(path));
      return [];
    }
    match e.kind {
      case Compare =>
        if !e.name.Str? || Strip(e.name.s) == "" {
          log.Add(MissingSignalName(path));
          return [];
        }
        return [Strip(e.name.s)];
      case Not =>
        out := SignalsFromExpression(e.child, log, path + [Child], depth + 1);
      case Unknown(_) =>
        log.Add(UnknownKind(path));
        return [];
      case Junction(_) =>
        if !e.children.Items? {
          log.Add(ChildrenNotList(path));
          return [];
        }
        out := SignalsFromChildren(e.children.items, log, path, depth + 1);
    }
  }

  method SignalsFromChildren(items: seq<Expr>, log: ErrorLog, path: Path, depth: nat) returns (out: seq<string>)
    modifies log
    ensures out == ExtractAll(items, path, 0, depth).0
    ensures log.errors == old(log.errors) + ExtractAll(items, path, 0, depth).1
    decreases items, 0
  {
    out := [];
    for i := 0 to |items|
      invariant out == ExtractAll(items[..i], path, 0, depth).0
      invariant log.errors == old(log.errors) + ExtractAll(items[..i], path, 0, depth).1
    {
      var more := SignalsFromExpression(items[i], log, path + [ChildAt(i)], depth);
      ExtractAllSnoc(items[..i], items[i], path, 0, depth);
      assert items[..i + 1] == items[..i] + [items[i]];
      out := out + more;
    }
    assert items[..|items|] == items;
  }

  // --- The extractor records no error exactly on well-formed trees of height at most 96 ---

  lemma {:induction false} SilentExactly(e: Expr, path: Path, depth: nat)
    requires depth >= 1
    ensures Extract(e, path, depth).1 == [] <==> WellFormed(e) && depth + Height(e) <= 97
    decreases e, 1
  {
    if depth <= MAX_EXPR_DEPTH && e.Mapping? {
      if e.kind == Not {
        SilentExactly(e.child, path + [Child], depth + 1);
      } else if e.kind.Junction? && e.children.Items? {
        SilentAllExactly(e.children.items, path, 0, depth + 1);
      }
    }
  }

  lemma {:induction false} SilentAllExactly(es: seq<Expr>, path: Path, first: nat, depth: nat)
    requires 1 <= depth <= 97
    ensures ExtractAll(es, path, first, depth).1 == [] <==>
              (forall c :: c in es ==> WellFormed(c)) && depth + TallestOf(es) <= 97
    decreases es, 0
  {
    if es != [] {
      SilentExactly(es[0], path + [ChildAt(first)], depth);
      SilentAllExactly(es[1..], path, first + 1, depth);
      assert es == [es[0]] + es[1..];
    }
  }

  // --- What the extractor returns for any tree, node by node ---

  /** The path leads from the node down through `not` nodes and through junctions that carry a list. */
  predicate Leads(e: Expr, p: Path)
    decreases |p|
  {
    || p == []
    || (e.Mapping? && p[0] == Child && e.kind == Not && Leads(e.child, p[1..]))
    || (e.Mapping? && p[0].ChildAt? && e.kind.Junction? && e.children.Items? && p[0].i < |e.children.items|
        && Leads(e.children.items[p[0].i], p[1..]))
  }

  function NodeAt(e: Expr, p: Path): Expr
    requires Leads(e, p)
    decreases |p|
  {
    if p == [] then e
    else if p[0] == Child then NodeAt(e.child, p[1..])
    else NodeAt(e.children.items[p[0].i], p[1..])
  }

  /** A comparison with this signal name. */
  predicate Compares(e: Expr, x: string) {
    e.Mapping? && e.kind == Compare && e.name.Str? && Strip(e.name.s) == x && x != ""
  }

  /** The fault of a node on its own, at its path and depth. */
  predicate FaultOf(e: Expr, path: Path, depth: nat, err: Error) {
    if depth > 96 then err == TooDeep(path)
    else if e.NotMapping? then err == ExpectedMapping(path)
    else match e.kind
      case Compare => !(e.name.Str? && Strip(e.name.s) != "") && err == MissingSignalName(path)
      case Not => false
      case Unknown(_) => err == UnknownKind(path)
      case Junction(_) => e.children.NotList? && err == ChildrenNotList(path)
  }

  /** A comparison with the name is reached within 96 levels. */
  ghost predicate FindsAt(e: Expr, depth: nat, x: string, p: Path) {
    Leads(e, p) && depth + |p| <= 96 && Compares(NodeAt(e, p), x)
  }

  /** A faulty node is reached; what is too deep is not looked into. */
  ghost predicate FaultAt(e: Expr, path: Path, depth: nat, err: Error, p: Path) {
    Leads(e, p) && (p == [] || depth + |p| <= 97) && FaultOf(NodeAt(e, p), path + p, depth + |p|, err)
  }

  /** A path into one of the children from number `first` on. */
  predicate IntoChild(es: seq<Expr>, first: nat, p: Path) {
    p != [] && p[0].ChildAt? && first <= p[0].i < first + |es| && Leads(es[p[0].i - first], p[1..])
  }

  ghost predicate FindsBelow(es: seq<Expr>, first: nat, depth: nat, x: string, p: Path) {
    IntoChild(es, first, p) && FindsAt(es[p[0].i - first], depth, x, p[1..])
  }

  ghost predicate FaultBelow(es: seq<Expr>, path: Path, first: nat, depth: nat, err: Error, p: Path) {
    IntoChild(es, first, p) && FaultAt(es[p[0].i - first], path + [p[0]], depth, err, p[1..])
  }

  /** A node that the walk does not pass through. */
  predicate Ends(e: Expr) {
    e.Mapping? ==> e.kind != Not && !(e.kind.Junction? && e.children.Items?)
  }

  lemma EndsLead(e: Expr, p: Path)
    requires Ends(e)
    ensures Leads(e, p) <==> p == []
  {
  }

  lemma FindsAtEnd(e: Expr, depth: nat, x: string)
    requires Ends(e)
    ensures (exists p: Path :: FindsAt(e, depth, x, p)) <==> depth <= 96 && Compares(e, x)
  {
    if p: Path :| FindsAt(e, depth, x, p) { EndsLead(e, p); }
    if depth <= 96 && Compares(e, x) { assert FindsAt(e, depth, x, []); }
  }

  lemma FindsUnderNot(e: Expr, depth: nat, below: nat, x: string)
    requires e.Mapping? && e.kind == Not && below == depth + 1
    ensures (exists p: Path :: FindsAt(e, depth, x, p)) <==> exists p: Path :: FindsAt(e.child, below, x, p)
  {
    if p: Path :| FindsAt(e.child, below, x, p) {
      assert ([Child] + p)[1..] == p;
      assert FindsAt(e, depth, x, [Child] + p);
    }
    if p: Path :| FindsAt(e, depth, x, p) {
      assert FindsAt(e.child, below, x, p[1..]);
    }
  }

  lemma FindsUnderJunction(e: Expr, depth: nat, below: nat, x: string)
    requires e.Mapping? && e.kind.Junction? && e.children.Items? && below == depth + 1
    ensures (exists p: Path :: FindsAt(e, depth, x, p)) <==>
              exists p: Path :: FindsBelow(e.children.items, 0, below, x, p)
  {
    if p: Path :| FindsBelow(e.children.items, 0, below, x, p) { assert FindsAt(e, depth, x, p); }
    if p: Path :| FindsAt(e, depth, x, p) { assert FindsBelow(e.children.items, 0, below, x, p); }
  }

  lemma NothingTooDeep(e: Expr, depth: nat, x: string)
    requires depth > 96
    ensures !exists p: Path :: FindsAt(e, depth, x, p)
  {
  }

  /** x is a signal of the tree exactly when a comparison with that name is reached, whatever else is wrong with it. */
  lemma {:induction false} SignalsExactly(e: Expr, path: Path, depth: nat, x: string)
    ensures x in Extract(e, path, depth).0 <==> exists p: Path :: FindsAt(e, depth, x, p)
    decreases e, 1
  {
    if depth > 96 {
      NothingTooDeep(e, depth, x);
    } else if Ends(e) {
      FindsAtEnd(e, depth, x);
    } else if e.kind == Not {
      SignalsExactly(e.child, path + [Child], depth + 1, x);
      FindsUnderNot(e, depth, depth + 1, x);
    } else {
      SignalsBelowExactly(e.children.items, path, 0, depth + 1, x);
      FindsUnderJunction(e, depth, depth + 1, x);
    }
  }

  lemma FindsInSome(es: seq<Expr>, first: nat, next: nat, depth: nat, x: string)
    requires es != [] && next == first + 1
    ensures (exists p: Path :: FindsBelow(es, first, depth, x, p)) <==>
              || (exists p: Path :: FindsAt(es[0], depth, x, p))
              || (exists p: Path :: FindsBelow(es[1..], next, depth, x, p))
  {
    if p: Path :| FindsAt(es[0], depth, x, p) {
      assert ([ChildAt(first)] + p)[1..] == p;
      assert FindsBelow(es, first, depth, x, [ChildAt(first)] + p);
    }
    if p: Path :| FindsBelow(es[1..], next, depth, x, p) {
      assert FindsBelow(es, first, depth, x, p);
    }
    if p: Path :| FindsBelow(es, first, depth, x, p) {
      if p[0].i == first {
        assert FindsAt(es[0], depth, x, p[1..]);
      } else {
        assert FindsBelow(es[1..], next, depth, x, p);
      }
    }
  }

  lemma {:induction false} SignalsBelowExactly(es: seq<Expr>, path: Path, first: nat, depth: nat, x: string)
    ensures x in ExtractAll(es, path, first, depth).0 <==> exists p: Path :: FindsBelow(es, first, depth, x, p)
    decreases es, 0
  {
    if es != [] {
      SignalsExactly(es[0], path + [ChildAt(first)], depth, x);
      SignalsBelowExactly(es[1..], path, first + 1, depth, x);
      FindsInSome(es, first, first + 1, depth, x);
    }
  }

  lemma FaultAtEnd(e: Expr, path: Path, depth: nat, err: Error)
    requires Ends(e)
    ensures (exists p: Path :: FaultAt(e, path, depth, err, p)) <==> FaultOf(e, path, depth, err)
  {
    assert path + [] == path;
    if p: Path :| FaultAt(e, path, depth, err, p) { EndsLead(e, p); }
    if FaultOf(e, path, depth, err) { assert FaultAt(e, path, depth, err, []); }
  }

  lemma FaultTooDeep(e: Expr, path: Path, depth: nat, err: Error)
    requires depth > 96
    ensures (exists p: Path :: FaultAt(e, path, depth, err, p)) <==> err == TooDeep(path)
  {
    assert path + [] == path;
    if err == TooDeep(path) { assert FaultAt(e, path, depth, err, []); }
  }

  lemma FaultUnderNot(e: Expr, path: Path, depth: nat, below: nat, err: Error)
    requires e.Mapping? && e.kind == Not && below == depth + 1 && depth <= 96
    ensures (exists p: Path :: FaultAt(e, path, depth, err, p)) <==>
              exists p: Path :: FaultAt(e.child, path + [Child], below, err, p)
  {
    if p: Path :| FaultAt(e.child, path + [Child], below, err, p) {
      assert ([Child] + p)[1..] == p;
      assert path + [Child] + p == path + ([Child] + p);
      assert FaultAt(e, path, depth, err, [Child] + p);
    }
    if p: Path :| FaultAt(e, path, depth, err, p) {
      assert p != [] && p == [Child] + p[1..];
      assert path + [Child] + p[1..] == path + p;
      assert FaultAt(e.child, path + [Child], below, err, p[1..]);
    }
  }

  lemma FaultUnderJunction(e: Expr, path: Path, depth: nat, below: nat, err: Error)
    requires e.Mapping? && e.kind.Junction? && e.children.Items? && below == depth + 1 && depth <= 96
    ensures (exists p: Path :: FaultAt(e, path, depth, err, p)) <==>
              exists p: Path :: FaultBelow(e.children.items, path, 0, below, err, p)
  {
    if p: Path :| FaultBelow(e.children.items, path, 0, below, err, p) {
      assert path + [p[0]] + p[1..] == path + p;
      assert FaultAt(e, path, depth, err, p);
    }
    if p: Path :| FaultAt(e, path, depth, err, p) {
      assert p != [];
      assert path + [p[0]] + p[1..] == path + p;
      assert FaultBelow(e.children.items, path, 0, below, err, p);
    }
  }

  lemma FaultInHead(es: seq<Expr>, path: Path, first: nat, depth: nat, err: Error, p: Path)
    requires es != [] && FaultAt(es[0], path + [ChildAt(first)], depth, err, p)
    ensures FaultBelow(es, path, first, depth, err, [ChildAt(first)] + p)
  {
    assert ([ChildAt(first)] + p)[1..] == p;
  }

  lemma FaultInTail(es: seq<Expr>, path: Path, first: nat, next: nat, depth: nat, err: Error, p: Path)
    requires es != [] && next == first + 1
    ensures FaultBelow(es[1..], path, next, depth, err, p) <==>
              FaultBelow(es, path, first, depth, err, p) && p[0].i != first
  {
    if p != [] && p[0].ChildAt? && first < p[0].i < first + |es| {
      assert es[1..][p[0].i - next] == es[p[0].i - first];
    }
  }

  lemma FaultInSome(es: seq<Expr>, path: Path, first: nat, next: nat, depth: nat, err: Error)
    requires es != [] && next == first + 1
    ensures (exists p: Path :: FaultBelow(es, path, first, depth, err, p)) <==>
              || (exists p: Path :: FaultAt(es[0], path + [ChildAt(first)], depth, err, p))
              || (exists p: Path :: FaultBelow(es[1..], path, next, depth, err, p))
  {
    if p: Path :| FaultAt(es[0], path + [ChildAt(first)], depth, err, p) {
      FaultInHead(es, path, first, depth, err, p);
    }
    if p: Path :| FaultBelow(es[1..], path, next, depth, err, p) {
      FaultInTail(es, path, first, next, depth, err, p);
    }
    if p: Path :| FaultBelow(es, path, first, depth, err, p) {
      FaultInTail(es, path, first, next, depth, err, p);
      if p[0].i == first { assert FaultAt(es[0], path + [p[0]], depth, err, p[1..]); }
    }
  }

  /** An error is recorded exactly for every reached node with a fault, at the path of the node and of its kind. */
  lemma {:induction false} ErrorsExactly(e: Expr, path: Path, depth: nat, err: Error)
    ensures err in Extract(e, path, depth).1 <==> exists p: Path :: FaultAt(e, path, depth, err, p)
    decreases e, 1
  {
    if depth > 96 {
      FaultTooDeep(e, path, depth, err);
    } else if Ends(e) {
      FaultAtEnd(e, path, depth, err);
    } else if e.kind == Not {
      ErrorsExactly(e.child, path + [Child], depth + 1, err);
      FaultUnderNot(e, path, depth, depth + 1, err);
    } else {
      ErrorsBelowExactly(e.children.items, path, 0, depth + 1, err);
      FaultUnderJunction(e, path, depth, depth + 1, err);
    }
  }

  lemma {:induction false} ErrorsBelowExactly(es: seq<Expr>, path: Path, first: nat, depth: nat, err: Error)
    ensures err in ExtractAll(es, path, first, depth).1 <==>
              exists p: Path :: FaultBelow(es, path, first, depth, err, p)
    decreases es, 0
  {
    if es != [] {
      ErrorsExactly(es[0], path + [ChildAt(first)], depth, err);
      ErrorsBelowExactly(es[1..], path, first + 1, depth, err);
      FaultInSome(es, path, first, first + 1, depth, err);
    }
  }

  predicate Located(err: Error) {
    err.TooDeep? || err.ExpectedMapping? || err.MissingSignalName? || err.ChildrenNotList? || err.UnknownKind?
  }

  /** Below a junction that both paths pass through, p goes to an earlier child than q. */
  predicate Before(p: Path, q: Path) {
    exists n :: 0 <= n < |p| && n < |q| && p[..n] == q[..n] && p[n].ChildAt? && q[n].ChildAt? && p[n].i < q[n].i
  }

  predicate InOrder(errs: seq<Error>) {
    && (forall i :: 0 <= i < |errs| ==> Located(errs[i]))
    && forall i, j :: 0 <= i < j < |errs| ==> Before(errs[i].path, errs[j].path)
  }

  predicate Under(err: Error, path: Path) {
    Located(err) && path <= err.path
  }

  lemma {:induction false} ErrorsUnder(e: Expr, path: Path, depth: nat)
    ensures forall i :: 0 <= i < |Extract(e, path, depth).1| ==> Under(Extract(e, path, depth).1[i], path)
    decreases e, 1
  {
    if depth <= 96 && !Ends(e) {
      if e.kind == Not {
        ErrorsUnder(e.child, path + [Child], depth + 1);
      } else {
        ErrorsUnderChildren(e.children.items, path, 0, depth + 1);
      }
    }
  }

  /** The error lies below a child from number `first` on. */
  predicate UnderChild(err: Error, path: Path, first: nat) {
    Under(err, path) && |err.path| > |path| && err.path[|path|].ChildAt? && err.path[|path|].i >= first
  }

  lemma {:induction false} ErrorsUnderChildren(es: seq<Expr>, path: Path, first: nat, depth: nat)
    ensures forall i :: 0 <= i < |ExtractAll(es, path, first, depth).1| ==>
              UnderChild(ExtractAll(es, path, first, depth).1[i], path, first)
    decreases es, 0
  {
    if es != [] {
      ErrorsUnder(es[0], path + [ChildAt(first)], depth);
      ErrorsUnderChildren(es[1..], path, first + 1, depth);
      var err, errs := Extract(es[0], path + [ChildAt(first)], depth).1, ExtractAll(es[1..], path, first + 1, depth).1;
      forall i | 0 <= i < |err| ensures UnderChild(err[i], path, first) {
        assert Under(err[i], path + [ChildAt(first)]);
      }
      forall i | 0 <= i < |errs| ensures UnderChild(errs[i], path, first) {
        assert UnderChild(errs[i], path, first + 1);
      }
    }
  }

  lemma EarlierChild(a: Error, b: Error, path: Path, first: nat)
    requires Under(a, path + [ChildAt(first)]) && UnderChild(b, path, first + 1)
    ensures Before(a.path, b.path)
  {
    var n := |path|;
    assert a.path[..n] == path == b.path[..n];
    assert a.path[n] == ChildAt(first);
  }

  /**
    The errors stand in the order of the tree, no two at one path: so a reached node with a fault has exactly one
    error.
   */
  lemma {:induction false} ErrorsInOrder(e: Expr, path: Path, depth: nat)
    ensures InOrder(Extract(e, path, depth).1)
    decreases e, 1
  {
    if depth <= 96 && !Ends(e) {
      if e.kind == Not {
        ErrorsInOrder(e.child, path + [Child], depth + 1);
      } else {
        ErrorsInOrderBelow(e.children.items, path, 0, depth + 1);
      }
    }
  }

  lemma {:induction false} ErrorsInOrderBelow(es: seq<Expr>, path: Path, first: nat, depth: nat)
    ensures InOrder(ExtractAll(es, path, first, depth).1)
    decreases es, 0
  {
    if es != [] {
      var err, errs := Extract(es[0], path + [ChildAt(first)], depth).1, ExtractAll(es[1..], path, first + 1, depth).1;
      ErrorsInOrder(es[0], path + [ChildAt(first)], depth);
      ErrorsInOrderBelow(es[1..], path, first + 1, depth);
      ErrorsUnder(es[0], path + [ChildAt(first)], depth);
      ErrorsUnderChildren(es[1..], path, first + 1, depth);
      forall i, j | 0 <= i < |err| && 0 <= j < |errs| ensures Before(err[i].path, errs[j].path) {
        EarlierChild(err[i], errs[j], path, first);
      }
      JoinInOrder(err, errs);
    }
  }

  lemma JoinInOrder(a: seq<Error>, b: seq<Error>)
    requires InOrder(a) && InOrder(b)
    requires forall i, j :: 0 <= i < |a| && 0 <= j < |b| ==> Before(a[i].path, b[j].path)
    ensures InOrder(a + b)
  {
  }

  function ToSet(xs: seq<string>): set<string> {
    set x | x in xs
  }

  /** Then its result is the leaf names. */
  lemma {:induction false} SilentFindsLeaves(e: Expr, path: Path, depth: nat)
    requires depth >= 1 && Extract(e, path, depth).1 == []
    ensures WellFormed(e) && ToSet(Extract(e, path, depth).0) == LeafNames(e)
    decreases e, 1
  {
    SilentExactly(e, path, depth);
    match e.kind
    case Compare =>
    case Not => SilentFindsLeaves(e.child, path + [Child], depth + 1);
    case Junction(_) => SilentAllFindLeaves(e.children.items, path, 0, depth + 1);
  }

  lemma {:induction false} SilentAllFindLeaves(es: seq<Expr>, path: Path, first: nat, depth: nat)
    requires depth >= 1 && ExtractAll(es, path, first, depth).1 == []
    requires forall c :: c in es ==> WellFormed(c)
    ensures ToSet(ExtractAll(es, path, first, depth).0) == LeafNamesOf(es)
    decreases es, 0
  {
    if es != [] {
      SilentFindsLeaves(es[0], path + [ChildAt(first)], depth);
      SilentAllFindLeaves(es[1..], path, first + 1, depth);
    }
  }

  /** Only the signals at the leaves matter. */
  lemma {:induction false} LeavesDecideTruth(e: Expr, holds: Comparison, env: Signals, env': Signals)
    requires WellFormed(e)
    requires forall x :: x in LeafNames(e) ==> env(x) == env'(x)
    ensures Truth(e, holds, env) == Truth(e, holds, env')
    decreases e
  {
    match e.kind
    case Compare =>
    case Not => LeavesDecideTruth(e.child, holds, env, env');
    case Junction(_) =>
      forall c | c in e.children.items ensures Truth(c, holds, env) == Truth(c, holds, env') {
        LeafNamesInclude(e.children.items, c);
        LeavesDecideTruth(c, holds, env, env');
      }
  }
}
