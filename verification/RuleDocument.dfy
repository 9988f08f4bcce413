/** The rules of one document (`_parse_rules_in_document` in scripts/docs/generate_rule_logic_docs.py). */
module RuleDocument {
  import opened Basics
  import opened Text
  import opened RuleExpression
  import opened RulePrinter
  import opened RuleText
  import opened RuleLogic

  datatype RuleNode = NotARule | Rule(id: Scalar, expression: Expr)

  datatype ScannedRule = ScannedRule(ruleId: string, signals: seq<string>, line: seq<Token>)

  predicate HasId(r: RuleNode) {
    r.Rule? && Named(r.id)
  }

  function IdOf(r: RuleNode): string
    requires HasId(r)
  {
    Strip(r.id.s)
  }

  /** An earlier rule of the same id, even one without an expression, takes the id. */
  predicate Taken(rules: seq<RuleNode>, k: nat)
    requires k < |rules| && HasId(rules[k])
  {
    exists j :: 0 <= j < k && HasId(rules[j]) && IdOf(rules[j]) == IdOf(rules[k])
  }

  predicate Documented(rules: seq<RuleNode>, k: nat)
    requires k < |rules|
  {
    HasId(rules[k]) && !Taken(rules, k) && rules[k].expression.Mapping?
  }

  /** The positions of the rules that get a record. */
  function DocumentedUpTo(rules: seq<RuleNode>, n: nat): (r: seq<nat>)
    requires n <= |rules|
    ensures forall i :: 0 <= i < |r| ==> r[i] < n && Documented(rules, r[i])
    ensures forall i, j :: 0 <= i < j < |r| ==> r[i] < r[j]
    ensures forall k :: 0 <= k < n && Documented(rules, k) ==> k in r
  {
    if n == 0 then []
    else DocumentedUpTo(rules, n - 1) + if Documented(rules, n - 1) then [n - 1] else []
  }

  function RuleErrors(rules: seq<RuleNode>, k: nat): seq<Error>
    requires k < |rules|
  {
    if rules[k].NotARule? then [RuleNotMapping(k)]
    else if !Named(rules[k].id) then [MissingId(k)]
    else if Taken(rules, k) then [DuplicateId(IdOf(rules[k]))]
    else if rules[k].expression.NotMapping? then [MissingExpression(IdOf(rules[k]))]
    else Extract(rules[k].expression, [], 1).1
  }

  lemma {:induction false} FlattenEmpty(lists: seq<seq<Error>>)
    ensures |Flatten(lists)| == 0 <==> forall k :: 0 <= k < |lists| ==> |lists[k]| == 0
  {
    if |lists| > 0 {
      FlattenEmpty(lists[..|lists| - 1]);
      assert forall k :: 0 <= k < |lists| - 1 ==> lists[..|lists| - 1][k] == lists[k];
    }
  }

  function ErrorLists(rules: seq<RuleNode>, n: nat): (r: seq<seq<Error>>)
    requires n <= |rules|
    ensures |r| == n && forall k :: 0 <= k < n ==> r[k] == RuleErrors(rules, k)
  {
    seq(n, k requires 0 <= k < n => RuleErrors(rules, k))
  }

  /** A document's complaints are its rules' complaints, in order. */
  function DocumentErrors(rules: seq<RuleNode>, n: nat): seq<Error>
    requires n <= |rules|
  {
    Flatten(ErrorLists(rules, n))
  }

  lemma ErrorsNext(rules: seq<RuleNode>, n: nat, earlier: seq<Error>)
    requires n < |rules|
    ensures earlier + DocumentErrors(rules, n + 1) == earlier + DocumentErrors(rules, n) + RuleErrors(rules, n)
  {
    var a, b := DocumentErrors(rules, n), RuleErrors(rules, n);
    assert ErrorLists(rules, n + 1) == ErrorLists(rules, n) + [b];
    FlattenSnoc(ErrorLists(rules, n), b);
    assert earlier + (a + b) == earlier + a + b;
  }

  /** The record of a rule: its id, its signals sorted without repetition, and its line. */
  ghost predicate RecordFor(record: ScannedRule, r: RuleNode) {
    && HasId(r)
    && record.ruleId == IdOf(r)
    && StrictlySorted(record.signals)
    && (forall x :: x in record.signals <==> x in Extract(r.expression, [], 1).0)
    && record.line == Print(r.expression)
  }

  ghost predicate RecordsUpTo(records: seq<ScannedRule>, rules: seq<RuleNode>, n: nat)
    requires n <= |rules|
  {
    var at := DocumentedUpTo(rules, n);
    |records| == |at| && forall i :: 0 <= i < |records| ==> RecordFor(records[i], rules[at[i]])
  }

  /** The ids claimed by the first n rules. */
  ghost predicate SeenUpTo(seen: set<string>, rules: seq<RuleNode>, n: nat)
    requires n <= |rules|
  {
    forall x :: x in seen <==> exists j :: 0 <= j < n && HasId(rules[j]) && IdOf(rules[j]) == x
  }

  lemma SeenNext(seen: set<string>, rules: seq<RuleNode>, n: nat)
    requires n < |rules| && SeenUpTo(seen, rules, n)
    ensures HasId(rules[n]) ==> (IdOf(rules[n]) in seen <==> Taken(rules, n))
    ensures HasId(rules[n]) ==> SeenUpTo(seen + {IdOf(rules[n])}, rules, n + 1)
    ensures !HasId(rules[n]) || IdOf(rules[n]) in seen ==> SeenUpTo(seen, rules, n + 1)
  {
  }

  /** What rule k adds to the records. */
  ghost predicate RecordsOf(more: seq<ScannedRule>, rules: seq<RuleNode>, k: nat)
    requires k < |rules|
  {
    if Documented(rules, k) then |more| == 1 && RecordFor(more[0], rules[k]) else |more| == 0
  }

  lemma RecordsNext(records: seq<ScannedRule>, more: seq<ScannedRule>, rules: seq<RuleNode>, n: nat)
    requires n < |rules| && RecordsUpTo(records, rules, n) && RecordsOf(more, rules, n)
    ensures RecordsUpTo(records + more, rules, n + 1)
  {
  }

  /** One rule: its record if it gets one, and its complaints. */
  method ParseRule(rule: RuleNode, idx: nat, seen: set<string>, log: ErrorLog, ghost rules: seq<RuleNode>)
    returns (seen': set<string>, records: seq<ScannedRule>)
    requires idx < |rules| && rule == rules[idx] && SeenUpTo(seen, rules, idx)
    modifies log
    ensures SeenUpTo(seen', rules, idx + 1)
    ensures RecordsOf(records, rules, idx)
    ensures log.errors == old(log.errors) + RuleErrors(rules, idx)
  {
    seen', records := seen, [];
    SeenNext(seen, rules, idx);
    if rule.NotARule? {
      log.Add(RuleNotMapping(idx));
      return;
    }
    if !rule.id.Str? || Strip(rule.id.s) == "" {
      log.Add(MissingId(idx));
      return;
    }
    var rid := Strip(rule.id.s);
    if rid in seen {
      log.Add(DuplicateId(rid));
      return;
    }
    seen' := seen + {rid};
    if rule.expression.NotMapping? {
      log.Add(MissingExpression(rid));
      return;
    }
    var sigs := SignalsFromExpression(rule.expression, log, [], 1);
    var unique := SortedList(set s | s in sigs);
    records := [ScannedRule(rid, unique, Print(rule.expression))];
  }

  method ParseRulesInDocument(rules: seq<RuleNode>, log: ErrorLog) returns (records: seq<ScannedRule>)
    modifies log
    ensures RecordsUpTo(records, rules, |rules|)
    ensures log.errors == old(log.errors) + DocumentErrors(rules, |rules|)
  {
    var seen: set<string> := {};
    records := [];
    for idx := 0 to |rules|
      invariant SeenUpTo(seen, rules, idx)
      invariant RecordsUpTo(records, rules, idx)
      invariant log.errors == old(log.errors) + DocumentErrors(rules, idx)
    {
      var seen', more := ParseRule(rules[idx], idx, seen, log, rules);
      RecordsNext(records, more, rules, idx);
      ErrorsNext(rules, idx, old(log.errors));
      seen, records := seen', records + more;
    }
  }

  /** Records of one document never share an id. */
  lemma RecordIdsDistinct(records: seq<ScannedRule>, rules: seq<RuleNode>, i: nat, j: nat)
    requires RecordsUpTo(records, rules, |rules|) && i < j < |records|
    ensures records[i].ruleId != records[j].ruleId
  {
    var at := DocumentedUpTo(rules, |rules|);
    assert Documented(rules, at[j]);
  }

  // --- Every complaint and every record, by position ---

  predicate SameId(rules: seq<RuleNode>, j: nat, k: nat)
    requires j < |rules| && k < |rules|
  {
    && rules[j].Rule? && rules[j].id.Str? && rules[k].Rule? && rules[k].id.Str?
    && Strip(rules[j].id.s) == Strip(rules[k].id.s) != ""
  }

  /** The first rule with its id, which is not blank. */
  predicate NewId(rules: seq<RuleNode>, k: nat)
    requires k < |rules|
  {
    SameId(rules, k, k) && forall j :: 0 <= j < k ==> !SameId(rules, j, k)
  }

  /** What is wrong with rule k: at most one thing with the rule itself, and otherwise the faults in its expression. */
  ghost predicate Complaint(rules: seq<RuleNode>, err: Error, k: nat) {
    && k < |rules|
    && match rules[k]
       case NotARule => err == RuleNotMapping(k)
       case Rule(id, expression) =>
         if !(id.Str? && Strip(id.s) != "") then err == MissingId(k)
         else if !NewId(rules, k) then err == DuplicateId(Strip(id.s))
         else if expression.NotMapping? then err == MissingExpression(Strip(id.s))
         else exists p: Path :: FaultAt(expression, [], 1, err, p)
  }

  lemma TakenExactly(rules: seq<RuleNode>, k: nat)
    requires k < |rules| && HasId(rules[k])
    ensures Taken(rules, k) <==> !NewId(rules, k)
  {
    if Taken(rules, k) {
      var j :| 0 <= j < k && HasId(rules[j]) && IdOf(rules[j]) == IdOf(rules[k]);
      assert SameId(rules, j, k);
    } else {
      forall j | 0 <= j < k ensures !SameId(rules, j, k) {
        assert HasId(rules[j]) ==> IdOf(rules[j]) != IdOf(rules[k]);
      }
    }
  }

  lemma RuleErrorsExactly(rules: seq<RuleNode>, err: Error, k: nat)
    requires k < |rules|
    ensures err in RuleErrors(rules, k) <==> Complaint(rules, err, k)
  {
    if HasId(rules[k]) {
      TakenExactly(rules, k);
      ErrorsExactly(rules[k].expression, [], 1, err);
    }
  }

  lemma {:induction false} FlattenHas(lists: seq<seq<Error>>, err: Error)
    ensures err in Flatten(lists) <==> exists k :: 0 <= k < |lists| && err in lists[k]
  {
    if |lists| > 0 {
      var front, last := lists[..|lists| - 1], lists[|lists| - 1];
      FlattenHas(front, err);
      assert forall k :: 0 <= k < |front| ==> front[k] == lists[k];
    }
  }

  /** A complaint is made about a document exactly when one of its rules has that fault. */
  lemma ComplaintsExactly(rules: seq<RuleNode>, err: Error)
    ensures err in DocumentErrors(rules, |rules|) <==> exists k: nat :: Complaint(rules, err, k)
  {
    var lists := ErrorLists(rules, |rules|);
    FlattenHas(lists, err);
    forall k: nat | k < |rules| ensures err in lists[k] <==> Complaint(rules, err, k) {
      RuleErrorsExactly(rules, err, k);
    }
  }

  /** The record of a rule, faulty or not: every name that a reached comparison has, in order, and the line as text. */
  ghost predicate Describes(record: ScannedRule, id: string, expression: Expr) {
    && record.ruleId == id
    && StrictlySorted(record.signals)
    && (forall x :: x in record.signals <==> exists p: Path :: FindsAt(expression, 1, x, p))
    && LineText(record.line) == LogicText(expression)
  }

  predicate GetsRecord(rules: seq<RuleNode>, k: nat)
    requires k < |rules|
  {
    NewId(rules, k) && rules[k].expression.Mapping?
  }

  /** A rule gets a record exactly when its id is new and its expression a mapping, and the records stand in order. */
  lemma RecordsExactly(records: seq<ScannedRule>, rules: seq<RuleNode>) returns (at: seq<nat>)
    requires RecordsUpTo(records, rules, |rules|)
    ensures |at| == |records| && forall i, j :: 0 <= i < j < |at| ==> at[i] < at[j]
    ensures forall k: nat :: k in at <==> k < |rules| && GetsRecord(rules, k)
    ensures forall i :: 0 <= i < |at| ==>
              && at[i] < |rules| && GetsRecord(rules, at[i])
              && Describes(records[i], Strip(rules[at[i]].id.s), rules[at[i]].expression)
  {
    at := DocumentedUpTo(rules, |rules|);
    forall k: nat | k < |rules| ensures Documented(rules, k) <==> GetsRecord(rules, k) {
      if HasId(rules[k]) { TakenExactly(rules, k); }
    }
    forall i | 0 <= i < |at| ensures Describes(records[i], Strip(rules[at[i]].id.s), rules[at[i]].expression) {
      DescribesRule(records[i], rules[at[i]]);
    }
  }

  lemma DescribesRule(record: ScannedRule, r: RuleNode)
    requires RecordFor(record, r)
    ensures Describes(record, Strip(r.id.s), r.expression)
  {
    TokensSpellText(r.expression);
    forall x ensures x in record.signals <==> exists p: Path :: FindsAt(r.expression, 1, x, p) {
      SignalsExactly(r.expression, [], 1, x);
    }
  }

  /** The rule determines its record, whatever the order in which its set of signals was walked. */
  lemma RecordUnique(record: ScannedRule, record': ScannedRule, r: RuleNode)
    requires RecordFor(record, r) && RecordFor(record', r)
    ensures record == record'
  {
    SortedListUnique(record.signals, record'.signals);
  }

  predicate SoundRule(r: RuleNode) {
    HasId(r) && WellFormed(r.expression) && Height(r.expression) <= 96
  }

  lemma QuietRuleExactly(rules: seq<RuleNode>, k: nat)
    requires k < |rules|
    ensures QuietRule(rules, k) <==> SoundAndNew(rules, k)
  {
    if rules[k].Rule? {
      SilentExactly(rules[k].expression, [], 1);
    }
  }

  predicate AllSound(rules: seq<RuleNode>, n: nat)
    requires n <= |rules|
  {
    forall k :: 0 <= k < n ==> SoundAndNew(rules, k)
  }

  predicate SoundAndNew(rules: seq<RuleNode>, k: nat)
    requires k < |rules|
  {
    SoundRule(rules[k]) && !Taken(rules, k)
  }

  predicate QuietRule(rules: seq<RuleNode>, k: nat)
    requires k < |rules|
  {
    |RuleErrors(rules, k)| == 0
  }

  /** A document is quiet exactly when each of its rules is. */
  lemma QuietRules(rules: seq<RuleNode>)
    ensures |DocumentErrors(rules, |rules|)| == 0 <==> forall k :: 0 <= k < |rules| ==> QuietRule(rules, k)
  {
    var lists := ErrorLists(rules, |rules|);
    FlattenEmpty(lists);
    assert forall k :: 0 <= k < |rules| ==> (QuietRule(rules, k) <==> |lists[k]| == 0);
  }

  /** A document scans without a complaint exactly when every rule is sound and no id repeats. */
  lemma CleanScanExactly(rules: seq<RuleNode>)
    ensures DocumentErrors(rules, |rules|) == [] <==> AllSound(rules, |rules|)
  {
    QuietRules(rules);
    forall k | 0 <= k < |rules| ensures QuietRule(rules, k) <==> SoundAndNew(rules, k) {
      QuietRuleExactly(rules, k);
    }
  }

  /** Then every rule has a record. */
  lemma {:induction false} CleanScanDocumentsAll(rules: seq<RuleNode>, n: nat)
    requires n <= |rules| && AllSound(rules, n)
    ensures |DocumentedUpTo(rules, n)| == n
  {
    if n > 0 {
      AllSoundNext(rules, n - 1);
      CleanScanDocumentsAll(rules, n - 1);
      assert Documented(rules, n - 1);
    }
  }

  lemma AllSoundNext(rules: seq<RuleNode>, n: nat)
    requires n < |rules|
    ensures AllSound(rules, n + 1) <==> AllSound(rules, n) && SoundAndNew(rules, n)
  {
  }

  /**
    What a complaint-free record tells a reader: its signals are exactly the leaf names, they decide
    the truth of the rule, and so does the rule read back from its line.
   */
  lemma RecordTellsRule(record: ScannedRule, r: RuleNode, holds: Comparison, env: Signals, env': Signals)
    requires RecordFor(record, r) && Extract(r.expression, [], 1).1 == []
    requires forall x :: x in record.signals ==> env(x) == env'(x)
    ensures WellFormed(r.expression)
    ensures forall x :: x in record.signals <==> x in LeafNames(r.expression)
    ensures Truth(r.expression, holds, env) == Truth(r.expression, holds, env')
    ensures ParseLogic(record.line).Parses? && ParseLogic(record.line).rest == []
    ensures LogicTruth(ParseLogic(record.line).value, holds, env) == Truth(r.expression, holds, env)
  {
    SilentFindsLeaves(r.expression, [], 1);
    assert forall x :: x in LeafNames(r.expression) <==> x in ToSet(Extract(r.expression, [], 1).0);
    LeavesDecideTruth(r.expression, holds, env, env');
    ParsePrinted(r.expression, []);
    assert Print(r.expression) + [] == Print(r.expression);
    CollapseKeepsTruth(r.expression, holds, env);
  }
}
