/** Module dependencies and the saved install state (tools/tarka.py). */
module InstallState {
  import opened Text

  /** What each known module requires. */
  type Registry = map<string, seq<string>>

  const CORE := "core"

  /** Every requirement is itself a module, and the core module requires nothing. */
  predicate Sound(reg: Registry) {
    && CORE in reg && reg[CORE] == []
    && forall m, d :: m in reg && d in reg[m] ==> d in reg
  }

  predicate Requires(reg: Registry, m: string, d: string) {
    m in reg && d in reg[m]
  }

  predicate Closed(reg: Registry, s: set<string>) {
    forall m, d :: m in s && m in reg && d in reg[m] ==> d in s
  }

  // --- What the resolver should return: everything reachable ---

  /** A chain of requirements from its first module to its last. */
  ghost predicate Chain(reg: Registry, p: seq<string>) {
    p != [] && forall i :: 0 <= i < |p| - 1 ==> Requires(reg, p[i], p[i + 1])
  }

  /** Some module of s needs x, directly or through others, or is x. */
  ghost predicate Needed(reg: Registry, s: set<string>, x: string) {
    exists p :: Chain(reg, p) && p[0] in s && p[|p| - 1] == x
  }

  lemma {:induction false} ClosedHoldsChains(reg: Registry, c: set<string>, p: seq<string>)
    requires Closed(reg, c) && Chain(reg, p) && p[0] in c
    ensures p[|p| - 1] in c
  {
    if |p| > 1 {
      var front := p[..|p| - 1];
      assert forall i :: 0 <= i < |front| - 1 ==> Requires(reg, front[i], front[i + 1]);
      ClosedHoldsChains(reg, c, front);
      assert Requires(reg, p[|p| - 2], p[|p| - 1]);
    }
  }

  lemma NeededGrows(reg: Registry, s: set<string>, m: string, d: string)
    requires Needed(reg, s, m) && Requires(reg, m, d)
    ensures Needed(reg, s, d)
  {
    var p :| Chain(reg, p) && p[0] in s && p[|p| - 1] == m;
    var q := p + [d];
    assert forall i :: 0 <= i < |q| - 1 ==> Requires(reg, q[i], q[i + 1]);
    assert Chain(reg, q) && q[0] in s && q[|q| - 1] == d;
  }

  lemma SelfNeeded(reg: Registry, s: set<string>, m: string)
    requires m in s
    ensures Needed(reg, s, m)
  {
    assert Chain(reg, [m]) && [m][0] in s;
  }

  /** The members of r are exactly the modules that the selection needs, and the core. */
  ghost predicate Resolves(reg: Registry, selected: set<string>, r: set<string>) {
    forall x :: x in r <==> x == CORE || Needed(reg, selected, x)
  }

  /** That is the least closed set with the selection and the core. */
  lemma ResolvesIsLeast(reg: Registry, selected: set<string>, r: set<string>, c: set<string>)
    requires Sound(reg) && Resolves(reg, selected, r)
    ensures Closed(reg, r) && selected <= r && CORE in r
    ensures Closed(reg, c) && selected <= c && CORE in c ==> r <= c
  {
    forall m, d | m in r && m in reg && d in reg[m] ensures d in r {
      if m != CORE { NeededGrows(reg, selected, m, d); }
    }
    forall m | m in selected ensures m in r { SelfNeeded(reg, selected, m); }
    if Closed(reg, c) && selected <= c && CORE in c {
      forall x | x in r && x != CORE ensures x in c {
        var p :| Chain(reg, p) && p[0] in selected && p[|p| - 1] == x;
        ClosedHoldsChains(reg, c, p);
      }
    }
  }

  /**
    The core is added after the fixpoint, so for any registry the result is closed exactly when the selection needs
    everything that the core requires.
   */
  lemma ClosedExactly(reg: Registry, selected: set<string>, r: set<string>)
    requires Resolves(reg, selected, r)
    ensures Closed(reg, r) <==> forall d :: Requires(reg, CORE, d) ==> d == CORE || Needed(reg, selected, d)
  {
    forall m, d | m in r && m != CORE && Requires(reg, m, d) ensures d in r {
      NeededGrows(reg, selected, m, d);
    }
    if Closed(reg, r) {
      forall d | Requires(reg, CORE, d) ensures d in r { assert CORE in r; }
    }
  }

  /** Any core with a requirement breaks it: with nothing selected the core comes alone. */
  lemma CoreCanMissRequirements(d: string, r: set<string>)
    requires d != CORE && Resolves(map[CORE := [d]], {}, r)
    ensures r == {CORE} && !Closed(map[CORE := [d]], r)
  {
    var reg := map[CORE := [d]];
    forall x ensures !Needed(reg, {}, x) {}
    assert CORE in r && d in reg[CORE] && d !in r;
  }

  // --- The resolver ---

  function Universe(reg: Registry): set<string> {
    set m, d | m in reg && d in reg[m] :: d
  }

  ghost predicate AllNeeded(reg: Registry, s: set<string>, r: set<string>) {
    forall x :: x in r ==> Needed(reg, s, x)
  }

  /** One requirement list: whatever is missing is added. */
  method AddRequirements(reg: Registry, m: string, resolved: set<string>, ghost selected: set<string>)
    returns (out: set<string>, added: bool)
    requires m in reg && m in resolved && AllNeeded(reg, selected, resolved)
    ensures resolved <= out && AllNeeded(reg, selected, out)
    ensures forall d :: d in reg[m] ==> d in out
    ensures out <= resolved + Universe(reg)
    ensures added <==> out != resolved
  {
    out, added := resolved, false;
    var deps := reg[m];
    for i := 0 to |deps|
      invariant resolved <= out <= resolved + Universe(reg)
      invariant AllNeeded(reg, selected, out)
      invariant forall j :: 0 <= j < i ==> deps[j] in out
      invariant added <==> out != resolved
    {
      if deps[i] !in out {
        NeededGrows(reg, selected, m, deps[i]);
        out := out + {deps[i]};
        added := true;
      }
    }
  }

  /** One pass over a snapshot of the set. */
  method Pass(reg: Registry, resolved: set<string>, ghost selected: set<string>)
    returns (out: set<string>, changed: bool)
    requires AllNeeded(reg, selected, resolved)
    ensures resolved <= out <= resolved + Universe(reg) && AllNeeded(reg, selected, out)
    ensures changed <==> out != resolved
    ensures !changed ==> Closed(reg, out)
  {
    out, changed := resolved, false;
    var todo := resolved;
    while todo != {}
      invariant todo <= resolved <= out <= resolved + Universe(reg)
      invariant AllNeeded(reg, selected, out)
      invariant forall m, d :: m in resolved - todo && m in reg && d in reg[m] ==> d in out
      invariant changed <==> out != resolved
      decreases todo
    {
      var m :| m in todo;
      if m in reg {
        var added;
        out, added := AddRequirements(reg, m, out, selected);
        changed := changed || added;
      }
      todo := todo - {m};
    }
  }

  /** The `while changed` loop. */
  method Fixpoint(reg: Registry, selected: set<string>) returns (resolved: set<string>)
    ensures selected <= resolved && Closed(reg, resolved) && AllNeeded(reg, selected, resolved)
  {
    resolved := selected;
    forall m | m in selected ensures Needed(reg, selected, m) { SelfNeeded(reg, selected, m); }
    ghost var bound := selected + Universe(reg);
    var changed := true;
    while changed
      invariant selected <= resolved <= bound
      invariant AllNeeded(reg, selected, resolved)
      invariant !changed ==> Closed(reg, resolved)
      decreases |bound| - |resolved|, changed
    {
      ghost var before := resolved;
      resolved, changed := Pass(reg, resolved, selected);
      Sizes(before, resolved);
      Sizes(resolved, bound);
    }
  }

  lemma ClosedHoldsNeeded(reg: Registry, selected: set<string>, resolved: set<string>, x: string)
    requires selected <= resolved && Closed(reg, resolved) && Needed(reg, selected, x)
    ensures x in resolved
  {
    var p :| Chain(reg, p) && p[0] in selected && p[|p| - 1] == x;
    ClosedHoldsChains(reg, resolved, p);
  }

  /** The resolver returns exactly the needed modules and the core, in the order of `sorted`. */
  method ResolveDependencies(reg: Registry, selected: set<string>) returns (list: seq<string>)
    ensures StrictlySorted(list)
    ensures Resolves(reg, selected, Members(list))
  {
    var resolved := Fixpoint(reg, selected);
    forall x | Needed(reg, selected, x) ensures x in resolved { ClosedHoldsNeeded(reg, selected, resolved, x); }
    if CORE !in resolved {
      resolved := resolved + {CORE};
    }
    list := SortedList(resolved);
    assert forall x :: x in Members(list) <==> x in resolved;
  }

  /** The list depends on the registry and the selection alone, not on the order in which the sets were walked. */
  lemma ResolutionUnique(reg: Registry, selected: set<string>, list: seq<string>, list': seq<string>)
    requires StrictlySorted(list) && Resolves(reg, selected, Members(list))
    requires StrictlySorted(list') && Resolves(reg, selected, Members(list'))
    ensures list == list'
  {
    forall x ensures x in list <==> x in list' {
      assert x in Members(list) <==> x in Members(list');
    }
    SortedListUnique(list, list');
  }

  function Members(list: seq<string>): set<string> {
    set x | x in list
  }

  lemma {:induction false} Sizes(a: set<string>, b: set<string>)
    requires a <= b
    ensures |a| <= |b| && (a != b ==> |a| < |b|)
  {
    if a != b {
      assert b == a + (b - a) && a !! (b - a);
      assert |b| == |a| + |b - a|;
    }
  }

  // --- The saved state ---

  datatype Command =
    | Install(selected: set<string>)
    | Add(modules: set<string>)
    | Remove(modules: set<string>)

  /** What a command leaves in the state file: `after` follows from `before`. */
  ghost predicate Saves(reg: Registry, required: set<string>, before: set<string>, c: Command, after: set<string>) {
    match c
    case Install(selected) =>
      if selected == {} || !(selected <= reg.Keys) then after == before else Resolves(reg, selected, after)
    case Add(modules) =>
      if !(modules <= reg.Keys) then after == before else Resolves(reg, before + modules, after)
    case Remove(modules) =>
      if !(modules <= reg.Keys) || modules * required != {} then after == before
      else Resolves(reg, before - modules, after)
  }

  /** Nothing installed, or the core and everything any installed module requires. */
  predicate EmptyOrClosed(reg: Registry, s: set<string>) {
    s == {} || (CORE in s && Closed(reg, s))
  }

  lemma SavesKeepsClosed(reg: Registry, required: set<string>, before: set<string>, c: Command, after: set<string>)
    requires Sound(reg) && EmptyOrClosed(reg, before) && Saves(reg, required, before, c, after)
    ensures EmptyOrClosed(reg, after)
  {
    if after != before {
      var selected := match c case Install(s) => s case Add(m) => before + m case Remove(m) => before - m;
      ResolvesIsLeast(reg, selected, after, {});
    }
  }

  ghost predicate History(reg: Registry, required: set<string>, states: seq<set<string>>, commands: seq<Command>) {
    && |states| == |commands| + 1 && states[0] == {}
    && forall i :: 0 <= i < |commands| ==> Saves(reg, required, states[i], commands[i], states[i + 1])
  }

  /** After every run of install, add and remove the saved set is empty or closed. */
  lemma {:induction false} AlwaysEmptyOrClosed(reg: Registry, required: set<string>, states: seq<set<string>>,
      commands: seq<Command>, n: nat)
    requires Sound(reg) && History(reg, required, states, commands) && n < |states|
    ensures EmptyOrClosed(reg, states[n])
  {
    if n > 0 {
      AlwaysEmptyOrClosed(reg, required, states, commands, n - 1);
      SavesKeepsClosed(reg, required, states[n - 1], commands[n - 1], states[n]);
    }
  }

  /** An install leaves exactly the core and what its selection needs, whatever was there before. */
  lemma InstallLeavesExactly(reg: Registry, required: set<string>, before: set<string>, selected: set<string>,
      after: set<string>, x: string)
    requires selected != {} && (forall m :: m in selected ==> m in reg)
    requires Saves(reg, required, before, Install(selected), after)
    ensures x in after <==> x == "core" || Needed(reg, selected, x)
  {
  }

  /** A command that names an unknown module, a removal of a required one, and an empty install change nothing. */
  lemma RefusedChangesNothing(reg: Registry, required: set<string>, before: set<string>, c: Command,
      after: set<string>)
    requires Saves(reg, required, before, c, after)
    requires match c
             case Install(selected) => selected == {} || exists m :: m in selected && m !in reg
             case Add(modules) => exists m :: m in modules && m !in reg
             case Remove(modules) => exists m :: m in modules && (m !in reg || m in required)
    ensures after == before
  {
    if c.Remove? {
      var m :| m in c.modules && (m !in reg || m in required);
      assert m in required ==> m in c.modules * required;
    }
  }

  /**
    Removing takes away exactly those of the named modules that nothing remaining needs, and never
    anything else; a named module that something remaining needs stays. With nothing installed it leaves the core.
   */
  lemma RemoveTakesExactly(reg: Registry, required: set<string>, before: set<string>, modules: set<string>,
      after: set<string>, x: string)
    requires Sound(reg) && CORE in required && EmptyOrClosed(reg, before)
    requires modules <= reg.Keys && modules * required == {}
    requires Saves(reg, required, before, Remove(modules), after)
    ensures if before == {} then after == {"core"} else after <= before
    ensures x in before ==> (x !in after <==> x in modules && !Needed(reg, before - modules, x))
  {
    ResolvesIsLeast(reg, before - modules, after, before);
    if before == {} {
      ResolvesIsLeast(reg, {}, after, {CORE});
      assert before - modules == {};
    }
    assert CORE in modules ==> CORE in modules * required;
    if x in before && x !in modules { SelfNeeded(reg, before - modules, x); }
  }

  /** Adding keeps everything, and what it brings in is needed by the request, or by what was there, or is the core. */
  lemma AddKeepsAndBringsNeeded(reg: Registry, required: set<string>, before: set<string>, modules: set<string>,
      after: set<string>, x: string)
    requires Sound(reg) && EmptyOrClosed(reg, before) && modules <= reg.Keys
    requires Saves(reg, required, before, Add(modules), after)
    ensures before <= after && modules <= after
    ensures x in after - before ==> x == CORE || Needed(reg, modules, x)
  {
    ResolvesIsLeast(reg, before + modules, after, before);
    if x in after - before && x != CORE {
      var p :| Chain(reg, p) && p[0] in before + modules && p[|p| - 1] == x;
      if p[0] in before { ClosedHoldsChains(reg, before, p); }
    }
  }

  class Installer {
    const reg: Registry
    const required: set<string>
    var modules: seq<string>

    ghost function Saved(): set<string>
      reads this
    {
      Members(modules)
    }

    constructor (reg: Registry, required: set<string>)
      ensures this.reg == reg && this.required == required && Saved() == {}
    {
      this.reg, this.required, modules := reg, required, [];
    }

    method CmdInstall(selected: set<string>)
      modifies this
      ensures Saves(reg, required, old(Saved()), Install(selected), Saved())
    {
      if selected == {} || !(selected <= reg.Keys) {
        return;
      }
      modules := ResolveDependencies(reg, selected);
    }

    method CmdAdd(newModules: set<string>)
      modifies this
      ensures Saves(reg, required, old(Saved()), Add(newModules), Saved())
    {
      var current := Members(modules);
      if !(newModules <= reg.Keys) {
        return;
      }
      var resolved := ResolveDependencies(reg, current + newModules);
      var added := Members(resolved) - current;
      if added == {} {
        forall m | m in current ensures m in Members(resolved) { SelfNeeded(reg, current + newModules, m); }
        forall m | m in Members(resolved) ensures m in current { assert m !in added; }
        assert Members(resolved) == current;
        return;
      }
      modules := resolved;
    }

    method CmdRemove(toRemove: set<string>)
      modifies this
      ensures Saves(reg, required, old(Saved()), Remove(toRemove), Saved())
    {
      var current := Members(modules);
      if !(toRemove <= reg.Keys) || toRemove * required != {} {
        return;
      }
      modules := ResolveDependencies(reg, current - toRemove);
    }
  }
}
