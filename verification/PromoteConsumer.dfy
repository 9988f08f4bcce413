/** The idempotent consumer of pack-promote export lines (scripts/pack_promote_export_consumer.py). */
module PromoteConsumer {
  import opened Basics

  datatype Key = Key(packId: string, packHash: string, emittedAt: string)

  /** A parsed event: its idempotency key, and the commit stub rendered from all its fields. */
  datatype Event = Event(key: Key, stub: string)

  datatype Line = Blank | Malformed | Valid(e: Event)

  datatype Result = Written(key: Key) | Idempotent(key: Key) | Rejected

  /** The output directory and the outbound calls made so far. */
  datatype Sink = Sink(files: map<string, string>, notified: seq<Key>)

  /** Where artifacts go, whether a notify URL is set, and which notify calls go through. */
  datatype World = World(path: Key -> string, notify: bool, accepts: Event -> bool)

  /** No line with another key has the path of key k. */
  predicate OwnPath(w: World, lines: seq<Line>, k: Key) {
    forall i :: 0 <= i < |lines| && lines[i].Valid? && w.path(lines[i].e.key) == w.path(k) ==> lines[i].e.key == k
  }

  // --- One event, one log ---

  function Deliver(w: World, s: Sink, e: Event): Sink {
    if w.path(e.key) in s.files then s
    else Sink(s.files[w.path(e.key) := e.stub], if w.notify then s.notified + [e.key] else s.notified)
  }

  /** A notify call that raises ends the whole run; the file is already written then. */
  predicate Raises(w: World, s: Sink, l: Line) {
    l.Valid? && w.path(l.e.key) !in s.files && w.notify && !w.accepts(l.e)
  }

  function Feed(w: World, s: Sink, l: Line): Sink {
    if l.Valid? then Deliver(w, s, l.e) else s
  }

  function ResultOf(w: World, s: Sink, l: Line): seq<Result> {
    match l
    case Blank => []
    case Malformed => [Rejected]
    case Valid(e) => [if w.path(e.key) in s.files then Idempotent(e.key) else Written(e.key)]
  }

  /** `done` counts the lines handled, the raising one included. */
  datatype Outcome = Outcome(sink: Sink, results: seq<Result>, done: nat, raised: bool)

  function Consume(w: World, s: Sink, lines: seq<Line>): (o: Outcome)
    ensures o.done <= |lines| && (!o.raised ==> o.done == |lines|)
    decreases |lines|
  {
    if lines == [] then Outcome(s, [], 0, false)
    else if Raises(w, s, lines[0]) then Outcome(Feed(w, s, lines[0]), [], 1, true)
    else
      var o := Consume(w, Feed(w, s, lines[0]), lines[1..]);
      o.(results := ResultOf(w, s, lines[0]) + o.results, done := o.done + 1)
  }

  // --- What the directory holds ---

  function First(lines: seq<Line>, k: Key): Option<Event> {
    if lines == [] then None
    else if lines[0].Valid? && lines[0].e.key == k then Some(lines[0].e)
    else First(lines[1..], k)
  }

  function FileAt(s: Sink, path: string): Option<string> {
    if path in s.files then Some(s.files[path]) else None
  }

  /** One file per distinct key among the handled lines, with the content of the key's first event. */
  lemma {:induction false} DirectoryHoldsFirst(w: World, s: Sink, lines: seq<Line>, k: Key)
    requires OwnPath(w, lines, k)
    ensures var o := Consume(w, s, lines);
            FileAt(o.sink, w.path(k)) ==
              if w.path(k) in s.files then FileAt(s, w.path(k))
              else match First(lines[..o.done], k) case Some(e) => Some(e.stub) case None => None
    decreases |lines|
  {
    if lines != [] {
      var o := Consume(w, s, lines);
      var s' := Feed(w, s, lines[0]);
      assert lines[..o.done][1..] == lines[1..][..o.done - 1];
      if Raises(w, s, lines[0]) {
        assert lines[..1][1..] == [];
      } else {
        DirectoryHoldsFirst(w, s', lines[1..], k);
      }
    }
  }

  /** And no other file. */
  lemma {:induction false} DirectoryHoldsOnly(w: World, s: Sink, lines: seq<Line>, path: string)
    requires path in Consume(w, s, lines).sink.files
    ensures || path in s.files
            || exists i :: 0 <= i < Consume(w, s, lines).done && lines[i].Valid? && w.path(lines[i].e.key) == path
    decreases |lines|
  {
    if lines != [] {
      var s' := Feed(w, s, lines[0]);
      if !Raises(w, s, lines[0]) {
        DirectoryHoldsOnly(w, s', lines[1..], path);
        if path !in s'.files {
          var i :| 0 <= i < Consume(w, s', lines[1..]).done && lines[1..][i].Valid?
              && w.path(lines[1..][i].e.key) == path;
          assert lines[i + 1] == lines[1..][i];
        }
      }
    }
  }

  // --- Notifications ---

  /** A key has been notified at most once, and only after its file was written. */
  predicate Orderly(w: World, s: Sink) {
    Distinct(s.notified) && forall i :: 0 <= i < |s.notified| ==> w.path(s.notified[i]) in s.files
  }

  lemma DeliverOrderly(w: World, s: Sink, e: Event)
    requires Orderly(w, s)
    ensures Orderly(w, Deliver(w, s, e))
  {
  }

  lemma {:induction false} ConsumeOrderly(w: World, s: Sink, lines: seq<Line>)
    requires Orderly(w, s)
    ensures Orderly(w, Consume(w, s, lines).sink)
    decreases |lines|
  {
    if lines != [] {
      if lines[0].Valid? { DeliverOrderly(w, s, lines[0].e); }
      if !Raises(w, s, lines[0]) { ConsumeOrderly(w, Feed(w, s, lines[0]), lines[1..]); }
    }
  }

  /** Over any number of runs, on any logs, with any notify calls raising, no key is notified twice. */
  lemma {:induction false} NotifiedAtMostOnce(w: World, accepts: seq<Event -> bool>, logs: seq<seq<Line>>)
    requires |accepts| == |logs|
    ensures Orderly(w, RunAll(w, accepts, logs))
  {
    if logs != [] {
      var n := |logs| - 1;
      NotifiedAtMostOnce(w, accepts[..n], logs[..n]);
      var w' := w.(accepts := accepts[n]);
      assert Orderly(w', RunAll(w, accepts[..n], logs[..n]));
      ConsumeOrderly(w', RunAll(w, accepts[..n], logs[..n]), logs[n]);
    }
  }

  // --- Which lines write and notify, by position ---

  /** A valid line whose path was not in the directory at the start and is that of no earlier valid line. */
  predicate NewAt(w: World, s: Sink, lines: seq<Line>, i: nat) {
    && i < |lines| && lines[i].Valid? && w.path(lines[i].e.key) !in s.files
    && forall j :: 0 <= j < i && lines[j].Valid? ==> w.path(lines[j].e.key) != w.path(lines[i].e.key)
  }

  /** A new line whose notify call raises. */
  predicate FailsAt(w: World, s: Sink, lines: seq<Line>, i: nat) {
    NewAt(w, s, lines, i) && w.notify && !w.accepts(lines[i].e)
  }

  predicate Rising(at: seq<nat>) {
    forall i, j :: 0 <= i < j < |at| ==> at[i] < at[j]
  }

  function KeysAt(lines: seq<Line>, at: seq<nat>): (r: seq<Key>)
    requires forall i :: 0 <= i < |at| ==> at[i] < |lines| && lines[at[i]].Valid?
    ensures |r| == |at| && forall i :: 0 <= i < |r| ==> r[i] == lines[at[i]].e.key
  {
    seq(|at|, i requires 0 <= i < |at| => lines[at[i]].e.key)
  }

  /** Positions in a log, for the log with one more line in front. */
  function Later(at: seq<nat>): (r: seq<nat>)
    ensures |r| == |at| && forall i :: 0 <= i < |r| ==> r[i] == at[i] + 1
  {
    seq(|at|, i requires 0 <= i < |at| => at[i] + 1)
  }

  /** A line is new to the rest of the log exactly when it is new to the whole. */
  lemma NewLater(w: World, s: Sink, lines: seq<Line>, i: nat)
    requires lines != []
    ensures NewAt(w, Feed(w, s, lines[0]), lines[1..], i) <==> NewAt(w, s, lines, i + 1)
  {
    if i + 1 < |lines| {
      assert lines[1..][i] == lines[i + 1];
      assert forall j :: 0 <= j < i ==> lines[1..][j] == lines[j + 1];
      if NewAt(w, Feed(w, s, lines[0]), lines[1..], i) {
        forall j | 0 <= j < i + 1 && lines[j].Valid? ensures w.path(lines[j].e.key) != w.path(lines[i + 1].e.key) {
          if j > 0 { assert lines[j] == lines[1..][j - 1]; }
        }
      }
    }
  }

  lemma NewFirst(w: World, s: Sink, lines: seq<Line>)
    requires lines != []
    ensures NewAt(w, s, lines, 0) <==> lines[0].Valid? && w.path(lines[0].e.key) !in s.files
  {
  }

  /** A run ends in a raise exactly at the first new line whose notify call fails, and handles all lines otherwise. */
  lemma {:induction false} RaisesExactly(w: World, s: Sink, lines: seq<Line>)
    ensures var o := Consume(w, s, lines);
            && (forall i: nat :: FailsAt(w, s, lines, i) ==> o.raised && i + 1 >= o.done)
            && (o.raised ==> o.done >= 1 && FailsAt(w, s, lines, o.done - 1))
            && (!o.raised ==> o.done == |lines|)
    decreases |lines|
  {
    if lines != [] {
      NewFirst(w, s, lines);
      if !Raises(w, s, lines[0]) {
        var s', rest := Feed(w, s, lines[0]), lines[1..];
        RaisesExactly(w, s', rest);
        forall i: nat ensures FailsAt(w, s', rest, i) <==> FailsAt(w, s, lines, i + 1) {
          NewLater(w, s, lines, i);
        }
        forall i: nat | FailsAt(w, s, lines, i) ensures Consume(w, s', rest).raised && i >= Consume(w, s', rest).done {
          assert i > 0 && FailsAt(w, s', rest, i - 1);
        }
      }
    }
  }

  /** The positions are those of the new lines among the first n, in order. */
  ghost predicate ListsNew(w: World, s: Sink, lines: seq<Line>, n: nat, at: seq<nat>) {
    Rising(at) && forall i: nat :: i in at <==> i < n && NewAt(w, s, lines, i)
  }

  lemma ListsNewLater(w: World, s: Sink, lines: seq<Line>, n: nat, at: seq<nat>)
    requires lines != [] && ListsNew(w, Feed(w, s, lines[0]), lines[1..], n, at)
    ensures ListsNew(w, s, lines, n + 1, (if NewAt(w, s, lines, 0) then [0] else []) + Later(at))
  {
    var head := if NewAt(w, s, lines, 0) then [0] else [];
    var all := head + Later(at);
    forall i: nat ensures i in all <==> i < n + 1 && NewAt(w, s, lines, i) {
      if i > 0 {
        NewLater(w, s, lines, i - 1);
        LaterHas(at, i - 1);
      }
    }
  }

  lemma LaterHas(at: seq<nat>, i: nat)
    ensures i + 1 in Later(at) <==> i in at
  {
    if i in at { var k :| 0 <= k < |at| && at[k] == i; assert Later(at)[k] == i + 1; }
  }

  predicate AllValid(lines: seq<Line>, at: seq<nat>) {
    forall i :: 0 <= i < |at| ==> at[i] < |lines| && lines[at[i]].Valid?
  }

  lemma KeysLater(lines: seq<Line>, head: seq<nat>, tail: seq<nat>)
    requires lines != [] && AllValid(lines, head) && AllValid(lines[1..], tail)
    ensures AllValid(lines, head + Later(tail))
    ensures KeysAt(lines, head + Later(tail)) == KeysAt(lines, head) + KeysAt(lines[1..], tail)
  {
    forall i | 0 <= i < |tail|
      ensures Later(tail)[i] < |lines| && lines[Later(tail)[i]] == lines[1..][tail[i]]
    {
    }
  }

  lemma FeedNotifies(w: World, s: Sink, lines: seq<Line>, head: seq<nat>)
    requires lines != [] && head == if NewAt(w, s, lines, 0) then [0] else []
    ensures AllValid(lines, head)
    ensures Feed(w, s, lines[0]).notified == s.notified + if w.notify then KeysAt(lines, head) else []
  {
    NewFirst(w, s, lines);
  }

  lemma ListedValid(w: World, s: Sink, lines: seq<Line>, n: nat, at: seq<nat>)
    requires ListsNew(w, s, lines, n, at)
    ensures AllValid(lines, at)
  {
    forall i | 0 <= i < |at| ensures at[i] < |lines| && lines[at[i]].Valid? { assert at[i] in at; }
  }

  /**
    With a notify URL a run calls, in order and once each, for exactly the new lines among those it handles; without
    one it calls nobody.
   */
  lemma {:induction false} NotifiesExactly(w: World, s: Sink, lines: seq<Line>) returns (at: seq<nat>)
    ensures ListsNew(w, s, lines, Consume(w, s, lines).done, at) && AllValid(lines, at)
    ensures Consume(w, s, lines).sink.notified == s.notified + if w.notify then KeysAt(lines, at) else []
    decreases |lines|
  {
    if lines == [] {
      at := [];
    } else {
      var head: seq<nat> := if NewAt(w, s, lines, 0) then [0] else [];
      FeedNotifies(w, s, lines, head);
      if Raises(w, s, lines[0]) {
        at := head;
      } else {
        var s' := Feed(w, s, lines[0]);
        var tail := NotifiesExactly(w, s', lines[1..]);
        ListsNewLater(w, s, lines, Consume(w, s', lines[1..]).done, tail);
        at := head + Later(tail);
        KeysLater(lines, head, tail);
        SeqAssociative(s.notified, KeysAt(lines, head), KeysAt(lines[1..], tail));
      }
    }
  }

  /** What a line that is not blank is answered with. */
  predicate Answers(w: World, s: Sink, lines: seq<Line>, i: nat, r: Result)
    requires i < |lines|
  {
    match lines[i]
    case Blank => false
    case Malformed => r == Rejected
    case Valid(e) => r == if NewAt(w, s, lines, i) then Written(e.key) else Idempotent(e.key)
  }

  /** The lines that a run gets an answer for: not a blank one, nor one at which the run is ended by a raise. */
  predicate Answered(lines: seq<Line>, o: Outcome, i: nat) {
    i < |lines| && !lines[i].Blank? && i < (if o.raised then o.done - 1 else o.done)
  }

  ghost predicate ListsAnswered(lines: seq<Line>, o: Outcome, at: seq<nat>) {
    Rising(at) && forall i: nat :: i in at <==> Answered(lines, o, i)
  }

  ghost predicate AllAnswered(w: World, s: Sink, lines: seq<Line>, results: seq<Result>, at: seq<nat>) {
    |at| == |results| && forall k :: 0 <= k < |at| ==> at[k] < |lines| && Answers(w, s, lines, at[k], results[k])
  }

  lemma AnswersLater(w: World, s: Sink, lines: seq<Line>, i: nat, r: Result)
    requires lines != [] && i < |lines[1..]|
    ensures Answers(w, Feed(w, s, lines[0]), lines[1..], i, r) <==> Answers(w, s, lines, i + 1, r)
  {
    NewLater(w, s, lines, i);
  }

  lemma ListsAnsweredLater(lines: seq<Line>, rest: Outcome, o: Outcome, at: seq<nat>)
    requires lines != [] && ListsAnswered(lines[1..], rest, at)
    requires o.done == rest.done + 1 && o.raised == rest.raised && (rest.raised ==> rest.done >= 1)
    ensures ListsAnswered(lines, o, (if lines[0].Blank? then [] else [0]) + Later(at))
  {
    var all := (if lines[0].Blank? then [] else [0]) + Later(at);
    forall i: nat ensures i in all <==> Answered(lines, o, i) {
      if i > 0 {
        LaterHas(at, i - 1);
        assert i < |lines| ==> lines[i] == lines[1..][i - 1];
      }
    }
  }

  lemma AllAnsweredLater(w: World, s: Sink, lines: seq<Line>, results: seq<Result>, at: seq<nat>)
    requires lines != [] && AllAnswered(w, Feed(w, s, lines[0]), lines[1..], results, at)
    ensures AllAnswered(w, s, lines, results, Later(at))
  {
    forall k | 0 <= k < |at| ensures at[k] + 1 < |lines| && Answers(w, s, lines, at[k] + 1, results[k]) {
      AnswersLater(w, s, lines, at[k], results[k]);
    }
  }

  lemma AllAnsweredFirst(w: World, s: Sink, lines: seq<Line>, results: seq<Result>, at: seq<nat>)
    requires lines != [] && AllAnswered(w, s, lines, results, at)
    ensures AllAnswered(w, s, lines, ResultOf(w, s, lines[0]) + results, (if lines[0].Blank? then [] else [0]) + at)
  {
    NewFirst(w, s, lines);
  }

  /**
    The answers of a run, one for each line that is neither blank nor the one that ends it, in order: `Written` for
    exactly the new lines, `Idempotent` for the other valid ones, and an error for the malformed.
   */
  lemma {:induction false} ResultsExactly(w: World, s: Sink, lines: seq<Line>) returns (at: seq<nat>)
    ensures ListsAnswered(lines, Consume(w, s, lines), at)
    ensures AllAnswered(w, s, lines, Consume(w, s, lines).results, at)
    decreases |lines|
  {
    at := [];
    if lines != [] && !Raises(w, s, lines[0]) {
      var s' := Feed(w, s, lines[0]);
      var tail := ResultsExactly(w, s', lines[1..]);
      RaisesExactly(w, s', lines[1..]);
      ListsAnsweredLater(lines, Consume(w, s', lines[1..]), Consume(w, s, lines), tail);
      AllAnsweredLater(w, s, lines, Consume(w, s', lines[1..]).results, tail);
      AllAnsweredFirst(w, s, lines, Consume(w, s', lines[1..]).results, Later(tail));
      at := (if lines[0].Blank? then [] else [0]) + Later(tail);
    }
  }

  // --- Runs in turn ---

  /** Runs in turn on one directory; each has its own luck with the notify calls. */
  function RunAll(w: World, accepts: seq<Event -> bool>, logs: seq<seq<Line>>): Sink
    requires |accepts| == |logs|
  {
    if logs == [] then Sink(map[], []) else
      var n := |logs| - 1;
      Consume(w.(accepts := accepts[n]), RunAll(w, accepts[..n], logs[..n]), logs[n]).sink
  }

  // --- Re-consuming and splitting ---

  predicate AllFiled(w: World, s: Sink, lines: seq<Line>) {
    forall i :: 0 <= i < |lines| && lines[i].Valid? ==> w.path(lines[i].e.key) in s.files
  }

  lemma {:induction false} FiledChangesNothing(w: World, s: Sink, lines: seq<Line>)
    requires AllFiled(w, s, lines)
    ensures Consume(w, s, lines).sink == s && !Consume(w, s, lines).raised
  {
    if lines != [] { FiledChangesNothing(w, s, lines[1..]); }
  }

  lemma {:induction false} FilesStay(w: World, s: Sink, lines: seq<Line>)
    ensures s.files.Keys <= Consume(w, s, lines).sink.files.Keys
    decreases |lines|
  {
    if lines != [] && !Raises(w, s, lines[0]) { FilesStay(w, Feed(w, s, lines[0]), lines[1..]); }
  }

  lemma {:induction false} HandledAreFiled(w: World, s: Sink, lines: seq<Line>)
    ensures AllFiled(w, Consume(w, s, lines).sink, lines[..Consume(w, s, lines).done])
    decreases |lines|
  {
    if lines != [] && !Raises(w, s, lines[0]) {
      var s' := Feed(w, s, lines[0]);
      var o := Consume(w, s', lines[1..]);
      HandledAreFiled(w, s', lines[1..]);
      FilesStay(w, s', lines[1..]);
      forall i | 0 <= i < o.done + 1 && lines[i].Valid? ensures w.path(lines[i].e.key) in o.sink.files {
        if i > 0 { assert lines[1..][..o.done][i - 1] == lines[i]; }
      }
    }
  }

  /**
    Re-consuming any part of what was handled writes nothing, notifies nobody and raises nothing,
    even when the first run ended in a raise, and whatever the notify calls would do now.
   */
  lemma ReconsumeChangesNothing(w: World, w': World, s: Sink, lines: seq<Line>, n: nat)
    requires w'.path == w.path
    requires n <= Consume(w, s, lines).done
    ensures var s' := Consume(w, s, lines).sink;
            Consume(w', s', lines[..n]).sink == s' && !Consume(w', s', lines[..n]).raised
  {
    var o := Consume(w, s, lines);
    HandledAreFiled(w, s, lines);
    forall i | 0 <= i < n && lines[i].Valid? ensures w'.path(lines[i].e.key) in o.sink.files {
      assert lines[..o.done][i] == lines[i];
    }
    FiledChangesNothing(w', o.sink, lines[..n]);
  }

  /** Two logs in turn are their concatenation, results included, as long as the first run gets through. */
  lemma {:induction false} ConsumeSplits(w: World, s: Sink, a: seq<Line>, b: seq<Line>)
    ensures var first, both := Consume(w, s, a), Consume(w, s, a + b);
            if first.raised then both == first
            else var second := Consume(w, first.sink, b);
                 both == Outcome(second.sink, first.results + second.results, |a| + second.done, second.raised)
    decreases |a|
  {
    if a == [] {
      assert a + b == b;
      assert [] + Consume(w, s, b).results == Consume(w, s, b).results;
    } else {
      assert (a + b)[1..] == a[1..] + b;
      if !Raises(w, s, a[0]) {
        var s' := Feed(w, s, a[0]);
        ConsumeSplits(w, s', a[1..], b);
        var rest, second := Consume(w, s', a[1..]), Consume(w, Consume(w, s', a[1..]).sink, b);
        assert ResultOf(w, s, a[0]) + (rest.results + second.results)
            == ResultOf(w, s, a[0]) + rest.results + second.results;
      }
    }
  }

  // --- The program: files and calls in place ---

  class Consumer {
    const world: World
    var files: map<string, string>
    var notified: seq<Key>

    ghost function Now(): Sink
      reads this
    {
      Sink(files, notified)
    }

    constructor (world: World)
      ensures this.world == world && Now() == Sink(map[], [])
    {
      this.world := world;
      files, notified := map[], [];
    }

    /** Parses, and only for a new artifact writes the stub and then notifies. */
    method ConsumeEvent(l: Line) returns (r: Result, raised: bool)
      requires !l.Blank?
      modifies this
      ensures Now() == Feed(world, old(Now()), l)
      ensures raised <==> Raises(world, old(Now()), l)
      ensures !raised ==> [r] == ResultOf(world, old(Now()), l)
    {
      if l.Malformed? {
        return Rejected, false;
      }
      var path := world.path(l.e.key);
      if path in files {
        return Idempotent(l.e.key), false;
      }
      files := files[path := l.e.stub];
      if world.notify {
        notified := notified + [l.e.key];
        if !world.accepts(l.e) {
          return Written(l.e.key), true;
        }
      }
      return Written(l.e.key), false;
    }

    method ConsumeJsonl(lines: seq<Line>) returns (results: seq<Result>, raised: bool)
      modifies this
      ensures var o := Consume(world, old(Now()), lines);
              Now() == o.sink && raised == o.raised && (!raised ==> results == o.results)
    {
      results := [];
      for i := 0 to |lines|
        invariant !Consume(world, old(Now()), lines[..i]).raised
        invariant Now() == Consume(world, old(Now()), lines[..i]).sink
        invariant results == Consume(world, old(Now()), lines[..i]).results
      {
        ghost var before := Now();
        assert lines[..i + 1] == lines[..i] + [lines[i]];
        ConsumeSplits(world, old(Now()), lines[..i], [lines[i]]);
        OneLine(world, before, lines[i]);
        if lines[i].Blank? {
          continue;
        }
        var r, fails := ConsumeEvent(lines[i]);
        if fails {
          assert lines == lines[..i + 1] + lines[i + 1..];
          ConsumeSplits(world, old(Now()), lines[..i + 1], lines[i + 1..]);
          return results, true;
        }
        results := results + [r];
      }
      assert lines[..|lines|] == lines;
      raised := false;
    }
  }

  lemma OneLine(w: World, s: Sink, l: Line)
    ensures Consume(w, s, [l]) == if Raises(w, s, l) then Outcome(Feed(w, s, l), [], 1, true)
                                  else Outcome(Feed(w, s, l), ResultOf(w, s, l), 1, false)
  {
    assert [l][1..] == [];
    assert ResultOf(w, s, l) + [] == ResultOf(w, s, l);
  }

  // --- Artifact names ---

  function Joined(k: Key): string {
    k.packId + "|" + k.packHash + "|" + k.emittedAt
  }

  /** The text that is hashed into an artifact name tells keys apart when hash and time hold no bar. */
  lemma JoinedTellsApart(k: Key, k': Key)
    requires '|' !in k.packHash && '|' !in k.emittedAt && '|' !in k'.packHash && '|' !in k'.emittedAt
    requires Joined(k) == Joined(k')
    ensures k == k'
  {
    LastBar(k.packId + "|" + k.packHash, k.emittedAt, k'.packId + "|" + k'.packHash, k'.emittedAt);
    LastBar(k.packId, k.packHash, k'.packId, k'.packHash);
  }

  lemma LastBar(a: string, b: string, a': string, b': string)
    requires a + "|" + b == a' + "|" + b' && '|' !in b && '|' !in b'
    ensures a == a' && b == b'
  {
    var s := a + "|" + b;
    assert s == a' + "|" + b';
    assert s[|a|] == '|' && s[|a'|] == '|';
    assert forall i :: |a| < i < |s| ==> s[i] == b[i - |a| - 1] && s[i] != '|';
    assert forall i :: |a'| < i < |s| ==> s[i] == b'[i - |a'| - 1] && s[i] != '|';
    assert |a| == |a'|;
    assert a == s[..|a|] && a' == s[..|a'|] && b == s[|a| + 1..] && b' == s[|a'| + 1..];
  }

  ghost predicate SharesText(k: Key) {
    exists k' :: k' != k && k'.packId == k.packId && Joined(k') == Joined(k)
  }

  /** Two keys of one pack can share that text exactly when the hash or the time holds a bar. */
  lemma SharesTextExactly(k: Key)
    ensures SharesText(k) <==> '|' in k.packHash || '|' in k.emittedAt
  {
    if i :| 0 <= i < |k.packHash| && k.packHash[i] == '|' {
      var x, y := k.packHash[..i], k.packHash[i + 1..];
      assert k.packHash == x + "|" + y;
      BarMoves(k.packId, x, y, k.emittedAt);
      assert Joined(Key(k.packId, x, y + "|" + k.emittedAt)) == Joined(k);
    } else if i :| 0 <= i < |k.emittedAt| && k.emittedAt[i] == '|' {
      var y, z := k.emittedAt[..i], k.emittedAt[i + 1..];
      assert k.emittedAt == y + "|" + z;
      BarMoves(k.packId, k.packHash, y, z);
      assert Joined(Key(k.packId, k.packHash + "|" + y, z)) == Joined(k);
    } else if SharesText(k) {
      var k' :| k' != k && k'.packId == k.packId && Joined(k') == Joined(k);
      OnlyBar(k.packId, k.packHash, k.emittedAt, k'.packHash, k'.emittedAt);
    }
  }

  lemma BarMoves(p: string, x: string, y: string, z: string)
    ensures Key(p, x + "|" + y, z) != Key(p, x, y + "|" + z)
    ensures Joined(Key(p, x + "|" + y, z)) == Joined(Key(p, x, y + "|" + z))
  {
    assert |x + "|" + y| > |x|;
    assert p + "|" + (x + "|" + y) + "|" + z == p + "|" + x + "|" + (y + "|" + z);
  }

  lemma OnlyBar(p: string, b: string, c: string, b': string, c': string)
    requires p + "|" + b + "|" + c == p + "|" + b' + "|" + c' && '|' !in b && '|' !in c
    ensures b == b' && c == c'
  {
    var s, n := p + "|" + b + "|" + c, |p| + 1;
    assert s == p + "|" + b' + "|" + c';
    assert forall i :: 0 <= i < |b| ==> s[n + i] == b[i];
    assert forall i :: 0 <= i < |c| ==> s[n + |b| + 1 + i] == c[i];
    assert s[n + |b|] == '|' && s[n + |b'|] == '|';
    assert |b| == |b'|;
    assert b == s[n..n + |b|] && b' == s[n..n + |b|];
    assert c == s[n + |b| + 1..] && c' == s[n + |b| + 1..];
  }
}
