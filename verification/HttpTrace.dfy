/** What it means for two callback traces to be the same for an application that may be handed
    its data in arbitrary pieces: equal once adjacent data callbacks of one kind are merged and
    empty ones dropped. The flattened trace characterises this relation. */
module HttpTrace {
  import opened Sequences
  import opened HttpTypes
  import opened HttpSwitch
  import opened HttpSpec
  import opened HttpExecute

  /** Append a callback to a merged trace. */
  function Glue(m: seq<Callback>, c: Callback): seq<Callback> {
    if c.Data? && c.bytes == [] then m
    else if c.Data? && m != [] && m[|m| - 1].Data? && m[|m| - 1].kind == c.kind then
      m[..|m| - 1] + [Data(c.kind, m[|m| - 1].bytes + c.bytes)]
    else m + [c]
  }

  function Merge(calls: seq<Callback>): seq<Callback> {
    if calls == [] then [] else Glue(Merge(calls[..|calls| - 1]), calls[|calls| - 1])
  }

  function Single(a: Atom): Callback {
    match a case Byte(k, ch) => Data(k, [ch]) case Event(n) => Notice(n)
  }

  /** The merged trace rebuilt from atoms alone. */
  function Regroup(atoms: seq<Atom>): seq<Callback> {
    if atoms == [] then [] else Glue(Regroup(atoms[..|atoms| - 1]), Single(atoms[|atoms| - 1]))
  }

  lemma GlueFlatten(m: seq<Callback>, c: Callback)
    ensures Flatten(Glue(m, c)) == Flatten(m) + FlattenOne(c)
  {
    if c.Data? && c.bytes == [] {
      assert FlattenOne(c) == [];
    } else if c.Data? && m != [] && m[|m| - 1].Data? && m[|m| - 1].kind == c.kind {
      hide Flatten, Text;
      var front, last := m[..|m| - 1], m[|m| - 1];
      assert m == front + [last];
      FlattenAdd(front, last);
      FlattenAdd(front, Data(c.kind, last.bytes + c.bytes));
      TextConcat(c.kind, last.bytes, c.bytes);
      Assoc(Flatten(front), Text(c.kind, last.bytes), Text(c.kind, c.bytes));
    } else {
      hide Flatten, FlattenOne;
      FlattenAdd(m, c);
    }
  }

  lemma {:induction false} MergeFlatten(calls: seq<Callback>)
    ensures Flatten(Merge(calls)) == Flatten(calls)
  {
    if calls != [] {
      MergeFlatten(calls[..|calls| - 1]);
      GlueFlatten(Merge(calls[..|calls| - 1]), calls[|calls| - 1]);
    }
  }

  lemma GlueSame(front: seq<Callback>, k: DataKind, before: string, s: string)
    requires s != []
    ensures Glue(front + [Data(k, before)], Data(k, s)) == front + [Data(k, before + s)]
  {
    var m := front + [Data(k, before)];
    assert m[..|m| - 1] == front && m[|m| - 1] == Data(k, before);
  }

  predicate Continues(m: seq<Callback>, k: DataKind) { m != [] && m[|m| - 1].Data? && m[|m| - 1].kind == k }

  lemma GlueNew(m: seq<Callback>, k: DataKind, s: string)
    requires s != [] && !Continues(m, k)
    ensures Glue(m, Data(k, s)) == m + [Data(k, s)]
  {
  }

  lemma GlueTwice(m: seq<Callback>, k: DataKind, s: string, ch: char)
    ensures Glue(Glue(m, Data(k, s)), Data(k, [ch])) == Glue(m, Data(k, s + [ch]))
  {
    hide Glue;
    if s == [] {
      GlueNothing(m, k);
      assert s + [ch] == [ch];
    } else if Continues(m, k) {
      var front, b := m[..|m| - 1], m[|m| - 1].bytes;
      assert m == front + [Data(k, b)];
      GlueSame(front, k, b, s);
      GlueSame(front, k, b + s, [ch]);
      GlueSame(front, k, b, s + [ch]);
      Assoc(b, s, [ch]);
    } else {
      GlueNew(m, k, s);
      GlueSame(m, k, s, [ch]);
      GlueNew(m, k, s + [ch]);
    }
  }

  lemma GlueNothing(m: seq<Callback>, k: DataKind)
    ensures Glue(m, Data(k, [])) == m
  {
  }

  lemma RegroupAdd(atoms: seq<Atom>, a: Atom)
    ensures Regroup(atoms + [a]) == Glue(Regroup(atoms), Single(a))
  {
    hide Glue;
    assert (atoms + [a])[..|atoms|] == atoms;
  }

  lemma TextAdd(k: DataKind, s: string, ch: char)
    ensures Text(k, s + [ch]) == Text(k, s) + [Byte(k, ch)] && Text(k, []) == []
  {
  }

  lemma {:induction false} RegroupText(atoms: seq<Atom>, k: DataKind, s: string)
    ensures Regroup(atoms + Text(k, s)) == Glue(Regroup(atoms), Data(k, s))
  {
    hide Glue, Regroup, Text;
    if s == [] {
      TextAdd(k, [], 'x');
      assert atoms + Text(k, s) == atoms;
      GlueNothing(Regroup(atoms), k);
    } else {
      var front, last := s[..|s| - 1], s[|s| - 1];
      assert s == front + [last];
      RegroupText(atoms, k, front);
      TextAdd(k, front, last);
      Assoc(atoms, Text(k, front), [Byte(k, last)]);
      RegroupAdd(atoms + Text(k, front), Byte(k, last));
      GlueTwice(Regroup(atoms), k, front, last);
    }
  }

  lemma {:induction false} RegroupFlatten(calls: seq<Callback>)
    ensures Regroup(Flatten(calls)) == Merge(calls)
  {
    if calls != [] {
      var n := |calls| - 1;
      RegroupFlatten(calls[..n]);
      match calls[n]
      case Data(k, bytes) => RegroupText(Flatten(calls[..n]), k, bytes);
      case Notice(note) =>
        var all := Flatten(calls);
        assert all[..|all| - 1] == Flatten(calls[..n]);
    }
  }

  /** Two traces merge to the same trace exactly when they flatten to the same atoms. */
  lemma SameTrace(x: seq<Callback>, y: seq<Callback>)
    ensures Merge(x) == Merge(y) <==> Flatten(x) == Flatten(y)
  {
    RegroupFlatten(x);
    RegroupFlatten(y);
    MergeFlatten(x);
    MergeFlatten(y);
  }

  lemma {:induction false} FlattenConcat(x: seq<Callback>, y: seq<Callback>)
    ensures Flatten(x + y) == Flatten(x) + Flatten(y)
  {
    if y == [] {
      assert x + y == x;
    } else {
      hide Flatten, FlattenOne;
      var front, last := y[..|y| - 1], y[|y| - 1];
      FlattenConcat(x, front);
      assert y == front + [last];
      Assoc(x, front, [last]);
      FlattenAdd(x + front, last);
      FlattenAdd(front, last);
      Assoc(Flatten(x), Flatten(front), FlattenOne(last));
    }
  }

  /** Split invariance: from any reachable record, executing a and then b leaves the same record as executing a + b
      unless a ends in an upgrade, and the same merged trace if in addition no error occurs. */
  lemma SplitInvariance(
    start: Parser, a: string, b: string, whole: Parser, calls: seq<Callback>, n: nat,
    middle: Parser, first: seq<Callback>, i: nat, end: Parser, second: seq<Callback>, j: nat)
    requires Inv(start, 0) && Run(start, a).exit != Upgraded
    requires Executed(start, a + b, whole, calls, n)
    requires Executed(start, a, middle, first, i) && Executed(middle, b, end, second, j)
    ensures end == whole && (whole.errno == OK ==> Merge(first + second) == Merge(calls) && n == i + j)
  {
    hide Run, StateInv, Flatten, Merge;
    RunSplit(start, a, b);
    NoAssertFails(start, a);
    NoAssertFails(start, a + b);
    FlattenConcat(first, second);
    SameTrace(calls, first + second);
  }

  // ---- Any number of buffers ----

  function Joined(pieces: seq<string>): string {
    if pieces == [] then [] else Joined(pieces[..|pieces| - 1]) + pieces[|pieces| - 1]
  }

  /** The buffers handed over one by one: records[i] before the i-th call, calls[i] its callbacks. */
  predicate ExecutedEach(pieces: seq<string>, records: seq<Parser>, calls: seq<seq<Callback>>, parsed: seq<nat>) {
    |records| == |pieces| + 1 && |calls| == |pieces| && |parsed| == |pieces| &&
    forall i :: 0 <= i < |pieces| ==> Executed(records[i], pieces[i], records[i + 1], calls[i], parsed[i])
  }

  function AllCalls(calls: seq<seq<Callback>>): seq<Callback> {
    if calls == [] then [] else AllCalls(calls[..|calls| - 1]) + calls[|calls| - 1]
  }

  /** No buffer but the last ends in an upgrade. */
  predicate NoEarlyUpgrade(start: Parser, pieces: seq<string>) {
    pieces == [] || Run(start, Joined(pieces[..|pieces| - 1])).exit != Upgraded
  }

  lemma EarlierStill(start: Parser, pieces: seq<string>)
    requires pieces != [] && NoEarlyUpgrade(start, pieces)
    ensures NoEarlyUpgrade(start, pieces[..|pieces| - 1])
  {
    var front := pieces[..|pieces| - 1];
    if front != [] {
      RunSplit(start, Joined(front[..|front| - 1]), front[|front| - 1]);
    }
  }

  /** The record and the trace after the pieces are those of the reference run over their concatenation. */
  lemma {:induction false} PiecesRun(
    start: Parser, pieces: seq<string>, records: seq<Parser>, calls: seq<seq<Callback>>, parsed: seq<nat>)
    requires Inv(start, 0) && ExecutedEach(pieces, records, calls, parsed) && records[0] == start
    requires NoEarlyUpgrade(start, pieces)
    ensures var r := Run(start, Joined(pieces));
            records[|pieces|] == r.parser && (r.exit != Failed ==> Flatten(AllCalls(calls)) == r.atoms)
    decreases |pieces|
  {
    if pieces == [] {
      RunEmpty(start);
    } else {
      var n := |pieces| - 1;
      EarlierStill(start, pieces);
      EachFront(pieces, records, calls, parsed);
      assert Executed(records[n], pieces[n], records[n + 1], calls[n], parsed[n]);
      hide Run, Inv, Flatten, Executed, ExecutedEach;
      PiecesRun(start, pieces[..n], records[..n + 1], calls[..n], parsed[..n]);
      PieceRun(start, Joined(pieces[..n]), records[n], AllCalls(calls[..n]), pieces[n], records[n + 1], calls[n], parsed[n]);
    }
  }

  lemma EachFront(pieces: seq<string>, records: seq<Parser>, calls: seq<seq<Callback>>, parsed: seq<nat>)
    requires pieces != [] && ExecutedEach(pieces, records, calls, parsed)
    ensures var n := |pieces| - 1; ExecutedEach(pieces[..n], records[..n + 1], calls[..n], parsed[..n])
  {
    hide Executed;
  }

  /** One more buffer. */
  lemma PieceRun(
    start: Parser, done: string, middle: Parser, calls: seq<Callback>, piece: string, end: Parser,
    made: seq<Callback>, n: nat)
    requires Inv(start, 0) && Run(start, done).exit != Upgraded && Run(start, done).parser == middle
    requires Run(start, done).exit != Failed ==> Flatten(calls) == Run(start, done).atoms
    requires Executed(middle, piece, end, made, n)
    ensures var r := Run(start, done + piece);
            end == r.parser && (r.exit != Failed ==> Flatten(calls + made) == r.atoms)
  {
    hide Run, StateInv, Flatten;
    NoAssertFails(start, done);
    RunSplit(start, done, piece);
    FlattenConcat(calls, made);
  }

  /** The same for a stream cut into any number of buffers: handing them over one by one leaves the record of handing
      over the whole stream at once, errors included, and the same merged trace if there is none. */
  lemma AnySegmentation(
    start: Parser, pieces: seq<string>, records: seq<Parser>, calls: seq<seq<Callback>>, parsed: seq<nat>,
    whole: Parser, atOnce: seq<Callback>, n: nat)
    requires Inv(start, 0) && ExecutedEach(pieces, records, calls, parsed) && records[0] == start
    requires NoEarlyUpgrade(start, pieces) && Executed(start, Joined(pieces), whole, atOnce, n)
    ensures records[|pieces|] == whole
    ensures whole.errno == OK ==> Merge(AllCalls(calls)) == Merge(atOnce)
  {
    hide Run, StateInv, Flatten, Merge, ExecutedEach, NoEarlyUpgrade;
    PiecesRun(start, pieces, records, calls, parsed);
    NoAssertFails(start, Joined(pieces));
    SameTrace(AllCalls(calls), atOnce);
  }

  /** The parser object, given any stream in any nonempty pieces, goes through such records. */
  method ExecuteAll(p: HttpParser, pieces: seq<string>)
    returns (ghost records: seq<Parser>, calls: seq<seq<Callback>>, parsed: seq<nat>)
    requires p.Valid() && forall i :: 0 <= i < |pieces| ==> pieces[i] != []
    modifies p
    ensures p.Valid() && ExecutedEach(pieces, records, calls, parsed)
    ensures records[0] == old(p.rec) && records[|pieces|] == p.rec
  {
    hide Executed;
    records, calls, parsed := [p.rec], [], [];
    for i := 0 to |pieces|
      invariant p.Valid() && |records| == i + 1 && |calls| == i && |parsed| == i
      invariant records[0] == old(p.rec) && records[i] == p.rec
      invariant forall k :: 0 <= k < i ==> Executed(records[k], pieces[k], records[k + 1], calls[k], parsed[k])
    {
      var made, n := p.Execute(pieces[i]);
      records, calls, parsed := records + [p.rec], calls + [made], parsed + [n];
    }
  }
}
