/** Bounded-memory deduplication of execution ids, and what it does to the hedge state. */
module ExecDedup {
  import opened HedgeAccounting

  const PROCESSED_EXEC_IDS_MAX := 10_000

  datatype Exec = Exec(execId: string, fill: Fill)

  /** The id set and the FIFO that bounds it. */
  datatype Seen = Seen(ids: set<string>, order: seq<string>)

  const NOTHING := Seen({}, [])

  /** Evict the oldest id when full, then add the new one at both places. */
  function Record(s: Seen, id: string, max: nat): (t: Seen) {
    var e := if |s.order| >= max && s.order != [] then Seen(s.ids - {s.order[0]}, s.order[1..]) else s;
    Seen(e.ids + {id}, e.order + [id])
  }

  datatype Book = Book(seen: Seen, hedge: Hedge)

  const EMPTY_BOOK := Book(NOTHING, FLAT)

  function StepBook(b: Book, x: Exec, max: nat, multiplier: real): (c: Book) {
    if x.execId in b.seen.ids then b
    else Book(Record(b.seen, x.execId, max), Apply(b.hedge, x.fill, multiplier))
  }

  function RunBook(stream: seq<Exec>, max: nat, multiplier: real): (b: Book) {
    if stream == [] then EMPTY_BOOK
    else StepBook(RunBook(stream[..|stream| - 1], max, multiplier), stream[|stream| - 1], max, multiplier)
  }

  // ---- Histories ----

  function Ids(stream: seq<Exec>): (ids: seq<string>)
    ensures |ids| == |stream| && forall i :: 0 <= i < |ids| ==> ids[i] == stream[i].execId
  {
    seq(|stream|, i requires 0 <= i < |stream| => stream[i].execId)
  }

  function Fills(stream: seq<Exec>): (fills: seq<Fill>)
    ensures |fills| == |stream| && forall i :: 0 <= i < |fills| ==> fills[i] == stream[i].fill
  {
    seq(|stream|, i requires 0 <= i < |stream| => stream[i].fill)
  }

  function LastN<T>(s: seq<T>, n: nat): (t: seq<T>)
    ensures forall x :: x in t ==> x in s
  {
    if |s| <= n then s else s[|s| - n..]
  }

  /** The executions that the bounded memory lets through. */
  function Accepted(stream: seq<Exec>, max: nat): (log: seq<Exec>)
    ensures |log| <= |stream|
  {
    if stream == [] then []
    else
      var before, last := Accepted(stream[..|stream| - 1], max), stream[|stream| - 1];
      if last.execId in LastN(Ids(before), max) then before else before + [last]
  }

  /** The stream with repeats removed: first occurrences only, with unbounded memory. */
  function Distinct(stream: seq<Exec>): (log: seq<Exec>) {
    if stream == [] then []
    else
      var init, last := stream[..|stream| - 1], stream[|stream| - 1];
      if last.execId in Ids(init) then Distinct(init) else Distinct(init) + [last]
  }

  ghost predicate NoRepeats(ids: seq<string>) {
    forall i, j :: 0 <= i < j < |ids| ==> ids[i] != ids[j]
  }

  lemma IdsSnoc(a: seq<Exec>, x: Exec)
    ensures Ids(a + [x]) == Ids(a) + [x.execId]
  {
  }

  /** Appending to a window drops its oldest element once the window is full. */
  lemma LastNSnoc(s: seq<string>, x: string, n: nat)
    requires n > 0
    ensures LastN(s + [x], n) == (if |LastN(s, n)| >= n then LastN(s, n)[1..] else LastN(s, n)) + [x]
  {
  }

  /** In every run the FIFO is the last `max` accepted ids without repeats, the set is its
      contents, and the hedge is the accounting of the accepted fills. */
  lemma {:induction false} MemoryIsWindow(stream: seq<Exec>, max: nat, multiplier: real)
    requires max > 0
    ensures var b := RunBook(stream, max, multiplier);
            var log := Accepted(stream, max);
            && b.seen.order == LastN(Ids(log), max)
            && b.seen.ids == (set id | id in b.seen.order)
            && NoRepeats(b.seen.order) && |b.seen.order| <= max
            && b.hedge == Run(Fills(log), multiplier)
  {
    hide Apply, Record;
    if stream == [] {
      assert Fills([]) == [];
    } else {
      var init, last := stream[..|stream| - 1], stream[|stream| - 1];
      var b, log := RunBook(init, max, multiplier), Accepted(init, max);
      MemoryIsWindow(init, max, multiplier);
      if last.execId !in b.seen.ids {
        IdsSnoc(log, last);
        LastNSnoc(Ids(log), last.execId, max);
        RecordKeeps(b.seen, last.execId, max);
        assert Fills(log + [last]) == Fills(log) + [last.fill];
        RunSnoc(Fills(log), last.fill, multiplier);
      }
    }
  }

  lemma RunSnoc(fills: seq<Fill>, f: Fill, multiplier: real)
    ensures Run(fills + [f], multiplier) == Apply(Run(fills, multiplier), f, multiplier)
  {
    assert (fills + [f])[..|fills|] == fills;
  }

  lemma RecordKeeps(s: Seen, id: string, max: nat)
    requires max > 0 && NoRepeats(s.order) && s.ids == (set x | x in s.order) && id !in s.ids && |s.order| <= max
    ensures var t := Record(s, id, max);
            && NoRepeats(t.order) && t.ids == (set x | x in t.order) && |t.order| <= max
            && t.order == (if |s.order| >= max then s.order[1..] else s.order) + [id]
  {
    if |s.order| >= max {
      var rest := s.order[1..];
      forall x ensures x in s.ids - {s.order[0]} <==> x in rest {
        if x in rest {
          var i :| 0 <= i < |rest| && rest[i] == x;
          assert s.order[i + 1] == x;
        }
      }
      assert s.ids - {s.order[0]} == (set x | x in rest);
    }
  }

  /** Every id of the stream is accepted at least once, and only ids of the stream are. */
  lemma {:induction false} AcceptedIds(stream: seq<Exec>, max: nat)
    ensures forall id :: id in Ids(Accepted(stream, max)) <==> id in Ids(stream)
  {
    if stream != [] {
      var init, last := stream[..|stream| - 1], stream[|stream| - 1];
      AcceptedIds(init, max);
      assert stream == init + [last];
      IdsSnoc(init, last);
      IdsSnoc(Accepted(init, max), last);
    }
  }

  lemma {:induction false} DistinctIds(stream: seq<Exec>)
    ensures NoRepeats(Ids(Distinct(stream)))
    ensures forall id :: id in Ids(Distinct(stream)) <==> id in Ids(stream)
  {
    if stream != [] {
      var init, last := stream[..|stream| - 1], stream[|stream| - 1];
      DistinctIds(init);
      assert stream == init + [last];
      IdsSnoc(init, last);
      IdsSnoc(Distinct(init), last);
    }
  }

  /** Every repeat arrives while fewer than `max` newer ids have first arrived since its own. */
  ghost predicate Timely(stream: seq<Exec>, max: nat) {
    forall j :: 0 <= j < |stream| && stream[j].execId in Ids(stream[..j]) ==>
      stream[j].execId in LastN(Ids(Distinct(stream[..j])), max)
  }

  lemma {:induction false} TimelyPrefix(stream: seq<Exec>, max: nat)
    requires stream != []
    ensures Timely(stream, max) <==>
            var (init, last) := (stream[..|stream| - 1], stream[|stream| - 1]);
            Timely(init, max) && (last.execId in Ids(init) ==> last.execId in LastN(Ids(Distinct(init)), max))
  {
    hide Ids, LastN, Distinct;
    var init, last := stream[..|stream| - 1], stream[|stream| - 1];
    forall j | 0 <= j < |init| ensures init[j] == stream[j] && init[..j] == stream[..j] {
    }
    if Timely(stream, max) {
      assert stream[|stream| - 1] == last;
      forall j | 0 <= j < |init| && init[j].execId in Ids(init[..j])
        ensures init[j].execId in LastN(Ids(Distinct(init[..j])), max)
      {
        assert stream[j] == init[j] && stream[..j] == init[..j];
      }
    }
  }

  /** Letting a known id through leaves a second copy of it behind. */
  lemma KnownIdRepeats(init: seq<Exec>, last: Exec, max: nat)
    requires last.execId in Ids(init)
    ensures !NoRepeats(Ids(Accepted(init, max) + [last]))
  {
    AcceptedIds(init, max);
    var ids := Ids(Accepted(init, max));
    IdsSnoc(Accepted(init, max), last);
    var i :| 0 <= i < |ids| && ids[i] == last.execId;
    assert (ids + [last.execId])[i] == (ids + [last.execId])[|ids|];
  }

  /** One step: the two logs agree after it exactly when they agreed before it and the step was not
      the acceptance of a repeat. */
  lemma AgreeStep(init: seq<Exec>, last: Exec, max: nat)
    ensures Accepted(init + [last], max) == Distinct(init + [last]) <==>
            && Accepted(init, max) == Distinct(init)
            && (last.execId in Ids(init) ==> last.execId in LastN(Ids(Accepted(init, max)), max))
  {
    var log, all := Accepted(init, max), Distinct(init);
    assert (init + [last])[..|init|] == init;
    AcceptedIds(init, max);
    DistinctIds(init);
    if last.execId in Ids(init) {
      if last.execId !in LastN(Ids(log), max) {
        KnownIdRepeats(init, last, max);
      }
    } else {
      assert last.execId !in Ids(log);
      assert (log + [last])[..|log|] == log && (all + [last])[..|all|] == all;
    }
  }

  /** The bounded memory removes exactly the repeats if and only if every repeat is timely. */
  lemma {:induction false} DedupExactIff(stream: seq<Exec>, max: nat)
    ensures Accepted(stream, max) == Distinct(stream) <==> Timely(stream, max)
  {
    if stream != [] {
      var init, last := stream[..|stream| - 1], stream[|stream| - 1];
      assert stream == init + [last];
      DedupExactIff(init, max);
      TimelyPrefix(stream, max);
      AgreeStep(init, last, max);
    }
  }

  /** With timely repeats the hedge is the accounting of the stream with repeats removed. */
  lemma HedgeOfDistinct(stream: seq<Exec>, multiplier: real)
    requires Timely(stream, 10_000)
    ensures RunBook(stream, PROCESSED_EXEC_IDS_MAX, multiplier).hedge == Run(Fills(Distinct(stream)), multiplier)
  {
    MemoryIsWindow(stream, PROCESSED_EXEC_IDS_MAX, multiplier);
    DedupExactIff(stream, PROCESSED_EXEC_IDS_MAX);
  }
}
