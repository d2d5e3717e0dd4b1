/** The matrix sink, in memory or streaming, and the exact per-pair loop that fills it. */
module Matrix {
  import opened Text
  import opened Logs
  import opened Flows

  /** matrixSink. log is every put so far. */
  class MatrixSink {
    const mode: Mode
    var m: map<string, string>
    var w: string
    ghost var log: seq<Entry>

    ghost predicate Valid()
      reads this
    {
      m == Resident(log, mode) && w == if mode.streaming then Lines(log) else ""
    }

    constructor (mode: Mode)
      ensures Valid() && log == [] && this.mode == mode
    {
      this.mode := mode;
      m, w, log := map[], "", [];
    }

    method Put(src: string, dst: string, verdict: string)
      requires Valid()
      modifies this
      ensures Valid() && log == old(log) + [Entry(src, dst, verdict)]
    {
      log := log + [Entry(src, dst, verdict)];
      assert log[..|log| - 1] == old(log);
      if mode.streaming {
        w := w + (src + "->" + dst + "\t" + verdict + "\n");
        if mode.keep.Some? && dst !in mode.keep.value {
          return;
        }
      }
      m := m[src + "->" + dst := verdict];
    }

    method Get(src: string, dst: string) returns (verdict: string)
      requires Valid()
      ensures verdict == Lookup(Resident(log, mode), src, dst)
    {
      var key := src + "->" + dst;
      verdict := if key in m then m[key] else "";
    }
  }

  // ----- the per-pair loop -----

  ghost function PairEntry(env: Env, src: Actor, dst: Actor): Entry {
    Entry(src.id, dst.id, VerdictText(FlowAllows(env, src, dst)))
  }

  ghost function RowPuts(env: Env, list: seq<Actor>, src: Actor): seq<Entry> {
    if list == [] then []
    else (if src.id == list[0].id then [] else [PairEntry(env, src, list[0])]) + RowPuts(env, list[1..], src)
  }

  /** The puts of the exact loop, in order: sources first, then destinations, self-pairs left out. */
  ghost function AllPuts(env: Env, list: seq<Actor>, sources: seq<Actor>): seq<Entry> {
    if sources == [] then [] else RowPuts(env, list, sources[0]) + AllPuts(env, list, sources[1..])
  }

  lemma RowPutsStep(env: Env, list: seq<Actor>, src: Actor, j: nat, done: seq<Entry>)
    requires j < |list|
    ensures done + RowPuts(env, list[j..], src) ==
            (if src.id == list[j].id then done else done + [PairEntry(env, src, list[j])])
                + RowPuts(env, list[j + 1..], src)
  {
    assert list[j..][1..] == list[j + 1..];
    Assoc(done, if src.id == list[j].id then [] else [PairEntry(env, src, list[j])], RowPuts(env, list[j + 1..], src));
  }

  lemma AllPutsStep(env: Env, list: seq<Actor>, i: nat, done: seq<Entry>)
    requires i < |list|
    ensures done + AllPuts(env, list, list[i..]) ==
            (done + RowPuts(env, list, list[i])) + AllPuts(env, list, list[i + 1..])
  {
    assert list[i..][1..] == list[i + 1..];
    Assoc(done, RowPuts(env, list, list[i]), AllPuts(env, list, list[i + 1..]));
  }

  /** One source's row of the exact loop. */
  method FillRow(sink: MatrixSink, env: Env, list: seq<Actor>, src: Actor)
    requires sink.Valid()
    modifies sink
    ensures sink.Valid() && sink.log == old(sink.log) + RowPuts(env, list, src)
  {
    ghost var goal := sink.log + RowPuts(env, list, src);
    for j := 0 to |list|
      invariant sink.Valid() && sink.log + RowPuts(env, list[j..], src) == goal
    {
      RowPutsStep(env, list, src, j, sink.log);
      if src.id != list[j].id {
        PutFlow(sink, env, src, list[j]);
      }
    }
  }

  /** One pair: evalFlow's verdict, put. */
  method PutFlow(sink: MatrixSink, env: Env, src: Actor, dst: Actor)
    requires sink.Valid()
    modifies sink
    ensures sink.Valid() && sink.log == old(sink.log) + [PairEntry(env, src, dst)]
  {
    var ok, _ := EvalFlow(env, src, dst);
    sink.Put(src.id, dst.id, VerdictText(ok));
  }

  /** The exact loop of Evaluate: every ordered pair with distinct ids, by evalFlow. */
  method FillMatrixExact(sink: MatrixSink, env: Env, list: seq<Actor>)
    requires sink.Valid()
    modifies sink
    ensures sink.Valid() && sink.log == old(sink.log) + AllPuts(env, list, list)
  {
    ghost var goal := sink.log + AllPuts(env, list, list);
    for i := 0 to |list|
      invariant sink.Valid() && sink.log + AllPuts(env, list, list[i..]) == goal
    {
      AllPutsStep(env, list, i, sink.log);
      FillRow(sink, env, list, list[i]);
    }
  }
}
