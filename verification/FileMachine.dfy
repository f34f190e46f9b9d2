/** One open file seen through a descriptor: what runs of reads, writes and seeks deliver. */
module FileMachine {
  import opened Bytes
  import opened FileSpec

  /** `granted` is whether the kernel heap has a buffer to give, should the write need one. */
  datatype Op = ReadOp(count: nat) | WriteOp(bs: seq<byte>, granted: bool) | SeekOp(delta: int, whence: int)

  /** What a call returns, and the bytes it delivers. */
  datatype Result = Result(n: int, bytes: seq<byte>)

  datatype State = State(content: seq<byte>, offset: nat)

  /** Where a seek leads; positions before the start become the start. */
  function SeekTarget(st: State, delta: int, whence: int): nat {
    var to := if whence == 0 then delta else if whence == 1 then st.offset + delta else |st.content| + delta;
    if to < 0 then 0 else to
  }

  function Step(st: State, op: Op): State {
    match op
    case ReadOp(count) => st.(offset := st.offset + |Slice(st.content, st.offset, count)|)
    case WriteOp(bs, _) => State(Overwrite(st.content, st.offset, bs), st.offset + |bs|)
    case SeekOp(delta, whence) => if 0 <= whence <= 2 then st.(offset := SeekTarget(st, delta, whence)) else st
  }

  function ResultOf(st: State, op: Op): Result {
    match op
    case ReadOp(count) => var out := Slice(st.content, st.offset, count); Result(|out|, out)
    case WriteOp(bs, _) => Result(|bs|, [])
    case SeekOp(delta, whence) => Result(if 0 <= whence <= 2 then SeekTarget(st, delta, whence) else ERR_INVAL, [])
  }

  function RunState(st: State, ops: seq<Op>): State
    decreases |ops|
  {
    if ops == [] then st else Step(RunState(st, ops[..|ops| - 1]), ops[|ops| - 1])
  }

  function RunResults(st: State, ops: seq<Op>): (rs: seq<Result>)
    ensures |rs| == |ops|
    decreases |ops|
  {
    if ops == [] then [] else
    RunResults(st, ops[..|ops| - 1]) + [ResultOf(RunState(st, ops[..|ops| - 1]), ops[|ops| - 1])]
  }

  /** Writes are not empty, and end below 2^32; positions stay below 2^63. */
  predicate InBounds(st: State, op: Op) {
    match op
    case ReadOp(_) => true
    case WriteOp(bs, _) => bs != [] && st.offset + |bs| < TWO32
    case SeekOp(delta, whence) => SeekTarget(st, delta, whence) < TWO64 / 2
  }

  ghost predicate AllInBounds(st: State, ops: seq<Op>) {
    forall i :: 0 <= i < |ops| ==> InBounds(RunState(st, ops[..i]), ops[i])
  }

  /** A write ends within `limit`. */
  predicate Within(st: State, op: Op, limit: nat) { op.WriteOp? ==> st.offset + |op.bs| <= limit }

  ghost predicate AllWithin(st: State, ops: seq<Op>, limit: nat) {
    forall i :: 0 <= i < |ops| ==> Within(RunState(st, ops[..i]), ops[i], limit)
  }

  predicate AllGranted(ops: seq<Op>) { forall i :: 0 <= i < |ops| && ops[i].WriteOp? ==> ops[i].granted }

  /** Two limits are one, the smaller. */
  lemma WithinBoth(st: State, ops: seq<Op>, a: nat, b: nat)
    ensures AllWithin(st, ops, Min(a, b)) <==> AllWithin(st, ops, a) && AllWithin(st, ops, b)
  {
    hide RunState;
    if AllWithin(st, ops, Min(a, b)) {
      forall i | 0 <= i < |ops|
        ensures Within(RunState(st, ops[..i]), ops[i], a) && Within(RunState(st, ops[..i]), ops[i], b)
      {
        assert Within(RunState(st, ops[..i]), ops[i], Min(a, b));
      }
    }
  }

  lemma NoWriteFits(st: State, op: Op, limit: nat)
    requires !op.WriteOp?
    ensures Within(st, op, limit)
  {}

  lemma RunNone(st: State, ops: seq<Op>)
    ensures RunState(st, ops[..0]) == st && RunResults(st, ops[..0]) == [] && RunState(st, ops[..|ops|]) == RunState(st, ops)
    ensures RunResults(st, ops[..|ops|]) == RunResults(st, ops)
  {
    assert ops[..|ops|] == ops;
  }

  lemma RunMore(st: State, ops: seq<Op>, i: nat)
    requires i < |ops|
    ensures RunState(st, ops[..i + 1]) == Step(RunState(st, ops[..i]), ops[i])
    ensures RunResults(st, ops[..i + 1]) == RunResults(st, ops[..i]) + [ResultOf(RunState(st, ops[..i]), ops[i])]
  {
    assert ops[..i + 1][..i] == ops[..i];
  }

  // ---- Reading a file piece by piece

  predicate OnlyReads(ops: seq<Op>) { forall i :: 0 <= i < |ops| ==> ops[i].ReadOp? && ops[i].count > 0 }

  function Delivered(rs: seq<Result>): seq<byte>
    decreases |rs|
  {
    if rs == [] then [] else Delivered(rs[..|rs| - 1]) + rs[|rs| - 1].bytes
  }

  lemma JoinSlices(s: seq<byte>, a: nat, b: nat, count: nat)
    requires a <= b <= |s|
    ensures b + |Slice(s, b, count)| <= |s| && s[a..b] + Slice(s, b, count) == s[a..b + |Slice(s, b, count)|]
  {}

  lemma ReadStep(st: State, op: Op)
    requires op.ReadOp?
    ensures var out := Slice(st.content, st.offset, op.count);
      Step(st, op) == st.(offset := st.offset + |out|) && ResultOf(st, op).bytes == out && (st.offset > |st.content| ==> out == [])
  {}

  lemma {:induction false} ReadsAdvance(st: State, ops: seq<Op>)
    requires OnlyReads(ops)
    ensures var st' := RunState(st, ops);
      && st'.content == st.content && st.offset <= st'.offset
      && (st.offset <= |st.content| ==> st'.offset <= |st.content|)
      && (st.offset > |st.content| ==> st'.offset == st.offset)
      && Delivered(RunResults(st, ops)) == (if st.offset <= |st.content| then st.content[st.offset..st'.offset] else [])
    decreases |ops|
  {
    hide Slice, Step, ResultOf;
    if ops != [] {
      var before, op := ops[..|ops| - 1], ops[|ops| - 1];
      ReadsAdvance(st, before);
      var mid, rs := RunState(st, before), RunResults(st, ops);
      assert rs[..|rs| - 1] == RunResults(st, before) && rs[|rs| - 1] == ResultOf(mid, op);
      ReadStep(mid, op);
      if st.offset <= |st.content| { JoinSlices(st.content, st.offset, mid.offset, op.count); }
    }
  }

  /** Reads of any positive sizes, until one delivers nothing, deliver the rest of the file. */
  lemma ChunksConcatenate(st: State, ops: seq<Op>)
    requires OnlyReads(ops) && ops != [] && RunResults(st, ops)[|ops| - 1].n == 0
    ensures Delivered(RunResults(st, ops)) == if st.offset <= |st.content| then st.content[st.offset..] else []
  {
    hide Delivered;
    ReadsAdvance(st, ops);
    ReadsAdvance(st, ops[..|ops| - 1]);
    var last := RunState(st, ops[..|ops| - 1]);
    assert |Slice(last.content, last.offset, ops[|ops| - 1].count)| == 0;
  }
}
