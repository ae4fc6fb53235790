/** The stepping iterator of src/simple_step_range.rs: yields `start`,
    `start + step`, `start + 2*step`, ... while the value is below `end`. */
module StepRange {
  import opened MachineInts

  datatype Option<T> = None | Some(value: T)

  /** The values a range over [start, end) with stride `step` yields, in order. */
  function Yields(start: int, end: int, step: int): (zs: seq<int>)
    requires step > 0
    ensures start >= end <==> zs == []
    ensures zs != [] ==> zs[0] == start
    ensures forall k :: 0 <= k < |zs| ==> start <= zs[k] < end
    decreases end - start
  {
    if start >= end then [] else [start] + Yields(start + step, end, step)
  }

  /** The k-th yielded value is start + k*step, and it is below `end`. */
  lemma {:induction false} YieldsAt(start: int, end: int, step: int, k: nat)
    requires step > 0 && k < |Yields(start, end, step)|
    ensures Yields(start, end, step)[k] == start + k * step
    ensures Yields(start, end, step)[k] < end
    decreases k
  {
    if k > 0 {
      YieldsAt(start + step, end, step, k - 1);
      assert (start + step) + (k - 1) * step == start + k * step;
    }
  }

  /** The range yields ceiling((end - start) / step) values: n values with
      (n - 1)*step < end - start <= n*step, and none when start >= end. */
  lemma {:induction false} YieldsLength(start: int, end: int, step: int)
    requires step > 0
    ensures start >= end ==> |Yields(start, end, step)| == 0
    ensures start < end ==>
      (|Yields(start, end, step)| - 1) * step < end - start <= |Yields(start, end, step)| * step
    decreases end - start
  {
    if start < end {
      YieldsLength(start + step, end, step);
      var n := |Yields(start + step, end, step)|;
      assert |Yields(start, end, step)| == n + 1;
      assert (n + 1) * step == n * step + step;
    }
  }

  /** The yielded values strictly increase. */
  lemma YieldsIncreasing(start: int, end: int, step: int, i: nat, j: nat)
    requires step > 0 && i < j < |Yields(start, end, step)|
    ensures Yields(start, end, step)[i] < Yields(start, end, step)[j]
  {
    YieldsAt(start, end, step, i);
    YieldsAt(start, end, step, j);
    StrideGrows(i, j, step);
  }

  /** More strides of a positive step reach further. */
  lemma {:induction false} StrideGrows(i: nat, j: nat, step: int)
    requires i < j && step > 0
    ensures i * step < j * step
    decreases j
  {
    assert j * step == (j - 1) * step + step;
    if i < j - 1 {
      StrideGrows(i, j - 1, step);
    }
  }

  /** The argument grouping of the command line starts at 4 with stride 3 over a
      length `end` with (end - 4) % 3 == 0; then every yielded z leaves room for
      z + 1 and z + 2 below `end`. */
  lemma TripleStartsInRange(end: int, k: nat)
    requires (end - 4) % 3 == 0
    requires k < |Yields(4, end, 3)|
    ensures Yields(4, end, 3)[k] + 2 < end
  {
    YieldsAt(4, end, 3, k);
    var m := (end - 4) / 3;
    assert end == 4 + 3 * m;
  }

  /** `SimpleStepRange`: the iterator state, updated in place by `Next`. */
  class SimpleStepRange {
    var start: usize
    var end: usize
    var step: usize

    /** `SimpleStepRange::new`: stores the three fields unchanged. */
    constructor (start: usize, end: usize, step: usize)
      ensures this.start == start && this.end == end && this.step == step
    {
      this.start := start;
      this.end := end;
      this.step := step;
    }

    /** `Iterator::next`. The addition `start + step` must not overflow `usize`. */
    method Next() returns (item: Option<usize>)
      requires start < end ==> start as int + step as int < USIZE_LIMIT
      modifies this`start
      ensures old(start) < end ==>
        item == Some(old(start)) && start as int == old(start) as int + step as int
      ensures old(start) >= end ==> item == None && start == old(start)
    {
      if start < end {
        var v := start;
        start := v + step;
        item := Some(v);
      } else {
        item := None;
      }
    }
  }

  /** The loop `for z in SimpleStepRange::new(start, end, step)`: drains a new
      range and returns the values it yielded, in order. */
  method Collect(start: usize, end: usize, step: usize) returns (zs: seq<int>)
    requires step > 0
    requires end as int + step as int <= USIZE_LIMIT
    ensures zs == Yields(start as int, end as int, step as int)
  {
    var range := new SimpleStepRange(start, end, step);
    zs := [];
    var item := range.Next();
    while item.Some?
      invariant range.end == end && range.step == step
      invariant item.Some? ==> item.value < end && range.start as int == item.value as int + step as int
      invariant item.Some? ==>
        zs + [item.value as int] + Yields(range.start as int, end as int, step as int)
          == Yields(start as int, end as int, step as int)
      invariant item.None? ==> zs == Yields(start as int, end as int, step as int)
      decreases if item.Some? then end as int - item.value as int else 0
    {
      zs := zs + [item.value as int];
      item := range.Next();
    }
  }
}
