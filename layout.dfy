/** The arithmetic of where records land: running sums of record sizes and the
    concatenation of the records themselves. */
module Layout {
  import opened FileBytes

  /** Python's `sum` over a list of sizes, folded from the left. */
  function Sum(s: seq<nat>): nat
  {
    if s == [] then 0 else Sum(s[..|s| - 1]) + s[|s| - 1]
  }

  /** The byte length of each record, in order. */
  function Lengths(records: seq<seq<byte>>): (r: seq<nat>)
    ensures |r| == |records| && forall i :: 0 <= i < |records| ==> r[i] == |records[i]|
  {
    seq(|records|, i requires 0 <= i < |records| => |records[i]|)
  }

  /** The records written one after another. */
  function Flatten(records: seq<seq<byte>>): seq<byte>
  {
    if records == [] then [] else Flatten(records[..|records| - 1]) + records[|records| - 1]
  }

  /** The offset at which record `i` starts when the records are packed from `start`:
      `start` plus the sizes of all records before it. */
  function PointOffset(start: nat, sizes: seq<nat>, i: nat): (offset: nat)
    requires i <= |sizes|
    ensures start <= offset
    ensures i == 0 ==> offset == start
  {
    start + Sum(sizes[..i])
  }

  /** The concatenated records are exactly as long as the sum of their sizes. */
  lemma {:induction false} FlattenLength(records: seq<seq<byte>>)
    ensures |Flatten(records)| == Sum(Lengths(records))
  {
    if records != [] {
      var init := records[..|records| - 1];
      assert Lengths(records)[..|records| - 1] == Lengths(init);
      FlattenLength(init);
    }
  }

  /** Concatenation distributes over splitting the list of records. */
  lemma {:induction false} FlattenAppend(a: seq<seq<byte>>, b: seq<seq<byte>>)
    ensures Flatten(a + b) == Flatten(a) + Flatten(b)
    decreases |b|
  {
    if b == [] {
      assert a + b == a;
    } else {
      var init := b[..|b| - 1];
      assert (a + b)[..|a + b| - 1] == a + init;
      FlattenAppend(a, init);
    }
  }

  /** Each record sits in the concatenation at its running-sum offset. */
  lemma FlattenAt(records: seq<seq<byte>>, i: nat)
    requires i < |records|
    ensures var off := PointOffset(0, Lengths(records), i);
            off + |records[i]| <= |Flatten(records)| &&
            Flatten(records)[off..off + |records[i]|] == records[i]
  {
    var pre, post := records[..i], records[i + 1..];
    assert records == pre + [records[i]] + post;
    FlattenAppend(pre + [records[i]], post);
    FlattenAppend(pre, [records[i]]);
    assert Flatten([records[i]]) == Flatten([]) + records[i];
    FlattenLength(pre);
    assert Lengths(records)[..i] == Lengths(pre);
  }

  /** The next record starts right where the previous one ends: no gap, no overlap. */
  lemma OffsetsContiguous(start: nat, sizes: seq<nat>, i: nat)
    requires i < |sizes|
    ensures PointOffset(start, sizes, i + 1) == PointOffset(start, sizes, i) + sizes[i]
  {
    assert sizes[..i + 1][..i] == sizes[..i];
  }

  /** Offsets never decrease along the list. */
  lemma {:induction false} OffsetsMonotone(start: nat, sizes: seq<nat>, i: nat, j: nat)
    requires i <= j <= |sizes|
    ensures PointOffset(start, sizes, i) <= PointOffset(start, sizes, j)
    decreases j - i
  {
    if i < j {
      OffsetsContiguous(start, sizes, i);
      OffsetsMonotone(start, sizes, i + 1, j);
    }
  }

  /** Two different records occupy disjoint byte ranges. */
  lemma RegionsDisjoint(start: nat, sizes: seq<nat>, i: nat, j: nat)
    requires i < j < |sizes|
    ensures PointOffset(start, sizes, i) + sizes[i] <= PointOffset(start, sizes, j)
  {
    OffsetsContiguous(start, sizes, i);
    OffsetsMonotone(start, sizes, i + 1, j);
  }

  /** The last record ends at `start` plus the total size. */
  lemma LastRegionEnd(start: nat, sizes: seq<nat>)
    ensures PointOffset(start, sizes, |sizes|) == start + Sum(sizes)
  {
    assert sizes[..|sizes|] == sizes;
  }
  /** A reader's view: cut `bytes` into consecutive records of the given sizes. */
  function Split(bytes: seq<byte>, sizes: seq<nat>): seq<seq<byte>>
    requires |bytes| == Sum(sizes)
    decreases |sizes|
  {
    if sizes == [] then []
    else
      var last := sizes[|sizes| - 1];
      Split(bytes[..|bytes| - last], sizes[..|sizes| - 1]) + [bytes[|bytes| - last..]]
  }

  /** Cutting the concatenation by the records' own sizes gives the records back. */
  lemma {:induction false} SplitFlatten(records: seq<seq<byte>>)
    ensures |Flatten(records)| == Sum(Lengths(records))
    ensures Split(Flatten(records), Lengths(records)) == records
  {
    FlattenLength(records);
    if records != [] {
      var init := records[..|records| - 1];
      var all := Flatten(records);
      assert Lengths(records)[..|records| - 1] == Lengths(init);
      assert all[..|all| - |records[|records| - 1]|] == Flatten(init);
      SplitFlatten(init);
    }
  }
}
