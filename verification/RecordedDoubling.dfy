/** Decision record 0005 appends the qualifying fix after every doubling; the code drops it
    when the doubled stride does not divide its number. The difference is not cosmetic. */
module RecordedDoubling {
  import opened Multiples
  import opened BacklogModel

  /** An addition as the record describes it. */
  function RecordedAdd<Fix>(cap: nat, b: Buffer<Fix>, fix: Fix): (r: Buffer<Fix>)
    requires b.stride > 0
    ensures r.stride > 0
  {
    var stride := if b.entries == [] then 1 else b.stride;
    var n := b.nextSeq;
    if n % stride != 0 then
      Buffer(b.entries, n + 1, stride)
    else if |b.entries| == cap then
      Buffer(Refilter(b.entries, 2 * stride) + [Slot(fix, n)], n + 1, 2 * stride)
    else
      Buffer(b.entries + [Slot(fix, n)], n + 1, stride)
  }

  /** The two differ exactly at a doubling whose fix is no multiple of the doubled stride. */
  lemma DiffersExactly<Fix>(cap: nat, b: Buffer<Fix>, fix: Fix)
    requires cap >= 1 && b.stride > 0
    ensures RecordedAdd(cap, b, fix) != Add(cap, b, fix) <==>
      |b.entries| == cap && b.nextSeq % b.stride == 0 && b.nextSeq % (2 * b.stride) != 0
  {
    var kept, last := Refilter(b.entries, 2 * b.stride), Slot(fix, b.nextSeq);
    assert |kept + [last]| == |kept| + 1;
  }

  /** The record's version breaks the spacing: after three fixes at capacity 2 it holds the
      numbers 2 and 3 at stride 2. */
  lemma BreaksSpacing<Fix>(fix: Fix)
    ensures var b := RecordedAdd(2, RecordedAdd(2, RecordedAdd(2, Initial().buf, fix), fix), fix);
      b == Buffer([Slot(fix, 2), Slot(fix, 3)], 4, 2) && Numbers(b.entries) != MultiplesIn(2, 1, 4)
  {
    var two := [Slot(fix, 1), Slot(fix, 2)];
    assert RecordedAdd(2, RecordedAdd(2, Initial().buf, fix), fix) == Buffer(two, 3, 1);
    assert two[..1] == [Slot(fix, 1)] && two[..1][..0] == [];
    assert Refilter(two[..1], 2) == [];
    assert Refilter(two, 2) == [Slot(fix, 2)];
    MultiplesAre(2, 1, 4);
    assert Numbers([Slot(fix, 2), Slot(fix, 3)])[1] == 3;
  }

  /** And it leaves the array: at capacity 1, after one removal, it holds two entries. */
  lemma LeavesTheArray<Fix>(fix: Fix)
    ensures |RecordedAdd(1, RecordedAdd(1, RemoveOldest(RecordedAdd(1, Initial().buf, fix)), fix), fix).entries| == 2
  {
    var one := [Slot(fix, 2)];
    assert RecordedAdd(1, RemoveOldest(RecordedAdd(1, Initial().buf, fix)), fix) == Buffer(one, 3, 1);
    assert one[..0] == [];
    assert Refilter(one, 2) == one;
  }
}
