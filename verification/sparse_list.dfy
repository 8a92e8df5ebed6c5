/**
 * The `parsedQuestions` array of the legacy path: a JavaScript array that is
 * filled both by `push` and by assignment at a computed index, so it may
 * have holes, and that is finally compacted by `filter(Boolean)`.
 *
 * An array is a map from the indices written so far to their values plus
 * its `length`. Assignment at a key that is not an array index (`NaN`, a
 * negative number, or a number above 2^32 - 2) creates an ordinary
 * property instead, which `filter` never visits; the model drops it.
 */
module SparseList {
  import opened Wrappers
  import opened Json

  /** The largest array index, 2^32 - 2. */
  const MaxIndex: nat := 4294967294

  datatype Sparse = Sparse(slots: map<nat, Json>, length: nat)

  /** `[]`. */
  const Empty: Sparse := Sparse(map[], 0)

  /** One write: `arr.push(value)`, or `arr[index] = value` where the index
      is what `parseInt` returned (`None` for `NaN`). */
  datatype Write = Append(value: Json) | Place(index: Option<int>, value: Json)

  /** Every stored slot lies below `length`, as in every JavaScript array. */
  predicate Valid(a: Sparse) {
    forall i :: i in a.slots ==> i < a.length
  }

  /** The index a placement lands on, if it is an array index at all. */
  predicate IsArrayIndex(index: Option<int>) {
    index.Some? && 0 <= index.value <= MaxIndex
  }

  function Apply(a: Sparse, w: Write): (r: Sparse)
    ensures Valid(a) ==> Valid(r)
    ensures w.Append? ==> r.length == a.length + 1 && r.slots == a.slots[a.length := w.value]
    ensures w.Place? && IsArrayIndex(w.index) ==>
      var i := w.index.value as nat;
      && r.slots == a.slots[i := w.value]
      && r.length == (if i < a.length then a.length else i + 1)
    ensures w.Place? && !IsArrayIndex(w.index) ==> r == a
  {
    match w
    case Append(v) => Sparse(a.slots[a.length := v], a.length + 1)
    case Place(index, v) =>
      if IsArrayIndex(index) then
        var i := index.value as nat;
        Sparse(a.slots[i := v], if i < a.length then a.length else i + 1)
      else a
  }

  /** The writes applied in order. */
  function ApplyAll(a: Sparse, ws: seq<Write>): (r: Sparse)
    ensures Valid(a) ==> Valid(r)
    ensures a.length <= r.length
    decreases |ws|
  {
    if |ws| == 0 then a else ApplyAll(Apply(a, ws[0]), ws[1..])
  }

  function Build(ws: seq<Write>): (r: Sparse)
    ensures Valid(r)
  {
    ApplyAll(Empty, ws)
  }

  /** `arr.filter(Boolean)` restricted to the indices below `k`: the truthy
      values in ascending index order, holes skipped. */
  function CompactUpTo(a: Sparse, k: nat): (r: seq<Json>)
    ensures |r| <= k
    ensures forall m :: 0 <= m < |r| ==> Truthy(r[m])
    ensures forall m :: 0 <= m < |r| ==> exists i :: 0 <= i < k && i in a.slots && a.slots[i] == r[m]
    ensures forall i :: 0 <= i < k && i in a.slots && Truthy(a.slots[i]) ==> a.slots[i] in r
    ensures r == FilterTruthy(SlotValues(a, k))
    decreases k
  {
    if k == 0 then []
    else
      var prefix := CompactUpTo(a, k - 1);
      assert SlotValues(a, k)[..k - 1] == SlotValues(a, k - 1);
      if k - 1 in a.slots && Truthy(a.slots[k - 1]) then
        var r := prefix + [a.slots[k - 1]];
        assert forall m :: 0 <= m < |prefix| ==> r[m] == prefix[m];
        r
      else prefix
  }

  /** The first `k` slots read as a dense list, a hole reading as `null`
      (which is falsy, as a hole is to `filter`). */
  function SlotValues(a: Sparse, k: nat): (vs: seq<Json>)
    ensures |vs| == k
  {
    seq(k, i requires 0 <= i < k => if i in a.slots then a.slots[i] else JNull)
  }

  /** `arr.filter(Boolean)`. */
  function Compact(a: Sparse): seq<Json> {
    CompactUpTo(a, a.length)
  }

  /** `values.filter(Boolean)` on an ordinary dense list. */
  function FilterTruthy(vs: seq<Json>): (r: seq<Json>)
    decreases |vs|
  {
    if |vs| == 0 then []
    else
      var prefix := FilterTruthy(vs[..|vs| - 1]);
      if Truthy(vs[|vs| - 1]) then prefix + [vs[|vs| - 1]] else prefix
  }

  /** Pushes only. */
  function Appends(vs: seq<Json>): (ws: seq<Write>)
    ensures |ws| == |vs| && forall m :: 0 <= m < |vs| ==> ws[m] == Append(vs[m])
  {
    seq(|vs|, m requires 0 <= m < |vs| => Append(vs[m]))
  }

  /** A list built by pushes alone is dense: slot `i` holds the `i`-th value. */
  lemma {:induction false} AppendsDense(a: Sparse, vs: seq<Json>)
    ensures var r := ApplyAll(a, Appends(vs));
      && r.length == a.length + |vs|
      && (forall j :: a.length <= j < a.length + |vs| ==> j in r.slots && r.slots[j] == vs[j - a.length])
      && (forall i :: i in a.slots ==> i in r.slots && (i < a.length ==> r.slots[i] == a.slots[i]))
    decreases |vs|
  {
    if |vs| > 0 {
      var a1 := Apply(a, Append(vs[0]));
      assert Appends(vs)[1..] == Appends(vs[1..]);
      AppendsDense(a1, vs[1..]);
      var r := ApplyAll(a, Appends(vs));
      assert r == ApplyAll(a1, Appends(vs[1..]));
      forall j | a.length <= j < a.length + |vs| ensures j in r.slots && r.slots[j] == vs[j - a.length] {
        if j > a.length {
          assert vs[1..][j - a1.length] == vs[j - a.length];
        }
      }
    }
  }

  /** Compaction of a dense prefix is the plain filter of its values. */
  lemma {:induction false} CompactDense(a: Sparse, vs: seq<Json>, k: nat)
    requires k <= |vs|
    requires forall i :: 0 <= i < |vs| ==> i in a.slots && a.slots[i] == vs[i]
    ensures CompactUpTo(a, k) == FilterTruthy(vs[..k])
    decreases k
  {
    if k > 0 {
      CompactDense(a, vs, k - 1);
      assert vs[..k][..k - 1] == vs[..k - 1];
    }
  }

  /** Pushing values and compacting is filtering them: no value is lost,
      added or reordered. */
  lemma AppendsCompact(vs: seq<Json>)
    ensures Compact(Build(Appends(vs))) == FilterTruthy(vs)
  {
    AppendsDense(Empty, vs);
    var r := Build(Appends(vs));
    assert r.length == |vs|;
    forall i | 0 <= i < |vs| ensures SlotValues(r, |vs|)[i] == vs[i] {
      assert i - Empty.length == i;
    }
    assert SlotValues(r, |vs|) == vs;
  }

  /** The value the last placement at array index `i` wrote, if any. */
  function LastPlaced(ws: seq<Write>, i: nat): Option<Json>
    decreases |ws|
  {
    if |ws| == 0 then None
    else
      var w := ws[|ws| - 1];
      if w.Place? && IsArrayIndex(w.index) && w.index.value == i then Some(w.value)
      else LastPlaced(ws[..|ws| - 1], i)
  }

  /** After assignments only, a slot holds what the last assignment to it
      wrote; a slot never assigned is a hole. */
  lemma {:induction false} PlacesLastWins(ws: seq<Write>, i: nat)
    requires forall m :: 0 <= m < |ws| ==> ws[m].Place?
    ensures var r := Build(ws);
      match LastPlaced(ws, i)
      case Some(v) => i in r.slots && r.slots[i] == v
      case None => i !in r.slots
    decreases |ws|
  {
    if |ws| > 0 {
      var init, w := ws[..|ws| - 1], ws[|ws| - 1];
      assert ws == init + [w];
      PlacesLastWins(init, i);
      ApplyAllSnoc(Empty, init, w);
      assert Build(ws) == Apply(Build(init), w);
    }
  }

  /** Applying one more write at the end. */
  lemma {:induction false} ApplyAllSnoc(a: Sparse, ws: seq<Write>, w: Write)
    ensures ApplyAll(a, ws + [w]) == Apply(ApplyAll(a, ws), w)
    decreases |ws|
  {
    if |ws| > 0 {
      assert (ws + [w])[1..] == ws[1..] + [w];
      ApplyAllSnoc(Apply(a, ws[0]), ws[1..], w);
    } else {
      assert ([] + [w])[1..] == [];
    }
  }

  /** Writes with out-of-range indices leave the list as it was. */
  lemma {:induction false} DroppedWrites(a: Sparse, ws: seq<Write>)
    requires forall m :: 0 <= m < |ws| ==> ws[m].Place? && !IsArrayIndex(ws[m].index)
    ensures ApplyAll(a, ws) == a
    decreases |ws|
  {
    if |ws| > 0 {
      DroppedWrites(a, ws[1..]);
    }
  }

  /** The last placement at `i` decides `LastPlaced`. */
  lemma {:induction false} LastPlacedAt(ws: seq<Write>, i: nat, k: nat)
    requires k < |ws| && ws[k].Place? && IsArrayIndex(ws[k].index) && ws[k].index.value == i
    requires forall m :: k < m < |ws| ==> !(ws[m].Place? && IsArrayIndex(ws[m].index) && ws[m].index.value == i)
    ensures LastPlaced(ws, i) == Some(ws[k].value)
    decreases |ws|
  {
    if k < |ws| - 1 {
      var init := ws[..|ws| - 1];
      assert init[k] == ws[k];
      forall m | k < m < |init| ensures !(init[m].Place? && IsArrayIndex(init[m].index) && init[m].index.value == i) {
        assert init[m] == ws[m];
      }
      LastPlacedAt(init, i, k);
    }
  }

  /** After assignments only, slot `i` holds what the last placement at
      `i` wrote. */
  lemma LastPlacementWins(ws: seq<Write>, i: nat, k: nat)
    requires forall m :: 0 <= m < |ws| ==> ws[m].Place?
    requires k < |ws| && IsArrayIndex(ws[k].index) && ws[k].index.value == i
    requires forall m :: k < m < |ws| ==> !(IsArrayIndex(ws[m].index) && ws[m].index.value == i)
    ensures i in Build(ws).slots && Build(ws).slots[i] == ws[k].value
  {
    LastPlacedAt(ws, i, k);
    PlacesLastWins(ws, i);
  }

  /** Without a placement at `i`, `LastPlaced` finds nothing. */
  lemma {:induction false} LastPlacedNone(ws: seq<Write>, i: nat)
    requires forall m :: 0 <= m < |ws| ==> !(ws[m].Place? && IsArrayIndex(ws[m].index) && ws[m].index.value == i)
    ensures LastPlaced(ws, i).None?
    decreases |ws|
  {
    if |ws| > 0 {
      var init := ws[..|ws| - 1];
      forall m | 0 <= m < |init| ensures !(init[m].Place? && IsArrayIndex(init[m].index) && init[m].index.value == i) {
        assert init[m] == ws[m];
      }
      LastPlacedNone(init, i);
    }
  }
}
