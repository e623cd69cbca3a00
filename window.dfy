/**
 * The pieces the request window is built from: which indices one request
 * round draws from the missing set, and which indices of an expired batch
 * are still absent.
 */
module Window {
  import opened ChunkStore

  /** The least element of a non-empty set of indices. */
  ghost function Least(s: set<nat>): (m: nat)
    requires s != {}
    ensures m in s && forall y :: y in s ==> m <= y
  {
    var x :| x in s;
    if s == {x} then
      assert forall y :: y in s ==> y == x;
      x
    else
      var r := Least(s - {x});
      assert forall y :: y in s ==> y == x || y in s - {x};
      if x <= r then x else r
  }

  /**
   * The k smallest indices of s in ascending order: what a `for (id in
   * missingChunks)` loop that stops after k keys visits, since JavaScript
   * visits array indices in ascending order.
   */
  ghost function Smallest(s: set<nat>, k: nat): seq<nat>
    decreases k
  {
    if k == 0 || s == {} then [] else [Least(s)] + Smallest(s - {Least(s)}, k - 1)
  }

  function Elems(d: seq<nat>): set<nat> {
    set x | x in d
  }

  predicate StrictlyAscending(d: seq<nat>) {
    forall i, j :: 0 <= i < j < |d| ==> d[i] < d[j]
  }

  /**
   * Smallest(s, k) holds min(|s|, k) elements of s, strictly ascending, and
   * every element of s it leaves out is larger than every element it takes.
   */
  lemma {:induction false} SmallestProps(s: set<nat>, k: nat)
    ensures |Smallest(s, k)| == if |s| < k then |s| else k
    ensures forall y :: y in Smallest(s, k) ==> y in s
    ensures StrictlyAscending(Smallest(s, k))
    ensures forall x, y :: x in s && x !in Smallest(s, k) && y in Smallest(s, k) ==> y < x
    decreases k
  {
    if k > 0 && s != {} {
      var m := Least(s);
      var t := s - {m};
      var e := Smallest(t, k - 1);
      SmallestProps(t, k - 1);
      assert |t| == |s| - 1;
      var d := Smallest(s, k);
      assert d == [m] + e;
      assert forall y :: y in d ==> y == m || y in e;
      assert StrictlyAscending(d) by {
        forall i, j | 0 <= i < j < |d| ensures d[i] < d[j] {
          assert d[j] == e[j - 1];
          if i > 0 {
            assert d[i] == e[i - 1];
          } else {
            assert e[j - 1] in e;
          }
        }
      }
    }
  }

  /** One step of a round: the least remaining index comes next. */
  lemma SmallestStep(s: set<nat>, k: nat, x: nat)
    requires k > 0 && x in s && forall y :: y in s ==> x <= y
    ensures Smallest(s, k) == [x] + Smallest(s - {x}, k - 1)
  {
    assert x == Least(s);
  }

  lemma ElemsAppend(d: seq<nat>, x: nat)
    ensures Elems(d + [x]) == Elems(d) + {x}
  {
  }

  /**
   * The state of the drawing loop: the drawn prefix followed by the
   * smallest of what is left is Smallest(m, total), and what is left is m
   * minus what was drawn.
   */
  ghost predicate Drawing(m: set<nat>, total: nat, chunks: seq<nat>, missing: set<nat>) {
    |chunks| <= total &&
    chunks + Smallest(missing, total - |chunks|) == Smallest(m, total) &&
    missing == m - Elems(chunks)
  }

  lemma DrawStart(m: set<nat>, total: nat)
    ensures Drawing(m, total, [], m)
  {
    assert [] + Smallest(m, total) == Smallest(m, total);
  }

  /** One step of the drawing loop: taking the least remaining index keeps Drawing. */
  lemma DrawStep(m: set<nat>, total: nat, chunks: seq<nat>, missing: set<nat>, id: nat)
    requires Drawing(m, total, chunks, missing) && |chunks| < total
    requires id in missing && forall y :: y in missing ==> id <= y
    ensures Drawing(m, total, chunks + [id], missing - {id})
  {
    SmallestStep(missing, total - |chunks|, id);
    ElemsAppend(chunks, id);
    assert chunks + ([id] + Smallest(missing - {id}, total - |chunks| - 1))
        == (chunks + [id]) + Smallest(missing - {id}, total - |chunks| - 1);
  }

  /** When the loop stops, the whole round has been drawn. */
  lemma DrawDone(m: set<nat>, total: nat, chunks: seq<nat>, missing: set<nat>)
    requires Drawing(m, total, chunks, missing) && (|chunks| == total || missing == {})
    ensures chunks == Smallest(m, total) && missing == m - Elems(chunks)
  {
    assert Smallest(missing, total - |chunks|) == [];
    assert chunks + [] == chunks;
  }

  /** The indices of a batch, in batch order, whose chunk is not in the store. */
  function Absent(batch: seq<nat>, fc: Store): seq<nat> {
    if batch == [] then []
    else
      var last := batch[|batch| - 1];
      Absent(batch[..|batch| - 1], fc) + if Has(fc, last) then [] else [last]
  }

  /** An index is in Absent(batch, fc) exactly when it is in the batch and its chunk is absent. */
  lemma {:induction false} AbsentElems(batch: seq<nat>, fc: Store)
    ensures forall x :: x in Absent(batch, fc) <==> x in batch && !Has(fc, x)
  {
    if batch != [] {
      var init := batch[..|batch| - 1];
      AbsentElems(init, fc);
      assert batch == init + [batch[|batch| - 1]];
    }
  }

  /** Every index some pending expiry check covers. */
  function InFlight(timers: seq<seq<nat>>): set<nat> {
    if timers == [] then {} else Elems(timers[0]) + InFlight(timers[1..])
  }

  lemma {:induction false} InFlightAppend(timers: seq<seq<nat>>, batch: seq<nat>)
    ensures InFlight(timers + [batch]) == InFlight(timers) + Elems(batch)
  {
    if timers == [] {
      assert [batch][1..] == [];
    } else {
      InFlightAppend(timers[1..], batch);
      assert (timers + [batch])[1..] == timers[1..] + [batch];
    }
  }
}
