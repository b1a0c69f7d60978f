/**
 * `JcrObservationManager.JcrRangeIterator`: the JCR RangeIterator behind the
 * event and listener iterators. It copies the given collection and walks it
 * with an `int` position that `skip` moves by a `long` amount.
 */
module RangeIterators {
  import opened Common

  /** A copy of the elements and the current position (a Java int). */
  datatype RangeIterator<E> = RangeIterator(elements: seq<E>, position: int)
  {
    /** A Java list holds at most MaxInt elements and the position is an int. */
    predicate Valid()
    {
      |elements| <= MaxInt && MinInt <= position <= MaxInt
    }

    /** `getSize()`. */
    function Size(): nat
    {
      |elements|
    }

    /** `hasNext()`: the position is below the size (a negative position counts). */
    predicate HasNext()
    {
      position < |elements|
    }
  }

  datatype IteratorError =
    | IllegalArgument   // the constructor was given null
    | NoSuchElement     // next() at the end, or skip() past it
    | IndexOutOfBounds(index: int) // next() at a negative position

  datatype Step<+T> = Yield(value: T) | Raise(error: IteratorError)

  /** The Java int a wider value is narrowed to by a cast. */
  function ToInt(x: int): (r: int)
    ensures MinInt <= r <= MaxInt
    ensures (x - r) % 0x1_0000_0000 == 0
    ensures MinInt <= x <= MaxInt ==> r == x
  {
    (x - MinInt) % 0x1_0000_0000 + MinInt
  }

  /** The Java long a wider value wraps around to. */
  function ToLong(x: int): (r: int)
    ensures MinLong <= r <= MaxLong
    ensures (x - r) % 0x1_0000_0000_0000_0000 == 0
    ensures MinLong <= x <= MaxLong ==> r == x
  {
    (x - MinLong) % 0x1_0000_0000_0000_0000 + MinLong
  }

  /** The constructor: null is rejected, otherwise iteration starts at 0. */
  function New<E>(elements: Option<seq<E>>): (r: Step<RangeIterator<E>>)
    ensures r.Raise? <==> elements.None?
    ensures r.Yield? ==> r.value.elements == elements.value && r.value.position == 0
  {
    if elements.None? then Raise(IllegalArgument) else Yield(RangeIterator(elements.value, 0))
  }

  /**
   * `next()`: the element at the position, which then advances by one. At the
   * end it raises NoSuchElement; at a negative position the list lookup raises
   * IndexOutOfBounds. A raise leaves the iterator as it was.
   */
  function Next<E>(it: RangeIterator<E>): (r: (Step<E>, RangeIterator<E>))
    requires it.Valid()
    ensures r.1.Valid() && r.1.elements == it.elements
    ensures r.0.Yield? <==> 0 <= it.position < |it.elements|
    ensures r.0.Yield? ==> r.0.value == it.elements[it.position] && r.1.position == it.position + 1
    ensures r.0.Raise? ==> r.1 == it
    ensures r.0 == Raise(NoSuchElement) <==> !it.HasNext()
  {
    if !it.HasNext() then (Raise(NoSuchElement), it)
    else if it.position < 0 then (Raise(IndexOutOfBounds(it.position)), it)
    else (Yield(it.elements[it.position]), it.(position := it.position + 1))
  }

  /**
   * `skip(skipNum)`: `position += skipNum` on an int (the long sum narrowed
   * back to 32 bits), then NoSuchElement if that is not before the end. The
   * position has moved even when the exception is raised.
   */
  function Skip<E>(it: RangeIterator<E>, skipNum: Long): (r: (Option<IteratorError>, RangeIterator<E>))
    requires it.Valid()
    ensures r.1.Valid() && r.1.elements == it.elements
    ensures r.0.None? <==> r.1.HasNext()
    ensures r.0.Some? ==> r.0.value == NoSuchElement
    ensures (r.1.position - (it.position + skipNum)) % 0x1_0000_0000 == 0
  {
    var moved := it.(position := ToInt(ToLong(it.position + skipNum)));
    (if moved.HasNext() then None else Some(NoSuchElement), moved)
  }

  // ---------------------------------------------------------------------------
  // Properties
  // ---------------------------------------------------------------------------

  /**
   * Without wrap-around, skipping k elements from position p and then taking
   * one yields the element at p + k; skipping to or past the end raises.
   */
  lemma SkipThenNext<E>(it: RangeIterator<E>, k: Long)
    requires it.Valid() && 0 <= it.position && 0 <= k && it.position + k <= MaxInt
    ensures var (err, moved) := Skip(it, k);
            if it.position + k < |it.elements| then
              err.None? && Next(moved).0 == Yield(it.elements[it.position + k])
            else
              err == Some(NoSuchElement) && moved.position == it.position + k
  {
  }

  /**
   * The position is a 32-bit int: skipping by 2^32 lands where it started,
   * so the iterator answers as though nothing had been skipped.
   */
  lemma SkipWrapsAroundInt<E>(it: RangeIterator<E>)
    requires it.Valid()
    ensures Skip(it, 0x1_0000_0000).1 == it
  {
  }

  /**
   * A negative skip from the start is not refused: it leaves a negative
   * position that `hasNext` accepts, and the following `next` fails with
   * IndexOutOfBounds rather than NoSuchElement.
   */
  lemma NegativeSkipFailsLater<E>(elements: seq<E>)
    requires 0 < |elements| <= MaxInt
    ensures var (err, moved) := Skip(RangeIterator(elements, 0), -1);
            err.None? && moved.position == -1 && Next(moved).0 == Raise(IndexOutOfBounds(-1))
  {
  }

  /**
   * Draining a fresh iterator with `hasNext` / `next` yields every element,
   * in order, and leaves it at the end.
   */
  method Drain<E>(it0: RangeIterator<E>) returns (out: seq<E>, it: RangeIterator<E>)
    requires it0.Valid() && it0.position == 0
    ensures out == it0.elements
    ensures it.elements == it0.elements && it.position == |it0.elements| && !it.HasNext()
  {
    out := [];
    it := it0;
    while it.HasNext()
      invariant it.Valid() && it.elements == it0.elements
      invariant 0 <= it.position <= |it.elements|
      invariant out == it0.elements[..it.position]
      decreases |it.elements| - it.position
    {
      var step := Next(it);
      out := out + [step.0.value];
      it := step.1;
    }
  }
}
