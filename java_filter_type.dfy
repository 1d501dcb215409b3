/**
 * The FilterType enum of the Java version (core/FilterType.java): six constants, each
 * with a display name and a description, and getNext, which walks the constants in
 * declaration order and wraps from the last to the first.
 */
module JavaFilterType {
  import opened CyclicIndex

  datatype FilterType = Original | Grayscale | Invert | Brightness | Contrast | Sepia

  /** values(): the constants in declaration order. */
  const Values: seq<FilterType> := [Original, Grayscale, Invert, Brightness, Contrast, Sepia]

  /** ordinal(): the position of the constant in its declaration. */
  function Ordinal(t: FilterType): (n: nat)
    ensures n < |Values| && Values[n] == t
  {
    match t
    case Original => 0
    case Grayscale => 1
    case Invert => 2
    case Brightness => 3
    case Contrast => 4
    case Sepia => 5
  }

  /** getDisplayName(): the name given to the constant in its declaration, capitalised. */
  function DisplayName(t: FilterType): (name: string)
    ensures |name| > 0 && 'A' <= name[0] <= 'Z'
  {
    match t
    case Original => "Original"
    case Grayscale => "Grayscale"
    case Invert => "Invert"
    case Brightness => "Brightness"
    case Contrast => "Contrast"
    case Sepia => "Sepia"
  }

  /** getDescription(): the description given to the constant in its declaration. */
  function Description(t: FilterType): string
  {
    match t
    case Original => "No modification"
    case Grayscale => "Black & white conversion"
    case Invert => "Negative color effect"
    case Brightness => "Increase luminosity"
    case Contrast => "Enhance light/dark difference"
    case Sepia => "Vintage warm tone"
  }

  /**
   * getNext(current): values()[(current.ordinal() + 1) % values().length], the next
   * declared constant, wrapping from Sepia, the last, to Original.
   */
  function GetNext(current: FilterType): (next: FilterType)
    ensures current == Sepia ==> next == Original
    ensures current != Sepia ==> Ordinal(next) == Ordinal(current) + 1
  {
    Values[Next(|Values|, Ordinal(current))]
  }

  /** getNext applied n times. */
  function Iterate(t: FilterType, n: nat): FilterType
  {
    if n == 0 then t else GetNext(Iterate(t, n - 1))
  }

  /** Distinct constants have distinct successors. */
  lemma GetNextInjective(s: FilterType, t: FilterType)
    requires GetNext(s) == GetNext(t)
    ensures s == t
  {
    assert Ordinal(GetNext(s)) == Next(|Values|, Ordinal(s));
    assert Ordinal(GetNext(t)) == Next(|Values|, Ordinal(t));
  }

  /** n calls of getNext move the ordinal n places round the declaration. */
  lemma {:induction false} IterateAdvances(t: FilterType, n: nat)
    ensures Iterate(t, n) == Values[Advance(|Values|, Ordinal(t), n)]
  {
    if n > 0 {
      IterateAdvances(t, n - 1);
    }
  }

  /** Six calls of getNext come back to the starting constant. */
  lemma SixStepsReturn(t: FilterType)
    ensures Iterate(t, 6) == t
  {
    IterateAdvances(t, 6);
    CycleCloses(|Values|, Ordinal(t));
  }

  /** Every constant is reached from any other in fewer than six calls of getNext. */
  lemma EveryFilterReached(s: FilterType, t: FilterType)
    ensures (Ordinal(t) - Ordinal(s)) % |Values| < |Values|
    ensures Iterate(s, (Ordinal(t) - Ordinal(s)) % |Values|) == t
  {
    IterateAdvances(s, (Ordinal(t) - Ordinal(s)) % |Values|);
    EveryPositionVisited(|Values|, Ordinal(s), Ordinal(t));
  }

  /** No two constants share a display name. */
  lemma DisplayNamesDistinct(s: FilterType, t: FilterType)
    requires s != t
    ensures DisplayName(s) != DisplayName(t)
  {
  }
}
