/** What a `less` function handed to a comparison sort has to satisfy for
    the sort to return sorted output, and what sorted output is. */
module Orders {

  /** A `less` function in the shape `sort.Slice` calls it, on elements. */
  type Comparator<!T> = (T, T) -> bool

  /** Nothing comes before itself. */
  ghost predicate Irreflexive<T(!new)>(lt: Comparator<T>) {
    forall a: T :: !lt(a, a)
  }

  /** No two elements each come before the other. */
  ghost predicate Asymmetric<T(!new)>(lt: Comparator<T>) {
    forall a: T, b: T | lt(a, b) :: !lt(b, a)
  }

  /** `a` and `b` are tied: neither comes before the other. */
  ghost predicate Tied<T>(lt: Comparator<T>, a: T, b: T) {
    !lt(a, b) && !lt(b, a)
  }

  /** Irreflexive, transitive, and with ties transitive too. */
  ghost predicate StrictWeakOrder<T(!new)>(lt: Comparator<T>) {
    && Irreflexive(lt)
    && (forall a: T, b: T, c: T | lt(a, b) && lt(b, c) :: lt(a, c))
    && (forall a: T, b: T, c: T | Tied(lt, a, b) && Tied(lt, b, c) :: Tied(lt, a, c))
  }

  /** No element comes before one that precedes it in `s`. */
  ghost predicate SortedBy<T>(lt: Comparator<T>, s: seq<T>) {
    forall i, j | 0 <= i < j < |s| :: !lt(s[j], s[i])
  }
}
