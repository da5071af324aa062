/** Types shared by the models of the C and PHP sources. */
module Common {
  datatype Option<+T> = None | Some(value: T)

  /** A condition that is to be proved as one fact, and not conjunct by conjunct: cheaper where a
      step leaves alone everything it depends on. */
  ghost predicate Whole(b: bool) {
    b == true
  }

  /** An unsigned char. */
  type byte = x: int | 0 <= x < 256

  lemma Assoc<T>(a: seq<T>, b: seq<T>, c: seq<T>)
    ensures a + b + c == a + (b + c)
  {
  }

  lemma HeadTail<T>(x: T, xs: seq<T>)
    ensures ([x] + xs)[0] == x && ([x] + xs)[1..] == xs
  {
  }

  lemma EmptyLeft<T>(s: seq<T>)
    ensures [] + s == s
  {
  }
}
