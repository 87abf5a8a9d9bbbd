/** `findAll({ order: [[a, "DESC"], [b, "DESC"]] })`: the rows of a table,
    newest first. */
module Listing {

  /** The sort key of a row: compared on `primary`, ties broken on `secondary`. */
  datatype Key = Key(primary: int, secondary: int)

  /** `a` may be listed before `b` when ordering descending. */
  predicate NotAfter(a: Key, b: Key) {
    a.primary > b.primary || (a.primary == b.primary && a.secondary >= b.secondary)
  }

  predicate Descending<T>(xs: seq<T>, key: T -> Key) {
    forall i, j :: 0 <= i < j < |xs| ==> NotAfter(key(xs[i]), key(xs[j]))
  }

  /** Put `x` in front of the first element it may precede. */
  function Insert<T>(x: T, xs: seq<T>, key: T -> Key): (out: seq<T>)
    requires Descending(xs, key)
    ensures Descending(out, key)
    ensures multiset(out) == multiset(xs) + multiset{x}
    ensures forall y :: y in out ==> y == x || y in xs
  {
    if xs == [] then [x]
    else if NotAfter(key(x), key(xs[0])) then
      [x] + xs
    else
      var rest := Insert(x, xs[1..], key);
      assert xs == [xs[0]] + xs[1..];
      HeadPrecedes(x, xs, rest, key);
      [xs[0]] + rest
  }

  /** The head of a descending list may precede anything taken from its tail or
      anything it itself may not follow. */
  lemma HeadPrecedes<T>(x: T, xs: seq<T>, rest: seq<T>, key: T -> Key)
    requires xs != [] && Descending(xs, key) && !NotAfter(key(x), key(xs[0]))
    requires forall y :: y in rest ==> y == x || y in xs[1..]
    ensures forall j :: 0 <= j < |rest| ==> NotAfter(key(xs[0]), key(rest[j]))
  {
    forall j | 0 <= j < |rest| ensures NotAfter(key(xs[0]), key(rest[j])) {
      if rest[j] != x {
        assert rest[j] in xs[1..];
        var k :| 0 <= k < |xs[1..]| && xs[1..][k] == rest[j];
        assert xs[k + 1] == rest[j];
      }
    }
  }

  /** The listing: the same rows, newest first. */
  function SortDescending<T>(xs: seq<T>, key: T -> Key): (out: seq<T>)
    ensures Descending(out, key)
    ensures multiset(out) == multiset(xs)
  {
    if xs == [] then []
    else
      assert xs == xs[..|xs| - 1] + [xs[|xs| - 1]];
      Insert(xs[|xs| - 1], SortDescending(xs[..|xs| - 1], key), key)
  }

  /** The rows of a table in some order, each once. */
  ghost function Enumerate<T>(rows: set<T>): (xs: seq<T>)
    ensures multiset(xs) == multiset(rows)
    ensures |xs| == |rows|
  {
    if rows == {} then []
    else
      var x :| x in rows;
      var rest := Enumerate(rows - {x});
      assert multiset(rows) == multiset(rows - {x}) + multiset{x};
      rest + [x]
  }
}
