/** What the other modules share: optional values and results, machine integers, the larger and the
    smaller of two numbers or of many, and decimal digits. */
module Prelude {

  datatype Option<T> = None | Some(value: T)

  datatype Result<T, E> = Ok(value: T) | Err(error: E)

  type Byte = b: int | 0 <= b < 256

  type Bytes = seq<Byte>

  const U16_MAX: nat := 65535

  type U16 = x: int | 0 <= x <= U16_MAX

  function Min(a: int, b: int): int { if a <= b then a else b }
  function Max(a: int, b: int): int { if a >= b then a else b }
  function RMin(a: real, b: real): real { if a <= b then a else b }
  function RMax(a: real, b: real): real { if a >= b then a else b }

  ghost predicate Bounds(ns: set<int>, lo: int, hi: int) {
    lo in ns && hi in ns && forall o :: o in ns ==> lo <= o <= hi
  }

  lemma OneOf<T>(xs: set<T>) returns (x: T)
    requires xs != {}
    ensures x in xs
  {
    x :| x in xs;
  }

  lemma {:induction false} BoundsExist(ns: set<int>) returns (lo: int, hi: int)
    requires ns != {}
    ensures Bounds(ns, lo, hi)
  {
    var x := OneOf(ns);
    var rest := ns - {x};
    lo, hi := x, x;
    if rest != {} {
      var a, b := BoundsExist(rest);
      lo, hi := Min(x, a), Max(x, b);
    }
    forall o | o in ns
      ensures lo <= o <= hi
    {
      assert o != x ==> o in rest;
    }
  }

  lemma ExtremesExist(ns: set<int>)
    requires ns != {}
    ensures exists n :: n in ns && forall o :: o in ns ==> n <= o
    ensures exists n :: n in ns && forall o :: o in ns ==> o <= n
  {
    var lo, hi := BoundsExist(ns);
    assert lo in ns && hi in ns;
  }

  /** The least and the greatest of some numbers, if there are any. */
  function Least(ns: set<int>): (r: Option<int>)
    ensures r.None? <==> ns == {}
    ensures r.Some? ==> r.value in ns && forall o :: o in ns ==> r.value <= o
  {
    if ns == {} then None
    else
      ExtremesExist(ns);
      var n :| n in ns && forall o :: o in ns ==> n <= o;
      Some(n)
  }

  function Greatest(ns: set<int>): (r: Option<int>)
    ensures r.None? <==> ns == {}
    ensures r.Some? ==> r.value in ns && forall o :: o in ns ==> o <= r.value
  {
    if ns == {} then None
    else
      ExtremesExist(ns);
      var n :| n in ns && forall o :: o in ns ==> o <= n;
      Some(n)
  }

  predicate IsDigit(c: char) {
    '0' <= c <= '9'
  }

  function Digits(n: nat): string {
    if n < 10 then [('0' as int + n) as char] else Digits(n / 10) + [('0' as int + n % 10) as char]
  }
}
