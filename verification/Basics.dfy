/** Small things several modules share. */
module Basics {

  datatype Option<T> = None | Some(value: T)

  const TWO31 := 0x8000_0000
  const TWO32 := 0x1_0000_0000
  const TWO63 := 0x8000_0000_0000_0000
  const TWO64 := 0x1_0000_0000_0000_0000

  lemma {:induction false} Regroup<T>(a: seq<T>, b: seq<T>, c: seq<T>)
    ensures a + b + c == a + (b + c)
  {
  }

  lemma {:induction false} SomeIn<T>(s: set<T>) returns (x: T)
    requires s != {}
    ensures x in s
  {
    x :| x in s;
  }

  lemma {:induction false} Meets(a: set<int>, b: set<int>)
    ensures a * b != {} <==> exists x :: x in a && x in b
  {
    if a * b != {} { var x := SomeIn(a * b); }
    if x :| x in a && x in b { assert x in a * b; }
  }
}
