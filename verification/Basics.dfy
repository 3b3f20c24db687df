/** Small shared vocabulary: bytes, options, saturating subtraction, ASCII case. */
module Basics {

  type Byte = b: int | 0 <= b < 0x100

  datatype Option<+T> = None | Some(value: T)

  /** `saturating_sub` on an unsigned type. */
  function SatSub(a: nat, b: nat): nat { if a >= b then a - b else 0 }

  function Min(a: int, b: int): int { if a <= b then a else b }

  function Max(a: int, b: int): int { if a >= b then a else b }

  predicate NoDup<T(==)>(s: seq<T>) {
    forall i, j :: 0 <= i < j < |s| ==> s[i] != s[j]
  }

  lemma {:induction false} SubsetSmaller<T>(a: set<T>, b: set<T>)
    requires a <= b
    ensures |a| <= |b|
  {
    if a == {} {
    } else {
      var x :| x in a;
      SubsetSmaller(a - {x}, b - {x});
    }
  }

  /** `s` lists the elements of `elements`, each once, in some order. */
  predicate Enumerates<T(==,!new)>(s: seq<T>, elements: set<T>) {
    NoDup(s) && (forall x :: x in s ==> x in elements) && (forall x :: x in elements ==> x in s)
  }

  /** ASCII case folding. */
  function LowerChar(c: char): char {
    if 'A' <= c <= 'Z' then ((c as int) + 32) as char else c
  }

  function Lower(s: string): string {
    if s == "" then "" else [LowerChar(s[0])] + Lower(s[1..])
  }
}
