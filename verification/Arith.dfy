/** The few facts about products and cardinalities that the layouts need. */
module Arith {

  lemma MulStep(a: int, b: int, w: nat)
    requires a < b
    ensures a * w + w <= b * w
  {
    var d := b - a - 1;
    assert 0 <= d * w;
    assert b * w == (a + 1 + d) * w == a * w + w + d * w;
  }

  lemma MulMono(a: int, b: int, w: nat)
    requires a <= b
    ensures a * w <= b * w
  {
  }

  /** Block and offset of a position are unique. */
  lemma BlockUnique(i: int, o: int, i': int, o': int, w: nat)
    requires 0 <= o < w && 0 <= o' < w && i * w + o == i' * w + o'
    ensures i == i' && o == o'
  {
    if i < i' { MulStep(i, i', w); }
    if i' < i { MulStep(i', i, w); }
  }

  lemma {:induction false} SubsetCount<T>(a: set<T>, b: set<T>)
    requires a <= b
    ensures |a| <= |b|
  {
    if a != {} {
      var x :| x in a;
      SubsetCount(a - {x}, b - {x});
    }
  }
}
