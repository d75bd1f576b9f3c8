// `rand` and `randInt` (main.js:29-35), with Math.random() supplied as a real r in [0, 1).
module Random {

  /** rand(min, max) = r * (max - min) + min. */
  function Rand(r: real, min: real, max: real): real
  {
    r * (max - min) + min
  }

  /** randInt(min, max) = Math.floor(rand(min, max + 1)). */
  function RandInt(r: real, min: int, max: int): (k: int)
    requires 0.0 <= r < 1.0
    ensures min <= max ==> min <= k <= max
  {
    var x := Rand(r, min as real, (max + 1) as real);
    if min <= max then
      RandInRange(r, min, max);
      FloorWithin(x, min, max + 1);
      x.Floor
    else
      x.Floor
  }

  /** For min <= max, rand(min, max + 1) lies in [min, max + 1). */
  lemma RandInRange(r: real, min: int, max: int)
    requires 0.0 <= r < 1.0 && min <= max
    ensures min as real <= Rand(r, min as real, (max + 1) as real) < (max + 1) as real
  {
    var n := max + 1 - min;
    var width := (max + 1) as real - min as real;
    assert width == n as real;
    RandBelow(r, n);
    assert Rand(r, min as real, (max + 1) as real) == r * width + min as real;
  }

  lemma FloorWithin(x: real, a: int, b: int)
    requires a as real <= x < b as real
    ensures a <= x.Floor < b
  {
  }

  lemma RandBelow(r: real, n: int)
    requires 0.0 <= r < 1.0 && n >= 1
    ensures 0.0 <= r * n as real < n as real
  {
  }

  /** Every integer of [min, max] is drawn for some r: r = (k - min) / (max - min + 1). */
  lemma RandIntCovers(min: int, max: int, k: int)
    requires min <= k <= max
    ensures exists r: real :: 0.0 <= r < 1.0 && RandInt(r, min, max) == k
  {
    var n := (max + 1 - min) as real;
    var r := (k - min) as real / n;
    assert r * n == (k - min) as real;
    assert 0.0 <= r < 1.0;
    assert Rand(r, min as real, (max + 1) as real) == k as real;
    assert RandInt(r, min, max) == k;
  }
}
