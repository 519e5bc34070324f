/** The few facts about multiplication, division and remainder that the other modules need. */
module Arith {

  lemma SmallMultiple(w: int, d: int)
    requires 0 <= w * d < w
    ensures d == 0
  {
  }

  lemma QuotientUnique(x: int, w: int, k: int, r: int)
    requires x == w * k + r && 0 <= r < w
    ensures x / w == k && x % w == r
  {
    var q, s := x / w, x % w;
    assert w * (k - q) == s - r;
    if s >= r {
      SmallMultiple(w, k - q);
    } else {
      assert w * (q - k) == r - s;
      SmallMultiple(w, q - k);
    }
  }

  lemma DivideTwice(n: nat, a: nat, b: nat)
    requires 0 < a && 0 < b
    ensures 0 < a * b && n / a / b == n / (a * b)
  {
    var q := n / a;
    Euclid(n, a);
    Euclid(q, b);
    var r := a * (q % b) + n % a;
    assert a * (b * (q / b) + q % b) == a * b * (q / b) + a * (q % b);
    assert a * (q % b + 1) <= a * b by {
      Scale(q % b + 1, b, a);
    }
    QuotientUnique(n, a * b, q / b, r);
  }

  lemma WholeMultiple(k: int, w: int)
    requires 0 < w
    ensures (k * w) % w == 0 && (k * w) / w == k
  {
    QuotientUnique(k * w, w, k, 0);
  }

  lemma OneLess(n: nat, w: nat)
    requires 0 < w && n % w == 0 && 0 < n
    ensures w <= n && (n - w) % w == 0
  {
    var k := n / w;
    assert k >= 1;
    WholeMultiple(k - 1, w);
    assert n - w == (k - 1) * w;
  }

  lemma Euclid(x: nat, w: nat)
    requires 0 < w
    ensures x == w * (x / w) + x % w && 0 <= x % w < w && 0 <= x / w
  {
  }

  lemma SamePlace(x: nat, y: nat, w: nat)
    requires 0 < w
    ensures x / w == y / w && x % w == y % w ==> x == y
  {
    Euclid(x, w);
    Euclid(y, w);
  }

  lemma Scale(a: int, b: int, w: int)
    requires a <= b && 0 <= w
    ensures a * w <= b * w
  {
  }

  lemma ScaleReal(a: real, b: real, c: real)
    requires a <= b && c > 0.0
    ensures a * c <= b * c
    ensures a < b ==> a * c < b * c
  {
    var d := b - a;
    assert d * c >= 0.0;
    assert d > 0.0 ==> d * c > 0.0;
    assert b * c == a * c + d * c;
  }
}
