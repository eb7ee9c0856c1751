// What several modules share: optional values, and a few facts of integer and real arithmetic that the solver
// needs to be told.
module Basics {
  datatype Option<+T> = None | Some(value: T)

  function Least(a: int, b: int): int {
    if a < b then a else b
  }

  lemma PositiveProduct(a: real, b: real, product: real)
    requires a > 0.0 && b > 0.0 && product == a * b
    ensures product > 0.0
  {
  }

  // Multiplying by a positive number keeps the order, so it can be cancelled.
  lemma CancelFactor(a: real, b: real, factor: real)
    requires factor > 0.0
    ensures a <= b <==> a * factor <= b * factor
    ensures a < b <==> a * factor < b * factor
  {
    if a < b {
      PositiveProduct(b - a, factor, (b - a) * factor);
    } else if b < a {
      PositiveProduct(a - b, factor, (a - b) * factor);
    }
  }

  lemma TimesQuotient(n: real, s: real)
    requires n > 0.0
    ensures n * (s / n) == s
  {
  }

  // How far a total of `count` numbers lies above as many times m.
  function Beyond(total: real, count: real, m: real): real {
    total - count * m
  }

  lemma BeyondOneMore(total: real, count: real, v: real, m: real)
    ensures Beyond(total + v, count + 1.0, m) == Beyond(total, count, m) + (v - m)
  {
    assert (count + 1.0) * m == count * m + m;
  }

  // It is nothing for the mean, and its sign tells on which side of the mean m lies.
  lemma BeyondTheMean(total: real, count: real, m: real)
    requires count > 0.0
    ensures Beyond(total, count, total / count) == 0.0
    ensures Beyond(total, count, m) >= 0.0 ==> m <= total / count
    ensures Beyond(total, count, m) <= 0.0 ==> total / count <= m
  {
    TimesQuotient(count, total);
    CancelFactor(m, total / count, count);
    CancelFactor(total / count, m, count);
  }
}
