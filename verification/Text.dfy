/** Strings as the comparison operators and the sort order them, and digits. */
module Text {
  predicate IsDigit(c: char) { '0' <= c <= '9' }

  lemma DigitsExactly(c: char)
    ensures IsDigit(c) <==> c in "0123456789"
  {
    assert forall i :: 0 <= i < 10 ==> "0123456789"[i] as int == 48 + i;
    if IsDigit(c) {
      assert "0123456789"[c as int - 48] == c;
    }
  }

  /** The order of the comparison operators on strings: by the first character that differs. */
  predicate StringLess(a: string, b: string)
    decreases |a|
  {
    b != "" && (a == "" || a[0] < b[0] || (a[0] == b[0] && StringLess(a[1..], b[1..])))
  }

  lemma {:induction false} LessByFirstDifference(a: string, b: string, k: nat)
    requires k < |a| && k < |b| && a[k] != b[k] && forall i :: 0 <= i < k ==> a[i] == b[i]
    ensures StringLess(a, b) <==> a[k] < b[k]
    decreases k
  {
    if k > 0 {
      LessByFirstDifference(a[1..], b[1..], k - 1);
    }
  }

  lemma {:induction false} NotLessThanItself(a: string)
    ensures !StringLess(a, a)
    decreases |a|
  {
    if a != "" {
      NotLessThanItself(a[1..]);
    }
  }

  lemma {:induction false} StringLessAsymmetric(a: string, b: string)
    ensures !(StringLess(a, b) && StringLess(b, a))
    decreases |a|
  {
    if a != "" && b != "" {
      StringLessAsymmetric(a[1..], b[1..]);
    }
  }

  lemma {:induction false} StringLessTotal(a: string, b: string)
    ensures StringLess(a, b) || StringLess(b, a) || a == b
    decreases |a|
  {
    if a != "" && b != "" {
      StringLessTotal(a[1..], b[1..]);
      assert a == [a[0]] + a[1..] && b == [b[0]] + b[1..];
    }
  }

  lemma {:induction false} StringLessTransitive(a: string, b: string, c: string)
    requires StringLess(a, b) && StringLess(b, c)
    ensures StringLess(a, c)
    decreases |a|
  {
    if a != "" && b != "" && c != "" && a[0] == b[0] == c[0] {
      StringLessTransitive(a[1..], b[1..], c[1..]);
    }
  }

  lemma {:induction false} LessAppend(a: string, b: string, x: string, y: string)
    requires |a| == |b|
    ensures StringLess(a + x, b + y) <==> StringLess(a, b) || (a == b && StringLess(x, y))
  {
    if a == "" {
      assert a + x == x && b + y == y;
    } else {
      assert (a + x)[1..] == a[1..] + x && (b + y)[1..] == b[1..] + y;
      LessAppend(a[1..], b[1..], x, y);
    }
  }
}
