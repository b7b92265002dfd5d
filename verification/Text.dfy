/** Python's order on strings, as a total order. */
module Text {
  predicate Le(a: string, b: string) {
    a == "" || (b != "" && (a[0] < b[0] || (a[0] == b[0] && Le(a[1..], b[1..]))))
  }

  predicate Less(a: string, b: string) {
    a != b && Le(a, b)
  }

  lemma {:induction false} LeReflexive(a: string)
    ensures Le(a, a)
  {
    if a != "" {
      LeReflexive(a[1..]);
    }
  }

  lemma {:induction false} LeTotal(a: string, b: string)
    ensures Le(a, b) || Le(b, a)
  {
    if a != "" && b != "" && a[0] == b[0] {
      LeTotal(a[1..], b[1..]);
    }
  }

  lemma {:induction false} LeAntisymmetric(a: string, b: string)
    requires Le(a, b) && Le(b, a)
    ensures a == b
  {
    if a != "" {
      LeAntisymmetric(a[1..], b[1..]);
      assert a == [a[0]] + a[1..] && b == [b[0]] + b[1..];
    }
  }

  lemma {:induction false} LeTransitive(a: string, b: string, c: string)
    requires Le(a, b) && Le(b, c)
    ensures Le(a, c)
  {
    if a != "" && a[0] == b[0] == c[0] {
      LeTransitive(a[1..], b[1..], c[1..]);
    }
  }

  /** `a` is the start of `b`, or has the smaller character where they first differ. */
  predicate FirstDiffers(a: string, b: string, i: nat) {
    i < |a| && i < |b| && a[..i] == b[..i] && a[i] < b[i]
  }

  lemma HeadsAgree(a: string, b: string, i: nat)
    requires i > 0 && FirstDiffers(a, b, i)
    ensures a[0] == b[0]
  {
    assert a[..i][0] == b[..i][0];
  }

  lemma {:induction false} LeMeans(a: string, b: string)
    ensures Le(a, b) <==> a <= b || exists i: nat :: FirstDiffers(a, b, i)
  {
    if a != "" && b != "" && a[0] == b[0] {
      var s, t := a[1..], b[1..];
      LeMeans(s, t);
      assert a == [a[0]] + s && b == [b[0]] + t;
      if i: nat :| FirstDiffers(s, t, i) {
        assert a[..i + 1] == [a[0]] + s[..i] && b[..i + 1] == [b[0]] + t[..i];
        assert FirstDiffers(a, b, i + 1);
      }
      if i: nat :| FirstDiffers(a, b, i) {
        assert i > 0 && s[..i - 1] == a[..i][1..] && t[..i - 1] == b[..i][1..];
        assert FirstDiffers(s, t, i - 1);
      }
    } else if a != "" && b != "" {
      assert a[0] < b[0] ==> FirstDiffers(a, b, 0);
      if i: nat :| i > 0 && FirstDiffers(a, b, i) {
        HeadsAgree(a, b, i);
      }
    }
  }
}
