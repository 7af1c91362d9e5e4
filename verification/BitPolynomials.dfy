/**
Polynomials over GF(2) as bit sequences, highest power first, with long
multiplication and the remainder of a division defined without any reference to
a shift register.
*/
module BitPolynomials {

  function Zeros(n: nat): (r: seq<bool>)
    ensures |r| == n && forall i :: 0 <= i < n ==> !r[i]
  {
    seq(n, _ => false)
  }

  /** The sum of two polynomials written with equally many coefficients. */
  function Add(a: seq<bool>, b: seq<bool>): (r: seq<bool>)
    requires |a| == |b|
    ensures |r| == |a| && forall i :: 0 <= i < |r| ==> r[i] == (a[i] != b[i])
  {
    seq(|a|, i requires 0 <= i < |a| => a[i] != b[i])
  }

  function Scale(b: bool, g: seq<bool>): (r: seq<bool>)
    ensures |r| == |g|
  {
    if b then g else Zeros(|g|)
  }

  /** Long multiplication: one shifted copy of `g` for every coefficient of `q`. */
  function Multiply(q: seq<bool>, g: seq<bool>): (r: seq<bool>)
    requires |g| >= 1
    ensures |r| == |q| + |g| - 1
    decreases |q|
  {
    if |q| == 0 then Zeros(|g| - 1)
    else Add(Scale(q[0], g) + Zeros(|q| - 1), [false] + Multiply(q[1..], g))
  }

  /** `q * g + r` */
  function Compose(q: seq<bool>, g: seq<bool>, r: seq<bool>): (p: seq<bool>)
    requires |g| >= 1 && |r| == |g| - 1
    ensures |p| == |q| + |r|
  {
    Add(Multiply(q, g), Zeros(|q|) + r)
  }

  /** `r` is what is left of `p` modulo `g`: of lower degree, and congruent to it. */
  ghost predicate IsRemainder(p: seq<bool>, g: seq<bool>, r: seq<bool>) {
    |g| >= 1 && |r| == |g| - 1 && exists q: seq<bool> :: p == Compose(q, g, r)
  }

  function ComplementFirst(p: seq<bool>, n: nat): (r: seq<bool>)
    requires n <= |p|
    ensures |r| == |p| && forall i :: 0 <= i < |p| ==> r[i] == (if i < n then !p[i] else p[i])
  {
    seq(|p|, i requires 0 <= i < |p| => if i < n then !p[i] else p[i])
  }

  // ------------------------------------------------------------------- division

  /** One line of long division: clear the leading coefficient with `g`, drop it. */
  function Reduce(p: seq<bool>, g: seq<bool>): (r: seq<bool>)
    requires 1 <= |g| <= |p|
    ensures |r| == |p| - 1
  {
    Add(p, Scale(p[0], g) + Zeros(|p| - |g|))[1..]
  }

  lemma AddAssociates(a: seq<bool>, b: seq<bool>, c: seq<bool>)
    requires |a| == |b| == |c|
    ensures Add(Add(a, b), c) == Add(a, Add(b, c))
  {
  }

  lemma AddCancels(a: seq<bool>, b: seq<bool>)
    requires |a| == |b|
    ensures Add(a, Add(a, b)) == b
    ensures Add(Add(b, a), a) == b
  {
  }

  /** Composition peels off one quotient coefficient at the leading end. */
  lemma ComposeStep(q: seq<bool>, g: seq<bool>, r: seq<bool>)
    requires |g| >= 1 && |r| == |g| - 1 && |q| > 0
    ensures Compose(q, g, r) == Add(Scale(q[0], g) + Zeros(|q| - 1), [false] + Compose(q[1..], g, r))
  {
    var a, m := Scale(q[0], g) + Zeros(|q| - 1), Multiply(q[1..], g);
    var c := Zeros(|q| - 1) + r;
    assert Zeros(|q|) + r == [false] + c;
    AddAssociates(a, [false] + m, [false] + c);
    assert Add([false] + m, [false] + c) == [false] + Add(m, c);
  }

  /** A line of long division keeps the remainder and puts one coefficient on the quotient. */
  lemma DivisionStep(p: seq<bool>, g: seq<bool>, q: seq<bool>, r: seq<bool>)
    requires 1 <= |g| <= |p| && g[0] && |r| == |g| - 1
    requires Reduce(p, g) == Compose(q, g, r)
    ensures p == Compose([p[0]] + q, g, r)
  {
    var shifted := Scale(p[0], g) + Zeros(|p| - |g|);
    ComposeStep([p[0]] + q, g, r);
    assert ([p[0]] + q)[1..] == q;
    assert Add(p, shifted)[0] == false;
    assert [false] + Reduce(p, g) == Add(p, shifted);
    assert |q| == |p| - |g|;
    AddCancels(shifted, p);
    assert Add(shifted, Add(p, shifted)) == Add(Add(p, shifted), shifted);
  }

  /** The leading coefficient of a composed polynomial is the leading coefficient of its quotient. */
  lemma LeadingCoefficient(q: seq<bool>, g: seq<bool>, r: seq<bool>)
    requires |g| >= 1 && g[0] && |r| == |g| - 1 && |q| > 0
    ensures Compose(q, g, r)[0] == q[0]
    ensures Reduce(Compose(q, g, r), g) == Compose(q[1..], g, r)
  {
    var shifted := Scale(q[0], g) + Zeros(|q| - 1);
    var tail := [false] + Compose(q[1..], g, r);
    ComposeStep(q, g, r);
    assert Add(shifted, tail)[0] == q[0];
    AddCancels(shifted, tail);
    assert Add(Add(shifted, tail), shifted) == Add(shifted, Add(shifted, tail));
  }

  lemma {:induction false} ComposeInjective(q: seq<bool>, g: seq<bool>, r: seq<bool>, q': seq<bool>, r': seq<bool>)
    requires |g| >= 1 && g[0] && |r| == |r'| == |g| - 1
    requires Compose(q, g, r) == Compose(q', g, r')
    ensures q == q' && r == r'
    decreases |q|
  {
    if |q| == 0 {
      assert Compose(q, g, r) == r;
      assert Compose(q', g, r') == r';
    } else {
      LeadingCoefficient(q, g, r);
      LeadingCoefficient(q', g, r');
      ComposeInjective(q[1..], g, r, q'[1..], r');
      assert q == [q[0]] + q[1..];
      assert q' == [q'[0]] + q'[1..];
    }
  }

  /** A polynomial has at most one remainder modulo a divisor with a leading one. */
  lemma RemainderUnique(p: seq<bool>, g: seq<bool>, r: seq<bool>, r': seq<bool>)
    requires IsRemainder(p, g, r) && IsRemainder(p, g, r') && g[0]
    ensures r == r'
  {
    var q: seq<bool> :| p == Compose(q, g, r);
    var q': seq<bool> :| p == Compose(q', g, r');
    ComposeInjective(q, g, r, q', r');
  }
}
