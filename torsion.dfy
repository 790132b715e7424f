/** The torsion subgroup of E(Q) as Z/c1 x Z/c2, with elements kept in
    reduced form (0 <= a < c1, 0 <= b < c2). Sage's `P.order()`, `k*P`
    and `P + Q` on torsion points. */
module Torsion {
  import opened Arith

  datatype Group = Group(c1: nat, c2: nat)

  predicate ValidGroup(g: Group) { g.c1 >= 1 && g.c2 >= 1 }

  datatype Tors = Tors(a: int, b: int)

  predicate InGroup(g: Group, t: Tors) { 0 <= t.a < g.c1 && 0 <= t.b < g.c2 }

  const Identity: Tors := Tors(0, 0)

  function TAdd(g: Group, s: Tors, t: Tors): (u: Tors)
    requires ValidGroup(g)
    ensures InGroup(g, u)
  {
    Tors((s.a + t.a) % g.c1, (s.b + t.b) % g.c2)
  }

  /** k * t, as k-fold addition. */
  function TMul(g: Group, k: nat, t: Tors): (u: Tors)
    requires ValidGroup(g)
    ensures InGroup(g, u)
  {
    if k == 0 then Identity else TAdd(g, TMul(g, k - 1, t), t)
  }

  lemma ModAddLeft(x: int, a: int, c: int)
    requires c >= 1
    ensures ((x % c) + a) % c == (x + a) % c
  {
    var q, r := x / c, x % c;
    var q', r' := (r + a) / c, (r + a) % c;
    assert x + a == (q + q') * c + r';
    DivModUnique(x + a, c, q + q', r');
  }

  lemma MulStep(k: nat, a: int)
    requires k >= 1
    ensures (k - 1) * a + a == k * a
  {
  }

  /** The closed form of k * t. */
  lemma {:induction false} MulClosedForm(g: Group, k: nat, t: Tors)
    requires ValidGroup(g)
    ensures TMul(g, k, t) == Tors((k * t.a) % g.c1, (k * t.b) % g.c2)
  {
    if k > 0 {
      MulClosedForm(g, k - 1, t);
      ModAddLeft((k - 1) * t.a, t.a, g.c1);
      ModAddLeft((k - 1) * t.b, t.b, g.c2);
      MulStep(k, t.a);
      MulStep(k, t.b);
    }
  }

  lemma MulByOrder(g: Group, t: Tors)
    requires ValidGroup(g)
    ensures TMul(g, g.c1 * g.c2, t) == Identity
  {
    MulClosedForm(g, g.c1 * g.c2, t);
    MultipleModZero(g.c1, g.c2, t.a);
    MultipleModZero(g.c2, g.c1, t.b);
    assert g.c2 * g.c1 == g.c1 * g.c2;
  }

  lemma MultipleModZero(c: int, d: int, a: int)
    requires c >= 1
    ensures (c * d * a) % c == 0
  {
    var q := d * a;
    assert c * d * a == q * c + 0;
    DivModUnique(c * d * a, c, q, 0);
  }

  /** `t.order()`: the least n >= 1 with n t = 0 (see OrderIsLeast). */
  function Order(g: Group, t: Tors): (n: nat)
    requires ValidGroup(g)
    ensures 1 <= n <= g.c1 * g.c2 && TMul(g, n, t) == Identity
  {
    MulByOrder(g, t);
    OrderFrom(g, t, 1)
  }

  /** No smaller positive multiple of t vanishes. */
  lemma OrderIsLeast(g: Group, t: Tors, j: int)
    requires ValidGroup(g) && 1 <= j < Order(g, t)
    ensures TMul(g, j, t) != Identity
  {
    MulByOrder(g, t);
  }

  function OrderFrom(g: Group, t: Tors, k: nat): (n: nat)
    requires ValidGroup(g) && 1 <= k <= g.c1 * g.c2
    requires TMul(g, g.c1 * g.c2, t) == Identity
    requires forall j :: 1 <= j < k ==> TMul(g, j, t) != Identity
    ensures k <= n <= g.c1 * g.c2 && TMul(g, n, t) == Identity
    ensures forall j :: 1 <= j < n ==> TMul(g, j, t) != Identity
    decreases g.c1 * g.c2 - k
  {
    if TMul(g, k, t) == Identity then k else OrderFrom(g, t, k + 1)
  }

  lemma DoubleIsSelf(c: int, a: int)
    requires c >= 1 && 0 <= a < c && (a + a) % c == a
    ensures a == 0
  {
    if a + a < c {
      DivModUnique(a + a, c, 0, a + a);
    } else {
      DivModUnique(a + a, c, 1, a + a - c);
    }
  }

  /** Only the identity satisfies t + t = t. */
  lemma AddSelfIdentity(g: Group, t: Tors)
    requires ValidGroup(g) && InGroup(g, t) && TAdd(g, t, t) == t
    ensures t == Identity
  {
    DoubleIsSelf(g.c1, t.a);
    DoubleIsSelf(g.c2, t.b);
  }

  lemma InGroupMod(c: int, a: int)
    requires c >= 1 && 0 <= a < c
    ensures a % c == a
  {
    DivModUnique(a, c, 0, a);
  }

  /** s + 0 = 0 + s = s for a reduced element. */
  lemma AddIdentity(g: Group, s: Tors)
    requires ValidGroup(g) && InGroup(g, s)
    ensures TAdd(g, s, Identity) == s && TAdd(g, Identity, s) == s
  {
    InGroupMod(g.c1, s.a);
    InGroupMod(g.c2, s.b);
  }

  /** 0 t = 0 and 1 t = t for a reduced element. */
  lemma MulZeroOne(g: Group, t: Tors)
    requires ValidGroup(g) && InGroup(g, t)
    ensures TMul(g, 0, t) == Identity && TMul(g, 1, t) == t
  {
    AddIdentity(g, t);
  }
}
