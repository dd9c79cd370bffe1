/** Counting by injections. */
module Counting {

  ghost predicate Injective<A, B>(m: map<A, B>) {
    forall x, y | x in m && y in m && x != y :: m[x] != m[y]
  }

  /** An injection cannot land in fewer places than it has sources. */
  lemma {:induction false} InjectionBound<A, B>(m: map<A, B>, b: set<B>)
    requires Injective(m) && m.Values <= b
    ensures |m| <= |b|
  {
    if m.Keys != {} {
      assert exists k :: k in m.Keys;
      var k :| k in m.Keys;
      var rest := m - {k};
      assert m[k] in m.Values;
      forall v | v in rest.Values ensures v in b - {m[k]} {
        var k' :| k' in rest && rest[k'] == v;
        assert m[k'] in m.Values;
      }
      InjectionBound(rest, b - {m[k]});
      assert rest.Keys == m.Keys - {k};
    }
  }
}
