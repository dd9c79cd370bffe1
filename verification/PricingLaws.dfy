/** What a quote does and does not depend on. */
module PricingLaws {
  import opened Wrappers
  import opened Sorting
  import opened Calendar
  import opened Pricing

  // --- totals ------------------------------------------------------------------------

  /** int32 overflow aside, the totals are the catalogue's: exact if and only if the exact sum
      is an int32, however the running sums wander. */
  lemma TotalsExactness(service: ServicePrice, selected: seq<Selected>)
    ensures Wrap32(service.price + SumPrice(selected)) == service.price + SumPrice(selected)
        <==> MIN_INT32 <= service.price + SumPrice(selected) <= MAX_INT32
    ensures Wrap32(service.minutes + SumMinutes(selected)) == service.minutes + SumMinutes(selected)
        <==> MIN_INT32 <= service.minutes + SumMinutes(selected) <= MAX_INT32
  {
  }

  lemma {:induction false} CountBound(selected: seq<Selected>, g: Id)
    ensures CountIn(selected, g) <= |selected|
  {
    if selected != [] { CountBound(selected[..|selected| - 1], g); }
  }

  /** For any choice of fewer than 2^31 options a group's rule is about the true count: at least the
      minimum, at least one if the group is required, at most one of a single choice, at most the
      maximum. */
  lemma GroupRuleIsAboutCounts(g: Group, selected: seq<Selected>)
    requires |selected| <= MAX_INT32
    ensures var n := CountIn(selected, g.id);
            GroupOk(g, n) <==>
            (n >= g.minSelect && (g.isRequired ==> n >= 1) && (g.single ==> n <= 1)
             && (g.maxSelect.Some? ==> n <= g.maxSelect.value))
  {
    CountBound(selected, g.id);
  }

  // --- acceptance in plain terms -----------------------------------------------------------

  /** Option k of the tree is what the id stands for: the last with that id. */
  ghost predicate Stands(tree: seq<ServiceOption>, id: Id, k: int) {
    0 <= k < |tree| && tree[k].id == id && forall j | k < j < |tree| :: tree[j].id != id
  }

  lemma {:induction false} FindMeans(tree: seq<ServiceOption>, id: Id)
    ensures Find(tree, id).Some? <==> exists k :: Stands(tree, id, k)
    ensures forall k | Stands(tree, id, k) :: Find(tree, id) == Some(tree[k])
  {
    if tree != [] {
      var init, last := tree[..|tree| - 1], tree[|tree| - 1];
      FindMeans(init, id);
      if last.id == id {
        assert Stands(tree, id, |tree| - 1);
      } else {
        forall k ensures Stands(tree, id, k) <==> Stands(init, id, k) {
          assert Stands(init, id, k) ==> forall j | k < j < |tree| :: j < |init| || tree[j] == last;
        }
      }
    }
  }

  /** The group's rule on how many of its options were chosen. */
  ghost predicate RuleHolds(g: Group, n: int) {
    && n >= g.minSelect && (g.isRequired ==> n >= 1) && (g.single ==> n <= 1)
    && (g.maxSelect.Some? ==> n <= g.maxSelect.value)
  }

  ghost predicate Distinct(ids: seq<Id>) {
    forall i, j | 0 <= i < j < |ids| :: ids[i] != ids[j]
  }

  ghost predicate StandsForActive(tree: seq<ServiceOption>, id: Id) {
    exists k :: Stands(tree, id, k) && tree[k].isActive
  }

  ghost predicate AllActive(tree: seq<ServiceOption>, ids: seq<Id>) {
    forall i | 0 <= i < |ids| :: StandsForActive(tree, ids[i])
  }

  lemma ChoosableMeans(tree: seq<ServiceOption>, id: Id)
    ensures Choosable(tree, id) <==> StandsForActive(tree, id)
  {
    FindMeans(tree, id);
  }

  lemma CleanMeans(tree: seq<ServiceOption>, ids: seq<Id>)
    ensures Clean(tree, ids) <==> Distinct(ids) && AllActive(tree, ids)
  {
    forall i | 0 <= i < |ids| ensures Choosable(tree, ids[i]) <==> StandsForActive(tree, ids[i]) {
      ChoosableMeans(tree, ids[i]);
    }
  }

  ghost predicate RulesHold(groups: seq<Group>, options: seq<Selected>) {
    forall g | g in groups :: RuleHolds(g, CountIn(options, g.id))
  }

  lemma GroupsMetExactly(groups: seq<Group>, options: seq<Selected>)
    requires |options| <= MAX_INT32
    ensures GroupsMet(groups, options) <==> RulesHold(groups, options)
  {
    forall g | g in groups ensures GroupOk(g, CountIn(options, g.id)) <==> RuleHolds(g, CountIn(options, g.id)) {
      GroupRuleIsAboutCounts(g, options);
    }
  }

  /** The totals, when they are int32s, are a price of at least nothing and some time. */
  ghost predicate TotalsServe(service: ServicePrice, options: seq<Selected>) {
    service.price + SumPrice(options) >= 0 && service.minutes + SumMinutes(options) > 0
  }

  lemma RulesMetExactly(service: ServicePrice, groups: seq<Group>, options: seq<Selected>)
    requires |options| <= MAX_INT32
    requires MIN_INT32 <= service.price + SumPrice(options) <= MAX_INT32
    requires MIN_INT32 <= service.minutes + SumMinutes(options) <= MAX_INT32
    ensures RulesMet(service, groups, options) <==> RulesHold(groups, options) && TotalsServe(service, options)
  {
    GroupsMetExactly(groups, options);
  }

  /** A choice is accepted exactly when its ids are distinct and stand for active options of the
      tree, every group's rule holds of the number chosen from it, and the totals, when they are
      int32s, are a price of at least nothing and a time of more than nothing. */
  lemma AcceptedExactly(service: ServicePrice, groups: seq<Group>, chosen: seq<Id>)
    requires |chosen| <= MAX_INT32
    ensures Clean(Tree(groups), chosen) <==> Distinct(chosen) && AllActive(Tree(groups), chosen)
    ensures Acceptable(service, groups, chosen) ==> Clean(Tree(groups), chosen)
    ensures Clean(Tree(groups), chosen) ==>
              var options := Chosen(Tree(groups), chosen);
              MIN_INT32 <= service.price + SumPrice(options) <= MAX_INT32
              && MIN_INT32 <= service.minutes + SumMinutes(options) <= MAX_INT32 ==>
                (Acceptable(service, groups, chosen) <==> RulesHold(groups, options) && TotalsServe(service, options))
  {
    CleanMeans(Tree(groups), chosen);
    if Clean(Tree(groups), chosen) {
      var options := Chosen(Tree(groups), chosen);
      if MIN_INT32 <= service.price + SumPrice(options) <= MAX_INT32
         && MIN_INT32 <= service.minutes + SumMinutes(options) <= MAX_INT32 {
        RulesMetExactly(service, groups, options);
      }
    }
  }

  // --- order of choice -----------------------------------------------------------------

  lemma SameDistinctMembers<T>(a: seq<T>, b: seq<T>)
    requires NoDuplicates(a) && NoDuplicates(b) && forall x :: x in a <==> x in b
    ensures multiset(a) == multiset(b)
  {
    forall x ensures multiset(a)[x] == multiset(b)[x] {
      DistinctCounts(a, x);
      DistinctCounts(b, x);
      assert x in a <==> x in multiset(a);
      assert x in b <==> x in multiset(b);
    }
  }

  lemma {:induction false} TotalsConcat(a: seq<Selected>, b: seq<Selected>)
    ensures SumPrice(a + b) == SumPrice(a) + SumPrice(b)
    ensures SumMinutes(a + b) == SumMinutes(a) + SumMinutes(b)
    ensures forall g :: CountIn(a + b, g) == CountIn(a, g) + CountIn(b, g)
  {
    if b == [] {
      assert a + b == a;
    } else {
      var init, last := b[..|b| - 1], b[|b| - 1];
      TotalsConcat(a, init);
      assert (a + b)[..|a + b| - 1] == a + init;
    }
  }

  lemma TakeOutMembers<T>(s: seq<T>, k: nat)
    requires k < |s|
    ensures multiset(s[..k] + s[k + 1..]) == multiset(s) - multiset{s[k]}
  {
    SplitAt(s, k);
  }

  lemma SplitAt<T>(s: seq<T>, k: nat)
    requires k < |s|
    ensures s == s[..k] + ([s[k]] + s[k + 1..])
  {
  }

  /** The totals of s are those of rest and of x. */
  ghost predicate Adds(s: seq<Selected>, rest: seq<Selected>, x: Selected) {
    && SumPrice(s) == SumPrice(rest) + SumPrice([x])
    && SumMinutes(s) == SumMinutes(rest) + SumMinutes([x])
    && forall g :: CountIn(s, g) == CountIn(rest, g) + CountIn([x], g)
  }

  lemma Middle(front: seq<Selected>, x: Selected, back: seq<Selected>)
    ensures Adds(front + ([x] + back), front + back, x)
  {
    TotalsConcat(front, [x] + back);
    TotalsConcat([x], back);
    TotalsConcat(front, back);
  }

  lemma TakeOut(s: seq<Selected>, k: nat)
    requires k < |s|
    ensures Adds(s, s[..k] + s[k + 1..], s[k])
  {
    Middle(s[..k], s[k], s[k + 1..]);
    SplitAt(s, k);
  }

  ghost predicate SameTotals(a: seq<Selected>, b: seq<Selected>) {
    SumPrice(a) == SumPrice(b) && SumMinutes(a) == SumMinutes(b) && forall g :: CountIn(a, g) == CountIn(b, g)
  }

  lemma LessOne(a: seq<Selected>, i: nat, b: seq<Selected>, k: nat)
    requires i < |a| && k < |b| && a[i] == b[k] && multiset(a) == multiset(b)
    ensures multiset(a[..i] + a[i + 1..]) == multiset(b[..k] + b[k + 1..])
  {
    TakeOutMembers(a, i);
    TakeOutMembers(b, k);
  }

  lemma PutBack(a: seq<Selected>, i: nat, b: seq<Selected>, k: nat)
    requires i < |a| && k < |b| && a[i] == b[k] && SameTotals(a[..i] + a[i + 1..], b[..k] + b[k + 1..])
    ensures SameTotals(a, b)
  {
    TakeOut(a, i);
    TakeOut(b, k);
  }

  lemma {:induction false} TotalsPermute(a: seq<Selected>, b: seq<Selected>)
    requires multiset(a) == multiset(b)
    ensures SameTotals(a, b)
  {
    if a == [] {
      assert multiset(b) == multiset{} && b == [];
    } else {
      assert a[0] in multiset(a) && a[0] in multiset(b);
      var k :| 0 <= k < |b| && b[k] == a[0];
      LessOne(a, 0, b, k);
      TotalsPermute(a[..0] + a[1..], b[..k] + b[k + 1..]);
      PutBack(a, 0, b, k);
    }
  }

  lemma ChosenPermutes(tree: seq<ServiceOption>, a: seq<Id>, b: seq<Id>)
    requires multiset(a) == multiset(b) && NoDuplicates(a) && AllChoosable(tree, a)
    ensures NoDuplicates(b) && AllChoosable(tree, b)
    ensures multiset(Chosen(tree, a)) == multiset(Chosen(tree, b))
  {
    SameMembers(a, b);
    PermutationKeepsDistinct(a, b);
    forall i | 0 <= i < |b| ensures Choosable(tree, b[i]) {
      assert b[i] in a;
    }
    var ca, cb := Chosen(tree, a), Chosen(tree, b);
    forall x ensures x in ca <==> x in cb {
      if x in ca {
        var i :| 0 <= i < |ca| && ca[i] == x;
        assert a[i] in b;
        var j :| 0 <= j < |b| && b[j] == a[i];
        assert cb[j] == x;
      }
      if x in cb {
        var i :| 0 <= i < |cb| && cb[i] == x;
        assert b[i] in a;
        var j :| 0 <= j < |a| && a[j] == b[i];
        assert ca[j] == x;
      }
    }
    assert NoDuplicates(ca) by { DistinctIdsDistinctSnapshots(tree, a); }
    assert NoDuplicates(cb) by { DistinctIdsDistinctSnapshots(tree, b); }
    SameDistinctMembers(ca, cb);
  }

  lemma DistinctIdsDistinctSnapshots(tree: seq<ServiceOption>, ids: seq<Id>)
    requires NoDuplicates(ids) && AllChoosable(tree, ids)
    ensures NoDuplicates(Chosen(tree, ids))
  {
    var c := Chosen(tree, ids);
    forall i, j | 0 <= i < j < |c| ensures c[i] != c[j] {
      assert c[i].optionId == ids[i] && c[j].optionId == ids[j];
    }
  }

  /** Acceptance, totals and the options as a multiset do not depend on the order of choice. */
  lemma OrderOfChoiceIsImmaterial(service: ServicePrice, groups: seq<Group>, a: seq<Id>, b: seq<Id>)
    requires multiset(a) == multiset(b)
    ensures Acceptable(service, groups, a) <==> Acceptable(service, groups, b)
    ensures Acceptable(service, groups, a) ==>
              var ca, cb := Chosen(Tree(groups), a), Chosen(Tree(groups), b);
              SumPrice(ca) == SumPrice(cb) && SumMinutes(ca) == SumMinutes(cb) && multiset(ca) == multiset(cb)
  {
    if Acceptable(service, groups, a) { AcceptancePermutes(service, groups, a, b); }
    if Acceptable(service, groups, b) { AcceptancePermutes(service, groups, b, a); }
  }

  lemma RulesPermute(service: ServicePrice, groups: seq<Group>, a: seq<Selected>, b: seq<Selected>)
    requires multiset(a) == multiset(b)
    ensures SumPrice(a) == SumPrice(b) && SumMinutes(a) == SumMinutes(b)
    ensures RulesMet(service, groups, a) ==> RulesMet(service, groups, b)
  {
    TotalsPermute(a, b);
  }

  lemma AcceptancePermutes(service: ServicePrice, groups: seq<Group>, a: seq<Id>, b: seq<Id>)
    requires multiset(a) == multiset(b) && Acceptable(service, groups, a)
    ensures Acceptable(service, groups, b)
    ensures var ca, cb := Chosen(Tree(groups), a), Chosen(Tree(groups), b);
            SumPrice(ca) == SumPrice(cb) && SumMinutes(ca) == SumMinutes(cb) && multiset(ca) == multiset(cb)
  {
    var tree := Tree(groups);
    ChosenPermutes(tree, a, b);
    RulesPermute(service, groups, Chosen(tree, a), Chosen(tree, b));
  }

  // --- order of the option list ----------------------------------------------------------

  ghost predicate NamesDistinct(selected: seq<Selected>) {
    forall i, j | 0 <= i < j < |selected| :: selected[i].name != selected[j].name
  }

  lemma DistinctNamesAscend(s: seq<Selected>)
    requires NamesDistinct(s)
    ensures Ascending(NameLess, Sort(NameLess, s))
  {
    NameLessIsStrictWeak();
    SortOrdered(NameLess, s);
    var t := Sort(NameLess, s);
    SameMembers(s, t);
    assert NoDuplicates(s);
    PermutationKeepsDistinct(s, t);
    forall i, j | 0 <= i < j < |t| ensures NameLess(t[i], t[j]) {
      assert t[i] in s && t[j] in s && t[i] != t[j];
      var k :| 0 <= k < |s| && s[k] == t[i];
      var l :| 0 <= l < |s| && s[l] == t[j];
      assert if k < l then s[k].name != s[l].name else s[l].name != s[k].name;
      LexTrichotomy(t[i].name, t[j].name);
    }
  }

  lemma NamedAt(s: seq<Selected>, i: nat)
    requires i < |s|
    ensures |Named(s[..i], s[i].name)| < |Named(s, s[i].name)|
    ensures Named(s, s[i].name)[|Named(s[..i], s[i].name)|] == s[i]
  {
    var name := s[i].name;
    assert s == s[..i] + ([s[i]] + s[i + 1..]);
    NamedConcat(s[..i], [s[i]] + s[i + 1..], name);
    NamedConcat([s[i]], s[i + 1..], name);
  }

  function Swap(ids: seq<Id>, i: nat, j: nat): (r: seq<Id>)
    requires i < j < |ids|
    ensures |r| == |ids| && r[..i] == ids[..i] && r[i] == ids[j]
  {
    ids[i := ids[j]][j := ids[i]]
  }

  lemma {:induction false} ChosenPrefix(tree: seq<ServiceOption>, ids: seq<Id>, n: nat)
    requires AllChoosable(tree, ids) && n <= |ids|
    ensures Chosen(tree, ids)[..n] == Chosen(tree, ids[..n])
  {
  }

  /** Two options of one name come out in the order they were chosen. */
  lemma SwapShows(tree: seq<ServiceOption>, ids: seq<Id>, i: nat, j: nat)
    requires NoDuplicates(ids) && AllChoosable(tree, ids) && i < j < |ids|
    requires Chosen(tree, ids)[i].name == Chosen(tree, ids)[j].name
    ensures multiset(Swap(ids, i, j)) == multiset(ids) && AllChoosable(tree, Swap(ids, i, j))
    ensures Sort(NameLess, Chosen(tree, Swap(ids, i, j))) != Sort(NameLess, Chosen(tree, ids))
  {
    var other := Swap(ids, i, j);
    assert multiset(other) == multiset(ids);
    ChosenPermutes(tree, ids, other);
    var a, b := Chosen(tree, ids), Chosen(tree, other);
    assert a[..i] == b[..i] by { ChosenPrefix(tree, ids, i); ChosenPrefix(tree, other, i); }
    var name := a[i].name;
    NamedAt(a, i);
    NamedAt(b, i);
    assert b[i] == a[j] && a[i] != a[j];
    SortIsStable(a, name);
    SortIsStable(b, name);
  }

  /** The option list is the same for every order of choice if and only if the chosen options
      have distinct names: the sort is stable and looks at names alone. */
  lemma OptionListOrder(tree: seq<ServiceOption>, ids: seq<Id>)
    requires NoDuplicates(ids) && AllChoosable(tree, ids)
    ensures NamesDistinct(Chosen(tree, ids)) <==>
            forall other: seq<Id> | multiset(other) == multiset(ids) && AllChoosable(tree, other) ::
              Sort(NameLess, Chosen(tree, other)) == Sort(NameLess, Chosen(tree, ids))
  {
    if NamesDistinct(Chosen(tree, ids)) {
      forall other: seq<Id> | multiset(other) == multiset(ids) && AllChoosable(tree, other)
        ensures Sort(NameLess, Chosen(tree, other)) == Sort(NameLess, Chosen(tree, ids))
      {
        DistinctNamesOneList(tree, ids, other);
      }
    } else {
      var c := Chosen(tree, ids);
      var i, j :| 0 <= i < j < |c| && c[i].name == c[j].name;
      SwapShows(tree, ids, i, j);
    }
  }

  lemma DistinctNamesOneList(tree: seq<ServiceOption>, ids: seq<Id>, other: seq<Id>)
    requires NoDuplicates(ids) && AllChoosable(tree, ids) && multiset(other) == multiset(ids)
        && AllChoosable(tree, other)
    requires NamesDistinct(Chosen(tree, ids))
    ensures Sort(NameLess, Chosen(tree, other)) == Sort(NameLess, Chosen(tree, ids))
  {
    ChosenPermutes(tree, ids, other);
    OneSortedList(Chosen(tree, ids), Chosen(tree, other));
  }

  lemma NamesPermute(a: seq<Selected>, b: seq<Selected>)
    requires multiset(a) == multiset(b) && NamesDistinct(a)
    ensures NamesDistinct(b)
  {
    SameMembers(a, b);
    assert NoDuplicates(a);
    PermutationKeepsDistinct(a, b);
    forall i, j | 0 <= i < j < |b| ensures b[i].name != b[j].name {
      assert b[i] in a && b[j] in a && b[i] != b[j];
      var k :| 0 <= k < |a| && a[k] == b[i];
      var l :| 0 <= l < |a| && a[l] == b[j];
      assert if k < l then a[k].name != a[l].name else a[l].name != a[k].name;
    }
  }

  lemma OneSortedList(a: seq<Selected>, b: seq<Selected>)
    requires multiset(a) == multiset(b) && NamesDistinct(a)
    ensures Sort(NameLess, a) == Sort(NameLess, b)
  {
    NamesPermute(a, b);
    DistinctNamesAscend(a);
    DistinctNamesAscend(b);
    SameMembers(Sort(NameLess, a), Sort(NameLess, b));
    NameLessIsStrictWeak();
    AscendingUnique(NameLess, Sort(NameLess, a), Sort(NameLess, b));
  }
}
