/** internal/catalog/pricing.go: the price and duration of a service with chosen options. */
module Pricing {
  import opened Wrappers
  import opened Sorting
  import opened Calendar

  type Id = string
  type Int32 = x: int | MIN_INT32 <= x <= MAX_INT32

  datatype ServiceOption = ServiceOption(id: Id, groupId: Id, name: string, price: Int32, minutes: Int32,
                                         isActive: bool)

  datatype Group = Group(id: Id, name: string, single: bool, isRequired: bool, minSelect: Int32,
                         maxSelect: Option<Int32>,
                         options: seq<ServiceOption>)

  datatype ServicePrice = ServicePrice(price: Int32, currency: string, minutes: Int32)

  datatype Selected = Selected(optionId: Id, groupId: Id, name: string, price: Int32, minutes: Int32)

  datatype Quote = Quote(price: Int32, minutes: Int32, currency: string, options: seq<Selected>)

  datatype QuoteError =
    | SelectedTwice | Foreign | Unavailable(name: string)
    | TooFew(group: string) | OnlyOne(group: string) | TooMany(group: string)
    | NotPurchasable | NoTime

  // --- the catalogue as a specification ----------------------------------------------

  /** All options of the tree, in tree order. */
  function Tree(groups: seq<Group>): seq<ServiceOption> {
    if groups == [] then [] else Tree(groups[..|groups| - 1]) + groups[|groups| - 1].options
  }

  /** The option an id names: the last one, should the tree repeat an id. */
  function Find(tree: seq<ServiceOption>, id: Id): (r: Option<ServiceOption>)
    ensures r.Some? ==> r.value in tree && r.value.id == id
    ensures r.None? ==> forall o | o in tree :: o.id != id
  {
    if tree == [] then None
    else if tree[|tree| - 1].id == id then Some(tree[|tree| - 1])
    else Find(tree[..|tree| - 1], id)
  }

  function Snapshot(o: ServiceOption): Selected {
    Selected(o.id, o.groupId, o.name, o.price, o.minutes)
  }

  predicate Choosable(tree: seq<ServiceOption>, id: Id) {
    Find(tree, id).Some? && Find(tree, id).value.isActive
  }

  predicate AllChoosable(tree: seq<ServiceOption>, ids: seq<Id>) {
    forall i | 0 <= i < |ids| :: Choosable(tree, ids[i])
  }

  /** No id twice, and every id an active option of the tree. */
  ghost predicate Clean(tree: seq<ServiceOption>, chosen: seq<Id>) {
    NoDuplicates(chosen) && AllChoosable(tree, chosen)
  }

  /** The snapshots of the chosen options, in the order chosen. */
  function Chosen(tree: seq<ServiceOption>, ids: seq<Id>): (r: seq<Selected>)
    requires AllChoosable(tree, ids)
    ensures |r| == |ids| && forall i | 0 <= i < |ids| :: r[i] == Snapshot(Find(tree, ids[i]).value)
  {
    if ids == [] then [] else Chosen(tree, ids[..|ids| - 1]) + [Snapshot(Find(tree, ids[|ids| - 1]).value)]
  }

  function CountIn(selected: seq<Selected>, group: Id): nat {
    if selected == [] then 0
    else CountIn(selected[..|selected| - 1], group) + (if selected[|selected| - 1].groupId == group then 1 else 0)
  }

  function SumPrice(selected: seq<Selected>): int {
    if selected == [] then 0 else SumPrice(selected[..|selected| - 1]) + selected[|selected| - 1].price
  }

  function SumMinutes(selected: seq<Selected>): int {
    if selected == [] then 0 else SumMinutes(selected[..|selected| - 1]) + selected[|selected| - 1].minutes
  }

  /** A required group asks for at least one. */
  function EffectiveMin(g: Group): int {
    if g.isRequired && g.minSelect < 1 then 1 else g.minSelect
  }

  predicate GroupOk(g: Group, count: int) {
    && Wrap32(count) >= EffectiveMin(g)
    && (g.single ==> count <= 1)
    && (g.maxSelect.Some? ==> Wrap32(count) <= g.maxSelect.value)
  }

  ghost predicate Acceptable(service: ServicePrice, groups: seq<Group>, chosen: seq<Id>) {
    && Clean(Tree(groups), chosen)
    && RulesMet(service, groups, Chosen(Tree(groups), chosen))
  }

  ghost predicate GroupsMet(groups: seq<Group>, selected: seq<Selected>) {
    forall g | g in groups :: GroupOk(g, CountIn(selected, g.id))
  }

  /** Every group's rule is met and the totals make an appointment. */
  ghost predicate RulesMet(service: ServicePrice, groups: seq<Group>, selected: seq<Selected>) {
    && GroupsMet(groups, selected)
    && Wrap32(service.price + SumPrice(selected)) >= 0
    && Wrap32(service.minutes + SumMinutes(selected)) > 0
  }

  function NameLess(a: Selected, b: Selected): bool {
    LexLess(a.name, b.name)
  }

  // --- the code ------------------------------------------------------------------------

  ghost predicate Indexed(tree: seq<ServiceOption>, byID: map<Id, ServiceOption>) {
    forall id :: Find(tree, id) == if id in byID then Some(byID[id]) else None
  }

  method IndexOptions(groups: seq<Group>) returns (optionsByID: map<Id, ServiceOption>)
    ensures Indexed(Tree(groups), optionsByID)
  {
    optionsByID := map[];
    for i := 0 to |groups|
      invariant Indexed(Tree(groups[..i]), optionsByID)
    {
      assert groups[..i + 1][..i] == groups[..i];
      ghost var before := Tree(groups[..i]);
      optionsByID := IndexGroup(before, groups[i].options, optionsByID);
    }
    assert groups[..|groups|] == groups;
  }

  method IndexGroup(ghost before: seq<ServiceOption>, options: seq<ServiceOption>, byID0: map<Id, ServiceOption>)
    returns (byID: map<Id, ServiceOption>)
    requires Indexed(before, byID0)
    ensures Indexed(before + options, byID)
  {
    byID := byID0;
    assert before + options[..0] == before;
    for j := 0 to |options|
      invariant Indexed(before + options[..j], byID)
    {
      FindSnoc(before + options[..j], options[j]);
      assert before + options[..j + 1] == before + options[..j] + [options[j]];
      byID := byID[options[j].id := options[j]];
    }
    assert options[..|options|] == options;
  }

  lemma FindSnoc(tree: seq<ServiceOption>, o: ServiceOption)
    ensures forall id :: Find(tree + [o], id) == if id == o.id then Some(o) else Find(tree, id)
  {
    assert (tree + [o])[..|tree|] == tree;
  }

  ghost predicate Counted(selected: seq<Selected>, countByGroup: map<Id, nat>) {
    forall g :: CountIn(selected, g) == CountOf(countByGroup, g)
  }

  function CountOf(countByGroup: map<Id, nat>, g: Id): nat {
    if g in countByGroup then countByGroup[g] else 0
  }

  /** Position i is the first bad choice, and this is what is wrong with it. */
  ghost predicate FirstFault(tree: seq<ServiceOption>, chosen: seq<Id>, i: nat, error: QuoteError)
    requires i < |chosen|
  {
    && NoDuplicates(chosen[..i]) && AllChoosable(tree, chosen[..i])
    && if chosen[i] in chosen[..i] then error == SelectedTwice
       else match Find(tree, chosen[i])
            case None => error == Foreign
            case Some(o) => !o.isActive && error == Unavailable(o.name)
  }

  ghost predicate HasFirstFault(tree: seq<ServiceOption>, chosen: seq<Id>, error: QuoteError) {
    exists i :: 0 <= i < |chosen| && FirstFault(tree, chosen, i, error)
  }

  lemma FaultRejects(tree: seq<ServiceOption>, chosen: seq<Id>, i: nat, error: QuoteError)
    requires i < |chosen| && FirstFault(tree, chosen, i, error)
    ensures !Clean(tree, chosen) && HasFirstFault(tree, chosen, error)
  {
    if chosen[i] in chosen[..i] {
      var j :| 0 <= j < i && chosen[..i][j] == chosen[i];
      assert chosen[j] == chosen[i];
    } else {
      assert !Choosable(tree, chosen[i]);
    }
  }

  /** What is wrong with choosing one more id. */
  ghost function FaultOf(tree: seq<ServiceOption>, before: set<Id>, id: Id): Option<QuoteError> {
    if id in before then Some(SelectedTwice)
    else match Find(tree, id)
         case None => Some(Foreign)
         case Some(o) => if o.isActive then None else Some(Unavailable(o.name))
  }

  method CheckChoice(ghost tree: seq<ServiceOption>, optionsByID: map<Id, ServiceOption>, seen: set<Id>, id: Id)
    returns (error: Option<QuoteError>)
    requires Indexed(tree, optionsByID)
    ensures error == FaultOf(tree, seen, id)
    ensures error.None? ==> id in optionsByID && Some(optionsByID[id]) == Find(tree, id)
  {
    assert Find(tree, id) == if id in optionsByID then Some(optionsByID[id]) else None;
    if id in seen {
      return Some(SelectedTwice);
    }
    if id !in optionsByID {
      return Some(Foreign);
    }
    if !optionsByID[id].isActive {
      return Some(Unavailable(optionsByID[id].name));
    }
    return None;
  }

  // What the loop over the chosen ids has found out about the ids behind it.
  ghost predicate Resolved(tree: seq<ServiceOption>, ids: seq<Id>, seen: set<Id>, selected: seq<Selected>,
                           countByGroup: map<Id, nat>) {
    && (forall id :: id in seen <==> id in ids)
    && NoDuplicates(ids) && AllChoosable(tree, ids)
    && selected == Chosen(tree, ids) && Counted(selected, countByGroup)
  }

  lemma ResolveStep(tree: seq<ServiceOption>, ids: seq<Id>, seen: set<Id>, selected: seq<Selected>,
                    countByGroup: map<Id, nat>, id: Id, option: ServiceOption)
    requires Resolved(tree, ids, seen, selected, countByGroup)
    requires FaultOf(tree, seen, id).None? && Find(tree, id) == Some(option)
    ensures Resolved(tree, ids + [id], seen + {id}, selected + [Snapshot(option)],
                     countByGroup[option.groupId := CountOf(countByGroup, option.groupId) + 1])
  {
    ChosenSnoc(tree, ids, id);
    CountedSnoc(selected, countByGroup, Snapshot(option));
  }

  lemma ResolveStops(tree: seq<ServiceOption>, chosen: seq<Id>, i: nat, seen: set<Id>, selected: seq<Selected>,
                     countByGroup: map<Id, nat>, error: QuoteError)
    requires i < |chosen| && Resolved(tree, chosen[..i], seen, selected, countByGroup)
    requires FaultOf(tree, seen, chosen[i]) == Some(error)
    ensures !Clean(tree, chosen) && HasFirstFault(tree, chosen, error)
  {
    FaultRejects(tree, chosen, i, error);
  }

  /** The first loop of BuildQuote: resolve ids, refusing repetitions, strangers and retired
      options at the first one met. */
  method Resolve(ghost tree: seq<ServiceOption>, optionsByID: map<Id, ServiceOption>, chosen: seq<Id>)
    returns (error: Option<QuoteError>, selected: seq<Selected>, countByGroup: map<Id, nat>)
    requires Indexed(tree, optionsByID)
    ensures error.None? <==> Clean(tree, chosen)
    ensures error.None? ==> selected == Chosen(tree, chosen) && Counted(selected, countByGroup)
    ensures error.Some? ==> HasFirstFault(tree, chosen, error.value)
  {
    error, selected, countByGroup := None, [], map[];
    var seen: set<Id> := {};
    for i := 0 to |chosen|
      invariant error.None? && Resolved(tree, chosen[..i], seen, selected, countByGroup)
    {
      var id := chosen[i];
      error := CheckChoice(tree, optionsByID, seen, id);
      if error.Some? {
        ResolveStops(tree, chosen, i, seen, selected, countByGroup, error.value);
        return;
      }
      var option := optionsByID[id];
      ResolveStep(tree, chosen[..i], seen, selected, countByGroup, id, option);
      SnocAt(chosen, i);
      seen := seen + {id};
      countByGroup := countByGroup[option.groupId := CountOf(countByGroup, option.groupId) + 1];
      selected := selected + [Snapshot(option)];
    }
    assert chosen[..|chosen|] == chosen;
  }

  lemma ChosenSnoc(tree: seq<ServiceOption>, ids: seq<Id>, id: Id)
    requires AllChoosable(tree, ids) && NoDuplicates(ids) && Choosable(tree, id) && id !in ids
    ensures AllChoosable(tree, ids + [id]) && NoDuplicates(ids + [id])
    ensures Chosen(tree, ids + [id]) == Chosen(tree, ids) + [Snapshot(Find(tree, id).value)]
  {
    assert (ids + [id])[..|ids|] == ids;
  }

  lemma CountSnoc(selected: seq<Selected>, s: Selected)
    ensures forall g :: CountIn(selected + [s], g) == CountIn(selected, g) + if s.groupId == g then 1 else 0
  {
    assert (selected + [s])[..|selected|] == selected;
  }

  lemma SnocAt<T>(s: seq<T>, i: nat)
    requires i < |s|
    ensures s[..i + 1] == s[..i] + [s[i]]
  {
  }

  lemma CountedSnoc(selected: seq<Selected>, countByGroup: map<Id, nat>, s: Selected)
    requires Counted(selected, countByGroup)
    ensures Counted(selected + [s], countByGroup[s.groupId := CountOf(countByGroup, s.groupId) + 1])
  {
    CountSnoc(selected, s);
  }

  /** The error of the first group whose rule fails. */
  ghost predicate GroupFault(g: Group, count: int, error: QuoteError) {
    if Wrap32(count) < EffectiveMin(g) then error == TooFew(g.name)
    else if g.single && count > 1 then error == OnlyOne(g.name)
    else g.maxSelect.Some? && Wrap32(count) > g.maxSelect.value && error == TooMany(g.name)
  }

  ghost predicate FirstGroupFault(groups: seq<Group>, selected: seq<Selected>, i: nat, error: QuoteError)
    requires i < |groups|
  {
    GroupsMet(groups[..i], selected) && GroupFault(groups[i], CountIn(selected, groups[i].id), error)
  }

  ghost predicate HasGroupFault(groups: seq<Group>, selected: seq<Selected>, error: QuoteError) {
    exists i :: 0 <= i < |groups| && FirstGroupFault(groups, selected, i, error)
  }

  method CheckGroupRules(groups: seq<Group>, countByGroup: map<Id, nat>, ghost selected: seq<Selected>)
    returns (r: Option<QuoteError>)
    requires Counted(selected, countByGroup)
    ensures r.None? <==> GroupsMet(groups, selected)
    ensures r.Some? ==> HasGroupFault(groups, selected, r.value)
  {
    for i := 0 to |groups|
      invariant GroupsMet(groups[..i], selected)
    {
      var group := groups[i];
      var count := CountOf(countByGroup, group.id);
      var minimum := group.minSelect;
      if group.isRequired && minimum < 1 {
        minimum := 1;
      }
      assert group in groups && minimum == EffectiveMin(group) && count == CountIn(selected, group.id);
      if Wrap32(count) < minimum {
        assert FirstGroupFault(groups, selected, i, TooFew(group.name));
        return Some(TooFew(group.name));
      }
      if group.single && count > 1 {
        assert FirstGroupFault(groups, selected, i, OnlyOne(group.name));
        return Some(OnlyOne(group.name));
      }
      if group.maxSelect.Some? && Wrap32(count) > group.maxSelect.value {
        assert FirstGroupFault(groups, selected, i, TooMany(group.name));
        return Some(TooMany(group.name));
      }
    }
    assert groups[..|groups|] == groups;
    return None;
  }

  method Totals(service: ServicePrice, selected: seq<Selected>) returns (price: Int32, minutes: Int32)
    ensures price == Wrap32(service.price + SumPrice(selected))
    ensures minutes == Wrap32(service.minutes + SumMinutes(selected))
  {
    price, minutes := service.price, service.minutes;
    ghost var sumPrice, sumMinutes := service.price, service.minutes;
    for i := 0 to |selected|
      invariant sumPrice == service.price + SumPrice(selected[..i]) && price == Wrap32(sumPrice)
      invariant sumMinutes == service.minutes + SumMinutes(selected[..i]) && minutes == Wrap32(sumMinutes)
    {
      SumSnoc(selected, i);
      WrapAdd(sumPrice, selected[i].price);
      WrapAdd(sumMinutes, selected[i].minutes);
      sumPrice, sumMinutes := sumPrice + selected[i].price, sumMinutes + selected[i].minutes;
      price, minutes := Wrap32(price + selected[i].price), Wrap32(minutes + selected[i].minutes);
    }
    assert selected[..|selected|] == selected;
  }

  lemma SumSnoc(selected: seq<Selected>, i: nat)
    requires i < |selected|
    ensures SumPrice(selected[..i + 1]) == SumPrice(selected[..i]) + selected[i].price
    ensures SumMinutes(selected[..i + 1]) == SumMinutes(selected[..i]) + selected[i].minutes
  {
    assert selected[..i + 1][..i] == selected[..i];
  }

  /** The error names the first thing wrong, in the order the code looks. */
  ghost predicate RightError(service: ServicePrice, groups: seq<Group>, chosen: seq<Id>, error: QuoteError) {
    if !Clean(Tree(groups), chosen) then HasFirstFault(Tree(groups), chosen, error)
    else RightRuleError(service, groups, Chosen(Tree(groups), chosen), error)
  }

  ghost predicate RightRuleError(service: ServicePrice, groups: seq<Group>, selected: seq<Selected>,
                                 error: QuoteError) {
    if !GroupsMet(groups, selected) then HasGroupFault(groups, selected, error)
    else error == if Wrap32(service.price + SumPrice(selected)) < 0 then NotPurchasable else NoTime
  }

  function QuoteOf(service: ServicePrice, selected: seq<Selected>): Quote {
    Quote(Wrap32(service.price + SumPrice(selected)), Wrap32(service.minutes + SumMinutes(selected)),
          service.currency, Sort(NameLess, selected))
  }

  // --- the order of the options ------------------------------------------------------------

  lemma NameLessIsStrictWeak()
    ensures StrictWeak(NameLess)
  {
    LexIsStrictWeak();
  }

  /** The options of one name, in order. */
  function Named(s: seq<Selected>, name: string): seq<Selected> {
    if s == [] then []
    else if s[0].name == name then [s[0]] + Named(s[1..], name)
    else Named(s[1..], name)
  }

  lemma {:induction false} NamedConcat(a: seq<Selected>, b: seq<Selected>, name: string)
    ensures Named(a + b, name) == Named(a, name) + Named(b, name)
  {
    if a == [] {
      assert a + b == b;
    } else {
      NamedConcat(a[1..], b, name);
      assert (a + b)[0] == a[0] && (a + b)[1..] == a[1..] + b;
      if a[0].name == name {
        assert [a[0]] + (Named(a[1..], name) + Named(b, name)) == ([a[0]] + Named(a[1..], name)) + Named(b, name);
      }
    }
  }

  lemma NamedCons(x: Selected, s: seq<Selected>, name: string)
    ensures Named([x] + s, name) == if x.name == name then [x] + Named(s, name) else Named(s, name)
  {
    assert ([x] + s)[1..] == s;
  }

  lemma NamedSwap(head: Selected, x: Selected, rest: seq<Selected>, tail: seq<Selected>, name: string)
    requires head.name != x.name && Named(tail, name) == Named([x], name) + Named(rest, name)
    ensures Named([head] + tail, name) == Named([x], name) + Named([head] + rest, name)
  {
    NamedCons(head, tail, name);
    NamedCons(head, rest, name);
    assert [x][1..] == [];
  }

  /** Stability: sorting keeps the relative order of options with one name. */
  lemma {:induction false} InsertIsStable(x: Selected, s: seq<Selected>, name: string)
    ensures Named(Insert(NameLess, x, s), name) == Named([x], name) + Named(s, name)
  {
    if s == [] || !NameLess(s[0], x) {
      NamedConcat([x], s, name);
    } else {
      InsertIsStable(x, s[1..], name);
      LexTrichotomy(s[0].name, x.name);
      NamedSwap(s[0], x, s[1..], Insert(NameLess, x, s[1..]), name);
      assert s == [s[0]] + s[1..];
    }
  }

  lemma {:induction false} SortIsStable(s: seq<Selected>, name: string)
    ensures Named(Sort(NameLess, s), name) == Named(s, name)
  {
    if s != [] {
      SortIsStable(s[1..], name);
      InsertIsStable(s[0], Sort(NameLess, s[1..]), name);
      NamedConcat([s[0]], s[1..], name);
      assert s == [s[0]] + s[1..];
    }
  }

  /** The options as quoted are a permutation of the options as chosen, ordered by name, and those
      of one name stand in the order they were chosen. */
  ghost predicate InOrderOfName(quoted: seq<Selected>, chosen: seq<Selected>) {
    && multiset(quoted) == multiset(chosen)
    && (forall i, j | 0 <= i < j < |quoted| :: !LexLess(quoted[j].name, quoted[i].name))
    && (forall name :: Named(quoted, name) == Named(chosen, name))
  }

  lemma SortInOrderOfName(chosen: seq<Selected>)
    ensures |Sort(NameLess, chosen)| == |chosen| && InOrderOfName(Sort(NameLess, chosen), chosen)
  {
    NameLessIsStrictWeak();
    SortOrdered(NameLess, chosen);
    SameMembers(chosen, Sort(NameLess, chosen));
    forall name ensures Named(Sort(NameLess, chosen), name) == Named(chosen, name) {
      SortIsStable(chosen, name);
    }
    var quoted := Sort(NameLess, chosen);
    forall i, j | 0 <= i < j < |quoted| ensures !LexLess(quoted[j].name, quoted[i].name) {
      assert !NameLess(quoted[j], quoted[i]);
    }
  }

  /** The snapshot is of an active option of the tree with that id, field by field. */
  ghost predicate IsSnapshot(tree: seq<ServiceOption>, id: Id, s: Selected) {
    exists o :: o in tree && o.id == id && o.isActive
                && s.optionId == o.id && s.groupId == o.groupId && s.name == o.name
                && s.price == o.price && s.minutes == o.minutes
  }

  lemma Snapshots(tree: seq<ServiceOption>, chosen: seq<Id>)
    requires AllChoosable(tree, chosen)
    ensures forall i | 0 <= i < |chosen| :: IsSnapshot(tree, chosen[i], Chosen(tree, chosen)[i])
  {
    forall i | 0 <= i < |chosen| ensures IsSnapshot(tree, chosen[i], Chosen(tree, chosen)[i]) {
      assert Choosable(tree, chosen[i]);
      var o := Find(tree, chosen[i]).value;
      assert Chosen(tree, chosen)[i] == Snapshot(o);
    }
  }

  /** The part of BuildQuote after the ids are resolved. */
  method PriceSelection(service: ServicePrice, groups: seq<Group>, selected: seq<Selected>, countByGroup: map<Id, nat>)
    returns (r: Result<Quote, QuoteError>)
    requires Counted(selected, countByGroup)
    ensures r.Success? <==> RulesMet(service, groups, selected)
    ensures r.Success? ==> r.value == QuoteOf(service, selected)
    ensures r.Failure? ==> RightRuleError(service, groups, selected, r.error)
  {
    var error := CheckGroupRules(groups, countByGroup, selected);
    if error.Some? {
      return Failure(error.value);
    }
    var price, minutes := Totals(service, selected);
    if price < 0 {
      return Failure(NotPurchasable);
    }
    if minutes <= 0 {
      return Failure(NoTime);
    }
    return Success(Quote(price, minutes, service.currency, Sort(NameLess, selected)));
  }

  /** Succeeds exactly on the acceptable choices, with the totals of the catalogue. */
  method BuildQuote(service: ServicePrice, groups: seq<Group>, chosen: seq<Id>) returns (r: Result<Quote, QuoteError>)
    ensures r.Success? <==> Acceptable(service, groups, chosen)
    ensures r.Success? ==> r.value == QuoteOf(service, Chosen(Tree(groups), chosen))
    // what is quoted, in plain terms
    ensures r.Success? ==>
              var chosenOptions := Chosen(Tree(groups), chosen);
              var price := service.price + SumPrice(chosenOptions);
              var minutes := service.minutes + SumMinutes(chosenOptions);
              && (r.value.price == price <==> -0x8000_0000 <= price <= 0x7FFF_FFFF)
              && (r.value.minutes == minutes <==> -0x8000_0000 <= minutes <= 0x7FFF_FFFF)
              && r.value.price >= 0 && r.value.minutes > 0 && r.value.currency == service.currency
    ensures r.Success? ==> |r.value.options| == |chosen| && InOrderOfName(r.value.options, Chosen(Tree(groups), chosen))
    ensures r.Success? ==>
              forall i | 0 <= i < |chosen| :: IsSnapshot(Tree(groups), chosen[i], Chosen(Tree(groups), chosen)[i])
    ensures r.Failure? ==> RightError(service, groups, chosen, r.error)
  {
    var optionsByID := IndexOptions(groups);
    ghost var tree := Tree(groups);
    var error, selected, countByGroup := Resolve(tree, optionsByID, chosen);
    if error.Some? {
      return Failure(error.value);
    }
    r := PriceSelection(service, groups, selected, countByGroup);
    SortInOrderOfName(selected);
    Snapshots(tree, chosen);
  }
}
