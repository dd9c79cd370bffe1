/** internal/scheduling/slots.go: which spans each resource is open on one date. */
module Windows {
  import opened Wrappers

  type Id = string

  datatype HoursRule = HoursRule(resource: Option<Id>, weekday: int, opens: int, closes: int)

  datatype ExceptionRule = ExceptionRule(resource: Option<Id>, isClosed: bool, opens: Option<int>, closes: Option<int>)

  datatype DayWindow = DayWindow(resource: Id, opens: int, closes: int)

  // --- the four-level precedence, as a specification --------------------------

  /** The last exception for one scope, if any. */
  function LastException(exceptions: seq<ExceptionRule>, scope: Option<Id>): Option<ExceptionRule> {
    if exceptions == [] then None
    else
      var last := exceptions[|exceptions| - 1];
      if last.resource == scope then Some(last)
      else LastException(exceptions[..|exceptions| - 1], scope)
  }

  /** The rules of one scope on one weekday, in order. */
  function RulesFor(hours: seq<HoursRule>, weekday: int, scope: Option<Id>): seq<HoursRule> {
    if hours == [] then []
    else
      var last := hours[|hours| - 1];
      var init := RulesFor(hours[..|hours| - 1], weekday, scope);
      if last.weekday == weekday && last.resource == scope then init + [last] else init
  }

  function AsWindows(resource: Id, rules: seq<HoursRule>): (ws: seq<DayWindow>)
    ensures |ws| == |rules|
    ensures forall i | 0 <= i < |ws| :: ws[i] == DayWindow(resource, rules[i].opens, rules[i].closes)
  {
    if rules == [] then []
    else
      var last := rules[|rules| - 1];
      AsWindows(resource, rules[..|rules| - 1]) + [DayWindow(resource, last.opens, last.closes)]
  }

  function ExceptionWindows(resource: Id, e: ExceptionRule): seq<DayWindow> {
    if e.isClosed || e.opens.None? || e.closes.None? then []
    else [DayWindow(resource, e.opens.value, e.closes.value)]
  }

  /** First match of: exception for the resource, exception for the provider, the resource's
      hours, the provider's hours. */
  function WindowsFor(resource: Id, hours: seq<HoursRule>, exceptions: seq<ExceptionRule>,
                      weekday: int): seq<DayWindow> {
    match LastException(exceptions, Some(resource))
    case Some(e) => ExceptionWindows(resource, e)
    case None =>
      match LastException(exceptions, None)
      case Some(e) => ExceptionWindows(resource, e)
      case None =>
        var own := RulesFor(hours, weekday, Some(resource));
        AsWindows(resource, if own != [] then own else RulesFor(hours, weekday, None))
  }

  function AllWindows(resources: seq<Id>, hours: seq<HoursRule>, exceptions: seq<ExceptionRule>,
                      weekday: int): seq<DayWindow> {
    if resources == [] then []
    else
      AllWindows(resources[..|resources| - 1], hours, exceptions, weekday)
      + WindowsFor(resources[|resources| - 1], hours, exceptions, weekday)
  }

  // --- the code ----------------------------------------------------------------

  method IndexExceptions(exceptions: seq<ExceptionRule>)
    returns (resourceExceptions: map<Id, ExceptionRule>, providerException: Option<ExceptionRule>)
    ensures providerException == LastException(exceptions, None)
    ensures forall r: Id :: LastException(exceptions, Some(r)) ==
                            if r in resourceExceptions then Some(resourceExceptions[r]) else None
  {
    resourceExceptions, providerException := map[], None;
    for i := 0 to |exceptions|
      invariant providerException == LastException(exceptions[..i], None)
      invariant forall r: Id :: LastException(exceptions[..i], Some(r)) ==
                                if r in resourceExceptions then Some(resourceExceptions[r]) else None
    {
      assert exceptions[..i + 1][..i] == exceptions[..i];
      var exception := exceptions[i];
      if exception.resource.Some? {
        resourceExceptions := resourceExceptions[exception.resource.value := exception];
      } else {
        providerException := Some(exception);
      }
    }
    assert exceptions[..|exceptions|] == exceptions;
  }

  method IndexHours(hours: seq<HoursRule>, weekday: int)
    returns (resourceHours: map<Id, seq<HoursRule>>, providerHours: seq<HoursRule>)
    ensures providerHours == RulesFor(hours, weekday, None)
    ensures forall r: Id :: RulesFor(hours, weekday, Some(r)) ==
                            if r in resourceHours then resourceHours[r] else []
  {
    resourceHours, providerHours := map[], [];
    for i := 0 to |hours|
      invariant providerHours == RulesFor(hours[..i], weekday, None)
      invariant forall r: Id :: RulesFor(hours[..i], weekday, Some(r)) ==
                                if r in resourceHours then resourceHours[r] else []
    {
      assert hours[..i + 1][..i] == hours[..i];
      var rule := hours[i];
      if rule.weekday != weekday {
        continue;
      }
      if rule.resource.Some? {
        var r := rule.resource.value;
        resourceHours := resourceHours[r := (if r in resourceHours then resourceHours[r] else []) + [rule]];
      } else {
        providerHours := providerHours + [rule];
      }
    }
    assert hours[..|hours|] == hours;
  }

  method AppendRules(before: seq<DayWindow>, resourceID: Id, rules: seq<HoursRule>) returns (windows: seq<DayWindow>)
    ensures windows == before + AsWindows(resourceID, rules)
  {
    windows := before;
    for j := 0 to |rules|
      invariant windows == before + AsWindows(resourceID, rules[..j])
    {
      assert rules[..j + 1][..j] == rules[..j];
      windows := windows + [DayWindow(resourceID, rules[j].opens, rules[j].closes)];
    }
    assert rules[..|rules|] == rules;
  }

  method ResolveWindows(resourceIDs: seq<Id>, hours: seq<HoursRule>, exceptions: seq<ExceptionRule>, weekday: int)
    returns (windows: seq<DayWindow>)
    ensures windows == AllWindows(resourceIDs, hours, exceptions, weekday)
  {
    var resourceExceptions, providerException := IndexExceptions(exceptions);
    var resourceHours, providerHours := IndexHours(hours, weekday);

    windows := [];
    for i := 0 to |resourceIDs|
      invariant windows == AllWindows(resourceIDs[..i], hours, exceptions, weekday)
    {
      assert resourceIDs[..i + 1][..i] == resourceIDs[..i];
      var resourceID := resourceIDs[i];
      ghost var before := windows;
      ghost var expected := WindowsFor(resourceID, hours, exceptions, weekday);
      assert AllWindows(resourceIDs[..i + 1], hours, exceptions, weekday) == before + expected;
      var exception := if resourceID in resourceExceptions then Some(resourceExceptions[resourceID])
          else providerException;
      if exception.Some? {
        var e := exception.value;
        if e.isClosed || e.opens.None? || e.closes.None? {
          continue;
        }
        windows := windows + [DayWindow(resourceID, e.opens.value, e.closes.value)];
        continue;
      }
      var rules := if resourceID in resourceHours then resourceHours[resourceID] else [];
      if |rules| == 0 {
        rules := providerHours;
      }
      windows := AppendRules(windows, resourceID, rules);
    }
    assert resourceIDs[..|resourceIDs|] == resourceIDs;
  }

  // --- what the precedence means -----------------------------------------------

  /** The rules that can bear on one resource: its own and the provider's. */
  function RelevantHours(hours: seq<HoursRule>, resource: Id): seq<HoursRule> {
    if hours == [] then []
    else
      var init, last := RelevantHours(hours[..|hours| - 1], resource), hours[|hours| - 1];
      if last.resource == None || last.resource == Some(resource) then init + [last] else init
  }

  function RelevantExceptions(exceptions: seq<ExceptionRule>, resource: Id): seq<ExceptionRule> {
    if exceptions == [] then []
    else
      var init, last := RelevantExceptions(exceptions[..|exceptions| - 1], resource), exceptions[|exceptions| - 1];
      if last.resource == None || last.resource == Some(resource) then init + [last] else init
  }

  lemma {:induction false} RulesIgnoreOthers(hours: seq<HoursRule>, resource: Id, weekday: int, scope: Option<Id>)
    requires scope == None || scope == Some(resource)
    ensures RulesFor(RelevantHours(hours, resource), weekday, scope) == RulesFor(hours, weekday, scope)
  {
    if hours != [] {
      RulesIgnoreOthers(hours[..|hours| - 1], resource, weekday, scope);
      var last := hours[|hours| - 1];
      var init := RelevantHours(hours[..|hours| - 1], resource);
      assert (init + [last])[..|init|] == init;
    }
  }

  lemma {:induction false} ExceptionsIgnoreOthers(exceptions: seq<ExceptionRule>, resource: Id, scope: Option<Id>)
    requires scope == None || scope == Some(resource)
    ensures LastException(RelevantExceptions(exceptions, resource), scope) == LastException(exceptions, scope)
  {
    if exceptions != [] {
      ExceptionsIgnoreOthers(exceptions[..|exceptions| - 1], resource, scope);
      var last := exceptions[|exceptions| - 1];
      var init := RelevantExceptions(exceptions[..|exceptions| - 1], resource);
      assert (init + [last])[..|init|] == init;
    }
  }

  /** A resource's windows do not change when rules of other resources change. */
  lemma WindowsAreLocal(resource: Id, weekday: int, hours: seq<HoursRule>, exceptions: seq<ExceptionRule>,
                        hours': seq<HoursRule>, exceptions': seq<ExceptionRule>)
    requires RelevantHours(hours, resource) == RelevantHours(hours', resource)
    requires RelevantExceptions(exceptions, resource) == RelevantExceptions(exceptions', resource)
    ensures WindowsFor(resource, hours, exceptions, weekday) == WindowsFor(resource, hours', exceptions', weekday)
  {
    forall scope | scope == None || scope == Some(resource)
      ensures LastException(exceptions, scope) == LastException(exceptions', scope)
      ensures RulesFor(hours, weekday, scope) == RulesFor(hours', weekday, scope)
    {
      ExceptionsIgnoreOthers(exceptions, resource, scope);
      ExceptionsIgnoreOthers(exceptions', resource, scope);
      RulesIgnoreOthers(hours, resource, weekday, scope);
      RulesIgnoreOthers(hours', resource, weekday, scope);
    }
  }

  lemma OwnWindows(resource: Id, hours: seq<HoursRule>, exceptions: seq<ExceptionRule>, weekday: int)
    ensures forall w | w in WindowsFor(resource, hours, exceptions, weekday) :: w.resource == resource
  {
  }

  /** A window is in the result iff its resource was asked about and the precedence gives it. */
  lemma {:induction false} WindowMembers(resources: seq<Id>, hours: seq<HoursRule>, exceptions: seq<ExceptionRule>,
                                         weekday: int, w: DayWindow)
    ensures w in AllWindows(resources, hours, exceptions, weekday)
        <==> w.resource in resources && w in WindowsFor(w.resource, hours, exceptions, weekday)
  {
    if resources != [] {
      var init, last := resources[..|resources| - 1], resources[|resources| - 1];
      WindowMembers(init, hours, exceptions, weekday, w);
      OwnWindows(last, hours, exceptions, weekday);
      SplitMembership(resources, AllWindows(init, hours, exceptions, weekday),
                      WindowsFor(last, hours, exceptions, weekday), w);
    }
  }

  lemma SplitMembership(resources: seq<Id>, a: seq<DayWindow>, b: seq<DayWindow>, w: DayWindow)
    requires resources != []
    ensures w in a + b <==> w in a || w in b
    ensures w.resource in resources
        <==> w.resource in resources[..|resources| - 1] || w.resource == resources[|resources| - 1]
  {
    assert resources == resources[..|resources| - 1] + [resources[|resources| - 1]];
  }

  /** Follows the code, not its comment: under a closure of the whole provider a resource keeps a
      window if and only if its own exception is open with both times. */
  lemma ClosedOnlyWhenFirstMatch(resources: seq<Id>, hours: seq<HoursRule>, exceptions: seq<ExceptionRule>,
                                 weekday: int, resource: Id)
    requires LastException(exceptions, None).Some? && LastException(exceptions, None).value.isClosed
    ensures (exists w :: w in AllWindows(resources, hours, exceptions, weekday) && w.resource == resource)
        <==> resource in resources && OpensAnyway(LastException(exceptions, Some(resource)))
  {
    var own := WindowsFor(resource, hours, exceptions, weekday);
    forall w ensures w in AllWindows(resources, hours, exceptions, weekday) && w.resource == resource
                <==> resource in resources && w in own
    {
      WindowMembers(resources, hours, exceptions, weekday, w);
      OwnWindows(resource, hours, exceptions, weekday);
    }
    assert OpensAnyway(LastException(exceptions, Some(resource))) ==> own[0] in own;
  }

  /** Exception i is the one that counts for its scope: the last one given. */
  ghost predicate Decisive(exceptions: seq<ExceptionRule>, scope: Option<Id>, i: int) {
    && 0 <= i < |exceptions| && exceptions[i].resource == scope
    && forall j | i < j < |exceptions| :: exceptions[j].resource != scope
  }

  lemma {:induction false} LastExceptionMeans(exceptions: seq<ExceptionRule>, scope: Option<Id>)
    ensures forall i | Decisive(exceptions, scope, i) :: LastException(exceptions, scope) == Some(exceptions[i])
    ensures LastException(exceptions, scope).None? <==> NoneFor(exceptions, scope)
  {
    if exceptions != [] {
      var init, last := exceptions[..|exceptions| - 1], exceptions[|exceptions| - 1];
      LastExceptionMeans(init, scope);
      forall i | Decisive(exceptions, scope, i) && last.resource != scope
        ensures LastException(exceptions, scope) == Some(exceptions[i])
      {
        assert Decisive(init, scope, i);
      }
    }
  }

  lemma {:induction false} RulesForMembers(hours: seq<HoursRule>, weekday: int, scope: Option<Id>, rule: HoursRule)
    ensures rule in RulesFor(hours, weekday, scope) <==>
            rule in hours && rule.weekday == weekday && rule.resource == scope
  {
    if hours != [] {
      RulesForMembers(hours[..|hours| - 1], weekday, scope, rule);
      assert hours == hours[..|hours| - 1] + [hours[|hours| - 1]];
    }
  }

  /** A rule of one scope for the weekday, with these times. */
  ghost predicate RuleGives(hours: seq<HoursRule>, weekday: int, scope: Option<Id>, w: DayWindow) {
    HoursRule(scope, weekday, w.opens, w.closes) in hours
  }

  ghost predicate HasHours(hours: seq<HoursRule>, weekday: int, scope: Option<Id>) {
    exists opens, closes :: HoursRule(scope, weekday, opens, closes) in hours
  }

  ghost predicate ExceptionGives(e: ExceptionRule, w: DayWindow) {
    !e.isClosed && e.opens == Some(w.opens) && e.closes == Some(w.closes)
  }

  lemma HoursDecide(resource: Id, hours: seq<HoursRule>, weekday: int, w: DayWindow)
    requires w.resource == resource
    ensures RulesFor(hours, weekday, Some(resource)) != [] <==> HasHours(hours, weekday, Some(resource))
    ensures forall scope ::
              w in AsWindows(resource, RulesFor(hours, weekday, scope)) <==> RuleGives(hours, weekday, scope, w)
  {
    var own := RulesFor(hours, weekday, Some(resource));
    if own != [] {
      RulesForMembers(hours, weekday, Some(resource), own[0]);
      assert own[0] == HoursRule(Some(resource), weekday, own[0].opens, own[0].closes);
    }
    if opens, closes :| HoursRule(Some(resource), weekday, opens, closes) in hours {
      RulesForMembers(hours, weekday, Some(resource), HoursRule(Some(resource), weekday, opens, closes));
    }
    forall scope
      ensures w in AsWindows(resource, RulesFor(hours, weekday, scope)) <==> RuleGives(hours, weekday, scope, w)
    {
      var rules, rule := RulesFor(hours, weekday, scope), HoursRule(scope, weekday, w.opens, w.closes);
      RulesForMembers(hours, weekday, scope, rule);
      if rule in rules {
        var i :| 0 <= i < |rules| && rules[i] == rule;
        assert AsWindows(resource, rules)[i] == w;
      }
      if w in AsWindows(resource, rules) {
        var i :| 0 <= i < |rules| && AsWindows(resource, rules)[i] == w;
        RulesForMembers(hours, weekday, scope, rules[i]);
        assert rules[i] == rule;
      }
    }
  }

  /** The precedence in plain terms: an exception for the resource decides alone; failing that, an
      exception for the provider; failing that, the resource's hours; failing those, the provider's. */
  lemma FirstMatchDecides(resource: Id, hours: seq<HoursRule>, exceptions: seq<ExceptionRule>, weekday: int,
                          w: DayWindow)
    requires w.resource == resource
    ensures forall i | Decisive(exceptions, Some(resource), i) ::
              w in WindowsFor(resource, hours, exceptions, weekday) <==> ExceptionGives(exceptions[i], w)
    ensures NoneFor(exceptions, Some(resource)) ==>
              forall i | Decisive(exceptions, None, i) ::
                w in WindowsFor(resource, hours, exceptions, weekday) <==> ExceptionGives(exceptions[i], w)
    ensures NoneFor(exceptions, Some(resource)) && NoneFor(exceptions, None) ==>
              (w in WindowsFor(resource, hours, exceptions, weekday) <==>
               if HasHours(hours, weekday, Some(resource)) then RuleGives(hours, weekday, Some(resource), w)
               else RuleGives(hours, weekday, None, w))
  {
    LastExceptionMeans(exceptions, Some(resource));
    LastExceptionMeans(exceptions, None);
    HoursDecide(resource, hours, weekday, w);
  }

  ghost predicate NoneFor(exceptions: seq<ExceptionRule>, scope: Option<Id>) {
    forall i | 0 <= i < |exceptions| :: exceptions[i].resource != scope
  }

  predicate OpensAnyway(e: Option<ExceptionRule>) {
    e.Some? && !e.value.isClosed && e.value.opens.Some? && e.value.closes.Some?
  }
}
