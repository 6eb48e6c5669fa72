/** Deletion confirmations made by hand: which of them leave the plans and their own items in step. */
module DeletionStrays {
  import opened Options
  import opened DeletionReview

  /** A hand-made confirmation, open at version 1, that names a plan or none that can be read. */
  function WithStray(s: Store, stray: nat, named: Option<nat>, expires: Option<int>): Store {
    s.(items := s.items[stray := Item(named, Open, 1, expires)])
  }

  /** All items but the stray are in step with their plans. */
  ghost predicate InStepBut(s: Store, stray: nat) {
    forall i | i in s.items && i != stray && s.items[i].plan.Some? ::
      s.items[i].plan.value in s.plans && Matches(s.items[i], s.plans[s.items[i].plan.value])
  }

  /** Later events; the ids of new plans are fresh, so that the stray cannot name them. */
  ghost predicate LaterRun(states: seq<Store>, events: seq<Event>, named: Option<nat>) {
    && |states| == |events| + 1
    && forall k | 0 <= k < |events| ::
         && Enabled(states[k], events[k]) && states[k + 1] == Apply(states[k], events[k])
         && (events[k].CreatePlan? ==> Some(events[k].plan) != named)
  }

  /** The stray names no stored plan, or one that has been executed. */
  predicate Harmless(s: Store, named: Option<nat>) {
    named.None? || named.value !in s.plans || s.plans[named.value].executed
  }

  // ---- Harmless strays stay harmless ----------------------------------------------------------------

  ghost predicate OneItemPerPlan(s: Store, stray: nat) {
    forall i, j | i in s.items && j in s.items && i != stray && j != stray && s.items[i].plan.Some? && s.items[i].plan == s.items[j].plan :: i == j
  }

  predicate NamedIsDone(s: Store, named: Option<nat>) {
    named.Some? && named.value in s.plans ==> s.plans[named.value].executed && s.plans[named.value].confirmation.Confirmed?
  }

  ghost predicate StrayInv(s: Store, stray: nat, named: Option<nat>) {
    && stray in s.items && s.items[stray].plan == named && InStepBut(s, stray)
    && OneItemPerPlan(s, stray) && NamedIsDone(s, named)
  }

  lemma StrayInvStarts(s: Store, stray: nat, named: Option<nat>, expires: Option<int>)
    requires Inv(s) && PlansHaveItems(s) && stray !in s.items && Harmless(s, named)
    ensures StrayInv(WithStray(s, stray, named, expires), stray, named)
  {
    hide ActionInv, HistoryInv;
    if named.Some? && named.value in s.plans {
      var i :| i in s.items && s.items[i].plan == named;
      assert Matches(s.items[i], s.plans[named.value]);
    }
  }

  lemma StepKeepsStrayInv(s: Store, e: Event, stray: nat, named: Option<nat>)
    requires StrayInv(s, stray, named) && Enabled(s, e) && (e.CreatePlan? ==> Some(e.plan) != named)
    ensures StrayInv(Apply(s, e), stray, named)
  {
    hide InStepBut, OneItemPerPlan, Execute, ImpactOf;
    StepKeepsNamed(s, e, stray, named);
    if e.Resolve? && e.item == stray {
      StrayResolved(s, e, stray, named);
    } else {
      OthersInStep(s, e, stray, named);
    }
    StepKeepsOneItem(s, e, stray);
  }

  lemma StepKeepsNamed(s: Store, e: Event, stray: nat, named: Option<nat>)
    requires stray in s.items && s.items[stray].plan == named && NamedIsDone(s, named)
    requires Enabled(s, e) && (e.CreatePlan? ==> Some(e.plan) != named)
    ensures var after := Apply(s, e); stray in after.items && after.items[stray].plan == named && NamedIsDone(after, named)
  {
    hide PlanActions, ImpactOf, Retired;
  }

  lemma StepKeepsOneItem(s: Store, e: Event, stray: nat)
    requires OneItemPerPlan(s, stray) && InStepBut(s, stray) && Enabled(s, e)
    ensures OneItemPerPlan(Apply(s, e), stray)
  {
    hide PlanActions, ImpactOf, Retired, Matches;
  }

  /** Resolving a harmless stray changes no plan. */
  lemma StrayResolved(s: Store, e: Event, stray: nat, named: Option<nat>)
    requires StrayInv(s, stray, named) && e.Resolve? && e.item == stray
    ensures InStepBut(Apply(s, e), stray)
  {
    hide PlanActions, Retired, Matches, OneItemPerPlan;
    assert Apply(s, e).plans == s.plans;
  }

  lemma OthersInStep(s: Store, e: Event, stray: nat, named: Option<nat>)
    requires StrayInv(s, stray, named) && Enabled(s, e) && !(e.Resolve? && e.item == stray)
    ensures InStepBut(Apply(s, e), stray)
  {
    hide PlanActions, ImpactOf, Retired;
  }

  lemma {:induction false} LaterRunKeepsStep(states: seq<Store>, events: seq<Event>, stray: nat, named: Option<nat>, k: nat)
    requires LaterRun(states, events, named) && StrayInv(states[0], stray, named) && k < |states|
    ensures StrayInv(states[k], stray, named)
  {
    hide Enabled, Apply, StrayInv;
    if k > 0 {
      LaterRunKeepsStep(states, events, stray, named, k - 1);
      StepKeepsStrayInv(states[k - 1], events[k - 1], stray, named);
    }
  }

  // ---- The others do harm ---------------------------------------------------------------------------

  /** Approving a stray that names a plan not yet executed executes it, whatever became of the plan's
      own item: open, rejected or expired, it stays as it was, beside an executed plan. */
  lemma StrayExecutesAnyPreview(s: Store, first: nat, stray: nat, expires: Option<int>, now: int)
    requires Inv(s) && first in s.items && stray !in s.items && s.items[first].plan.Some?
    requires !s.plans[s.items[first].plan.value].executed && (expires.Some? ==> now < expires.value)
    ensures var plan := s.items[first].plan.value;
            var after := Apply(WithStray(s, stray, Some(plan), expires), Resolve(stray, 1, Approve, now, false));
            && after.items[first] == s.items[first] && !s.items[first].state.ItemApproved?
            && plan in after.plans && after.plans[plan].executed && !InStepBut(after, stray)
            && after.actions == s.actions + PlanActions(plan, s.plans[plan].targets, s.plans[plan].impact)
  {
    hide PlanActions, Retired, ActionInv, HistoryInv;
    var plan := s.items[first].plan.value;
    var after := Apply(WithStray(s, stray, Some(plan), expires), Resolve(stray, 1, Approve, now, false));
    assert !Matches(after.items[first], after.plans[plan]);
  }

  datatype Fate = LeftOpen | WasRejected | WasExpired

  /** One plan for one note, and what became of its confirmation. */
  function Prepared(fate: Fate): Store {
    var s := Apply(Store(map[], map[], [], [], {}), CreatePlan(0, 0, [Ref("raw_input", 7)], map[], map[], 0));
    match fate
    case LeftOpen => s
    case WasRejected => Apply(s, Resolve(0, 1, Reject, 1, false))
    case WasExpired => Apply(s, Resolve(0, 1, Approve, CONFIRMATION_WINDOW, false))
  }

  /** The three inputs: a confirmation made at time 2000 and approved within its window deletes the
      note although its plan is unanswered, was rejected, or had expired. */
  lemma StrayInputs(fate: Fate)
    ensures var s := Prepared(fate);
            var after := Apply(WithStray(s, 1, Some(0), Some(2000 + CONFIRMATION_WINDOW)), Resolve(1, 1, Approve, 2001, false));
            && 0 in s.items && s.items[0].state == (match fate case LeftOpen => Open case WasRejected => ItemRejected case WasExpired => Resolved)
            && 0 in after.items && after.items[0] == s.items[0] && 0 in after.plans && after.plans[0].executed
            && after.actions == s.actions + PlanActions(0, [Ref("raw_input", 7)], s.plans[0].impact) && Ref("raw_input", 7) in after.retired
  {
    hide ImpactOf;
    var s := Prepared(fate);
    var rows := PlanActions(0, [Ref("raw_input", 7)], s.plans[0].impact);
    ActionsAreListed(0, [Ref("raw_input", 7)], s.plans[0].impact, Ref("raw_input", 7));
    assert [Ref("raw_input", 7)][0] == Ref("raw_input", 7);
    assert Listed(Plan([Ref("raw_input", 7)], s.plans[0].impact, Pending, false), Ref("raw_input", 7));
    assert exists a :: a in rows && a.target == Ref("raw_input", 7);
  }

  /** In a reachable state a hand-made confirmation leaves all plans and their own items in step, in
      every later run, exactly when it names no stored plan or one that has been executed. */
  lemma StrayKeepsStepIff(s: Store, stray: nat, named: Option<nat>, expires: Option<int>)
    requires Inv(s) && PlansHaveItems(s) && stray !in s.items
    ensures Harmless(s, named) <==>
            forall states, events | LaterRun(states, events, named) && states[0] == WithStray(s, stray, named, expires) ::
              InStepBut(states[|events|], stray)
  {
    hide Inv, Enabled, Apply, PlansHaveItems;
    var start := WithStray(s, stray, named, expires);
    if Harmless(s, named) {
      StrayInvStarts(s, stray, named, expires);
      forall states, events | LaterRun(states, events, named) && states[0] == start ensures InStepBut(states[|events|], stray) {
        LaterRunKeepsStep(states, events, stray, named, |events|);
      }
    } else {
      HarmfulRun(s, stray, named, expires);
    }
  }

  lemma HarmfulRun(s: Store, stray: nat, named: Option<nat>, expires: Option<int>)
    requires Inv(s) && PlansHaveItems(s) && stray !in s.items && !Harmless(s, named)
    ensures exists states, events :: LaterRun(states, events, named) && states[0] == WithStray(s, stray, named, expires)
                                     && !InStepBut(states[|events|], stray)
  {
    hide Apply, PlanActions, Inv;
    var first :| first in s.items && s.items[first].plan == named;
    var now := if expires.Some? then expires.value - 1 else 0;
    StrayExecutesAnyPreview(s, first, stray, expires, now);
    var start := WithStray(s, stray, named, expires);
    var e := Resolve(stray, 1, Approve, now, false);
    var states, events := [start, Apply(start, e)], [e];
    assert LaterRun(states, events, named);
    assert states[|events|] == Apply(start, e);
  }
}
