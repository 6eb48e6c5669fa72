/** Plans, confirmations and action rows as the store changes them, row by row. */
module DeletionStore {
  import opened Options
  import opened DeletionReview

  class ReviewStore {
    var plans: map<nat, Plan>
    var items: map<nat, Item>
    var actions: seq<Action>
    var reconcile: seq<nat>
    var retired: set<Ref>

    ghost function Snapshot(): Store
      reads this
    {
      Store(plans, items, actions, reconcile, retired)
    }

    constructor ()
      ensures Snapshot() == Store(map[], map[], [], [], {})
    {
      plans, items, actions, reconcile, retired := map[], map[], [], [], {};
    }

    /** Persists a preview plan and its confirmation item. */
    method CreateDeletionPlan(plan: nat, item: nat, targets: seq<Ref>, declared: map<nat, seq<Ref>>, found: map<nat, seq<Ref>>, now: int)
      requires plan !in plans && item !in items
      modifies this
      ensures Snapshot() == Apply(old(Snapshot()), CreatePlan(plan, item, targets, declared, found, now))
      ensures actions == old(actions) && retired == old(retired)
      ensures forall r :: Listed(plans[plan], r) <==> Requested(targets, declared, found, r)
    {
      var impact := ImpactOf(targets, declared, found);
      plans := plans[plan := Plan(targets, impact, Pending, false)];
      items := items[item := Item(Some(plan), Open, 1, Some(now + CONFIRMATION_WINDOW))];
      forall r ensures Listed(plans[plan], r) <==> Requested(targets, declared, found, r) {
        ListedIsRequested(targets, declared, found, plans[plan], r);
      }
    }

    /** Inserts the action rows one by one. */
    method WriteActions(rows: seq<Action>)
      modifies this`actions
      ensures actions == old(actions) + rows
    {
      for k := 0 to |rows|
        invariant actions == old(actions) + rows[..k]
      {
        actions := actions + [rows[k]];
      }
    }

    /** Executes an approved plan. False is the refusal when the plan is missing or no longer a
        preview; the caller then rolls back. */
    method ExecutePlan(plan: nat) returns (ok: bool)
      modifies this
      ensures ok <==> plan in old(plans) && !old(plans)[plan].executed
      ensures Snapshot() == if ok then Execute(old(Snapshot()), plan) else old(Snapshot())
      ensures ok ==> exists rows :: actions == old(actions) + rows && ActsOn(plan, plans[plan].targets, plans[plan].impact, rows)
    {
      hide PlanActions, ActsOn;
      if plan !in plans || plans[plan].executed {
        return false;
      }
      var p := plans[plan];
      var rows := CollectActions(plan, p.targets, p.impact);
      WriteActions(rows);
      retired := retired + Retired(rows);
      reconcile := reconcile + [plan];
      plans := plans[plan := p.(confirmation := Confirmed, executed := true)];
      return true;
    }

    method ConfirmPlan(plan: Option<nat>, to: Confirmation)
      modifies this`plans
      ensures Snapshot() == Confirm(old(Snapshot()), plan, to)
    {
      if plan.Some? && plan.value in plans && plans[plan.value].confirmation.Pending? {
        plans := plans[plan.value := plans[plan.value].(confirmation := to)];
      }
    }

    /** Resolves one item in one transaction; a failure leaves everything as it was. */
    method ResolveReviewItem(item: nat, version: nat, decision: Decision, now: int) returns (result: Result)
      modifies this
      ensures (Snapshot(), result) == ResolveItem(old(Snapshot()), item, version, decision, now)
      ensures result.Failed? ==> Snapshot() == old(Snapshot())
    {
      if item !in items {
        return Failed("NOT_FOUND");
      }
      var row := items[item];
      if row.expires.Some? && now >= row.expires.value && row.state.Open? {
        items := items[item := row.(state := Resolved)];
        ConfirmPlan(row.plan, Expired);
        return ExpiredNow;
      }
      if !row.state.Open? {
        return Failed("ALREADY_RESOLVED");
      }
      if row.version != version {
        return Failed("VERSION_CONFLICT");
      }
      var before := items;
      items := items[item := row.(state := if decision.Approve? then ItemApproved else ItemRejected)];
      if decision.Reject? {
        ConfirmPlan(row.plan, Rejected);
      } else if row.plan.Some? {
        var ok := ExecutePlan(row.plan.value);
        if !ok {
          items := before;
          return Failed("VERSION_CONFLICT");
        }
      }
      return Completed;
    }
  }

  /** The action row of every target and of each of its dependents. */
  method CollectActions(plan: nat, targets: seq<Ref>, impact: map<nat, seq<Ref>>) returns (rows: seq<Action>)
    ensures rows == PlanActions(plan, targets, impact)
    ensures ActsOn(plan, targets, impact, rows)
    ensures forall r :: (exists a :: a in rows && a.target == r) <==> Listed(Plan(targets, impact, Pending, false), r)
  {
    hide Listed, ActsOn;
    rows := [];
    for t := 0 to |targets|
      invariant rows == PlanActions(plan, targets[..t], impact)
    {
      var target := targets[t];
      assert targets[..t + 1][..t] == targets[..t];
      var dependents := if target.id in impact then impact[target.id] else [];
      var own := [Action(plan, target, Delete)];
      for d := 0 to |dependents|
        invariant own == [Action(plan, target, Delete)] + DependentActions(plan, dependents)[..d]
      {
        var dep := dependents[d];
        ghost var all := DependentActions(plan, dependents);
        assert all[..d + 1] == all[..d] + [all[d]];
        own := own + [Action(plan, dep, if dep.kind == "evidence" then Recompute else Delete)];
      }
      assert own == TargetActions(plan, target, impact);
      rows := rows + own;
    }
    assert targets[..|targets|] == targets;
    PlanActionsAct(plan, targets, impact);
    forall r ensures (exists a :: a in rows && a.target == r) <==> Listed(Plan(targets, impact, Pending, false), r) {
      ActionsAreListed(plan, targets, impact, r);
    }
  }
}
