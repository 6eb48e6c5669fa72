/** Governed deletion: a preview plan with an owner confirmation, and what resolving the
    confirmation does to both. */
module DeletionReview {
  import opened Options

  datatype Ref = Ref(kind: string, id: nat)

  datatype Confirmation = Pending | Confirmed | Rejected | Expired

  /** `executed` is execution_state completed, otherwise preview. */
  datatype Plan = Plan(targets: seq<Ref>, impact: map<nat, seq<Ref>>, confirmation: Confirmation, executed: bool)

  datatype ItemState = Open | ItemApproved | ItemRejected | Resolved

  /** `plan` is set on deletion confirmations; other review items have none. */
  datatype Item = Item(plan: Option<nat>, state: ItemState, version: nat, expires: Option<int>)

  datatype Verb = Delete | Recompute

  datatype Action = Action(plan: nat, target: Ref, verb: Verb)

  datatype Store = Store(plans: map<nat, Plan>, items: map<nat, Item>, actions: seq<Action>, reconcile: seq<nat>, retired: set<Ref>)

  datatype Decision = Approve | Reject

  datatype Result = Completed | ExpiredNow | Failed(code: string)

  const CONFIRMATION_WINDOW := 900

  // ---- The plan ---------------------------------------------------------------------------------

  function Add(declared: seq<Ref>, found: seq<Ref>): (r: seq<Ref>)
    ensures forall x :: x in r <==> x in declared || x in found
    ensures declared <= r
  {
    if found == [] then declared
    else
      var front, last := found[..|found| - 1], found[|found| - 1];
      var r := Add(declared, front);
      assert found == front + [last];
      if last in r then r else r + [last]
  }

  /** What is found is added once, and not if it was declared; what was declared stays as it is. */
  lemma {:induction false} FoundIsAddedOnce(declared: seq<Ref>, found: seq<Ref>, r: Ref)
    ensures multiset(Add(declared, found))[r] == if r in declared then multiset(declared)[r] else if r in found then 1 else 0
  {
    if found != [] {
      var front, last := found[..|found| - 1], found[|found| - 1];
      FoundIsAddedOnce(declared, front, r);
      assert found == front + [last];
      assert last in Add(declared, front) <==> last in declared || last in front;
      assert multiset(Add(declared, front) + [last]) == multiset(Add(declared, front)) + multiset{last};
    }
  }

  /** The dependents of every target: those the caller declared, and for a project the facts, tasks
      and checkpoints found under it. */
  function ImpactOf(targets: seq<Ref>, declared: map<nat, seq<Ref>>, found: map<nat, seq<Ref>>): map<nat, seq<Ref>> {
    map id | id in (set i | 0 <= i < |targets| :: targets[i].id) ::
      Add(if id in declared then declared[id] else [],
          if Ref("project", id) in targets && id in found then found[id] else [])
  }

  /** The action rows of one target: the target, then its dependents; evidence is recomputed. */
  function TargetActions(plan: nat, target: Ref, impact: map<nat, seq<Ref>>): seq<Action> {
    [Action(plan, target, Delete)] + DependentActions(plan, if target.id in impact then impact[target.id] else [])
  }

  function DependentActions(plan: nat, refs: seq<Ref>): seq<Action> {
    seq(|refs|, i requires 0 <= i < |refs| => Action(plan, refs[i], if refs[i].kind == "evidence" then Recompute else Delete))
  }

  function PlanActions(plan: nat, targets: seq<Ref>, impact: map<nat, seq<Ref>>): seq<Action> {
    if targets == [] then []
    else PlanActions(plan, targets[..|targets| - 1], impact) + TargetActions(plan, targets[|targets| - 1], impact)
  }

  predicate Listed(p: Plan, r: Ref) {
    r in p.targets || exists i :: 0 <= i < |p.targets| && p.targets[i].id in p.impact && r in p.impact[p.targets[i].id]
  }

  /** What a plan is asked to delete: a target, a dependent the caller declared for a target, or a
      dependent found under a project among the targets. */
  ghost predicate Requested(targets: seq<Ref>, declared: map<nat, seq<Ref>>, found: map<nat, seq<Ref>>, r: Ref) {
    || r in targets
    || (exists t :: t in targets && t.id in declared && r in declared[t.id])
    || (exists t :: t in targets && t.kind == "project" && t.id in found && r in found[t.id])
  }

  /** A plan lists exactly what it is asked to delete. */
  lemma ListedIsRequested(targets: seq<Ref>, declared: map<nat, seq<Ref>>, found: map<nat, seq<Ref>>, p: Plan, r: Ref)
    requires p.targets == targets && p.impact == ImpactOf(targets, declared, found)
    ensures Listed(p, r) <==> Requested(targets, declared, found, r)
  {
    if i :| 0 <= i < |targets| && targets[i].id in p.impact && r in p.impact[targets[i].id] {
      assert targets[i] in targets;
      assert Ref("project", targets[i].id).kind == "project";
    }
    if t :| t in targets && ((t.id in declared && r in declared[t.id]) || (t.kind == "project" && t.id in found && r in found[t.id])) {
      var i :| 0 <= i < |targets| && targets[i] == t;
      assert t.kind == "project" ==> t == Ref("project", t.id);
      assert t.id in p.impact && r in p.impact[t.id];
    }
  }

  /** A plan's action rows name exactly its listed targets and dependents. */
  lemma {:induction false} ActionsAreListed(plan: nat, targets: seq<Ref>, impact: map<nat, seq<Ref>>, r: Ref)
    ensures (exists a :: a in PlanActions(plan, targets, impact) && a.target == r) <==> Listed(Plan(targets, impact, Pending, false), r)
    ensures forall a | a in PlanActions(plan, targets, impact) :: a.plan == plan
  {
    if targets != [] {
      var front, last := targets[..|targets| - 1], targets[|targets| - 1];
      ActionsAreListed(plan, front, impact, r);
      assert targets == front + [last];
      var p, p' := Plan(front, impact, Pending, false), Plan(targets, impact, Pending, false);
      assert Listed(p', r) <==> Listed(p, r) || r == last || (last.id in impact && r in impact[last.id]) by {
        ListedExtend(front, last, impact, r);
      }
      LastActions(plan, last, impact, r);
      var all := PlanActions(plan, targets, impact);
      assert forall a :: a in all <==> a in PlanActions(plan, front, impact) || a in TargetActions(plan, last, impact);
    }
  }

  lemma ListedExtend(front: seq<Ref>, last: Ref, impact: map<nat, seq<Ref>>, r: Ref)
    ensures Listed(Plan(front + [last], impact, Pending, false), r) <==>
            Listed(Plan(front, impact, Pending, false), r) || r == last || (last.id in impact && r in impact[last.id])
  {
    var targets := front + [last];
    if Listed(Plan(front, impact, Pending, false), r) && r !in front {
      var i :| 0 <= i < |front| && front[i].id in impact && r in impact[front[i].id];
      assert targets[i] == front[i];
    }
    if last.id in impact && r in impact[last.id] {
      assert targets[|front|] == last;
    }
  }

  lemma LastActions(plan: nat, target: Ref, impact: map<nat, seq<Ref>>, r: Ref)
    ensures (exists a :: a in TargetActions(plan, target, impact) && a.target == r) <==>
            r == target || (target.id in impact && r in impact[target.id])
  {
    var refs := if target.id in impact then impact[target.id] else [];
    var all, rest := TargetActions(plan, target, impact), DependentActions(plan, refs);
    assert all[0] == Action(plan, target, Delete);
    if i :| 0 <= i < |refs| && refs[i] == r {
      assert rest[i].target == r && all[i + 1] == rest[i];
    }
    forall a | a in all && a.target == r ensures r == target || r in refs {
      var k :| 0 <= k < |all| && all[k] == a;
      assert k > 0 ==> all[k] == rest[k - 1] && rest[k - 1].target == refs[k - 1];
    }
  }

  /** How often each record is listed as a dependent of the targets. */
  function Dependents(targets: seq<Ref>, impact: map<nat, seq<Ref>>): multiset<Ref> {
    if targets == [] then multiset{}
    else Dependents(targets[..|targets| - 1], impact) + DependentsOf(targets[|targets| - 1], impact)
  }

  function DependentsOf(target: Ref, impact: map<nat, seq<Ref>>): multiset<Ref> {
    if target.id in impact then multiset(impact[target.id]) else multiset{}
  }

  lemma {:induction false} DependentsAre(targets: seq<Ref>, impact: map<nat, seq<Ref>>, r: Ref)
    ensures r in Dependents(targets, impact) <==> exists i :: 0 <= i < |targets| && targets[i].id in impact && r in impact[targets[i].id]
  {
    if targets != [] {
      DependentsAre(targets[..|targets| - 1], impact, r);
      var last := |targets| - 1;
      assert r in DependentsOf(targets[last], impact) <==> targets[last].id in impact && r in impact[targets[last].id];
    }
  }

  /** What becomes of a dependent. */
  function VerbFor(dependent: Ref): Verb {
    if dependent.kind == "evidence" then Recompute else Delete
  }

  /** Counted: a target has one delete row for each time it is listed, and a dependent one row with its
      verb for each time it is listed. */
  lemma {:induction false} VerbsAreExact(plan: nat, targets: seq<Ref>, impact: map<nat, seq<Ref>>, r: Ref, verb: Verb)
    ensures multiset(PlanActions(plan, targets, impact))[Action(plan, r, verb)] ==
            (if verb.Delete? then multiset(targets)[r] else 0) + (if verb == VerbFor(r) then Dependents(targets, impact)[r] else 0)
  {
    hide VerbFor;
    if targets != [] {
      var front, last := targets[..|targets| - 1], targets[|targets| - 1];
      VerbsAreExact(plan, front, impact, r, verb);
      TargetVerbs(plan, last, impact, r, verb);
      LastTarget(plan, targets, impact);
      hide PlanActions, Dependents, TargetActions, DependentsOf;
    }
  }

  lemma LastTarget(plan: nat, targets: seq<Ref>, impact: map<nat, seq<Ref>>)
    requires targets != []
    ensures var front, last := targets[..|targets| - 1], targets[|targets| - 1];
            && multiset(PlanActions(plan, targets, impact)) == multiset(PlanActions(plan, front, impact)) + multiset(TargetActions(plan, last, impact))
            && Dependents(targets, impact) == Dependents(front, impact) + DependentsOf(last, impact)
            && multiset(targets) == multiset(front) + multiset{last}
  {
    hide TargetActions, DependentsOf;
    assert targets == targets[..|targets| - 1] + [targets[|targets| - 1]];
  }

  lemma TargetVerbs(plan: nat, target: Ref, impact: map<nat, seq<Ref>>, r: Ref, verb: Verb)
    ensures multiset(TargetActions(plan, target, impact))[Action(plan, r, verb)] ==
            (if verb.Delete? && r == target then 1 else 0) + (if verb == VerbFor(r) then DependentsOf(target, impact)[r] else 0)
  {
    hide VerbFor, DependentActions;
    var refs := if target.id in impact then impact[target.id] else [];
    DependentVerbs(plan, refs, r, verb);
    var rest := DependentActions(plan, refs);
    assert multiset([Action(plan, target, Delete)] + rest) == multiset{Action(plan, target, Delete)} + multiset(rest);
  }

  lemma {:induction false} DependentVerbs(plan: nat, refs: seq<Ref>, r: Ref, verb: Verb)
    ensures multiset(DependentActions(plan, refs))[Action(plan, r, verb)] == if verb == VerbFor(r) then multiset(refs)[r] else 0
  {
    if refs != [] {
      var front, last := refs[..|refs| - 1], refs[|refs| - 1];
      DependentVerbs(plan, front, r, verb);
      assert refs == front + [last];
      assert DependentActions(plan, refs) == DependentActions(plan, front) + [Action(plan, last, VerbFor(last))];
      hide VerbFor;
    }
  }

  /** The action rows of an executed plan, row by row and counted: every target is deleted, every
      dependent is recomputed if it is evidence and deleted if not, and there is no other row. */
  ghost predicate ActsOn(plan: nat, targets: seq<Ref>, impact: map<nat, seq<Ref>>, rows: seq<Action>) {
    && |rows| == |targets| + |Dependents(targets, impact)|
    && (forall r :: multiset(rows)[Action(plan, r, Delete)] == multiset(targets)[r] + if r.kind == "evidence" then 0 else Dependents(targets, impact)[r])
    && (forall r :: multiset(rows)[Action(plan, r, Recompute)] == if r.kind == "evidence" then Dependents(targets, impact)[r] else 0)
    && (forall i | 0 <= i < |rows| :: rows[i].plan == plan)
    && (forall r :: r in Dependents(targets, impact) <==> exists i :: 0 <= i < |targets| && targets[i].id in impact && r in impact[targets[i].id])
  }

  lemma {:induction false} ActionCount(plan: nat, targets: seq<Ref>, impact: map<nat, seq<Ref>>)
    ensures |PlanActions(plan, targets, impact)| == |targets| + |Dependents(targets, impact)|
  {
    if targets != [] {
      var front, last := targets[..|targets| - 1], targets[|targets| - 1];
      ActionCount(plan, front, impact);
      var refs := if last.id in impact then impact[last.id] else [];
      assert |multiset(refs)| == |refs|;
    }
  }

  lemma PlanActionsAct(plan: nat, targets: seq<Ref>, impact: map<nat, seq<Ref>>)
    ensures ActsOn(plan, targets, impact, PlanActions(plan, targets, impact))
  {
    hide PlanActions, Dependents;
    ActionCount(plan, targets, impact);
    ActionsAreListed(plan, targets, impact, Ref("", 0));
    forall r
      ensures r in Dependents(targets, impact) <==> exists i :: 0 <= i < |targets| && targets[i].id in impact && r in impact[targets[i].id]
      ensures var rows, deps := multiset(PlanActions(plan, targets, impact)), Dependents(targets, impact);
              && rows[Action(plan, r, Delete)] == multiset(targets)[r] + (if r.kind == "evidence" then 0 else deps[r])
              && rows[Action(plan, r, Recompute)] == (if r.kind == "evidence" then deps[r] else 0)
    {
      VerbsAreExact(plan, targets, impact, r, Delete);
      VerbsAreExact(plan, targets, impact, r, Recompute);
      DependentsAre(targets, impact, r);
    }
  }

  // ---- Resolving an item ------------------------------------------------------------------------------

  /** Kinds whose table has a lifecycle column to tombstone. Documents, assets, tasks and checkpoints
      have none, and evidence is recomputed. */
  const RETIRABLE := {"raw_input", "expense", "todo", "self_claim", "project", "decision", "constraint", "change_event"}

  function Retired(actions: seq<Action>): set<Ref> {
    set i | 0 <= i < |actions| && actions[i].target.kind in RETIRABLE :: actions[i].target
  }

  function Execute(s: Store, plan: nat): Store
    requires plan in s.plans
  {
    var p := s.plans[plan];
    var rows := PlanActions(plan, p.targets, p.impact);
    s.(plans := s.plans[plan := p.(confirmation := Confirmed, executed := true)],
       actions := s.actions + rows, reconcile := s.reconcile + [plan], retired := s.retired + Retired(rows))
  }

  /** The plan's confirmation moves only while it is pending. */
  function Confirm(s: Store, plan: Option<nat>, to: Confirmation): Store {
    if plan.Some? && plan.value in s.plans && s.plans[plan.value].confirmation.Pending?
    then s.(plans := s.plans[plan.value := s.plans[plan.value].(confirmation := to)]) else s
  }

  predicate Lapsed(i: Item, now: int) {
    i.expires.Some? && now >= i.expires.value && i.state.Open?
  }

  function ResolveItem(s: Store, item: nat, version: nat, decision: Decision, now: int): (Store, Result) {
    if item !in s.items then (s, Failed("NOT_FOUND"))
    else
      var i := s.items[item];
      if Lapsed(i, now) then (Confirm(s.(items := s.items[item := i.(state := Resolved)]), i.plan, Expired), ExpiredNow)
      else if !i.state.Open? then (s, Failed("ALREADY_RESOLVED"))
      else if i.version != version then (s, Failed("VERSION_CONFLICT"))
      else
        match decision
        case Approve =>
          var marked := s.(items := s.items[item := i.(state := ItemApproved)]);
          if i.plan.None? then (marked, Completed)
          else if i.plan.value !in s.plans || s.plans[i.plan.value].executed then (s, Failed("VERSION_CONFLICT"))
          else (Execute(marked, i.plan.value), Completed)
        case Reject =>
          (Confirm(s.(items := s.items[item := i.(state := ItemRejected)]), i.plan, Rejected), Completed)
  }

  // ---- Runs -------------------------------------------------------------------------------------------

  datatype Event =
    | CreatePlan(plan: nat, item: nat, targets: seq<Ref>, declared: map<nat, seq<Ref>>, found: map<nat, seq<Ref>>, now: int)
    | CreateOther(item: nat, expires: Option<int>)
    | Resolve(item: nat, version: nat, decision: Decision, now: int, aborts: bool)

  predicate Enabled(s: Store, e: Event) {
    match e
    case CreatePlan(plan, item, _, _, _, _) => plan !in s.plans && item !in s.items
    case CreateOther(item, _) => item !in s.items
    case Resolve(_, _, _, _, _) => true
  }

  function Apply(s: Store, e: Event): Store {
    match e
    case CreatePlan(plan, item, targets, declared, found, now) =>
      s.(plans := s.plans[plan := Plan(targets, ImpactOf(targets, declared, found), Pending, false)],
         items := s.items[item := Item(Some(plan), Open, 1, Some(now + CONFIRMATION_WINDOW))])
    case CreateOther(item, expires) => s.(items := s.items[item := Item(None, Open, 1, expires)])
    case Resolve(item, version, decision, now, aborts) =>
      if aborts then s else ResolveItem(s, item, version, decision, now).0
  }

  /** Item and plan are in step. */
  predicate Matches(i: Item, p: Plan) {
    match i.state
    case Open => p.confirmation.Pending? && !p.executed
    case ItemApproved => p.confirmation.Confirmed? && p.executed
    case ItemRejected => p.confirmation.Rejected? && !p.executed
    case Resolved => p.confirmation.Expired? && !p.executed
  }

  function ActionsOf(actions: seq<Action>, plan: nat): seq<Action> {
    if actions == [] then []
    else
      var last := actions[|actions| - 1];
      ActionsOf(actions[..|actions| - 1], plan) + (if last.plan == plan then [last] else [])
  }

  ghost predicate PlanInv(s: Store, plan: nat)
    requires plan in s.plans
  {
    ActionsOf(s.actions, plan) == if s.plans[plan].executed then PlanActions(plan, s.plans[plan].targets, s.plans[plan].impact) else []
  }

  ghost predicate StepInv(s: Store) {
    && (forall i | i in s.items && s.items[i].plan.Some? :: s.items[i].plan.value in s.plans && Matches(s.items[i], s.plans[s.items[i].plan.value]))
    && (forall i, j | i in s.items && j in s.items && s.items[i].plan.Some? && s.items[i].plan == s.items[j].plan :: i == j)
  }

  ghost predicate ActionInv(s: Store) {
    && (forall plan | plan in s.plans :: PlanInv(s, plan))
    && (forall k | 0 <= k < |s.actions| :: s.actions[k].plan in s.plans)
  }

  lemma {:induction false} ActionsOfConcat(a: seq<Action>, b: seq<Action>, plan: nat)
    ensures ActionsOf(a + b, plan) == ActionsOf(a, plan) + ActionsOf(b, plan)
  {
    if b == [] {
      assert a + b == a;
    } else {
      ActionsOfConcat(a, b[..|b| - 1], plan);
      assert (a + b)[..|a + b| - 1] == a + b[..|b| - 1];
    }
  }

  lemma {:induction false} ActionsOfOwn(rows: seq<Action>, own: nat, plan: nat)
    requires forall a | a in rows :: a.plan == own
    ensures ActionsOf(rows, plan) == if plan == own then rows else []
  {
    if rows != [] {
      ActionsOfOwn(rows[..|rows| - 1], own, plan);
      assert rows[|rows| - 1] in rows;
    }
  }

  lemma {:induction false} NoActions(rows: seq<Action>, plan: nat)
    requires forall k | 0 <= k < |rows| :: rows[k].plan != plan
    ensures ActionsOf(rows, plan) == []
  {
    if rows != [] {
      NoActions(rows[..|rows| - 1], plan);
    }
  }

  lemma StepKeepsStepInv(s: Store, e: Event)
    requires StepInv(s) && Enabled(s, e)
    ensures StepInv(Apply(s, e))
  {
    hide PlanActions, ImpactOf, Retired;
  }

  lemma ExecuteKeepsActions(s: Store, plan: nat)
    requires ActionInv(s) && plan in s.plans && !s.plans[plan].executed
    ensures ActionInv(Execute(s, plan))
  {
    hide Retired, PlanActions, ActionsOf;
    var p, after := s.plans[plan], Execute(s, plan);
    var rows := PlanActions(plan, p.targets, p.impact);
    ActionsAreListed(plan, p.targets, p.impact, Ref("", 0));
    forall other | other in after.plans ensures PlanInv(after, other) {
      assert PlanInv(s, other);
      ActionsOfConcat(s.actions, rows, other);
      ActionsOfOwn(rows, plan, other);
    }
    forall k | 0 <= k < |after.actions| ensures after.actions[k].plan in after.plans {
      assert k >= |s.actions| ==> after.actions[k] in rows;
    }
  }

  lemma StepKeepsActionInv(s: Store, e: Event)
    requires ActionInv(s) && Enabled(s, e)
    ensures ActionInv(Apply(s, e))
  {
    hide PlanActions, ActionsOf, ImpactOf, Retired;
    var after := Apply(s, e);
    match e
    case CreatePlan(plan, item, targets, declared, found, now) =>
      NoActions(s.actions, plan);
      forall other | other in after.plans ensures PlanInv(after, other) {
        if other != plan {
          assert PlanInv(s, other);
        }
      }
    case CreateOther(item, expires) =>
      forall other | other in after.plans ensures PlanInv(after, other) {
        assert PlanInv(s, other);
      }
    case Resolve(item, version, decision, now, aborts) =>
      if Executes(s, e) {
        var i := s.items[item];
        ExecuteKeepsActions(s.(items := s.items[item := i.(state := ItemApproved)]), i.plan.value);
      } else {
        forall other | other in after.plans ensures PlanInv(after, other) {
          assert PlanInv(s, other);
        }
      }
  }

  /** The one event that executes a plan: the approval, in time and at its version, of an open
      confirmation whose plan is still a preview. */
  predicate Executes(s: Store, e: Event) {
    && e.Resolve? && !e.aborts && e.decision.Approve? && e.item in s.items
    && var i := s.items[e.item];
    && i.state.Open? && !Lapsed(i, e.now) && i.version == e.version
    && i.plan.Some? && i.plan.value in s.plans && !s.plans[i.plan.value].executed
  }

  /** The rows that the executions of these plans write, in this order. */
  function Executions(plans: map<nat, Plan>, order: seq<nat>): seq<Action>
    requires forall i | 0 <= i < |order| :: order[i] in plans
  {
    if order == [] then []
    else
      var last := order[|order| - 1];
      Executions(plans, order[..|order| - 1]) + PlanActions(last, plans[last].targets, plans[last].impact)
  }

  /** Everything the executions did: one reconciliation per executed plan, all action rows in the same
      order, and exactly what these rows retire is retired. */
  ghost predicate HistoryInv(s: Store) {
    && (forall i | 0 <= i < |s.reconcile| :: s.reconcile[i] in s.plans)
    && (forall i, j | 0 <= i < j < |s.reconcile| :: s.reconcile[i] != s.reconcile[j])
    && (forall plan | plan in s.plans :: s.plans[plan].executed <==> plan in s.reconcile)
    && s.actions == Executions(s.plans, s.reconcile)
    && s.retired == Retired(s.actions)
  }

  lemma {:induction false} ExecutionsKept(plans: map<nat, Plan>, more: map<nat, Plan>, order: seq<nat>)
    requires forall i | 0 <= i < |order| :: order[i] in plans && order[i] in more
    requires forall i | 0 <= i < |order| :: more[order[i]].targets == plans[order[i]].targets && more[order[i]].impact == plans[order[i]].impact
    ensures Executions(more, order) == Executions(plans, order)
  {
    hide PlanActions;
    if order != [] {
      ExecutionsKept(plans, more, order[..|order| - 1]);
    }
  }

  lemma RetiredConcat(a: seq<Action>, b: seq<Action>)
    ensures Retired(a + b) == Retired(a) + Retired(b)
  {
    forall r | r in Retired(b) ensures r in Retired(a + b) {
      var i :| 0 <= i < |b| && b[i].target.kind in RETIRABLE && b[i].target == r;
      assert (a + b)[|a| + i] == b[i];
    }
    forall r | r in Retired(a) ensures r in Retired(a + b) {
      var i :| 0 <= i < |a| && a[i].target.kind in RETIRABLE && a[i].target == r;
      assert (a + b)[i] == a[i];
    }
  }

  lemma ExecuteKeepsHistory(s: Store, plan: nat)
    requires HistoryInv(s) && plan in s.plans && !s.plans[plan].executed
    ensures HistoryInv(Execute(s, plan))
  {
    hide PlanActions, Retired;
    var p, after := s.plans[plan], Execute(s, plan);
    assert after.reconcile[..|s.reconcile|] == s.reconcile;
    ExecutionsKept(s.plans, after.plans, s.reconcile);
    RetiredConcat(s.actions, PlanActions(plan, p.targets, p.impact));
  }

  /** Nothing but an execution retires anything, writes an action row or queues a reconciliation. */
  lemma StepKeepsHistory(s: Store, e: Event)
    requires HistoryInv(s) && Enabled(s, e)
    ensures HistoryInv(Apply(s, e))
  {
    hide PlanActions, Retired, ImpactOf, Executions;
    var after := Apply(s, e);
    if Executes(s, e) {
      ExecuteKeepsHistory(s.(items := s.items[e.item := s.items[e.item].(state := ItemApproved)]), s.items[e.item].plan.value);
    } else {
      assert after.reconcile == s.reconcile && after.actions == s.actions && after.retired == s.retired;
      ExecutionsKept(s.plans, after.plans, s.reconcile);
    }
  }

  ghost predicate Inv(s: Store) {
    StepInv(s) && ActionInv(s) && HistoryInv(s)
  }

  ghost predicate Run(states: seq<Store>, events: seq<Event>) {
    && |states| == |events| + 1 && states[0] == Store(map[], map[], [], [], {})
    && forall k | 0 <= k < |events| :: Enabled(states[k], events[k]) && states[k + 1] == Apply(states[k], events[k])
  }

  lemma {:induction false} RunKeepsInv(states: seq<Store>, events: seq<Event>, k: nat)
    requires Run(states, events) && k < |states|
    ensures Inv(states[k])
  {
    hide Apply, Enabled;
    if k > 0 {
      RunKeepsInv(states, events, k - 1);
      StepKeepsStepInv(states[k - 1], events[k - 1]);
      StepKeepsActionInv(states[k - 1], events[k - 1]);
      StepKeepsHistory(states[k - 1], events[k - 1]);
    }
  }

  lemma {:induction false} InActionsOf(actions: seq<Action>, a: Action, plan: nat)
    ensures a in ActionsOf(actions, plan) <==> a in actions && a.plan == plan
  {
    if actions != [] {
      InActionsOf(actions[..|actions| - 1], a, plan);
      assert actions == actions[..|actions| - 1] + [actions[|actions| - 1]];
    }
  }

  /** The plan was approved and lists the record. */
  ghost predicate RetiredBy(s: Store, plan: nat, r: Ref) {
    plan in s.plans && s.plans[plan].executed && Listed(s.plans[plan], r)
  }

  /** Exactly the listed records of executed plans are retired, where their kind can be. */
  lemma RetiredExactly(s: Store, r: Ref)
    requires ActionInv(s) && HistoryInv(s)
    ensures r in s.retired <==> r.kind in RETIRABLE && exists plan :: RetiredBy(s, plan, r)
  {
    hide Executions, PlanActions, Listed, ActionsOf;
    if r in s.retired {
      var i :| 0 <= i < |s.actions| && s.actions[i].target == r && r.kind in RETIRABLE;
      var a := s.actions[i];
      assert PlanInv(s, a.plan);
      InActionsOf(s.actions, a, a.plan);
      ListedByRows(s, a.plan, r);
      assert RetiredBy(s, a.plan, r);
    }
    if r.kind in RETIRABLE && exists plan :: RetiredBy(s, plan, r) {
      var plan :| RetiredBy(s, plan, r);
      assert PlanInv(s, plan);
      ListedByRows(s, plan, r);
      var a :| a in PlanActions(plan, s.plans[plan].targets, s.plans[plan].impact) && a.target == r;
      InActionsOf(s.actions, a, plan);
      var i :| 0 <= i < |s.actions| && s.actions[i] == a;
    }
  }

  lemma ListedByRows(s: Store, plan: nat, r: Ref)
    requires plan in s.plans
    ensures var p := s.plans[plan]; (exists a :: a in PlanActions(plan, p.targets, p.impact) && a.target == r) <==> Listed(p, r)
  {
    var p := s.plans[plan];
    ActionsAreListed(plan, p.targets, p.impact, r);
    assert Listed(p, r) == Listed(Plan(p.targets, p.impact, Pending, false), r);
  }

  /** Nothing is purged before confirmation: in every state of every run, the retired records are
      exactly the retirable ones that a plan lists whose own item the owner approved. */
  lemma NothingRetiredUnconfirmed(states: seq<Store>, events: seq<Event>, k: nat, r: Ref)
    requires Run(states, events) && k < |states|
    ensures r in states[k].retired <==>
            r.kind in {"raw_input", "expense", "todo", "self_claim", "project", "decision", "constraint", "change_event"}
            && exists i :: ApprovedFor(states[k], i, r)
    ensures HistoryInv(states[k])
  {
    hide Listed, HistoryInv, ActionInv;
    RunKeepsInv(states, events, k);
    RunKeepsPlansHaveItems(states, events, k);
    var s := states[k];
    RetiredExactly(s, r);
    if plan :| RetiredBy(s, plan, r) {
      var i :| i in s.items && s.items[i].plan == Some(plan);
      assert Matches(s.items[i], s.plans[plan]);
      assert ApprovedFor(s, i, r);
    }
    if i :| ApprovedFor(s, i, r) {
      assert Matches(s.items[i], s.plans[s.items[i].plan.value]);
      assert RetiredBy(s, s.items[i].plan.value, r);
    }
  }

  /** The item is approved and its plan lists the record. */
  ghost predicate ApprovedFor(s: Store, i: nat, r: Ref) {
    && i in s.items && s.items[i].state.ItemApproved? && s.items[i].plan.Some?
    && s.items[i].plan.value in s.plans && Listed(s.plans[s.items[i].plan.value], r)
  }

  /** Every plan has the item that was created with it. */
  ghost predicate PlansHaveItems(s: Store) {
    forall plan | plan in s.plans :: exists i :: i in s.items && s.items[i].plan == Some(plan)
  }

  lemma {:induction false} RunKeepsPlansHaveItems(states: seq<Store>, events: seq<Event>, k: nat)
    requires Run(states, events) && k < |states|
    ensures PlansHaveItems(states[k])
  {
    hide Enabled, Apply;
    if k > 0 {
      RunKeepsPlansHaveItems(states, events, k - 1);
      StepKeepsPlansHaveItems(states[k - 1], events[k - 1]);
    }
  }

  lemma StepKeepsPlansHaveItems(s: Store, e: Event)
    requires PlansHaveItems(s) && Enabled(s, e)
    ensures PlansHaveItems(Apply(s, e))
  {
    hide PlanActions, ImpactOf, Retired;
    var after := Apply(s, e);
    assert e.CreatePlan? ==> after.items[e.item].plan == Some(e.plan);
    forall plan | plan in after.plans ensures exists i :: i in after.items && after.items[i].plan == Some(plan) {
      if plan in s.plans {
        var i :| i in s.items && s.items[i].plan == Some(plan);
        assert i in after.items && after.items[i].plan == Some(plan);
      }
    }
  }

  /** In every state of every run the item of a plan and the plan are in step, and a plan's action
      rows are none before its execution and exactly those of its targets and dependents after. */
  lemma ItemsAndPlansInStep(states: seq<Store>, events: seq<Event>, k: nat, item: nat)
    requires Run(states, events) && k < |states| && item in states[k].items && states[k].items[item].plan.Some?
    ensures var s := states[k]; var i := s.items[item];
            && i.plan.value in s.plans && Matches(i, s.plans[i.plan.value])
            && var p := s.plans[i.plan.value];
            && ActionsOf(s.actions, i.plan.value) == (if i.state.ItemApproved? then PlanActions(i.plan.value, p.targets, p.impact) else [])
            && (forall r :: (exists a :: a in ActionsOf(s.actions, i.plan.value) && a.target == r) <==> i.state.ItemApproved? && Listed(p, r))
            && (i.state.ItemApproved? ==> ActsOn(i.plan.value, p.targets, p.impact, ActionsOf(s.actions, i.plan.value)))
  {
    hide ActsOn, ActionsOf, PlanActions;
    RunKeepsInv(states, events, k);
    var s := states[k];
    var i := s.items[item];
    var p := s.plans[i.plan.value];
    assert PlanInv(s, i.plan.value);
    PlanActionsAct(i.plan.value, p.targets, p.impact);
    forall r ensures (exists a :: a in ActionsOf(s.actions, i.plan.value) && a.target == r) <==> i.state.ItemApproved? && Listed(p, r) {
      ActionsAreListed(i.plan.value, p.targets, p.impact, r);
      assert Listed(p, r) == Listed(Plan(p.targets, p.impact, Pending, false), r);
    }
  }

  /** A step that adds action rows is an approval at the item's version, before its expiry, of an
      open item whose plan had not been executed; afterwards the plan never executes again. */
  lemma ExecutionIsApprovedOnce(states: seq<Store>, events: seq<Event>, k: nat, plan: nat)
    requires Run(states, events) && k < |events| && plan in states[k].plans
    requires ActionsOf(states[k + 1].actions, plan) != ActionsOf(states[k].actions, plan)
    ensures var s, e := states[k], events[k];
            && e.Resolve? && e.decision.Approve? && e.item in s.items && s.items[e.item].plan == Some(plan)
            && s.items[e.item].state.Open? && s.items[e.item].version == e.version
            && (s.items[e.item].expires.Some? ==> e.now < s.items[e.item].expires.value)
            && !s.plans[plan].executed
    ensures forall j | k < j < |states| :: plan in states[j].plans && states[j].plans[plan].executed
                                           && ActionsOf(states[j].actions, plan) == ActionsOf(states[k + 1].actions, plan)
  {
    hide PlanActions, ImpactOf, ActionsOf, Retired;
    RunKeepsInv(states, events, k);
    var s, e := states[k], events[k];
    assert states[k + 1] == Apply(s, e);
    ActionsChangeMeansExecution(s, e, plan);
    forall j | k < j < |states| ensures plan in states[j].plans && states[j].plans[plan].executed
                                        && ActionsOf(states[j].actions, plan) == ActionsOf(states[k + 1].actions, plan)
    {
      ExecutedStays(states, events, k + 1, j, plan);
    }
  }

  lemma ActionsChangeMeansExecution(s: Store, e: Event, plan: nat)
    requires Inv(s) && Enabled(s, e) && plan in s.plans && ActionsOf(Apply(s, e).actions, plan) != ActionsOf(s.actions, plan)
    ensures e.Resolve? && e.decision.Approve? && e.item in s.items && s.items[e.item].plan == Some(plan)
    ensures s.items[e.item].state.Open? && s.items[e.item].version == e.version
    ensures s.items[e.item].expires.Some? ==> e.now < s.items[e.item].expires.value
    ensures !s.plans[plan].executed && Apply(s, e).plans[plan].executed
  {
    hide Retired, ImpactOf, PlanActions, ActionsOf;
    var after := Apply(s, e);
    assert e.Resolve? && after.actions != s.actions;
    var own := s.items[e.item].plan.value;
    var p := s.plans[own];
    ActionsAreListed(own, p.targets, p.impact, Ref("", 0));
    ActionsOfConcat(s.actions, PlanActions(own, p.targets, p.impact), plan);
    ActionsOfOwn(PlanActions(own, p.targets, p.impact), own, plan);
  }

  lemma {:induction false} ExecutedStays(states: seq<Store>, events: seq<Event>, i: nat, j: nat, plan: nat)
    requires Run(states, events) && i <= j < |states| && plan in states[i].plans && states[i].plans[plan].executed
    ensures plan in states[j].plans && states[j].plans[plan].executed
    ensures ActionsOf(states[j].actions, plan) == ActionsOf(states[i].actions, plan)
  {
    hide Apply, Enabled, ActionsOf, Inv;
    if i < j {
      ExecutedStays(states, events, i, j - 1, plan);
      RunKeepsInv(states, events, j - 1);
      ExecutedStep(states[j - 1], events[j - 1], plan);
    }
  }

  lemma ExecutedStep(s: Store, e: Event, plan: nat)
    requires Inv(s) && Enabled(s, e) && plan in s.plans && s.plans[plan].executed
    ensures plan in Apply(s, e).plans && Apply(s, e).plans[plan].executed
    ensures ActionsOf(Apply(s, e).actions, plan) == ActionsOf(s.actions, plan)
  {
    hide Retired, ImpactOf, PlanActions, ActionsOf, StepInv, ActionInv;
    if ActionsOf(Apply(s, e).actions, plan) != ActionsOf(s.actions, plan) {
      ActionsChangeMeansExecution(s, e, plan);
    }
  }

  // ---- What becomes of a plan ---------------------------------------------------------------------

  /** No resolution of the item between two steps had an effect. */
  ghost predicate Unresolved(states: seq<Store>, events: seq<Event>, i: nat, j: nat, item: nat)
    requires j <= |events| < |states|
  {
    forall k | i < k < j && events[k].Resolve? && events[k].item == item :: states[k + 1] == states[k]
  }

  /** The item and the plan are as they were created. */
  ghost predicate StillPreview(s: Store, plan: nat, item: nat, targets: seq<Ref>, impact: map<nat, seq<Ref>>, t: int) {
    && item in s.items && s.items[item] == Item(Some(plan), Open, 1, Some(t + 900))
    && plan in s.plans && s.plans[plan] == Plan(targets, impact, Pending, false)
  }

  lemma PreviewStep(s: Store, e: Event, plan: nat, item: nat, targets: seq<Ref>, impact: map<nat, seq<Ref>>, t: int)
    requires StepInv(s) && Enabled(s, e) && StillPreview(s, plan, item, targets, impact, t)
    requires e.Resolve? && e.item == item ==> Apply(s, e) == s
    ensures StillPreview(Apply(s, e), plan, item, targets, impact, t)
  {
    hide PlanActions, ImpactOf, Retired;
  }

  lemma {:induction false} PreviewStays(states: seq<Store>, events: seq<Event>, i: nat, j: nat)
    requires Run(states, events) && i < j < |states| && events[i].CreatePlan? && Unresolved(states, events, i, j, events[i].item)
    ensures var e := events[i]; StillPreview(states[j], e.plan, e.item, e.targets, ImpactOf(e.targets, e.declared, e.found), e.now)
  {
    hide ImpactOf, StillPreview, ActionInv, HistoryInv;
    var e := events[i];
    var impact := ImpactOf(e.targets, e.declared, e.found);
    if j == i + 1 {
      assert states[j] == Apply(states[i], e);
      CreatedIsPreview(states[i], e);
    } else {
      PreviewStays(states, events, i, j - 1);
      RunKeepsInv(states, events, j - 1);
      assert states[j - 1 + 1] == Apply(states[j - 1], events[j - 1]);
      PreviewStep(states[j - 1], events[j - 1], e.plan, e.item, e.targets, impact, e.now);
    }
  }

  lemma CreatedIsPreview(s: Store, e: Event)
    requires e.CreatePlan? && Enabled(s, e)
    ensures StillPreview(Apply(s, e), e.plan, e.item, e.targets, ImpactOf(e.targets, e.declared, e.found), e.now)
  {
    hide ImpactOf;
  }

  /** What the first resolution of a plan's item does, in any run: fifteen minutes after the plan was
      made it only expires; before that a wrong version changes nothing, an approval executes the plan
      exactly on what was requested, and a rejection closes it. */
  lemma FirstResolutionDecides(states: seq<Store>, events: seq<Event>, i: nat, j: nat)
    requires Run(states, events) && i < j < |events| && events[i].CreatePlan? && Unresolved(states, events, i, j, events[i].item)
    requires events[j].Resolve? && events[j].item == events[i].item && !events[j].aborts
    ensures var made, e, s, after := events[i], events[j], states[j], states[j + 1];
            && made.item in after.items && made.plan in after.plans
            && var item, plan := after.items[made.item], after.plans[made.plan];
            if e.now >= made.now + 900 then
              item.state == Resolved && plan.confirmation == Expired && !plan.executed && after.actions == s.actions && after.retired == s.retired
            else if e.version != 1 then after == s
            else if e.decision == Reject then
              item.state == ItemRejected && plan.confirmation == Rejected && !plan.executed && after.actions == s.actions && after.retired == s.retired
            else
              && item.state == ItemApproved && plan.confirmation == Confirmed && plan.executed && after.reconcile == s.reconcile + [made.plan]
              && (exists rows :: after.actions == s.actions + rows && ActsOn(made.plan, plan.targets, plan.impact, rows))
              && forall r :: Listed(plan, r) <==> Requested(made.targets, made.declared, made.found, r)
  {
    hide ImpactOf, PlanActions, ActsOn, Listed, Requested, Retired;
    var made := events[i];
    var impact := ImpactOf(made.targets, made.declared, made.found);
    PreviewStays(states, events, i, j);
    assert states[j + 1] == Apply(states[j], events[j]);
    PlanActionsAct(made.plan, made.targets, impact);
    forall r ensures var plan := states[j + 1].plans[made.plan]; Listed(plan, r) <==> Requested(made.targets, made.declared, made.found, r) {
      ListedIsRequested(made.targets, made.declared, made.found, states[j + 1].plans[made.plan], r);
    }
  }
}
