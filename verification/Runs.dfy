/** What holds over any number of runs, however they ended. */
module Runs {
  import opened Options
  import opened Names
  import opened Desired
  import opened Plans
  import opened Convergence
  import opened Repetition
  import opened Reconciler

  /** Consecutive runs, each with its own view of the world and its own faults; nobody else touches the
      managed objects or the status in between. */
  ghost predicate History(ws: seq<World>, os: seq<Outcome>, states: seq<State>) {
    && |states| == |ws| + 1 && |os| == |ws|
    && forall k: nat :: k < |ws| ==> RunAt(ws, os, states, k)
  }

  ghost predicate RunAt(ws: seq<World>, os: seq<Outcome>, states: seq<State>, k: nat)
    requires |states| == |ws| + 1 && |os| == |ws| && k < |ws|
  {
    RunsTo(ws[k], states[k], states[k + 1], os[k])
  }

  predicate Complete(w: World, before: State, after: State) {
    w.deployment.Some? && w.bento.Some? && after.store == Run(before.store, Plan(InputOf(w)))
  }

  predicate CompleteAt(ws: seq<World>, states: seq<State>, m: nat)
    requires |states| == |ws| + 1 && m < |ws|
  {
    Complete(ws[m], states[m], states[m + 1])
  }

  lemma AvailableAfterRun(w: World, before: State, after: State, o: Outcome)
    requires RunsTo(w, before, after, o) && Is(after.status, Available, True)
    ensures Is(before.status, Available, True) || Complete(w, before, after)
    ensures o == Ok && w.deployment.Some? && w.bento.Some? ==> Complete(w, before, after)
  {
    hide Is, Run, Plan, Reported, Started;
    if w.deployment.Some? && w.bento.Some? {
      var plan := Plan(InputOf(w));
      assert plan[..|plan|] == plan;
      var done: nat :| RunsPart(plan, before, after, o, done);
      ReportedMeans(before.status, after.status, done == 0, done == |plan|, o);
      assert Is(after.status, Available, False) ==> !Is(after.status, Available, True) by { OneTruth(after.status); }
    }
  }

  /** A run that touches an object reports the Bento as found, and only a run that sees the Bento does. */
  lemma FoundAfterRun(w: World, before: State, after: State, o: Outcome)
    requires RunsTo(w, before, after, o)
    ensures after.store != before.store ==> Is(after.status, BentoFound, True)
    ensures Is(after.status, BentoFound, True) ==> Is(before.status, BentoFound, True) || SeesBento(w)
  {
    hide Is, Plan, Reported, Started;
    if SeesBento(w) {
      var plan := Plan(InputOf(w));
      var done: nat :| RunsPart(plan, before, after, o, done);
      ReportedMeans(before.status, after.status, done == 0, done == |plan|, o);
      if done == 0 { assert plan[..done] == []; }
    }
  }

  /** Names that are different are all `CreateOrUpdateOrDeleteServices` needs to tell whether it changed
      anything. */
  lemma ServicesAreDistinct(i: Input, r: Option<string>)
    requires NamesOk(i) && Known(i.b, r)
    ensures ServicesDistinct(i, r)
  {
    hide NamesOk, KeyOf;
    forall v: Variant, v': Variant | v != v' ensures KeyOf(i, Svc(r, v)) != KeyOf(i, Svc(r, v')) {
      if KeyOf(i, Svc(r, v)) == KeyOf(i, Svc(r, v')) { KeysDistinct(i, Svc(r, v), Svc(r, v')); }
    }
  }

  predicate SeesBento(w: World) { w.deployment.Some? && w.bento.Some? }

  predicate SeesBentoAt(ws: seq<World>, m: nat)
    requires m < |ws|
  {
    SeesBento(ws[m])
  }

  /** Whenever the Bento is reported as found, some run saw it, and it has been reported ever since. */
  lemma {:induction false} FoundWasSeen(ws: seq<World>, os: seq<Outcome>, states: seq<State>, n: nat)
    requires History(ws, os, states) && n <= |ws|
    requires !Is(states[0].status, BentoFound, True) && Is(states[n].status, BentoFound, True)
    ensures exists m :: 0 <= m < n && SeesBentoAt(ws, m)
              && forall l :: m < l <= n ==> Is(states[l].status, BentoFound, True)
  {
    hide RunsTo, SeesBento, Is;
    assert RunAt(ws, os, states, n - 1);
    FoundAfterRun(ws[n - 1], states[n - 1], states[n], os[n - 1]);
    if Is(states[n - 1].status, BentoFound, True) {
      FoundWasSeen(ws, os, states, n - 1);
      var m :| 0 <= m < n - 1 && SeesBentoAt(ws, m)
               && forall l :: m < l <= n - 1 ==> Is(states[l].status, BentoFound, True);
      assert forall l :: m < l <= n ==> Is(states[l].status, BentoFound, True);
    } else {
      assert SeesBentoAt(ws, n - 1);
    }
  }

  /** As long as the Bento is not reported as found, no object is touched. */
  lemma {:induction false} UntouchedUntilFound(ws: seq<World>, os: seq<Outcome>, states: seq<State>, n: nat)
    requires History(ws, os, states) && n <= |ws|
    requires forall l :: 0 < l <= n ==> !Is(states[l].status, BentoFound, True)
    ensures states[n].store == states[0].store
  {
    hide RunsTo, Is;
    if n > 0 {
      UntouchedUntilFound(ws, os, states, n - 1);
      assert RunAt(ws, os, states, n - 1);
      FoundAfterRun(ws[n - 1], states[n - 1], states[n], os[n - 1]);
    }
  }

  lemma OneTruth(status: Status)
    ensures !(Is(status, Available, True) && Is(status, Available, False))
  {}

  /** Whenever a BentoDeployment is reported available, some run applied every one of its objects, and it
      has been reported available ever since. */
  lemma {:induction false} AvailableWasEarned(ws: seq<World>, os: seq<Outcome>, states: seq<State>, n: nat)
    requires History(ws, os, states) && n <= |ws|
    requires !Is(states[0].status, Available, True) && Is(states[n].status, Available, True)
    ensures exists m :: 0 <= m < n && CompleteAt(ws, states, m)
              && forall l :: m < l <= n ==> Is(states[l].status, Available, True)
  {
    hide RunsTo, Complete, Is;
    assert RunAt(ws, os, states, n - 1);
    AvailableAfterRun(ws[n - 1], states[n - 1], states[n], os[n - 1]);
    if Is(states[n - 1].status, Available, True) {
      AvailableWasEarned(ws, os, states, n - 1);
      var m :| 0 <= m < n - 1 && CompleteAt(ws, states, m)
               && forall l :: m < l <= n - 1 ==> Is(states[l].status, Available, True);
      assert forall l :: m < l <= n ==> Is(states[l].status, Available, True);
    } else {
      assert CompleteAt(ws, states, n - 1);
    }
  }

  /** A run with the Bento there that returns no error and leaves Available=True has converged; one that
      returns no error otherwise has reported Available=False. */
  lemma NoErrorMeansConvergedOrReported(w: World, before: State, after: State)
    requires w.deployment.Some? && w.bento.Some? && NamesOk(InputOf(w)) && RunsTo(w, before, after, Ok)
    ensures Is(after.status, Available, True) || Is(after.status, Available, False)
    ensures Is(after.status, Available, True) ==>
              Is(after.status, BentoFound, True) && Converged(InputOf(w), before.store, after.store)
  {
    hide Is, Run, Plan, NamesOk, Converged, Reported, Started;
    var plan := Plan(InputOf(w));
    var done: nat :| RunsPart(plan, before, after, Ok, done);
    ReportedMeans(before.status, after.status, done == 0, done == |plan|, Ok);
    if Is(after.status, Available, True) {
      AvailableAfterRun(w, before, after, Ok);
      Converges(InputOf(w), before.store);
    }
  }

  /** After any history of aborted, failed and crashed runs, one run in which no call fails converges and
      reports the BentoDeployment available. Compared with a run from any other state and with any other
      visits and lists, only the host of the Ingress can differ, the order of the exporter's variables unless
      the options give one list only, and the service account of a component that names none and has a
      choice. */
  lemma OneGoodRunSuffices(
      ws: seq<World>, os: seq<Outcome>, states: seq<State>, w: World, after: State, o: Outcome,
      other: Store, orders: Orders)
    requires History(ws, os, states) && w.deployment.Some? && w.bento.Some? && NamesOk(InputOf(w))
    requires OrdersOk(InputOf(w)) && OrdersOk(Revisit(InputOf(w), orders))
    requires Succeeds(w, states[|ws|], after, o)
    ensures o == Ok && Is(after.status, Available, True) && Is(after.status, BentoFound, True)
    ensures Converged(InputOf(w), states[|ws|].store, after.store)
    ensures forall role :: role in Roles(InputOf(w)) ==>
              var key := KeyOf(InputOf(w), role); var ideal := Run(other, Plan(Revisit(InputOf(w), orders)));
              && (key in after.store <==> key in ideal)
              && (key in ideal ==> Alike(InputOf(w), role, after.store[key], ideal[key]))
  {
    hide Run, Plan, NamesOk, Converged, RunsTo, Roles, KeyOf, Alike, OrdersOk, Started;
    var i := InputOf(w);
    Converges(i, states[|ws|].store);
    forall role | role in Roles(i)
      ensures var key := KeyOf(i, role); var ideal := Run(other, Plan(Revisit(i, orders)));
              (key in after.store <==> key in ideal) && (key in ideal ==> Alike(i, role, after.store[key], ideal[key]))
    {
      StartDoesNotMatter(i, orders, states[|ws|].store, other, role);
    }
  }

  /** What `Quiet` says of the plan is what a run needs to make no write. */
  lemma QuietIsUndisturbed(i: Input, o: Orders, store: Store)
    ensures Quiet(i, o, store) <==> Undisturbed(Revisit(i, o), Run(store, Plan(i)), Roles(Revisit(i, o)))
  {
    hide Run, Roles, StepFor;
    var j, first := Revisit(i, o), Run(store, Plan(i));
    forall k | 0 <= k <= |Roles(j)| ensures StepsFor(j, Roles(j)[..k]) == Plan(j)[..k] {
      StepsForPrefix(j, Roles(j), k);
    }
  }

  /** Whatever the visits and lists, the next run meets the condition under which a run writes nothing, exactly
      when the options give one list only and no component is left a choice of service accounts. */
  lemma NextRunIsQuiet(i: Input, store: Store)
    requires NamesOk(i) && OrdersOk(i)
    ensures (forall o :: OrdersOk(Revisit(i, o)) ==>
        Undisturbed(Revisit(i, o), Run(store, Plan(i)), Roles(Revisit(i, o))))
            <==> Repeatable(i)
  {
    hide Run, NamesOk, Roles, OrdersOk, Repeatable, Quiet, Undisturbed, Plan;
    IdempotentExact(i, store);
    forall o ensures Quiet(i, o, store) <==> Undisturbed(Revisit(i, o), Run(store, Plan(i)), Roles(Revisit(i, o))) {
      QuietIsUndisturbed(i, o, store);
    }
  }

  /** A run of this BentoDeployment that wants its Ingress keeps the host of the one there is. */
  lemma RunKeepsHost(d: Deployment, w: World, before: State, after: State, o: Outcome)
    requires RunsTo(w, before, after, o)
    requires w.deployment.Some? ==>
               var e := w.deployment.value; e.name == d.name && e.namespace == d.namespace && e.ingressEnabled
    requires IngressKey(d) in before.store && before.store[IngressKey(d)].IngressObj?
    ensures IngressKey(d) in after.store && after.store[IngressKey(d)].IngressObj?
    ensures after.store[IngressKey(d)].host == before.store[IngressKey(d)].host
  {
    hide Is, Run, Plan, HostSafe, IngressKey, Reported;
    if w.deployment.Some? && w.bento.Some? {
      var i := InputOf(w);
      var done: nat :| RunsPart(Plan(i), before, after, o, done);
      PlanHostSafe(i, d, done);
      HostKept(before.store, Plan(i)[..done], IngressKey(d));
    }
  }

  /** Over any history in which ingress stays enabled the host never changes. */
  lemma {:induction false} HostStable(d: Deployment, ws: seq<World>, os: seq<Outcome>, states: seq<State>, n: nat)
    requires History(ws, os, states) && n <= |ws|
    requires forall k :: 0 <= k < |ws| && ws[k].deployment.Some? ==>
               var e := ws[k].deployment.value; e.name == d.name && e.namespace == d.namespace && e.ingressEnabled
    requires IngressKey(d) in states[0].store && states[0].store[IngressKey(d)].IngressObj?
    ensures IngressKey(d) in states[n].store && states[n].store[IngressKey(d)].IngressObj?
    ensures states[n].store[IngressKey(d)].host == states[0].store[IngressKey(d)].host
  {
    hide RunsTo, IngressKey;
    if n > 0 {
      HostStable(d, ws, os, states, n - 1);
      assert RunAt(ws, os, states, n - 1);
      RunKeepsHost(d, ws[n - 1], states[n - 1], states[n], os[n - 1]);
    }
  }

  /** When the Bento is gone, a run without any failure leaves Available=True standing exactly when it stood
      before and the BentoRequest does not report that there will be no Bento. It reports the Bento as missing
      and the BentoRequest as found, whether or not there is one; on a first run the rest stays unknown. */
  lemma MissingBentoStaysAvailable(w: World, before: State, after: State, o: Outcome)
    requires w.deployment.Some? && w.bento.None?
    requires RunsTo(w, before, after, o) && Succeeds(w, before, after, o)
    ensures o == Ok && after.store == before.store
    ensures Is(after.status, Available, True) <==> Is(before.status, Available, True) && !w.request.Unavailable?
    ensures w.request.Unavailable? ==> Is(after.status, Available, False)
    ensures before.status == map[] && !w.request.Unavailable? ==> Is(after.status, Available, Unknown)
    ensures Is(after.status, BentoFound, False) && Is(after.status, BentoRequestFound, True)
  {}
}
