/** Who controls the bridge, over whole runs: the two-step admin transfer and the pause. */
module ControlHistory {
  import opened Primitives
  import opened Accounts
  import opened Bridge
  import opened Invariants
  import StoreConfig

  // ---- How one step can change the admin, the nominee and the pause ------------------------------------------------

  /** A successful nomination of `who`. */
  predicate Nominates(action: Action, o: Outcome, who: Pubkey) {
    o.Configured? && action.ConfigureStore? && action.storeChange == StoreConfig.Admin(who)
  }

  predicate Accepts(action: Action, o: Outcome) {
    o.Configured? && action.AcceptAdmin?
  }

  /** Nominations are signed by the admin and replace the nominee; acceptances are signed by the nominee, who
      becomes admin; no other step touches either. */
  lemma StepControl(env: Env, s: Chain, step: Step)
    ensures var t := Next(env, s, step);
            if Accepts(step.action, t.outcome) then
              && s.store.pendingAdmin == Some(step.action.nominee)
              && t.after.store.admin == step.action.nominee && t.after.store.pendingAdmin == None
            else if t.outcome.Configured? && step.action.ConfigureStore? && step.action.storeChange.Admin? then
              && step.action.configSigner == s.store.admin
              && t.after.store.admin == s.store.admin
              && t.after.store.pendingAdmin == Some(step.action.storeChange.nominee)
            else
              t.after.store.admin == s.store.admin && t.after.store.pendingAdmin == s.store.pendingAdmin
  {
  }

  ghost predicate NominatesAt(run: Run, k: nat, who: Pubkey) {
    k < |run.steps| && Nominates(run.steps[k].action, run.outcomes[k], who)
  }

  /** Nobody is nominated by steps i .. j-1. */
  ghost predicate NoNomination(run: Run, i: nat, j: nat) {
    forall k: nat, who | i <= k < j :: !NominatesAt(run, k, who)
  }

  ghost predicate SameAdmin(run: Run, i: nat, j: nat) {
    forall k: nat | i <= k <= j && k < |run.states| :: run.states[k].store.admin == run.states[i].store.admin
  }

  lemma RunStepControl(run: Run, k: nat)
    requires k < |run.steps|
    ensures var s, t, action, o := run.states[k].store, run.states[k + 1].store, run.steps[k].action, run.outcomes[k];
            if Accepts(action, o) then
              s.pendingAdmin == Some(action.nominee) && t.admin == action.nominee && t.pendingAdmin == None
            else if o.Configured? && action.ConfigureStore? && action.storeChange.Admin? then
              action.configSigner == s.admin && t.admin == s.admin && t.pendingAdmin == Some(action.storeChange.nominee)
            else
              t.admin == s.admin && t.pendingAdmin == s.pendingAdmin
  {
    StepControl(run.env, run.states[k], StepAt(run, k));
  }

  /** Whoever is pending was nominated by the present admin, who has been admin ever since, and nobody has been
      nominated after. */
  lemma {:induction false} PendingWasNominated(run: History, i: nat) returns (j: nat)
    requires i <= |run.steps| && run.states[i].store.pendingAdmin.Some?
    ensures j < i && NominatesAt(run, j, run.states[i].store.pendingAdmin.value)
    ensures run.steps[j].action.configSigner == run.states[i].store.admin
    ensures SameAdmin(run, j, i) && NoNomination(run, j + 1, i)
    decreases i
  {
    j := 0;
    if i == 0 {
      assert false;
    } else {
      RunStepControl(run, i - 1);
      var action, o := run.steps[i - 1].action, run.outcomes[i - 1];
      if o.Configured? && action.ConfigureStore? && action.storeChange.Admin? {
        j := i - 1;
      } else {
        j := PendingWasNominated(run, i - 1);
        TermExtends(run, j, i - 1);
      }
    }
  }

  lemma TermExtends(run: Run, j: nat, i: nat)
    requires j <= i < |run.steps| && SameAdmin(run, j, i) && NoNomination(run, j + 1, i)
    requires run.states[i + 1].store.admin == run.states[i].store.admin
    requires forall who :: !NominatesAt(run, i, who)
    ensures SameAdmin(run, j, i + 1) && NoNomination(run, j + 1, i + 1)
  {
  }

  /** Every change of admin is the acceptance, signed by the new admin, of the latest nomination that the
      predecessor signed during its own term. */
  lemma AdminSuccession(run: History, i: nat) returns (j: nat)
    requires i < |run.steps| && run.states[i + 1].store.admin != run.states[i].store.admin
    ensures var successor := run.states[i + 1].store.admin;
            && run.steps[i].action == AcceptAdmin(successor) && run.outcomes[i].Configured?
            && j < i && NominatesAt(run, j, successor)
            && run.steps[j].action.configSigner == run.states[i].store.admin
            && SameAdmin(run, j, i) && NoNomination(run, j + 1, i)
  {
    RunStepControl(run, i);
    j := PendingWasNominated(run, i);
  }

  // ---- The pause ----------------------------------------------------------------------------------------------------

  /** A successful unpause: through `set_pause` by the unpauser in force (the admin while there is none), or
      through `set_oft_config` by the admin. */
  predicate Unpauses(s: Store, action: Action, o: Outcome) {
    o.Configured? &&
    match action
    case Pause(signer, paused) => !paused && signer == s.unpauser.GetOr(s.admin)
    case ConfigureStore(signer, change) => change == StoreConfig.Paused(false) && signer == s.admin
    case _ => false
  }

  /** While paused nothing is sent or received, the supply changes only by holders burning their own tokens,
      and limiters change only by configuration; only an unpause ends the pause. */
  lemma PausedStep(env: Env, s: Chain, step: Step)
    requires s.store.paused
    ensures var t := Next(env, s, step);
            && !t.outcome.Sent? && !t.outcome.Received?
            && t.after.ledger.supply == s.ledger.supply - (if t.outcome.Burned? then t.outcome.amount else 0)
            && (t.after.peers != s.peers ==> step.action.ConfigurePeer?)
            && (!t.after.store.paused ==> Unpauses(s.store, step.action, t.outcome))
  {
  }

  lemma RunPausedStep(run: Run, k: nat)
    requires k < |run.steps| && run.states[k].store.paused
    ensures !run.outcomes[k].Sent? && !run.outcomes[k].Received?
    ensures run.states[k + 1].store.paused || Unpauses(run.states[k].store, run.steps[k].action, run.outcomes[k])
  {
    PausedStep(run.env, run.states[k], StepAt(run, k));
  }

  /** After a pause nothing passes the bridge until somebody entitled to has unpaused it. */
  lemma {:induction false} TrafficNeedsUnpause(run: Run, i: nat, k: nat) returns (u: nat)
    requires i <= k < |run.steps| && run.states[i].store.paused
    requires run.outcomes[k].Sent? || run.outcomes[k].Received?
    ensures i <= u < k && Unpauses(run.states[u].store, run.steps[u].action, run.outcomes[u])
    decreases k - i
  {
    RunPausedStep(run, i);
    if Unpauses(run.states[i].store, run.steps[i].action, run.outcomes[i]) {
      u := i;
    } else {
      u := TrafficNeedsUnpause(run, i + 1, k);
    }
  }

  // ---- The developer role --------------------------------------------------------------------------------------------

  /** Outside traffic, peers are configured only by the admin or by the developer while the role is enabled. */
  lemma PeersConfiguredBy(env: Env, s: Chain, step: Step)
    requires Next(env, s, step).after.peers != s.peers
    requires !Next(env, s, step).outcome.Sent? && !Next(env, s, step).outcome.Received?
    ensures step.action.ConfigurePeer?
    ensures step.action.authority == s.store.admin || (s.store.developerEnabled && step.action.authority == s.store.developer)
  {
  }

  /** Clearing the developer disables the role, but the role can be enabled again with no developer set: a change
      leaves that inconsistency behind exactly when it is that one. */
  lemma ZeroDeveloperEnabledWhen(store: Store, signer: Pubkey, change: StoreConfig.StoreChange)
    requires store.developer == ZERO32 ==> !store.developerEnabled
    requires StoreConfig.SetConfig(store, signer, change).Ok?
    ensures var after := StoreConfig.SetConfig(store, signer, change).value;
            after.developer == ZERO32 && after.developerEnabled
            <==> change == StoreConfig.DeveloperEnabled(true) && store.developer == ZERO32
  {
  }
}
