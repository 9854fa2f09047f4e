/** CDN claims and consent over every interleaving of configure, queue, claim, finish and plugin edits. */
module CdnRuns {
  import opened Cdn

  datatype Step =
    | Configuring(r: Request)
    | Queueing(id: string, snapshot: Plugin, now: int)
    | Claiming(limit: int, leaseId: string, now: int, chosen: set<string>)
    | Finishing(c: Claim, f: Finish)
    | Editing(id: string, plugin: Plugin)

  datatype Finished = Finished(claim: Claim, finish: Finish)

  /** The store, every claim handed out so far, and what last finished each row. */
  datatype World = World(normalize: Normalize, market: Market, claims: set<Claim>, finished: map<string, Finished>)

  ghost predicate LeaseUnused(w: World, leaseId: string) {
    leaseId != "" && forall c :: c in w.claims ==> c.row.leaseId != leaseId
  }

  /**
   * Lease identifiers are fresh, workers finish only claims they were given, and edits of a plugin
   * (new version, repository, owner, new plugins) leave an existing consent alone.
   */
  ghost predicate Allowed(w: World, step: Step) {
    match step
    case Claiming(limit, leaseId, now, chosen) => LeaseUnused(w, leaseId) && ValidChoice(w.market, limit, now, chosen)
    case Finishing(c, _) => c in w.claims
    case Editing(id, p) => id in w.market.plugins ==>
      p.cdnEnabled == w.market.plugins[id].cdnEnabled && p.generation == w.market.plugins[id].generation
    case _ => true
  }

  function Next(w: World, step: Step): World {
    var m := w.market;
    match step
    case Configuring(r) => w.(market := ConfigureSpec(w.normalize, m, r))
    case Queueing(id, snapshot, now) => w.(market := QueueSpec(m, id, snapshot, now))
    case Claiming(_, leaseId, now, chosen) =>
      var t := ClaimSpec(m, chosen, leaseId, now);
      w.(market := t, claims := w.claims + set id | id in chosen && id in t.rows :: Claim(id, t.rows[id]))
    case Finishing(c, f) =>
      if !TakesEffect(m, c) then w
      else w.(market := FinishSpec(m, c, f), finished := w.finished[c.pluginId := Finished(c, f)])
    case Editing(id, p) => w.(market := m.(plugins := m.plugins[id := p]))
  }

  function Run(w: World, steps: seq<Step>): World {
    if steps == [] then w else Next(Run(w, steps[..|steps| - 1]), steps[|steps| - 1])
  }

  ghost predicate AllowedRun(w: World, steps: seq<Step>) {
    steps == [] || var n := |steps| - 1; AllowedRun(w, steps[..n]) && Allowed(Run(w, steps[..n]), steps[n])
  }

  function Initial(normalize: Normalize, plugins: map<string, Plugin>): World {
    World(normalize, Market(plugins, map[]), {}, map[])
  }

  // ----- fencing -----

  /** The row still has what the claim copied from it. */
  predicate StillCurrent(row: Row, c: Claim) {
    row.generation == c.row.generation && row.authorization == c.row.authorization
    && row.requestedVersion == c.row.requestedVersion
  }

  predicate RowFits(m: Market, id: string)
    requires id in m.rows
  {
    && id in m.plugins && m.rows[id].generation == m.plugins[id].generation
    && (m.rows[id].state.Disabled? <==> !Enabled(m.plugins[id]))
  }

  /** Only a running row is leased, and it still has what its leaseholder was given. */
  ghost predicate HoldersAreCurrent(w: World) {
    forall c :: c in w.claims ==>
      && c.row.leaseId != ""
      && (c.pluginId in w.market.rows && w.market.rows[c.pluginId].leaseId == c.row.leaseId
          ==> w.market.rows[c.pluginId].state.Running? && StillCurrent(w.market.rows[c.pluginId], c))
  }

  ghost predicate LeasesWereIssued(w: World) {
    forall id :: id in w.market.rows && w.market.rows[id].leaseId != ""
      ==> exists c :: c in w.claims && c.row.leaseId == w.market.rows[id].leaseId
  }

  ghost predicate RowsFit(m: Market) {
    forall id :: id in m.rows ==> RowFits(m, id)
  }

  /** The artifact recorded as submitted is the one a finish brought for a claim with the row's current consent,
      authorization and version. */
  ghost predicate SubmittedIsCurrent(w: World) {
    forall id :: id in w.market.rows && w.market.rows[id].state.Submitted? ==>
      && id in w.finished && w.finished[id].claim in w.claims && w.finished[id].claim.pluginId == id
      && StillCurrent(w.market.rows[id], w.finished[id].claim)
      && FinishState(w.finished[id].finish).Submitted?
        && w.market.rows[id].artifactId == w.finished[id].finish.artifactId
  }

  ghost predicate Fenced(w: World) {
    HoldersAreCurrent(w) && LeasesWereIssued(w) && RowsFit(w.market) && SubmittedIsCurrent(w)
  }

  lemma StepKeepsHolders(w: World, step: Step)
    requires HoldersAreCurrent(w) && LeasesWereIssued(w) && Allowed(w, step)
    ensures HoldersAreCurrent(Next(w, step))
  {
  }

  lemma StepKeepsIssued(w: World, step: Step)
    requires LeasesWereIssued(w) && Allowed(w, step)
    ensures LeasesWereIssued(Next(w, step))
  {
    var v := Next(w, step);
    forall id | id in v.market.rows && v.market.rows[id].leaseId != ""
      ensures exists c :: c in v.claims && c.row.leaseId == v.market.rows[id].leaseId
    {
      if step.Claiming? && id in step.chosen {
        assert Claim(id, v.market.rows[id]) in v.claims;
      } else {
        var c :| c in w.claims && c.row.leaseId == w.market.rows[id].leaseId;
        assert c in v.claims;
      }
    }
  }

  lemma StepKeepsRowsFit(w: World, step: Step)
    requires RowsFit(w.market) && Allowed(w, step)
    ensures RowsFit(Next(w, step).market)
  {
  }

  lemma StepKeepsSubmitted(w: World, step: Step)
    requires SubmittedIsCurrent(w) && HoldersAreCurrent(w) && Allowed(w, step)
    ensures SubmittedIsCurrent(Next(w, step))
  {
  }

  lemma StepKeepsFenced(w: World, step: Step)
    requires Fenced(w) && Allowed(w, step)
    ensures Fenced(Next(w, step))
  {
    StepKeepsHolders(w, step);
    StepKeepsIssued(w, step);
    StepKeepsRowsFit(w, step);
    StepKeepsSubmitted(w, step);
  }

  /** Every interleaving leaves every row fenced. */
  lemma {:induction false} RunIsFenced(normalize: Normalize, plugins: map<string, Plugin>, steps: seq<Step>)
    requires AllowedRun(Initial(normalize, plugins), steps)
    ensures Fenced(Run(Initial(normalize, plugins), steps))
  {
    if steps != [] {
      var n := |steps| - 1;
      RunIsFenced(normalize, plugins, steps[..n]);
      StepKeepsFenced(Run(Initial(normalize, plugins), steps[..n]), steps[n]);
    }
  }

  /**
   * Whenever a finish takes effect, the row still holds the generation, authorization and version
   * the claim was given, and the plugin's consent is on with that very generation. Otherwise the
   * finish changes nothing.
   */
  lemma {:induction false} FinishIsFenced(normalize: Normalize, plugins: map<string, Plugin>, steps: seq<Step>,
    c: Claim, f: Finish)
    requires AllowedRun(Initial(normalize, plugins), steps) && c in Run(Initial(normalize, plugins), steps).claims
    ensures var m := Run(Initial(normalize, plugins), steps).market;
      if TakesEffect(m, c)
      then StillCurrent(m.rows[c.pluginId], c) && c.pluginId in m.plugins
           && Enabled(m.plugins[c.pluginId]) && m.plugins[c.pluginId].generation == c.row.generation
      else FinishSpec(m, c, f) == m
  {
    RunIsFenced(normalize, plugins, steps);
    var m := Run(Initial(normalize, plugins), steps).market;
    if TakesEffect(m, c) {
      assert RowFits(m, c.pluginId);
    }
  }

  ghost predicate Superseded(w: World, c: Claim) {
    c in w.claims && !TakesEffect(w.market, c)
  }

  lemma StepKeepsSuperseded(w: World, step: Step, c: Claim)
    requires Fenced(w) && Allowed(w, step) && Superseded(w, c)
    ensures Superseded(Next(w, step), c)
  {
  }

  /** A claim that has been finished or overtaken never takes effect again. */
  lemma {:induction false} SupersededForever(w: World, steps: seq<Step>, c: Claim)
    requires Fenced(w) && AllowedRun(w, steps) && Superseded(w, c)
    ensures Superseded(Run(w, steps), c) && Fenced(Run(w, steps))
  {
    if steps != [] {
      var n := |steps| - 1;
      SupersededForever(w, steps[..n], c);
      StepKeepsFenced(Run(w, steps[..n]), steps[n]);
      StepKeepsSuperseded(Run(w, steps[..n]), steps[n], c);
    }
  }

  /** So a claim takes effect at most once: after an effective finish, every later one is ignored. */
  lemma FinishTakesEffectOnce(w: World, c: Claim, f: Finish, steps: seq<Step>)
    requires Fenced(w) && c in w.claims && AllowedRun(Next(w, Finishing(c, f)), steps)
    ensures !TakesEffect(Run(Next(w, Finishing(c, f)), steps).market, c)
  {
    StepKeepsFenced(w, Finishing(c, f));
    SupersededForever(Next(w, Finishing(c, f)), steps, c);
  }

  // ----- the gate -----

  /** Consent to `id` differs between the two states, or it is on in both under authorizations of different scope. */
  predicate ConsentDiffers(before: Market, after: Market, id: string) {
    && id in before.plugins && id in after.plugins
    && (Enabled(before.plugins[id]) != Enabled(after.plugins[id])
        || (Enabled(before.plugins[id]) && id in before.rows && id in after.rows
            && !SameScope(after.rows[id].authorization, before.rows[id].authorization)))
  }

  function ConsentChanges(w: World, steps: seq<Step>, id: string): nat {
    if steps == [] then 0
    else
      var n := |steps| - 1;
      ConsentChanges(w, steps[..n], id)
        + if ConsentDiffers(Run(w, steps[..n]).market, Run(w, steps).market, id) then 1 else 0
  }

  /** A step raises the generation by one where it changes consent or its scope, and nowhere else. */
  lemma StepCountsChange(w: World, step: Step, id: string)
    requires Allowed(w, step) && id in w.market.plugins
    ensures id in Next(w, step).market.plugins
    ensures Next(w, step).market.plugins[id].generation ==
      w.market.plugins[id].generation + if ConsentDiffers(w.market, Next(w, step).market, id) then 1 else 0
  {
  }

  /** The generation grows by the number of steps that changed consent or its scope. */
  lemma {:induction false} GenerationCountsChanges(w: World, steps: seq<Step>, id: string)
    requires AllowedRun(w, steps) && id in w.market.plugins
    ensures id in Run(w, steps).market.plugins
    ensures Run(w, steps).market.plugins[id].generation
      == w.market.plugins[id].generation + ConsentChanges(w, steps, id)
  {
    if steps != [] {
      var n := |steps| - 1;
      GenerationCountsChanges(w, steps[..n], id);
      StepCountsChange(Run(w, steps[..n]), steps[n], id);
    }
  }

  /**
   * A payload captured now passes the gate later exactly when consent is on then and no step in
   * between flipped it or changed its scope, however often it was switched off and on again.
   */
  lemma GateIsFreeOfAba(w: World, steps: seq<Step>, id: string, payload: map<string, int>)
    requires AllowedRun(w, steps) && id in w.market.plugins && GENERATION_KEY !in payload
    ensures id in Run(w, steps).market.plugins
    ensures var later := Run(w, steps).market.plugins[id];
      GatePasses(later, ExpectedGeneration(PublicationPayload(w.market.plugins[id], payload)))
      <==> Enabled(later) && ConsentChanges(w, steps, id) == 0
  {
    GenerationCountsChanges(w, steps, id);
  }
}
