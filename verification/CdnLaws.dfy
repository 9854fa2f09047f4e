/** Who may change CDN consent, and what each operation does, said on the fields of plugins and rows. */
module CdnLaws {
  import opened Wrappers
  import opened Cdn
  import opened CdnRuns

  // ----- consent -----

  /** Consent is on unless it was explicitly switched off. */
  lemma EnabledExactly(p: Plugin)
    ensures Enabled(p) <==> p.cdnEnabled != Some(false)
  {
  }

  /** An actor with an identifier who owns the plugin or is a core admin. */
  predicate Entitled(s: Market, r: Request) {
    && r.pluginId in s.plugins && r.actor.id != ""
    && (r.actor.coreAdmin || s.plugins[r.pluginId].owner == r.actor.id)
  }

  /** The proof a request goes by: the one it brings, or if that is empty the one on file. */
  function ProofUsed(s: Market, r: Request): Proof {
    (if r.authorization.Some? && |r.authorization.value| > 0 then r.authorization.value
     else if r.pluginId in s.rows then s.rows[r.pluginId].authorization else map[]) - {"auth_reference"}
  }

  function Value(proof: Proof, key: string, absent: string): string {
    if key in proof then proof[key] else absent
  }

  /** The proof is not empty and names a repository whose normal form is that of the plugin's. */
  predicate Proven(normalize: Normalize, s: Market, r: Request) {
    && r.pluginId in s.plugins && ProofUsed(s, r) != map[]
    && normalize(Value(ProofUsed(s, r), "repo", "")).Some?
    && normalize(Value(ProofUsed(s, r), "repo", "")) == normalize(s.plugins[r.pluginId].repo)
  }

  predicate Acceptable(normalize: Normalize, s: Market, r: Request) {
    Entitled(s, r) && (r.enabled ==> !r.actor.muted && Proven(normalize, s, r))
  }

  predicate NonEmpty(proof: Proof) {
    |proof| > 0
  }

  lemma EmptyProof(proof: Proof)
    ensures proof != map[] <==> NonEmpty(proof)
  {
    if proof != map[] {
      assert exists k :: k in proof;
    }
  }

  /** A request is refused exactly if it is not acceptable, and the error says why. */
  lemma {:induction false} RefusedExactly(normalize: Normalize, s: Market, r: Request)
    ensures ConfigureError(normalize, s, r).None? <==> Acceptable(normalize, s, r)
    ensures
      match ConfigureError(normalize, s, r)
      case None => true
      case Some(UserMuted) => r.enabled && r.actor.muted
      case Some(PluginNotFound) => r.pluginId !in s.plugins
      case Some(PluginOwnerChanged) => r.pluginId in s.plugins && !Entitled(s, r)
      case Some(_) => r.enabled && Entitled(s, r) && !Proven(normalize, s, r)
    ensures ConfigureError(normalize, s, r) == Some(RepoInvalid) ==>
      && r.pluginId in s.plugins && ProofUsed(s, r) != map[]
      && (normalize(Value(ProofUsed(s, r), "repo", "")).None? || normalize(s.plugins[r.pluginId].repo).None?)
    ensures ConfigureError(normalize, s, r) == Some(AuthorizationRequired) ==>
      r.pluginId in s.plugins && (ProofUsed(s, r) == map[] ||
        (normalize(Value(ProofUsed(s, r), "repo", "")).Some? && normalize(s.plugins[r.pluginId].repo).Some?))
  {
    if r.authorization.Some? {
      EmptyProof(r.authorization.value);
    }
  }

  /** The two proofs agree on repository, repository and owner ids, user and plugin owner. */
  predicate SameFive(a: Proof, b: Proof) {
    && Value(a, "repo", "None") == Value(b, "repo", "None") && Value(a, "id", "None") == Value(b, "id", "None")
    && Value(a, "owner_id", "None") == Value(b, "owner_id", "None")
    && Value(a, "user_id", "None") == Value(b, "user_id", "None")
    && Value(a, "plugin_owner_user_id", "None") == Value(b, "plugin_owner_user_id", "None")
  }

  lemma SameScopeExactly(a: Proof, b: Proof)
    ensures SameScope(a, b) <==> SameFive(a, b)
  {
    assert SCOPE[0] == "repo" && SCOPE[1] == "id" && SCOPE[2] == "owner_id" && SCOPE[3] == "user_id"
      && SCOPE[4] == "plugin_owner_user_id";
  }

  /** The proof that is put on file. */
  function ProofFiled(s: Market, r: Request): Proof
    requires r.pluginId in s.plugins
  {
    if r.enabled then ProofUsed(s, r)["plugin_owner_user_id" := s.plugins[r.pluginId].owner] else ProofUsed(s, r)
  }

  /** Nothing to do: consent is on, scope and version are those on file, and the review is under way or done. */
  predicate Standing(s: Market, r: Request)
    requires r.pluginId in s.plugins
  {
    && r.pluginId in s.rows && r.enabled && s.plugins[r.pluginId].cdnEnabled != Some(false)
    && SameFive(ProofFiled(s, r), s.rows[r.pluginId].authorization)
    && s.rows[r.pluginId].requestedVersion == s.plugins[r.pluginId].target
    && s.rows[r.pluginId].state in {Queued, Running, Submitted}
  }

  lemma ProofFiledExactly(s: Market, r: Request)
    requires r.pluginId in s.plugins
    ensures ProofFor(r, s.plugins[r.pluginId], OldRow(s, r.pluginId)) == ProofFiled(s, r)
  {
    if r.authorization.Some? {
      EmptyProof(r.authorization.value);
    }
  }

  /** What an accepted request does to the plugin and its row, and that it does nothing else. */
  lemma {:induction false} ConfigureExactly(normalize: Normalize, s: Market, r: Request)
    ensures !Acceptable(normalize, s, r) || Standing(s, r) ==> ConfigureSpec(normalize, s, r) == s
    ensures Acceptable(normalize, s, r) && !Standing(s, r) ==>
      var t, id := ConfigureSpec(normalize, s, r), r.pluginId;
      var p := s.plugins[id];
      var bump := (p.cdnEnabled != Some(false)) != r.enabled
        || (id in s.rows && r.enabled && !SameFive(ProofFiled(s, r), s.rows[id].authorization));
      && t.plugins == s.plugins[id := p.(cdnEnabled := Some(r.enabled), generation := t.plugins[id].generation)]
      && t.plugins[id].generation == p.generation + (if bump then 1 else 0)
      && t.rows == s.rows[id := Row(
        ProofFiled(s, r), t.plugins[id].generation, p.target,
        if !r.enabled then Disabled else if r.queueReview then Queued else Idle,
        if id in s.rows then s.rows[id].artifactId else None, r.now, "", None, "")]
  {
    hide ProofFor, ProofFiled, SameScope, SameFive, ConfigureError, Acceptable;
    RefusedExactly(normalize, s, r);
    if Acceptable(normalize, s, r) {
      AcceptableIsKnown(normalize, s, r);
      ProofFiledExactly(s, r);
      if r.pluginId in s.rows {
        SameScopeExactly(ProofFiled(s, r), s.rows[r.pluginId].authorization);
      }
    }
  }

  lemma AcceptableIsKnown(normalize: Normalize, s: Market, r: Request)
    requires Acceptable(normalize, s, r)
    ensures r.pluginId in s.plugins
  {
  }

  /** Only an acceptable request for that plugin, and no queueing, claiming or finishing, changes its consent or its
      generation. */
  lemma {:induction false} OnlyTheEntitledChangeConsent(w: World, step: Step, id: string)
    requires !step.Editing? && id in w.market.plugins
    ensures
      var before, after := w.market, Next(w, step).market;
      && id in after.plugins
      && (after.plugins[id].cdnEnabled != before.plugins[id].cdnEnabled
          || after.plugins[id].generation != before.plugins[id].generation ==>
        && step.Configuring? && step.r.pluginId == id && after.plugins[id].cdnEnabled == Some(step.r.enabled)
        && step.r.actor.id != "" && (step.r.actor.coreAdmin || before.plugins[id].owner == step.r.actor.id)
        && (step.r.enabled ==> !step.r.actor.muted && Proven(w.normalize, before, step.r)))
  {
    hide Proven, Standing;
    if step.Configuring? {
      ConfigureExactly(w.normalize, w.market, step.r);
    }
  }

  // ----- queueing, claiming, finishing -----

  /** A version is queued exactly for a plugin whose consent and version are as in the snapshot and on file, if the
      row is idle or asks for another version. Then the row asks for it anew, without artifact or lease. */
  lemma {:induction false} QueueExactly(s: Market, id: string, snapshot: Plugin, now: int)
    ensures
      var t := QueueSpec(s, id, snapshot, now);
      if id in s.plugins && id in s.rows
        && snapshot.cdnEnabled != Some(false) && s.plugins[id].cdnEnabled != Some(false)
        && s.plugins[id].target == snapshot.target && s.rows[id].generation == s.plugins[id].generation
        && (s.rows[id].requestedVersion != snapshot.target || s.rows[id].state == Idle)
      then
        var row := s.rows[id];
        t.plugins == s.plugins && t.rows == s.rows[id := Row(
          row.authorization, row.generation, snapshot.target, Queued, None, now, "", None, "")]
      else t == s
  {
  }

  /** A row that may be leased: waiting, due, under no live lease, and for the plugin's current consent. */
  predicate MayLease(s: Market, id: string, now: int) {
    && id in s.rows && id in s.plugins && s.rows[id].state in {Queued, Running, Failed}
    && s.rows[id].availableAt <= now && (s.rows[id].leaseUntil == None || s.rows[id].leaseUntil.value < now)
    && s.plugins[id].cdnEnabled != Some(false) && s.plugins[id].generation == s.rows[id].generation
  }

  /** A claim leases such rows only, at most the limit, and all of them if there are fewer. */
  lemma {:induction false} ChoiceExactly(s: Market, limit: int, now: int, chosen: set<string>)
    ensures ValidChoice(s, limit, now, chosen) <==>
      && (forall id :: id in chosen ==> MayLease(s, id, now))
      && |chosen| <= (if limit > 0 then limit else 0)
      && (|chosen| < limit ==> forall id :: MayLease(s, id, now) ==> id in chosen)
  {
    forall id ensures Claimable(s, id, now) <==> MayLease(s, id, now) {
    }
  }

  /** A leased row is running under the claim's lease for five minutes; nothing else about it, and no other row,
      changes. */
  lemma LeaseExactly(s: Market, chosen: set<string>, leaseId: string, now: int, id: string)
    requires id in s.rows
    ensures
      var t := ClaimSpec(s, chosen, leaseId, now);
      && t.plugins == s.plugins && t.rows.Keys == s.rows.Keys
      && t.rows[id] == if id in chosen then
          s.rows[id].(state := Running, leaseId := leaseId, leaseUntil := Some(now + 300)) else s.rows[id]
  {
  }

  /** What a claim hands out is what its runner then holds: one copy of each leased row, as it is leased. */
  lemma HandedOutExactly(claims: seq<Claim>, chosen: set<string>, rows: map<string, Row>)
    requires chosen <= rows.Keys
    ensures CopyRows(claims, chosen, rows) <==>
      |claims| == |chosen| && (set c | c in claims) == set id | id in chosen :: Claim(id, rows[id])
  {
    var given, held := set c | c in claims, set id | id in chosen :: Claim(id, rows[id]);
    if given == held {
      forall id | id in chosen ensures Claim(id, rows[id]) in claims {
        assert Claim(id, rows[id]) in held;
      }
      forall c | c in claims ensures c.pluginId in chosen && c.row == rows[c.pluginId] {
        assert c in given;
      }
    }
  }

  /** Finishing takes effect exactly while the row runs under the claim's lease. Then the row holds the outcome and
      is due again after five minutes. */
  lemma {:induction false} FinishExactly(s: Market, c: Claim, f: Finish)
    ensures TakesEffect(s, c) <==>
      c.pluginId in s.rows && s.rows[c.pluginId].state == Running && s.rows[c.pluginId].leaseId == c.row.leaseId
    ensures
      var t := FinishSpec(s, c, f);
      if c.pluginId in s.rows && s.rows[c.pluginId].state == Running && s.rows[c.pluginId].leaseId == c.row.leaseId then
        var row := s.rows[c.pluginId];
        t.plugins == s.plugins && t.rows == s.rows[c.pluginId := Row(
          row.authorization, row.generation, row.requestedVersion,
          if f.blocked then Blocked else if |f.errorCode| > 0 then Failed else Submitted,
          f.artifactId, f.now + 300, "", None, f.errorCode)]
      else t == s
  {
  }

  // ----- the gate -----

  /** A captured payload is the payload with the plugin's generation, and the gate compares just that. */
  lemma {:induction false} GateExactly(p: Plugin, later: Plugin, payload: map<string, int>)
    requires "cdn_generation" !in payload
    ensures PublicationPayload(p, payload) - {"cdn_generation"} == payload
    ensures "cdn_generation" in PublicationPayload(p, payload) <==> p.generation != 0
    ensures GatePasses(later, ExpectedGeneration(PublicationPayload(p, payload))) <==>
      later.cdnEnabled != Some(false) && later.generation == p.generation
  {
  }
}
