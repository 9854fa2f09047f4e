/** apps/api/app/cdn.py: per-plugin CDN consent, automatic review claims and the publication gate. */
module Cdn {
  import opened Wrappers

  /** What the store holds of a plugin; `target` is its current version, already normalised. */
  datatype Plugin = Plugin(cdnEnabled: Option<bool>, generation: int, repo: string, owner: string, target: string)

  type Proof = map<string, string>

  datatype RowState = Queued | Running | Submitted | Idle | Disabled | Blocked | Failed

  datatype Row = Row(
    authorization: Proof, generation: int, requestedVersion: string, state: RowState,
    artifactId: Option<string>, availableAt: int, leaseId: string, leaseUntil: Option<int>, lastError: string)

  datatype Market = Market(plugins: map<string, Plugin>, rows: map<string, Row>)

  datatype Actor = Actor(id: string, coreAdmin: bool, muted: bool)

  datatype Request = Request(
    pluginId: string, enabled: bool, actor: Actor, authorization: Option<Proof>, queueReview: bool, now: int)

  /** A claim is a copy of the row at the time it was handed out. */
  datatype Claim = Claim(pluginId: string, row: Row)

  datatype Finish = Finish(artifactId: Option<string>, errorCode: string, blocked: bool, now: int)

  datatype Error = UserMuted | PluginNotFound | PluginOwnerChanged | AuthorizationRequired | RepoInvalid

  /** normalize_github_repo; None stands for the error it raises. */
  type Normalize = string -> Option<string>

  const LEASE_SECONDS := 300

  // ----- consent -----

  function Enabled(p: Plugin): bool {
    p.cdnEnabled.None? || p.cdnEnabled.value
  }

  const SCOPE := ["repo", "id", "owner_id", "user_id", "plugin_owner_user_id"]

  function Get(proof: Proof, key: string): string {
    if key in proof then proof[key] else "None"
  }

  predicate SameScope(a: Proof, b: Proof) {
    forall i :: 0 <= i < |SCOPE| ==> Get(a, SCOPE[i]) == Get(b, SCOPE[i])
  }

  /** The proof a request goes by: its own, else the one on file. */
  function ProofFor(r: Request, p: Plugin, old_: Option<Row>): Proof {
    var base := if r.authorization.Some? && r.authorization.value != map[] then r.authorization.value
                else if old_.Some? then old_.value.authorization else map[];
    var proof := base - {"auth_reference"};
    if r.enabled then proof["plugin_owner_user_id" := p.owner] else proof
  }

  /** Switching on needs a proof for the plugin's repository, compared in normal form. */
  function ProofError(normalize: Normalize, r: Request, p: Plugin, old_: Option<Row>): Option<Error> {
    var base := if r.authorization.Some? && r.authorization.value != map[] then r.authorization.value
                else if old_.Some? then old_.value.authorization else map[];
    var proof := base - {"auth_reference"};
    if proof == map[] then Some(AuthorizationRequired)
    else
      var proven := normalize(if "repo" in proof then proof["repo"] else "");
      if proven.None? || normalize(p.repo).None? then Some(RepoInvalid)
      else if proven != normalize(p.repo) then Some(AuthorizationRequired)
      else None
  }

  function ConfigureError(normalize: Normalize, s: Market, r: Request): Option<Error> {
    if r.enabled && r.actor.muted then Some(UserMuted)
    else if r.pluginId !in s.plugins then Some(PluginNotFound)
    else
      var p := s.plugins[r.pluginId];
      if r.actor.id == "" || (!r.actor.coreAdmin && p.owner != r.actor.id) then Some(PluginOwnerChanged)
      else if r.enabled then ProofError(normalize, r, p, OldRow(s, r.pluginId))
      else None
  }

  function OldRow(s: Market, id: string): Option<Row> {
    if id in s.rows then Some(s.rows[id]) else None
  }

  /** Renewing a consent that is already on file and under way changes nothing. */
  predicate Unchanged(r: Request, p: Plugin, old_: Option<Row>) {
    && old_.Some? && r.enabled && Enabled(p) && SameScope(ProofFor(r, p, old_), old_.value.authorization)
    && old_.value.requestedVersion == p.target
    && (old_.value.state.Queued? || old_.value.state.Running? || old_.value.state.Submitted?)
  }

  /** Consent flips, or the authorization changes scope while consent stays on. */
  predicate Bumps(r: Request, p: Plugin, old_: Option<Row>) {
    || r.enabled != Enabled(p)
    || (old_.Some? && r.enabled && Enabled(p) && !SameScope(ProofFor(r, p, old_), old_.value.authorization))
  }

  function Configured(r: Request, p: Plugin, old_: Option<Row>): Row {
    Row(ProofFor(r, p, old_), p.generation + (if Bumps(r, p, old_) then 1 else 0), p.target,
        if !r.enabled then Disabled else if r.queueReview then Queued else Idle,
        if old_.Some? then old_.value.artifactId else None, r.now, "", None, "")
  }

  function ConfigureSpec(normalize: Normalize, s: Market, r: Request): Market {
    if ConfigureError(normalize, s, r).Some? then s
    else
      var p, old_ := s.plugins[r.pluginId], OldRow(s, r.pluginId);
      if Unchanged(r, p, old_) then s
      else
        var row := Configured(r, p, old_);
        Market(s.plugins[r.pluginId := p.(cdnEnabled := Some(r.enabled), generation := row.generation)],
               s.rows[r.pluginId := row])
  }

  // ----- queueing, claiming, finishing -----

  predicate Requeues(s: Market, id: string, snapshot: Plugin) {
    && Enabled(snapshot) && id in s.plugins && s.plugins[id].target == snapshot.target
    && id in s.rows && Enabled(s.plugins[id]) && s.rows[id].generation == s.plugins[id].generation
    && (s.rows[id].requestedVersion != snapshot.target || s.rows[id].state.Idle?)
  }

  function QueueSpec(s: Market, id: string, snapshot: Plugin, now: int): Market {
    if !Requeues(s, id, snapshot) then s
    else s.(rows := s.rows[id := s.rows[id].(
      requestedVersion := snapshot.target, state := Queued, artifactId := None, leaseId := "",
      leaseUntil := None, availableAt := now, lastError := "")])
  }

  predicate Claimable(s: Market, id: string, now: int) {
    && id in s.rows && id in s.plugins
    && var row := s.rows[id];
    && (row.state.Queued? || row.state.Failed? || row.state.Running?) && row.availableAt <= now
    && (row.leaseUntil.None? || row.leaseUntil.value < now)
    && Enabled(s.plugins[id]) && s.plugins[id].generation == row.generation
  }

  /** Which rows one call may claim: claimable ones, and fewer than `limit` only if there are no more. */
  ghost predicate ValidChoice(s: Market, limit: int, now: int, chosen: set<string>) {
    && (forall id :: id in chosen ==> Claimable(s, id, now))
    && (|chosen| == 0 || |chosen| <= limit)
    && (|chosen| < limit ==> forall id :: Claimable(s, id, now) ==> id in chosen)
  }

  function Leased(row: Row, leaseId: string, now: int): Row {
    row.(state := Running, leaseId := leaseId, leaseUntil := Some(now + LEASE_SECONDS))
  }

  function ClaimSpec(s: Market, chosen: set<string>, leaseId: string, now: int): Market {
    s.(rows := map id | id in s.rows :: if id in chosen then Leased(s.rows[id], leaseId, now) else s.rows[id])
  }

  lemma ClaimableByRow(s: Market, t: Market, now: int)
    ensures forall id :: Claimable(s, id, now) ==> id in s.rows
    ensures t.plugins == s.plugins ==>
      forall id :: id in s.rows && id in t.rows && s.rows[id] == t.rows[id] ==>
        (Claimable(s, id, now) <==> Claimable(t, id, now))
  {
  }

  /** One claim for each chosen row, carrying the row as it is. */
  ghost predicate CopyRows(claims: seq<Claim>, chosen: set<string>, rows: map<string, Row>)
    requires chosen <= rows.Keys
  {
    && |claims| == |chosen|
    && (forall id :: id in chosen ==> Claim(id, rows[id]) in claims)
    && (forall c :: c in claims ==> c.pluginId in chosen && c.row == rows[c.pluginId])
  }

  lemma CopyNone(rows: map<string, Row>)
    ensures CopyRows([], {}, rows)
  {
  }

  lemma CopyOneMore(claims: seq<Claim>, chosen: set<string>, rows: map<string, Row>, id: string, row: Row)
    requires chosen <= rows.Keys && CopyRows(claims, chosen, rows) && id !in chosen
    ensures CopyRows(claims + [Claim(id, row)], chosen + {id}, rows[id := row])
  {
  }

  lemma ClaimNone(s: Market, leaseId: string, now: int)
    ensures ClaimSpec(s, {}, leaseId, now) == s
  {
  }

  lemma ClaimOneMore(s: Market, chosen: set<string>, id: string, leaseId: string, now: int)
    requires id in s.rows && id !in chosen
    ensures ClaimSpec(s, chosen, leaseId, now).rows[id] == s.rows[id]
    ensures ClaimSpec(s, chosen + {id}, leaseId, now)
      == s.(rows := ClaimSpec(s, chosen, leaseId, now).rows[id := Leased(s.rows[id], leaseId, now)])
  {
  }

  /** The lease the claim holds is still the row's. */
  predicate TakesEffect(s: Market, c: Claim) {
    c.pluginId in s.rows && s.rows[c.pluginId].leaseId == c.row.leaseId && s.rows[c.pluginId].state.Running?
  }

  function FinishState(f: Finish): RowState {
    if f.blocked then Blocked else if f.errorCode != "" then Failed else Submitted
  }

  function FinishSpec(s: Market, c: Claim, f: Finish): Market {
    if !TakesEffect(s, c) then s
    else s.(rows := s.rows[c.pluginId := s.rows[c.pluginId].(
      state := FinishState(f), artifactId := f.artifactId, lastError := f.errorCode, leaseId := "",
      leaseUntil := None, availableAt := f.now + LEASE_SECONDS)])
  }

  // ----- the publication gate -----

  const GENERATION_KEY := "cdn_generation"

  function PublicationPayload(p: Plugin, payload: map<string, int>): map<string, int> {
    if p.generation != 0 then payload[GENERATION_KEY := p.generation] else payload
  }

  function ExpectedGeneration(payload: map<string, int>): int {
    if GENERATION_KEY in payload then payload[GENERATION_KEY] else 0
  }

  predicate GatePasses(p: Plugin, expectedGeneration: int) {
    Enabled(p) && p.generation == expectedGeneration
  }

  class CdnSubscriptions {
    const normalize: Normalize
    var plugins: map<string, Plugin>
    var rows: map<string, Row>

    ghost function Contents(): Market
      reads this
    {
      Market(plugins, rows)
    }

    constructor (normalize: Normalize, plugins: map<string, Plugin>)
      ensures this.normalize == normalize && Contents() == Market(plugins, map[])
    {
      this.normalize := normalize;
      this.plugins, rows := plugins, map[];
    }

    method Configure(r: Request) returns (result: Result<Plugin, Error>)
      modifies this
      ensures Contents() == ConfigureSpec(normalize, old(Contents()), r)
      ensures match ConfigureError(normalize, old(Contents()), r)
        case Some(e) => result == Err(e)
        case None => r.pluginId in plugins && result == Ok(plugins[r.pluginId])
    {
      if r.enabled && r.actor.muted {
        return Err(UserMuted);
      }
      if r.pluginId !in plugins {
        return Err(PluginNotFound);
      }
      var plugin := plugins[r.pluginId];
      if r.actor.id == "" || !(r.actor.coreAdmin || plugin.owner == r.actor.id) {
        return Err(PluginOwnerChanged);
      }
      var old_ := if r.pluginId in rows then Some(rows[r.pluginId]) else None;
      if r.enabled {
        var error := ProofError(normalize, r, plugin, old_);
        if error.Some? {
          return Err(error.value);
        }
      }
      if Unchanged(r, plugin, old_) {
        return Ok(plugin);
      }
      var row := Configured(r, plugin, old_);
      rows := rows[r.pluginId := row];
      plugins := plugins[r.pluginId := plugin.(cdnEnabled := Some(r.enabled), generation := row.generation)];
      result := Ok(plugins[r.pluginId]);
    }

    method QueueVersion(id: string, snapshot: Plugin, now: int)
      modifies this
      ensures Contents() == QueueSpec(old(Contents()), id, snapshot, now)
    {
      if !Enabled(snapshot) {
        return;
      }
      if id !in plugins || plugins[id].target != snapshot.target {
        return;
      }
      if id in rows && Enabled(plugins[id]) && rows[id].generation == plugins[id].generation {
        if rows[id].requestedVersion != snapshot.target || rows[id].state.Idle? {
          rows := rows[id := rows[id].(
            requestedVersion := snapshot.target, state := Queued, artifactId := None, leaseId := "",
            leaseUntil := None, availableAt := now, lastError := "")];
        }
      }
    }

    method ClaimRows(limit: int, leaseId: string, now: int) returns (claims: seq<Claim>, ghost chosen: set<string>)
      modifies this`rows
      ensures ValidChoice(old(Contents()), limit, now, chosen)
      ensures Contents() == ClaimSpec(old(Contents()), chosen, leaseId, now)
      ensures chosen <= rows.Keys && CopyRows(claims, chosen, rows)
    {
      hide Claimable, Leased, ClaimSpec, CopyRows;
      claims, chosen := [], {};
      ghost var before := Contents();
      ClaimableByRow(before, before, now);
      ClaimNone(before, leaseId, now);
      CopyNone(rows);
      var rest := rows.Keys;
      while rest != {}
        invariant rest <= rows.Keys && chosen <= before.rows.Keys - rest
        invariant |chosen| == |claims| && (|chosen| == 0 || |chosen| <= limit)
        invariant forall id :: id in chosen ==> Claimable(before, id, now)
        invariant forall id :: Claimable(before, id, now) ==> id in rest || id in chosen
        invariant Contents() == ClaimSpec(before, chosen, leaseId, now) && plugins == before.plugins
          && rows.Keys == before.rows.Keys
        invariant chosen <= rows.Keys && CopyRows(claims, chosen, rows)
        decreases rest
      {
        if |claims| >= limit {
          break;
        }
        var id :| id in rest;
        rest := rest - {id};
        ClaimOneMore(before, chosen, id, leaseId, now);
        ClaimableByRow(before, Contents(), now);
        if !Claimable(Market(plugins, rows), id, now) {
          continue;
        }
        CopyOneMore(claims, chosen, rows, id, Leased(rows[id], leaseId, now));
        rows := rows[id := Leased(rows[id], leaseId, now)];
        claims := claims + [Claim(id, rows[id])];
        chosen := chosen + {id};
      }
    }

    method FinishClaim(c: Claim, f: Finish)
      modifies this
      ensures Contents() == FinishSpec(old(Contents()), c, f)
    {
      var state := if f.blocked then Blocked else if f.errorCode != "" then Failed else Submitted;
      if c.pluginId in rows && rows[c.pluginId].leaseId == c.row.leaseId && rows[c.pluginId].state.Running? {
        rows := rows[c.pluginId := rows[c.pluginId].(
          state := state, artifactId := f.artifactId, lastError := f.errorCode, leaseId := "",
          leaseUntil := None, availableAt := f.now + LEASE_SECONDS)];
      }
    }
  }
}
