/**
  How nodes agree on one cluster and claim distinct host ids: a create-only object
  store, nodes that may crash at any point, responses that may be lost, and writes
  that may land long after their sender is gone.
 */
module HostClaim {
  import opened Prelude

  const MAX_PROBES: nat := 4096

  type NodeId = nat
  type Token = nat

  datatype Claim = Claim(cluster: nat, host: nat, token: Token)

  /** The local identity file. It is written durably before any probing. */
  datatype Identity = Identity(cluster: nat, token: Token, host: Option<nat>)

  /** Where a node's bootstrap stands between two store operations. */
  datatype Stage =
    | Down
    | ReadMetadata
    | AwaitMetadata(proposed: nat)
    | ReadWinner
    | CheckCluster
    | Probe(offset: nat)
    | AwaitClaim(offset: nat)
    | ReadClaim(offset: nat)
    | Verify(host: nat)
    | Ready(host: nat)

  datatype Node = Node(file: Option<Identity>, stage: Stage)

  datatype World = World(
    metadata: Option<nat>,
    claims: map<nat, Claim>,
    nodes: map<NodeId, Node>,
    sentMetadata: set<nat>,
    sentClaims: set<Claim>,
    tokens: set<Token>)

  /** The host id a token probes at an offset: its first four bytes, wrapping. */
  function HostAt(token: Token, offset: nat): nat {
    (token % U32_LIMIT + offset) % U32_LIMIT
  }

  predicate Mine(c: Claim, id: Identity, host: nat) {
    c.cluster == id.cluster && c.host == host && c.token == id.token
  }

  function Start(nodes: set<NodeId>): World {
    World(None, map[], map n | n in nodes :: Node(None, Down), {}, {}, {})
  }

  datatype Step =
    | Boot(node: NodeId)
    | Crash(node: NodeId)
    | GetMetadata(node: NodeId, proposal: nat, token: Token)
    | MetadataWon(node: NodeId, token: Token)
    | MetadataConflict(node: NodeId)
    | GetWinner(node: NodeId, token: Token)
    | GetCluster(node: NodeId)
    | GetClaim(node: NodeId)
    | ClaimWon(node: NodeId)
    | ClaimConflict(node: NodeId)
    | GetRival(node: NodeId)
    | CheckClaim(node: NodeId)
    | MetadataLands(cluster: nat)
    | ClaimLands(claim: Claim)

  /** Adopt a cluster: a fresh token goes into the identity file, then probing starts. */
  function Adopt(w: World, node: NodeId, cluster: nat, token: Token): World {
    w.(tokens := w.tokens + {token},
       nodes := w.nodes[node := Node(Some(Identity(cluster, token, None)), Probe(0))])
  }

  /** Record the claimed host id in the identity file and start serving. */
  function Own(w: World, node: NodeId, id: Identity, host: nat): World {
    w.(nodes := w.nodes[node := Node(Some(id.(host := Some(host))), Ready(host))])
  }

  function To(w: World, node: NodeId, stage: Stage): World
    requires node in w.nodes
  {
    w.(nodes := w.nodes[node := w.nodes[node].(stage := stage)])
  }

  predicate Enabled(w: World, step: Step) {
    match step
    case MetadataLands(cluster) => cluster in w.sentMetadata
    case ClaimLands(claim) => claim in w.sentClaims
    case Boot(node) => node in w.nodes && w.nodes[node].stage.Down?
    case Crash(node) => node in w.nodes
    case GetMetadata(node, proposal, token) =>
      node in w.nodes && w.nodes[node].stage.ReadMetadata? && proposal != 0 && token !in w.tokens
    case MetadataWon(node, token) =>
      && node in w.nodes && w.nodes[node].stage.AwaitMetadata? && token !in w.tokens
      && (w.metadata.None? || w.metadata.value == w.nodes[node].stage.proposed)
    case MetadataConflict(node) => node in w.nodes && w.nodes[node].stage.AwaitMetadata? && w.metadata.Some?
    case GetWinner(node, token) => node in w.nodes && w.nodes[node].stage.ReadWinner? && token !in w.tokens
    case GetCluster(node) => node in w.nodes && w.nodes[node].stage.CheckCluster? && w.nodes[node].file.Some?
    case GetClaim(node) => node in w.nodes && w.nodes[node].stage.Probe? && w.nodes[node].file.Some?
    case ClaimWon(node) =>
      && node in w.nodes && w.nodes[node].stage.AwaitClaim? && w.nodes[node].file.Some?
      && var id, host := w.nodes[node].file.value, HostAt(w.nodes[node].file.value.token, w.nodes[node].stage.offset);
         host !in w.claims || Mine(w.claims[host], id, host)
    case ClaimConflict(node) =>
      && node in w.nodes && w.nodes[node].stage.AwaitClaim? && w.nodes[node].file.Some?
      && HostAt(w.nodes[node].file.value.token, w.nodes[node].stage.offset) in w.claims
    case GetRival(node) => node in w.nodes && w.nodes[node].stage.ReadClaim? && w.nodes[node].file.Some?
    case CheckClaim(node) => node in w.nodes && w.nodes[node].stage.Verify? && w.nodes[node].file.Some?
  }

  /** One store operation of the probing loop at `offset`, after its GET answered. */
  function AfterGet(w: World, node: NodeId, id: Identity, offset: nat): World
    requires node in w.nodes
  {
    var host := HostAt(id.token, offset);
    if offset >= MAX_PROBES then To(w, node, Down)
    else if host in w.claims then
      if Mine(w.claims[host], id, host) then Own(w, node, id, host) else To(w, node, Probe(offset + 1))
    else To(w.(sentClaims := w.sentClaims + {Claim(id.cluster, host, id.token)}), node, AwaitClaim(offset))
  }

  function Apply(w: World, step: Step): World
    requires Enabled(w, step)
  {
    match step
    case MetadataLands(cluster) => if w.metadata.None? then w.(metadata := Some(cluster)) else w
    case ClaimLands(claim) => if claim.host in w.claims then w else w.(claims := w.claims[claim.host := claim])
    case Boot(node) => To(w, node, if w.nodes[node].file.None? then ReadMetadata else CheckCluster)
    case Crash(node) => To(w, node, Down)
    case GetMetadata(node, proposal, token) =>
      if w.metadata.Some? then Adopt(w, node, w.metadata.value, token)
      else To(w.(sentMetadata := w.sentMetadata + {proposal}), node, AwaitMetadata(proposal))
    case MetadataWon(node, token) =>
      Adopt(w.(metadata := Some(w.nodes[node].stage.proposed)), node, w.nodes[node].stage.proposed, token)
    case MetadataConflict(node) => To(w, node, ReadWinner)
    case GetWinner(node, token) =>
      if w.metadata.Some? then Adopt(w, node, w.metadata.value, token) else To(w, node, Down)
    case GetCluster(node) =>
      var id := w.nodes[node].file.value;
      if w.metadata != Some(id.cluster) then To(w, node, Down)
      else To(w, node, if id.host.Some? then Verify(id.host.value) else Probe(0))
    case GetClaim(node) => AfterGet(w, node, w.nodes[node].file.value, w.nodes[node].stage.offset)
    case ClaimWon(node) =>
      var id := w.nodes[node].file.value;
      var host := HostAt(id.token, w.nodes[node].stage.offset);
      Own(w.(claims := w.claims[host := Claim(id.cluster, host, id.token)]), node, id, host)
    case ClaimConflict(node) => To(w, node, ReadClaim(w.nodes[node].stage.offset))
    case GetRival(node) =>
      var id := w.nodes[node].file.value;
      var host := HostAt(id.token, w.nodes[node].stage.offset);
      if host in w.claims && Mine(w.claims[host], id, host) then Own(w, node, id, host)
      else To(w, node, Probe(w.nodes[node].stage.offset + 1))
    case CheckClaim(node) =>
      var id, host := w.nodes[node].file.value, w.nodes[node].stage.host;
      if host in w.claims && Mine(w.claims[host], id, host) then To(w, node, Ready(host)) else To(w, node, Down)
  }

  predicate Legal(w: World, steps: seq<Step>)
    decreases |steps|
  {
    steps == [] || (Enabled(w, steps[0]) && Legal(Apply(w, steps[0]), steps[1..]))
  }

  function Run(w: World, steps: seq<Step>): World
    requires Legal(w, steps)
    decreases |steps|
  {
    if steps == [] then w else Run(Apply(w, steps[0]), steps[1..])
  }

  // ---- What every step keeps ----------------------------------------------------

  /** Every id a token would have tried before `offset` belongs to another token. */
  ghost predicate Passed(claims: map<nat, Claim>, token: Token, offset: nat) {
    forall k: nat :: k < offset ==> HostAt(token, k) in claims && claims[HostAt(token, k)].token != token
  }

  /** A claim names the one cluster and an id its token reached by passing all earlier ones. */
  ghost predicate Reached(claims: map<nat, Claim>, metadata: Option<nat>, c: Claim) {
    && metadata == Some(c.cluster)
    && exists offset: nat :: offset < MAX_PROBES && c.host == HostAt(c.token, offset) && Passed(claims, c.token, offset)
  }

  ghost predicate StoreInv(claims: map<nat, Claim>, metadata: Option<nat>, sent: set<Claim>) {
    && (forall h :: h in claims ==> claims[h].host == h && Reached(claims, metadata, claims[h]))
    && (forall c :: c in sent ==> Reached(claims, metadata, c))
  }

  ghost predicate NodeInv(claims: map<nat, Claim>, metadata: Option<nat>, tokens: set<Token>, n: Node) {
    match n.file
    case None => n.stage.Down? || n.stage.ReadMetadata? || n.stage.AwaitMetadata? || n.stage.ReadWinner?
    case Some(id) =>
      && metadata == Some(id.cluster) && id.token in tokens
      && (id.host.Some? ==> id.host.value in claims && Mine(claims[id.host.value], id, id.host.value))
      && match n.stage
         case Probe(offset) => Passed(claims, id.token, offset)
         case AwaitClaim(offset) => offset < MAX_PROBES && Passed(claims, id.token, offset)
         case ReadClaim(offset) => Passed(claims, id.token, offset) && HostAt(id.token, offset) in claims
         case Ready(host) => id.host == Some(host)
         case Verify(host) => id.host == Some(host)
         case Down => true
         case CheckCluster => true
         case _ => false
  }

  ghost predicate Inv(w: World) {
    && StoreInv(w.claims, w.metadata, w.sentClaims)
    && (forall n :: n in w.nodes ==> NodeInv(w.claims, w.metadata, w.tokens, w.nodes[n]))
    && (forall a, b :: a in w.nodes && b in w.nodes && a != b && w.nodes[a].file.Some? && w.nodes[b].file.Some?
          ==> w.nodes[a].file.value.token != w.nodes[b].file.value.token)
  }

  /** Claims and metadata are only ever created. */
  ghost predicate Grows(w: World, v: World) {
    && (forall h :: h in w.claims ==> h in v.claims && v.claims[h] == w.claims[h])
    && (w.metadata.Some? ==> v.metadata == w.metadata)
  }

  lemma GrownReached(claims: map<nat, Claim>, metadata: Option<nat>, claims': map<nat, Claim>, metadata': Option<nat>,
                     c: Claim)
    requires Reached(claims, metadata, c)
    requires forall h :: h in claims ==> h in claims' && claims'[h] == claims[h]
    requires metadata.Some? ==> metadata' == metadata
    ensures Reached(claims', metadata', c)
  {
    var offset: nat :| offset < MAX_PROBES && c.host == HostAt(c.token, offset) && Passed(claims, c.token, offset);
    assert Passed(claims', c.token, offset);
  }

  lemma GrownNode(claims: map<nat, Claim>, metadata: Option<nat>, tokens: set<Token>,
                  claims': map<nat, Claim>, metadata': Option<nat>, tokens': set<Token>, n: Node)
    requires NodeInv(claims, metadata, tokens, n) && tokens <= tokens'
    requires forall h :: h in claims ==> h in claims' && claims'[h] == claims[h]
    requires metadata.Some? ==> metadata' == metadata
    ensures NodeInv(claims', metadata', tokens', n)
  {
  }

  /** The world after one node moved, given that the store only grew. */
  lemma OneNodeMoves(w: World, v: World, node: NodeId)
    requires Inv(w) && Grows(w, v) && w.tokens <= v.tokens
    requires node in w.nodes && v.nodes.Keys == w.nodes.Keys
    requires forall n :: n in w.nodes && n != node ==> v.nodes[n] == w.nodes[n]
    requires StoreInv(v.claims, v.metadata, v.sentClaims)
    requires NodeInv(v.claims, v.metadata, v.tokens, v.nodes[node])
    requires v.nodes[node].file.Some? ==>
               || (w.nodes[node].file.Some? && w.nodes[node].file.value.token == v.nodes[node].file.value.token)
               || v.nodes[node].file.value.token !in w.tokens
    ensures Inv(v)
  {
    forall n | n in v.nodes ensures NodeInv(v.claims, v.metadata, v.tokens, v.nodes[n]) {
      if n != node { GrownNode(w.claims, w.metadata, w.tokens, v.claims, v.metadata, v.tokens, w.nodes[n]); }
    }
    forall n | n in w.nodes && w.nodes[n].file.Some? ensures w.nodes[n].file.value.token in w.tokens {
      assert NodeInv(w.claims, w.metadata, w.tokens, w.nodes[n]);
    }
  }

  lemma StoreKeeps(w: World, v: World)
    requires StoreInv(w.claims, w.metadata, w.sentClaims) && Grows(w, v)
    requires forall h :: h in v.claims && h !in w.claims ==>
               v.claims[h].host == h && Reached(w.claims, v.metadata, v.claims[h])
    requires forall c :: c in v.sentClaims && c !in w.sentClaims ==> Reached(w.claims, v.metadata, c)
    ensures StoreInv(v.claims, v.metadata, v.sentClaims)
  {
    forall h | h in v.claims ensures v.claims[h].host == h && Reached(v.claims, v.metadata, v.claims[h]) {
      if h in w.claims {
        GrownReached(w.claims, w.metadata, v.claims, v.metadata, w.claims[h]);
      } else {
        GrownReached(w.claims, v.metadata, v.claims, v.metadata, v.claims[h]);
      }
    }
    forall c | c in v.sentClaims ensures Reached(v.claims, v.metadata, c) {
      if c in w.sentClaims {
        GrownReached(w.claims, w.metadata, v.claims, v.metadata, c);
      } else {
        GrownReached(w.claims, v.metadata, v.claims, v.metadata, c);
      }
    }
  }

  lemma LandingKeeps(w: World, step: Step)
    requires Inv(w) && Enabled(w, step) && (step.MetadataLands? || step.ClaimLands?)
    ensures Inv(Apply(w, step)) && Grows(w, Apply(w, step))
  {
    var v := Apply(w, step);
    StoreKeeps(w, v);
    forall n | n in v.nodes ensures NodeInv(v.claims, v.metadata, v.tokens, v.nodes[n]) {
      GrownNode(w.claims, w.metadata, w.tokens, v.claims, v.metadata, v.tokens, w.nodes[n]);
    }
  }

  lemma AdoptKeeps(w: World, node: NodeId, cluster: nat, token: Token)
    requires Inv(w) && node in w.nodes && w.nodes[node].file.None? && token !in w.tokens
    requires w.metadata.None? || w.metadata == Some(cluster)
    ensures Inv(Adopt(w.(metadata := Some(cluster)), node, cluster, token))
    ensures Grows(w, Adopt(w.(metadata := Some(cluster)), node, cluster, token))
  {
    var v := Adopt(w.(metadata := Some(cluster)), node, cluster, token);
    StoreKeeps(w, v);
    OneNodeMoves(w, v, node);
  }

  /** An occupied id that is not the node's own belongs to another token. */
  lemma RivalPasses(w: World, id: Identity, offset: nat)
    requires StoreInv(w.claims, w.metadata, w.sentClaims) && w.metadata == Some(id.cluster)
    requires Passed(w.claims, id.token, offset)
    requires var host := HostAt(id.token, offset); host in w.claims && !Mine(w.claims[host], id, host)
    ensures Passed(w.claims, id.token, offset + 1)
  {
    var host := HostAt(id.token, offset);
    assert Reached(w.claims, w.metadata, w.claims[host]);
  }

  lemma ToKeeps(w: World, node: NodeId, stage: Stage)
    requires Inv(w) && node in w.nodes
    requires NodeInv(w.claims, w.metadata, w.tokens, w.nodes[node].(stage := stage))
    ensures Inv(To(w, node, stage)) && Grows(w, To(w, node, stage))
  {
    OneNodeMoves(w, To(w, node, stage), node);
  }

  lemma OwnKeeps(w: World, v: World, node: NodeId, id: Identity, host: nat)
    requires Inv(w) && node in w.nodes && w.nodes[node].file == Some(id) && Grows(w, v)
    requires v == w.(claims := v.claims) && StoreInv(v.claims, v.metadata, v.sentClaims)
    requires host in v.claims && Mine(v.claims[host], id, host)
    ensures Inv(Own(v, node, id, host)) && Grows(w, Own(v, node, id, host))
  {
    assert NodeInv(w.claims, w.metadata, w.tokens, w.nodes[node]);
    OneNodeMoves(w, Own(v, node, id, host), node);
  }

  lemma ProbeKeeps(w: World, node: NodeId, id: Identity, offset: nat)
    requires Inv(w) && node in w.nodes && w.nodes[node] == Node(Some(id), Probe(offset))
    ensures Inv(AfterGet(w, node, id, offset)) && Grows(w, AfterGet(w, node, id, offset))
  {
    assert NodeInv(w.claims, w.metadata, w.tokens, w.nodes[node]);
    var host := HostAt(id.token, offset);
    if offset >= MAX_PROBES {
      ToKeeps(w, node, Down);
    } else if host !in w.claims {
      var v := w.(sentClaims := w.sentClaims + {Claim(id.cluster, host, id.token)});
      StoreKeeps(w, v);
      OneNodeMoves(w, To(v, node, AwaitClaim(offset)), node);
    } else if Mine(w.claims[host], id, host) {
      OwnKeeps(w, w, node, id, host);
    } else {
      RivalPasses(w, id, offset);
      ToKeeps(w, node, Probe(offset + 1));
    }
  }

  lemma ClaimWonKeeps(w: World, node: NodeId)
    requires Inv(w) && Enabled(w, ClaimWon(node))
    ensures Inv(Apply(w, ClaimWon(node))) && Grows(w, Apply(w, ClaimWon(node)))
  {
    assert NodeInv(w.claims, w.metadata, w.tokens, w.nodes[node]);
    var id := w.nodes[node].file.value;
    var offset := w.nodes[node].stage.offset;
    var host := HostAt(id.token, offset);
    var claim := Claim(id.cluster, host, id.token);
    assert Reached(w.claims, w.metadata, claim);
    var v := w.(claims := w.claims[host := claim]);
    StoreKeeps(w, v);
    OwnKeeps(w, v, node, id, host);
  }

  lemma RivalKeeps(w: World, node: NodeId)
    requires Inv(w) && Enabled(w, GetRival(node))
    ensures Inv(Apply(w, GetRival(node))) && Grows(w, Apply(w, GetRival(node)))
  {
    assert NodeInv(w.claims, w.metadata, w.tokens, w.nodes[node]);
    var id := w.nodes[node].file.value;
    var offset := w.nodes[node].stage.offset;
    var host := HostAt(id.token, offset);
    if Mine(w.claims[host], id, host) {
      OwnKeeps(w, w, node, id, host);
    } else {
      RivalPasses(w, id, offset);
      ToKeeps(w, node, Probe(offset + 1));
    }
  }

  lemma GetMetadataKeeps(w: World, node: NodeId, proposal: nat, token: Token)
    requires Inv(w) && Enabled(w, GetMetadata(node, proposal, token))
    ensures Inv(Apply(w, GetMetadata(node, proposal, token))) && Grows(w, Apply(w, GetMetadata(node, proposal, token)))
  {
    assert NodeInv(w.claims, w.metadata, w.tokens, w.nodes[node]);
    if w.metadata.Some? {
      AdoptKeeps(w, node, w.metadata.value, token);
    } else {
      var v := w.(sentMetadata := w.sentMetadata + {proposal});
      OneNodeMoves(w, To(v, node, AwaitMetadata(proposal)), node);
    }
  }

  lemma StepKeeps(w: World, step: Step)
    requires Inv(w) && Enabled(w, step)
    ensures Inv(Apply(w, step)) && Grows(w, Apply(w, step))
  {
    if step.MetadataLands? || step.ClaimLands? {
      LandingKeeps(w, step);
    } else {
      var node := step.node;
      assert NodeInv(w.claims, w.metadata, w.tokens, w.nodes[node]);
      match step
      case GetMetadata(_, proposal, token) => GetMetadataKeeps(w, node, proposal, token);
      case MetadataWon(_, token) => AdoptKeeps(w, node, w.nodes[node].stage.proposed, token);
      case GetWinner(_, token) =>
        if w.metadata.Some? { AdoptKeeps(w, node, w.metadata.value, token); } else { ToKeeps(w, node, Down); }
      case GetClaim(_) => ProbeKeeps(w, node, w.nodes[node].file.value, w.nodes[node].stage.offset);
      case ClaimWon(_) => ClaimWonKeeps(w, node);
      case GetRival(_) => RivalKeeps(w, node);
      case Boot(_) => ToKeeps(w, node, Apply(w, step).nodes[node].stage);
      case Crash(_) => ToKeeps(w, node, Down);
      case MetadataConflict(_) => ToKeeps(w, node, ReadWinner);
      case GetCluster(_) => ToKeeps(w, node, Apply(w, step).nodes[node].stage);
      case ClaimConflict(_) => ToKeeps(w, node, ReadClaim(w.nodes[node].stage.offset));
      case CheckClaim(_) => ToKeeps(w, node, Apply(w, step).nodes[node].stage);
    }
  }

  lemma {:induction false} RunKeeps(w: World, steps: seq<Step>)
    requires Inv(w) && Legal(w, steps)
    ensures Inv(Run(w, steps)) && Grows(w, Run(w, steps))
    decreases |steps|
  {
    if steps != [] {
      StepKeeps(w, steps[0]);
      RunKeeps(Apply(w, steps[0]), steps[1..]);
    }
  }

  // ---- The promises -----------------------------------------------------------------

  lemma OneClaimPerToken(w: World, a: nat, b: nat)
    requires Inv(w) && a in w.claims && b in w.claims && w.claims[a].token == w.claims[b].token
    ensures a == b
  {
    var token := w.claims[a].token;
    assert Reached(w.claims, w.metadata, w.claims[a]) && Reached(w.claims, w.metadata, w.claims[b]);
    var i: nat :| i < MAX_PROBES && a == HostAt(token, i) && Passed(w.claims, token, i);
    var j: nat :| j < MAX_PROBES && b == HostAt(token, j) && Passed(w.claims, token, j);
  }

  /** In every run a token claims at most one host id, every node that ever adopted a
      cluster adopted the same one, and no two serving nodes have the same host id. */
  lemma EveryRunClaimsOnce(nodes: set<NodeId>, steps: seq<Step>)
    requires Legal(Start(nodes), steps)
    ensures var w := Run(Start(nodes), steps);
            && (forall a, b :: a in w.claims && b in w.claims && w.claims[a].token == w.claims[b].token ==> a == b)
            && (forall n, m :: n in w.nodes && m in w.nodes && w.nodes[n].file.Some? && w.nodes[m].file.Some?
                  ==> w.nodes[n].file.value.cluster == w.nodes[m].file.value.cluster)
            && (forall n, m :: n in w.nodes && m in w.nodes && w.nodes[n].stage.Ready? && w.nodes[m].stage.Ready?
                  ==> (w.nodes[n].stage.host == w.nodes[m].stage.host <==> n == m))
            && (forall n :: n in w.nodes && w.nodes[n].stage.Ready? ==>
                  w.nodes[n].file.Some? && w.nodes[n].stage.host in w.claims
                  && Mine(w.claims[w.nodes[n].stage.host], w.nodes[n].file.value, w.nodes[n].stage.host))
  {
    RunKeeps(Start(nodes), steps);
    var w := Run(Start(nodes), steps);
    forall a, b | a in w.claims && b in w.claims && w.claims[a].token == w.claims[b].token ensures a == b {
      OneClaimPerToken(w, a, b);
    }
    assert forall n :: n in w.nodes ==> NodeInv(w.claims, w.metadata, w.tokens, w.nodes[n]);
  }

  /** However often it crashes, a node that keeps its identity file serves under one
      host id only, and that id never changes hands. */
  lemma HostIdIsForLife(nodes: set<NodeId>, steps: seq<Step>, more: seq<Step>, n: NodeId, m: NodeId)
    requires Legal(Start(nodes), steps) && Legal(Run(Start(nodes), steps), more)
    requires n in Run(Start(nodes), steps).nodes && Run(Start(nodes), steps).nodes[n].stage.Ready?
    requires m in Run(Run(Start(nodes), steps), more).nodes && Run(Run(Start(nodes), steps), more).nodes[m].stage.Ready?
    ensures var before, after := Run(Start(nodes), steps).nodes[n], Run(Run(Start(nodes), steps), more).nodes[m];
            && before.file.Some? && after.file.Some?
            && (before.file.value.token == after.file.value.token <==> before.stage.host == after.stage.host)
  {
    RunKeeps(Start(nodes), steps);
    var w := Run(Start(nodes), steps);
    RunKeeps(w, more);
    var v := Run(w, more);
    assert NodeInv(w.claims, w.metadata, w.tokens, w.nodes[n]);
    assert NodeInv(v.claims, v.metadata, v.tokens, v.nodes[m]);
    if w.nodes[n].file.value.token == v.nodes[m].file.value.token {
      OneClaimPerToken(v, w.nodes[n].stage.host, v.nodes[m].stage.host);
    }
  }

  /** Every claim is for the first id that its token found free: counting up from the token's
      first four bytes, wrapping, within 4096 tries, all earlier ones belong to others. */
  lemma EveryClaimWasTheFirstFree(nodes: set<NodeId>, steps: seq<Step>, host: nat)
    requires Legal(Start(nodes), steps) && host in Run(Start(nodes), steps).claims
    ensures var claims := Run(Start(nodes), steps).claims;
            var token := claims[host].token;
            && claims[host].host == host
            && exists offset: nat ::
                 offset < 4096 && host == (token % U32_LIMIT + offset) % U32_LIMIT && Passed(claims, token, offset)
  {
    RunKeeps(Start(nodes), steps);
    var w := Run(Start(nodes), steps);
    assert Reached(w.claims, w.metadata, w.claims[host]);
    var token := w.claims[host].token;
    var offset: nat :| offset < MAX_PROBES && host == HostAt(token, offset) && Passed(w.claims, token, offset);
  }

  // ---- A node left alone gets to serve ------------------------------------------------------

  /** Only this node's own steps, and no crash. */
  predicate Undisturbed(steps: seq<Step>, node: NodeId) {
    forall i :: 0 <= i < |steps| ==>
      !steps[i].MetadataLands? && !steps[i].ClaimLands? && !steps[i].Crash? && steps[i].node == node
  }

  /** These steps take the node to serving, under a claim of its token. */
  predicate Serves(w: World, steps: seq<Step>, node: NodeId, token: Token) {
    && Legal(w, steps) && Undisturbed(steps, node)
    && var v := Run(w, steps);
    && node in v.nodes && v.nodes[node].stage.Ready? && v.nodes[node].file.Some?
    && v.nodes[node].file.value.token == token
    && v.nodes[node].stage.host in v.claims && v.claims[v.nodes[node].stage.host].token == token
  }

  lemma ServesAfter(w: World, step: Step, rest: seq<Step>, node: NodeId, token: Token)
    requires Enabled(w, step) && !step.MetadataLands? && !step.ClaimLands? && !step.Crash? && step.node == node
    requires Serves(Apply(w, step), rest, node, token)
    ensures Serves(w, [step] + rest, node, token)
  {
    assert ([step] + rest)[1..] == rest;
  }

  /** An id within reach that is free or already the token's own. */
  predicate HasRoom(claims: map<nat, Claim>, token: Token, from: nat, offset: nat) {
    from <= offset < MAX_PROBES
    && (HostAt(token, offset) in claims ==> claims[HostAt(token, offset)].token == token)
  }

  lemma OwnClaimIsMine(w: World, id: Identity, host: nat)
    requires StoreInv(w.claims, w.metadata, w.sentClaims) && w.metadata == Some(id.cluster)
    requires host in w.claims && w.claims[host].token == id.token
    ensures Mine(w.claims[host], id, host)
  {
    assert Reached(w.claims, w.metadata, w.claims[host]);
  }

  /** It takes the id it asks about: its own already, or free. */
  lemma ProbeTakes(w: World, node: NodeId, id: Identity, offset: nat) returns (steps: seq<Step>)
    requires Inv(w) && node in w.nodes && w.nodes[node] == Node(Some(id), Probe(offset))
    requires HasRoom(w.claims, id.token, offset, offset)
    ensures Serves(w, steps, node, id.token)
  {
    assert NodeInv(w.claims, w.metadata, w.tokens, w.nodes[node]);
    var host := HostAt(id.token, offset);
    var v := Apply(w, GetClaim(node));
    if host in w.claims {
      OwnClaimIsMine(w, id, host);
      assert Serves(v, [], node, id.token);
      ServesAfter(w, GetClaim(node), [], node, id.token);
      steps := [GetClaim(node)] + [];
    } else {
      assert Serves(Apply(v, ClaimWon(node)), [], node, id.token);
      ServesAfter(v, ClaimWon(node), [], node, id.token);
      ServesAfter(w, GetClaim(node), [ClaimWon(node)] + [], node, id.token);
      steps := [GetClaim(node)] + ([ClaimWon(node)] + []);
    }
  }

  lemma {:induction false} ProbeServes(w: World, node: NodeId, id: Identity, offset: nat, room: nat)
    returns (steps: seq<Step>)
    requires Inv(w) && node in w.nodes && w.nodes[node] == Node(Some(id), Probe(offset))
    requires HasRoom(w.claims, id.token, offset, room)
    ensures Serves(w, steps, node, id.token)
    decreases room - offset
  {
    var host := HostAt(id.token, offset);
    if HasRoom(w.claims, id.token, offset, offset) {
      steps := ProbeTakes(w, node, id, offset);
    } else {
      var v := Apply(w, GetClaim(node));
      StepKeeps(w, GetClaim(node));
      assert v.claims == w.claims && v.nodes[node] == Node(Some(id), Probe(offset + 1));
      var rest := ProbeServes(v, node, id, offset + 1, room);
      ServesAfter(w, GetClaim(node), rest, node, id.token);
      steps := [GetClaim(node)] + rest;
    }
  }

  /** A node that has adopted a cluster comes back to its own host id, or probes for one. */
  lemma KnownNodeServes(w: World, node: NodeId, room: nat) returns (steps: seq<Step>)
    requires Inv(w) && node in w.nodes && w.nodes[node].stage.Down? && w.nodes[node].file.Some?
    requires HasRoom(w.claims, w.nodes[node].file.value.token, 0, room)
    ensures Serves(w, steps, node, w.nodes[node].file.value.token)
  {
    var id := w.nodes[node].file.value;
    assert NodeInv(w.claims, w.metadata, w.tokens, w.nodes[node]);
    var w1 := Apply(w, Boot(node));
    StepKeeps(w, Boot(node));
    var w2 := Apply(w1, GetCluster(node));
    StepKeeps(w1, GetCluster(node));
    var rest: seq<Step>;
    if id.host.Some? {
      assert Serves(Apply(w2, CheckClaim(node)), [], node, id.token);
      ServesAfter(w2, CheckClaim(node), [], node, id.token);
      rest := [CheckClaim(node)] + [];
    } else {
      rest := ProbeServes(w2, node, id, 0, room);
    }
    ServesAfter(w1, GetCluster(node), rest, node, id.token);
    ServesAfter(w, Boot(node), [GetCluster(node)] + rest, node, id.token);
    steps := [Boot(node)] + ([GetCluster(node)] + rest);
  }

  /** A new node joins the cluster there is, or founds one, and probes under a fresh token. */
  lemma NewNodeServes(w: World, node: NodeId, proposal: nat, token: Token, room: nat) returns (steps: seq<Step>)
    requires Inv(w) && node in w.nodes && w.nodes[node].stage.Down? && w.nodes[node].file.None?
    requires proposal != 0 && token !in w.tokens && HasRoom(w.claims, token, 0, room)
    ensures Serves(w, steps, node, token)
  {
    var w1 := Apply(w, Boot(node));
    StepKeeps(w, Boot(node));
    var get := GetMetadata(node, proposal, token);
    var w2 := Apply(w1, get);
    StepKeeps(w1, get);
    var rest: seq<Step>;
    if w.metadata.Some? {
      rest := ProbeServes(w2, node, Identity(w.metadata.value, token, None), 0, room);
    } else {
      var won := MetadataWon(node, token);
      StepKeeps(w2, won);
      rest := ProbeServes(Apply(w2, won), node, Identity(proposal, token, None), 0, room);
      ServesAfter(w2, won, rest, node, token);
      rest := [won] + rest;
    }
    ServesAfter(w1, get, rest, node, token);
    ServesAfter(w, Boot(node), [get] + rest, node, token);
    steps := [Boot(node)] + ([get] + rest);
  }

  /** The token in the identity file, or the one it will get. */
  function TokenOf(n: Node, unused: Token): Token {
    if n.file.Some? then n.file.value.token else unused
  }

  /** From every reachable world, whatever crashed and whatever was lost, a node that is down
      and then left alone serves under its token, unless all 4096 ids the token may try belong
      to others. */
  lemma LeftAloneItServes(nodes: set<NodeId>, steps: seq<Step>, node: NodeId, proposal: nat, unused: Token, room: nat)
    requires Legal(Start(nodes), steps)
    requires var w := Run(Start(nodes), steps);
             && node in w.nodes && w.nodes[node].stage.Down? && proposal != 0 && unused !in w.tokens
             && HasRoom(w.claims, TokenOf(w.nodes[node], unused), 0, room)
    ensures var w := Run(Start(nodes), steps);
            exists more :: Serves(w, more, node, TokenOf(w.nodes[node], unused))
  {
    RunKeeps(Start(nodes), steps);
    var w := Run(Start(nodes), steps);
    if w.nodes[node].file.Some? {
      var more := KnownNodeServes(w, node, room);
    } else {
      var more := NewNodeServes(w, node, proposal, unused, room);
    }
  }
}
