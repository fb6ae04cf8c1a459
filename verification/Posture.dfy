/**
 The risk posture of one extension row: the stored heuristic, the effective score, its stored
 explanation, the threat flag and the analyst policy, as three writers change them
 (app/services.py, app/scoring.py, app/routes/api.py).
 */
module Posture {
  import opened Wrappers
  import opened Scoring

  /** The keys the writers use in the stored ``risk_detail`` object. */
  datatype DetailKey =
    | Permissions | Popularity | Publisher | Staleness | CodeBehaviour | ExternalDomains
    | Total | Level

  datatype DetailValue = Number(n: int) | Label(level: Scoring.Level) | Unknown | NoValue

  type Detail = map<DetailKey, DetailValue>

  const COMPONENTS: seq<DetailKey> :=
    [Permissions, Popularity, Publisher, Staleness, CodeBehaviour, ExternalDomains]

  datatype Posture = Posture(
    heuristic: Option<int>,
    riskScore: Option<int>,
    detail: Option<Detail>,
    threatMatch: bool,
    policy: Override)

  function ComponentSum(detail: Detail, keys: seq<DetailKey>): int {
    if keys == [] then 0
    else
      (if keys[0] in detail && detail[keys[0]].Number? then detail[keys[0]].n else 0)
      + ComponentSum(detail, keys[1..])
  }

  /** ``recover_heuristic_risk_score``; an empty detail object counts as none. */
  function RecoverHeuristic(stored: Option<int>, effective: Option<int>, detail: Detail): Option<int> {
    if stored.Some? then stored
    else if detail != map[] then Some(Min(ComponentSum(detail, COMPONENTS), 100))
    else effective
  }

  function ScoreValue(score: Option<int>): DetailValue {
    if score.Some? then Number(score.value) else NoValue
  }

  function LevelValue(p: Posture): DetailValue {
    var level := EffectiveRiskLevel(p.riskScore, p.threatMatch, p.policy);
    if level.Some? then Label(level.value) else Unknown
  }

  function DetailOrEmpty(p: Posture): Detail { if p.detail.Some? then p.detail.value else map[] }

  /** The tail shared by threat ingestion and triage: recover the heuristic, lay the policy over
      it, and bring the stored explanation in line. */
  function Recomputed(p: Posture): Posture {
    var heuristic := RecoverHeuristic(p.heuristic, p.riskScore, DetailOrEmpty(p));
    var q := p.(heuristic := heuristic, riskScore := EffectiveRiskScore(heuristic, p.threatMatch, p.policy));
    q.(detail := Some(DetailOrEmpty(p)[Total := ScoreValue(q.riskScore)][Level := LevelValue(q)]))
  }

  const ENROLLED := Posture(None, None, None, false, NoOverride)

  function ThreatApplied(p: Posture): Posture { Recomputed(p.(threatMatch := true)) }

  function Triaged(p: Posture, policy: Option<Override>): Posture {
    Recomputed(if policy.Some? then p.(policy := policy.value) else p)
  }

  /** The explanation a fetch stores, before its total and level are adjusted to the policy. */
  function StoredDetail(risk: RiskDetail): Detail {
    map[Permissions := Number(risk.permissions), Popularity := Number(risk.popularity),
        Publisher := Number(risk.publisher), Staleness := Number(risk.staleness),
        CodeBehaviour := Number(risk.codeBehaviour), ExternalDomains := Number(risk.externalDomains),
        Total := Number(risk.total), Level := Label(risk.riskLevel)]
  }

  /** A successful fetch: ``listed`` says whether the threat list names the extension now. */
  function Fetched(p: Posture, risk: RiskDetail, listed: bool): Posture {
    var q := p.(threatMatch := listed, heuristic := Some(risk.total),
                riskScore := EffectiveRiskScore(Some(risk.total), listed, p.policy));
    q.(detail := Some(StoredDetail(risk)[Total := ScoreValue(q.riskScore)][Level := LevelValue(q)]))
  }

  predicate Holds(detail: Detail, key: DetailKey, n: int) { key in detail && detail[key] == Number(n) }

  lemma SumOfComponents(d: Detail, a: int, b: int, c: int, e: int, f: int, g: int)
    requires Holds(d, Permissions, a) && Holds(d, Popularity, b) && Holds(d, Publisher, c)
    requires Holds(d, Staleness, e) && Holds(d, CodeBehaviour, f) && Holds(d, ExternalDomains, g)
    ensures ComponentSum(d, COMPONENTS) == a + b + c + e + f + g
  {
    var k1, k2, k3, k4, k5 := COMPONENTS[1..], COMPONENTS[2..], COMPONENTS[3..], COMPONENTS[4..], COMPONENTS[5..];
    assert k1[1..] == k2 && k2[1..] == k3 && k3[1..] == k4 && k4[1..] == k5 && k5[1..] == [];
    assert ComponentSum(d, k5) == g + ComponentSum(d, []);
    assert ComponentSum(d, k3) == e + f + ComponentSum(d, k5);
    assert ComponentSum(d, k1) == b + c + ComponentSum(d, k3);
  }

  /** The heuristic of a fetched row can be recovered from its explanation alone, whatever policy or
      threat match the row was stored under: a forced 100 is never taken for evidence. */
  lemma HeuristicRecoverable(p: Posture, risk: RiskDetail, listed: bool)
    requires risk.total == risk.ComponentTotal() <= 100
    ensures var q := Fetched(p, risk, listed);
            RecoverHeuristic(None, q.riskScore, q.detail.value) == q.heuristic
  {
    SumOfComponents(Fetched(p, risk, listed).detail.value, risk.permissions, risk.popularity, risk.publisher,
                    risk.staleness, risk.codeBehaviour, risk.externalDomains);
  }

  // ------------------------------------------------------------------ runs

  /** One tracked row together with whether the global threat list, which only grows, names it. */
  datatype State = State(posture: Posture, listed: bool)

  datatype Step =
    | IngestThreat                          // a feed push names this extension
    | MissedIngestion                       // a feed push that looked its rows up before this one was enrolled
    | ApplyKnownThreat                      // the check before a fetch or a deferred enrolment
    | Fetch(naming: Naming, signals: Signals)
    | Triage(policy: Option<Override>)

  function Apply(s: State, step: Step): State {
    match step
    case IngestThreat => State(ThreatApplied(s.posture), true)
    case MissedIngestion => s.(listed := true)
    case ApplyKnownThreat => if s.listed then s.(posture := ThreatApplied(s.posture)) else s
    case Fetch(naming, signals) => s.(posture := Fetched(s.posture, ComputeRiskScore(naming, signals), s.listed))
    case Triage(policy) => s.(posture := Triaged(s.posture, policy))
  }

  function Run(s: State, steps: seq<Step>): State
    decreases |steps|
  {
    if steps == [] then s else Run(Apply(s, steps[0]), steps[1..])
  }

  /** The stored explanation, when there is one, shows the stored score and its level. */
  ghost predicate DetailAgrees(p: Posture) {
    p.detail.Some? ==> Shows(p.detail.value, ScoreValue(p.riskScore), LevelValue(p))
  }

  ghost predicate Shows(detail: Detail, total: DetailValue, level: DetailValue) {
    && Total in detail && detail[Total] == total
    && Level in detail && detail[Level] == level
  }

  ghost predicate Consistent(s: State) {
    var p := s.posture;
    && p.riskScore == EffectiveRiskScore(p.heuristic, p.threatMatch, p.policy)
    && DetailAgrees(p)
    && (p.heuristic.Some? ==> 0 <= p.heuristic.value <= 100)
    && (p.threatMatch ==> s.listed)
    // Without an explanation nothing has happened since enrolment.
    && (p.detail.Some? || p == ENROLLED)
    // Without a heuristic the row was never fetched, so its explanation has no components.
    && (p.heuristic.None? && p.detail.Some? ==> p.detail.value.Keys !! {Permissions, Popularity, Publisher,
          Staleness, CodeBehaviour, ExternalDomains})
  }

  lemma {:induction false} NoComponentsSumToZero(detail: Detail, keys: seq<DetailKey>)
    requires forall k | k in keys :: k !in detail
    ensures ComponentSum(detail, keys) == 0
  {
    if keys != [] {
      assert keys[0] in keys && forall k | k in keys[1..] :: k in keys;
      NoComponentsSumToZero(detail, keys[1..]);
    }
  }

  lemma RecomputedConsistent(s: State, p: Posture)
    requires Consistent(s)
    requires p.heuristic == s.posture.heuristic && p.detail == s.posture.detail && p.riskScore == s.posture.riskScore
    requires p.threatMatch ==> s.listed
    ensures Consistent(s.(posture := Recomputed(p)))
  {
    if p.heuristic.None? && DetailOrEmpty(p) != map[] {
      NoComponentsSumToZero(DetailOrEmpty(p), COMPONENTS);
    }
  }

  lemma ConsistentStep(s: State, step: Step)
    requires Consistent(s)
    ensures Consistent(Apply(s, step))
  {
    var p := s.posture;
    match step
    case IngestThreat =>
      RecomputedConsistent(s.(listed := true), p.(threatMatch := true));
    case MissedIngestion =>
    case ApplyKnownThreat =>
      if s.listed {
        RecomputedConsistent(s, p.(threatMatch := true));
      }
    case Fetch(naming, signals) =>
      CategoriesWithinCaps(naming, signals);
    case Triage(policy) =>
      RecomputedConsistent(s, if policy.Some? then p.(policy := policy.value) else p);
  }

  /** In every state reachable from enrolment by threat ingestion, fetches and triage, the stored
      score is the policy applied to the stored heuristic, and the stored explanation shows it. */
  lemma {:induction false} PostureAlwaysConsistent(s: State, steps: seq<Step>)
    requires Consistent(s)
    ensures Consistent(Run(s, steps))
    decreases |steps|
  {
    if steps != [] {
      ConsistentStep(s, steps[0]);
      PostureAlwaysConsistent(Apply(s, steps[0]), steps[1..]);
    }
  }

  lemma {:induction false} ThreatNeverReverts(s: State, steps: seq<Step>)
    requires s.posture.threatMatch && s.listed
    ensures Run(s, steps).posture.threatMatch
    decreases |steps|
  {
    if steps != [] {
      ThreatNeverReverts(Apply(s, steps[0]), steps[1..]);
    }
  }

  /** A threat match, once set, holds for the rest of any run and forces 100 and "critical" in the
      row and in its explanation, whatever the analyst's policy. */
  lemma ThreatStaysCritical(listed: bool, before: seq<Step>, after: seq<Step>)
    requires Run(State(ENROLLED, listed), before).posture.threatMatch
    ensures var p := Run(Run(State(ENROLLED, listed), before), after).posture;
            && p.threatMatch
            && p.riskScore == Some(100)
            && EffectiveRiskLevel(p.riskScore, p.threatMatch, p.policy) == Some(Critical)
            && (p.detail.Some? ==> Shows(p.detail.value, Number(100), Label(Critical)))
  {
    var s := Run(State(ENROLLED, listed), before);
    PostureAlwaysConsistent(State(ENROLLED, listed), before);
    ThreatNeverReverts(s, after);
    PostureAlwaysConsistent(s, after);
  }

  /** What the row and its explanation show. */
  ghost predicate ShowsScore(p: Posture, score: int, level: Scoring.Level) {
    && p.riskScore == Some(score)
    && EffectiveRiskLevel(p.riskScore, p.threatMatch, p.policy) == Some(level)
    && p.detail.Some? && Shows(p.detail.value, Number(score), Label(level))
  }

  /** Over every run from enrolment the analyst's policy decides what the row shows: "deny" makes it critical
      at 100, "allow" suppressed at 0 unless a threat matches, and without either it shows its heuristic. */
  lemma PolicyDecides(listed: bool, steps: seq<Step>)
    ensures var p := Run(State(ENROLLED, listed), steps).posture;
            && (p.policy == Deny || p.threatMatch ==> ShowsScore(p, 100, Critical))
            && (p.policy == Allow && !p.threatMatch ==> ShowsScore(p, 0, Suppression))
            && (p.policy == NoOverride && !p.threatMatch ==>
                  && p.riskScore == p.heuristic
                  && EffectiveRiskLevel(p.riskScore, p.threatMatch, p.policy) == RiskLevel(p.heuristic)
                  && (p.detail.Some? && p.heuristic.Some? ==>
                        Shows(p.detail.value, Number(p.heuristic.value), Label(BandOf(p.heuristic.value)))))
  {
    PostureAlwaysConsistent(State(ENROLLED, listed), steps);
  }

  predicate Fetches(steps: seq<Step>) { exists i :: 0 <= i < |steps| && steps[i].Fetch? }

  lemma {:induction false} HeuristicKept(s: State, steps: seq<Step>)
    requires !Fetches(steps) && s.posture.heuristic.Some?
    ensures Run(s, steps).posture.heuristic == s.posture.heuristic
    decreases |steps|
  {
    if steps != [] {
      assert !steps[0].Fetch?;
      assert forall i | 0 <= i < |steps[1..]| :: steps[1..][i] == steps[i + 1];
      HeuristicKept(Apply(s, steps[0]), steps[1..]);
    }
  }

  /** The heuristic is the score that the last fetch computed, whatever the policy and the threat list did
      before and since. */
  lemma HeuristicIsLastFetch(s: State, naming: Naming, signals: Signals, since: seq<Step>)
    requires !Fetches(since)
    ensures Run(Apply(s, Fetch(naming, signals)), since).posture.heuristic ==
            Some(ComputeRiskScore(naming, signals).total)
  {
    HeuristicKept(Apply(s, Fetch(naming, signals)), since);
  }

  /** The policy is the last one a triage request set. */
  lemma {:induction false} PolicyIsLastSet(s: State, steps: seq<Step>)
    ensures Run(s, steps).posture.policy == LastPolicySet(s.posture.policy, steps)
    decreases |steps|
  {
    if steps != [] {
      PolicyIsLastSet(Apply(s, steps[0]), steps[1..]);
    }
  }

  function LastPolicySet(policy: Override, steps: seq<Step>): Override
    decreases |steps|
  {
    if steps == [] then policy
    else LastPolicySet(if steps[0].Triage? && steps[0].policy.Some? then steps[0].policy.value else policy, steps[1..])
  }

  function Triages(policies: seq<Option<Override>>): seq<Step> {
    seq(|policies|, i requires 0 <= i < |policies| => Triage(policies[i]))
  }

  /** The policy in force after a sequence of triage requests, some of which leave it alone. */
  function LastPolicy(policy: Override, policies: seq<Option<Override>>): Override
    decreases |policies|
  {
    if policies == [] then policy
    else LastPolicy(if policies[0].Some? then policies[0].value else policy, policies[1..])
  }

  /** Triage never touches a stored heuristic: after any sequence of policy changes the score is
      the last policy applied to it, so one that ends in ``none`` with no threat restores it. */
  lemma {:induction false} TriageKeepsHeuristic(s: State, policies: seq<Option<Override>>)
    requires Consistent(s) && s.posture.heuristic.Some?
    ensures var q := Run(s, Triages(policies)).posture;
            && q.heuristic == s.posture.heuristic
            && q.threatMatch == s.posture.threatMatch
            && q.policy == LastPolicy(s.posture.policy, policies)
            && (q.policy.NoOverride? && !q.threatMatch ==> q.riskScore == s.posture.heuristic)
    decreases |policies|
  {
    if policies != [] {
      var steps := Triages(policies);
      assert steps[1..] == Triages(policies[1..]);
      ConsistentStep(s, steps[0]);
      TriageKeepsHeuristic(Apply(s, steps[0]), policies[1..]);
    }
  }

  /** Applying the same threat match twice changes nothing the second time exactly when the row had a
      heuristic or an explanation before. Without either, the first pass leaves the heuristic unknown
      and the second takes the explanation the first wrote for evidence of zero. */
  lemma ReapplyThreat(s: State)
    requires Consistent(s)
    ensures var once := ThreatApplied(s.posture);
            ThreatApplied(once) == once <==> s.posture.heuristic.Some? || s.posture.detail.Some?
  {
    var once := ThreatApplied(s.posture);
    RecomputedConsistent(s.(listed := true), s.posture.(threatMatch := true));
    var twice := ThreatApplied(once);
    if once.heuristic.Some? {
      assert twice.detail.value == once.detail.value;
    }
  }

  /** The same loss through triage: allowing and then releasing an extension that was enrolled
      and never fetched turns its unknown score into 0; any other reachable row gets back the
      score it has without a policy. */
  lemma AllowThenRelease(s: State)
    requires Consistent(s) && !s.posture.threatMatch && s.posture.policy.NoOverride?
    ensures var released := Triaged(Triaged(s.posture, Some(Allow)), Some(NoOverride));
            released.riskScore == s.posture.riskScore <==> s.posture.riskScore.Some?
  {
    var p := s.posture;
    var allowed := Triaged(p, Some(Allow));
    RecomputedConsistent(s, p.(policy := Allow));
    if p.heuristic.None? && p.detail.Some? {
      NoComponentsSumToZero(p.detail.value, COMPONENTS);
    }
  }
}
