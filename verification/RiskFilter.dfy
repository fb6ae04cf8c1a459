/** The risk clause of the shared extension query (app/extension_queries.py). */
module RiskFilter {
  import opened Wrappers
  import opened Scoring

  /** The columns the risk clause reads. */
  datatype RiskColumns = RiskColumns(riskScore: Option<int>, threatMatch: bool, riskOverride: Override)

  type ScoreRange = (int, Option<int>)

  /** Band to half-open score range, derived from the thresholds: each band ends where the
      band above it begins. */
  function RiskBands(): map<Level, ScoreRange> { BandsUpTo(|RISK_LEVEL_THRESHOLDS|) }

  function BandsUpTo(n: nat): map<Level, ScoreRange>
    requires n <= |RISK_LEVEL_THRESHOLDS|
  {
    if n == 0 then map[]
    else
      var (band, lower) := RISK_LEVEL_THRESHOLDS[n - 1];
      BandsUpTo(n - 1)[band := (lower, if n > 1 then Some(RISK_LEVEL_THRESHOLDS[n - 2].1) else None)]
  }

  predicate InBand(range: ScoreRange, row: RiskColumns) {
    && row.riskScore.Some?
    && row.riskScore.value >= range.0
    && !(row.riskOverride == Allow && !row.threatMatch)
    && (range.1.Some? ==> row.riskScore.value < range.1.value)
  }

  /** The WHERE clause ``build_extension_query`` adds for a ``risk`` parameter; one that is absent
      or names no level (``None``) adds none. */
  predicate RiskClause(risk: Option<Level>, row: RiskColumns) {
    match risk
    case None => true
    case Some(Suppression) => row.riskOverride == Allow && !row.threatMatch
    case Some(band) => band in RiskBands() ==> InBand(RiskBands()[band], row)
  }

  function LevelOf(row: RiskColumns): Option<Level> {
    EffectiveRiskLevel(row.riskScore, row.threatMatch, row.riskOverride)
  }

  lemma BandsAre()
    ensures RiskBands().Keys == {Critical, High, Medium, Low}
    ensures RiskBands()[Critical] == (75, None) && RiskBands()[High] == (50, Some(75))
    ensures RiskBands()[Medium] == (25, Some(50)) && RiskBands()[Low] == (0, Some(25))
  {
    assert BandsUpTo(1) == map[Critical := (75, None)];
    assert BandsUpTo(2) == BandsUpTo(1)[High := (50, Some(75))];
    assert BandsUpTo(3) == BandsUpTo(2)[Medium := (25, Some(50))];
  }

  lemma BandIs(score: int)
    ensures BandOf(score) ==
            if score >= 75 then Critical else if score >= 50 then High else if score >= 25 then Medium else Low
  {
    var t := RISK_LEVEL_THRESHOLDS;
    var t1, t2, t3 := t[1..], t[2..], t[3..];
    assert t1[1..] == t2 && t2[1..] == t3;
    assert FirstBand(t3, score) == Low;
    assert FirstBand(t2, score) == if score >= 25 then Medium else FirstBand(t3, score);
    assert FirstBand(t1, score) == if score >= 50 then High else FirstBand(t2, score);
  }

  /** A filter value and the displayed level agree on every row, except that a negative score is
      shown as "low" and found by no band: agreement fails on exactly those rows. */
  lemma FilterMatchesLevel(risk: Level, row: RiskColumns)
    ensures (RiskClause(Some(risk), row) <==> LevelOf(row) == Some(risk)) <==>
            !(risk == Low && row.riskScore.Some? && row.riskScore.value < 0
              && !Suppressed(row.threatMatch, row.riskOverride))
  {
    BandsAre();
    if row.riskScore.Some? {
      BandIs(row.riskScore.value);
    }
  }

  /** The five filters partition the rows with a score of at least zero: each is selected by the
      one filter that names its level. */
  lemma FiltersPartition(row: RiskColumns)
    requires row.riskScore.Some? && row.riskScore.value >= 0
    ensures LevelOf(row).Some?
    ensures forall risk :: RiskClause(Some(risk), row) <==> risk == LevelOf(row).value
  {
    forall risk {
      FilterMatchesLevel(risk, row);
    }
  }
}
