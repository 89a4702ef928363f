/** Leaderboard synchronisation from a downloaded Kaggle CSV
    (backend/apps/competitions/kaggle_leaderboard_sync.py): the raw metric
    is normalised onto the competition's points scale, each CSV row is
    resolved to a registered user when possible, and one standing per
    `(competition, user)` or `(competition, team name)` is created or
    overwritten. */
module KaggleLeaderboardSync {
  import opened Wrappers
  import opened Text
  import opened Users
  import opened Competitions

  /** The competition's scoring configuration. */
  datatype ScoringConfig = ScoringConfig(
    higherIsBetter: bool,
    metricMin: real,
    metricMax: real,
    pointsForPerfectScore: real)

  /** The raw metric as it reaches the normaliser: a finite number, a float
      NaN (what pandas reads for an empty cell), or something `float()`
      rejects. */
  datatype RawValue = Finite(x: real) | NaN | NotNumeric

  // ----- score normalisation -----

  /** The position of `x` in the configured range, as a fraction that is 0
      at the worst end and 1 at the best end. */
  function Fraction(x: real, cfg: ScoringConfig): real
    requires cfg.metricMax != cfg.metricMin
  {
    if cfg.higherIsBetter then (x - cfg.metricMin) / (cfg.metricMax - cfg.metricMin)
    else (cfg.metricMax - x) / (cfg.metricMax - cfg.metricMin)
  }

  /** `calculate_normalized_score`, as it is meant: a non-numeric or missing
      metric and a degenerate range give 0, otherwise the fraction times the
      points, clamped into [0, points]. */
  function NormalizedScore(value: RawValue, cfg: ScoringConfig): (r: real)
    ensures r >= 0.0
    ensures cfg.pointsForPerfectScore >= 0.0 ==> r <= cfg.pointsForPerfectScore
    ensures cfg.pointsForPerfectScore <= 0.0 ==> r == 0.0
    ensures !value.Finite? || cfg.metricMax == cfg.metricMin ==> r == 0.0
  {
    match value
    case NotNumeric => 0.0
    case NaN => 0.0
    case Finite(x) =>
      if cfg.metricMax == cfg.metricMin then 0.0
      else
        ClampToPoints(Fraction(x, cfg) * cfg.pointsForPerfectScore, cfg.pointsForPerfectScore)
  }

  /** `max(0.0, min(ps, n))` on numbers. */
  function ClampToPoints(n: real, ps: real): (r: real)
    ensures r >= 0.0
    ensures ps >= 0.0 ==> r <= ps
    ensures ps <= 0.0 ==> r == 0.0
    ensures 0.0 <= n <= ps ==> r == n
  {
    var capped := if n < ps then n else ps;
    if capped > 0.0 then capped else 0.0
  }

  lemma ClampToPointsMonotone(n1: real, n2: real, ps: real)
    requires n1 <= n2
    ensures ClampToPoints(n1, ps) <= ClampToPoints(n2, ps)
  {
  }

  lemma ScaledClampMonotone(f1: real, f2: real, ps: real)
    requires f1 <= f2 && ps >= 0.0
    ensures ClampToPoints(f1 * ps, ps) <= ClampToPoints(f2 * ps, ps)
  {
    var n1 := f1 * ps;
    var n2 := f2 * ps;
    MulMonotone(f1, f2, ps);
    assert n1 <= n2;
    ClampToPointsMonotone(n1, n2, ps);
  }

  /** Inside the configured range the score is exactly proportional: no
      clamping happens. */
  lemma NormalizedScoreIsProportional(x: real, cfg: ScoringConfig)
    requires cfg.metricMax != cfg.metricMin && cfg.pointsForPerfectScore >= 0.0
    requires 0.0 <= Fraction(x, cfg) <= 1.0
    ensures NormalizedScore(Finite(x), cfg) == Fraction(x, cfg) * cfg.pointsForPerfectScore
  {
    var ps := cfg.pointsForPerfectScore;
    var f := Fraction(x, cfg);
    var n := f * ps;
    ScaledWithinPoints(f, ps);
    assert 0.0 <= n <= ps;
    assert ClampToPoints(n, ps) == n;
    assert NormalizedScore(Finite(x), cfg) == ClampToPoints(n, ps);
  }

  /** The best end of the range earns the full points and the worst end
      earns nothing, in either direction. */
  lemma NormalizedScoreEndpoints(cfg: ScoringConfig)
    requires cfg.metricMax != cfg.metricMin && cfg.pointsForPerfectScore >= 0.0
    ensures cfg.higherIsBetter ==>
      NormalizedScore(Finite(cfg.metricMax), cfg) == cfg.pointsForPerfectScore
      && NormalizedScore(Finite(cfg.metricMin), cfg) == 0.0
    ensures !cfg.higherIsBetter ==>
      NormalizedScore(Finite(cfg.metricMin), cfg) == cfg.pointsForPerfectScore
      && NormalizedScore(Finite(cfg.metricMax), cfg) == 0.0
  {
    var d := cfg.metricMax - cfg.metricMin;
    assert d / d == 1.0;
    assert Fraction(cfg.metricMax, cfg) == (if cfg.higherIsBetter then 1.0 else 0.0);
    assert Fraction(cfg.metricMin, cfg) == (if cfg.higherIsBetter then 0.0 else 1.0);
    NormalizedScoreIsProportional(cfg.metricMax, cfg);
    NormalizedScoreIsProportional(cfg.metricMin, cfg);
  }

  lemma DivMonotone(a: real, b: real, d: real)
    requires a <= b && d > 0.0
    ensures a / d <= b / d
  {
    assert b / d - a / d == (b - a) / d;
  }

  /** A fraction in [0, 1] of a non-negative amount lies in [0, amount]. */
  lemma ScaledWithinPoints(f: real, ps: real)
    requires 0.0 <= f <= 1.0 && ps >= 0.0
    ensures 0.0 <= f * ps <= ps
  {
    assert ps - f * ps == (1.0 - f) * ps;
  }

  lemma MulMonotone(a: real, b: real, c: real)
    requires a <= b && c >= 0.0
    ensures a * c <= b * c
  {
    assert b * c - a * c == (b - a) * c;
  }

  lemma FractionMonotone(a: real, b: real, cfg: ScoringConfig)
    requires cfg.metricMax > cfg.metricMin && a <= b
    ensures cfg.higherIsBetter ==> Fraction(a, cfg) <= Fraction(b, cfg)
    ensures !cfg.higherIsBetter ==> Fraction(b, cfg) <= Fraction(a, cfg)
  {
    var d := cfg.metricMax - cfg.metricMin;
    if cfg.higherIsBetter {
      DivMonotone(a - cfg.metricMin, b - cfg.metricMin, d);
    } else {
      DivMonotone(cfg.metricMax - b, cfg.metricMax - a, d);
    }
  }

  /** A better raw metric never earns fewer points: non-decreasing in the
      value when higher is better, non-increasing otherwise. */
  lemma NormalizedScoreMonotone(a: real, b: real, cfg: ScoringConfig)
    requires cfg.metricMax > cfg.metricMin && cfg.pointsForPerfectScore >= 0.0
    requires a <= b
    ensures cfg.higherIsBetter ==> NormalizedScore(Finite(a), cfg) <= NormalizedScore(Finite(b), cfg)
    ensures !cfg.higherIsBetter ==> NormalizedScore(Finite(a), cfg) >= NormalizedScore(Finite(b), cfg)
  {
    var ps := cfg.pointsForPerfectScore;
    FractionMonotone(a, b, cfg);
    if cfg.higherIsBetter {
      NormalizedScoreOrdered(a, b, cfg);
    } else {
      NormalizedScoreOrdered(b, a, cfg);
    }
  }

  /** The step behind monotonicity: a smaller fraction never earns more. */
  lemma NormalizedScoreOrdered(lo: real, hi: real, cfg: ScoringConfig)
    requires cfg.metricMax != cfg.metricMin && cfg.pointsForPerfectScore >= 0.0
    requires Fraction(lo, cfg) <= Fraction(hi, cfg)
    ensures NormalizedScore(Finite(lo), cfg) <= NormalizedScore(Finite(hi), cfg)
  {
    ScaledClampMonotone(Fraction(lo, cfg), Fraction(hi, cfg), cfg.pointsForPerfectScore);
  }

  /** A lower-is-better metric on [0, 1] worth 100 points: 0.1, 0.5 and 0.9
      earn 90, 50 and 10. */
  lemma LowerIsBetterScenario()
    ensures var cfg := ScoringConfig(false, 0.0, 1.0, 100.0);
      && NormalizedScore(Finite(0.1), cfg) == 90.0
      && NormalizedScore(Finite(0.5), cfg) == 50.0
      && NormalizedScore(Finite(0.9), cfg) == 10.0
  {
  }

  // ----- the normaliser as written, under Python's float comparisons -----

  /** A Python float as the clamp sees it. */
  datatype PyFloat = Num(v: real) | PyNaN

  /** Python's `<` on floats: false whenever a NaN is involved. */
  predicate PyLess(a: PyFloat, b: PyFloat) {
    a.Num? && b.Num? && a.v < b.v
  }

  /** Python's two-argument `min`: the first argument unless the second is
      strictly smaller. */
  function PyMin(a: PyFloat, b: PyFloat): (r: PyFloat)
    ensures a.Num? && b.Num? ==> r.Num? && r.v <= a.v && r.v <= b.v && (r == a || r == b)
    ensures b.PyNaN? ==> r == a
  {
    if PyLess(b, a) then b else a
  }

  /** Python's two-argument `max`: the first argument unless the second is
      strictly larger. */
  function PyMax(a: PyFloat, b: PyFloat): (r: PyFloat)
    ensures a.Num? && b.Num? ==> r.Num? && r.v >= a.v && r.v >= b.v && (r == a || r == b)
    ensures b.PyNaN? ==> r == a
  {
    if PyLess(a, b) then b else a
  }

  /** The clamp `max(0.0, min(ps, n))` under Python's comparisons. */
  function PyClamp(ps: real, n: PyFloat): (c: PyFloat)
    ensures c.Num?
    ensures n.PyNaN? ==> c.v == (if ps > 0.0 then ps else 0.0)
    ensures n.Num? ==> c.v == ClampToPoints(n.v, ps)
  {
    PyMax(Num(0.0), PyMin(Num(ps), n))
  }

  /** `calculate_normalized_score` exactly as written: a NaN metric flows
      through the arithmetic and then through `max(0.0, min(ps, nan))`,
      which yields `max(0.0, ps)`. */
  function NormalizedScoreAsWritten(value: RawValue, cfg: ScoringConfig): (r: real)
  {
    if value.NotNumeric? || cfg.metricMax == cfg.metricMin then 0.0
    else
      var ps := cfg.pointsForPerfectScore;
      match value
      case NaN => PyClamp(ps, PyNaN).v
      case Finite(x) => PyClamp(ps, Num(Fraction(x, cfg) * ps)).v
  }

  /** The discrepancy: a missing score earns the full points as written,
      where the intended normaliser gives it nothing. */
  lemma MissingScoreEarnsFullPoints(cfg: ScoringConfig)
    requires cfg.metricMax != cfg.metricMin && cfg.pointsForPerfectScore > 0.0
    ensures NormalizedScoreAsWritten(NaN, cfg) == cfg.pointsForPerfectScore
    ensures NormalizedScore(NaN, cfg) == 0.0
  {
  }

  /** On every input other than NaN the code as written and the intended
      normaliser agree. */
  lemma AsWrittenAgreesOnNumbers(value: RawValue, cfg: ScoringConfig)
    requires !value.NaN?
    ensures NormalizedScoreAsWritten(value, cfg) == NormalizedScore(value, cfg)
  {
  }

  // ----- competition slug -----

  /** The slug passed to the Kaggle client: an id starting with `http` is
      reduced to its last path segment after trailing slashes are removed;
      any other id is used as it is. */
  function KaggleSlug(id: string): (slug: string)
    ensures !StartsWith(id, "http") ==> slug == id
    ensures StartsWith(id, "http") ==>
      var t := TrimEndChar(id, '/');
      && '/' !in slug
      && |slug| <= |t| && t[|t| - |slug|..] == slug
      && (|slug| < |t| ==> t[|t| - |slug| - 1] == '/')
  {
    if StartsWith(id, "http") then
      var parts := SplitOn(TrimEndChar(id, '/'), '/');
      JoinLast(parts, "/");
      parts[|parts| - 1]
    else id
  }

  // ----- CSV rows and user resolution -----

  /** The `Score` cell: a number, an empty cell (NaN), or text `float()`
      rejects. */
  datatype ScoreCell = Number(x: real) | Missing | Unparseable

  /** The `LastSubmissionDate` cell: absent, a timestamp, or text
      `pd.to_datetime` rejects. */
  datatype DateCell = NoDate | Date(t: int) | BadDate

  /** The columns of one Kaggle CSV row that the sync reads. */
  datatype CsvRow = CsvRow(
    rank: int,
    teamName: string,
    score: ScoreCell,
    submissionDate: DateCell,
    teamMemberUserNames: Option<string>)

  function RawScore(c: ScoreCell): (v: RawValue)
    ensures c.Number? <==> v.Finite?
  {
    match c
    case Number(x) => Finite(x)
    case Missing => NaN
    case Unparseable => NotNumeric
  }

  /** A row on which the loop raises: `float()` of the score or the date
      conversion fails. */
  predicate RowFails(row: CsvRow) {
    row.score.Unparseable? || row.submissionDate.BadDate?
  }

  /** The team-member usernames, split on commas and stripped; none when
      the cell is empty or missing. */
  function MemberNames(cell: Option<string>): (names: seq<string>)
    ensures cell.None? || cell == Some("") ==> names == []
    ensures cell.Some? && cell.value != "" ==> |names| > 0
  {
    match cell
    case None => []
    case Some(s) =>
      if s == "" then []
      else
        var parts := SplitOn(s, ',');
        seq(|parts|, k requires 0 <= k < |parts| => Strip(parts[k]))
  }

  /** A non-empty cell has one name per comma-separated piece: one more
      than the commas in the cell. */
  lemma MemberNamesCount(s: string)
    requires s != ""
    ensures |MemberNames(Some(s))| == |SplitOn(s, ',')| == CountChar(s, ',') + 1
  {
    SplitOnCount(s, ',');
  }

  /** A non-empty cell holds the names separated by commas: the names are
      the comma-separated pieces of the cell, in order, each stripped, so
      that no name holds a comma or starts or ends with whitespace. */
  lemma MemberNamesArePieces(s: string)
    requires s != ""
    ensures var names := MemberNames(Some(s)); var pieces := SplitOn(s, ',');
      && Join(pieces, [',']) == s
      && |names| == |pieces|
      && forall k :: 0 <= k < |names| ==>
           && names[k] == Strip(pieces[k])
           && ',' !in names[k]
           && (names[k] != "" ==> !IsSpace(names[k][0]) && !IsSpace(names[k][|names[k]| - 1]))
  {
    var names := MemberNames(Some(s));
    var pieces := SplitOn(s, ',');
    assert names == seq(|pieces|, k requires 0 <= k < |pieces| => Strip(pieces[k]));
    forall k | 0 <= k < |names|
      ensures names[k] == Strip(pieces[k])
      ensures ',' !in names[k]
      ensures names[k] != "" ==> !IsSpace(names[k][0]) && !IsSpace(names[k][|names[k]| - 1])
    {
      StrippedPiece(pieces[k], ',');
    }
  }

  /** Whether `name` is some registered user's username. */
  predicate IsUsername(users: seq<UserRow>, name: string) {
    IdByUsername(users, name).Some?
  }

  /** The position of the first name in `names` that is a registered
      username, `|names|` when none is. */
  function FirstKnownIndex(users: seq<UserRow>, names: seq<string>): (k: nat)
    ensures k <= |names|
    ensures k < |names| ==> IsUsername(users, names[k])
    ensures forall j :: 0 <= j < k ==> !IsUsername(users, names[j])
  {
    if |names| == 0 then 0
    else if IsUsername(users, names[0]) then 0
    else
      var k := FirstKnownIndex(users, names[1..]);
      assert forall j :: 1 <= j < |names| ==> names[j] == names[1..][j - 1];
      1 + k
  }

  /** The user a row belongs to, as the loop looks it up: each team member
      in order, stopping at the first registered one; failing that, the
      team name; failing that, nobody. */
  function ResolveUser(users: seq<UserRow>, row: CsvRow): Option<UserId> {
    var names := MemberNames(row.teamMemberUserNames);
    var k := FirstKnownIndex(users, names);
    if k < |names| then IdByUsername(users, names[k])
    else IdByUsername(users, row.teamName)
  }

  /** The resolution order: the first registered team member wins; only
      when none is registered is the team name tried; a row stays unlinked
      exactly when neither matches anyone. */
  lemma ResolveUserOrder(users: seq<UserRow>, row: CsvRow)
    ensures var names := MemberNames(row.teamMemberUserNames); var r := ResolveUser(users, row);
      && (r.None? <==>
            (forall k :: 0 <= k < |names| ==> !IsUsername(users, names[k])) && !IsUsername(users, row.teamName))
      && (forall k :: (0 <= k < |names| && IsUsername(users, names[k])
            && (forall j :: 0 <= j < k ==> !IsUsername(users, names[j]))) ==> r == IdByUsername(users, names[k]))
      && ((forall k :: 0 <= k < |names| ==> !IsUsername(users, names[k])) ==> r == IdByUsername(users, row.teamName))
  {
    var names := MemberNames(row.teamMemberUserNames);
    var k := FirstKnownIndex(users, names);
    forall k' | 0 <= k' < |names| && IsUsername(users, names[k'])
      && (forall j :: 0 <= j < k' ==> !IsUsername(users, names[j]))
      ensures k' == k
    {
    }
  }

  /** A resolved user really has one of the row's names as username. */
  lemma ResolvedUserHasRowName(users: seq<UserRow>, row: CsvRow)
    requires ResolveUser(users, row).Some?
    ensures var names := MemberNames(row.teamMemberUserNames);
      exists i :: 0 <= i < |users| && users[i].id == ResolveUser(users, row).value
        && (users[i].username in names || users[i].username == row.teamName)
  {
    var names := MemberNames(row.teamMemberUserNames);
    var k := FirstKnownIndex(users, names);
    var name := if k < |names| then names[k] else row.teamName;
    var i :| 0 <= i < |users| && users[i].username == name && users[i].id == IdByUsername(users, name).value;
    assert users[i].id == ResolveUser(users, row).value;
  }

  // ----- standings and the upsert -----

  /** The unique key of a standing: a registered user's entry in a
      competition, or a Kaggle-only team's entry (null user, keyed by the
      team name). */
  datatype StandingKey = Linked(competition: CompetitionId, user: UserId) | Unlinked(competition: CompetitionId, teamName: string)

  /** The fields the sync writes into a standing. */
  datatype Standing = Standing(score: real, rank: int, kaggleTeamName: string, submissionDate: Option<int>)

  /** What every row of one sync shares: the competition, its scoring
      configuration and the users table. */
  datatype SyncContext = SyncContext(competition: CompetitionId, config: ScoringConfig, users: seq<UserRow>)

  /** The key a row is upserted under: the resolved user's, or the team
      name's when the row stays unlinked. */
  function KeyOf(ctx: SyncContext, row: CsvRow): (k: StandingKey)
    ensures k.competition == ctx.competition
    ensures k.Linked? <==> ResolveUser(ctx.users, row).Some?
    ensures k.Linked? ==> Some(k.user) == ResolveUser(ctx.users, row)
    ensures k.Unlinked? ==> k.teamName == row.teamName
  {
    match ResolveUser(ctx.users, row)
    case Some(u) => Linked(ctx.competition, u)
    case None => Unlinked(ctx.competition, row.teamName)
  }

  function StandingOf(ctx: SyncContext, row: CsvRow): (s: Standing)
    ensures s.score == NormalizedScore(RawScore(row.score), ctx.config)
    ensures s.rank == row.rank && s.kaggleTeamName == row.teamName
    ensures row.submissionDate.Date? <==> s.submissionDate.Some?
    ensures row.submissionDate.Date? ==> s.submissionDate.value == row.submissionDate.t
  {
    Standing(
      NormalizedScore(RawScore(row.score), ctx.config),
      row.rank,
      row.teamName,
      if row.submissionDate.Date? then Some(row.submissionDate.t) else None)
  }

  /** The stored score against the code's own arithmetic: the same on every
      row whose score cell is not empty; on an empty cell (NaN) the code
      stores the full points where the model stores 0. */
  lemma StandingScoreAgainstCode(ctx: SyncContext, row: CsvRow)
    ensures !row.score.Missing? ==>
      StandingOf(ctx, row).score == NormalizedScoreAsWritten(RawScore(row.score), ctx.config)
    ensures row.score.Missing? && ctx.config.metricMax != ctx.config.metricMin && ctx.config.pointsForPerfectScore > 0.0 ==>
      && StandingOf(ctx, row).score == 0.0
      && NormalizedScoreAsWritten(RawScore(row.score), ctx.config) == ctx.config.pointsForPerfectScore
  {
    if !row.score.Missing? {
      AsWrittenAgreesOnNumbers(RawScore(row.score), ctx.config);
    } else if ctx.config.metricMax != ctx.config.metricMin && ctx.config.pointsForPerfectScore > 0.0 {
      MissingScoreEarnsFullPoints(ctx.config);
    }
  }

  /** One `update_or_create`: the key looked up and the fields written. */
  datatype Write = Write(key: StandingKey, standing: Standing)

  function WriteOf(ctx: SyncContext, row: CsvRow): (w: Write)
    ensures w.key == KeyOf(ctx, row) && w.standing == StandingOf(ctx, row)
  {
    Write(KeyOf(ctx, row), StandingOf(ctx, row))
  }

  /** The writes the rows ask for, one per row, in row order. */
  function Writes(ctx: SyncContext, rows: seq<CsvRow>): (ws: seq<Write>)
    ensures |ws| == |rows|
    decreases |rows|
  {
    if |rows| == 0 then [] else Writes(ctx, rows[..|rows| - 1]) + [WriteOf(ctx, rows[|rows| - 1])]
  }

  /** Write `i` is the one row `i` asks for. */
  lemma {:induction false} WritesAt(ctx: SyncContext, rows: seq<CsvRow>, i: nat)
    requires i < |rows|
    ensures Writes(ctx, rows)[i] == WriteOf(ctx, rows[i])
    decreases |rows|
  {
    var front := rows[..|rows| - 1];
    assert Writes(ctx, rows) == Writes(ctx, front) + [WriteOf(ctx, rows[|rows| - 1])];
    if i < |rows| - 1 {
      WritesAt(ctx, front, i);
      assert front[i] == rows[i];
    }
  }

  /** The standings after the writes are applied in order: each one creates
      its key or overwrites what is stored under it. */
  function Upserted(m: map<StandingKey, Standing>, ws: seq<Write>): map<StandingKey, Standing>
    decreases |ws|
  {
    if |ws| == 0 then m
    else
      var last := ws[|ws| - 1];
      Upserted(m, ws[..|ws| - 1])[last.key := last.standing]
  }

  /** The index of the first row on which the loop raises, or the number of
      rows when none does. */
  function FirstFailure(rows: seq<CsvRow>): (i: nat)
    ensures i <= |rows|
    ensures i < |rows| ==> RowFails(rows[i])
    ensures forall j :: 0 <= j < i ==> !RowFails(rows[j])
  {
    if |rows| == 0 then 0
    else if RowFails(rows[0]) then 0
    else
      var i := FirstFailure(rows[1..]);
      assert forall j :: 1 <= j < |rows| ==> rows[j] == rows[1..][j - 1];
      1 + i
  }

  /** Below the first failure, a row fails exactly when it is the first
      failure. */
  lemma FailsOnlyAtFirstFailure(rows: seq<CsvRow>, i: nat)
    requires i <= FirstFailure(rows) && i < |rows|
    ensures RowFails(rows[i]) <==> i == FirstFailure(rows)
  {
  }

  lemma WritesOfLonger(ctx: SyncContext, rows: seq<CsvRow>, i: nat)
    requires i < |rows|
    ensures Writes(ctx, rows[..i + 1]) == Writes(ctx, rows[..i]) + [WriteOf(ctx, rows[i])]
  {
    assert rows[..i + 1][..i] == rows[..i];
  }

  lemma UpsertedOneMore(m: map<StandingKey, Standing>, ws: seq<Write>, w: Write)
    ensures Upserted(m, ws + [w]) == Upserted(m, ws)[w.key := w.standing]
  {
    assert (ws + [w])[..|ws|] == ws;
  }

  /** The upsert creates entries exactly for the written keys and nothing
      else. */
  lemma {:induction false} UpsertedKeys(m: map<StandingKey, Standing>, ws: seq<Write>, k: StandingKey)
    ensures k in Upserted(m, ws) <==> k in m || exists i :: 0 <= i < |ws| && ws[i].key == k
    decreases |ws|
  {
    if |ws| > 0 {
      var front := ws[..|ws| - 1];
      UpsertedKeys(m, front, k);
      if exists i :: 0 <= i < |ws| && ws[i].key == k {
        var i :| 0 <= i < |ws| && ws[i].key == k;
        if i < |front| {
          assert front[i].key == k;
        }
      }
      if exists i :: 0 <= i < |front| && front[i].key == k {
        var i :| 0 <= i < |front| && front[i].key == k;
        assert ws[i].key == k;
      }
    }
  }

  /** A key nothing writes keeps the value it had. */
  lemma {:induction false} UpsertedUntouched(m: map<StandingKey, Standing>, ws: seq<Write>, k: StandingKey)
    requires k in m
    requires forall i :: 0 <= i < |ws| ==> ws[i].key != k
    ensures k in Upserted(m, ws) && Upserted(m, ws)[k] == m[k]
    decreases |ws|
  {
    if |ws| > 0 {
      var front := ws[..|ws| - 1];
      assert forall i :: 0 <= i < |front| ==> front[i] == ws[i];
      UpsertedUntouched(m, front, k);
    }
  }

  /** The value under a key is the one of the last write to it: a later row
      overwrites an earlier one. */
  lemma {:induction false} UpsertedLastWins(m: map<StandingKey, Standing>, ws: seq<Write>, j: nat)
    requires j < |ws|
    requires forall i :: j < i < |ws| ==> ws[i].key != ws[j].key
    ensures ws[j].key in Upserted(m, ws)
    ensures Upserted(m, ws)[ws[j].key] == ws[j].standing
    decreases |ws|
  {
    if j < |ws| - 1 {
      var front := ws[..|ws| - 1];
      assert forall i :: 0 <= i < |front| ==> front[i] == ws[i];
      UpsertedLastWins(m, front, j);
    }
  }

  /** Two rows of one CSV that resolve to the same user, or that both stay
      unlinked under the same team name, land in a single standing. */
  lemma OneStandingPerKey(ctx: SyncContext, r1: CsvRow, r2: CsvRow)
    ensures ResolveUser(ctx.users, r1).Some? && ResolveUser(ctx.users, r1) == ResolveUser(ctx.users, r2)
      ==> KeyOf(ctx, r1) == KeyOf(ctx, r2)
    ensures ResolveUser(ctx.users, r1).None? && ResolveUser(ctx.users, r2).None? && r1.teamName == r2.teamName
      ==> KeyOf(ctx, r1) == KeyOf(ctx, r2)
    ensures ResolveUser(ctx.users, r1).Some? != ResolveUser(ctx.users, r2).Some?
      ==> KeyOf(ctx, r1) != KeyOf(ctx, r2)
  {
  }

  /** The standings table of the leaderboard, keyed as the upsert keys it. */
  class StandingsTable {
    var entries: map<StandingKey, Standing>

    constructor ()
      ensures entries == map[]
    {
      entries := map[];
    }

    /** `process_csv_and_update_db` after the CSV is read: every row before
        the first one that raises is upserted, in order, and stays written;
        the result is the number of rows upserted (created plus updated), or
        0 when a row raised. */
    method ProcessCsvAndUpdateDb(ctx: SyncContext, csv: seq<CsvRow>) returns (processed: nat)
      modifies this
      ensures entries == Upserted(old(entries), Writes(ctx, csv[..FirstFailure(csv)]))
      ensures processed == if FirstFailure(csv) == |csv| then |csv| else 0
    {
      var created := 0;
      var updated := 0;
      var i := 0;
      while i < |csv|
        invariant 0 <= i <= FirstFailure(csv)
        invariant created + updated == i
        invariant entries == Upserted(old(entries), Writes(ctx, csv[..i]))
      {
        var row := csv[i];
        FailsOnlyAtFirstFailure(csv, i);
        if RowFails(row) {
          return 0;
        }
        var w := WriteOf(ctx, row);
        var isNew := w.key !in entries;
        entries := entries[w.key := w.standing];
        if isNew {
          created := created + 1;
        } else {
          updated := updated + 1;
        }
        WritesOfLonger(ctx, csv, i);
        UpsertedOneMore(old(entries), Writes(ctx, csv[..i]), w);
        i := i + 1;
      }
      assert csv[..i] == csv;
      processed := created + updated;
    }
  }
}
