/** A model of the trading-system Monte Carlo simulation: the risk-sizing rule,
    the win-rate scaling, and the batch of runs that each replay a sequence of
    trades from the initial balance, drawing from one shared random stream.

    Money is `real`. The random generator is an explicit stream of draws; the
    draw for run `r`, trade `t` is `stream[r * numTrades + t]`. */
module MonteCarloSim {

  // ---------------------------------------------------------------------------
  // Parameters
  // ---------------------------------------------------------------------------

  /** The risk-type radio button together with the amount entered beside it. */
  datatype RiskType = DollarAmount(amount: real) | PercentOfAccount(pct: real)

  /** The values the sidebar widgets hand to the simulation. `winRatePct` is the
      slider value in percent. */
  datatype Settings = Settings(
    initialBalance: real,
    riskType: RiskType,
    winRatePct: real,
    rrRatio: real,
    numTrades: nat,
    numRuns: nat)

  /** What the simulation loops read: the risk is already a dollar amount and
      the win rate a fraction. */
  datatype SimParams = SimParams(
    initialBalance: real,
    riskPerTrade: real,
    winRate: real,
    rrRatio: real,
    numTrades: nat,
    numRuns: nat)

  /** The dollar amount risked on every trade. In percent mode it is a fraction
      of the INITIAL balance, computed once before any trade. */
  function RiskPerTrade(initialBalance: real, riskType: RiskType): (r: real)
    ensures riskType.DollarAmount? ==> r == riskType.amount
    ensures (riskType.PercentOfAccount? && initialBalance > 0.0 && 0.0 < riskType.pct <= 100.0)
              ==> 0.0 < r <= initialBalance
  {
    match riskType
    case DollarAmount(amount) => amount
    case PercentOfAccount(pct) =>
      assert 0.0 < pct <= 100.0 && initialBalance > 0.0 ==>
        initialBalance * (pct / 100.0) <= initialBalance * 1.0;
      initialBalance * (pct / 100.0)
  }

  /** The win-rate slider goes from 0 to 100 percent; the loop compares draws
      with the fraction. */
  function WinRate(winRatePct: real): (w: real)
    requires 0.0 <= winRatePct <= 100.0
    ensures 0.0 <= w <= 1.0
    ensures w * 100.0 == winRatePct
  {
    winRatePct / 100.0
  }

  /** Turns the widget values into the parameters the loops use. */
  function Prepare(s: Settings): (p: SimParams)
    requires 0.0 <= s.winRatePct <= 100.0
    ensures 0.0 <= p.winRate <= 1.0 && p.winRate * 100.0 == s.winRatePct
    ensures p.riskPerTrade == RiskPerTrade(s.initialBalance, s.riskType)
    ensures p.initialBalance == s.initialBalance && p.rrRatio == s.rrRatio
    ensures p.numTrades == s.numTrades && p.numRuns == s.numRuns
  {
    SimParams(s.initialBalance, RiskPerTrade(s.initialBalance, s.riskType),
              WinRate(s.winRatePct), s.rrRatio, s.numTrades, s.numRuns)
  }

  // ---------------------------------------------------------------------------
  // Specification of one run
  // ---------------------------------------------------------------------------

  /** A trade wins when its draw is strictly below the win rate. For a draw in
      [0, 1), a win rate of 1 always wins and a win rate of 0 never does. */
  function IsWin(p: SimParams, draw: real): (win: bool)
    ensures 0.0 <= draw < 1.0 && p.winRate >= 1.0 ==> win
    ensures 0.0 <= draw && p.winRate <= 0.0 ==> !win
  {
    draw < p.winRate
  }

  /** Profit or loss of one trade. With a positive stake and reward, the
      balance rises exactly when the trade wins, and it falls by the stake
      otherwise. */
  function Pnl(p: SimParams, draw: real): (pnl: real)
    ensures p.riskPerTrade > 0.0 && p.rrRatio > 0.0 ==> (pnl > 0.0 <==> IsWin(p, draw))
    ensures !IsWin(p, draw) ==> pnl == -p.riskPerTrade
  {
    if IsWin(p, draw) then
      assert p.riskPerTrade > 0.0 && p.rrRatio > 0.0 ==> p.rrRatio * p.riskPerTrade > 0.0;
      p.rrRatio * p.riskPerTrade
    else -p.riskPerTrade
  }

  /** The balance history of one run that consumes `draws`, one per trade:
      the initial balance followed by the balance after each trade. */
  function History(p: SimParams, draws: seq<real>): (h: seq<real>)
    ensures |h| == |draws| + 1 && h[0] == p.initialBalance
    decreases |draws|
  {
    if |draws| == 0 then [p.initialBalance]
    else
      var prev := History(p, draws[..|draws| - 1]);
      prev + [prev[|prev| - 1] + Pnl(p, draws[|draws| - 1])]
  }

  /** The number of winning trades among `draws`. */
  function Wins(p: SimParams, draws: seq<real>): (w: nat)
    ensures w <= |draws|
    decreases |draws|
  {
    if |draws| == 0 then 0
    else Wins(p, draws[..|draws| - 1]) + (if IsWin(p, draws[|draws| - 1]) then 1 else 0)
  }

  /** The number of losing trades among `draws`: those whose draw is at or
      above the win rate. */
  function Losses(p: SimParams, draws: seq<real>): (l: nat)
    ensures l <= |draws|
    decreases |draws|
  {
    if |draws| == 0 then 0
    else Losses(p, draws[..|draws| - 1]) + (if draws[|draws| - 1] >= p.winRate then 1 else 0)
  }

  /** Every draw of the stream lies in [0, 1), as the uniform generator's do. */
  predicate DrawsInUnitInterval(draws: seq<real>) {
    forall i :: 0 <= i < |draws| ==> 0.0 <= draws[i] < 1.0
  }

  predicate StrictlyIncreasing(h: seq<real>) {
    forall i, j :: 0 <= i < j < |h| ==> h[i] < h[j]
  }

  predicate StrictlyDecreasing(h: seq<real>) {
    forall i, j :: 0 <= i < j < |h| ==> h[i] > h[j]
  }

  // ---------------------------------------------------------------------------
  // Properties of one run
  // ---------------------------------------------------------------------------

  /** Replaying a prefix of the draws gives a prefix of the history. */
  lemma {:induction false} HistoryPrefix(p: SimParams, draws: seq<real>, k: nat)
    requires k <= |draws|
    ensures History(p, draws[..k]) == History(p, draws)[..k + 1]
    decreases |draws|
  {
    if k < |draws| {
      var init := draws[..|draws| - 1];
      assert init[..k] == draws[..k];
      HistoryPrefix(p, init, k);
    } else {
      assert draws[..k] == draws;
    }
  }

  /** Each trade moves the balance by exactly `rrRatio * riskPerTrade` on a win
      and by `-riskPerTrade` on a loss, whatever the balance was before (in
      particular the balance is never clamped at zero). */
  lemma {:induction false} HistoryStep(p: SimParams, draws: seq<real>, i: nat)
    requires i < |draws|
    ensures var h := History(p, draws);
      h[i + 1] - h[i] == (if draws[i] < p.winRate then p.rrRatio * p.riskPerTrade else -p.riskPerTrade)
    decreases |draws|
  {
    var init := draws[..|draws| - 1];
    if i < |draws| - 1 {
      HistoryStep(p, init, i);
      assert History(p, draws)[..|draws|] == History(p, init);
      assert History(p, draws)[i + 1] == History(p, init)[i + 1];
      assert History(p, draws)[i] == History(p, init)[i];
    }
  }

  /** Every trade is either a win or a loss. */
  lemma {:induction false} WinsAndLosses(p: SimParams, draws: seq<real>)
    ensures Wins(p, draws) + Losses(p, draws) == |draws|
    decreases |draws|
  {
    if |draws| > 0 {
      WinsAndLosses(p, draws[..|draws| - 1]);
    }
  }

  /** Closed form of the terminal balance: the initial balance plus the gains
      of the winning trades minus the stakes of the losing ones. The losing
      trades are the other `|draws| - Wins` trades (`WinsAndLosses`). */
  lemma {:induction false} TerminalBalance(p: SimParams, draws: seq<real>)
    ensures var h := History(p, draws);
      var wins := Wins(p, draws);
      h[|draws|] == p.initialBalance + (wins as real) * p.rrRatio * p.riskPerTrade
                                     - ((|draws| - wins) as real) * p.riskPerTrade
    decreases |draws|
  {
    if |draws| > 0 {
      TerminalBalance(p, draws[..|draws| - 1]);
    }
  }

  /** A sequence that rises at every step rises between any two positions. */
  lemma {:induction false} IncreasingFromSteps(h: seq<real>, i: nat, j: nat)
    requires forall k :: 0 <= k < |h| - 1 ==> h[k] < h[k + 1]
    requires i < j < |h|
    ensures h[i] < h[j]
    decreases j - i
  {
    if i + 1 < j {
      IncreasingFromSteps(h, i + 1, j);
    }
  }

  /** A sequence that falls at every step falls between any two positions. */
  lemma {:induction false} DecreasingFromSteps(h: seq<real>, i: nat, j: nat)
    requires forall k :: 0 <= k < |h| - 1 ==> h[k] > h[k + 1]
    requires i < j < |h|
    ensures h[i] > h[j]
    decreases j - i
  {
    if i + 1 < j {
      DecreasingFromSteps(h, i + 1, j);
    }
  }

  /** With draws in [0, 1), a win rate of 1 makes every trade a win; with a
      positive stake and reward the history is strictly increasing. */
  lemma CertainWin(p: SimParams, draws: seq<real>)
    requires DrawsInUnitInterval(draws) && p.winRate == 1.0
    ensures Wins(p, draws) == |draws|
    ensures p.rrRatio > 0.0 && p.riskPerTrade > 0.0 ==> StrictlyIncreasing(History(p, draws))
  {
    AllWin(p, draws);
    var h := History(p, draws);
    if p.rrRatio > 0.0 && p.riskPerTrade > 0.0 {
      forall k | 0 <= k < |h| - 1 ensures h[k] < h[k + 1] {
        WinningStep(p, draws, k);
      }
      forall i, j | 0 <= i < j < |h| ensures h[i] < h[j] {
        IncreasingFromSteps(h, i, j);
      }
    }
  }

  /** A trade whose draw is below a win rate of 1 raises the balance. */
  lemma WinningStep(p: SimParams, draws: seq<real>, k: nat)
    requires DrawsInUnitInterval(draws) && p.winRate == 1.0
    requires p.rrRatio > 0.0 && p.riskPerTrade > 0.0 && k < |draws|
    ensures History(p, draws)[k] < History(p, draws)[k + 1]
  {
    HistoryStep(p, draws, k);
    assert draws[k] < p.winRate;
    assert 0.0 < p.rrRatio * p.riskPerTrade;
  }

  lemma {:induction false} AllWin(p: SimParams, draws: seq<real>)
    requires DrawsInUnitInterval(draws) && p.winRate == 1.0
    ensures Wins(p, draws) == |draws|
    decreases |draws|
  {
    if |draws| > 0 {
      AllWin(p, draws[..|draws| - 1]);
    }
  }

  lemma {:induction false} AllLose(p: SimParams, draws: seq<real>)
    requires DrawsInUnitInterval(draws) && p.winRate == 0.0
    ensures Wins(p, draws) == 0
    decreases |draws|
  {
    if |draws| > 0 {
      AllLose(p, draws[..|draws| - 1]);
    }
  }

  /** With draws in [0, 1), a win rate of 0 makes every trade a loss; with a
      positive stake the history is strictly decreasing. */
  lemma CertainLoss(p: SimParams, draws: seq<real>)
    requires DrawsInUnitInterval(draws) && p.winRate == 0.0
    ensures Wins(p, draws) == 0
    ensures p.riskPerTrade > 0.0 ==> StrictlyDecreasing(History(p, draws))
  {
    AllLose(p, draws);
    var h := History(p, draws);
    if p.riskPerTrade > 0.0 {
      forall k | 0 <= k < |h| - 1 ensures h[k] > h[k + 1] {
        HistoryStep(p, draws, k);
      }
      forall i, j | 0 <= i < j < |h| ensures h[i] > h[j] {
        DecreasingFromSteps(h, i, j);
      }
    }
  }

  /** When every trade loses, the terminal balance is the initial balance
      minus one stake per trade. */
  lemma {:induction false} CertainLossTerminal(p: SimParams, draws: seq<real>)
    requires DrawsInUnitInterval(draws) && p.winRate == 0.0
    ensures History(p, draws)[|draws|] == p.initialBalance - (|draws| as real) * p.riskPerTrade
    decreases |draws|
  {
    if |draws| > 0 {
      var n := |draws|;
      var init := draws[..n - 1];
      CertainLossTerminal(p, init);
      assert !IsWin(p, draws[n - 1]);
      assert History(p, draws)[n] == History(p, init)[n - 1] - p.riskPerTrade;
      assert ((n - 1) as real) * p.riskPerTrade + p.riskPerTrade == (n as real) * p.riskPerTrade;
    }
  }
  /** The balance is not floored: enough losing trades take it below zero. */
  lemma BalanceGoesNegative(p: SimParams, draws: seq<real>)
    requires DrawsInUnitInterval(draws) && p.winRate == 0.0
    requires (|draws| as real) * p.riskPerTrade > p.initialBalance
    ensures History(p, draws)[|draws|] < 0.0
  {
    CertainLossTerminal(p, draws);
  }

  // ---------------------------------------------------------------------------
  // Specification of the batch
  // ---------------------------------------------------------------------------

  /** Nonlinear helper for `BatchRun` and `SimulateBatch`: multiplying by the
      number of trades keeps the order of run indices. */
  lemma MulMonotone(a: nat, b: nat, n: nat)
    requires a <= b
    ensures a * n <= b * n
  {
    assert b * n - a * n == (b - a) * n;
  }

  /** The draws run `r` consumes from the shared stream. */
  function RunDraws(stream: seq<real>, n: nat, r: nat): (d: seq<real>)
    requires r * n + n <= |stream|
    ensures |d| == n && forall t :: 0 <= t < n ==> d[t] == stream[r * n + t]
  {
    stream[r * n .. r * n + n]
  }

  /** The histories of the first `k` runs, run `r` replaying its own slice of
      the stream from the initial balance. */
  function Batch(p: SimParams, stream: seq<real>, k: nat): (b: seq<seq<real>>)
    requires k * p.numTrades <= |stream|
    ensures |b| == k
    decreases k
  {
    if k == 0 then []
    else
      assert (k - 1) * p.numTrades + p.numTrades == k * p.numTrades;
      Batch(p, stream, k - 1) + [History(p, RunDraws(stream, p.numTrades, k - 1))]
  }

  /** Run `r` of a batch is the run over draws `r * numTrades ..
      r * numTrades + numTrades - 1` of the stream: it starts again from the
      initial balance and holds `numTrades + 1` balances. */
  lemma {:induction false} BatchRun(p: SimParams, stream: seq<real>, k: nat, r: nat)
    requires k * p.numTrades <= |stream| && r < k
    ensures r * p.numTrades + p.numTrades <= |stream|
    ensures Batch(p, stream, k)[r] == History(p, RunDraws(stream, p.numTrades, r))
    ensures |Batch(p, stream, k)[r]| == p.numTrades + 1
    ensures Batch(p, stream, k)[r][0] == p.initialBalance
    decreases k
  {
    MulMonotone(r + 1, k, p.numTrades);
    if r < k - 1 {
      MulMonotone(k - 1, k, p.numTrades);
      BatchRun(p, stream, k - 1, r);
    }
  }

  /** Runs are independent of one another: two streams that agree on the
      draws of run `r` give run `r` the same history, whatever the earlier
      runs drew or ended with. */
  lemma RunDependsOnlyOnItsDraws(p: SimParams, s1: seq<real>, s2: seq<real>, k: nat, r: nat)
    requires k * p.numTrades <= |s1| && k * p.numTrades <= |s2| && r < k
    requires r * p.numTrades + p.numTrades <= |s1| && r * p.numTrades + p.numTrades <= |s2|
    requires s1[r * p.numTrades .. r * p.numTrades + p.numTrades]
          == s2[r * p.numTrades .. r * p.numTrades + p.numTrades]
    ensures Batch(p, s1, k)[r] == Batch(p, s2, k)[r]
  {
    BatchRun(p, s1, k, r);
    BatchRun(p, s2, k, r);
  }

  /** Trade `i` of run `r` in a batch moves that run's balance according to
      draw `r * numTrades + i` of the stream. */
  lemma BatchStep(p: SimParams, stream: seq<real>, k: nat, r: nat, i: nat)
    requires k * p.numTrades <= |stream| && r < k && i < p.numTrades
    ensures r * p.numTrades + i < |stream|
    ensures var h := Batch(p, stream, k)[r];
      |h| == p.numTrades + 1 &&
      h[i + 1] - h[i] == (if stream[r * p.numTrades + i] < p.winRate
                          then p.rrRatio * p.riskPerTrade else -p.riskPerTrade)
  {
    BatchRun(p, stream, k, r);
    var d := RunDraws(stream, p.numTrades, r);
    HistoryStep(p, d, i);
    assert d[i] == stream[r * p.numTrades + i];
  }

  /** Every trade of every run stakes the same amount, fixed by the settings
      alone: in percent mode a fraction of the initial balance, not of the
      balance before the trade. */
  lemma RiskFixedAcrossBatch(s: Settings, stream: seq<real>, r: nat, i: nat)
    requires 0.0 <= s.winRatePct <= 100.0
    requires s.numRuns * s.numTrades <= |stream|
    requires r < s.numRuns && i < s.numTrades
    ensures r * s.numTrades + i < |stream|
    ensures var h := Batch(Prepare(s), stream, s.numRuns)[r];
      var risk := match s.riskType
                  case DollarAmount(amount) => amount
                  case PercentOfAccount(pct) => s.initialBalance * (pct / 100.0);
      |h| == s.numTrades + 1 &&
      h[i + 1] - h[i] == (if stream[r * s.numTrades + i] < s.winRatePct / 100.0
                          then s.rrRatio * risk else -risk)
  {
    var p := Prepare(s);
    assert p.winRate == s.winRatePct / 100.0;
    assert p.riskPerTrade == match s.riskType
                             case DollarAmount(amount) => amount
                             case PercentOfAccount(pct) => s.initialBalance * (pct / 100.0);
    BatchStep(p, stream, s.numRuns, r, i);
  }

  /** Two trades from 50000 with a 2% stake at reward-to-risk 1.1, first a win
      and then a loss: the history is [50000, 51100, 50100]. The second trade
      loses 1000, the stake fixed by the initial balance, rather than 2% of
      the 51100 the account held before it. */
  lemma PercentStakeExample()
    ensures var s := Settings(50000.0, PercentOfAccount(2.0), 50.0, 1.1, 2, 1);
      var h := History(Prepare(s), [0.25, 0.75]);
      h == [50000.0, 51100.0, 50100.0] &&
      h[1] - h[2] == 1000.0 && h[1] * (2.0 / 100.0) == 1022.0
  {
    var s := Settings(50000.0, PercentOfAccount(2.0), 50.0, 1.1, 2, 1);
    var p := Prepare(s);
    var d: seq<real> := [0.25, 0.75];
    assert d[..1] == [0.25];
    assert d[..1][..0] == [];
    assert History(p, d[..1]) == [50000.0, 51100.0];
  }

  // ---------------------------------------------------------------------------
  // The simulation loops
  // ---------------------------------------------------------------------------

  /** One run: starts from the initial balance and reads `numTrades` draws of
      the stream from `cursor` on, appending the balance after each trade.
      Returns the history and the position of the next unread draw. */
  method SimulateRun(p: SimParams, stream: seq<real>, cursor: nat) returns (history: seq<real>, next: nat)
    requires cursor + p.numTrades <= |stream|
    ensures next == cursor + p.numTrades
    ensures history == History(p, stream[cursor..next])
    ensures |history| == p.numTrades + 1 && history[0] == p.initialBalance
  {
    var balance := p.initialBalance;
    history := [balance];
    next := cursor;
    for t := 0 to p.numTrades
      invariant next == cursor + t
      invariant history == History(p, stream[cursor..next])
      invariant balance == history[|history| - 1]
    {
      var win := stream[next] < p.winRate;
      var pnl := if win then p.rrRatio * p.riskPerTrade else -p.riskPerTrade;
      balance := balance + pnl;
      history := history + [balance];
      ghost var run := stream[cursor..next + 1];
      assert run[..|run| - 1] == stream[cursor..next];
      assert run[|run| - 1] == stream[next];
      assert pnl == Pnl(p, stream[next]);
      next := next + 1;
    }
  }

  /** The batch: `numRuns` runs one after another, all reading the one stream,
      each continuing where the previous run stopped. Returns the histories and
      the number of draws consumed. */
  method SimulateBatch(p: SimParams, stream: seq<real>) returns (histories: seq<seq<real>>, consumed: nat)
    requires p.numRuns * p.numTrades <= |stream|
    ensures histories == Batch(p, stream, p.numRuns)
    ensures consumed == p.numRuns * p.numTrades
    ensures |histories| == p.numRuns
    ensures forall r :: 0 <= r < |histories| ==>
      |histories[r]| == p.numTrades + 1 && histories[r][0] == p.initialBalance
  {
    histories := [];
    var cursor := 0;
    for run := 0 to p.numRuns
      invariant cursor == run * p.numTrades
      invariant run * p.numTrades <= |stream|
      invariant histories == Batch(p, stream, run)
    {
      MulMonotone(run + 1, p.numRuns, p.numTrades);
      assert cursor + p.numTrades == (run + 1) * p.numTrades;
      var history;
      history, cursor := SimulateRun(p, stream, cursor);
      assert stream[run * p.numTrades .. run * p.numTrades + p.numTrades]
          == RunDraws(stream, p.numTrades, run);
      histories := histories + [history];
    }
    consumed := cursor;
    forall r | 0 <= r < |histories|
      ensures |histories[r]| == p.numTrades + 1 && histories[r][0] == p.initialBalance
    {
      BatchRun(p, stream, p.numRuns, r);
    }
  }
}
