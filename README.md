# Trading-system Monte Carlo simulation — Dafny model

This project models the simulation engine of a small trading-system Monte
Carlo app. The app takes a starting account balance, a way to size the risk
of each trade (a fixed dollar amount, or a percentage of the account), a win
rate, a reward-to-risk ratio, a number of trades per run and a number of runs.
It then replays `numRuns` random sequences of `numTrades` trades. Each run
starts over at the initial balance. A trade wins when a uniform draw in
[0, 1) is below the win rate. A win adds `rrRatio * riskPerTrade` to the
balance and a loss subtracts `riskPerTrade`. The balance after every trade is
recorded in the run's history.

Everything is in `monte_carlo_sim.dfy`, module `MonteCarloSim`:

- `Settings` holds the widget values, `Prepare` turns them into the
  `SimParams` the loops read, `RiskPerTrade` is the sizing rule and `WinRate`
  is the percent-to-fraction scaling.
- `History` and `Batch` are the specification functions of one run and of the
  batch. `SimulateRun` and `SimulateBatch` are the loops. They build their
  histories by appending, as the program does, and are proved equal to those
  functions.
- The random generator is an explicit stream of draws (`seq<real>`). It is
  read through one cursor that carries on from run to run, because the program
  seeds its generator once before the batch. The draw for run `r`, trade `t`
  is `stream[r * numTrades + t]`. Runs are a function of the stream, so the
  same stream always gives the same batch.
- Money is `real`.

Percent-of-account sizing computes `initial_balance * (risk_pct / 100)` once,
before the runs (monte_carlo_sim.py:31). Every trade of every run then stakes
that amount, not a share of the current balance; `RiskFixedAcrossBatch` and
`PercentStakeExample` state this.

## Model

| member | source | states |
|---|---|---|
| `MonteCarloSim.RiskPerTrade` | monte_carlo_sim.py:27-31 | dollar mode stakes the entered amount; in percent mode, with a positive initial balance and a percentage in (0, 100], the stake is positive and at most the whole initial balance |
| `MonteCarloSim.WinRate` | monte_carlo_sim.py:33 | the slider's percentage in [0, 100] becomes a win rate in [0, 1] that is exactly one hundredth of it |
| `MonteCarloSim.Prepare` | monte_carlo_sim.py:24-36 | the loop parameters carry the settings unchanged, except that the stake comes from the sizing rule and the win rate is the scaled slider value in [0, 1] |
| `MonteCarloSim.IsWin` | monte_carlo_sim.py:49 | a trade wins when its draw is strictly below the win rate; for a draw in [0, 1), win rate 1 always wins and win rate 0 never does (its effect on the balance is stated by `HistoryStep`) |
| `MonteCarloSim.Pnl` | monte_carlo_sim.py:50 | with a positive stake and reward, a trade's profit is positive exactly when it wins, and a loss costs exactly the stake (its effect on the balance is stated by `HistoryStep`) |
| `MonteCarloSim.History` | monte_carlo_sim.py:46-52 | a run over n draws has n + 1 balances and starts at the initial balance |
| `MonteCarloSim.Wins` | monte_carlo_sim.py:49 | the number of winning trades is at most the number of trades |
| `MonteCarloSim.Losses` | monte_carlo_sim.py:49-50 | the number of losing trades (draw at or above the win rate) is at most the number of trades |
| `MonteCarloSim.WinsAndLosses` | monte_carlo_sim.py:49-50 | every trade is a win or a loss: wins + losses is the number of trades |
| `MonteCarloSim.HistoryPrefix` | monte_carlo_sim.py:47-52 | replaying the first k draws yields the first k + 1 balances of the full history: the history only grows by appending |
| `MonteCarloSim.HistoryStep` | monte_carlo_sim.py:49-52 | for every trade i, `h[i+1] - h[i]` is `rrRatio * riskPerTrade` when draw i is below the win rate and `-riskPerTrade` otherwise, whatever the balance before it (no floor, no resizing) |
| `MonteCarloSim.TerminalBalance` | monte_carlo_sim.py:46-52 | the last balance is `initial + wins * rrRatio * risk - (n - wins) * risk` for n trades, the n - wins being the losing trades (`WinsAndLosses`) |
| `MonteCarloSim.AllWin` | monte_carlo_sim.py:33-49 | with draws in [0, 1) and win rate 1, every trade wins |
| `MonteCarloSim.AllLose` | monte_carlo_sim.py:33-49 | with draws in [0, 1) and win rate 0, no trade wins |
| `MonteCarloSim.WinningStep` | monte_carlo_sim.py:49-52 | at win rate 1 with a positive stake and reward, each trade raises the balance |
| `MonteCarloSim.CertainWin` | monte_carlo_sim.py:33-52 | at win rate 1 every trade wins, and with a positive stake and reward the history is strictly increasing (any earlier balance is below any later one) |
| `MonteCarloSim.CertainLoss` | monte_carlo_sim.py:33-52 | at win rate 0 every trade loses, and with a positive stake the history is strictly decreasing |
| `MonteCarloSim.CertainLossTerminal` | monte_carlo_sim.py:46-52 | when every trade loses, the terminal balance is the initial balance minus one stake per trade |
| `MonteCarloSim.BalanceGoesNegative` | monte_carlo_sim.py:48-52 | the balance is never clamped: enough losing trades end the run below zero |
| `MonteCarloSim.Batch` | monte_carlo_sim.py:45-52 | the batch of k runs holds exactly k histories |
| `MonteCarloSim.BatchRun` | monte_carlo_sim.py:45-52 | run r of the batch is the run over its own slice of the stream; it has numTrades + 1 balances and restarts from the initial balance, whatever earlier runs ended with |
| `MonteCarloSim.RunDependsOnlyOnItsDraws` | monte_carlo_sim.py:42-49 | two streams that agree on run r's draws give run r the same history: runs depend on one another only through the position in the shared stream |
| `MonteCarloSim.BatchStep` | monte_carlo_sim.py:45-52 | run r reads draws `r*numTrades + i` of the shared stream, in order: trade i of run r moves that run's balance by the win or loss amount chosen by draw `r*numTrades + i` |
| `MonteCarloSim.RiskFixedAcrossBatch` | monte_carlo_sim.py:27-52 | from the settings, every trade of every run moves the balance by `rrRatio * risk` or `-risk`, where risk is the dollar amount, or `initialBalance * pct / 100` in percent mode — never a share of the current balance |
| `MonteCarloSim.PercentStakeExample` | monte_carlo_sim.py:27-52 | from 50000 at 2% and ratio 1.1, a win then a loss give [50000, 51100, 50100]; the loss is 1000, not 2% of the 51100 held before it |
| `MonteCarloSim.SimulateRun` | monte_carlo_sim.py:46-52 | the loop returns exactly `History` of the n draws read from the cursor on, and leaves the cursor n draws further on |
| `MonteCarloSim.SimulateBatch` | monte_carlo_sim.py:42-52 | the nested loops return exactly `Batch` of numRuns runs, consume numRuns * numTrades draws, and every history has numTrades + 1 balances starting at the initial balance |

## Left out

- Streamlit widgets, the CSS override, the title and headers (monte_carlo_sim.py:1-36, 39): user interface. Only the values the widgets produce are modelled, as `Settings`.
- The widgets' own ranges (50 to 1000 trades, 1 to 50 runs), and the fact that the number inputs accept any number: the model takes any `nat`/`real` there. It requires only the win-rate slider's range [0, 100], which `WinRate` needs.
- Plotting: the grey colour cycle, the per-run line, the reference line at the initial balance and the figure (monte_carlo_sim.py:41, 44, 53-61): presentation only.
- numpy's generator and `np.random.seed(42)` (monte_carlo_sim.py:42, 49): a foreign library. It is replaced by an explicit stream of draws. That stream is finite, so the loops require at least `numRuns * numTrades` draws. The boundary lemmas assume draws in [0, 1), as the generator's are.
- IEEE-754 rounding, and Python's int-versus-float distinction for the balance and the dollar stake: all money is exact `real`.
- Drawdown tracking, summary statistics and loss probability: the code does not compute them.
