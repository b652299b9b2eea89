# Tic-tac-toe with minimax, and PageRank by sampling

This project models two small sequential programs and proves properties of
the models.

**Tic-tac-toe (module `TicTacToe`, `tictactoe.dfy`).**
- The board is a 3×3 grid of `X`, `O` and empty cells; an empty cell is `None` in the program.
- Whose turn it is follows from the parity of the empty cells.
- The actions are the empty cells.
- Playing a move writes the mover's mark into a copy of the board, and an illegal move is rejected.
- A board is classified by its winner, whether it is terminal, and its utility.
- An alpha-beta pruned minimax search chooses a move.

The search is proved against the game value. `MaxScore` and `MinScore` give the value of a board when X or O is to choose.
- `MaxValue` returns the utility of a finished board, whatever the bound.
- On an unfinished board, `MaxValue` returns the exact value whenever it falls below the pruning bound. Otherwise it returns the running best at the cut-off, which lies between the bound and the exact value and may exceed the bound (fail-soft alpha-beta).
- `MinValue` is symmetric.
- `Minimax` returns a move that attains the game value for the side to move.

**PageRank (module `PageRank`, `pagerank.dfy`).**
- A corpus maps each page to the set of pages it links to.
- The transition model gives the probability of each next page from a page. It is uniform when the page has no links. Otherwise every page gets `(1 - d) / N`, and each linked page also gets `d / outdegree`.
- The sampling estimate walks the corpus, counting visits. It divides each count by `n`.

Probabilities are exact reals. The random draws of the walk come from an oracle argument:
- `first` is the index of the start page in the list of corpus pages;
- `draws[t]` is the index of the next page in the list of the transition model's pages.

The code counts the start page and then `n` more visits, but divides by `n`. The estimate therefore sums to `(n + 1) / n` rather than to 1, as its docstring claims (`pagerank/pagerank.py:84-85`). The model follows the code; see "Findings".

`Wrappers` (`wrappers.dfy`) holds the `Option` type. `Minimax` returns `None` for a finished game.

## Model

| member | source | states |
|---|---|---|
| TicTacToe.InitialState | tictactoe/tictactoe.py:13-17 | the start board is 3×3 with all nine cells empty |
| TicTacToe.InitialStateFacts | tictactoe/tictactoe.py:13-30 | on the start board all nine cells are moves, X is to move, and the game is not over |
| TicTacToe.Player | tictactoe/tictactoe.py:20-30 | the counting loop returns X exactly when the number of empty cells is odd, and O when it is even |
| TicTacToe.Actions | tictactoe/tictactoe.py:33-42 | the loop collects exactly the in-range pairs (i, j) whose cell is empty; a full board gives the empty set |
| TicTacToe.Play | tictactoe/tictactoe.py:52-57 | the new board is still 3×3; cell (i, j) holds the mark of the side to move; every other cell is unchanged; the moves left are the old moves minus the one played |
| TicTacToe.PlayAlternates | tictactoe/tictactoe.py:20-30 | after a move it is the opponent's turn |
| TicTacToe.Result | tictactoe/tictactoe.py:45-57 | a move outside the actions is rejected, and only such a move; a legal move yields the board `Play` describes, with exactly that cell removed from the actions |
| TicTacToe.WinnerFrom | tictactoe/tictactoe.py:64-76 | scanning rows and columns from index i, then the two diagonals: a mark is returned only if it fills a line; no mark is returned only if neither X nor O fills a line |
| TicTacToe.Winner | tictactoe/tictactoe.py:60-76 | the winner, when there is one, fills a row, column or diagonal; there is no winner exactly when neither side fills a line |
| TicTacToe.Terminal | tictactoe/tictactoe.py:79-85 | the game is over exactly when a side has a line or no empty cell remains |
| TicTacToe.Utility | tictactoe/tictactoe.py:88-98 | the utility lies in {-1, 0, 1}; 1 implies an X line; -1 implies an O line; 0 exactly when no side has a line |
| TicTacToe.MaxScore | tictactoe/tictactoe.py:101-109 | the game value with X to choose lies in [-1, 1] |
| TicTacToe.MinScore | tictactoe/tictactoe.py:112-120 | the game value with O to choose lies in [-1, 1] |
| TicTacToe.MaxFromBounds | tictactoe/tictactoe.py:105-108 | the running maximum over cells k..8 bounds each move's value, and one move attains it |
| TicTacToe.MinFromBounds | tictactoe/tictactoe.py:116-119 | the running minimum over cells k..8 is below each move's value, and one move attains it |
| TicTacToe.MaxScoreOfMoves | tictactoe/tictactoe.py:101-109 | on an unfinished board the value with X to choose is the largest child value with O to choose: it bounds every move, and some move attains it |
| TicTacToe.MinScoreOfMoves | tictactoe/tictactoe.py:112-120 | on an unfinished board the value with O to choose is the smallest child value with X to choose |
| TicTacToe.MaxValue | tictactoe/tictactoe.py:101-109 | a finished board gives its utility; otherwise, if the game value is below alpha the exact value is returned, else a value between alpha and the game value (the loop stops once v reaches alpha) |
| TicTacToe.MinValue | tictactoe/tictactoe.py:112-120 | a finished board gives its utility; otherwise, if the game value is above beta the exact value is returned, else a value between the game value and beta |
| TicTacToe.MaxMove | tictactoe/tictactoe.py:131-137 | X's branch of the search returns a legal move whose value equals the game value, and no other move is better for X |
| TicTacToe.MinMove | tictactoe/tictactoe.py:138-144 | O's branch returns a legal move whose value equals the game value, and no other move is better for O |
| TicTacToe.Minimax | tictactoe/tictactoe.py:123-146 | no move exactly when the game is over; otherwise a legal move that is optimal for the side to move |
| PageRank.SumPick | pagerank/pagerank.py:102 | the sum of a map's values does not depend on which key is taken first |
| PageRank.SumUpdate | pagerank/pagerank.py:100 | changing one value changes the sum by the difference |
| PageRank.SumAffine | pagerank/pagerank.py:70-73 | a map giving c to every page, plus e to the pages in a set, sums to \|pages\| copies of c plus \|pages in the set\| copies of e |
| PageRank.SumScale | pagerank/pagerank.py:102 | dividing every value by n divides the sum by n |
| PageRank.ShareOut | pagerank/pagerank.py:63-69 | n shares of x / n add up to x |
| PageRank.TimesIsProduct | pagerank/pagerank.py:63-69 | n copies of x add up to n·x |
| PageRank.Transition | pagerank/pagerank.py:60-75 | the distribution has an entry for exactly the corpus pages |
| PageRank.TransitionModel | pagerank/pagerank.py:51-75 | the two loops give every corpus page an entry; the uniform 1/N when the page has no links; otherwise (1-d)/N, plus d/outdegree on linked pages; together this is `Transition` |
| PageRank.TransitionSumsToOne | pagerank/pagerank.py:60-75 | when the page's links are corpus pages (as the corpus builder ensures), the probabilities add up to exactly 1 for any damping factor |
| PageRank.TransitionBounds | pagerank/pagerank.py:62-73 | for a damping factor in [0, 1] every probability lies in [0, 1] |
| PageRank.Items | pagerank/pagerank.py:94-98 | the pages of a map are listed once each, with their values in the same order |
| PageRank.ZeroCounts | pagerank/pagerank.py:87 | counters that are all zero total zero |
| PageRank.TallyStart | pagerank/pagerank.py:87-90 | all counters at zero, then the start page's set to 1, tally the one-page walk |
| PageRank.TallyStep | pagerank/pagerank.py:99-100 | adding one to the counter of the page just visited keeps the tally: each counter is the number of visits of its page, and the counters total the walk's length |
| PageRank.NextPage | pagerank/pagerank.py:93-99 | the page drawn from the transition model's list is a corpus page |
| PageRank.WalkCounts | pagerank/pagerank.py:87-100 | after n steps the walk has n + 1 visits, all of corpus pages; each page's counter is its number of visits; the counters total n + 1 |
| PageRank.RanksSum | pagerank/pagerank.py:102 | dividing each count by n divides the total by n |
| PageRank.SamplePagerank | pagerank/pagerank.py:78-104 | the estimate has exactly the corpus pages as keys; each value is the page's visits divided by n; the values add up to (n + 1) / n, which is more than 1 |
| PageRank.SamplePagerankCorrected | pagerank/pagerank.py:78-104 | counting the start page as the first of n samples: same keys and shares, and the values add up to exactly 1 |

## Left out

- `iterate_pagerank` (pagerank/pagerank.py:107-142) is not part of this model. It is a floating-point convergence loop whose termination rests on numeric contraction.
- `crawl` and `main` are directory listing, file reading, HTML scraping and printing. Only the corpus property they establish, that links are corpus pages, appears, as the precondition of `TransitionSumsToOne`. Their other property, that a page does not link to itself, is not needed by any proof.
- Randomness is replaced by oracle indices. `random.choices` weighs the pages by their probabilities, but the oracle may pick any page of the model. The model therefore makes no statistical claim, and no claim about how close the estimate is to the true ranks.
- PageRank.NextPage: states only that the drawn page is a corpus page, not that it has positive probability, because the draw is an oracle index rather than a weighted choice.
- Floating-point rounding: probabilities are exact reals.
- Iteration order: Python dicts iterate in insertion order and sets in hash order. The model's loops pick the next element with `:|`, so each proof covers every order.
- `deepcopy`: boards are immutable values, so `Result` returns a new board and the input cannot change.
- The `±float("inf")` sentinels of the search are the integers -2 and 2, outside every utility in {-1, 0, 1}.
- How much the pruning saves (nodes visited, order of search) is not modelled; only the returned values and moves are.
- TicTacToe.Minimax: its two branches, one per side, are the separate methods `MaxMove` and `MinMove`.
- TicTacToe.MaxValue: on an unfinished board with alpha at or below the game value, it promises only that the result lies between alpha and the game value. It does not say which value in that range the pruned loop returns, because that depends on the iteration order.
- TicTacToe.MinValue: likewise, on an unfinished board with beta at or above the game value, it promises only that the result lies between the game value and beta.
- Inputs the model excludes by a precondition or by a type:
  - a page outside the corpus (a `KeyError` in `transition_model`);
  - `n = 0` (a `ZeroDivisionError` in `sample_pagerank`);
  - an empty corpus (an `IndexError` in `random.choice`);
  - `n < 0`: `range(n)` is then empty, and each count is divided by a negative `n`, giving negative values; `n` is a `nat` in the model;
  - boards that are not 3×3, which `ValidBoard` excludes. A smaller board makes the program raise an `IndexError`. On a larger board the program reads only the top-left 3×3 cells, and `result` copies the extra cells unchanged; the model does not describe such boards.
- The `NameError` that `result` raises for an illegal move is the `InvalidMove` result.

## Findings

| source | as written | input that shows it | evidently intended | confidence | as-written member | corrected member |
|---|---|---|---|---|---|---|
| pagerank/pagerank.py:87-102 | the start page is counted once, then `n` more visits are counted, and each count is divided by `n`, so the values sum to (n + 1) / n | any corpus with n = 1: the start page and one step give counts totalling 2, divided by 1, so the values sum to 2 | n samples in all, with the start page as the first, so that the values sum to 1 (pagerank/pagerank.py:84-85) | not executed | PageRank.SamplePagerank | PageRank.SamplePagerankCorrected |
