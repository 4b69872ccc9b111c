# Life Decision Scorecard — verdict rule and decision history in Dafny

The Life Decision Scorecard is a single-page form. The user states a decision
and scores its impact on four life pillars (family, business, physical
health, mental health), each from -2 to +2. The user also describes the cost
of doing nothing and says whether the decision reduces or increases
fragility. The `compute_verdict` rule turns these inputs into one of three
verdicts — `YES`, `NO (or redesign)` or `REDESIGN / WAIT` — together with the
total score. Submitting the form saves a record at the front of the decision
history, so the history stays newest first.

The model has three modules:

- `Text` (`text.dfy`) — Python's `str.strip()`, using the whitespace set of
  `str.isspace()`. It is defined as `StripChars`, which removes any given
  set of characters. `StripChars`'s ensures, together with the split that
  `StripCharsSplits` proves, determine the result (`StripCharsUnique`).
  Stripping ignores surrounding whitespace and is
  idempotent.
- `Scorecard` (`scorecard.dfy`) — the pillar and score constants, the scores
  dictionary as a sequence of `(pillar, score)` pairs in insertion order, and
  `ComputeVerdict`. Its contract states the three verdicts as mutually
  exclusive conditions on the inputs. The lemmas give bounds on the total and
  show the verdict depends only on the multiset of scores and on the stripped
  inaction text.
- `History` (`history.dfy`) — the form, the saved record, the submit step as
  a pure function on the history list, and a lemma that any run of
  submissions keeps the history newest first.

The model follows `decision_scorecard.py`: an unweighted sum, a -2 veto and
the fixed branch order of `compute_verdict`.

## Model

| member | source | states |
|---|---|---|
| Text.StripChars | decision_scorecard.py:32 | The stripped text has no removable character at either end. It is empty exactly when every character of the input is removable. It is no longer than the input. |
| Text.StripCharsSplits | decision_scorecard.py:32 | The input is a removable prefix, then the stripped text, then a removable suffix. |
| Text.StripCharsUnique | decision_scorecard.py:32 | Any split of the input into a removable prefix, a trimmed middle and a removable suffix has the stripped text as its middle. Together with `Text.StripCharsSplits`, this determines what strip returns. |
| Text.StripCharsIgnoresPadding | decision_scorecard.py:32 | Adding removable characters on either side never changes the stripped text. |
| Text.StripIgnoresPadding | decision_scorecard.py:32 | `strip()` gives the same result whatever whitespace surrounds the text. |
| Text.StripIdempotent | decision_scorecard.py:32 | Stripping an already stripped text changes nothing. |
| Scorecard.ComputeVerdict | decision_scorecard.py:28-43 | The total is the sum of all scores, whatever the verdict. A -2 anywhere gives NO, and only a -2 does. Without a -2, the verdict is YES exactly when the total is positive, or the fragility choice is "Reduces fragility (more buffer)", or the total is 0 and the stripped inaction text has at least 20 characters. Without a -2, it is REDESIGN / WAIT exactly when fragility is not reduced and either the total is negative, or the total is 0 and the stripped text is shorter than 20. |
| Scorecard.SumBounds | decision_scorecard.py:30 | When every score lies in [lo, hi], the total of n scores lies in [n·lo, n·hi]. |
| Scorecard.FormTotalRange | decision_scorecard.py:8-15 | For the four pillars scored from {-2..2}, the total lies in [-8, 8]. When no pillar scores -2, it lies in [-4, 8]. |
| Scorecard.SumRemove | decision_scorecard.py:30 | The total equals any one score plus the total of the other scores. |
| Scorecard.SumPermutation | decision_scorecard.py:30 | Two lists of scores with the same multiset of values have the same total. |
| Scorecard.VerdictIgnoresPillarOrder | decision_scorecard.py:29-30 | Two score dictionaries with the same multiset of values get the same verdict and total. Neither dictionary order nor the pillar carrying each score matters. |
| Scorecard.OnlyReducingChoiceRescues | decision_scorecard.py:65-68 | Of the three fragility choices the form offers, with no -2 and a negative total, the verdict is YES for "Reduces fragility (more buffer)" and REDESIGN / WAIT for the other two. |
| Scorecard.VerdictIgnoresInactionPadding | decision_scorecard.py:32 | Whitespace added around the inaction-cost text never changes the verdict or the total. |
| History.Submit | decision_scorecard.py:73-88 | Nothing is saved when the form was not submitted or the decision text is empty or all whitespace. Otherwise the history grows by one. The new record is at index 0 and the earlier records follow in their order, unchanged. The record keeps the form's fields as entered and the given timestamp. Its total is the sum of the scores, and its verdict is the label of the verdict `compute_verdict` gives. |
| History.ReplayNewestFirst | decision_scorecard.py:88 | After any run of submissions, the history holds the saved records in reverse submission order (newest first), followed by the earlier history unchanged. |

The closed set of verdict labels is the datatype `Scorecard.Verdict` with its
three constructors. `Scorecard.Label` maps them to the three strings
`compute_verdict` returns, so no other label can arise.

## Left out

- Streamlit widgets, page set-up and rendering (decision_scorecard.py:4, 45-71, 91): these are user interface. The form's values, including the `submitted` flag, are inputs to `History.Submit`.
- `load_decisions` / `save_decisions` (decision_scorecard.py:17-26): file I/O through the `json` library. The history is passed to and returned from `History.Submit` as a value. Falling back to an empty history on a read failure is not modelled.
- `datetime.now()` (decision_scorecard.py:54, 77): the clock. The timestamp and the date are opaque string inputs.
- The fragility radio offers three fixed choices (decision_scorecard.py:67), held in `Scorecard.FragilityChoices`. `Scorecard.ComputeVerdict` accepts any string, as `compute_verdict` does, and compares it with the first choice.
- Lone surrogates: strings are modelled as sequences of Unicode scalar values, so the lone surrogate code points a Python string can hold cannot be written. `Text.Whitespace` lists exactly the 29 characters for which Python 3's `str.isspace()` holds.
