# Argmax decision of the plant classifier front-end

This project models the decision step of `app_main` in `main.c`. A pretrained
model fills the score array `probs` with one score per class. The program then
picks the predicted class with a linear scan. `cls` starts at 0. The loop visits
indices 1 to N_CLASS-1. `cls` moves to `i` only when `probs[i] > probs[cls]`,
so among equal maxima the first index wins.

The model lives in `main.dfy`:

- module `Decision` holds the specification and the scan. `IsFirstMax(s, k)`
  says that `k` is in bounds, no score exceeds `s[k]`, and every earlier score
  is strictly smaller. `FirstMax` is the scan as a recursive function over
  prefixes. `MaxScore` and `FirstIndexOf` give a second, independent reading:
  the first occurrence of the largest score. `ArgMax` is the loop of
  `main.c:13-15` over an `array<real>`, proved against both.
- module `Pipeline` holds one inference. `Score` stands in for the model call.
  `AppMain` scores the features and then runs `ArgMax`.

The build-time constant `N_CLASS` is generalised to the length of the score
array, which must be at least 1. Scores are modelled as `real`.

## Model

| member | source | states |
|---|---|---|
| Decision.ArgMax | main.c:13-15 | for any score array with at least one class, the returned index is in bounds, holds a score no smaller than any other, has every earlier score strictly smaller, and equals `FirstMax` of the scores; the loop invariant says `cls < i` and `cls` is the first maximum of `probs[0..i)`; the method has no `modifies` clause, so `probs` is only read |
| Decision.FirstMax | main.c:13-15 | the scan extended one index at a time with the strict `>` update returns the first index of the maximum (`IsFirstMax`) |
| Decision.FirstMaxUnique | main.c:14-15 | a score vector has at most one first index of its maximum, so the decision is fully determined by the scores |
| Decision.MaxScore | main.c:15 | the largest score is one of the scores and no score exceeds it |
| Decision.FirstIndexOf | main.c:15 | the first occurrence of a score: in bounds, holds that score, and no earlier index holds it |
| Decision.FirstMaxIsFirstOccurrenceOfMax | main.c:13-15 | the decision equals the first index at which the maximum score occurs |
| Decision.SingleClassIsZero | main.c:13-14 | with one class the loop body never runs and the result is 0, whatever the score |
| Decision.AllEqualIsZero | main.c:13-15 | when all scores are equal the result is 0 |
| Decision.UniqueMaxIsChosen | main.c:14-15 | a score strictly above all others is chosen |
| Decision.TieGoesToFirst | main.c:15 | among tied maxima the result is no later than the first of them |
| Decision.OrderDeterminesDecision | main.c:15 | two score vectors whose entries compare the same way pairwise give the same class, since the scan only compares scores |
| Decision.ExampleDecisions | main.c:13-15 | `[0.2, 0.9, 0.9]` gives 1, `[0.9, 0.2, 0.1]` gives 0, `[-5, -1, -1, -3]` gives 1, `[42]` gives 0 |
| Pipeline.Score | main.c:12 | the model call writes every slot of `probs` with the model's scores for `x` and leaves `x` unchanged |
| Pipeline.AppMain | main.c:9-15 | one inference: `probs` holds the model's scores, `x` is unchanged, and the class is the first index of the maximum of those scores |

## Left out

- Pipeline.Score: the model behind `score` is declared in `rf.h`, which is not part of this model; it is a function parameter `model`, and the call's contract only says that it fills every slot and leaves `x` unchanged.
- IEEE-754 `double` semantics are not modelled. Scores are `real`, so NaN and infinities are out of scope, including the NaN orderings the C comparison would give.
- The `printf` of the predicted class (`main.c:17`) is output and is left out; `AppMain` returns the class instead.
- The zero-initialised demo feature buffer `x` (`main.c:9`) is a parameter of `AppMain`; its contents carry no logic of their own.
- The build-time constants `N_FEAT` and `N_CLASS` (`main.c:4-5`) are placeholders in the source; the model takes the array lengths instead and requires at least one class, as the source's loop and its initial `cls = 0` assume.
- Concurrency and reentrancy are not modelled: the source is a single synchronous call.
