# SortingCap placement heuristic, modelled in Dafny

SortingCap assigns summer-camp participants to programs. Each program has an
inclusive age range and a capacity. Each participant has an age and four
ranked program choices. One trial goes through the participants in some
order. Each participant takes the first choice that names a known program,
admits their age and has room. The search repeats the trial over many
shuffled orders and keeps a result.

The model has three modules:

- `Placement` (`placement.dfy`) holds the two classes. `Program` has constant
  name, age bounds and capacity, and a mutable roster (`participants`).
  `Participant` has constant name, age, cabin and choices, and mutable
  `satisfaction` and `program`. Its methods are `ClaimNextBest` and `Reset`.
  The catalog of programs is a `map<string, Program>` parameter.
  `ScanLength` and `FirstFit` are the specification functions for one claim.
  `FirstFit` takes the set of programs that are full, so the same function
  describes a claim against the live rosters (`FullPrograms`) and against the
  rosters a participant met at its turn in a trial (`FullAfter`).
- `Trials` (`trials.dfy`) models one trial and the search. `ClearRosters`
  empties every roster. `ClaimInOrder` resets each participant in turn and
  lets it claim. `RunTrial` is one trial, and `Search` is the trial loop.
  `ClaimTurn` is one turn of a trial.
  The specification is given by `Members` (the roster a trial builds),
  `Settled` (the state a participant ends a trial in, fixed by `FirstFit`
  against the rosters built by the participants before it) and
  `TotalSatisfaction`. `Placeable` says, from fixed attributes only, whether
  the catalog can place anybody.
- `Scenarios` (`scenarios.dfy`) runs small concrete catalogs through the
  contracts.

Behaviour of the code that the model keeps as written:

- A choice naming an unknown program ends the scan. Later choices are not
  examined, even one that would fit.
- Satisfaction starts at `|choices| + 1` = 5. A claim at 0-based rank `i`
  subtracts `i`. A participant left without a program subtracts 5. After a
  reset and a claim the score is therefore 0, 2, 3, 4 or 5, and never negative.
- The threshold `max_average_satisfaction` starts at 0 and is never raised.
  So every trial with a positive mean re-selects, not only an improving one.
  A trial has a positive mean exactly when someone was placed. That happens
  exactly when some participant has a choice, before its first unknown name,
  whose program admits its age and has a positive capacity, whatever the
  order. So the search selects something exactly when there is at least one
  trial and that condition holds.
- The selected value is the shuffled list itself, not a copy. At the end it
  therefore holds the last trial's order, and the participants hold the last
  trial's state. The model returns `Some(last order)` when any trial had a
  positive mean, and `None` otherwise.
- The search is sometimes described as keeping the trial with the best mean,
  ties going to the earlier one. The code does not do that, and the model
  follows the code.

## Model

| member | source | states |
|---|---|---|
| `Placement.Program.constructor` | sortingcap.py:27-32 | a program gets its name, age bounds and capacity, and starts with an empty roster |
| `Placement.Participant.constructor` | sortingcap.py:38-45 | a participant's choices are exactly Choice1..Choice4 in order; satisfaction starts at 5 (`|choices| + 1`) and the participant holds no program |
| `Placement.ScanLength` | sortingcap.py:48-52 | the scan reaches exactly the leading choices that name known programs; the first unknown name, if any, is where the scan stops |
| `Placement.FirstFit` | sortingcap.py:48-67 | given which programs are full, the choice a claim takes is the first reached choice whose program admits the age and is not full; every earlier choice was known and either age-ineligible or full; no result means no reached choice qualifies |
| `Placement.UnknownNameEndsScan` | sortingcap.py:49-52 | if choice `k` names no program and no earlier choice qualifies, nothing is claimed, whatever the later choices are |
| `Placement.Participant.ClaimNextBest` | sortingcap.py:47-70 | with `i` the `FirstFit` of the rosters at the call: program becomes `programs[choices[i]]`, satisfaction drops by exactly `i`, and the participant is appended to that one roster, which stays within capacity and whose age bounds hold the participant; with no `i`, nothing changes except that a participant still without a program loses `|choices| + 1`; other rosters never change and rosters only grow |
| `Placement.Participant.Reset` | sortingcap.py:72-74 | satisfaction becomes `|choices| + 1` and program becomes none; the new state does not depend on the old one, so resetting twice equals resetting once |
| `Trials.MembersSpec` | sortingcap.py:59-61 | a participant is in the roster built from an order exactly when it occurs in the order and holds that roster's program |
| `Trials.MembersAppend` | sortingcap.py:110-112 | rosters keep the trial order: the members from an earlier stretch of the order come before those from a later one |
| `Trials.MembersDistinct` | sortingcap.py:110-112 | an order without repeats builds rosters without repeats |
| `Trials.TotalSatisfactionBounds` | sortingcap.py:114-115 | once every participant has claimed, the total is between 0 and 5 per participant, and it is positive exactly when someone holds a program |
| `Trials.ClearRosters` | sortingcap.py:107-108 | every program's roster is empty |
| `Trials.ResetAndClaim` | sortingcap.py:110-112 | when the rosters are those built by the participants before `x`, after reset and claim `x` holds exactly the program of the first reached choice that admitted its age and had room at its turn, scoring `5 - rank`, or none with score 0; only that roster changes, growing by `x` |
| `Trials.ClaimTurn` | sortingcap.py:110-112 | one turn extends the state of a trial over the earlier participants to a trial over them and `x` |
| `Trials.ClaimInOrder` | sortingcap.py:110-112 | starting from empty rosters, a pass over the order leaves every participant settled first-come-first-served (each against the rosters of the participants before it) and each roster equal to the participants of the order holding its program, in order, within capacity |
| `Trials.RunTrial` | sortingcap.py:106-115 | a trial ends in that outcome whatever the rosters held before, and returns the sum of the satisfactions |
| `Trials.OutcomeRosters` | sortingcap.py:107-112 | after a trial each participant is in a roster exactly when it holds that program, so it is in at most one roster; no roster lists anyone twice |
| `Trials.OutcomeScores` | sortingcap.py:110-115 | after a trial every score is in {0, 2, 3, 4, 5}, every placement is a catalog program whose age bounds hold the participant, and the total is between 0 and 5 per participant |
| `Trials.PlacedIsPlaceable` | sortingcap.py:53-64 | a participant placed in a trial had a reached choice admitting its age with positive capacity |
| `Trials.PlaceableIsPlaced` | sortingcap.py:59-64 | if some participant has a reached choice admitting its age with positive capacity, every trial, in any order, places somebody |
| `Trials.OutcomePositive` | sortingcap.py:114-117 | a trial's total, and so its mean, is positive exactly when the catalog can place somebody, whatever the order |
| `Trials.Search` | sortingcap.py:99-118 | one trial per given order; something is selected exactly when there is a trial and the catalog can place somebody, and it is then the last order; the final state is the last trial's outcome |
| `Scenarios.FirstChoiceTaken` | sortingcap.py:47-64 | a participant whose first choice admits it and has room joins it with the full score 5 |
| `Scenarios.UnknownFirstChoice` | sortingcap.py:47-70 | an unknown first choice leaves the participant unplaced with score 0, although the next choice would fit |
| `Scenarios.Contention` | sortingcap.py:106-115 | in a trial of two participants wanting one seat, the first in order takes it with score 5, the second ends unplaced with score 0, and the total is 5 |
| `Scenarios.NobodyEligible` | sortingcap.py:99-118 | when nobody is within any program's age bounds, nothing is selected |
| `Scenarios.NoSeats` | sortingcap.py:99-118 | when the only program has capacity 0, nothing is selected, however many trials run |
| `Scenarios.LastOrderSelected` | sortingcap.py:99-118 | when somebody can be placed, the selection is the order of the last trial, not the first |

## Left out

- Reading the participant and program tables and writing the placement table are file I/O and are not modelled (sortingcap.py:89-97, 121-127). Neither is the projection of participant attributes into output rows.
- Loading the catalog is not modelled, so duplicate names overwriting earlier rows is not modelled either.
- Command-line handling, the usage text and all `print` tracing are not modelled.
- `__repr__` is presentation only and is not modelled.
- `random.shuffle` is not modelled. Each trial's order is an input to `Search`: any order that lists every participant exactly once. Randomness and seeding are not modelled.
- Ages and capacities are already-parsed integers. The `int(...)` conversions and their parse errors are not modelled.
- Capacity is a `nat`. A negative capacity, which the source would accept, is not modelled.
- The mean is a float in the source. The model compares the integer total against the threshold times the participant count, which gives the same result for a positive count.
- `Search` requires at least one participant. With none, the source divides by zero.
- `Search`: the list the source retains is modelled as the value of that list at the end, not as a reference.
- `Search`: the rosters, scores and totals of trials before the last are not stated, because later trials overwrite them; `OutcomePositive` gives the sign of every trial's total.
- `RunTrial` and `ClaimInOrder` require an order without repeats. The source's list holds each participant object once.
