# Shrink-as-you-talk: the activity-driven scale controller

This is a Dafny model of the scale controller in the Google Meet userscript
`index.js`. Every 100 ms the script checks each participant tile. A tile whose
participant is talking shrinks a little, down to scale 0.1. A silent
participant's tile grows back, up to scale 1. A screen-share tile is put back to
scale 1 at once. Every 3 s the script re-scans the participant tiles, and new
participant ids get a stored scale of 1. A menu entry switches the controller
on (re-scan, then arm both intervals) and off (clear both intervals, forget all
scales, remove every transform).

Scales are integers counting thousandths of the CSS scale factor: `scale(1)` is
1000, `scale(0.1)` is 100 and one step of 0.002 is 2. The model has three
modules:

- `Scale` (`scale.dfy`) holds the constants, the participant record, the
  classification (talking, silent, not a person), the one-step rule
  `NextScale`, and `Ticks`, which applies that rule k times. It also holds the
  lemmas on repeated steps: closed forms, monotonicity, and the 450 checks from
  full size to the minimum and back.
- `Store` (`store.dfy`) holds the scale memory (`scales`) and the scale last
  written into a transform for each id (`applied`). It defines both periodic
  passes as folds over the participant list, in list order as `forEach`
  runs them: `Seed` for the re-scan and `Tick` for the talking check. The
  lemmas about them cover the range invariant, the frame, writes only on
  change, and the per-tile result when ids are distinct.
- `Controller` (`controller.dfy`) is the script's module-level state as a
  class. It has the participant list, both maps, one flag per interval timer
  and `active`. Its methods are `SetupParticipants`, `CheckTalkers`,
  `ClearScales`, `Init`, `Stop` and `OnToggle`. The loops are proved against
  `Seed` and `Tick`. `Valid()` is the invariant every method keeps: the timers
  are armed exactly while the controller is active; stored scales stay in
  [100, 1000]; the last transform written for each id equals its stored scale
  (an id with no transform written since the last stop holds exactly 1000);
  while active, every scanned participant has a stored scale; and while
  inactive, no transform is written and every stored scale is 1000. `Session`
  is a client that pre-seeds, switches the controller on, checks a silent and
  then a talking reading, switches it off and on again, and asserts what it
  sees.

The third part of `Valid()` is what makes "write only on change" sound per
id: skipping a write never leaves the last transform written for an id
different from its stored scale. `Store.Checks` and `Store.RepeatedChecks`
carry the closed forms about single steps over to the store: with distinct
ids, `n` checks leave each participant at `Ticks` of its stored scale.

The DOM reads become inputs. The result of the `querySelectorAll` scan is
passed to `SetupParticipants`, `Init` and `OnToggle` as the list
`discovered`. `_isPerson` and `_isTalking` are read afresh at every check in
the source (index.js:101-103), so `CheckTalkers` takes one `Reading` per
scanned tile. `Store.Observe` puts each reading next to its tile's id, and the
check steps that list. The `isPerson` and `talking` flags that a scanned
`Participant` carries are not used by the check.

Two facts about the code:

- A person tile with no speaking indicator makes `getComputedStyle(null)`
  throw (index.js:78, 89), and the rest of that check's `forEach` is skipped.
  The model does not capture this (see Left out).
- The code removes stored ids only on stop (index.js:128), and so does the
  model.

## Model

| member | source | states |
|---|---|---|
| `Scale.Classify` | index.js:101-103 | a tile that is not a person is classified as such whatever its indicator; a person is talking exactly when the indicator says so, and silent otherwise (the two tests of index.js:77-83 are the inputs `isPerson` and `talking`) |
| `Scale.NextScale` | index.js:99-107 | a screen-share goes to 1000 in one step from any value; a talker never grows from a scale of at least 100, never goes below 100, and drops exactly 2 unless that would pass 100, in which case it lands on 100; a silent person is symmetric against 1000; a step from a scale in [100, 1000] stays in it |
| `Scale.TalkingTicksClosedForm` | index.js:104 | k consecutive talking checks from a scale s of at least 100 give exactly max(100, s - 2k) |
| `Scale.SilentTicksClosedForm` | index.js:106 | k consecutive silent checks from a scale s of at most 1000 give exactly min(1000, s + 2k) |
| `Scale.TalkingTicksMonotone` | index.js:104 | under continued talking the scale never increases from one check to the next |
| `Scale.FullShrinkTicks` | index.js:5-7 | (max - min) / step is 450; 450 talking checks take a full-size tile to exactly 100, every earlier check leaves it above 100, and no number of checks takes it out of [100, 1000] |
| `Scale.FullRecoveryTicks` | index.js:5-8 | 450 silent checks take a tile at 100 back to exactly 1000, every earlier check leaves it below 1000, and it never leaves [100, 1000] |
| `Scale.TenTalkingTicksFromHalf` | index.js:104 | a tile stored at 0.5 that talks for ten checks ends at 0.48 |
| `Store.Seed` | index.js:119-122 | after seeding, the keys are the old keys plus every scanned id; an id already stored keeps its value; every newly stored id holds 1000 |
| `Store.SeedKnownIds` | index.js:119-122 | a re-scan that finds only ids already stored leaves the memory exactly as it was |
| `Store.Observe` | index.js:98-103 | each scanned tile keeps its id, in order, and takes the person and speaking-indicator readings of the current check |
| `Store.SeedPreservesRange` | index.js:120-122 | seeding keeps every stored scale in [100, 1000] |
| `Store.SeedCovers` | index.js:117-124 | after seeding, every scanned participant has a stored scale |
| `Store.SeedConsistent` | index.js:119-123 | seeding writes no transform, and keeps the last transform written for every id equal to its stored scale |
| `Store.TickOne` | index.js:99-112 | one participant's check stores the stepped scale for that id only; when the scale did not move nothing is written, and when it moved exactly that id's transform is set to the new scale |
| `Store.Tick` | index.js:97-114 | a whole check keeps the set of stored ids, and writes transforms only for scanned ids |
| `Store.TickPreservesRange` | index.js:104-110 | a check from legal scales, with every scanned id stored, leaves every stored scale in [100, 1000] |
| `Store.TickConsistent` | index.js:109-112 | a check keeps the last transform written for every id equal to that id's stored scale, and an id with no write at 1000 |
| `Store.TickFrame` | index.js:98-113 | an id that is not in the scanned list keeps its stored scale and its transform |
| `Store.TickQuiescent` | index.js:109-112 | when no scanned tile's scale would move, the check writes nothing and changes nothing |
| `Store.TickDistinct` | index.js:98-112 | with distinct ids, each listed participant ends one step from its old stored scale; its transform is written with the new scale exactly when the scale moved, and otherwise left as it was |
| `Store.Checks` | index.js:97-114 | repeated checks over one list keep the set of stored ids |
| `Store.RepeatedChecks` | index.js:98-112 | with distinct ids, `n` checks leave each listed participant exactly at `n` single steps of its classification from its stored scale |
| `Store.FullShrinkChecks` | index.js:104 | a person stored at 1000 who talks through 450 checks ends at 100 in the store, and no earlier check brings them there |
| `Store.SilentAtFullSizeWritesNothing` | index.js:105-112 | a silent person at scale 1 causes no write and no change |
| `Controller.ShrinkController.constructor` | index.js:13-17 | at load time nothing is scanned or stored, no timer is armed and the controller is inactive |
| `Controller.ShrinkController.SetupParticipants` | index.js:116-125 | the list becomes the scan; the new memory is `Seed` of the old one, so every scanned id is stored, old ids keep their values and nothing else is added; transforms, timers and `active` are unchanged; `Valid()` is kept |
| `Controller.ShrinkController.CheckTalkers` | index.js:97-114 | with the check timer armed and one reading per scanned tile, the new memory and transforms are `Tick` of the old ones over the scanned ids classified by this check's readings, and `Valid()` is kept |
| `Controller.ShrinkController.ClearScales` | index.js:127-133 | the memory is empty and no transform is recorded for any id |
| `Controller.ShrinkController.Init` | index.js:135-140 | from inactive: scan and seed, then both timers armed and active; no transform is written and every participant starts at 1000, on the first start (after pre-seeding while inactive) as after a stop |
| `Controller.ShrinkController.Stop` | index.js:142-147 | both timers disarmed, memory empty, no transform, inactive; the scanned list is kept |
| `Controller.ShrinkController.OnToggle` | index.js:69-75 | flips `active` on every call, with the timers following; from active it has `Stop`'s effect, from inactive `Init`'s |

## Left out

- The menu entry (`_addToggleButton`, `_onOptionsMenuOpen`, their retries and the one-second `menuInterval`, index.js:19-67 and 149-154) is not modelled. It is one-shot page plumbing. Its effects on the core are extra `SetupParticipants` calls, which `SetupParticipants` allows in any state, and the toggle click, modelled as a call to `OnToggle`.
- DOM reads are not modelled (`_isTalking`, `_isPerson`, `_getParticipantInfo`, `_getParticipants`, index.js:77-95). The scan becomes the `discovered` list, and the two tests at each check become that check's `readings`.
- An exception thrown by a DOM read in the middle of a check is not modelled. The source would skip the rest of that check's `forEach`.
- Interval scheduling is not modelled: real time, and the order in which the two intervals fire. Each timer is a flag, and its callback is a method the caller invokes.
- CSS strings are not modelled: the `transform` and `transition` values, and the 100 ms `transition` set on every scanned tile. Only the integer scale last written per id is kept.
- `ClearScales`: the source removes the transform from every tile found by a fresh page query; the model empties `applied` entirely, treating that query as reaching every tile that was ever written to.
- `Store.TickConsistent` speaks of the last transform written per id, not of each tile. The source writes into each element (index.js:111), and two cases differ from the per-id view. First, two tiles sharing an id: each reads the scale left by the other, so their transforms can differ while one scale is stored. Second, a tile re-created while its id is still stored: the new element starts at natural size, and when its stepped scale equals the stored one (a talker held at 0.1) nothing is written, so it shows full size while 0.1 is stored.
- Floating point is not modelled: the source's IEEE-754 values, and the rounding of repeated ±0.002. Scales are exact integers in thousandths.
- `CheckTalkers` requires the check timer to be armed. In the source it could only run then, and `Valid()` then guarantees every scanned id has a stored scale. The source's NaN result for a missing entry (`undefined - 0.002`) therefore cannot arise in the model. One source path to NaN is not captured. `currentScales` is a plain object (index.js:14), so an id that names an `Object.prototype` member (`constructor`, `toString`, `__proto__`) already counts as defined at index.js:120 and is never seeded. It then steps to NaN (index.js:104, 106), and because `NaN !== NaN` it is rewritten on every check (index.js:109-111). A `map<string, int>` has no such keys.
- `Init` requires the controller to be inactive. Its only caller, the toggle, ensures this. A second start in the source would leak the first pair of intervals, and that is not modelled.
- Logging and the outer try/catch (index.js:4, 156-159) are not modelled.
