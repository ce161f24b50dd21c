# Course exercises: screensaver, hero effects, handler chain, factorisation, notifications, map adapter

This project models, in Dafny, the cores of six small Python exercises.

- **Screensaver** (`week2/screensaver/refactored.py`). A 2-D vector type (`Vec2d`).
  - A polyline of anchor points that each move with their own speed and bounce off the canvas edges (`Polyline`).
  - A knot that rebuilds a smoothed curve through its anchors after every step (`Knot`).
  - The screensaver's control state: the event handler and the per-frame hue and pause logic of the main loop (`Screensaver`).
- **Hero effects** (`week3/decorator/abstractdecorator.py`). A hero with ten stats, wrapped by the effects Berserk, Blessing, Weakness, Curse and EvilEye. Each wrapper changes stats and appends its name to the positive or negative effect list (`Decorator`).
- **Chain of responsibility** (`week4/chain_of_responsibility/chainofresponsibility.py`). Typed handlers that read or write one field of a three-field record, or pass the event to their successor (`Chain`).
- **Factorisation** (`week1/test_factorize.py`). The function body there is a stub. Its contract comes from the docstring and the unit tests: type and value errors, `0 -> (0,)`, `1 -> (1,)`, and otherwise the prime factors, compared as multisets (`Factorize`).
- **Achievement notifications** (`week3/observer/observer.py`). A short printer keeps a set of titles; a full printer keeps a duplicate-free list. An engine keeps a set of subscribers and notifies each of them (`Observer`).
- **Map adapter** (`week3/adapter/adapter.py`). It scans an integer map row by row into light and obstacle coordinates, then calls the lighting system in a fixed order (`Adapter`).

Every file holds one module. `wrappers.dfy` defines `Option` and `Result`. Python exceptions become `Failure` values, so each error path stays visible in the model. Floating-point values are modelled as exact `real`s.

Where the code and its descriptions disagree, the model follows the code:

- **Bounce tests.** A speed component flips when the moved anchor has x `< 0` or `> width`, or y `< 0` or `>= height`. These are the strict comparisons `set_points` makes, not `<= 0` and `>= width`.
- **Deletion keeps speeds.** `delete_anchor_point` removes an anchor but never its speed. So the speed list can be longer than the anchor list, and the two are not always equal in length. The model keeps the weaker invariant `|speeds| >= |anchors|`.
- **The fallback match of deletion** is `point > anchor - eps or point < anchor + eps`. This is an OR of two componentwise comparisons, so it matches almost any point, not only nearby ones (`Polyline.NearIff`, `Polyline.FallbackIsNotLocal`).
- **Deleting points.** Every mouse button other than button 1 deletes points, not only the secondary button.
- **Restart.** The R key calls `start()` again from inside the loop. That call clears only the anchors: the speeds, curves and steps stay. It also unpauses and marks the screensaver as working. Because that call never returns, the rest of that frame's events, its hue step and its movement step never happen (`Screensaver.Frame`).
- **Factorisation of 0.** The docstring promises factors `N > 0`, but the tests require `factorize(0) == (0,)`. The model follows the tests.
- **Missing successor.** A typed handler whose type does not match calls `self.successor.handle`. With no successor this raises in Python. The model returns `Failure(MissingSuccessor)`.

## Model

| member | source | states |
|---|---|---|
| Vec2d.AddSubCancel | week2/screensaver/refactored.py:34-40 | addition and subtraction are componentwise, and `(a + b) - b == a` |
| Vec2d.ScaleLaws | week2/screensaver/refactored.py:42-44 | multiplying by a scalar scales both coordinates; by 1 it is the identity, by 0 it gives the origin |
| Vec2d.OrderIsStrictPartial | week2/screensaver/refactored.py:53-57 | `>` is the converse of `<`, and `<` is irreflexive, asymmetric and transitive |
| Vec2d.OrderIsNotTotal | week2/screensaver/refactored.py:53-57 | two distinct vectors can be neither `<` nor `>` each other |
| Vec2d.IncomparableIff | week2/screensaver/refactored.py:53-57 | two vectors are neither `<` nor `>` each other exactly when neither is larger on both axes |
| Polyline.AddAnchorPoint | week2/screensaver/refactored.py:70-72 | appends exactly one anchor at the position and one speed drawn from [0.001, 1.1]; earlier entries unchanged |
| Polyline.FirstEqual | week2/screensaver/refactored.py:77 | the index of the first anchor equal to the point, or the length when there is none |
| Polyline.FirstNear | week2/screensaver/refactored.py:81-85 | the first index the fallback test accepts; no earlier index is accepted |
| Polyline.DeleteAnchorPoint | week2/screensaver/refactored.py:74-85 | an exact match removes only the first equal anchor; otherwise only the first fallback match is removed; with no match nothing changes; speeds are never removed |
| Polyline.SetPoints | week2/screensaver/refactored.py:87-100 | each anchor moves by its speed; a component's sign flips exactly when the moved anchor is past that edge and heading out; magnitudes stay |
| Polyline.NearIff | week2/screensaver/refactored.py:79-83 | the fallback test fails only when the point is in one of the two anti-diagonal quadrants around the anchor |
| Polyline.NearWhenClose | week2/screensaver/refactored.py:79-83 | every point within 0.5 of an anchor on both axes matches it |
| Polyline.FallbackIsNotLocal | week2/screensaver/refactored.py:74-85 | a click at (100, 100) deletes the only anchor, which sits at (0, 0) |
| Polyline.AddThenDelete | week2/screensaver/refactored.py:70-85 | adding at a new position and then deleting there restores the anchors, while the new speed stays |
| Polyline.ReflectionPointsInward | week2/screensaver/refactored.py:94-100 | after a step, an anchor that is past an edge has that speed component pointing back inside |
| Polyline.InsideKeepsSpeed | week2/screensaver/refactored.py:94-100 | an anchor that stays inside the canvas keeps its speed |
| Polyline.RightEdgeScenario | week2/screensaver/refactored.py:90-96 | on an 800x600 canvas an anchor at x = 799 with speed 0.5 reaches 799.5 and then exactly 800 without flipping, because the x bound is strict; the step to 800.5 flips its speed |
| Knot.NewKnot | week2/screensaver/refactored.py:124-127 | a new knot has no anchors, no speeds, no curve and the default step of 15 |
| Knot.Wrap | week2/screensaver/refactored.py:150-152 | a negative list index counts from the end |
| Knot.Window | week2/screensaver/refactored.py:148-153 | the control window of anchor i always has three points, so every blend over it is of degree 2 |
| Knot.SmoothingPoints | week2/screensaver/refactored.py:137-141 | one window yields exactly `smoothing_step` samples |
| Knot.Curve | week2/screensaver/refactored.py:148-153 | the samples of the first n windows, n times the step in length |
| Knot.CurvePoint | week2/screensaver/refactored.py:148-153 | sample k of window i sits at position `i * step + k` |
| Knot.GetKnot | week2/screensaver/refactored.py:143-153 | the old curve is discarded; fewer than 3 anchors give an empty curve, otherwise the curve has `anchors * step` points |
| Knot.GetKnotPoint | week2/screensaver/refactored.py:143-153 | the curve is laid out window after window, in anchor order |
| Knot.SetPoints | week2/screensaver/refactored.py:155-157 | the polyline step, then a curve recomputed from the moved anchors with the same step |
| Knot.GetPointAtZero | week2/screensaver/refactored.py:129-135 | the blend at alpha 0 is the window's first point, for any degree |
| Knot.GetPointAtOne | week2/screensaver/refactored.py:129-135 | the blend at alpha 1 is the window's last point |
| Knot.GetPointInBox | week2/screensaver/refactored.py:129-135 | for alpha in [0, 1] the blend stays inside any box that holds the window |
| Knot.CurveStartsAtMidpoints | week2/screensaver/refactored.py:148-153 | each window's first sample is the midpoint of anchors i-2 and i-1 |
| Knot.CurveInBoundingBox | week2/screensaver/refactored.py:143-153 | every curve point lies in any box that holds all the anchors |
| Screensaver.Init | week2/screensaver/refactored.py:172-195 | stopped, paused, no help, hue 0, and exactly one fresh knot: no anchors, speeds or curve, step 15 |
| Screensaver.Start | week2/screensaver/refactored.py:197-201 | unpauses, sets working, empties every figure's anchors; speeds, curves, steps and hue stay |
| Screensaver.StepUpAll | week2/screensaver/refactored.py:244-246 | every figure's step grows by one, and nothing else changes |
| Screensaver.StepDownAll | week2/screensaver/refactored.py:247-249 | every step drops by one but never below 1, and nothing else changes |
| Screensaver.AddToLast | week2/screensaver/refactored.py:252-253 | only the last figure gains an anchor; the other figures are unchanged |
| Screensaver.DeleteFromAll | week2/screensaver/refactored.py:254-256 | every figure deletes at the click; no speed list changes |
| Screensaver.HandleKey | week2/screensaver/refactored.py:231-249 | no key changes the canvas size or the hue, shrinks the figure list or a speed list, or breaks validity |
| Screensaver.HandleClick | week2/screensaver/refactored.py:251-256 | no click changes the canvas size or the hue, shrinks the figure list or a speed list, or breaks validity |
| Screensaver.HandleEvent | week2/screensaver/refactored.py:226-256 | every event keeps the canvas size, the hue, at least as many figures, no shorter speed lists, and validity |
| Screensaver.EventDispatch | week2/screensaver/refactored.py:226-256 | quit and escape stop; R restarts; P and F1 toggle; N appends a knot; the keypad keys change all steps; button 1 adds to the last figure; other buttons delete everywhere; anything else is ignored |
| Screensaver.HandleEvents | week2/screensaver/refactored.py:202-204 | a batch keeps the canvas size, the hue and validity and never shrinks the figure list; it ends in a restart exactly when it holds an R key, and the screensaver is then working and unpaused |
| Screensaver.HandleEventsSplit | week2/screensaver/refactored.py:202-204 | events are handled in order: a batch without an R key, followed by more events, gives what the more events give from the state the batch left |
| Screensaver.RestartFirst | week2/screensaver/refactored.py:236-237 | a batch that starts with an R key is the restart of the current state, whatever events follow |
| Screensaver.HandleEventsStopsAtRestart | week2/screensaver/refactored.py:197-204 | events after the first R key are never handled: the outcome is the restart of the state the earlier events left |
| Screensaver.Frame | week2/screensaver/refactored.py:202-216 | validity is kept; an R key cuts the frame short, so it is the handled batch and nothing more; otherwise the hue advances by one modulo 360, the flags are those the events left, and the figures stay when the events left the screensaver paused and each take one step when it runs |
| Screensaver.PauseKeyStopsFrame | week2/screensaver/refactored.py:238-239 | a P key pauses a running screensaver within the same frame, so no figure moves in it |
| Screensaver.Run | week2/screensaver/refactored.py:202-216 | validity is kept over any number of frames, and a stopped screensaver does nothing |
| Screensaver.QuietFrame | week2/screensaver/refactored.py:207-216 | with no input the hue advances; a paused screensaver leaves its figures alone, a running one steps each |
| Screensaver.PausedRunIsStill | week2/screensaver/refactored.py:214-215 | while paused and without input, no figure changes over any number of frames |
| Screensaver.QuitEndsRun | week2/screensaver/refactored.py:227-229 | a quit event finishes its frame and stops the loop |
| Screensaver.RestartInBatch | week2/screensaver/refactored.py:197-201 | an R key anywhere in a batch leaves every figure empty, the loop running and unpaused, and the hue unchanged |
| Screensaver.RestartEmptiesFigures | week2/screensaver/refactored.py:197-201 | a batch holding an R key ends in a restart with every figure's anchors emptied |
| Decorator.FreshHero | week3/decorator/abstractdecorator.py:7-22 | a fresh hero has exactly the ten listed stats and both effect lists are empty |
| Decorator.BerserkChanges | week3/decorator/abstractdecorator.py:58-86 | +7 Strength, Endurance, Agility and Luck; -3 Perception, Charisma and Intelligence; +50 HP; "Berserk" appended to positives; negatives untouched |
| Decorator.BlessingChanges | week3/decorator/abstractdecorator.py:95-109 | +2 to every stat except HP, MP and SP; "Blessing" appended to positives; negatives untouched |
| Decorator.WeaknessChanges | week3/decorator/abstractdecorator.py:116-138 | -4 to Strength, Endurance and Agility only; "Weakness" appended to negatives; positives untouched |
| Decorator.CurseChanges | week3/decorator/abstractdecorator.py:147-161 | -2 to every stat except HP, MP and SP; "Curse" appended to negatives; positives untouched |
| Decorator.EvilEyeChanges | week3/decorator/abstractdecorator.py:170-180 | -10 Luck and nothing else; "EvilEye" appended to negatives; positives untouched |
| Decorator.AppendDelta | week3/decorator/abstractdecorator.py:49-51 | wrapping one more effect adds that effect's documented change to the running total |
| Decorator.AppendKind | week3/decorator/abstractdecorator.py:41-47 | wrapping one more effect extends only the list of its kind |
| Decorator.StackedStats | week3/decorator/abstractdecorator.py:37-51 | a stat of any stack of effects is its fresh value plus the sum of the documented changes of the effects applied |
| Decorator.StackedEffectLists | week3/decorator/abstractdecorator.py:37-59 | the positive and negative lists are the applied effects of each kind, innermost first |
| Chain.Serve | week4/chain_of_responsibility/chainofresponsibility.py:39-70 | a get returns its type's field and leaves the record alone; a set writes only its type's field and returns None |
| Chain.Handle | week4/chain_of_responsibility/chainofresponsibility.py:27-70 | a successful get never changes the record and answers None or the field it names; a successful set answers None |
| Chain.FirstServing | week4/chain_of_responsibility/chainofresponsibility.py:39-70 | the first handler on the chain that serves the event; none before it does |
| Chain.HandleIsFirstServing | week4/chain_of_responsibility/chainofresponsibility.py:27-70 | handling equals a reference reading: the first serving handler acts; otherwise the chain ends at a null handler (None) or at a typed handler without a successor (failure) |
| Chain.Forwards | week4/chain_of_responsibility/chainofresponsibility.py:45-46 | a handler that does not serve passes the same record and event to its successor |
| Chain.LoneNullHandler | week4/chain_of_responsibility/chainofresponsibility.py:27-34 | a lone null handler answers None and changes nothing |
| Chain.SameHandlerServes | week4/chain_of_responsibility/chainofresponsibility.py:40-43 | the handler that serves a set of a type is the one that serves a get of it |
| Chain.FirstServingAgrees | week4/chain_of_responsibility/chainofresponsibility.py:39-70 | where the chain stops depends only on which kinds serve the event |
| Chain.SetThenGet | week4/chain_of_responsibility/chainofresponsibility.py:39-70 | on a chain that holds a handler for the value's type, a set followed by a get reads the value back, and the other fields stay |
| Chain.KindFor | week4/chain_of_responsibility/chainofresponsibility.py:37-70 | each supported type has a typed handler responsible for it |
| Chain.DemoChainServes | week4/chain_of_responsibility/chainofresponsibility.py:80 | the int-float-str-null chain serves every event about a supported type and answers None otherwise |
| Chain.DemoRun | week4/chain_of_responsibility/chainofresponsibility.py:74-96 | the demonstration's eight calls give 42, 3.14 and "some text", then the sets, then 0.5 and "new text" |
| Chain.FreshObjectReads | week4/chain_of_responsibility/chainofresponsibility.py:7-12 | a fresh record reads back 0, 0.0 and "" |
| Factorize.Factorize | week1/test_factorize.py:4-32 | TypeError exactly for non-integers; ValueError exactly for negatives; 0 and 1 give themselves; otherwise a sorted list of primes whose product is the input; a prime gives itself |
| Factorize.PrimeFactors | week1/test_factorize.py:4-10 | trial division yields sorted primes whose product is the input |
| Factorize.FactorizationUnique | week1/test_factorize.py:54-61 | two lists of primes with the same product are equal as multisets, so any correct answer passes the order-blind comparison |
| Factorize.PrimeFactorsOfPrime | week1/test_factorize.py:34-42 | the only factorisation of a prime is the prime itself |
| Factorize.SimpleNumbers | week1/test_factorize.py:34-42 | 3, 13 and 29 factor as themselves |
| Factorize.TwoSimpleMultipliers | week1/test_factorize.py:44-52 | 6, 26 and 121 factor as (2, 3), (2, 13) and (11, 11) |
| Factorize.ManyMultipliersSmall | week1/test_factorize.py:54-56 | 1001 factors as (7, 11, 13) |
| Factorize.ManyMultipliersLarge | week1/test_factorize.py:54-57 | 9699690 factors as (2, 3, 5, 7, 11, 13, 17, 19) |
| Observer.ShortUpdate | week3/observer/observer.py:16-17 | the title is now in the set, and nothing else was added |
| Observer.FullUpdate | week3/observer/observer.py:24-27 | the achievement is now in the list, and a list that already holds it is unchanged; the old list is a prefix of the new one and at most one entry was added; a list without duplicates keeps none |
| Observer.Update | week3/observer/observer.py:16-27 | a printer stays the same kind of printer |
| Observer.UpdateIdempotent | week3/observer/observer.py:16-27 | receiving an achievement twice equals receiving it once, for both printers |
| Observer.ShortCollectsTitles | week3/observer/observer.py:12-17 | a short printer holds exactly the titles that arrived |
| Observer.FullCollectsOnce | week3/observer/observer.py:20-27 | a full printer holds every achievement that arrived, each once |
| Observer.FullOrderAt | week3/observer/observer.py:24-27 | any two entries of the full list are in the order of their first arrival |
| Observer.FullKeepsFirstArrivalOrder | week3/observer/observer.py:24-27 | the whole full list is in first-arrival order |
| Observer.Subscribe | week3/observer/observer.py:34-35 | the observer is subscribed, and no other membership changes |
| Observer.Unsubscribe | week3/observer/observer.py:37-38 | fails exactly when the observer is not subscribed; otherwise removes only that observer |
| Observer.SubscribeIdempotent | week3/observer/observer.py:34-35 | subscribing twice equals subscribing once |
| Observer.SubscribeThenUnsubscribe | week3/observer/observer.py:34-38 | subscribing a new observer and then unsubscribing it restores the engine |
| Observer.Notify | week3/observer/observer.py:40-42 | each subscribed observer is updated exactly once from its previous state; every other object is untouched |
| Observer.NotifyIdempotent | week3/observer/observer.py:40-42 | broadcasting the same achievement twice equals broadcasting it once |
| Observer.UnsubscribedMissesBroadcast | week3/observer/observer.py:37-42 | after unsubscribing, an observer is not touched by broadcasts |
| Adapter.Scan | week3/adapter/adapter.py:9-15 | (x, y) is a light exactly when the cell holds 1, and an obstacle exactly when it holds -1; both lists are in strict row-major order |
| Adapter.RowMajorHasNoDuplicates | week3/adapter/adapter.py:9-15 | a list in strict row-major order names no cell twice |
| Adapter.ScanPartitions | week3/adapter/adapter.py:9-15 | no cell is both a light and an obstacle, and other values appear in neither list |
| Adapter.Lighten | week3/adapter/adapter.py:5-20 | an empty map fails before any call; otherwise the calls are set_dim(first row length, rows), set_lights, set_obstacles, generate_lights, in that order, and the lighting system's answer is returned unchanged |

Lemma rows also stand for the definitions they describe. `Vec2d.Add`, `Sub`, `Scale`, `Lt` and `Gt` are covered by the `Vec2d` lemmas, `Knot.GetPoint` by the `GetPointAt…` lemmas, and `Polyline.MovePoint` by `Polyline.SetPoints` and the reflection lemmas. `Decorator.GetStats`, `GetPositiveEffects` and `GetNegativeEffects` are covered by the `…Changes`, `Append…` and `Stacked…` lemmas, and `Observer.ShortLog`, `FullLog` and `Notified` by the lemmas about them.

## Left out

- Rendering is not modelled: pygame drawing, the window, the help overlay, `surface.fill` and `display.flip`. The model keeps the state they read.
- The `hsla` colour conversion is not modelled; only the hue counter is.
- `random.uniform` is not modelled. The drawn speed is an input constrained to [0.001, 1.1].
- `Vec2d.__len__` and `int_pair` are not modelled: nothing in the modelled core uses them.
- IEEE floating-point rounding is not modelled; arithmetic is exact over `real`.
- `logging` calls are not modelled.
- Screensaver.Frame: the nested `start()` call that the R key makes is modelled only up to the end of the frame in which it happens; the nested loop then simply continues as the next frames. Its stack growth is not modelled. The `exit(0)` that ends the nested loop ends the whole program, so the outer loop never resumes and nothing is lost by this flattening.
- Screensaver.Run: event batches and speed draws are inputs, one per frame. The event queue itself is not modelled.
- The `Engine` base class of the observable engine is not part of this model.
- The order in which Python iterates a set in `notify` is not modelled. The model leaves it unspecified, and the result does not depend on it.
- Observer.ShortUpdate: an achievement without a "title" key (a `KeyError` in Python) is not modelled; every achievement has a title.
- The lighting system's `set_dim`, `set_lights`, `set_obstacles` and `generate_lights` are foreign code. They are modelled only as recorded calls and a caller-supplied result function.
- Python's bool-is-int quirk in `isinstance` is not modelled: a `True` value is not routed to the int handler.
- Factorize.Factorize: only ints, floats and strings are distinguished as arguments. Every other argument type would also raise `TypeError`.
- The `__main__` demonstration's printing is not modelled; its calls are stated as `Chain.DemoRun`.
