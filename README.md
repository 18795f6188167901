# Ingredient-zone detector

A model of the decision logic of the hand-tracking viewer in
`csharp_3d_viewer/Program.cs`. The program works in two phases:

- **Setup.** For each ingredient in a fixed list (`Lettuce`, `Tomato`), in
  order, the operator holds a hand in place. The current hand position is
  added to a dictionary under the ingredient's name.
- **Detection.** A loop keeps reading the clock and the latest hand position.
  When more than 250 ms have passed since the last evaluation, it resets its
  timer. It then looks for the first dictionary entry whose centre lies
  within 200 units of the hand on each of X, Y and Z, using strict
  inequalities. If it finds one, it reports that entry's name.

The model has three modules:

- `Zones` (zones.dfy) holds the pure matcher. It has the `Point` and `Zone`
  values, the open box test `InBox` with the single tolerance 200, the
  first-match search `FirstMatch` in enumeration order, and the report
  filter `Reported`. `Reported` drops a null or empty key.
- `ZoneRegistry` (registry.dfy) holds the dictionary. It is a class
  `Registry` whose entries are a sequence of zones in insertion order. The
  source's dictionary is never removed from, so its enumeration order is its
  insertion order. `Registry.Add` returns an error on an existing key
  instead of overwriting. The setup pass is the method `Setup`. It is
  specified by the function `Populate`, and lemmas give the resulting key
  set, order and uniqueness.
- `Detection` (detector.dfy) holds the timer. It is a class `Detector` with
  the single field `lastEvent`, in milliseconds. `Tick` is one pass of the
  loop and `Loop` is the loop over a sequence of observed samples. They are
  specified by the functions `Step` and `Run`. Lemmas about `Run` prove the
  rate limit, that reports name registered zones, and that an empty registry
  reports nothing.

What the code does, and what the model follows:
- One tolerance, 200, is used on every axis and for every zone.
- When several boxes contain the point, the first match in insertion order
  wins, not the nearest centre. `Zones.FirstMatchIsNotNearest` exhibits a
  point where the nearer zone loses.
- The timer is a 250 ms gate.
- `Add` throws on a repeated key; it never overwrites.

## Model

| member | source | states |
|---|---|---|
| Zones.FirstMatch | csharp_3d_viewer/Program.cs:124-126 | the result is absent exactly when no zone's box contains the point; otherwise it is a zone whose box contains the point, and no earlier zone's box does |
| Zones.Reported | csharp_3d_viewer/Program.cs:128-131 | a name is reported exactly when the matcher found a zone and its key is not empty, and the name reported is that key |
| Zones.InBoxIffChebyshev | csharp_3d_viewer/Program.cs:124-126 | a point matches a zone exactly when its largest per-axis distance from the centre is below the tolerance 200, the same on all axes |
| Zones.FaceExcluded | csharp_3d_viewer/Program.cs:124-126 | a point with any coordinate equal to centre plus or minus 200 does not match: the intervals are open |
| Zones.CentreInBox | csharp_3d_viewer/Program.cs:124-126 | the captured centre itself lies in its own zone |
| Zones.FirstMatchIsHeadOfMatching | csharp_3d_viewer/Program.cs:124 | the first match equals the head of the list of all matching zones in enumeration order, and is absent when that list is empty |
| Zones.FirstMatchAppend | csharp_3d_viewer/Program.cs:124 | zones added later never change a match among earlier zones; they are consulted only when no earlier zone matches |
| Zones.FirstMatchIsNotNearest | csharp_3d_viewer/Program.cs:124-126 | an example: with zones at (0,0,0) then (180,0,0), the point (150,0,0) lies in both boxes and is nearer the second centre, yet the first zone is returned |
| ZoneRegistry.AddEntry | csharp_3d_viewer/Program.cs:105 | adding succeeds exactly when the name is not yet a key; it then appends one zone, and otherwise leaves the entries unchanged; keys stay unique |
| ZoneRegistry.ZonesOf | csharp_3d_viewer/Program.cs:97-107 | setup builds exactly one zone per name |
| ZoneRegistry.ZonesOfAt | csharp_3d_viewer/Program.cs:97-107 | the i-th zone pairs the i-th name with the i-th captured point |
| ZoneRegistry.PopulateKeepsDistinct | csharp_3d_viewer/Program.cs:97-107 | the setup pass never leaves two zones under one name |
| ZoneRegistry.PopulateSucceeds | csharp_3d_viewer/Program.cs:97-107 | setup succeeds exactly when the names are distinct and none is already a key; it then appends one zone per name in list order, and the key set grows by exactly the names |
| ZoneRegistry.PopulateOkIff | csharp_3d_viewer/Program.cs:97-107 | setup succeeds exactly when the names are distinct and none is already a key |
| ZoneRegistry.PopulateOnSuccess | csharp_3d_viewer/Program.cs:97-107 | a successful setup appends one zone per name, in list order |
| ZoneRegistry.LabelsOfZones | csharp_3d_viewer/Program.cs:97-107 | the keys of the zones built from a name list are exactly the names |
| ZoneRegistry.PopulateKeepsPrefix | csharp_3d_viewer/Program.cs:97-107 | entries present before setup stay in place and in order |
| ZoneRegistry.PopulateOnFailure | csharp_3d_viewer/Program.cs:97-107 | a failing setup stopped at some k-th name that is already a key, and holds the old entries followed by the zones of the k names before it |
| ZoneRegistry.PopulateExtends | csharp_3d_viewer/Program.cs:97-107 | entries present before setup stay in place and in order; when an add fails, the entries added before it remain (the old entries plus the zones of the names before the failing one) and the failing name is already a key |
| ZoneRegistry.IngredientSetup | csharp_3d_viewer/Program.cs:84-107 | setting up the fixed list on the empty dictionary succeeds with Lettuce then Tomato at their captured points, and the keys are exactly those two names |
| ZoneRegistry.Registry.constructor | csharp_3d_viewer/Program.cs:85 | the dictionary starts empty |
| ZoneRegistry.Registry.Add | csharp_3d_viewer/Program.cs:105 | appends the zone when the name is new and reports failure with nothing changed when it is already a key; keys stay unique |
| ZoneRegistry.Setup | csharp_3d_viewer/Program.cs:97-107 | the loop leaves the dictionary and the outcome that Populate gives, stopping at the first failing add |
| ZoneRegistry.SetupIngredients | csharp_3d_viewer/Program.cs:84-107 | after the program's setup pass the dictionary holds one zone per ingredient in list order and its keys are exactly Lettuce and Tomato |
| Detection.Step | csharp_3d_viewer/Program.cs:119-131 | the matcher runs exactly when more than 250 ms have passed; then the timer becomes now, otherwise it is unchanged and nothing is reported; a report names the first zone containing the point and is never empty; when the matcher runs and the first zone containing the point has a non-empty name, that name is reported |
| Detection.RunIsRateLimited | csharp_3d_viewer/Program.cs:114-121 | over any run, the first evaluation comes more than 250 ms after the start, each later one more than 250 ms after the previous, and the timer holds the time of the latest evaluation |
| Detection.RunReportsBounded | csharp_3d_viewer/Program.cs:117-131 | a run reports at most once per evaluation and evaluates at most once per pass |
| Detection.RunReportsRegistered | csharp_3d_viewer/Program.cs:124-131 | every name reported in a run is a key of the dictionary and is not empty |
| Detection.EmptyRegistryReportsNothing | csharp_3d_viewer/Program.cs:124-131 | with an empty dictionary no run reports anything |
| Detection.Detector.constructor | csharp_3d_viewer/Program.cs:114 | the timer starts at the clock time the loop is entered |
| Detection.Detector.Tick | csharp_3d_viewer/Program.cs:119-133 | one pass evaluates exactly when more than 250 ms have passed since lastEvent; it then sets lastEvent to now, and otherwise leaves lastEvent unchanged and reports nothing; the dictionary is unchanged |
| Detection.Detector.Loop | csharp_3d_viewer/Program.cs:117-135 | the loop's reports and final timer are those of Run over the observed samples; the dictionary is unchanged |
| Detection.SetupThenDetect | csharp_3d_viewer/Program.cs:97-131 | after setup of the ingredient list, a hand at a captured position is reported by a pass that clears the rate limit, under that ingredient or an earlier one whose box also contains it |

## Left out

- Coordinates are exact reals. The source's single-precision rounding of `center ± 200` is not modelled. Neither are non-finite values: with a NaN coordinate every comparison at lines 124-126 is false and nothing matches, but Dafny reals have no NaN.
- The clock is a parameter in whole milliseconds. On a pass that evaluates, the source reads `DateTime.Now` twice, once for the test and once for the reset; a pass that does not evaluate reads it once. The model uses one reading for both. Sub-millisecond fractions of `TotalMilliseconds` are not modelled.
- The latest hand position and the session-active flag come from the renderer thread. The model takes them as plain inputs: a captured point per ingredient in `Setup`, and a sequence of samples in `Detector.Loop`. The loop ends when the samples run out. Cross-thread visibility and the busy-wait are not modelled.
- Console prompts, key presses and the `Found` console line are not modelled. A report is returned as a value.
- Text-to-speech prompts (`SynthesisToSpeakerAsync`) are a cloud service call with no effect on the dictionary, so they are not modelled.
- The Kinect device, body tracker and renderer thread (`RunVideo`) and `Main`'s task orchestration are not modelled.
- A failed `Dictionary.Add` throws in the source, and the exception ends the program. The model returns `false`, keeps the entries added so far and stops the setup pass (`ZoneRegistry.PopulateExtends` proves what is kept). Null keys cannot occur, because Dafny strings are never null.
- `csharp_3d_viewer/Model/ItemLocation.cs` is an unused property bag. Only its name-plus-position shape survives, as `Zone`.
