# ZFin3D core, modelled in Dafny

ZFin3D shows a zebrafish brain in Unity. A positions file lists the neurons:
their position, their region and subregion, and a label. Signal files list, per
neuron row, whether the neuron fired at each timestamp. From these files the
viewer builds a brain, its regions and neurons. It then plays a seizure back on
one region, one timestamp at a time. A second viewer colours a matrix of
signals, and a GPU renderer draws the neurons as records in a buffer. Exported
frames are turned into videos by a small Python tool. That tool picks and sorts
the frame images, crops them, interpolates between them and writes the video.

The model covers these parts:

- **The scene objects.** `BrainComponents` models the neuron, region and brain
  classes as Dafny classes. `TimeSeries` models the per-fish activity stores,
  which neurons and brains overwrite and regions sum and count. `Geometry`
  models Unity's `Vector3`, `Color` and `Bounds`.
- **The scene loader.** `LoadFishData` models the positions file and the
  dictionary of signal files. `FishSignals` models how a signal file is written
  into every brain. `Seizures` models selection, loading and playback.
- **The standalone viewer.** `LoadAndViewData` models its file reading, its 0/1
  signal matrix and its ticker, jump, step-through and export.
- **The GPU renderer.** `NeuronGPUSystem` models the CPU side of the renderer:
  loading, bounds and activation updates.
- **The video tool.** `VideoUtils`, `Config`, `FrameProcessor` and
  `VideoProcessor` model the Python tool.
- **.NET and Python string handling.** `Text` models the string handling the
  loaders use: `Trim`, `Split`, `TryParse`, `ToString("D5")` and regular
  expression searches.

Files, directory listings, image loading and the video writer are inputs. A
file is its lines, or `None` when it does not exist. A listing is a sequence of
names. Image loading is a function from a path to a shape, or `None` when
loading raises.

## Model

| member | source | states |
|---|---|---|
| BrainComponents.FeatureData.AddFeature | Assets/scripts/BrainComponents/NeuronData.cs:18-21 | the feature becomes active and no other feature's state changes |
| BrainComponents.HighlightSphere.TurnOn | Assets/scripts/BrainComponents/NeuronData.cs:84 | the highlight is shown afterwards |
| BrainComponents.HighlightSphere.TurnOff | Assets/scripts/BrainComponents/NeuronData.cs:93 | the highlight is hidden afterwards |
| BrainComponents.SphereBounds | Assets/scripts/BrainComponents/NeuronData.cs:131 | the rendered box of a neuron scaled to a non-negative size contains its position |
| BrainComponents.ActivationByKey | Assets/scripts/BrainComponents/NeuronData.cs:96-108 | the intended activation test: active exactly when a value is stored at t and it is positive |
| BrainComponents.Neuron.constructor | Assets/scripts/BrainComponents/NeuronData.cs:24-42 | a neuron holds the given fields, no activity, and no inspector change recorded yet |
| BrainComponents.Neuron.OnValidate | Assets/scripts/BrainComponents/NeuronData.cs:56-64 | an inspector change of isActive reaches the highlight once; with no change the highlight is left alone |
| BrainComponents.Neuron.Activate | Assets/scripts/BrainComponents/NeuronData.cs:79-85 | the neuron is active and its highlight is on |
| BrainComponents.Neuron.Deactivate | Assets/scripts/BrainComponents/NeuronData.cs:88-94 | the neuron is inactive and its highlight is off |
| BrainComponents.Neuron.AddActivity | Assets/scripts/BrainComponents/NeuronData.cs:66-76 | the value overwrites the neuron's entry, is added and counted in its region, overwrites its brain's entry, and the region stays well formed |
| BrainComponents.Neuron.SetActiveState | Assets/scripts/BrainComponents/NeuronData.cs:96-108 | the guard as written: the lookup fails exactly when the guard passes but t is not a key; otherwise the neuron and its highlight show the guarded test |
| BrainComponents.Neuron.SetActiveStateByKey | Assets/scripts/BrainComponents/NeuronData.cs:96-108 | the corrected guard: the neuron and its highlight show exactly ActivationByKey |
| BrainComponents.Neuron.CopyNeuron | Assets/scripts/BrainComponents/NeuronData.cs:146-182 | the clone takes the new position, brain and (when given) colour, keeps every other field, region and highlight sphere, and starts with no activity and a fresh empty feature set |
| BrainComponents.Neuron.CopyActivityData | Assets/scripts/BrainComponents/NeuronData.cs:184-201 | the neuron ends with exactly the original's activity; its region receives each copied entry once and its brain each entry's value |
| BrainComponents.Neuron.ReplaySeries | Assets/scripts/BrainComponents/NeuronData.cs:194-199 | one fish's series is replayed entry by entry, extending an enumeration of the original's store |
| BrainComponents.Region.constructor | Assets/scripts/BrainComponents/RegionData.cs:9-17 | a region starts with its name, colour and brain, no neurons, the zero box and empty stores |
| BrainComponents.Region.AddActivity | Assets/scripts/BrainComponents/RegionData.cs:27-37 | the value is added to the sum at t (from 0 when new) and the fish's count grows by one, nothing else changes |
| BrainComponents.Region.UpdateMinMax | Assets/scripts/BrainComponents/RegionData.cs:19-26 | each fish's minimum and maximum become the least and greatest of its sums; other entries keep their values |
| BrainComponents.Region.AddNeuron | Assets/scripts/BrainComponents/RegionData.cs:38-46 | the neuron is appended, the first one resets the bounds to its position, and the bounds keep covering every neuron's rendered box |
| BrainComponents.Region.GetActiveNeurons | Assets/scripts/BrainComponents/RegionData.cs:48-61 | the region's neurons whose value at t reaches the threshold, in list order |
| BrainComponents.ActiveAmongMembers | Assets/scripts/BrainComponents/RegionData.cs:48-61 | a neuron is returned if and only if it belongs to the region and reaches the threshold |
| BrainComponents.ActiveAmongAppend | Assets/scripts/BrainComponents/RegionData.cs:48-61 | the filter keeps list order: the result for a concatenation is the concatenation of the results |
| BrainComponents.UpdateExtremes | Assets/scripts/BrainComponents/RegionData.cs:21-25 | the loop sets the minimum and maximum of exactly the fish of the sums |
| BrainComponents.ExtremesUpdateIdempotent | Assets/scripts/BrainComponents/RegionData.cs:19-26 | a second UpdateMinMax changes nothing |
| BrainComponents.SeriesRange | Assets/scripts/BrainComponents/RegionData.cs:23-24 | Values.Min() and Values.Max() are the least and greatest values of the series |
| BrainComponents.Brain.constructor | Assets/scripts/BrainComponents/BrainData.cs:9-13 | a brain starts empty, with the zero box at the origin |
| BrainComponents.Brain.AddActivity | Assets/scripts/BrainComponents/BrainData.cs:15-23 | the value overwrites the brain's entry for the fish at t, nothing else changes |
| BrainComponents.Brain.AddNeuron | Assets/scripts/BrainComponents/BrainData.cs:25-29 | the neuron is appended and the bounds stay those reached by encapsulating every position in turn |
| BrainComponents.CoverSnoc | Assets/scripts/BrainComponents/RegionData.cs:38-46 | growing (or resetting, for the first neuron) the bounds by a neuron's box keeps all neurons covered |
| BrainComponents.BrainBoundsMinimal | Assets/scripts/BrainComponents/BrainData.cs:25-29 | a brain's bounds are the smallest box holding the origin and every neuron position |
| BrainComponents.ActivationMatchesQuery | Assets/scripts/BrainComponents/RegionData.cs:48-61 | for 0/1 values the corrected activation test agrees with the region's 0.5 threshold |
| BrainComponents.ActivationGapCounterexample | Assets/scripts/BrainComponents/NeuronData.cs:98 | the guard as written hides the positive value of the series {1: 1.0} at t = 1 |
| BrainComponents.ActivationLookupCounterexample | Assets/scripts/BrainComponents/NeuronData.cs:98-100 | the guard as written lets t = 0 through for the series {5: 1.0}, and the lookup fails |
| BrainComponents.ActivationDenseAgrees | Assets/scripts/BrainComponents/NeuronData.cs:98-100 | on a series keyed exactly 0 .. Count-1 the guard as written and the key test agree |
| Config.VideoConfig.constructor | Assets/scripts/Videoprocessing/config.py:4-11 | the defaults: repeat 5, interpolate 2, 60 fps, mp4v, SignalDataFrames, Videos |
| Config.Fit | Assets/scripts/Videoprocessing/config.py:28-40 | no box exactly when the corner is outside the image; otherwise the corner is kept and the box ends inside the image |
| Config.FitKeepsFitting | Assets/scripts/Videoprocessing/config.py:35-38 | a box that already fits is returned as it is |
| Config.FitShrinks | Assets/scripts/Videoprocessing/config.py:35-38 | fitting never enlarges the box |
| Config.FitIdempotent | Assets/scripts/Videoprocessing/config.py:28-40 | validating a second time against the same image changes nothing |
| Config.CropConfig.constructor | Assets/scripts/Videoprocessing/config.py:21-26 | the crop holds the four given values |
| Config.CropConfig.ToList | Assets/scripts/Videoprocessing/config.py:42-43 | four values, in the order x, y, width, height |
| Config.CropConfig.ValidateAgainstImage | Assets/scripts/Videoprocessing/config.py:28-40 | raises (nothing changed) exactly when the corner is outside; otherwise the crop becomes its fitted box, which lies inside the image, and that box is returned |
| FrameProcessor.SliceIndex | Assets/scripts/Videoprocessing/frame_processor.py:35 | a Python slice bound: in range it is kept, negative counts from the end, and the result is clamped into the length |
| FrameProcessor.ClampCrop | Assets/scripts/Videoprocessing/frame_processor.py:29-33 | the corner is clamped into the frame and the size cut to what remains of it |
| FrameProcessor.ApplyCrop | Assets/scripts/Videoprocessing/frame_processor.py:10-35 | the cropped window always lies inside the frame; without crop parameters it is the whole frame |
| FrameProcessor.ClampCropInside | Assets/scripts/Videoprocessing/frame_processor.py:29-33 | the clamped corner lies in a non-empty frame and the clamped window never passes its right or bottom edge |
| FrameProcessor.ApplyCropExact | Assets/scripts/Videoprocessing/frame_processor.py:29-35 | with non-negative sizes the slice is exactly the clamped window |
| FrameProcessor.ApplyCropKeepsFit | Assets/scripts/Videoprocessing/frame_processor.py:21-35 | a crop that fits the frame is cut exactly as given |
| FrameProcessor.BlendWeights | Assets/scripts/Videoprocessing/frame_processor.py:43-44 | one weight per interpolated frame, none for a non-positive count |
| FrameProcessor.BlendWeightsIncrease | Assets/scripts/Videoprocessing/frame_processor.py:43-44 | every weight lies strictly between 0 and 1 and the weights strictly increase |
| FrameProcessor.InterpolateFrames | Assets/scripts/Videoprocessing/frame_processor.py:37-52 | fails exactly when the shapes differ; otherwise the blends are made with the weights, in order |
| VideoUtils.FirstGroup | Assets/scripts/Videoprocessing/utils.py:35-38 | a group is found if and only if some pattern matches, and it is a non-empty digit run |
| VideoUtils.FirstGroupIsFirst | Assets/scripts/Videoprocessing/utils.py:35-38 | the group comes from the first pattern that matches; every earlier pattern fails |
| VideoUtils.ExtractFrameNumber | Assets/scripts/Videoprocessing/utils.py:23-40 | a number is returned only when some pattern matches the cleaned name |
| VideoUtils.AnyDigitsMatch | Assets/scripts/Videoprocessing/utils.py:32 | the last pattern matches if and only if the name has a digit |
| VideoUtils.MatchNeedsDigit | Assets/scripts/Videoprocessing/utils.py:27-33 | no pattern matches a name without a digit |
| VideoUtils.NoFrameNumberIffNoDigit | Assets/scripts/Videoprocessing/utils.py:23-40 | None is returned if and only if the lowercased name, stripped of ".png", has no digit |
| VideoUtils.SearchGroupIsPiece | Assets/scripts/Videoprocessing/utils.py:36-38 | the group a search returns is a piece of the name |
| VideoUtils.FrameNumberIsFirstGroup | Assets/scripts/Videoprocessing/utils.py:23-40 | the frame number is the value of the first matching pattern's group, which is a run of digits of the cleaned name |
| Geometry.Min3 | Assets/scripts/NeuronGPUSystem.cs:253 | Vector3.Min: below both arguments, each coordinate taken from one of them |
| Geometry.Max3 | Assets/scripts/NeuronGPUSystem.cs:254 | Vector3.Max: above both arguments, each coordinate taken from one of them |
| Geometry.PointBox | Assets/scripts/BrainComponents/RegionData.cs:43 | a zero-size box holds its centre and nothing else |
| Geometry.Encapsulate | Assets/scripts/BrainComponents/BrainData.cs:28 | the grown box holds the point and the old box, and is the smallest box that does |
| Geometry.EncapsulateBox | Assets/scripts/BrainComponents/RegionData.cs:45 | the grown box holds the old box and every point of the added box |
| Geometry.EncapsulateAllMinimal | Assets/scripts/BrainComponents/BrainData.cs:25-29 | encapsulating a sequence of points gives the smallest box holding the start box and every point |
| Geometry.EncapsulateAllSnoc | Assets/scripts/BrainComponents/BrainData.cs:28 | one more point is encapsulated last |
| Geometry.EncapsulateAllOrderIndependent | Assets/scripts/BrainComponents/BrainData.cs:25-29 | the bounds do not depend on the order (or repetition) of the points added |
| Geometry.ColourOfFinds | Assets/scripts/LoadFishData.cs:705 | a listed region is drawn in its own colour |
| Geometry.ColourOfMisses | Assets/scripts/LoadFishData.cs:705 | an unlisted region is drawn white |
| TimeSeries.Put | Assets/scripts/BrainComponents/NeuronData.cs:69-73 | the fish is known afterwards, its value at t is v, and every other (fish, t) entry is unchanged |
| TimeSeries.Accumulate | Assets/scripts/BrainComponents/RegionData.cs:27-37 | the sum at t grows by v (from 0), the fish's count by one, and nothing else changes |
| TimeSeries.AddAllFish | Assets/scripts/BrainComponents/RegionData.cs:27-37 | after a run of additions the region knows its old fish and those added |
| TimeSeries.AddAllTimes | Assets/scripts/BrainComponents/RegionData.cs:27-37 | each fish's timestamps are its old ones plus those added for it |
| TimeSeries.AddAllSum | Assets/scripts/BrainComponents/RegionData.cs:34 | each sum is the old sum plus every value added at that place |
| TimeSeries.AddAllCount | Assets/scripts/BrainComponents/RegionData.cs:35 | each count is the old count plus the number of additions for the fish |
| TimeSeries.AddAllOrderIndependent | Assets/scripts/BrainComponents/RegionData.cs:27-37 | the sums and counts do not depend on the order the values arrive in |
| TimeSeries.PutAllLastWriteWins | Assets/scripts/BrainComponents/NeuronData.cs:72 | after a run of writes each entry holds the last value written there, or its old value |
| TimeSeries.LastValueSpec | Assets/scripts/BrainComponents/NeuronData.cs:72 | there is a last write for (f, t) exactly when some write is for (f, t), and it carries one of their values |
| TimeSeries.PutAllEnumeration | Assets/scripts/BrainComponents/NeuronData.cs:184-201 | writing every entry of a store once into an empty store rebuilds it |
| TimeSeries.AddAllEnumeration | Assets/scripts/BrainComponents/NeuronData.cs:184-201 | adding every entry of a store once adds each value once and counts each entry once |
| Text.TrimStart | Assets/scripts/LoadFishData.cs:821 | drops the longest prefix of trimmed characters |
| Text.TrimEnd | Assets/scripts/LoadFishData.cs:821 | drops the longest suffix of trimmed characters |
| Text.TrimSetCharacterized | Assets/scripts/LoadFishData.cs:821 | the trim is the one slice with only trimmed characters outside it and none at its ends |
| Text.TrimSetSlice | Assets/scripts/LoadFishData.cs:821 | the trim is a slice of the input, with only trimmed characters cut away |
| Text.TrimSetIdempotent | Assets/scripts/LoadFishData.cs:691-693 | trimming twice is trimming once |
| Text.Split | Assets/scripts/LoadFishData.cs:678 | one field more than there are separators, and no field holds a separator |
| Text.SplitRoundTrip | Assets/scripts/LoadFishData.cs:678 | the fields, rejoined with their separators, give back the line |
| Text.RemoveEmpty | Assets/scripts/LoadFishData.cs:697 | the non-empty fields, and only fields of the input |
| Text.NatToString | Assets/scripts/LoadandViewData.cs:970 | a digit string without a leading zero |
| Text.NatToStringRoundTrip | Assets/scripts/LoadandViewData.cs:970 | reading the spelling of n gives back n |
| Text.FormatD | Assets/scripts/LoadandViewData.cs:970 | digits padded with zeros to at least the width |
| Text.FormatDRoundTrip | Assets/scripts/LoadandViewData.cs:970 | the padded spelling still reads as n |
| Text.ParseInt32 | Assets/scripts/LoadFishData.cs:686 | a parsed value lies in the 32-bit range |
| Text.ParseInt32RoundTrip | Assets/scripts/LoadFishData.cs:686 | every 32-bit int survives ToString then TryParse |
| Text.ParseDecimal | Assets/scripts/LoadFishData.cs:687-689 | a value is read if and only if the text is a numeral |
| Text.ParseDecimalOfInt | Assets/scripts/LoadFishData.cs:369 | an integer written out reads back as that number |
| Text.ParseDecimalPositive | Assets/scripts/LoadFishData.cs:369-380 | a numeral reads as positive if and only if it has no minus sign and a non-zero digit |
| Text.Search | Assets/scripts/Videoprocessing/utils.py:36 | a match exists if and only if the pattern matches somewhere, and its group is a non-empty digit run |
| Text.DigitRuns | Assets/scripts/LoadandViewData.cs:529 | every run found is a non-empty digit string |
| Text.DigitRunsMaximal | Assets/scripts/LoadandViewData.cs:529 | Regex.Matches of \d+: the runs are the whole runs of digits, each a maximal slice, in left-to-right order, and every digit lies in one of them |
| Text.DigitRunsEmpty | Assets/scripts/LoadandViewData.cs:529 | there is no run if and only if there is no digit |
| Text.RemoveAll | Assets/scripts/Videoprocessing/utils.py:25 | deleting occurrences never lengthens the name |
| Text.Lower | Assets/scripts/Videoprocessing/utils.py:25 | each character is lowercased in place |
| LoadFishData.CleanList | Assets/scripts/LoadFishData.cs:818-823 | the list neither starts nor ends with a bracket or quote mark |
| LoadFishData.FirstRegion | Assets/scripts/LoadFishData.cs:696-701 | every neuron gets a non-empty region name |
| LoadFishData.FirstRegionPieces | Assets/scripts/LoadFishData.cs:696-701 | the region is the first non-blank piece of the cleaned list, trimmed, or "None" |
| LoadFishData.FirstRegionHasNoSeparator | Assets/scripts/LoadFishData.cs:696-701 | a region name holds no '+' or '/' |
| LoadFishData.FirstTrimmedRemoveEmpty | Assets/scripts/LoadFishData.cs:697-699 | dropping empty pieces before trimming does not change the first non-blank piece |
| LoadFishData.CheckNamesAgrees | Assets/scripts/LoadFishData.cs:640-650 | the header test as written accepts exactly the good headers and fails only on the first six expected names |
| LoadFishData.CheckHeaderAsWrittenAgrees | Assets/scripts/LoadFishData.cs:638-655 | the same on the raw header fields |
| LoadFishData.HeaderIndexOutOfRangeExample | Assets/scripts/LoadFishData.cs:640-650 | a six-column header passes the length guard and fails at headers[6] |
| LoadFishData.ClassifyRow | Assets/scripts/LoadFishData.cs:676-701 | the corrected row test: skipped below six values or when six values have a position (the row that would throw), counted without a neuron exactly when x, y or z does not parse, accepted exactly with seven values and a position, with the parsed position and the first region |
| LoadFishData.ClassifyRowAgrees | Assets/scripts/LoadFishData.cs:681-693 | the row test as written fails exactly on six values with a position, where the corrected test skips; on every other row the two agree |
| LoadFishData.SixValuesNoPositionExample | Assets/scripts/LoadFishData.cs:681-689 | a six-value row whose x does not parse is counted without a neuron both as written and as corrected, so later rows keep their line index |
| LoadFishData.RowIndexOutOfRangeExample | Assets/scripts/LoadFishData.cs:681-693 | the six-value row 1,0,0,0,Diencephalon,x fails as written and is skipped by the corrected test |
| LoadFishData.LineIndicesIncrease | Assets/scripts/LoadFishData.cs:728-754 | without SWC indices the neuron indices strictly increase and stay below the lines counted |
| LoadFishData.RegionNames | Assets/scripts/LoadFishData.cs:711-722 | exactly the region names of the rows |
| LoadFishData.FishKey | Assets/scripts/LoadFishData.cs:225-230 | a name has a key if and only if it matches FishSignalData(\d+), and the key is "Fish" + the digits |
| LoadFishData.Dictionary | Assets/scripts/LoadFishData.cs:226-232 | ToDictionary: fails exactly on a repeated key; otherwise each keyed name is under its key and nothing else is |
| LoadFishData.FishKeys | Assets/scripts/LoadFishData.cs:225-230 | the key of every file name, in order |
| LoadFishData.Binarise | Assets/scripts/LoadFishData.cs:380 | 1 for a positive value, else 0 |
| LoadFishData.ColumnEvent | Assets/scripts/LoadFishData.cs:367-381 | a cell gives one event, at timestamp column - 10, exactly when it parses |
| LoadFishData.RowEvents | Assets/scripts/LoadFishData.cs:366-390 | every event of a row is a 0/1 value for the fish at a timestamp of a read column |
| LoadFishData.RowEventsSpec | Assets/scripts/LoadFishData.cs:366-390 | a row writes timestamp t if and only if its cell 10 + t parses, with that cell binarised |
| LoadFishData.PutAllBinary | Assets/scripts/LoadFishData.cs:380 | writing 0/1 values keeps a 0/1 store 0/1 |
| LoadFishData.InRegionMembers | Assets/scripts/LoadFishData.cs:711-751 | a region's neurons are exactly the neurons filed under it |
| LoadFishData.EnterRegion | Assets/scripts/LoadFishData.cs:711-722 | the region of a name is the existing one, or a new one with that name, its colour and the brain |
| LoadFishData.FileNeuron | Assets/scripts/LoadFishData.cs:750-751 | the neuron is appended to the brain and its region, and the brain's bounds stay tight |
| LoadFishData.AddEntry | Assets/scripts/LoadFishData.cs:705-751 | one accepted row adds its neuron and keeps the brain what the rows so far describe |
| LoadFishData.MakeNeuron | Assets/scripts/LoadFishData.cs:724-742 | a fresh neuron with the row's index, position, colour, subregion and label, no activity and inactive |
| LoadFishData.ReadRow | Assets/scripts/LoadFishData.cs:676-755 | one data row: skipped, counted without a neuron, or made a neuron, keeping the brain built from the rows so far |
| LoadFishData.LoadAllNeuronData | Assets/scripts/LoadFishData.cs:621-762 | a missing file and a bad header (exactly when the header test fails) are reported, and an empty file, where the source throws on the null header line, ends as EmptyFile with no brain; a loaded brain is fresh and holds exactly one region per name and one neuron per accepted row |
| FishSignals.SignalRows | Assets/scripts/LoadFishData.cs:355-365 | one parsed row per data line, the header skipped |
| FishSignals.SignalWritesOneBrain | Assets/scripts/LoadFishData.cs:360-401 | with one brain, the neuron of row r receives exactly the events of data row r |
| FishSignals.SignalValue | Assets/scripts/LoadFishData.cs:366-381 | after a row is written, the value at t is the binarised cell 10 + t when it parses, else the old value |
| FishSignals.ReplaySceneNeuron | Assets/scripts/BrainComponents/NeuronData.cs:72 | each neuron ends with its series overwritten by exactly the events that reach it |
| FishSignals.ReplaySceneRegion | Assets/scripts/BrainComponents/NeuronData.cs:74 | each region ends with exactly the events that reach it added and counted |
| FishSignals.ReplaySceneBrain | Assets/scripts/BrainComponents/NeuronData.cs:75 | each brain ends with its totals overwritten by exactly the events that reach it |
| FishSignals.Replay | Assets/scripts/LoadFishData.cs:380 | one AddActivity changes only the neuron, its region and its brain |
| FishSignals.ReplayWrite | Assets/scripts/LoadFishData.cs:380 | one AddActivity is one step of the scene replay |
| FishSignals.ReplayBrain | Assets/scripts/LoadFishData.cs:374-380 | a brain takes the value only when it has a neuron for the row |
| FishSignals.ReplayCell | Assets/scripts/LoadFishData.cs:372-381 | one cell is written to every brain's neuron of its row, brain by brain |
| FishSignals.ReplayColumn | Assets/scripts/LoadFishData.cs:369-383 | one column is written after those before it |
| FishSignals.ReplayRow | Assets/scripts/LoadFishData.cs:366-390 | one row's columns are written in order, from the tenth on |
| FishSignals.ReplayDataRow | Assets/scripts/LoadFishData.cs:362-393 | one data line is split, parsed and written after the lines before it |
| FishSignals.ReplaySignals | Assets/scripts/LoadFishData.cs:329-401 | the whole file: the scene ends as the replay of every data row's writes |
| FishSignals.UpdateAllMinMax | Assets/scripts/LoadFishData.cs:404-410 | every region of every brain has its extremes refreshed |
| FishSignals.RefreshAll | Assets/scripts/LoadFishData.cs:404-410 | the outer loop refreshes the regions of each brain in turn |
| FishSignals.RefreshBrain | Assets/scripts/LoadFishData.cs:406-409 | every region of one brain is refreshed |
| FishSignals.RefreshOne | Assets/scripts/LoadFishData.cs:408 | one region is refreshed, even if an earlier brain refreshed it already |
| FishSignals.RefreshedTwice | Assets/scripts/LoadFishData.cs:404-410 | refreshing a region shared by two brains twice keeps the first result |
| Seizures.StoreAfterLoad | Assets/scripts/LoadFishData.cs:380 | a load keeps a 0/1 store 0/1 and leaves other fish alone |
| Seizures.LoadKeepsOtherFish | Assets/scripts/LoadFishData.cs:360-401 | after a load every neuron and brain keep other fish's values and stay 0/1 |
| Seizures.OneBrainLoad | Assets/scripts/LoadFishData.cs:360-401 | with one brain, neuron r holds at t the binarised cell 10 + t of row r when it parses |
| Seizures.FishLoader.constructor | Assets/scripts/LoadFishData.cs:178-211 | the state after Start: the given brains and signal-file dictionary, nothing selected, nothing playing (-1) |
| Seizures.FishLoader.LoadSeizureData | Assets/scripts/LoadFishData.cs:310-418 | unknown fish, missing file and a file without a data line are reported with nothing changed; otherwise every brain holds the replayed file and every region's extremes are refreshed |
| Seizures.FishLoader.ReadSignalFile | Assets/scripts/LoadFishData.cs:329-410 | the loaded branch: replay, then refresh |
| Seizures.FishLoader.GetSelectedSeizureData | Assets/scripts/LoadFishData.cs:421-436 | nothing is loaded when brain 0 already has the fish; an unknown region fails the lookup; otherwise the load runs |
| Seizures.FishLoader.SetSelectedFish | Assets/scripts/LoadFishData.cs:238-248 | the fish is selected; the load starts exactly when a region is selected too |
| Seizures.FishLoader.SetSelectedRegion | Assets/scripts/LoadFishData.cs:250-277 | an unknown region fails the lookup and keeps the selection; a known one is selected |
| Seizures.FishLoader.ShowSeizureData | Assets/scripts/LoadFishData.cs:545-558 | a missing region or fish fails, no data refuses, and none of these changes a neuron or a sphere; otherwise every timestamp of the window is shown in turn and the last one stays lit, and no neuron or sphere outside the selected region changes |
| Seizures.FishLoader.StepThroughSeizureData | Assets/scripts/LoadFishData.cs:560-619 | the shown timestamps run from start in steps below the window's end; the region ends showing the last one and the timestamp goes back to -1 |
| Seizures.ReadSignals | Assets/scripts/LoadFishData.cs:329-410 | the data rows replayed into every brain, then every listed region refreshed |
| Seizures.WindowEnd | Assets/scripts/LoadFishData.cs:576-578 | the window ends at start + duration when that is positive and inside the data, else at the number of timestamps |
| Seizures.StepsSpec | Assets/scripts/LoadFishData.cs:581 | the shown timestamps start at start, step by skip and stop at the first that reaches the end |
| Seizures.StepsByOne | Assets/scripts/LoadFishData.cs:581 | with a step of one, every timestamp from start below the end is shown, in order |
| Seizures.LitSpec | Assets/scripts/LoadFishData.cs:596-599 | a neuron is lit at t exactly when its value there reaches 0.5 and t is below the number of its entries |
| Seizures.LitDense | Assets/scripts/LoadFishData.cs:596-599 | on a fully parsed 0/1 row, a neuron is lit exactly when its value is 1 |
| Seizures.DeactivateEach | Assets/scripts/LoadFishData.cs:567-574 | each listed neuron is switched off and the others keep their state |
| Seizures.ShowTimestamp | Assets/scripts/LoadFishData.cs:587-600 | one timestamp: the previous ones are switched off and exactly the lit neurons show |
| Seizures.SetEachActiveState | Assets/scripts/LoadFishData.cs:597-606 | each picked neuron is switched on exactly when its guarded value is positive |
| LoadAndViewData.ViewRow | Assets/scripts/LoadandViewData.cs:363-405 | a row is kept exactly when it has ten values and x, y and z parse, with the parsed position, parent and label |
| LoadAndViewData.ViewNeurons | Assets/scripts/LoadandViewData.cs:363-405 | the kept rows, in file order |
| LoadAndViewData.ListsOf | Assets/scripts/LoadandViewData.cs:363-405 | one position, parent and label per kept row, and a colour per known parent |
| LoadAndViewData.ColoursAligned | Assets/scripts/LoadandViewData.cs:207 | there is a colour for every neuron if and only if every parent is a known region |
| LoadAndViewData.LoadNeuronalData | Assets/scripts/LoadandViewData.cs:317-410 | missing and bad-header files load nothing, and an empty file, where the source throws on the null header line, ends as EmptyFile with nothing loaded; otherwise the lists of the kept rows |
| LoadAndViewData.MatrixCell | Assets/scripts/LoadandViewData.cs:507-512 | every matrix cell is 0 or 1 |
| LoadAndViewData.MatrixCellBinarised | Assets/scripts/LoadandViewData.cs:507-512 | the matrix cell equals the scene loader's binarised value, and is 0 where the loader writes nothing |
| LoadAndViewData.FillRow | Assets/scripts/LoadandViewData.cs:504-514 | one row of the matrix is filled and the other rows are untouched |
| LoadAndViewData.LoadSignalData | Assets/scripts/LoadandViewData.cs:451-524 | missing file, too few lines and a negative width fail; otherwise a fresh matrix holds every data row |
| LoadAndViewData.SplitString | Assets/scripts/LoadandViewData.cs:526-533 | the value of every digit run, in order; fails exactly when a run is beyond a 32-bit int |
| LoadAndViewData.SplitStringRuns | Assets/scripts/LoadandViewData.cs:526-533 | the i-th number is the value of the i-th maximal run of digits, the runs follow one another left to right, and every digit belongs to one of them |
| LoadAndViewData.SplitStringNoDigits | Assets/scripts/LoadandViewData.cs:526-533 | no numbers if and only if no digit |
| LoadAndViewData.ParseInt32Digits | Assets/scripts/LoadandViewData.cs:893 | TryParse on a digit run gives its value when it fits an int |
| LoadAndViewData.GetFishNumber | Assets/scripts/LoadandViewData.cs:890-898 | the number after FishSignalData when there is one that fits an int, else -1 |
| LoadAndViewData.FishNumberKey | Assets/scripts/LoadandViewData.cs:909-914 | a file with a number has the key "Fish" + the same digits |
| LoadAndViewData.ExportedFiles | Assets/scripts/LoadandViewData.cs:900-937 | exactly the files whose fish number is above 37 |
| LoadAndViewData.ExportedFilesCount | Assets/scripts/LoadandViewData.cs:904-909 | each file whose fish number is above 37 is exported as often as it is listed, every other file never |
| LoadAndViewData.ExportedFilesAppend | Assets/scripts/LoadandViewData.cs:904 | the export follows the file list: filtering one list followed by another is the two filtered lists in that order |
| LoadAndViewData.ExportedFilesOne | Assets/scripts/LoadandViewData.cs:907-909 | a single file is exported exactly when its fish number is above 37 |
| LoadAndViewData.FrameNameDistinct | Assets/scripts/LoadandViewData.cs:970 | two columns get the same frame name if and only if they are equal |
| LoadAndViewData.TickerTimestamp | Assets/scripts/LoadandViewData.cs:742 | the clicked timestamp is clamped into the data |
| LoadAndViewData.SignalViewer.constructor | Assets/scripts/LoadandViewData.cs:100-113 | no signal data and no timestamp shown (-1), with the given spheres |
| LoadAndViewData.SignalViewer.PaintColumn | Assets/scripts/LoadandViewData.cs:775-785 | every neuron shows its value in the column by the given colour rule; the rest keep their colour |
| LoadAndViewData.SignalViewer.JumpToSignalTimestamp | Assets/scripts/LoadandViewData.cs:767-786 | no data or a timestamp outside the data changes nothing; otherwise the timestamp is shown red or blue |
| LoadAndViewData.SignalViewer.StepThroughSignalDataFrom | Assets/scripts/LoadandViewData.cs:859-887 | every timestamp from start is shown in turn, the last stays shown and the timestamp goes back to -1 |
| LoadAndViewData.SignalViewer.ExportSignalDataVideo | Assets/scripts/LoadandViewData.cs:940-981 | one frame per shown timestamp, named by its column; the last stays shown and the timestamp goes back to -1 |
| NeuronGPUSystem.Drop | Assets/scripts/NeuronGPUSystem.cs:233-236 | removing a character never lengthens the text |
| NeuronGPUSystem.RemoveAllChar | Assets/scripts/NeuronGPUSystem.cs:233-236 | Replace of one character by nothing drops it |
| NeuronGPUSystem.StripMarksClean | Assets/scripts/NeuronGPUSystem.cs:233-236 | no bracket or quote mark is left |
| NeuronGPUSystem.GpuFirstRegion | Assets/scripts/NeuronGPUSystem.cs:230-242 | every neuron gets a non-empty region name |
| NeuronGPUSystem.GpuFirstRegionClean | Assets/scripts/NeuronGPUSystem.cs:230-242 | the region is "None" or a name with no mark and no separator |
| NeuronGPUSystem.SplitKeepsOut | Assets/scripts/NeuronGPUSystem.cs:237 | splitting adds no character |
| NeuronGPUSystem.GpuRow | Assets/scripts/NeuronGPUSystem.cs:158-192 | a kept row has seven values, and its neuron starts still and inactive |
| NeuronGPUSystem.GpuRowParsed | Assets/scripts/NeuronGPUSystem.cs:160-183 | a row is kept exactly when it has seven values and x, y and z parse; z is stretched three times |
| NeuronGPUSystem.GpuRows | Assets/scripts/NeuronGPUSystem.cs:156-193 | each row's record, or none where it is skipped |
| NeuronGPUSystem.Kept | Assets/scripts/NeuronGPUSystem.cs:156-193 | the records that are there, in order |
| NeuronGPUSystem.GpuNeurons | Assets/scripts/NeuronGPUSystem.cs:156-198 | the records of the kept rows; all start still and inactive |
| NeuronGPUSystem.LowestTight | Assets/scripts/NeuronGPUSystem.cs:248-256 | the minimum is below every position and each coordinate is one of theirs |
| NeuronGPUSystem.HighestTight | Assets/scripts/NeuronGPUSystem.cs:248-256 | the maximum is above every position and each coordinate is one of theirs |
| NeuronGPUSystem.PaddedBoundsHoldAll | Assets/scripts/NeuronGPUSystem.cs:258-261 | the render bounds hold every neuron |
| NeuronGPUSystem.Clamp | Assets/scripts/NeuronGPUSystem.cs:408 | Mathf.Clamp: in range kept, below raised to the low end, above cut to the high end |
| NeuronGPUSystem.Clamp01 | Assets/scripts/NeuronGPUSystem.cs:419 | Mathf.Clamp01: in range kept, else the nearer end |
| NeuronGPUSystem.ReadGpuRows | Assets/scripts/NeuronGPUSystem.cs:156-193 | the loop builds exactly the records of the kept rows |
| NeuronGPUSystem.NeuronGPUSystem.constructor | Assets/scripts/NeuronGPUSystem.cs:17-31 | no neurons, and the active count at its default of 1000 |
| NeuronGPUSystem.NeuronGPUSystem.LoadNeuronsFromCSV | Assets/scripts/NeuronGPUSystem.cs:118-228 | missing and bad-header files change nothing, and an empty file, where the source throws on the null header line, ends as GpuEmptyFile with nothing changed; otherwise the cache holds exactly the kept records, and the bounds are set when there is one |
| NeuronGPUSystem.NeuronGPUSystem.CalculateBounds | Assets/scripts/NeuronGPUSystem.cs:244-262 | the padded bounds of the extremes; nothing changes for no neurons |
| NeuronGPUSystem.NeuronGPUSystem.SetNumActiveNeurons | Assets/scripts/NeuronGPUSystem.cs:406-409 | the count is clamped into [0, number of neurons] |
| NeuronGPUSystem.NeuronGPUSystem.ActivateNeuron | Assets/scripts/NeuronGPUSystem.cs:412-426 | only that neuron's activation changes, to the clamped level; an index out of range changes nothing |
| NeuronGPUSystem.NeuronGPUSystem.DeactivateNeuron | Assets/scripts/NeuronGPUSystem.cs:428-431 | only that neuron's activation changes, to 0 |
| NeuronGPUSystem.NeuronGPUSystem.ActivateNeuronRange | Assets/scripts/NeuronGPUSystem.cs:433-442 | exactly the neurons from start to end, both included, take the clamped level |
| NeuronGPUSystem.NeuronGPUSystem.DeactivateAllNeurons | Assets/scripts/NeuronGPUSystem.cs:444-453 | every activation is 0 and nothing else changes |
| NeuronGPUSystem.NeuronGPUSystem.GetNeuronActivation | Assets/scripts/NeuronGPUSystem.cs:455-461 | the stored activation, 0 out of range, always in [0, 1] |
| VideoProcessor.PngNames | Assets/scripts/Videoprocessing/video_processor.py:54 | only ".png" names, in listing order |
| VideoProcessor.PngNamesCount | Assets/scripts/Videoprocessing/video_processor.py:54 | each ".png" name is kept as often as it is listed, others never |
| VideoProcessor.CandidatesCount | Assets/scripts/Videoprocessing/video_processor.py:57-60 | each name is collected, with its frame number, as often as listed exactly when the number is in range |
| VideoProcessor.InsertSorted | Assets/scripts/Videoprocessing/video_processor.py:62 | inserting into a sorted list keeps it sorted |
| VideoProcessor.SortByFrame | Assets/scripts/Videoprocessing/video_processor.py:62 | a sorted permutation of the frames |
| VideoProcessor.SortByFrameStable | Assets/scripts/Videoprocessing/video_processor.py:62 | frames with the same number keep their order |
| VideoProcessor.GetFrameList | Assets/scripts/Videoprocessing/video_processor.py:52-63 | the loop builds exactly the filtered, sorted frame list |
| VideoProcessor.FrameListOnlyQualifying | Assets/scripts/Videoprocessing/video_processor.py:52-63 | every listed frame is a ".png" name of the directory with its number in range |
| VideoProcessor.FrameListHasQualifying | Assets/scripts/Videoprocessing/video_processor.py:52-63 | every such name is listed |
| VideoProcessor.FrameListCount | Assets/scripts/Videoprocessing/video_processor.py:52-63 | each qualifying name appears as often as in the directory, others never |
| VideoProcessor.FrameListSorted | Assets/scripts/Videoprocessing/video_processor.py:62-63 | the list is in non-decreasing frame order |
| VideoProcessor.WritePass | Assets/scripts/Videoprocessing/video_processor.py:70-100 | one pass writes its frame, the repeats of the next and the blends, ending where an exception is raised |
| VideoProcessor.RepeatNext | Assets/scripts/Videoprocessing/video_processor.py:84-86 | the next frame written repeat-count times |
| VideoProcessor.BlendAll | Assets/scripts/Videoprocessing/video_processor.py:89-96 | the blends written in order |
| VideoProcessor.ProcessAllFrames | Assets/scripts/Videoprocessing/video_processor.py:65-103 | one pass per frame but the last, success always, and the count is what was written |
| VideoProcessor.FrameCountAllLoaded | Assets/scripts/Videoprocessing/video_processor.py:65-103 | with every frame loading at one shape, (n - 1) * (1 + repeats + blends) frames are written |
| VideoProcessor.Join | Assets/scripts/Videoprocessing/video_processor.py:108 | the joined path ends with the second part |
| VideoProcessor.OutputPathShape | Assets/scripts/Videoprocessing/video_processor.py:105-108 | the path ends in the video's name and ".mp4" and starts with the output directory |
| VideoProcessor.CreateVideo | Assets/scripts/Videoprocessing/video_processor.py:12-50 | succeeds exactly when there are frames, the first loads and the writer opens, and then writes what the frame loop writes; else writes nothing |

## Left out

- Unity rendering and UI are not modelled. This covers meshes, materials,
  colliders, cameras and labels, GUI drawing, progress bars and status messages,
  coroutine scheduling and yields, pausing, and the timeline marker. Only the
  state that these parts change is kept, such as which sphere is lit and each
  sphere's colour.
- `InitNeuron` (NeuronData.cs:110-142) is not modelled separately. It creates
  components and sets the mesh, material and scale. The model keeps only the
  effect of the scale, as the rendered box in `SphereBounds`.
- HighlightSphere is reduced to one `lit` flag. NeuronData calls `TurnOn` and
  `TurnOff`, but HighlightSphere.cs does not define them. The model gives them
  the meaning their names state.
- `MakeSeizureLine` and `ShowRegionsStepByStep` draw lines and animate regions,
  which is UI only. LoadSeizureData ends by calling MakeSeizureLine. The model
  stops before that call.
- The feature loop of LoadAllNeuronData (LoadFishData.cs:744-748) is left out.
  It calls a two-argument `AddFeature` that FeatureData does not define.
- In the signal file, a file without a first data line sets a status message
  and then fails on the null line (LoadFishData.cs:334-338). The model reports
  `NoDataLine` and changes nothing, which is the state the exception leaves.
- An empty positions file makes `ReadLine()` return null, and the header `Split`
  then throws NullReferenceException in all three loaders (LoadFishData.cs:638-639,
  LoadandViewData.cs:343-344, NeuronGPUSystem.cs:133-134). The outcomes
  `EmptyFile` and `GpuEmptyFile` stand for that exception. The model changes
  nothing on that path and does not model the exception itself.
- The `forIterations` break (LoadFishData.cs:385-389) can never fire. The counter
  stays below the number of values. The model leaves it out.
- Floats are exact reals. `float.TryParse` is read as an exact decimal numeral,
  with no rounding to single precision, no exponents, no thousands separators
  and no culture settings. .NET also accepts "NaN", "Infinity" and
  "-Infinity", which `Text.ParseDecimal` rejects. A signal cell "NaN" makes the
  source write 0, because NaN > 0 is false (LoadFishData.cs:369-380). The model
  writes nothing for that cell. A position "NaN" or "Infinity" gives the source
  a neuron at a non-finite position, and the model counts the row without a
  neuron.
- Python's `lower()` and `\d`, and .NET's `\d`, are modelled on ASCII only.
- cv2 pixels are left out. A frame is its shape, and a blend is its weight.
  `cv2.addWeighted` and any `cv2.error` it could raise are not modelled.
- `VideoLogger`, `debug_single_frame`, `process_directory`, `__str__` and
  `VideoConfig.validate` (logging and directory walking) are left out. The
  C# video compile helpers are left out too.
- The processor's settings lookup is modelled as a record of the five values it
  reads.
- The GPU buffers, the compute shader, `SetupRendering`, `HandleMouseInteraction`
  and `FindNearestNeuronToRay` are left out. They are GPU and input handling.
- The export folder name uses the current time (LoadandViewData.cs:948). Only
  the frame file names are modelled.
- Seizures.FishLoader.SetSelectedFish: the contract is weaker than
  GetSelectedSeizureData's. On a load it states the replay but not the refreshed
  extremes. On the other outcomes it does not state that the stores are
  unchanged.
- Seizures.FishLoader.StepThroughSeizureData requires a positive step. A step of
  0 or less would never end, and the callers only use the default of 1.
- NeuronGPUSystem.NeuronGPUSystem.ActivateNeuronRange requires that a negative
  start index never reaches the loop. Such an index would be out of range there,
  and the source would throw.
- LoadAndViewData.SignalViewer.StepThroughSignalDataFrom and
  LoadAndViewData.SignalViewer.ExportSignalDataVideo require a non-negative
  start. A negative one would index the matrix out of range, and the callers
  pass 0 or a clamped click.

## Findings

| source | as written | input that shows it | evidently intended | confidence | as-written member | corrected member |
|---|---|---|---|---|---|---|
| Assets/scripts/LoadFishData.cs:640-650 | the header guard rejects fewer than 6 columns, then reads `headers[6]` | a header of exactly the six names `# SWC Index,xpos,ypos,zpos,Region,Subregion` throws IndexOutOfRangeException | reject fewer than 7 columns | high, not executed | LoadFishData.HeaderIndexOutOfRangeExample | LoadFishData.CheckHeaderAsWrittenAgrees |
| Assets/scripts/LoadFishData.cs:681-693 | the row guard skips fewer than 6 values, then reads `values[6]` | the row `1,0,0,0,Diencephalon,x` throws IndexOutOfRangeException | a six-value row, which has no label, is skipped as malformed; every other row is handled as written | high, not executed | LoadFishData.RowIndexOutOfRangeExample | LoadFishData.ClassifyRow |
| Assets/scripts/BrainComponents/NeuronData.cs:98-100 | the guard compares the timestamp with the number of entries, then indexes by it | a series {1: 1.0} hides its positive value at t = 1; a series {5: 1.0} throws KeyNotFoundException at t = 0 | test that the timestamp is a key | medium, not executed | BrainComponents.ActivationGapCounterexample | BrainComponents.Neuron.SetActiveStateByKey |

LoadAllNeuronData uses the corrected header test (`HeaderOk`) and the corrected
row test (`ClassifyRow`). The third finding only shows when a signal cell fails
to parse, which leaves a gap in the series. The playback keeps the guard as
written: `Seizures.LitSpec` states its effect, and `Seizures.LitDense` shows
that it agrees with the key test on fully parsed rows.
